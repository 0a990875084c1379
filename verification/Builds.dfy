/** A whole build, from the members of the packages to the entries of the archive (buster/osbuild/rootfs.py). */
module Builds {
  import opened Text
  import opened Overlay
  import opened Packing
  import opened Rootfs
  import opened RootfsFacts

  // ---------------------------------------------------------------- how a member is archived

  /** Something to archive: not the root, not a device or the like. */
  predicate Brings(m: Member) { MemberPath(m.name) != [] && !m.content.IsOther? }

  /** The entry a member calls for: its own kind, bytes or target, and permission bits, 0755 or 0644 where it has
      none. */
  function ArchivedAs(m: Member): Entry
    requires Brings(m)
  {
    var bits := m.mode % 4096;
    var body :=
      match m.content
      case IsDir => DirBody(if bits == 0 then 493 else bits)
      case IsFile(bytes) => FileBody(if bits == 0 then 420 else bits, bytes)
      case IsSymlink(target) => LinkBody(false, target)
      case IsHardlink(target) => LinkBody(true, target);
    Entry(MemberPath(m.name), body)
  }

  /** No later member brings the same path. */
  ghost predicate LastThere(members: seq<Member>, i: int) {
    && 0 <= i < |members| && Brings(members[i])
    && (forall j :: i < j < |members| && Brings(members[j]) ==> MemberPath(members[j].name) != MemberPath(members[i].name))
  }

  ghost predicate FromMember(members: seq<Member>, e: Entry) { exists i :: LastThere(members, i) && ArchivedAs(members[i]) == e }

  ghost predicate FromLayout(arch: string, e: Entry) {
    exists i :: 0 <= i < |LayoutLinks(arch)| && e == Entry([LayoutLinks(arch)[i].0], LinkBody(false, LayoutLinks(arch)[i].1))
  }

  function AllMembers(payloads: seq<seq<Member>>): seq<Member> {
    if payloads == [] then [] else AllMembers(payloads[..|payloads| - 1]) + payloads[|payloads| - 1]
  }

  lemma {:induction false} PayloadsJoined(a: seq<Member>, b: seq<Member>)
    ensures PayloadOps(a + b) == PayloadOps(a) + PayloadOps(b)
    decreases |b|
  {
    hide OpsFor;
    if b == [] {
      assert a + b == a;
    } else {
      assert (a + b)[..|a + b| - 1] == a + b[..|b| - 1];
      PayloadsJoined(a, b[..|b| - 1]);
    }
  }

  lemma {:induction false} BuildRecords(arch: string, payloads: seq<seq<Member>>)
    ensures BuildOps(arch, payloads) == LayoutOps(arch) + PayloadOps(AllMembers(payloads))
  {
    hide LayoutOps, OpsFor;
    if payloads != [] {
      BuildRecords(arch, payloads[..|payloads| - 1]);
      PayloadsJoined(AllMembers(payloads[..|payloads| - 1]), payloads[|payloads| - 1]);
    }
  }

  // ---------------------------------------------------------------- every last member has its entry

  /** What is expected at one path is not changed by an operation at another. */
  lemma ElsewhereSame(log: seq<Op>, op: Op, p: Path)
    requires p in Expected(log) && op.path != p
    ensures p in Expected(log + [op])
    ensures Expected(log + [op])[p] == Expected(log)[p]
  {
    hide ModesOf, LinksOf, FilesOf, DirsOf, DirsFor;
    LastOp(log, op);
  }

  lemma MemberOps(m: Member)
    ensures Brings(m) ==> |OpsFor(m)| == 1 && OpsFor(m)[0].path == MemberPath(m.name)
    ensures !Brings(m) ==> OpsFor(m) == []
  {
    hide MemberPath;
  }

  lemma JustRecorded(log: seq<Op>, m: Member)
    requires Brings(m) && OneOwner(log + OpsFor(m))
    ensures var e := ArchivedAs(m); e.path in Expected(log + OpsFor(m)) && Expected(log + OpsFor(m))[e.path] == e.body
  {
    hide ModesOf, LinksOf, FilesOf, DirsOf, OneOwner, MemberPath, Prefixes;
    var p := MemberPath(m.name);
    MemberOps(m);
    assert OpsFor(m) == [OpsFor(m)[0]];
    LastOp(log, OpsFor(m)[0]);
    Owners(log + OpsFor(m));
    PrefixesParent(p);
  }

  lemma {:induction false} LastMemberExpected(log: seq<Op>, members: seq<Member>, i: nat)
    requires OneOwner(log + PayloadOps(members)) && LastThere(members, i)
    ensures var (x, e) := (Expected(log + PayloadOps(members)), ArchivedAs(members[i])); e.path in x && x[e.path] == e.body
    decreases |members|
  {
    hide OneOwner, OpsFor, ArchivedAs, Expected, MemberPath, Brings;
    var (init, last) := (members[..|members| - 1], members[|members| - 1]);
    var before := log + PayloadOps(init);
    assert log + PayloadOps(members) == before + OpsFor(last);
    if i == |init| {
      JustRecorded(before, last);
    } else {
      OneOwnerPrefix(before, OpsFor(last));
      assert LastThere(init, i);
      LastMemberExpected(log, init, i);
      MemberOps(last);
      EntryPath(members[i]);
      if Brings(last) {
        assert OpsFor(last) == [OpsFor(last)[0]];
        ElsewhereSame(before, OpsFor(last)[0], MemberPath(members[i].name));
      } else {
        assert before + OpsFor(last) == before;
      }
    }
  }

  lemma EntryPath(m: Member)
    requires Brings(m)
    ensures ArchivedAs(m).path == MemberPath(m.name)
  {
  }

  lemma MembersArchived(arch: string, payloads: seq<seq<Member>>, entries: seq<Entry>)
    requires OneOwner(BuildOps(arch, payloads)) && Holds(entries, Expected(BuildOps(arch, payloads)))
    ensures forall i :: LastThere(AllMembers(payloads), i) ==> ArchivedAs(AllMembers(payloads)[i]) in entries
  {
    hide OneOwner, Expected, Holds, LayoutOps, PayloadOps, LastThere, ArchivedAs, AllMembers, BuildOps;
    BuildRecords(arch, payloads);
    var members := AllMembers(payloads);
    forall i | LastThere(members, i) ensures InBounds(members, i) && ArchivedAs(members[i]) in entries {
      LastBrings(members, i);
      LastMemberExpected(LayoutOps(arch), members, i);
      HeldEntries(entries, Expected(BuildOps(arch, payloads)), ArchivedAs(members[i]));
    }
    forall i | LastThere(members, i) ensures InBounds(members, i) { LastBrings(members, i); }
  }

  predicate InBounds(members: seq<Member>, i: int) { 0 <= i < |members| && Brings(members[i]) }

  lemma LastBrings(members: seq<Member>, i: int)
    requires LastThere(members, i)
    ensures InBounds(members, i)
  {
  }

  // ---------------------------------------------------------------- and nothing else is archived

  /** A file or link that was not there before comes from a member. */
  lemma {:induction false} BroughtBy(log: seq<Op>, members: seq<Member>, p: Path) returns (i: nat)
    requires p in LinksOf(log + PayloadOps(members)) || p in FilesOf(log + PayloadOps(members))
    requires p !in LinksOf(log) && p !in FilesOf(log)
    ensures LastThere(members, i) && MemberPath(members[i].name) == p
    decreases |members|
  {
    hide ModesOf, LinksOf, FilesOf, DirsOf, OpsFor, MemberPath, Brings;
    NoPayload(log);
    var (init, last) := (members[..|members| - 1], members[|members| - 1]);
    var before := log + PayloadOps(init);
    assert log + PayloadOps(members) == before + OpsFor(last);
    MemberOps(last);
    if Brings(last) && MemberPath(last.name) == p {
      i := |init|;
    } else {
      if Brings(last) {
        assert OpsFor(last) == [OpsFor(last)[0]];
        LastOp(before, OpsFor(last)[0]);
      } else {
        assert before + OpsFor(last) == before;
      }
      i := BroughtBy(log, init, p);
    }
  }

  lemma NoPayload(log: seq<Op>)
    ensures log + PayloadOps([]) == log
  {
  }

  /** The layout's links are as laid out: no member goes there. */
  lemma {:induction false} LinkStays(log: seq<Op>, members: seq<Member>, p: Path)
    requires p != [] && p[0] in LinkNames()
    ensures p in LinksOf(log + PayloadOps(members)) <==> p in LinksOf(log)
    ensures p in LinksOf(log) ==> LinksOf(log + PayloadOps(members))[p] == LinksOf(log)[p]
    ensures p in FilesOf(log + PayloadOps(members)) <==> p in FilesOf(log)
    decreases |members|
  {
    hide ModesOf, LinksOf, FilesOf, DirsOf, OpsFor, MemberPath, Brings, LinkNames;
    if members == [] {
      assert log + [] == log;
    } else {
      var (init, last) := (members[..|members| - 1], members[|members| - 1]);
      var before := log + PayloadOps(init);
      assert log + PayloadOps(members) == before + OpsFor(last);
      MemberOps(last);
      LinkStays(log, init, p);
      if Brings(last) {
        assert OpsFor(last) == [OpsFor(last)[0]];
        LastOp(before, OpsFor(last)[0]);
        MembersAvoidLinks(last.name);
      } else {
        assert before + OpsFor(last) == before;
      }
    }
  }

  lemma {:induction false} LaidLinks(log: seq<Op>, links: seq<(string, string)>, p: Path) returns (i: nat)
    requires LinksOf(log) == map[] && p in LinksOf(log + LinkOps(links))
    ensures i < |links| && p == [links[i].0] && LinksOf(log + LinkOps(links))[p] == Link(false, links[i].1)
    decreases |links|
  {
    hide ModesOf, FilesOf, DirsOf, LinksOf;
    NoLinks(log);
    var (init, last) := (links[..|links| - 1], links[|links| - 1]);
    var op := LinkOp([last.0], Link(false, last.1));
    assert log + LinkOps(links) == (log + LinkOps(init)) + [op];
    LastOp(log + LinkOps(init), op);
    if p == [last.0] { i := |init|; } else { i := LaidLinks(log, init, p); }
  }

  lemma NoLinks(log: seq<Op>)
    ensures log + LinkOps([]) == log
  {
  }

  lemma LayoutHolds(arch: string)
    ensures FilesOf(LayoutOps(arch)) == map[] && LinksOf(DirOps(BaseDirs())) == map[]
    ensures forall p :: p in LinksOf(LayoutOps(arch)) ==> p != [] && p[0] in LinkNames()
  {
    hide DirsOf, LinksOf, FilesOf, OneOwner, DirOps, LinkOps;
    DirOpsMeaning(BaseDirs());
    LinkOpsMeaning(DirOps(BaseDirs()), LayoutLinks(arch));
  }

  lemma FileOrLink(log: seq<Op>, e: Entry)
    requires e.path in Expected(log) && Expected(log)[e.path] == e.body && !e.body.DirBody?
    ensures e.path in LinksOf(log) || e.path in FilesOf(log)
  {
    hide ModesOf, LinksOf, FilesOf, DirsOf;
  }

  lemma EntrySource(arch: string, members: seq<Member>, e: Entry)
    requires var log := LayoutOps(arch) + PayloadOps(members);
      OneOwner(log) && e.path in Expected(log) && Expected(log)[e.path] == e.body && !e.body.DirBody?
    ensures FromMember(members, e) || FromLayout(arch, e)
  {
    hide OneOwner, LinksOf, FilesOf, DirsOf, ModesOf, PayloadOps, LastThere, ArchivedAs, LayoutLinks, DirOps, LinkOps, BaseDirs,
         MemberPath, LinkNames;
    var (layout, p) := (LayoutOps(arch), e.path);
    LayoutHolds(arch);
    FileOrLink(layout + PayloadOps(members), e);
    if p in LinksOf(layout) {
      LinkStays(layout, members, p);
      var i := LaidLinks(DirOps(BaseDirs()), LayoutLinks(arch), p);
    } else {
      var i := BroughtBy(layout, members, p);
      LastBrings(members, i);
      LastMemberExpected(layout, members, i);
      EntryPath(members[i]);
    }
  }

  lemma NothingElse(arch: string, payloads: seq<seq<Member>>, entries: seq<Entry>)
    requires OneOwner(BuildOps(arch, payloads)) && Holds(entries, Expected(BuildOps(arch, payloads)))
    ensures forall e :: e in entries && !e.body.DirBody? ==> FromMember(AllMembers(payloads), e) || FromLayout(arch, e)
  {
    hide OneOwner, Expected, Holds, LayoutOps, PayloadOps, FromMember, FromLayout, AllMembers, BuildOps;
    BuildRecords(arch, payloads);
    forall e | e in entries && !e.body.DirBody? ensures FromMember(AllMembers(payloads), e) || FromLayout(arch, e) {
      HeldEntries(entries, Expected(BuildOps(arch, payloads)), e);
      EntrySource(arch, AllMembers(payloads), e);
    }
  }

  // ---------------------------------------------------------------- directories

  /** No later directory of the layout has the same path. */
  ghost predicate LastDir(dirs: seq<(Path, Mode)>, i: int) {
    0 <= i < |dirs| && dirs[i].0 != [] && forall j :: i < j < |dirs| ==> dirs[j].0 != dirs[i].0
  }

  lemma {:induction false} DirLaid(dirs: seq<(Path, Mode)>, i: nat)
    requires LastDir(dirs, i)
    ensures dirs[i].0 in DirsOf(DirOps(dirs)) && dirs[i].0 in ModesOf(DirOps(dirs))
    ensures ModesOf(DirOps(dirs))[dirs[i].0].mode == dirs[i].1
    decreases |dirs|
  {
    hide ModesOf, LinksOf, FilesOf, DirsOf, Prefixes;
    var (init, last) := (dirs[..|dirs| - 1], dirs[|dirs| - 1]);
    LastOp(DirOps(init), DirOp(last.0, last.1));
    if i < |init| {
      assert LastDir(init, i);
      DirLaid(init, i);
    } else {
      PrefixesParent(last.0);
    }
  }

  lemma {:induction false} LinksElsewhere(log: seq<Op>, links: seq<(string, string)>, p: Path)
    requires p in Expected(log) && forall i :: 0 <= i < |links| ==> [links[i].0] != p
    ensures p in Expected(log + LinkOps(links)) && Expected(log + LinkOps(links))[p] == Expected(log)[p]
    decreases |links|
  {
    hide Expected;
    if links == [] {
      NoLinks(log);
    } else {
      var (init, last) := (links[..|links| - 1], links[|links| - 1]);
      LinksElsewhere(log, init, p);
      assert log + LinkOps(links) == (log + LinkOps(init)) + [LinkOp([last.0], Link(false, last.1))];
      ElsewhereSame(log + LinkOps(init), LinkOp([last.0], Link(false, last.1)), p);
    }
  }

  lemma {:induction false} MembersElsewhere(log: seq<Op>, members: seq<Member>, p: Path)
    requires p in Expected(log) && forall i :: 0 <= i < |members| && Brings(members[i]) ==> MemberPath(members[i].name) != p
    ensures p in Expected(log + PayloadOps(members)) && Expected(log + PayloadOps(members))[p] == Expected(log)[p]
    decreases |members|
  {
    hide Expected, OpsFor, MemberPath, Brings;
    if members == [] {
      NoPayload(log);
    } else {
      var (init, last) := (members[..|members| - 1], members[|members| - 1]);
      var before := log + PayloadOps(init);
      assert log + PayloadOps(members) == before + OpsFor(last);
      MembersElsewhere(log, init, p);
      MemberOps(last);
      if Brings(last) {
        assert OpsFor(last) == [OpsFor(last)[0]];
        ElsewhereSame(before, OpsFor(last)[0], p);
      } else {
        assert before + OpsFor(last) == before;
      }
    }
  }

  /** A directory of the layout that no member brings is archived with the layout's mode. */
  lemma LayoutDirsArchived(arch: string, payloads: seq<seq<Member>>, entries: seq<Entry>, i: nat)
    requires Holds(entries, Expected(BuildOps(arch, payloads))) && LastDir(BaseDirs(), i) && BaseDirs()[i].1 != 0
    requires forall j :: 0 <= j < |AllMembers(payloads)| && Brings(AllMembers(payloads)[j]) ==>
               MemberPath(AllMembers(payloads)[j].name) != BaseDirs()[i].0
    ensures Entry(BaseDirs()[i].0, DirBody(BaseDirs()[i].1)) in entries
  {
    hide Expected, Holds, PayloadOps, AllMembers, BuildOps, BaseDirs, LayoutLinks, DirOps, LinkOps, MemberPath, Brings;
    var (p, mode) := (BaseDirs()[i].0, BaseDirs()[i].1);
    BuildRecords(arch, payloads);
    LaidDirExpected(i);
    LayoutLinkNames(arch, p);
    LinksElsewhere(DirOps(BaseDirs()), LayoutLinks(arch), p);
    MembersElsewhere(LayoutOps(arch), AllMembers(payloads), p);
    HeldEntries(entries, Expected(BuildOps(arch, payloads)), Entry(p, DirBody(mode)));
  }

  /** The layout's directories are open to read and enter, /root is closed to others, and the three places for temporary
      files are open to all, with the sticky bit. */
  lemma LayoutModes(i: nat)
    requires i < |BaseDirs()|
    ensures BaseDirs()[i].1 == (if BaseDirs()[i].0 == ["root"] then 0x1c0
                                else if BaseDirs()[i].0 in [["tmp"], ["var", "tmp"], ["dev", "shm"]] then 0x3ff
                                else 0x1ed)
  {
  }

  lemma LaidDirExpected(i: nat)
    requires LastDir(BaseDirs(), i) && BaseDirs()[i].1 != 0
    ensures var (p, log) := (BaseDirs()[i].0, DirOps(BaseDirs()));
      p in Expected(log) && Expected(log)[p] == DirBody(BaseDirs()[i].1) && p != [] && p[0] !in LinkNames()
  {
    hide DirsOf, LinksOf, FilesOf, ModesOf, DirOps, BaseDirs;
    BaseDirsPlain();
    DirOpsMeaning(BaseDirs());
    DirLaid(BaseDirs(), i);
  }

  lemma BaseDirsPlain()
    ensures forall i :: 0 <= i < |BaseDirs()| ==> BaseDirs()[i].0 != [] && BaseDirs()[i].0[0] !in LinkNames()
  {
  }

  lemma LayoutLinkNames(arch: string, p: Path)
    requires p != [] && p[0] !in LinkNames()
    ensures forall i :: 0 <= i < |LayoutLinks(arch)| ==> [LayoutLinks(arch)[i].0] != p
  {
    assert forall i :: 0 <= i < |LayoutLinks(arch)| ==> LayoutLinks(arch)[i].0 in LinkNames();
  }

  /** A directory that is neither laid out nor brought, only on the way to something, is archived with mode 0755. */
  lemma ImpliedDirs(arch: string, payloads: seq<seq<Member>>, entries: seq<Entry>, e: Entry)
    requires Holds(entries, Expected(BuildOps(arch, payloads))) && e in entries && e.body.DirBody?
    requires e.path !in ModesOf(LayoutOps(arch))
    requires forall j :: 0 <= j < |AllMembers(payloads)| && Brings(AllMembers(payloads)[j]) ==>
               MemberPath(AllMembers(payloads)[j].name) != e.path
    ensures e.body == DirBody(493)
  {
    hide Holds, PayloadOps, AllMembers, BuildOps, LayoutOps, MemberPath, Brings, ModesOf, LinksOf, FilesOf, DirsOf;
    BuildRecords(arch, payloads);
    HeldEntries(entries, Expected(BuildOps(arch, payloads)), e);
    ModeFrom(LayoutOps(arch), AllMembers(payloads), e.path);
  }

  lemma {:induction false} ModeFrom(log: seq<Op>, members: seq<Member>, p: Path)
    requires p !in ModesOf(log) && forall j :: 0 <= j < |members| && Brings(members[j]) ==> MemberPath(members[j].name) != p
    ensures p !in ModesOf(log + PayloadOps(members))
    decreases |members|
  {
    hide ModesOf, LinksOf, FilesOf, DirsOf, OpsFor, MemberPath, Brings;
    if members == [] {
      NoPayload(log);
    } else {
      var (init, last) := (members[..|members| - 1], members[|members| - 1]);
      var before := log + PayloadOps(init);
      assert log + PayloadOps(members) == before + OpsFor(last);
      ModeFrom(log, init, p);
      MemberOps(last);
      if Brings(last) {
        assert OpsFor(last) == [OpsFor(last)[0]];
        LastOp(before, OpsFor(last)[0]);
      } else {
        assert before + OpsFor(last) == before;
      }
    }
  }

  // ---------------------------------------------------------------- paths and links

  /** The paths a payload returns are those of the members it brings. */
  lemma {:induction false} InstalledPathsAre(members: seq<Member>, p: Path)
    ensures p in InstalledPaths(members) <==> exists i :: 0 <= i < |members| && Brings(members[i]) && MemberPath(members[i].name) == p
  {
    hide MemberPath, OpsFor, Brings;
    if members != [] {
      var (init, last) := (members[..|members| - 1], members[|members| - 1]);
      InstalledPathsAre(init, p);
      MemberOps(last);
      if i :| 0 <= i < |init| && Brings(init[i]) && MemberPath(init[i].name) == p {
        assert Brings(members[i]) && MemberPath(members[i].name) == p;
      }
      if i :| 0 <= i < |members| && Brings(members[i]) && MemberPath(members[i].name) == p {
        assert i < |init| ==> Brings(init[i]) && MemberPath(init[i].name) == p;
      }
    }
  }

  /** Each layout link leads where the members of the directory it stands for go, and there is one for each merged
      directory, /lib64 only for amd64. */
  lemma LayoutLinksLead(arch: string, name: string)
    ensures (exists i :: 0 <= i < |LayoutLinks(arch)| && LayoutLinks(arch)[i].0 == name)
            <==> name in LinkNames() && (name == "lib64" ==> arch == "amd64")
    ensures forall i :: 0 <= i < |LayoutLinks(arch)| && LayoutLinks(arch)[i].0 == name ==>
              SplitOn(LayoutLinks(arch)[i].1, '/') == MemberPath(name) == ["usr", name]
  {
    hide MemberPath, SplitOn;
    var links := LayoutLinks(arch);
    assert links[0].0 == "bin" && links[1].0 == "sbin" && links[2].0 == "lib";
    if arch == "amd64" { assert links[3].0 == "lib64"; }
    forall i | 0 <= i < |links| && links[i].0 == name ensures SplitOn(links[i].1, '/') == MemberPath(name) == ["usr", name] {
      assert links[i].1 == "usr/" + name;
      MergedDirectory(name);
    }
  }

  lemma MergedDirectory(name: string)
    requires name in LinkNames()
    ensures SplitOn("usr/" + name, '/') == MemberPath(name) == ["usr", name]
  {
    hide SplitOn;
    LinkName(name);
    LinkNameBare(name);
    BarePath(name);
    SplitWhole(name, '/');
    assert Lacks("usr", '/') && "usr/" + name == "usr" + ['/'] + name;
    SplitFirst("usr", name, '/');
    assert ["usr"] + [name] == ["usr", name];
    UnderUsr(name, []);
    assert [name] + [] == [name] && ["usr", name] + [] == ["usr", name];
  }

  lemma LinkNameBare(name: string)
    requires name in LinkNames()
    ensures Bare(name)
  {
  }

  // ---------------------------------------------------------------- whole builds

  function BuildOps(arch: string, payloads: seq<seq<Member>>): seq<Op> {
    if payloads == [] then LayoutOps(arch)
    else BuildOps(arch, payloads[..|payloads| - 1]) + PayloadOps(payloads[|payloads| - 1])
  }

  lemma BuildOpsPrefix(arch: string, payloads: seq<seq<Member>>, n: nat)
    requires n <= |payloads| && OneOwner(BuildOps(arch, payloads))
    ensures OneOwner(BuildOps(arch, payloads[..n]))
    decreases |payloads|
  {
    hide OneOwner, LayoutOps, PayloadOps;
    if n < |payloads| {
      var init := payloads[..|payloads| - 1];
      OneOwnerPrefix(BuildOps(arch, init), PayloadOps(payloads[|payloads| - 1]));
      assert init[..n] == payloads[..n];
      BuildOpsPrefix(arch, init, n);
    } else {
      assert payloads[..n] == payloads;
    }
  }

  /** What a host manages to stage: its symlinks for the layout, and the symlinks and files of each payload. */
  datatype Host = Host(layout: seq<bool>, payloads: seq<seq<bool>>, dirLinks: set<Path>)

  ghost predicate Fits(host: Host, arch: string, payloads: seq<seq<Member>>) {
    && |host.layout| == |LayoutLinks(arch)| && |host.payloads| == |payloads|
    && forall i :: 0 <= i < |payloads| ==> |host.payloads[i]| == |payloads[i]|
  }

  ghost predicate PlainMembers(payloads: seq<seq<Member>>) {
    forall i, j :: 0 <= i < |payloads| && 0 <= j < |payloads[i]| ==> Plain(MemberPath(payloads[i][j].name))
  }

  /** A whole build: layout, payloads, archive. */
  method Build(arch: string, payloads: seq<seq<Member>>, host: Host) returns (entries: seq<Entry>)
    requires Fits(host, arch, payloads) && PlainMembers(payloads) && OneOwner(BuildOps(arch, payloads))
    ensures Holds(entries, Expected(BuildOps(arch, payloads)))
    ensures forall i :: LastThere(AllMembers(payloads), i) ==> ArchivedAs(AllMembers(payloads)[i]) in entries
    ensures forall e :: e in entries && !e.body.DirBody? ==> FromMember(AllMembers(payloads), e) || FromLayout(arch, e)
  {
    hide OneOwner, Represents, Packed, Packable, Expected, LayoutOps, PayloadOps, Plain, MemberPath, LayoutLinks, Holds, ArchivedAs,
         LastThere, FromMember, FromLayout, AllMembers;
    var rootfs := new Rootfs(arch);
    LayoutOneOwner(arch);
    assert [] + LayoutOps(arch) == LayoutOps(arch);
    rootfs.BuildLayout(host.layout);
    var i := 0;
    assert payloads[..0] == [];
    while i < |payloads|
      invariant 0 <= i <= |payloads| && rootfs.Valid() && rootfs.log == BuildOps(arch, payloads[..i])
    {
      assert payloads[..i + 1][..i] == payloads[..i] && payloads[..i + 1][i] == payloads[i];
      BuildOpsPrefix(arch, payloads, i + 1);
      var installed := rootfs.InstallPayload(payloads[i], host.payloads[i]);
      i := i + 1;
    }
    assert payloads[..i] == payloads;
    StagedReachable(rootfs.Contents(), rootfs.log);
    entries := rootfs.PackTree(host.dirLinks);
    ghost var walked, linked :| Packed(rootfs.Contents(), entries, walked, linked);
    PackedAsRecorded(rootfs.Contents(), rootfs.log, entries, walked, linked);
    MembersArchived(arch, payloads, entries);
    NothingElse(arch, payloads, entries);
  }

  /** The same build on two hosts gives the same entries. */
  method BuildOnTwoHosts(arch: string, payloads: seq<seq<Member>>, here: Host, there: Host)
    returns (a: seq<Entry>, b: seq<Entry>)
    requires Fits(here, arch, payloads) && Fits(there, arch, payloads)
    requires PlainMembers(payloads) && OneOwner(BuildOps(arch, payloads))
    ensures multiset(a) == multiset(b)
  {
    hide OneOwner, Fits, PlainMembers, Expected, Holds, BuildOps, ArchivedAs, LastThere, FromMember, FromLayout, AllMembers;
    a := Build(arch, payloads, here);
    b := Build(arch, payloads, there);
    SameEntries(a, b, Expected(BuildOps(arch, payloads)));
  }
}
