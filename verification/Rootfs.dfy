/** The Rootfs class (buster/osbuild/rootfs.py): laying out, installing payloads, packing; and why the archive does
    not depend on what the build host can write. */
module Rootfs {
  import opened Text
  import opened Overlay
  import opened Packing

  // ---------------------------------------------------------------- payload members

  datatype Content = IsDir | IsSymlink(target: string) | IsHardlink(target: string) | IsFile(bytes: Bytes) | IsOther

  datatype Member = Member(name: string, mode: nat, content: Content)

  function StripLeftDotSlash(s: string): string {
    if s != "" && (s[0] == '.' || s[0] == '/') then StripLeftDotSlash(s[1..]) else s
  }

  function StripSlashes(s: string): string {
    if s != "" && s[0] == '/' then StripSlashes(s[1..])
    else if s != "" && s[|s| - 1] == '/' then StripSlashes(s[..|s| - 1])
    else s
  }

  /** A package path moved under /usr where /bin, /sbin, /lib and /lib64 are links. */
  function Normalize(parts: Path): Path {
    if parts != [] && parts[0] in ["bin", "sbin", "lib", "lib64"] then ["usr"] + parts else parts
  }

  lemma NormalizeIdempotent(parts: Path)
    ensures Normalize(Normalize(parts)) == Normalize(parts)
    ensures Normalize(parts) != [] ==> Normalize(parts)[0] !in ["bin", "sbin", "lib", "lib64"]
  {
  }

  /** Where a member goes; the empty path is the root, which is skipped. */
  function MemberPath(name: string): Path {
    var rel := StripSlashes(StripLeftDotSlash(name));
    if rel == "" then [] else Normalize(SplitOn(rel, '/'))
  }

  /** What installing a member records: nothing for the root and for devices and the like. */
  function OpsFor(m: Member): seq<Op> {
    var p := MemberPath(m.name);
    if p == [] then []
    else
      match m.content
      case IsDir => [DirOp(p, PermissionBits(m.mode))]
      case IsSymlink(target) => [LinkOp(p, Link(false, target))]
      case IsHardlink(target) => [LinkOp(p, Link(true, target))]
      case IsFile(bytes) => [FileOp(p, FileInfo(PermissionBits(m.mode), bytes))]
      case IsOther => []
  }

  lemma NoOps(m: Member)
    ensures OpsFor(m) == [] <==> MemberPath(m.name) == [] || m.content.IsOther?
  {
    hide MemberPath;
  }

  function PayloadOps(members: seq<Member>): seq<Op> {
    if members == [] then [] else PayloadOps(members[..|members| - 1]) + OpsFor(members[|members| - 1])
  }

  function InstalledPaths(members: seq<Member>): seq<Path> {
    if members == [] then []
    else
      var last := members[|members| - 1];
      InstalledPaths(members[..|members| - 1]) + if OpsFor(last) == [] then [] else [MemberPath(last.name)]
  }

  // ---------------------------------------------------------------- the layout

  /** BASE_DIRS with modes. */
  function BaseDirs(): seq<(Path, Mode)> {
    [(["etc"], 493), (["usr"], 493), (["usr", "bin"], 493), (["usr", "lib"], 493), (["usr", "sbin"], 493),
     (["usr", "share"], 493), (["opt"], 493), (["srv"], 493), (["var"], 493), (["var", "lib"], 493),
     (["var", "log"], 493), (["var", "cache"], 493), (["var", "tmp"], 1023), (["run"], 493), (["tmp"], 1023),
     (["home"], 493), (["root"], 448), (["media"], 493), (["mnt"], 493), (["dev"], 493), (["proc"], 493),
     (["sys"], 493), (["etc", "apt"], 493), (["etc", "apt", "trusted.gpg.d"], 493), (["etc", "profile.d"], 493),
     (["etc", "logrotate.d"], 493), (["usr", "local"], 493), (["usr", "local", "bin"], 493),
     (["usr", "local", "lib"], 493), (["dev", "pts"], 493), (["dev", "shm"], 1023)]
  }

  function LayoutLinks(arch: string): seq<(string, string)> {
    [("bin", "usr/bin"), ("sbin", "usr/sbin"), ("lib", "usr/lib")]
    + if arch == "amd64" then [("lib64", "usr/lib64")] else []
  }

  function DirOps(dirs: seq<(Path, Mode)>): seq<Op> {
    if dirs == [] then [] else DirOps(dirs[..|dirs| - 1]) + [DirOp(dirs[|dirs| - 1].0, dirs[|dirs| - 1].1)]
  }

  function LinkOps(links: seq<(string, string)>): seq<Op> {
    if links == [] then []
    else LinkOps(links[..|links| - 1]) + [LinkOp([links[|links| - 1].0], Link(false, links[|links| - 1].1))]
  }

  function LayoutOps(arch: string): seq<Op> { DirOps(BaseDirs()) + LinkOps(LayoutLinks(arch)) }

  lemma {:induction false} OneOwnerPrefix(log: seq<Op>, rest: seq<Op>)
    requires OneOwner(log + rest)
    ensures OneOwner(log)
    decreases |rest|
  {
    if rest == [] {
      assert log + rest == log;
    } else {
      var (init, last) := (rest[..|rest| - 1], rest[|rest| - 1]);
      assert log + rest == (log + init) + [last];
      OwnerBefore(log + init, last);
      OneOwnerPrefix(log, init);
    }
  }

  // ---------------------------------------------------------------- the os-release file

  const OS_RELEASE: Path := ["etc", "os-release"]
  const OS_TARGET := "../usr/lib/os-release"

  function ReleaseOp(text: Bytes): Op { FileOp(["usr", "lib", "os-release"], FileInfo(FILE_MODE, text)) }

  function IssueOp(text: Bytes): Op { FileOp(["etc", "issue"], FileInfo(FILE_MODE, text)) }

  /** `etc/os-release`: a link where the host makes one, else a copy of the file, recorded as a file; `links` keeps
      what it had. */
  function AtOsRelease(s: State, text: Bytes, accepted: bool): State {
    var cleared := Unlink(s.tree, OS_RELEASE);
    if accepted && OS_RELEASE !in cleared then
      s.(modes := s.modes[OS_RELEASE := Meta(Symlink, LINK_MODE)],
         links := s.links[OS_RELEASE := Link(false, OS_TARGET)],
         tree := cleared[OS_RELEASE := LinkNode(OS_TARGET)])
    else
      s.(modes := s.modes[OS_RELEASE := Meta(Regular, FILE_MODE)], tree := cleared[OS_RELEASE := FileNode(text)])
  }

  function OsReleaseWritten(s: State, text: Bytes, issue: Bytes, accepted: bool): State {
    Installed(AtOsRelease(Installed(s, ReleaseOp(text), true), text, accepted), IssueOp(issue), true)
  }

  // ---------------------------------------------------------------- what an archive holds

  /** The archive holds exactly the entries of `expected`, each once. */
  ghost predicate Holds(entries: seq<Entry>, expected: map<Path, Body>) {
    && Distinct(entries)
    && (forall i :: 0 <= i < |entries| ==> entries[i].path in expected && expected[entries[i].path] == entries[i].body)
    && (forall p :: p in expected ==> Written(entries, p))
  }

  function FirstExtra(extras: seq<Extra>, p: Path): Option<FileInfo> {
    if extras == [] then None else if extras[0].path == p then Some(extras[0].file) else FirstExtra(extras[1..], p)
  }

  /** An archive of overlay and tree: the walk, then links not met by it in name order, then extra members not
      written yet, the first for each path. */
  ghost predicate Packed(s: State, entries: seq<Entry>, walked: nat, linked: nat) {
    && walked <= linked <= |entries| && Distinct(entries)
    && Walked(s, entries[..walked], Reach(s, []))
    && (forall i :: walked <= i < linked ==> LinkEntry(s, entries[i]))
    && (forall i, j :: walked <= i < j < linked ==> CompareText(PathText(entries[i].path), PathText(entries[j].path)) <= 0)
    && (forall i :: linked <= i < |entries| ==> ExtraEntry(s, entries[i]))
    && (forall p :: p in s.links ==> Written(entries, p))
    && (forall i :: 0 <= i < |s.extras| ==> Written(entries, s.extras[i].path))
  }

  ghost predicate Packs(s: State, entries: seq<Entry>) { exists walked, linked :: Packed(s, entries, walked, linked) }

  ghost predicate LinkEntry(s: State, e: Entry) {
    e.path in s.links && e.body == LinkBody(s.links[e.path].hard, s.links[e.path].target)
  }

  ghost predicate ExtraEntry(s: State, e: Entry) {
    e.path !in s.links && FirstExtra(s.extras, e.path).Some?
    && e.body == FileBody(Or(FirstExtra(s.extras, e.path).value.mode, FILE_MODE), FirstExtra(s.extras, e.path).value.bytes)
  }

  // ---------------------------------------------------------------- the layout has one owner for each path

  function LinkNames(): set<string> { {"bin", "sbin", "lib", "lib64"} }

  lemma {:induction false} DirOpsMeaning(dirs: seq<(Path, Mode)>)
    requires forall i :: 0 <= i < |dirs| ==> dirs[i].0 != [] && dirs[i].0[0] !in LinkNames()
    ensures var log := DirOps(dirs);
      && LinksOf(log) == map[] && FilesOf(log) == map[]
      && (forall p :: p in DirsOf(log) ==> p != [] && p[0] !in LinkNames())
      && (forall i :: 0 <= i < |log| ==> log[i].DirOp? && log[i].path != [])
  {
    hide LinkNames, Prefixes;
    if dirs != [] {
      var last := dirs[|dirs| - 1];
      DirOpsMeaning(dirs[..|dirs| - 1]);
      LastOp(DirOps(dirs[..|dirs| - 1]), DirOp(last.0, last.1));
      forall p | p in Prefixes(last.0) ensures p != [] && p[0] !in LinkNames() {
        PrefixesClosed(last.0, p);
        assert p[0] == last.0[0] by { FirstOfPrefix(last.0, p); }
      }
    }
  }

  lemma FirstOfPrefix(p: Path, q: Path)
    requires q in Prefixes(p)
    ensures q != [] && p != [] && q[0] == p[0]
  {
  }

  lemma {:induction false} LinkOpsMeaning(log: seq<Op>, links: seq<(string, string)>)
    requires FilesOf(log) == map[] && LinksOf(log).Keys <= (set n | n in LinkNames() :: [n])
    requires forall i :: 0 <= i < |links| ==> links[i].0 in LinkNames()
    requires forall p :: p in DirsOf(log) ==> p != [] && p[0] !in LinkNames()
    requires forall i :: 0 <= i < |log| ==> !log[i].FileOp? && log[i].path != []
    ensures OneOwner(log + LinkOps(links))
    ensures FilesOf(log + LinkOps(links)) == map[] && DirsOf(log + LinkOps(links)) == DirsOf(log)
    ensures LinksOf(log + LinkOps(links)).Keys <= (set n | n in LinkNames() :: [n])
    ensures forall i :: 0 <= i < |log + LinkOps(links)| ==>
              !(log + LinkOps(links))[i].FileOp? && (log + LinkOps(links))[i].path != []
  {
    hide LinkNames, ModesOf, LinksOf, FilesOf, DirsOf;
    if links == [] {
      assert log + [] == log;
    } else {
      var (init, last) := (links[..|links| - 1], links[|links| - 1]);
      LinkOpsMeaning(log, init);
      var before := log + LinkOps(init);
      var op := LinkOp([last.0], Link(false, last.1));
      assert log + LinkOps(links) == before + [op];
      LastOp(before, op);
      assert Prefixes(Parent([last.0])) == {} by { TopLevel([last.0], map[]); }
      assert DirsOf(before) + {} == DirsOf(before);
    }
  }

  lemma LayoutOneOwner(arch: string)
    ensures OneOwner(LayoutOps(arch)) && OneOwner(DirOps(BaseDirs()))
  {
    hide DirsOf, LinksOf, FilesOf, OneOwner, DirOps, LinkOps;
    DirOpsMeaning(BaseDirs());
    LinkOpsMeaning(DirOps(BaseDirs()), LayoutLinks(arch));
    OneOwnerPrefix(DirOps(BaseDirs()), LinkOps(LayoutLinks(arch)));
  }

  // ---------------------------------------------------------------- the class

  /** No empty, `.` or `..` component and no backslash, so that the name on disk is the recorded one. */
  predicate Plain(p: Path) {
    forall i :: 0 <= i < |p| ==> p[i] != "" && p[i] != "." && p[i] != ".." && Lacks(p[i], '\\')
  }

  class Rootfs {
    const arch: string
    var modes: map<Path, Meta>
    var links: map<Path, Link>
    var extraMembers: seq<Extra>
    /** The staging tree on disk. */
    var tree: map<Path, Node>
    ghost var log: seq<Op>

    function Contents(): State
      reads this
    {
      State(modes, links, extraMembers, tree)
    }

    /** Overlay and staging tree represent what was recorded so far. */
    ghost predicate Valid()
      reads this
    {
      Represents(Contents(), log)
    }

    constructor (arch: string)
      ensures Valid() && log == [] && this.arch == arch
    {
      this.arch := arch;
      modes, links, extraMembers, tree, log := map[], map[], [], map[], [];
    }

    method Record(p: Path, kind: Kind, mode: nat, linkname: string)
      modifies this`modes, this`links
      ensures modes == old(modes)[p := Meta(kind, if kind.Symlink? then LINK_MODE else PermissionBits(mode))]
      ensures links == if kind.Symlink? || kind.Hardlink? then old(links)[p := Link(kind.Hardlink?, linkname)]
                       else old(links)
    {
      if kind.Symlink? || kind.Hardlink? {
        modes := modes[p := Meta(kind, if kind.Symlink? then LINK_MODE else PermissionBits(mode))];
        links := links[p := Link(kind.Hardlink?, linkname)];
      } else {
        modes := modes[p := Meta(kind, PermissionBits(mode))];
      }
    }

    /** The standard tree and the merged-/usr links; `accepts[i]` says whether the host makes the i-th symlink. */
    method BuildLayout(accepts: seq<bool>)
      requires Valid() && OneOwner(log + LayoutOps(arch)) && |accepts| == |LayoutLinks(arch)|
      modifies this
      ensures Valid() && log == old(log) + LayoutOps(arch)
    {
      hide Represents, OneOwner, MakeDirs, BaseDirs, LayoutLinks, Installed, LaidOut;
      ghost var log0 := log;
      var dirs := BaseDirs();
      var i := 0;
      assert log0 + [] == log0;
      LayoutSplit(log0, arch);
      while i < |dirs|
        invariant 0 <= i <= |dirs| && Valid() && log == log0 + DirOps(dirs[..i])
      {
        assert dirs[..i + 1][..i] == dirs[..i] && dirs[..i + 1][i] == dirs[i];
        DirOpsPrefix(log0, dirs, i + 1);
        assert log + [DirOp(dirs[i].0, dirs[i].1)] == log0 + DirOps(dirs[..i + 1]);
        MakeDir(dirs[i].0, dirs[i].1);
        i := i + 1;
      }
      assert dirs[..i] == dirs;
      ghost var log1 := log;
      assert log1 + [] == log1;
      var map0 := LayoutLinks(arch);
      var k := 0;
      while k < |map0|
        invariant 0 <= k <= |map0| && Valid() && log == log1 + LinkOps(map0[..k])
      {
        assert map0[..k + 1][..k] == map0[..k] && map0[..k + 1][k] == map0[k];
        LinkOpsPrefix(log1, map0, k + 1);
        assert log + [LinkOp([map0[k].0], Link(false, map0[k].1))] == log1 + LinkOps(map0[..k + 1]);
        LayLink(map0[k].0, map0[k].1, accepts[k]);
        k := k + 1;
      }
      assert map0[..k] == map0;
    }

    /** Make a directory with its parents and record it. */
    method MakeDir(p: Path, mode: Mode)
      requires Valid() && OneOwner(log + [DirOp(p, mode)])
      modifies this
      ensures Valid() && log == old(log) + [DirOp(p, mode)]
    {
      hide Represents, OneOwner, MakeDirs;
      InstalledRepresents(Contents(), log, DirOp(p, mode), true);
      tree := MakeDirs(tree, p);
      Record(p, Directory, mode, "");
      log := log + [DirOp(p, mode)];
    }

    method LayLink(name: string, target: string, accepted: bool)
      requires Valid() && OneOwner(log + [LinkOp([name], Link(false, target))])
      modifies this
      ensures Valid() && log == old(log) + [LinkOp([name], Link(false, target))]
    {
      hide Represents, OneOwner, MakeDirs;
      LaidOutRepresents(Contents(), log, LinkOp([name], Link(false, target)), accepted);
      Record([name], Symlink, LINK_MODE, target);
      if [name] !in tree {
        if accepted {
          tree := tree[[name] := LinkNode(target)];
        } else {
          tree := MakeDirs(tree, [name]);
        }
      }
      log := log + [LinkOp([name], Link(false, target))];
    }

    /** Install a payload; `accepts[i]` says whether the host makes the symlink or file of the i-th member. */
    method InstallPayload(members: seq<Member>, accepts: seq<bool>) returns (installed: seq<Path>)
      requires Valid() && |accepts| == |members| && OneOwner(log + PayloadOps(members))
      requires forall i :: 0 <= i < |members| ==> Plain(MemberPath(members[i].name))
      modifies this
      ensures Valid() && log == old(log) + PayloadOps(members) && installed == InstalledPaths(members)
    {
      hide Represents, OneOwner, MemberPath, OpsFor, Installed, Plain;
      installed := [];
      ghost var log0 := log;
      var i := 0;
      assert log + [] == log;
      while i < |members|
        invariant 0 <= i <= |members| && Valid()
        invariant log == log0 + PayloadOps(members[..i]) && installed == InstalledPaths(members[..i])
      {
        var member := members[i];
        var rel := MemberPath(member.name);
        assert members[..i + 1][..i] == members[..i] && members[..i + 1][i] == member;
        PayloadPrefix(log0, members, i + 1);
        assert log0 + (PayloadOps(members[..i]) + OpsFor(member)) == log + OpsFor(member);
        InstallMember(member, rel, accepts[i]);
        NoOps(member);
        if rel != [] && !member.content.IsOther? { installed := installed + [rel]; }
        i := i + 1;
      }
      assert members[..i] == members;
    }

    /** One member of a payload. */
    method InstallMember(member: Member, rel: Path, accepted: bool)
      requires Valid() && rel == MemberPath(member.name) && OneOwner(log + OpsFor(member))
      modifies this
      ensures Valid() && log == old(log) + OpsFor(member)
      ensures Contents() == if OpsFor(member) == [] then old(Contents())
                            else Installed(old(Contents()), OpsFor(member)[0], accepted)
    {
      hide Represents, OneOwner, MakeDirs, MemberPath, PlaceLink, Unlink;
      assert log + [] == log;
      if rel == [] { return; }
      var mode := PermissionBits(member.mode);
      assert PermissionBits(mode) == mode;
      ghost var ops := OpsFor(member);
      if ops != [] {
        assert ops == [ops[0]];
        InstalledRepresents(Contents(), log, ops[0], accepted);
      }
      match member.content {
        case IsDir =>
          tree := MakeDirs(tree, rel);
          Record(rel, Directory, mode, "");
        case IsSymlink(target) =>
          tree := MakeDirs(tree, Parent(rel));
          Record(rel, Symlink, LINK_MODE, target);
          tree := Unlink(tree, rel);
          tree := PlaceLink(tree, rel, target, accepted);
        case IsHardlink(target) =>
          Record(rel, Hardlink, LINK_MODE, target);
        case IsFile(bytes) =>
          tree := MakeDirs(tree, Parent(rel));
          Record(rel, Regular, mode, "");
          if accepted {
            tree := tree[rel := FileNode(bytes)];
          } else {
            extraMembers := extraMembers + [Extra(rel, FileInfo(mode, bytes))];
          }
        case IsOther =>
      }
      log := log + ops;
    }

    /** Write the os-release file, its link or copy under /etc, and the issue file; `accepted` says whether the host
        makes the link. */
    method WriteOsRelease(text: Bytes, issue: Bytes, accepted: bool)
      modifies this
      ensures Contents() == OsReleaseWritten(old(Contents()), text, issue, accepted)
    {
      hide MakeDirs;
      WriteFile(["usr", "lib", "os-release"], text);
      tree := Unlink(tree, OS_RELEASE);
      if accepted && OS_RELEASE !in tree {
        tree := tree[OS_RELEASE := LinkNode(OS_TARGET)];
        Record(OS_RELEASE, Symlink, LINK_MODE, OS_TARGET);
      } else {
        tree := tree[OS_RELEASE := FileNode(text)];
        Record(OS_RELEASE, Regular, FILE_MODE, "");
      }
      WriteFile(["etc", "issue"], issue);
    }

    /** Write a file of the system's own and record it. */
    method WriteFile(p: Path, text: Bytes)
      modifies this`tree, this`modes, this`links
      ensures Contents() == Installed(old(Contents()), FileOp(p, FileInfo(FILE_MODE, text)), true)
    {
      hide MakeDirs;
      tree := MakeDirs(tree, Parent(p));
      tree := tree[p := FileNode(text)];
      Record(p, Regular, FILE_MODE, "");
    }

    /** Serialise the tree from the overlay: the walk of the staging tree, links only recorded, extra members. */
    method PackTree(dirLinks: set<Path>) returns (entries: seq<Entry>)
      requires Packable(Contents())
      ensures Packs(Contents(), entries)
    {
      hide Walked, Packable, Reach, Packed, Emits, LinkPart, ExtraEntry;
      var emitted: set<Path>;
      NothingWalked(Contents());
      entries, emitted := Visit(Contents(), [], dirLinks, [], {});
      ghost var walk := entries;
      WalkedEmits(Contents(), entries, emitted);
      entries, emitted := EmitLinks(entries, emitted);
      ghost var withLinks := entries;
      entries, emitted := EmitExtras(entries, emitted);
      AllPacked(Contents(), walk, withLinks, entries, emitted);
      assert Packed(Contents(), entries, |walk|, |withLinks|);
    }

    /** Links that exist only in the overlay. */
    method EmitLinks(walk: seq<Entry>, emitted0: set<Path>) returns (entries: seq<Entry>, emitted: set<Path>)
      requires Emits(walk, emitted0)
      ensures Emits(entries, emitted) && walk <= entries
      ensures LinkPart(Contents(), entries, |walk|, [], 0) && links.Keys <= emitted
    {
      hide CompareText, SortedPaths, Emits, LinkPart;
      entries, emitted := walk, emitted0;
      var sorted := SortPaths(links.Keys);
      NoLinkEntries(Contents(), entries, sorted);
      var k := 0;
      while k < |sorted|
        invariant 0 <= k <= |sorted| && Emits(entries, emitted) && walk <= entries
        invariant LinkPart(Contents(), entries, |walk|, sorted, k)
        invariant forall m :: 0 <= m < k ==> sorted[m] in emitted
      {
        var p := sorted[k];
        assert p in sorted;
        if p !in emitted {
          var e := Entry(p, LinkBody(links[p].hard, links[p].target));
          EmitsMore(entries, emitted, e);
          LinkPartMore(Contents(), entries, |walk|, sorted, k, e);
          entries := entries + [e];
          emitted := emitted + {p};
        } else {
          LinkPartSkip(Contents(), entries, |walk|, sorted, k);
        }
        k := k + 1;
      }
      LinksWritten(Contents(), sorted, emitted);
      LinkPartDone(Contents(), entries, |walk|, sorted);
    }

    /** Payload bytes that the host could not write. */
    method EmitExtras(before: seq<Entry>, emitted0: set<Path>) returns (entries: seq<Entry>, emitted: set<Path>)
      requires Emits(before, emitted0) && links.Keys <= emitted0
      ensures Emits(entries, emitted) && before <= entries && links.Keys <= emitted
      ensures forall i :: |before| <= i < |entries| ==> ExtraEntry(Contents(), entries[i])
      ensures forall m :: 0 <= m < |extraMembers| ==> extraMembers[m].path in emitted
    {
      hide Emits, ExtraEntry;
      entries, emitted := before, emitted0;
      var x := 0;
      while x < |extraMembers|
        invariant 0 <= x <= |extraMembers| && Emits(entries, emitted) && before <= entries
        invariant forall i :: |before| <= i < |entries| ==> ExtraEntry(Contents(), entries[i])
        invariant forall m :: 0 <= m < x ==> extraMembers[m].path in emitted
        invariant links.Keys <= emitted
      {
        var extra := extraMembers[x];
        if extra.path !in emitted {
          var e := Entry(extra.path, FileBody(Or(extra.file.mode, FILE_MODE), extra.file.bytes));
          IsExtraEntry(Contents(), x);
          EmitsMore(entries, emitted, e);
          entries := entries + [e];
          emitted := emitted + {extra.path};
        }
        x := x + 1;
      }
    }
  }

  lemma LayoutSplit(log: seq<Op>, arch: string)
    requires OneOwner(log + LayoutOps(arch))
    ensures OneOwner(log + DirOps(BaseDirs())) && OneOwner((log + DirOps(BaseDirs())) + LinkOps(LayoutLinks(arch)))
    ensures (log + DirOps(BaseDirs())) + LinkOps(LayoutLinks(arch)) == log + LayoutOps(arch)
  {
    hide OneOwner, DirOps, LinkOps;
    var both := (log + DirOps(BaseDirs())) + LinkOps(LayoutLinks(arch));
    assert both == log + LayoutOps(arch);
    OneOwnerPrefix(log + DirOps(BaseDirs()), LinkOps(LayoutLinks(arch)));
  }

  lemma DirOpsPrefix(log: seq<Op>, dirs: seq<(Path, Mode)>, n: nat)
    requires n <= |dirs| && OneOwner(log + DirOps(dirs))
    ensures OneOwner(log + DirOps(dirs[..n]))
    decreases |dirs|
  {
    hide OneOwner;
    if n < |dirs| {
      var (init, last) := (dirs[..|dirs| - 1], dirs[|dirs| - 1]);
      assert log + DirOps(dirs) == (log + DirOps(init)) + [DirOp(last.0, last.1)];
      OneOwnerPrefix(log + DirOps(init), [DirOp(last.0, last.1)]);
      assert init[..n] == dirs[..n];
      DirOpsPrefix(log, init, n);
    } else {
      assert dirs[..n] == dirs;
    }
  }

  lemma LinkOpsPrefix(log: seq<Op>, links: seq<(string, string)>, n: nat)
    requires n <= |links| && OneOwner(log + LinkOps(links))
    ensures OneOwner(log + LinkOps(links[..n]))
    decreases |links|
  {
    hide OneOwner;
    if n < |links| {
      var (init, last) := (links[..|links| - 1], links[|links| - 1]);
      var op := LinkOp([last.0], Link(false, last.1));
      assert log + LinkOps(links) == (log + LinkOps(init)) + [op];
      OneOwnerPrefix(log + LinkOps(init), [op]);
      assert init[..n] == links[..n];
      LinkOpsPrefix(log, init, n);
    } else {
      assert links[..n] == links;
    }
  }

  lemma PayloadPrefix(log: seq<Op>, members: seq<Member>, n: nat)
    requires n <= |members| && OneOwner(log + PayloadOps(members))
    ensures OneOwner(log + PayloadOps(members[..n]))
    decreases |members|
  {
    hide OneOwner, OpsFor;
    if n < |members| {
      var (init, last) := (members[..|members| - 1], members[|members| - 1]);
      assert log + PayloadOps(members) == (log + PayloadOps(init)) + OpsFor(last);
      OneOwnerPrefix(log + PayloadOps(init), OpsFor(last));
      assert init[..n] == members[..n];
      PayloadPrefix(log, init, n);
    } else {
      assert members[..n] == members;
    }
  }

  // ---------------------------------------------------------------- steps of the packing

  lemma NothingWalked(s: State)
    ensures Walked(s, [], {}) && {} + Reach(s, []) == Reach(s, [])
  {
  }

  lemma WalkedEmits(s: State, entries: seq<Entry>, emitted: set<Path>)
    requires Walked(s, entries, emitted)
    ensures Emits(entries, emitted)
  {
  }

  /** Entries from `walked` on are links of `sorted[..k]`, in order and before what is still to come. */
  ghost predicate LinkPart(s: State, entries: seq<Entry>, walked: nat, sorted: seq<Path>, k: nat)
    requires k <= |sorted|
  {
    && walked <= |entries|
    && (forall i :: walked <= i < |entries| ==> LinkEntry(s, entries[i]))
    && (forall i, j :: walked <= i < j < |entries| ==>
          CompareText(PathText(entries[i].path), PathText(entries[j].path)) <= 0)
    && (forall i, m :: walked <= i < |entries| && k <= m < |sorted| ==>
          CompareText(PathText(entries[i].path), PathText(sorted[m])) <= 0)
  }

  lemma NoLinkEntries(s: State, entries: seq<Entry>, sorted: seq<Path>)
    ensures LinkPart(s, entries, |entries|, sorted, 0)
  {
  }

  lemma LinkPartSkip(s: State, entries: seq<Entry>, walked: nat, sorted: seq<Path>, k: nat)
    requires k < |sorted| && LinkPart(s, entries, walked, sorted, k)
    ensures LinkPart(s, entries, walked, sorted, k + 1)
  {
  }

  lemma LinkPartMore(s: State, entries: seq<Entry>, walked: nat, sorted: seq<Path>, k: nat, e: Entry)
    requires k < |sorted| && LinkPart(s, entries, walked, sorted, k) && SortedPaths(sorted)
    requires e.path == sorted[k] && LinkEntry(s, e)
    ensures LinkPart(s, entries + [e], walked, sorted, k + 1)
  {
    hide CompareText, PathText;
  }

  lemma LinksWritten(s: State, sorted: seq<Path>, emitted: set<Path>)
    requires forall p :: p in sorted <==> p in s.links.Keys
    requires forall m :: 0 <= m < |sorted| ==> sorted[m] in emitted
    ensures s.links.Keys <= emitted
  {
    forall p | p in s.links ensures p in emitted {
      var m :| 0 <= m < |sorted| && sorted[m] == p;
    }
  }

  lemma {:induction false} FirstExtraAt(extras: seq<Extra>, p: Path, k: nat)
    requires k < |extras| && extras[k].path == p && forall j :: 0 <= j < k ==> extras[j].path != p
    ensures FirstExtra(extras, p) == Some(extras[k].file)
  {
    if k > 0 { FirstExtraAt(extras[1..], p, k - 1); }
  }

  lemma IsExtraEntry(s: State, x: nat)
    requires x < |s.extras| && s.extras[x].path !in s.links
    requires forall j :: 0 <= j < x ==> s.extras[j].path != s.extras[x].path
    ensures ExtraEntry(s, Entry(s.extras[x].path,
                                FileBody(Or(s.extras[x].file.mode, FILE_MODE), s.extras[x].file.bytes)))
  {
    FirstExtraAt(s.extras, s.extras[x].path, x);
  }

  lemma LinkPartDone(s: State, entries: seq<Entry>, walked: nat, sorted: seq<Path>)
    requires LinkPart(s, entries, walked, sorted, |sorted|)
    ensures LinkPart(s, entries, walked, [], 0)
  {
  }

  lemma AllPacked(s: State, walk: seq<Entry>, withLinks: seq<Entry>, entries: seq<Entry>, emitted: set<Path>)
    requires walk <= withLinks <= entries
    requires Walked(s, walk, Reach(s, [])) && LinkPart(s, withLinks, |walk|, [], 0)
    requires Emits(entries, emitted) && s.links.Keys <= emitted
    requires forall i :: |withLinks| <= i < |entries| ==> ExtraEntry(s, entries[i])
    requires forall m :: 0 <= m < |s.extras| ==> s.extras[m].path in emitted
    ensures Packed(s, entries, |walk|, |withLinks|)
  {
    hide Walked, Reach, CompareText, PathText, ExtraEntry, LinkEntry;
    assert entries[..|walk|] == walk;
    assert forall i :: 0 <= i < |withLinks| ==> entries[i] == withLinks[i];
  }
}
