/** What packing a root filesystem promises: every path once, links as links, modes as recorded, hard links after
    files, and the same archive on every build host (buster/osbuild/rootfs.py:8-17). */
module RootfsFacts {
  import opened Text
  import opened Overlay
  import opened Packing
  import opened Rootfs

  // ---------------------------------------------------------------- where members go

  /** No member is installed at or beneath a merged-/usr link, so the layout's links stay links. */
  lemma MembersAvoidLinks(name: string)
    ensures MemberPath(name) != [] ==> MemberPath(name)[0] !in LinkNames()
  {
    hide StripSlashes, StripLeftDotSlash, SplitOn;
    NormalizeIdempotent(SplitOn(StripSlashes(StripLeftDotSlash(name)), '/'));
  }

  /** A path text without a dot or slash in front and without a slash at its end. */
  predicate Bare(rel: string) { rel != "" && rel[0] != '.' && rel[0] != '/' && rel[|rel| - 1] != '/' }

  lemma BarePath(rel: string)
    requires Bare(rel)
    ensures MemberPath(rel) == Normalize(SplitOn(rel, '/'))
  {
  }

  /** The ways a package spells a path lead to one place, and a directory's trailing slash does not matter ... */
  lemma SpellingsAgree(rel: string)
    requires Bare(rel)
    ensures MemberPath("./" + rel) == MemberPath(rel) && MemberPath("/" + rel) == MemberPath(rel)
    ensures MemberPath("./" + rel + "/") == MemberPath(rel)
  {
    Prefixed(rel);
    Prefixed(rel + "/");
    BarePath(rel);
    TrailingSlash(rel);
    assert "./" + rel + "/" == "./" + (rel + "/");
  }

  lemma TrailingSlash(rel: string)
    requires Bare(rel)
    ensures StripSlashes(rel + "/") == StripSlashes(rel) == rel
  {
    var s := rel + "/";
    assert s[0] == rel[0] && s[|s| - 1] == '/' && s[..|s| - 1] == rel;
  }

  lemma Prefixed(rel: string)
    requires rel != "" && rel[0] != '.' && rel[0] != '/'
    ensures StripLeftDotSlash(rel) == rel && StripLeftDotSlash("/" + rel) == rel
    ensures StripLeftDotSlash("./" + rel) == rel && StripLeftDotSlash("./." + rel) == StripLeftDotSlash("." + rel) == rel
  {
    NotStripped(rel);
    hide StripLeftDotSlash;
    StripsOne("/", rel);
    StripsTwo(rel);
    StripsOne(".", rel);
    StripsTwo("." + rel);
    Joined(rel);
  }

  lemma NotStripped(rel: string)
    requires rel != "" && rel[0] != '.' && rel[0] != '/'
    ensures StripLeftDotSlash(rel) == rel
  {
  }

  lemma Joined(rel: string)
    ensures "./." + rel == "./" + ("." + rel)
  {
  }

  lemma StripsTwo(s: string)
    ensures StripLeftDotSlash("./" + s) == StripLeftDotSlash(s)
  {
    hide StripLeftDotSlash;
    StripsOne("/", s);
    StripsOne(".", "/" + s);
    assert "./" + s == "." + ("/" + s);
  }

  lemma StripsOne(c: string, s: string)
    requires c == "." || c == "/"
    ensures StripLeftDotSlash(c + s) == StripLeftDotSlash(s)
  {
    assert (c + s)[1..] == s;
  }

  /** ... but stripping the characters `.` and `/` also strips the dot of a hidden name at the top: `./.name` is
      installed as `name`. */
  lemma HiddenNamesLoseTheirDot(rel: string)
    requires Bare(rel)
    ensures MemberPath("./." + rel) == MemberPath(rel) == MemberPath("." + rel)
  {
    Prefixed(rel);
  }

  /** Exactly the names that do not begin with a dot go where they say, with and without `./` in front. */
  lemma KeepsItsPathExactly(rel: string)
    requires rel != "" && rel[0] != '/' && rel[|rel| - 1] != '/'
    ensures MemberPath("./" + rel) == Normalize(SplitOn(rel, '/')) <==> rel[0] != '.'
    ensures MemberPath(rel) == Normalize(SplitOn(rel, '/')) <==> rel[0] != '.'
  {
    hide SplitOn, StripSlashes, StripLeftDotSlash, Normalize;
    StripsTwo(rel);
    if rel[0] != '.' {
      BarePath(rel);
    } else {
      var t := StripSlashes(StripLeftDotSlash(rel));
      FrontStripped(rel);
      FrontKept(StripLeftDotSlash(rel));
      DottedPath(rel);
      if t != "" { FirstComponent(t); }
    }
  }

  lemma {:induction false} FrontStripped(s: string)
    ensures var r := StripLeftDotSlash(s); r != "" ==> r[0] != '.' && r[0] != '/'
  {
    if s != "" { FrontStripped(s[1..]); }
  }

  lemma {:induction false} FrontKept(s: string)
    requires s != "" ==> s[0] != '/'
    ensures var r := StripSlashes(s); r != "" ==> s != "" && r[0] == s[0]
  {
    if s != "" && s[|s| - 1] == '/' { FrontKept(s[..|s| - 1]); }
  }

  lemma FirstComponent(s: string)
    requires s != "" && s[0] != '/' && s[0] != '.'
    ensures Normalize(SplitOn(s, '/')) != [] && Normalize(SplitOn(s, '/'))[0] != ""
    ensures Normalize(SplitOn(s, '/'))[0][0] != '.'
  {
    assert SplitOn(s, '/')[0][0] == s[0];
  }

  lemma DottedPath(s: string)
    requires s != "" && s[0] == '.'
    ensures Normalize(SplitOn(s, '/')) != [] && Normalize(SplitOn(s, '/'))[0] != ""
    ensures Normalize(SplitOn(s, '/'))[0][0] == '.'
  {
    assert SplitOn(s, '/')[0][0] == s[0];
  }

  /** A path in a merged directory is moved under /usr. */
  lemma MergedUsr(link: string, rest: string)
    requires link in LinkNames() && rest != "" && rest[|rest| - 1] != '/'
    ensures MemberPath("./" + (link + "/" + rest)) == ["usr", link] + SplitOn(rest, '/')
  {
    hide SplitOn, MemberPath, Normalize, JoinWith;
    var rel := link + "/" + rest;
    assert rel == link + ['/'] + rest && rel[|rel| - 1] == rest[|rest| - 1];
    LinkName(link);
    assert rel[0] == link[0];
    SpellingsAgree(rel);
    BarePath(rel);
    SplitFirst(link, rest, '/');
    UnderUsr(link, SplitOn(rest, '/'));
  }

  lemma LinkName(link: string)
    requires link in LinkNames()
    ensures link != "" && link[0] != '.' && link[0] != '/' && Lacks(link, '/')
  {
  }

  lemma UnderUsr(link: string, parts: seq<string>)
    requires link in LinkNames()
    ensures Normalize([link] + parts) == ["usr", link] + parts
  {
    assert ["usr"] + ([link] + parts) == ["usr", link] + parts;
  }

  // ---------------------------------------------------------------- any packed tree

  /** Exactly the staged paths not beneath a link, the links and the extra members are written, each once. */
  lemma WritesEverythingOnce(s: State, entries: seq<Entry>, walked: nat, linked: nat, p: Path)
    requires Packed(s, entries, walked, linked)
    ensures Written(entries, p) <==>
            p in Reach(s, []) || p in s.links || exists i :: 0 <= i < |s.extras| && s.extras[i].path == p
    ensures Distinct(entries)
  {
    hide Reach, CompareText, PathText, SiblingsSorted, ParentsFirst;
    if Written(entries, p) {
      var i :| 0 <= i < |entries| && entries[i].path == p;
      if i < walked {
        assert entries[..walked][i].path == p;
      } else if i >= linked {
        var j := ExtraSource(s.extras, p);
      }
    }
    if p in Reach(s, []) { WalkedPart(entries, walked, p); }
  }

  lemma WalkedPart(entries: seq<Entry>, n: nat, p: Path)
    requires n <= |entries| && Written(entries[..n], p)
    ensures exists i :: 0 <= i < n && entries[i].path == p
    ensures Written(entries, p)
  {
    var i :| 0 <= i < n && entries[..n][i].path == p;
    assert entries[i].path == p;
  }

  lemma {:induction false} ExtraSource(extras: seq<Extra>, p: Path) returns (i: nat)
    requires FirstExtra(extras, p).Some?
    ensures i < |extras| && extras[i].path == p && FirstExtra(extras, p) == Some(extras[i].file)
  {
    if extras[0].path == p {
      i := 0;
    } else {
      var k := ExtraSource(extras[1..], p);
      i := k + 1;
    }
  }

  /** A recorded link is written as that link, whatever stands at its path in the staging tree. */
  lemma LinksStayLinks(s: State, entries: seq<Entry>, walked: nat, linked: nat, i: nat)
    requires Packed(s, entries, walked, linked) && i < |entries| && entries[i].path in s.links
    ensures LinkEntry(s, entries[i])
  {
    hide Reach, CompareText, PathText, SiblingsSorted, ParentsFirst, Emits, Distinct;
    if i < walked { assert entries[..walked][i] == entries[i]; }
  }

  /** A link with nothing staged at its path is written behind everything the walk writes. */
  lemma UnstagedLinksLast(s: State, entries: seq<Entry>, walked: nat, linked: nat, i: nat, j: nat)
    requires Packed(s, entries, walked, linked) && i < |entries| && j < |entries|
    requires entries[i].path in s.links && entries[i].path !in s.tree
    requires entries[j].path in Reach(s, [])
    ensures j < walked <= i
  {
    hide CompareText, PathText, SiblingsSorted, ParentsFirst;
    assert forall k :: 0 <= k < walked ==> entries[..walked][k] == entries[k];
    WalkedPart(entries, walked, entries[j].path);
    var k :| 0 <= k < walked && entries[k].path == entries[j].path;
  }

  /** Such a link follows a file or directory, its target say, exactly when that is staged: a target kept as an extra
      member comes after the link. */
  lemma LinkFollowsExactly(s: State, entries: seq<Entry>, walked: nat, linked: nat, i: nat, j: nat)
    requires Packed(s, entries, walked, linked) && i < |entries| && j < |entries|
    requires entries[i].path in s.links && entries[i].path !in s.tree && entries[j].path !in s.links
    ensures j < i <==> entries[j].path in Reach(s, [])
  {
    hide CompareText, PathText, SiblingsSorted, ParentsFirst, Reach, StagedBody;
    if entries[j].path in Reach(s, []) {
      UnstagedLinksLast(s, entries, walked, linked, i, j);
    } else {
      assert forall k :: 0 <= k < walked ==> entries[..walked][k] == entries[k];
    }
  }

  /** In the walk every directory comes before its contents. */
  lemma ParentsComeFirst(s: State, entries: seq<Entry>, walked: nat, linked: nat, j: nat)
    requires Packed(s, entries, walked, linked) && j < walked && |entries[j].path| > 1
    ensures exists i :: 0 <= i < j && entries[i].path == Parent(entries[j].path)
  {
    hide CompareText, PathText, SiblingsSorted;
    var walk := entries[..walked];
    assert walk[j] == entries[j] && walk[..j] == entries[..j];
    WalkedPart(entries, j, Parent(entries[j].path));
  }

  // ---------------------------------------------------------------- a recorded tree

  lemma StagedReachable(s: State, log: seq<Op>)
    requires Represents(s, log)
    ensures Packable(s) && Reach(s, []) == s.tree.Keys
  {
    hide ModesOf, LinksOf, FilesOf, DirsOf, Kept, OneOwner;
    Owners(log);
    forall p | p in s.tree ensures NodeOk(s, log, p) {}
    forall p, i | p in s.tree && 0 < i < |p| ensures p[..i] !in s.links {
      DirsClosed(log, Parent(p));
      assert p[..i] == Parent(p)[..i];
      assert p[..i] in Prefixes(Parent(p));
    }
  }

  /** What was staged is written as expected. */
  lemma StagedAsExpected(s: State, log: seq<Op>, p: Path)
    requires Represents(s, log) && p in s.tree
    ensures s.tree[p].LinkNode? ==> p in s.links
    ensures p in Expected(log) && Expected(log)[p] == StagedBody(s, p)
  {
    hide ModesOf, LinksOf, FilesOf, DirsOf, Kept, OneOwner, Housed;
    Owners(log);
    FileModes(log);
    assert NodeOk(s, log, p);
  }

  lemma ExtraAsExpected(s: State, log: seq<Op>, e: Entry)
    requires Represents(s, log) && ExtraEntry(s, e)
    ensures e.path in Expected(log) && Expected(log)[e.path] == e.body
  {
    hide ModesOf, LinksOf, FilesOf, DirsOf, OneOwner, Housed;
    var i := ExtraSource(s.extras, e.path);
  }

  lemma ExpectedWritten(s: State, log: seq<Op>, entries: seq<Entry>, walked: nat, linked: nat, p: Path)
    requires Represents(s, log) && Packed(s, entries, walked, linked) && p in Expected(log)
    ensures Written(entries, p)
  {
    hide ModesOf, LinksOf, FilesOf, DirsOf, OneOwner, Housed, ExpectedBody, Reach, Packed, NodeOk, Written;
    StagedReachable(s, log);
    WritesEverythingOnce(s, entries, walked, linked, p);
  }

  /** The archive holds exactly what was recorded: the bytes, modes, targets and implied directories that the
      recorded operations alone determine. */
  lemma PackedAsRecorded(s: State, log: seq<Op>, entries: seq<Entry>, walked: nat, linked: nat)
    requires Represents(s, log) && Packed(s, entries, walked, linked)
    ensures Holds(entries, Expected(log))
  {
    hide Represents, Expected, Reach, CompareText, PathText, SiblingsSorted, ParentsFirst, ExtraEntry, StagedBody, Written;
    var expected := Expected(log);
    forall i | 0 <= i < |entries| ensures entries[i].path in expected && expected[entries[i].path] == entries[i].body {
      var e := entries[i];
      if i < walked {
        assert entries[..walked][i] == e;
        StagedAsExpected(s, log, e.path);
      } else if i < linked {
        LinkAsExpected(s, log, e);
      } else {
        ExtraAsExpected(s, log, e);
      }
    }
    forall p | p in expected ensures Written(entries, p) { ExpectedWritten(s, log, entries, walked, linked, p); }
  }

  lemma LinkAsExpected(s: State, log: seq<Op>, e: Entry)
    requires Represents(s, log) && LinkEntry(s, e)
    ensures e.path in Expected(log) && Expected(log)[e.path] == e.body
  {
    hide ModesOf, LinksOf, FilesOf, DirsOf, OneOwner, Housed, NodeOk, Kept;
  }

  /** A directory or file recorded with a non-zero mode has exactly that mode in the archive. */
  lemma RecordedModesKept(s: State, log: seq<Op>, entries: seq<Entry>, walked: nat, linked: nat, i: nat)
    requires Represents(s, log) && Packed(s, entries, walked, linked) && i < |entries|
    requires entries[i].path in s.modes && s.modes[entries[i].path].mode != 0 && !entries[i].body.LinkBody?
    ensures entries[i].body.mode == s.modes[entries[i].path].mode
  {
    hide ModesOf, LinksOf, FilesOf, DirsOf, OneOwner, Housed, NodeOk, Kept, Packed, Distinct, Written;
    FileModes(log);
    PackedAsRecorded(s, log, entries, walked, linked);
  }

  // ---------------------------------------------------------------- the build host does not matter

  lemma {:induction false} CountedOnce(entries: seq<Entry>, e: Entry)
    requires Distinct(entries)
    ensures multiset(entries)[e] == if e in entries then 1 else 0
  {
    if entries != [] {
      var (init, last) := (entries[..|entries| - 1], entries[|entries| - 1]);
      assert entries == init + [last];
      CountedOnce(init, e);
      assert forall i :: 0 <= i < |init| ==> init[i] == entries[i] && init[i].path != last.path;
    }
  }

  lemma HeldEntries(entries: seq<Entry>, expected: map<Path, Body>, e: Entry)
    requires Holds(entries, expected)
    ensures e in entries <==> e.path in expected && expected[e.path] == e.body
  {
    hide Distinct;
    if e.path in expected && expected[e.path] == e.body {
      assert Written(entries, e.path);
      var i :| 0 <= i < |entries| && entries[i].path == e.path;
      assert entries[i] == e;
    }
  }

  /** Archives of the same map have the same entries, each as often. */
  lemma SameEntries(a: seq<Entry>, b: seq<Entry>, expected: map<Path, Body>)
    requires Holds(a, expected) && Holds(b, expected)
    ensures multiset(a) == multiset(b)
  {
    forall e: Entry ensures multiset(a)[e] == multiset(b)[e] {
      HeldEntries(a, expected, e);
      HeldEntries(b, expected, e);
      CountedOnce(a, e);
      CountedOnce(b, e);
    }
  }

  /** Two hosts that recorded the same operations write the same entries, whatever each of them could stage. */
  lemma HostIndependence(s: State, t: State, log: seq<Op>,
                         a: seq<Entry>, walkedA: nat, linkedA: nat, b: seq<Entry>, walkedB: nat, linkedB: nat)
    requires Represents(s, log) && Packed(s, a, walkedA, linkedA)
    requires Represents(t, log) && Packed(t, b, walkedB, linkedB)
    ensures multiset(a) == multiset(b)
  {
    PackedAsRecorded(s, log, a, walkedA, linkedA);
    PackedAsRecorded(t, log, b, walkedB, linkedB);
    SameEntries(a, b, Expected(log));
  }

  // ---------------------------------------------------------------- when each path has one owner

  /** What has to hold of a new operation for each path to keep its one owner. */
  ghost predicate Fitting(log: seq<Op>, op: Op) {
    && op.path != []
    && DirsFor(op) !! LinksOf(log).Keys && DirsFor(op) !! FilesOf(log).Keys
    && (op.LinkOp? ==> op.path !in FilesOf(log) && op.path !in DirsOf(log))
    && (op.FileOp? ==>
          op.path !in LinksOf(log) && op.path !in DirsOf(log)
          && (op.path in FilesOf(log) ==> FilesOf(log)[op.path] == op.file))
  }

  lemma {:induction false} FilesAlike(log: seq<Op>, i: nat)
    requires OneOwner(log) && i < |log| && log[i].FileOp?
    ensures log[i].path in FilesOf(log) && FilesOf(log)[log[i].path] == log[i].file
  {
    var (init, last) := (log[..|log| - 1], log[|log| - 1]);
    assert init + [last] == log;
    OwnerBefore(init, last);
    if i < |init| { FilesAlike(init, i); }
  }

  lemma NotItsOwnDirectory(op: Op)
    ensures !op.DirOp? ==> op.path !in DirsFor(op)
  {
  }

  /** Owners can be checked operation by operation: nothing is recorded beneath a link or file, no link or file where
      something else is, and a file only again with the same mode and bytes. */
  lemma OneOwnerStep(log: seq<Op>, op: Op)
    ensures OneOwner(log + [op]) <==> OneOwner(log) && Fitting(log, op)
  {
    hide ModesOf, LinksOf, FilesOf, DirsOf, DirsFor;
    LastOp(log, op);
    NotItsOwnDirectory(op);
    if OneOwner(log + [op]) {
      OwnerBefore(log, op);
      assert DirsFor(op) <= DirsOf(log + [op]);
      assert LinksOf(log).Keys <= LinksOf(log + [op]).Keys && FilesOf(log).Keys <= FilesOf(log + [op]).Keys;
      assert DirsOf(log) <= DirsOf(log + [op]);
    }
    if OneOwner(log) && Fitting(log, op) { FittingKeeps(log, op); }
  }

  lemma FittingKeeps(log: seq<Op>, op: Op)
    requires OneOwner(log) && Fitting(log, op)
    ensures OneOwner(log + [op])
  {
    hide ModesOf, LinksOf, FilesOf, DirsOf, DirsFor;
    LastOp(log, op);
    NotItsOwnDirectory(op);
    var more := log + [op];
    assert forall i :: 0 <= i < |log| ==> more[i] == log[i];
    forall i, j | 0 <= i < j < |more| && more[i].FileOp? && more[j].FileOp? && more[i].path == more[j].path
      ensures more[i].file == more[j].file
    {
      FilesAlike(log, i);
      if j < |log| { FilesAlike(log, j); }
    }
  }

  // ---------------------------------------------------------------- why each path needs one owner

  const EMPTY := State(map[], map[], [], map[])

  function InstallTwo(one: Op, two: Op, first: bool, second: bool): State {
    Installed(Installed(EMPTY, one, first), two, second)
  }

  /** How a host writes a file recorded twice, when it can stage the first or not, and the last or not: the bytes of
      the last it staged, else of the first; the mode of the last unless it could stage neither. */
  function TwiceWritten(first: FileInfo, last: FileInfo, one: bool, two: bool): Body {
    FileBody(Or(if one || two then last.mode else first.mode, FILE_MODE), if two then last.bytes else first.bytes)
  }

  /** What each host writes for a file recorded twice at one path; two hosts agree exactly when the bytes are the same
      or both or neither staged the last, and the archived modes are or both or neither staged something. */
  lemma RepeatedFileHostsAgree(name: string, first: FileInfo, last: FileInfo, oneA: bool, twoA: bool, oneB: bool, twoB: bool,
                               a: seq<Entry>, walkedA: nat, linkedA: nat, b: seq<Entry>, walkedB: nat, linkedB: nat)
    requires var (one, two) := (FileOp([name], first), FileOp([name], last));
      && Packed(InstallTwo(one, two, oneA, twoA), a, walkedA, linkedA)
      && Packed(InstallTwo(one, two, oneB, twoB), b, walkedB, linkedB)
    ensures a == [Entry([name], TwiceWritten(first, last, oneA, twoA))]
    ensures b == [Entry([name], TwiceWritten(first, last, oneB, twoB))]
    ensures multiset(a) == multiset(b) <==>
              && (twoA == twoB || first.bytes == last.bytes)
              && ((oneA || twoA) == (oneB || twoB) || Or(first.mode, FILE_MODE) == Or(last.mode, FILE_MODE))
  {
    hide InstallTwo, Packed, Distinct, Or;
    var (one, two) := (FileOp([name], first), FileOp([name], last));
    TwoFilesInstalled(one, two, oneA, twoA);
    TwoFilesInstalled(one, two, oneB, twoB);
    OnlyWritten(InstallTwo(one, two, oneA, twoA), a, walkedA, linkedA, [name]);
    OnlyWritten(InstallTwo(one, two, oneB, twoB), b, walkedB, linkedB, [name]);
    assert multiset(a) == multiset(b) ==> a[0] in multiset(b);
  }

  lemma TwoFilesInstalled(one: Op, two: Op, first: bool, second: bool)
    requires one.FileOp? && two.FileOp? && one.path == two.path && |one.path| == 1
    ensures var s := InstallTwo(one, two, first, second);
      && s.links == map[] && one.path in s.modes && s.modes[one.path].mode == two.file.mode
      && s.tree == (if second then map[one.path := FileNode(two.file.bytes)]
                    else if first then map[one.path := FileNode(one.file.bytes)]
                    else map[])
      && (forall i :: 0 <= i < |s.extras| ==> s.extras[i].path == one.path)
      && (!first ==> s.extras != [] && s.extras[0].file == one.file)
  {
    TopLevel(one.path, map[]);
  }

  lemma SinglePath(entries: seq<Entry>, p: Path)
    requires Distinct(entries)
    ensures |entries| > 1 ==> exists i :: 0 <= i < |entries| && entries[i].path != p
  {
    if |entries| > 1 { assert entries[0].path != entries[1].path; }
  }

  /** An archive of one path only. */
  lemma OnlyWritten(s: State, entries: seq<Entry>, walked: nat, linked: nat, p: Path)
    requires Packed(s, entries, walked, linked) && |p| == 1 && s.links == map[] && p in s.modes && s.tree.Keys <= {p}
    requires if p in s.tree then s.tree[p].FileNode? else s.extras != []
    requires forall i :: 0 <= i < |s.extras| ==> s.extras[i].path == p
    ensures var file := if p in s.tree then FileInfo(s.modes[p].mode, s.tree[p].bytes) else s.extras[0].file;
      entries == [Entry(p, FileBody(Or(file.mode, FILE_MODE), file.bytes))]
  {
    hide CompareText, PathText, SiblingsSorted, ParentsFirst, Or, Packed;
    WrittenAs(s, entries, walked, linked, p);
    WritesEverythingOnce(s, entries, walked, linked, p);
    forall i | 0 <= i < |entries| ensures entries[i].path == p {
      WritesEverythingOnce(s, entries, walked, linked, entries[i].path);
      assert Written(entries, entries[i].path);
    }
    SinglePath(entries, p);
    assert entries[0] in entries;
    assert entries[0] == Entry(p, entries[0].body);
  }

  /** How a path that is no link is written: as staged, else as the first extra member for it. */
  lemma WrittenAs(s: State, entries: seq<Entry>, walked: nat, linked: nat, p: Path)
    requires Packed(s, entries, walked, linked) && |p| == 1 && p !in s.links
    requires p in s.tree ==> s.tree[p].FileNode? && p in s.modes
    requires p !in s.tree ==> s.extras != [] && s.extras[0].path == p
    ensures var file := if p in s.tree then FileInfo(s.modes[p].mode, s.tree[p].bytes) else s.extras[0].file;
      forall body :: Entry(p, body) in entries <==> body == FileBody(Or(file.mode, FILE_MODE), file.bytes)
  {
    hide CompareText, PathText, SiblingsSorted, ParentsFirst, Or;
    WritesEverythingOnce(s, entries, walked, linked, p);
    if p in s.tree { WalkedPart(entries, walked, p); }
    var i :| 0 <= i < |entries| && entries[i].path == p && (p in s.tree ==> i < walked);
    if i < walked { assert entries[..walked][i] == entries[i]; }
    assert entries[i] in entries;
  }

  /** A file beneath a recorded link is in the archive exactly of a host that could not stage it. */
  lemma FileBeneathLinkDependsOnHost(dir: string, name: string, file: FileInfo, target: string, staged: bool, linkMade: bool,
                                     entries: seq<Entry>, walked: nat, linked: nat)
    requires Packed(InstallTwo(FileOp([dir, name], file), LinkOp([dir], Link(false, target)), staged, linkMade),
                    entries, walked, linked)
    ensures Written(entries, [dir, name]) <==> !staged
  {
    hide Packed, Written, Distinct;
    var (p, one, two) := ([dir, name], FileOp([dir, name], file), LinkOp([dir], Link(false, target)));
    var s := InstallTwo(one, two, staged, linkMade);
    assert Parent(p) == [dir] && p[..1] == [dir];
    TopLevel([dir], map[]);
    assert s.links == map[[dir] := Link(false, target)];
    assert p !in Reach(s, []);
    if staged { assert s.extras == []; } else { assert s.extras[0].path == p; }
    WritesEverythingOnce(s, entries, walked, linked, p);
  }
}
