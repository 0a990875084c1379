/** Where the build host does matter (buster/osbuild/rootfs.py:542-563): the link from /etc to the os-release file is
    recorded as a link on a host that makes it and as a file on one that does not. */
module OsRelease {
  import opened Text
  import opened Overlay
  import opened Packing
  import opened Rootfs
  import opened RootfsFacts
  import opened Overwriting

  const RELEASE: Path := ["usr", "lib", "os-release"]
  const ISSUE: Path := ["etc", "issue"]

  function LinkStep(): Op { LinkOp(OS_RELEASE, Link(false, OS_TARGET)) }

  function CopyStep(text: Bytes): Op { FileOp(OS_RELEASE, FileInfo(FILE_MODE, text)) }

  /** What the writer comes to record at `etc/os-release`: where no link is made, the copy, or nothing new if a link is
      recorded there. */
  function MiddleLog(log: seq<Op>, text: Bytes, accepted: bool): seq<Op> {
    if accepted then Overwrite(log, LinkStep())
    else if OS_RELEASE in LinksOf(log) then log
    else Overwrite(log, CopyStep(text))
  }

  /** What is recorded in the end: the two files in the place of what was recorded there before. */
  function ReleaseLog(log: seq<Op>, text: Bytes, issue: Bytes, accepted: bool): seq<Op> {
    Overwrite(MiddleLog(Overwrite(log, ReleaseOp(text)), text, accepted), IssueOp(issue))
  }

  /** Each path has one owner, /etc is there, nothing but directories is above the writer's files, which are no links
      or directories yet, and `etc/os-release` is no directory. Files of any bytes and mode may be recorded at all
      three, and a link at `etc/os-release`. */
  ghost predicate Writable(log: seq<Op>, text: Bytes, issue: Bytes) {
    && OneOwner(log) && ["etc"] in DirsOf(log) && OS_RELEASE !in DirsOf(log)
    && Place(log, ReleaseOp(text)) && Place(log, IssueOp(issue))
  }

  lemma Paths()
    ensures Parent(OS_RELEASE) == ["etc"] && Prefixes(["etc"]) == {["etc"]} && OS_RELEASE != ["etc"]
    ensures OS_RELEASE != ISSUE && OS_RELEASE != RELEASE && ISSUE != RELEASE && RELEASE != ["etc"] && ISSUE != ["etc"]
    ensures Parent(ISSUE) == ["etc"]
    ensures Parent(RELEASE) == ["usr", "lib"] && Prefixes(["usr", "lib"]) == {["usr"], ["usr", "lib"]}
    ensures OS_RELEASE !in {["usr"], ["usr", "lib"]} && ISSUE !in {["usr"], ["usr", "lib"]} && ["etc"] != ["usr"]
    ensures RELEASE !in {["usr"], ["usr", "lib"]}
  {
    assert Parent(["etc"]) == [] && Prefixes([]) == {};
    PrefixesParent(["etc"]);
    assert Parent(["usr", "lib"]) == ["usr"] && Parent(["usr"]) == [];
    PrefixesParent(["usr", "lib"]);
    PrefixesParent(["usr"]);
    assert |"issue"| != |"os-release"| && "etc"[0] != "usr"[0];
    assert OS_RELEASE[1] != ISSUE[1];
    assert OS_RELEASE[0] != ["usr", "lib"][0] && ISSUE[0] != ["usr", "lib"][0];
  }

  // ---------------------------------------------------------------- room for what is written

  lemma AfterRelease(log: seq<Op>, text: Bytes, issue: Bytes)
    requires Writable(log, text, issue)
    ensures var l := Overwrite(log, ReleaseOp(text));
      && OneOwner(l) && LinksOf(l) == LinksOf(log) && FilesOf(l) == FilesOf(log)[RELEASE := FileInfo(FILE_MODE, text)]
      && DirsOf(l) == DirsOf(log) + {["usr"], ["usr", "lib"]}
      && ModesOf(l) == ModesOf(log)[RELEASE := Meta(Regular, FILE_MODE)]
      && ["etc"] in DirsOf(l) && OS_RELEASE !in DirsOf(l)
      && Place(l, LinkStep()) && Place(l, IssueOp(issue)) && (OS_RELEASE !in LinksOf(l) ==> Place(l, CopyStep(text)))
  {
    hide OneOwner, ModesOf, LinksOf, FilesOf, DirsOf, Prefixes, Overwrite;
    Owners(log);
    Paths();
    OverwriteMeaning(log, ReleaseOp(text));
  }

  lemma AfterMiddle(l: seq<Op>, text: Bytes, issue: Bytes, accepted: bool)
    requires OneOwner(l) && ["etc"] in DirsOf(l) && OS_RELEASE !in DirsOf(l) && Place(l, LinkStep()) && Place(l, IssueOp(issue))
    requires OS_RELEASE !in LinksOf(l) ==> Place(l, CopyStep(text))
    ensures var m := MiddleLog(l, text, accepted);
      && OneOwner(m) && DirsOf(m) == DirsOf(l) && Place(m, IssueOp(issue))
      && LinksOf(m) == (if accepted then LinksOf(l)[OS_RELEASE := Link(false, OS_TARGET)] else LinksOf(l))
      && FilesOf(m) == (if accepted then FilesOf(l) - {OS_RELEASE}
                        else if OS_RELEASE in LinksOf(l) then FilesOf(l)
                        else FilesOf(l)[OS_RELEASE := FileInfo(FILE_MODE, text)])
      && (forall q :: q != OS_RELEASE ==>
            (q in ModesOf(m) <==> q in ModesOf(l)) && (q in ModesOf(l) ==> ModesOf(m)[q] == ModesOf(l)[q]))
  {
    hide OneOwner, ModesOf, LinksOf, FilesOf, DirsOf, Prefixes, Overwrite;
    Paths();
    if accepted {
      OverwriteMeaning(l, LinkStep());
    } else if OS_RELEASE !in LinksOf(l) {
      OverwriteMeaning(l, CopyStep(text));
    }
  }

  // ---------------------------------------------------------------- what it writes

  /** A file staged where a link is recorded. */
  ghost predicate Twins(s: State, t: State, p: Path) {
    && t.links == s.links && t.extras == s.extras && t.tree.Keys == s.tree.Keys && p in s.links
    && (forall q :: q in s.tree && q != p ==> t.tree[q] == s.tree[q])
    && (forall q :: q != p ==> (q in t.modes <==> q in s.modes) && (q in s.modes ==> t.modes[q] == s.modes[q]))
  }

  /** What is staged at a recorded link does not show in the archive. */
  lemma TwinsPack(s: State, t: State, p: Path, entries: seq<Entry>, walked: nat, linked: nat)
    requires Twins(s, t, p) && Packed(s, entries, walked, linked)
    ensures Packed(t, entries, walked, linked)
  {
    hide Distinct, ParentsFirst, SiblingsSorted, Emits, CompareText, PathText;
    assert Reach(s, []) == Reach(t, []);
    var walk := entries[..walked];
    forall i | 0 <= i < |walk|
      ensures walk[i].path in t.tree && (t.tree[walk[i].path].LinkNode? ==> walk[i].path in t.links)
      ensures walk[i].body == StagedBody(t, walk[i].path)
    {
      assert walk[i].path in s.tree;
    }
    assert AsStaged(t, walk);
  }

  lemma EtcStays(s: State, log: seq<Op>)
    requires Represents(s, log) && ["etc"] in DirsOf(log)
    ensures MakeDirs(s.tree, ["etc"]) == s.tree
  {
    hide OneOwner, ModesOf, LinksOf, FilesOf, DirsOf, Prefixes, Kept, NodeOk, Housed;
    Paths();
  }

  lemma NoDirectoryThere(s: State, log: seq<Op>, op: Op)
    requires Represents(s, log) && op.path == OS_RELEASE && op.path !in DirsOf(log)
    ensures OS_RELEASE in s.tree ==> !s.tree[OS_RELEASE].DirNode?
  {
    hide OneOwner, ModesOf, LinksOf, FilesOf, DirsOf, Prefixes, Kept, Housed;
    if OS_RELEASE in s.tree { assert NodeOk(s, log, OS_RELEASE); }
  }

  /** Where a link is made, or none was recorded, the writer records as a payload would. */
  lemma AsPayload(s: State, log: seq<Op>, text: Bytes, accepted: bool)
    requires Represents(s, log) && ["etc"] in DirsOf(log) && OS_RELEASE !in DirsOf(log)
    ensures AtOsRelease(s, text, accepted) == Installed(s, if accepted then LinkStep() else CopyStep(text), true)
  {
    hide OneOwner, ModesOf, LinksOf, FilesOf, DirsOf, Prefixes, MakeDirs, Represents;
    Paths();
    EtcStays(s, log);
    NoDirectoryThere(s, log, LinkStep());
  }

  /** Otherwise the copy is staged at a recorded link. */
  function Linked(s: State): State { s.(tree := s.tree[OS_RELEASE := LinkNode(OS_TARGET)]) }

  lemma LinkedRepresents(s: State, log: seq<Op>)
    requires Represents(s, log) && ["etc"] in DirsOf(log) && OS_RELEASE in LinksOf(log)
    ensures Represents(Linked(s), log)
  {
    hide OneOwner, ModesOf, LinksOf, FilesOf, DirsOf, Prefixes, Housed, Kept, NodeOk;
    Owners(log);
    Paths();
    var t := Linked(s);
    forall p | p in t.tree ensures NodeOk(t, log, p) {
      if p in s.tree { assert NodeOk(s, log, p); }
      LinkedNode(s, log, p);
    }
    FilesKept(s, log);
    LinkedHoused(s.tree, DirsOf(log));
  }

  lemma LinkedNode(s: State, log: seq<Op>, p: Path)
    requires OS_RELEASE in LinksOf(log) && p in Linked(s).tree && (p in s.tree ==> NodeOk(s, log, p))
    ensures NodeOk(Linked(s), log, p)
  {
  }

  lemma FilesKept(s: State, log: seq<Op>)
    requires Kept(s, log) && OS_RELEASE !in FilesOf(log)
    ensures Kept(Linked(s), log)
  {
  }

  lemma LinkedHoused(tree: map<Path, Node>, dirs: set<Path>)
    requires Housed(tree, dirs) && ["etc"] in dirs
    ensures Housed(tree[OS_RELEASE := LinkNode(OS_TARGET)], dirs)
  {
    Paths();
  }

  lemma CopyTwins(s: State, text: Bytes)
    requires OS_RELEASE in s.links && (OS_RELEASE in s.tree ==> !s.tree[OS_RELEASE].DirNode?)
    ensures Twins(AtOsRelease(s, text, false), Linked(s), OS_RELEASE)
  {
  }

  lemma TwinsInstall(s: State, t: State, issue: Bytes)
    requires Twins(s, t, OS_RELEASE)
    ensures Twins(Installed(s, IssueOp(issue), true), Installed(t, IssueOp(issue), true), OS_RELEASE)
  {
    hide Prefixes;
    Paths();
  }

  lemma AsideUntouchedHere(s: State, p: Path, text: Bytes, accepted: bool)
    ensures AtOsRelease(Without(s, p), text, accepted) == Without(AtOsRelease(s, text, accepted), p)
  {
    hide DropExtras;
  }

  /** The three paths are staged or recorded as links in the end. */
  lemma AllThere(s: State, text: Bytes, issue: Bytes, accepted: bool)
    ensures var t := OsReleaseWritten(s, text, issue, accepted);
      RELEASE in t.tree && ISSUE in t.tree && (OS_RELEASE in t.tree || OS_RELEASE in t.links)
  {
    hide Installed;
    Paths();
    var s1 := Installed(s, ReleaseOp(text), true);
    FilePut(s, ReleaseOp(text));
    FilePut(AtOsRelease(s1, text, accepted), IssueOp(issue));
  }

  lemma FilePut(s: State, op: Op)
    requires op.FileOp?
    ensures var t := Installed(s, op, true); op.path in t.tree && s.tree.Keys <= t.tree.Keys && t.links == s.links
  {
    hide Prefixes;
  }

  lemma LastFile(s: State, m: seq<Op>, issue: Bytes)
    requires Represents(s, m) && Place(m, IssueOp(issue))
    ensures Represents(Without(Installed(s, IssueOp(issue), true), ISSUE), Overwrite(m, IssueOp(issue)))
  {
    hide Represents, Installed, Overwrite, DropExtras, Place;
    OverwriteRepresents(s, m, IssueOp(issue));
    AsideUntouched(s, ISSUE, IssueOp(issue));
  }

  /** The state the writer leaves, without what is kept aside for its three paths. */
  function Cleared(s: State, text: Bytes, issue: Bytes, accepted: bool): State {
    Without(Without(Without(OsReleaseWritten(s, text, issue, accepted), RELEASE), OS_RELEASE), ISSUE)
  }

  lemma ClearedPacks(s: State, text: Bytes, issue: Bytes, accepted: bool, entries: seq<Entry>, walked: nat, linked: nat)
    requires Packed(OsReleaseWritten(s, text, issue, accepted), entries, walked, linked)
    requires forall p :: p in {RELEASE, OS_RELEASE, ISSUE} ==>
               p in Reach(OsReleaseWritten(s, text, issue, accepted), []) || p in OsReleaseWritten(s, text, issue, accepted).links
    ensures Packed(Cleared(s, text, issue, accepted), entries, walked, linked)
  {
    hide Packed, Reach, OsReleaseWritten, DropExtras;
    var t := OsReleaseWritten(s, text, issue, accepted);
    AsideUnseen(t, RELEASE, entries, walked, linked);
    AlikeReach(t, Without(t, RELEASE));
    AsideUnseen(Without(t, RELEASE), OS_RELEASE, entries, walked, linked);
    AlikeReach(t, Without(Without(t, RELEASE), OS_RELEASE));
    AsideUnseen(Without(Without(t, RELEASE), OS_RELEASE), ISSUE, entries, walked, linked);
  }

  /** Whichever way the writer goes, there is a state that packs alike and represents what is recorded in the end. */
  lemma ClearedRepresents(s: State, log: seq<Op>, text: Bytes, issue: Bytes, accepted: bool) returns (t: State)
    requires Represents(s, log) && Writable(log, text, issue)
    ensures Represents(t, ReleaseLog(log, text, issue, accepted))
    ensures t == Cleared(s, text, issue, accepted) || Twins(Cleared(s, text, issue, accepted), t, OS_RELEASE)
  {
    hide Represents, OneOwner, Installed, AtOsRelease, LinksOf, DirsOf, Twins, Linked, Overwrite, DropExtras, Place, Writable;
    var (l, s1) := (Overwrite(log, ReleaseOp(text)), Installed(s, ReleaseOp(text), true));
    ReleasePlace(log, text, issue);
    AfterRelease(log, text, issue);
    AfterMiddle(l, text, issue, accepted);
    OverwriteRepresents(s, log, ReleaseOp(text));
    AsideUntouched(s, RELEASE, ReleaseOp(text));
    var (r1, m, s2) := (Without(s1, RELEASE), MiddleLog(l, text, accepted), AtOsRelease(s1, text, accepted));
    AsideUntouchedHere(s1, RELEASE, text, accepted);
    AsideUntouched(s2, RELEASE, IssueOp(issue));
    AsideUntouched(Without(s2, RELEASE), OS_RELEASE, IssueOp(issue));
    if accepted || OS_RELEASE !in LinksOf(l) {
      var op := if accepted then LinkStep() else CopyStep(text);
      AsPayload(r1, l, text, accepted);
      OverwriteRepresents(r1, l, op);
      AsideUntouched(r1, OS_RELEASE, op);
      LastFile(Without(Without(s2, RELEASE), OS_RELEASE), m, issue);
      t := Cleared(s, text, issue, accepted);
    } else {
      NoDirectoryThere(r1, l, LinkStep());
      LinkRecorded(r1, l);
      LinkedRepresents(r1, l);
      LastFile(Linked(r1), l, issue);
      CopyTwins(r1, text);
      TwinsInstall(AtOsRelease(r1, text, false), Linked(r1), issue);
      t := Without(Installed(Linked(r1), IssueOp(issue), true), ISSUE);
      NoneAside(r1, l);
      AsideUntouchedHere(r1, OS_RELEASE, text, accepted);
      TwinsWithout(Installed(AtOsRelease(r1, text, false), IssueOp(issue), true), Installed(Linked(r1), IssueOp(issue), true));
    }
  }

  lemma ReleasePlace(log: seq<Op>, text: Bytes, issue: Bytes)
    requires Writable(log, text, issue)
    ensures Place(log, ReleaseOp(text))
  {
  }

  lemma NoneAside(s: State, log: seq<Op>)
    requires Represents(s, log) && OS_RELEASE in LinksOf(log)
    ensures Without(s, OS_RELEASE) == s
  {
    hide OneOwner, ModesOf, LinksOf, FilesOf, DirsOf, Staged, Kept;
    Owners(log);
    NothingAside(s, log, OS_RELEASE);
  }

  lemma TwinsWithout(s: State, t: State)
    requires Twins(s, t, OS_RELEASE)
    ensures Twins(Without(s, ISSUE), Without(t, ISSUE), OS_RELEASE)
  {
  }

  lemma LinkRecorded(s: State, log: seq<Op>)
    requires Represents(s, log) && OS_RELEASE in LinksOf(log)
    ensures OS_RELEASE in s.links
  {
    hide OneOwner, LinksOf, Kept;
  }

  lemma ThreeReached(t: State, log: seq<Op>, u: State)
    requires Represents(t, log) && t.links == u.links && t.tree.Keys == u.tree.Keys
    requires RELEASE in u.tree && ISSUE in u.tree && (OS_RELEASE in u.tree || OS_RELEASE in u.links)
    ensures forall p :: p in {RELEASE, OS_RELEASE, ISSUE} ==> p in Reach(u, []) || p in u.links
  {
    hide Represents, Reach;
    StagedReachable(t, log);
    AlikeReach(t, u);
  }

  /** Whichever way the writer goes, the archive holds what is recorded in the end. */
  lemma PackedAsReleased(s: State, log: seq<Op>, text: Bytes, issue: Bytes, accepted: bool,
                         entries: seq<Entry>, walked: nat, linked: nat)
    requires Represents(s, log) && Writable(log, text, issue)
    requires Packed(OsReleaseWritten(s, text, issue, accepted), entries, walked, linked)
    ensures Holds(entries, Expected(ReleaseLog(log, text, issue, accepted)))
  {
    hide Represents, Packed, Expected, Holds, Writable, ReleaseLog, OsReleaseWritten, Reach, DropExtras;
    var t := ClearedRepresents(s, log, text, issue, accepted);
    AllThere(s, text, issue, accepted);
    ThreeReached(t, ReleaseLog(log, text, issue, accepted), OsReleaseWritten(s, text, issue, accepted));
    ClearedPacks(s, text, issue, accepted, entries, walked, linked);
    if t != Cleared(s, text, issue, accepted) {
      TwinsPack(Cleared(s, text, issue, accepted), t, OS_RELEASE, entries, walked, linked);
    }
    PackedAsRecorded(t, ReleaseLog(log, text, issue, accepted), entries, walked, linked);
  }

  /** The three entries in the archive: both files with the writer's bytes and mode 0644; and at `etc/os-release` the
      link to the file where the host made it, else the link recorded before, else a copy. */
  lemma ReleaseEntries(s: State, log: seq<Op>, text: Bytes, issue: Bytes, accepted: bool,
                       entries: seq<Entry>, walked: nat, linked: nat)
    requires Represents(s, log) && Writable(log, text, issue)
    requires Packed(OsReleaseWritten(s, text, issue, accepted), entries, walked, linked)
    ensures Entry(["usr", "lib", "os-release"], FileBody(420, text)) in entries
    ensures Entry(["etc", "issue"], FileBody(420, issue)) in entries
    ensures Entry(["etc", "os-release"],
                  if accepted then LinkBody(false, "../usr/lib/os-release")
                  else if OS_RELEASE in LinksOf(log) then LinkBody(LinksOf(log)[OS_RELEASE].hard, LinksOf(log)[OS_RELEASE].target)
                  else FileBody(420, text)) in entries
  {
    hide Represents, Packed, Expected, Holds, Writable, ReleaseLog, OsReleaseWritten, LinksOf;
    var x := Expected(ReleaseLog(log, text, issue, accepted));
    PackedAsReleased(s, log, text, issue, accepted, entries, walked, linked);
    EntriesExpected(log, text, issue, accepted);
    HeldEntries(entries, x, Entry(RELEASE, FileBody(420, text)));
    HeldEntries(entries, x, Entry(ISSUE, FileBody(420, issue)));
    HeldEntries(entries, x, Entry(OS_RELEASE,
      if accepted then LinkBody(false, "../usr/lib/os-release")
      else if OS_RELEASE in LinksOf(log) then LinkBody(LinksOf(log)[OS_RELEASE].hard, LinksOf(log)[OS_RELEASE].target)
      else FileBody(420, text)));
  }

  lemma EntriesExpected(log: seq<Op>, text: Bytes, issue: Bytes, accepted: bool)
    requires Writable(log, text, issue)
    ensures var x := Expected(ReleaseLog(log, text, issue, accepted));
      && RELEASE in x && x[RELEASE] == FileBody(420, text) && ISSUE in x && x[ISSUE] == FileBody(420, issue)
      && OS_RELEASE in x
      && x[OS_RELEASE] == (if accepted then LinkBody(false, "../usr/lib/os-release")
                           else if OS_RELEASE in LinksOf(log) then LinkBody(LinksOf(log)[OS_RELEASE].hard, LinksOf(log)[OS_RELEASE].target)
                           else FileBody(420, text))
  {
    hide OneOwner, ModesOf, LinksOf, FilesOf, DirsOf, Overwrite, MiddleLog, Writable, Prefixes, Place;
    Paths();
    NotLinks(log, text, issue);
    var l := Overwrite(log, ReleaseOp(text));
    AfterRelease(log, text, issue);
    AfterMiddle(l, text, issue, accepted);
    OverwriteMeaning(MiddleLog(l, text, accepted), IssueOp(issue));
  }

  lemma NotLinks(log: seq<Op>, text: Bytes, issue: Bytes)
    requires Writable(log, text, issue)
    ensures RELEASE !in LinksOf(log) && ISSUE !in LinksOf(log)
  {
  }

  // ---------------------------------------------------------------- two hosts

  /** The link is recorded already. */
  predicate LinkedBefore(log: seq<Op>) { OS_RELEASE in LinksOf(log) && LinksOf(log)[OS_RELEASE] == Link(false, OS_TARGET) }

  lemma ReleaseMeaning(log: seq<Op>, text: Bytes, issue: Bytes, accepted: bool)
    requires Writable(log, text, issue)
    ensures var whole := ReleaseLog(log, text, issue, accepted);
      var files := FilesOf(log)[RELEASE := FileInfo(FILE_MODE, text)];
      && OneOwner(whole)
      && LinksOf(whole) == (if accepted then LinksOf(log)[OS_RELEASE := Link(false, OS_TARGET)] else LinksOf(log))
      && (accepted || OS_RELEASE in LinksOf(log) ==> FilesOf(whole) == (files - {OS_RELEASE})[ISSUE := FileInfo(FILE_MODE, issue)])
      && DirsOf(whole) == DirsOf(log) + {["usr"], ["usr", "lib"]}
      && (forall p :: p in DirsOf(whole) ==>
            (p in ModesOf(whole) <==> p in ModesOf(log)) && (p in ModesOf(log) ==> ModesOf(whole)[p] == ModesOf(log)[p]))
  {
    hide OneOwner, ModesOf, LinksOf, FilesOf, DirsOf, Prefixes, Overwrite, MiddleLog, Place, Writable;
    Paths();
    var l := Overwrite(log, ReleaseOp(text));
    AfterRelease(log, text, issue);
    AfterMiddle(l, text, issue, accepted);
    OverwriteMeaning(MiddleLog(l, text, accepted), IssueOp(issue));
    Owners(l);
    NoDirectories(log, text, issue);
  }

  lemma NoDirectories(log: seq<Op>, text: Bytes, issue: Bytes)
    requires Writable(log, text, issue)
    ensures RELEASE !in DirsOf(log) && ISSUE !in DirsOf(log) && OS_RELEASE !in DirsOf(log) && ["etc"] in DirsOf(log)
  {
  }

  /** With the link recorded before, it makes no difference whether the host makes it again. */
  lemma SameExpected(log: seq<Op>, text: Bytes, issue: Bytes)
    requires Writable(log, text, issue) && LinkedBefore(log)
    ensures Expected(ReleaseLog(log, text, issue, true)) == Expected(ReleaseLog(log, text, issue, false))
  {
    hide OneOwner, ModesOf, LinksOf, FilesOf, DirsOf, Writable, ReleaseLog;
    var (a, b) := (ReleaseLog(log, text, issue, true), ReleaseLog(log, text, issue, false));
    ReleaseMeaning(log, text, issue, true);
    ReleaseMeaning(log, text, issue, false);
    assert LinksOf(a) == LinksOf(b) && FilesOf(a) == FilesOf(b) && DirsOf(a) == DirsOf(b);
    forall p | p in Expected(a) ensures ExpectedBody(a, p) == ExpectedBody(b, p) {}
  }

  /** Two hosts that agreed before write the same archive exactly when both make the link, neither does, or the very
      link was recorded before. */
  lemma OsReleaseHostsAgree(s: State, t: State, log: seq<Op>, text: Bytes, issue: Bytes, here: bool, there: bool,
                            a: seq<Entry>, walkedA: nat, linkedA: nat, b: seq<Entry>, walkedB: nat, linkedB: nat)
    requires Represents(s, log) && Represents(t, log) && Writable(log, text, issue)
    requires Packed(OsReleaseWritten(s, text, issue, here), a, walkedA, linkedA)
    requires Packed(OsReleaseWritten(t, text, issue, there), b, walkedB, linkedB)
    ensures multiset(a) == multiset(b) <==> here == there || LinkedBefore(log)
    ensures here != there ==>
              ((forall body :: Entry(OS_RELEASE, body) in a <==> Entry(OS_RELEASE, body) in b) <==> LinkedBefore(log))
  {
    hide Represents, Writable, Packed, Expected, Holds, ReleaseLog, LinkedBefore, OsReleaseWritten;
    PackedAsReleased(s, log, text, issue, here, a, walkedA, linkedA);
    PackedAsReleased(t, log, text, issue, there, b, walkedB, linkedB);
    var (x, y) := (Expected(ReleaseLog(log, text, issue, here)), Expected(ReleaseLog(log, text, issue, there)));
    if here == there || LinkedBefore(log) {
      if LinkedBefore(log) { SameExpected(log, text, issue); }
      SameEntries(a, b, x);
      forall body ensures Entry(OS_RELEASE, body) in a <==> Entry(OS_RELEASE, body) in b {
        HeldEntries(a, x, Entry(OS_RELEASE, body));
        HeldEntries(b, y, Entry(OS_RELEASE, body));
      }
    } else {
      var link := Entry(OS_RELEASE, LinkBody(false, OS_TARGET));
      LinkExpected(log, text, issue, here);
      LinkExpected(log, text, issue, there);
      HeldEntries(a, x, link);
      HeldEntries(b, y, link);
      assert link in multiset(a) <==> link !in multiset(b);
    }
  }

  lemma LinkExpected(log: seq<Op>, text: Bytes, issue: Bytes, accepted: bool)
    requires Writable(log, text, issue) && !LinkedBefore(log)
    ensures var x := Expected(ReleaseLog(log, text, issue, accepted));
      OS_RELEASE in x && x[OS_RELEASE] == LinkBody(false, OS_TARGET) <==> accepted
  {
    hide ModesOf, LinksOf, FilesOf, DirsOf, ReleaseLog, Writable, OneOwner;
    ReleaseMeaning(log, text, issue, accepted);
  }

  // ---------------------------------------------------------------- both cases

  /** A package's /etc, os-release file and issue file. */
  function Shipped(release: FileInfo, issue: FileInfo): seq<Op> {
    ([DirOp(["etc"], DIR_MODE)] + [FileOp(RELEASE, release)]) + [FileOp(ISSUE, issue)]
  }

  /** Both cases come up, whatever bytes and modes a package ships in the two files the writer overwrites: with the
      package's own link recorded beside them, and without. */
  lemma BothHappen(release: FileInfo, shippedIssue: FileInfo, text: Bytes, issue: Bytes)
    ensures var bare := Shipped(release, shippedIssue); Writable(bare, text, issue) && !LinkedBefore(bare)
    ensures var linked := Shipped(release, shippedIssue) + [LinkStep()]; Writable(linked, text, issue) && LinkedBefore(linked)
  {
    hide OneOwner, ModesOf, LinksOf, FilesOf, DirsOf, Prefixes, Fitting;
    var (etc, one, two) := (DirOp(["etc"], DIR_MODE), FileOp(RELEASE, release), FileOp(ISSUE, shippedIssue));
    EmptyLog();
    assert [] + [etc] == [etc];
    Paths();
    EtcFits(etc);
    Extends([], etc);
    FitsBeside([etc], one);
    Extends([etc], one);
    FitsBeside([etc] + [one], two);
    Extends([etc] + [one], two);
    WritableOn(Shipped(release, shippedIssue), text, issue);
    FitsBeside(Shipped(release, shippedIssue), LinkStep());
    Extends(Shipped(release, shippedIssue), LinkStep());
    WritableOn(Shipped(release, shippedIssue) + [LinkStep()], text, issue);
  }

  lemma Extends(log: seq<Op>, op: Op)
    requires OneOwner(log) && Fitting(log, op)
    ensures OneOwner(log + [op])
    ensures LinksOf(log + [op]) == if op.LinkOp? then LinksOf(log)[op.path := op.link] else LinksOf(log)
    ensures FilesOf(log + [op]) == if op.FileOp? then FilesOf(log)[op.path := op.file] else FilesOf(log)
    ensures DirsOf(log + [op]) == DirsOf(log) + DirsFor(op)
  {
    hide OneOwner, Fitting, ModesOf, LinksOf, FilesOf, DirsOf;
    LastOp(log, op);
    OneOwnerStep(log, op);
  }

  lemma EmptyLog()
    ensures OneOwner([]) && LinksOf([]) == map[] && FilesOf([]) == map[] && DirsOf([]) == {}
  {
  }

  lemma EtcFits(op: Op)
    requires op.DirOp? && op.path == ["etc"]
    ensures Fitting([], op)
  {
  }

  /** A small log with only these paths. */
  ghost predicate Beside(log: seq<Op>) {
    && LinksOf(log).Keys <= {OS_RELEASE} && FilesOf(log).Keys <= {RELEASE, ISSUE}
    && DirsOf(log) <= {["etc"], ["usr"], ["usr", "lib"]} && ["etc"] in DirsOf(log)
  }

  lemma FitsBeside(log: seq<Op>, op: Op)
    requires Beside(log) && op.path !in FilesOf(log) && op.path !in LinksOf(log)
    requires op == LinkStep() || (op.FileOp? && (op.path == RELEASE || op.path == ISSUE))
    ensures Fitting(log, op)
  {
    hide FilesOf, LinksOf, DirsOf, Prefixes;
    Paths();
  }

  lemma WritableOn(log: seq<Op>, text: Bytes, issue: Bytes)
    requires OneOwner(log) && Beside(log)
    ensures Writable(log, text, issue)
  {
    hide OneOwner, ModesOf, LinksOf, FilesOf, DirsOf, Prefixes;
    Paths();
  }
}
