/** Serialising overlay and staging tree into an archive (buster/osbuild/rootfs.py, `pack_tree`). */
module Packing {
  import opened Text
  import opened Overlay

  // ---------------------------------------------------------------- sorted listings

  ghost predicate SortedNames(names: seq<string>) { forall i, j :: 0 <= i < j < |names| ==> TextLess(names[i], names[j]) }

  function InsertName(names: seq<string>, n: string): seq<string> {
    if names == [] || TextLess(n, names[0]) then [n] + names else [names[0]] + InsertName(names[1..], n)
  }

  lemma {:induction false} InsertNameKeeps(names: seq<string>, n: string)
    requires SortedNames(names) && n !in names
    ensures SortedNames(InsertName(names, n))
    ensures forall x :: x in InsertName(names, n) <==> x in names || x == n
  {
    hide CompareText;
    if names != [] {
      CompareTextLaws(n, names[0]);
      if TextLess(n, names[0]) {
        forall i | 0 <= i < |names| ensures TextLess(n, names[i]) {
          if i > 0 { CompareTextTransitive(n, names[0], names[i]); }
        }
      } else {
        InsertNameKeeps(names[1..], n);
        var rest := InsertName(names[1..], n);
        forall i | 0 <= i < |rest| ensures TextLess(names[0], rest[i]) { assert rest[i] in rest; }
      }
    }
  }

  /** A directory listing in order. */
  method SortNames(names: set<string>) returns (r: seq<string>)
    ensures SortedNames(r) && forall n :: n in r <==> n in names
  {
    hide InsertName, CompareText;
    r := [];
    var rest := names;
    while rest != {}
      invariant rest <= names && SortedNames(r) && forall n :: n in r <==> n in names - rest
      decreases |rest|
    {
      var n :| n in rest;
      InsertNameKeeps(r, n);
      r := InsertName(r, n);
      rest := rest - {n};
    }
  }

  function PathText(p: Path): string { JoinWith(p, "/") }

  ghost predicate SortedPaths(paths: seq<Path>) {
    forall i, j :: 0 <= i < j < |paths| ==> CompareText(PathText(paths[i]), PathText(paths[j])) <= 0
  }

  function InsertPath(paths: seq<Path>, p: Path): seq<Path> {
    if paths == [] || TextLess(PathText(p), PathText(paths[0])) then [p] + paths
    else [paths[0]] + InsertPath(paths[1..], p)
  }

  lemma {:induction false} InsertPathKeeps(paths: seq<Path>, p: Path)
    requires SortedPaths(paths)
    ensures SortedPaths(InsertPath(paths, p))
    ensures forall x :: x in InsertPath(paths, p) <==> x in paths || x == p
  {
    hide CompareText, PathText;
    if paths != [] {
      CompareTextLaws(PathText(p), PathText(paths[0]));
      if TextLess(PathText(p), PathText(paths[0])) {
        forall i | 0 <= i < |paths| ensures CompareText(PathText(p), PathText(paths[i])) <= 0 {
          if i > 0 { CompareTextTransitive(PathText(p), PathText(paths[0]), PathText(paths[i])); }
        }
      } else {
        InsertPathKeeps(paths[1..], p);
        var rest := InsertPath(paths[1..], p);
        forall i | 0 <= i < |rest| ensures CompareText(PathText(paths[0]), PathText(rest[i])) <= 0 {
          assert rest[i] in rest;
          assert rest[i] in paths[1..] || rest[i] == p;
        }
      }
    }
  }

  method SortPaths(paths: set<Path>) returns (r: seq<Path>)
    ensures SortedPaths(r) && forall p :: p in r <==> p in paths
  {
    hide InsertPath, PathText, CompareText;
    r := [];
    var rest := paths;
    while rest != {}
      invariant rest <= paths && SortedPaths(r) && forall p :: p in r <==> p in paths - rest
      decreases |rest|
    {
      var p :| p in rest;
      InsertPathKeeps(r, p);
      r := InsertPath(r, p);
      rest := rest - {p};
    }
  }

  // ---------------------------------------------------------------- what is written

  predicate Under(dir: Path, p: Path) { |dir| < |p| && p[..|dir|] == dir }

  /** Staged below `dir` and not beneath a recorded link; a link itself may be staged there. */
  ghost function Reach(s: State, dir: Path): set<Path> {
    set p | p in s.tree && Under(dir, p) && forall i :: |dir| < i < |p| ==> p[..i] !in s.links
  }

  /** Every staged path is in a staged directory. */
  ghost predicate Closed(tree: map<Path, Node>) {
    forall p :: p in tree ==> p != [] && (|p| > 1 ==> Parent(p) in tree && tree[Parent(p)] == DirNode)
  }

  /** The tree is a tree, and staged symlinks are recorded. */
  ghost predicate Packable(s: State) {
    Closed(s.tree) && forall p :: p in s.tree && s.tree[p].LinkNode? ==> p in s.links
  }

  /** How a staged path is written: as its link if one is recorded, else as it is staged, with the recorded mode. */
  function StagedBody(s: State, p: Path): Body
    requires p in s.tree && (s.tree[p].LinkNode? ==> p in s.links)
  {
    if p in s.links then LinkBody(s.links[p].hard, s.links[p].target)
    else if s.tree[p].FileNode? then
      FileBody(Or(if p in s.modes then s.modes[p].mode else FILE_MODE, FILE_MODE), s.tree[p].bytes)
    else DirBody(Or(if p in s.modes then s.modes[p].mode else DIR_MODE, DIR_MODE))
  }

  ghost predicate Distinct(entries: seq<Entry>) {
    forall i, j :: 0 <= i < j < |entries| ==> entries[i].path != entries[j].path
  }

  /** `emitted` are the paths written so far, each once. */
  ghost predicate Emits(entries: seq<Entry>, emitted: set<Path>) {
    && Distinct(entries)
    && (forall i :: 0 <= i < |entries| ==> entries[i].path in emitted)
    && (forall p :: p in emitted ==> Written(entries, p))
  }

  ghost predicate Written(entries: seq<Entry>, p: Path) { exists i :: 0 <= i < |entries| && entries[i].path == p }

  ghost predicate ParentsFirst(entries: seq<Entry>) {
    forall j :: 0 <= j < |entries| && |entries[j].path| > 1 ==> Written(entries[..j], Parent(entries[j].path))
  }

  predicate SameKind(a: Body, b: Body) { (a.DirBody? && b.DirBody?) || (a.FileBody? && b.FileBody?) }

  function Last(p: Path): string
    requires p != []
  {
    p[|p| - 1]
  }

  /** Two directories, or two files, of one parent. */
  predicate Siblings(a: Entry, b: Entry) {
    a.path != [] && b.path != [] && Parent(a.path) == Parent(b.path) && SameKind(a.body, b.body)
  }

  /** Every sibling of `e` so far has a smaller name. */
  ghost predicate AfterSiblings(entries: seq<Entry>, e: Entry) {
    forall i :: 0 <= i < |entries| && Siblings(entries[i], e) ==> TextLess(Last(entries[i].path), Last(e.path))
  }

  /** Directories of one parent, and files of one parent, come in name order. */
  ghost predicate SiblingsSorted(entries: seq<Entry>) {
    forall j :: 0 <= j < |entries| ==> AfterSiblings(entries[..j], entries[j])
  }

  ghost predicate AsStaged(s: State, entries: seq<Entry>) {
    forall i :: 0 <= i < |entries| ==>
      var p := entries[i].path;
      p != [] && p in s.tree && (s.tree[p].LinkNode? ==> p in s.links) && entries[i].body == StagedBody(s, p)
  }

  /** What the walk has written so far. */
  ghost predicate Walked(s: State, entries: seq<Entry>, emitted: set<Path>) {
    Emits(entries, emitted) && AsStaged(s, entries) && ParentsFirst(entries) && SiblingsSorted(entries)
  }

  lemma EmitsMore(entries: seq<Entry>, emitted: set<Path>, e: Entry)
    requires Emits(entries, emitted) && e.path !in emitted
    ensures Emits(entries + [e], emitted + {e.path})
  {
    var more := entries + [e];
    assert more[|entries|] == e;
    forall p | p in emitted ensures Written(more, p) {
      var i :| 0 <= i < |entries| && entries[i].path == p;
      assert more[i] == entries[i];
    }
  }

  lemma ParentsMore(entries: seq<Entry>, e: Entry)
    requires ParentsFirst(entries) && (|e.path| > 1 ==> Written(entries, Parent(e.path)))
    ensures ParentsFirst(entries + [e])
  {
    hide Written;
    var more := entries + [e];
    assert more[..|entries|] == entries;
    assert forall j :: 0 <= j < |entries| ==> more[..j] == entries[..j];
  }

  lemma SiblingsMore(entries: seq<Entry>, e: Entry)
    requires SiblingsSorted(entries) && AfterSiblings(entries, e)
    ensures SiblingsSorted(entries + [e])
  {
    hide AfterSiblings;
    var more := entries + [e];
    assert more[..|entries|] == entries;
    assert forall j :: 0 <= j < |entries| ==> more[..j] == entries[..j];
  }

  /** Writing the next child of a directory already written. */
  lemma WalkedMore(s: State, entries: seq<Entry>, emitted: set<Path>, dir: Path, name: string)
    requires Walked(s, entries, emitted) && Packable(s)
    requires dir + [name] in s.tree && dir + [name] !in emitted && (dir == [] || dir in emitted)
    requires AfterSiblings(entries, Entry(dir + [name], StagedBody(s, dir + [name])))
    ensures Walked(s, entries + [Entry(dir + [name], StagedBody(s, dir + [name]))], emitted + {dir + [name]})
  {
    hide StagedBody, AfterSiblings, ParentsFirst, SiblingsSorted, Written;
    var (p, e) := (dir + [name], Entry(dir + [name], StagedBody(s, dir + [name])));
    EmitsMore(entries, emitted, e);
    assert Parent(p) == dir;
    ParentsMore(entries, e);
    SiblingsMore(entries, e);
  }

  // ---------------------------------------------------------------- the walk

  function ChildNames(tree: map<Path, Node>, dir: Path): set<string> {
    set p | p in tree && Under(dir, p) && |p| == |dir| + 1 :: p[|dir|]
  }

  lemma ChildNamesAre(tree: map<Path, Node>, dir: Path)
    ensures forall n :: n in ChildNames(tree, dir) <==> dir + [n] in tree
  {
    forall n ensures n in ChildNames(tree, dir) <==> dir + [n] in tree {
      var c := dir + [n];
      assert c[..|dir|] == dir && c[|dir|] == n;
      if n in ChildNames(tree, dir) {
        var p :| p in tree && Under(dir, p) && |p| == |dir| + 1 && p[|dir|] == n;
        assert p == c;
      }
    }
  }

  /** How many staged paths lie below a directory. */
  ghost function Below(tree: map<Path, Node>, dir: Path): set<Path> { set p | p in tree && Under(dir, p) }

  lemma ChildBelow(tree: map<Path, Node>, dir: Path, name: string)
    requires dir + [name] in tree
    ensures |Below(tree, dir + [name])| < |Below(tree, dir)|
  {
    var c := dir + [name];
    assert c[..|dir|] == dir;
    forall p | p in Below(tree, c) ensures p in Below(tree, dir) && p != c { assert p[..|dir|] == c[..|dir|]; }
    var (small, large) := (Below(tree, c), Below(tree, dir));
    assert small <= large - {c};
    assert large == (large - {c}) + {c};
    assert large - {c} == small + ((large - {c}) - small);
  }

  function Children(dir: Path, names: seq<string>): set<Path> { set n | n in names :: dir + [n] }

  /** What a visit of `dir` has reached once its children are written and the directories `done` are visited. */
  ghost function Part(s: State, dir: Path, done: seq<string>): set<Path> {
    set p | p in Reach(s, dir) && (|p| == |dir| + 1 || p[|dir|] in done)
  }

  predicate ListedAs(s: State, p: Path, directories: bool)
    requires p in s.tree
  {
    p in s.links || (if directories then s.tree[p].DirNode? else s.tree[p].FileNode?)
  }

  predicate HasKind(b: Body, directories: bool) { if directories then b.DirBody? else b.FileBody? }

  /** The entries of the listed children of one kind, in order: links where recorded, else directories or files. */
  method EmitChildren(s: State, dir: Path, names: seq<string>, directories: bool,
                      entries0: seq<Entry>, emitted0: set<Path>)
    returns (entries: seq<Entry>, emitted: set<Path>)
    requires Packable(s) && Walked(s, entries0, emitted0) && SortedNames(names)
    requires dir == [] || dir in emitted0
    requires forall n :: n in names ==> dir + [n] in s.tree && ListedAs(s, dir + [n], directories) && dir + [n] !in emitted0
    requires NoneOfKind(entries0, 0, dir, directories)
    ensures Walked(s, entries, emitted) && emitted == emitted0 + Children(dir, names)
    ensures entries0 <= entries && NoneOfKind(entries, |entries0|, dir, !directories)
  {
    hide Walked, Packable, SortedNames, CompareText, NoneOfKind, AfterSiblings;
    entries, emitted := entries0, emitted0;
    var k := 0;
    NothingNew(entries0, dir, names, !directories);
    while k < |names|
      invariant 0 <= k <= |names|
      invariant Walked(s, entries, emitted)
      invariant emitted == emitted0 + Children(dir, names[..k])
      invariant entries0 <= entries && NoneOfKind(entries, |entries0|, dir, !directories)
      invariant NewChildren(entries, |entries0|, dir, names[..k])
    {
      var child := dir + [names[k]];
      ListedBody(s, child, directories);
      NextChild(s, dir, names, k, directories, entries0, entries, emitted0, emitted);
      if child !in emitted {
        var body :=
          if child in s.links then LinkBody(s.links[child].hard, s.links[child].target)
          else if directories then DirBody(Or(if child in s.modes then s.modes[child].mode else DIR_MODE, DIR_MODE))
          else FileBody(Or(if child in s.modes then s.modes[child].mode else FILE_MODE, FILE_MODE), s.tree[child].bytes);
        entries := entries + [Entry(child, body)];
        emitted := emitted + {child};
      }
      k := k + 1;
    }
    assert names[..k] == names;
  }

  /** No entry from `start` on is a child of `dir` of the kind. */
  ghost predicate NoneOfKind(entries: seq<Entry>, start: nat, dir: Path, directories: bool) {
    forall i :: start <= i < |entries| && entries[i].path != [] && Parent(entries[i].path) == dir ==>
      !HasKind(entries[i].body, directories)
  }

  /** Entries from `start` on are children of `dir` named in `names`. */
  ghost predicate NewChildren(entries: seq<Entry>, start: nat, dir: Path, names: seq<string>) {
    forall i :: start <= i < |entries| ==> ChildNamed(entries[i].path, dir, names)
  }

  ghost predicate ChildNamed(p: Path, dir: Path, names: seq<string>) {
    exists m :: 0 <= m < |names| && p == dir + [names[m]]
  }

  lemma NothingNew(entries: seq<Entry>, dir: Path, names: seq<string>, directories: bool)
    ensures NoneOfKind(entries, |entries|, dir, directories) && NewChildren(entries, |entries|, dir, names[..0])
    ensures Children(dir, names[..0]) == {}
  {
  }

  lemma ListedBody(s: State, p: Path, directories: bool)
    requires Packable(s) && p in s.tree && ListedAs(s, p, directories)
    ensures s.tree[p].LinkNode? ==> p in s.links
    ensures p !in s.links ==> if directories then s.tree[p].DirNode? else s.tree[p].FileNode?
    ensures !HasKind(StagedBody(s, p), !directories)
  {
  }

  lemma NextChild(s: State, dir: Path, names: seq<string>, k: nat, directories: bool,
                  entries0: seq<Entry>, entries: seq<Entry>, emitted0: set<Path>, emitted: set<Path>)
    requires Packable(s) && Walked(s, entries, emitted) && SortedNames(names) && k < |names|
    requires dir == [] || dir in emitted
    requires var child := dir + [names[k]];
      child in s.tree && ListedAs(s, child, directories) && child !in emitted0
      && (s.tree[child].LinkNode? ==> child in s.links)
    requires emitted == emitted0 + Children(dir, names[..k])
    requires entries0 <= entries && NoneOfKind(entries0, 0, dir, directories)
    requires NoneOfKind(entries, |entries0|, dir, !directories) && NewChildren(entries, |entries0|, dir, names[..k])
    ensures var (child, e) := (dir + [names[k]], Entry(dir + [names[k]], StagedBody(s, dir + [names[k]])));
      && child !in emitted
      && Walked(s, entries + [e], emitted + {child})
      && emitted + {child} == emitted0 + Children(dir, names[..k + 1])
      && entries0 <= entries + [e] && NoneOfKind(entries + [e], |entries0|, dir, !directories)
      && NewChildren(entries + [e], |entries0|, dir, names[..k + 1])
  {
    hide Walked, Packable, CompareText, StagedBody, SortedNames, NewChildren, NoneOfKind, Children, AfterSiblings;
    var (child, e) := (dir + [names[k]], Entry(dir + [names[k]], StagedBody(s, dir + [names[k]])));
    ListedBody(s, child, directories);
    DistinctNames(names, k);
    NoneOfKindMore(entries, |entries0|, dir, !directories, e);
    ChildrenMore(dir, names, k);
    ChildAfterSiblings(dir, names, k, directories, entries0, entries, e);
    WalkedMore(s, entries, emitted, dir, names[k]);
    NewChildrenMore(entries, |entries0|, dir, names, k, e);
  }

  lemma NoneOfKindMore(entries: seq<Entry>, start: nat, dir: Path, directories: bool, e: Entry)
    requires NoneOfKind(entries, start, dir, directories) && !HasKind(e.body, directories)
    ensures NoneOfKind(entries + [e], start, dir, directories)
  {
  }

  lemma DistinctNames(names: seq<string>, k: nat)
    requires SortedNames(names) && k < |names|
    ensures names[k] !in names[..k]
  {
    if i :| 0 <= i < k && names[..k][i] == names[k] { CompareTextLaws(names[i], names[k]); }
  }

  lemma ChildrenMore(dir: Path, names: seq<string>, k: nat)
    requires k < |names|
    ensures Children(dir, names[..k + 1]) == Children(dir, names[..k]) + {dir + [names[k]]}
    ensures dir + [names[k]] in Children(dir, names[..k]) ==> names[k] in names[..k]
  {
    assert names[..k + 1] == names[..k] + [names[k]];
    if dir + [names[k]] in Children(dir, names[..k]) {
      var n :| n in names[..k] && dir + [n] == dir + [names[k]];
      assert (dir + [n])[|dir|] == (dir + [names[k]])[|dir|];
    }
  }

  lemma NewChildrenMore(entries: seq<Entry>, start: nat, dir: Path, names: seq<string>, k: nat, e: Entry)
    requires k < |names| && NewChildren(entries, start, dir, names[..k]) && e.path == dir + [names[k]] && start <= |entries|
    ensures NewChildren(entries + [e], start, dir, names[..k + 1])
  {
    var more := entries + [e];
    forall i | start <= i < |more| ensures ChildNamed(more[i].path, dir, names[..k + 1]) {
      if i < |entries| {
        assert ChildNamed(entries[i].path, dir, names[..k]);
        var m :| 0 <= m < k && entries[i].path == dir + [names[..k][m]];
        assert names[..k + 1][m] == names[..k][m];
      } else {
        assert names[..k + 1][k] == names[k];
      }
    }
  }

  lemma ChildAfterSiblings(dir: Path, names: seq<string>, k: nat, directories: bool,
                           entries0: seq<Entry>, entries: seq<Entry>, e: Entry)
    requires SortedNames(names) && k < |names| && e.path == dir + [names[k]] && !HasKind(e.body, !directories)
    requires entries0 <= entries && NoneOfKind(entries0, 0, dir, directories)
    requires NewChildren(entries, |entries0|, dir, names[..k])
    ensures AfterSiblings(entries, e)
  {
    hide CompareText;
    assert Parent(e.path) == dir;
    assert forall i :: 0 <= i < |entries0| ==> entries[i] == entries0[i] && !Siblings(entries[i], e);
    forall i | |entries0| <= i < |entries| && Siblings(entries[i], e)
      ensures TextLess(Last(entries[i].path), Last(e.path))
    {
      assert ChildNamed(entries[i].path, dir, names[..k]);
      var m :| 0 <= m < k && entries[i].path == dir + [names[..k][m]];
      assert TextLess(names[m], names[k]);
    }
  }

  lemma {:induction false} ClosedPrefix(tree: map<Path, Node>, p: Path, i: nat)
    requires Closed(tree) && p in tree && 1 <= i <= |p|
    ensures p[..i] in tree && (i < |p| ==> tree[p[..i]] == DirNode)
    decreases |p| - i
  {
    assert p[..|p|] == p;
    if i < |p| {
      ClosedPrefix(tree, p, i + 1);
      assert Parent(p[..i + 1]) == p[..i];
    }
  }

  lemma ChildInPart(s: State, dir: Path, name: string)
    ensures dir + [name] in Part(s, dir, []) <==> dir + [name] in s.tree
  {
    var c := dir + [name];
    assert c[..|dir|] == dir && |c| == |dir| + 1;
  }

  lemma PartIsChild(s: State, dir: Path, p: Path)
    requires p in Part(s, dir, [])
    ensures p in s.tree && |p| == |dir| + 1 && p == dir + [p[|dir|]]
  {
    assert p == p[..|dir|] + [p[|dir|]];
  }

  lemma ChildrenArePart(s: State, dir: Path, dirNames: seq<string>, fileNames: seq<string>)
    requires forall n :: n in dirNames || n in fileNames <==> dir + [n] in s.tree
    ensures Children(dir, dirNames) + Children(dir, fileNames) == Part(s, dir, [])
  {
    hide Part;
    var (a, b) := (Children(dir, dirNames) + Children(dir, fileNames), Part(s, dir, []));
    forall p | p in b ensures p in a { PartIsChild(s, dir, p); }
    forall p | p in a ensures p in b {
      var n :| (n in dirNames || n in fileNames) && p == dir + [n];
      ChildInPart(s, dir, n);
    }
  }

  lemma UnderChild(dir: Path, name: string, p: Path)
    ensures Under(dir + [name], p) ==> Under(dir, p) && p[|dir|] == name
  {
    var child := dir + [name];
    assert child[..|dir|] == dir && child[|dir|] == name;
    if Under(child, p) { assert p[..|dir|] == child[..|dir|] && p[|dir|] == child[|dir|]; }
  }

  /** Visiting a child directory adds what is reached from it; a link adds nothing. */
  lemma PartMore(s: State, dir: Path, names: seq<string>, k: nat)
    requires k < |names| && names[k] !in names[..k]
    ensures var child := dir + [names[k]];
      Part(s, dir, names[..k + 1]) == Part(s, dir, names[..k]) + if child in s.links then {} else Reach(s, child)
    ensures var child := dir + [names[k]];
      forall p :: p in Part(s, dir, names[..k]) ==> !Under(child, p)
  {
    var child := dir + [names[k]];
    assert names[..k + 1] == names[..k] + [names[k]];
    assert child[..|dir|] == dir && child[|dir|] == names[k];
    forall p | p in Part(s, dir, names[..k + 1]) && p !in Part(s, dir, names[..k])
      ensures child !in s.links && p in Reach(s, child)
    {
      assert p[|dir|] == names[k] && p[..|dir| + 1] == child;
    }
    if child !in s.links {
      forall p | p in Reach(s, child) ensures p in Part(s, dir, names[..k + 1]) {
        assert p[..|dir|] == child[..|dir|] == dir && p[|dir|] == child[|dir|];
        forall i | |dir| < i < |p| ensures p[..i] !in s.links {
          if i == |dir| + 1 { assert p[..i] == child; }
        }
      }
    }
    forall p | p in Part(s, dir, names[..k]) ensures !Under(child, p) { UnderChild(dir, names[k], p); }
  }

  lemma PartWhole(s: State, dir: Path, dirNames: seq<string>)
    requires Closed(s.tree)
    requires forall n :: dir + [n] in s.tree && s.tree[dir + [n]] == DirNode ==> n in dirNames
    ensures Part(s, dir, dirNames) == Reach(s, dir)
  {
    hide Closed;
    forall p | p in Reach(s, dir) ensures |p| == |dir| + 1 || p[|dir|] in dirNames {
      if |p| > |dir| + 1 { FirstStep(s.tree, dir, p); }
    }
  }

  lemma FirstStep(tree: map<Path, Node>, dir: Path, p: Path)
    requires Closed(tree) && p in tree && Under(dir, p) && |p| > |dir| + 1
    ensures dir + [p[|dir|]] in tree && tree[dir + [p[|dir|]]] == DirNode
  {
    hide Closed;
    ClosedPrefix(tree, p, |dir| + 1);
    assert p[..|dir| + 1] == p[..|dir|] + [p[|dir|]];
  }

  /** One directory of `os.walk`, top down: its directories, its files, then each directory that is not a link.
      `dirLinks` are the staged symlinks that this host takes for directories. */
  method Visit(s: State, dir: Path, dirLinks: set<Path>, entries0: seq<Entry>, emitted0: set<Path>)
    returns (entries: seq<Entry>, emitted: set<Path>)
    requires Packable(s) && Walked(s, entries0, emitted0)
    requires dir == [] || dir in emitted0
    requires forall p :: p in emitted0 ==> !Under(dir, p)
    ensures Walked(s, entries, emitted) && emitted == emitted0 + Reach(s, dir) && entries0 <= entries
    decreases |Below(s.tree, dir)|
  {
    hide Walked, Packable, Reach, Below, SortedNames, ChildNames, CompareText, NoneOfKind, Part, Children, Under, Closed;
    var names := ChildNames(s.tree, dir);
    ChildNamesAre(s.tree, dir);
    var dirSet := set n | n in names && (s.tree[dir + [n]].DirNode? || (s.tree[dir + [n]].LinkNode? && dir + [n] in dirLinks));
    var dirNames := SortNames(dirSet);
    var fileNames := SortNames(names - dirSet);
    ChildrenFresh(s, dir, names, emitted0);
    RecordedLinks(s);
    NoChildrenYet(s, dir, entries0, emitted0);
    entries, emitted := EmitChildren(s, dir, dirNames, true, entries0, emitted0);
    ListingsDisjoint(dir, dirNames, fileNames);
    DirsThenFiles(entries0, entries, dir);
    entries, emitted := EmitChildren(s, dir, fileNames, false, entries, emitted);
    ChildrenArePart(s, dir, dirNames, fileNames);
    var k := 0;
    assert dirNames[..0] == [];
    while k < |dirNames|
      invariant 0 <= k <= |dirNames|
      invariant Walked(s, entries, emitted) && emitted == emitted0 + Part(s, dir, dirNames[..k]) && entries0 <= entries
    {
      var child := dir + [dirNames[k]];
      DistinctNames(dirNames, k);
      PartMore(s, dir, dirNames, k);
      if child !in s.links {
        ChildBelow(s.tree, dir, dirNames[k]);
        ChildVisited(s, dir, dirNames, k, emitted0, emitted);
        entries, emitted := Visit(s, child, dirLinks, entries, emitted);
      }
      k := k + 1;
    }
    assert dirNames[..k] == dirNames;
    PartWhole(s, dir, dirNames);
  }

  lemma RecordedLinks(s: State)
    requires Packable(s)
    ensures Closed(s.tree) && forall p :: p in s.tree && s.tree[p].LinkNode? ==> p in s.links
  {
  }

  lemma ChildrenFresh(s: State, dir: Path, names: set<string>, emitted: set<Path>)
    requires forall p :: p in emitted ==> !Under(dir, p)
    ensures forall n :: n in names ==> dir + [n] !in emitted
  {
    forall n | n in names ensures dir + [n] !in emitted { assert (dir + [n])[..|dir|] == dir; }
  }

  lemma NoChildrenYet(s: State, dir: Path, entries: seq<Entry>, emitted: set<Path>)
    requires Walked(s, entries, emitted) && forall p :: p in emitted ==> !Under(dir, p)
    ensures NoneOfKind(entries, 0, dir, true) && NoneOfKind(entries, 0, dir, false)
  {
    forall i | 0 <= i < |entries| && entries[i].path != [] ensures Parent(entries[i].path) != dir {
      assert entries[i].path in emitted;
    }
  }

  lemma ListingsDisjoint(dir: Path, dirNames: seq<string>, fileNames: seq<string>)
    requires forall n :: n in fileNames ==> n !in dirNames
    ensures forall n :: n in fileNames ==> dir + [n] !in Children(dir, dirNames)
  {
    forall n, m | n in fileNames && m in dirNames ensures dir + [n] != dir + [m] {
      assert (dir + [n])[|dir|] == n && (dir + [m])[|dir|] == m;
    }
  }

  lemma DirsThenFiles(entries0: seq<Entry>, entries: seq<Entry>, dir: Path)
    requires entries0 <= entries && NoneOfKind(entries0, 0, dir, false) && NoneOfKind(entries, |entries0|, dir, false)
    ensures NoneOfKind(entries, 0, dir, false)
  {
    assert forall i :: 0 <= i < |entries0| ==> entries[i] == entries0[i];
  }

  lemma ChildVisited(s: State, dir: Path, names: seq<string>, k: nat, emitted0: set<Path>, emitted: set<Path>)
    requires k < |names| && dir + [names[k]] in s.tree && emitted == emitted0 + Part(s, dir, names[..k])
    requires forall p :: p in emitted0 ==> !Under(dir, p)
    requires forall p :: p in Part(s, dir, names[..k]) ==> !Under(dir + [names[k]], p)
    ensures dir + [names[k]] in emitted
    ensures forall p :: p in emitted ==> !Under(dir + [names[k]], p)
  {
    var child := dir + [names[k]];
    assert child[..|dir|] == dir;
    assert child in Part(s, dir, names[..k]);
    forall p | p in emitted0 ensures !Under(child, p) { UnderChild(dir, names[k], p); }
  }
}
