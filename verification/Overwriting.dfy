/** Writing over what was recorded (buster/osbuild/rootfs.py): a file or symlink that a host manages to put where a file
    was recorded before replaces it, wherever the host had kept that file. */
module Overwriting {
  import opened Text
  import opened Overlay
  import opened Packing
  import opened Rootfs
  import opened RootfsFacts

  /** The operation in the place of `last`, or `last` itself. */
  function Replaced(last: Op, op: Op): Op { if last.FileOp? && last.path == op.path then op else last }

  /** Every file recorded at the operation's path gives way to the operation. */
  function Replace(log: seq<Op>, op: Op): seq<Op> {
    if log == [] then []
    else Replace(log[..|log| - 1], op) + [Replaced(log[|log| - 1], op)]
  }

  function Overwrite(log: seq<Op>, op: Op): seq<Op> {
    if op.path in FilesOf(log) then Replace(log, op) else log + [op]
  }

  /** A file or a symlink. */
  predicate Staging(op: Op) { op.FileOp? || (op.LinkOp? && !op.link.hard) }

  /** Nothing but directories above the path, no directory at it, and no link where a file goes. */
  ghost predicate Place(log: seq<Op>, op: Op) {
    && Staging(op) && op.path != [] && op.path !in DirsOf(log)
    && Prefixes(Parent(op.path)) !! LinksOf(log).Keys && Prefixes(Parent(op.path)) !! FilesOf(log).Keys
    && (op.FileOp? ==> op.path !in LinksOf(log))
  }

  // ---------------------------------------------------------------- what the log then means

  lemma {:induction false} ReplaceAt(log: seq<Op>, op: Op)
    ensures |Replace(log, op)| == |log|
    ensures forall i :: 0 <= i < |log| ==>
              Replace(log, op)[i] == Replaced(log[i], op)
  {
    if log != [] { ReplaceAt(log[..|log| - 1], op); }
  }

  lemma {:induction false} ReplaceDirs(log: seq<Op>, op: Op)
    requires Staging(op)
    ensures DirsOf(Replace(log, op)) == DirsOf(log)
  {
    hide Prefixes;
    if log != [] {
      var (init, last) := (log[..|log| - 1], log[|log| - 1]);
      ReplaceDirs(init, op);
      LastOp(Replace(init, op), Replaced(last, op));
    }
  }

  lemma ReplaceLast(log: seq<Op>, op: Op)
    requires log != []
    ensures Replace(log, op) == Replace(log[..|log| - 1], op) + [Replaced(log[|log| - 1], op)]
    ensures log == log[..|log| - 1] + [log[|log| - 1]]
  {
    hide Replaced;
  }

  function AddLink(links: map<Path, Link>, op: Op): map<Path, Link> { if op.LinkOp? then links[op.path := op.link] else links }

  function AddFile(files: map<Path, FileInfo>, op: Op): map<Path, FileInfo> {
    if op.FileOp? then files[op.path := op.file] else files
  }

  /** The links once the operation replaces the files at its path. */
  function LinksOver(links: map<Path, Link>, files: map<Path, FileInfo>, op: Op): map<Path, Link> {
    if op.path in files then AddLink(links, op) else links
  }

  function FilesOver(files: map<Path, FileInfo>, op: Op): map<Path, FileInfo> {
    if op.path !in files then files else if op.FileOp? then files[op.path := op.file] else files - {op.path}
  }

  lemma LinksOverStep(links: map<Path, Link>, files: map<Path, FileInfo>, op: Op, last: Op)
    requires op.path !in AddLink(links, last)
    ensures AddLink(LinksOver(links, files, op), Replaced(last, op)) == LinksOver(AddLink(links, last), AddFile(files, last), op)
    ensures op.path !in links
  {
  }

  lemma FilesOverStep(files: map<Path, FileInfo>, op: Op, last: Op)
    ensures AddFile(FilesOver(files, op), Replaced(last, op)) == FilesOver(AddFile(files, last), op)
  {
  }

  lemma {:induction false} ReplaceLinks(log: seq<Op>, op: Op)
    requires op.path !in LinksOf(log)
    ensures LinksOf(Replace(log, op)) == LinksOver(LinksOf(log), FilesOf(log), op)
  {
    if log == [] {
      assert Replace(log, op) == [];
    } else {
      hide ModesOf, DirsOf, LinksOf, FilesOf, Replace, LinksOver, Replaced;
      var (init, last) := (log[..|log| - 1], log[|log| - 1]);
      ReplaceLast(log, op);
      LastOp(init, last);
      LinksOverStep(LinksOf(init), FilesOf(init), op, last);
      ReplaceLinks(init, op);
      LastOp(Replace(init, op), Replaced(last, op));
    }
  }

  lemma {:induction false} ReplaceFiles(log: seq<Op>, op: Op)
    ensures FilesOf(Replace(log, op)) == FilesOver(FilesOf(log), op)
  {
    if log == [] {
      assert Replace(log, op) == [];
    } else {
      hide ModesOf, DirsOf, LinksOf, FilesOf, Replace, FilesOver, Replaced;
      var (init, last) := (log[..|log| - 1], log[|log| - 1]);
      ReplaceLast(log, op);
      LastOp(init, last);
      FilesOverStep(FilesOf(init), op, last);
      ReplaceFiles(init, op);
      LastOp(Replace(init, op), Replaced(last, op));
    }
  }

  lemma {:induction false} ModesElsewhere(log: seq<Op>, op: Op)
    ensures ModesOf(Replace(log, op)).Keys == ModesOf(log).Keys
    ensures forall q :: q in ModesOf(log) && q != op.path ==> ModesOf(Replace(log, op))[q] == ModesOf(log)[q]
  {
    if log == [] {
      assert Replace(log, op) == [];
    } else {
      hide ModesOf, DirsOf, LinksOf, FilesOf, Replace, MetaOf;
      var (init, last) := (log[..|log| - 1], log[|log| - 1]);
      ReplaceLast(log, op);
      LastOp(init, last);
      ModesElsewhere(init, op);
      LastOp(Replace(init, op), Replaced(last, op));
    }
  }

  lemma {:induction false} ModeThere(log: seq<Op>, op: Op)
    requires op.path != [] && op.path in FilesOf(log) && op.path !in LinksOf(log) && op.path !in DirsOf(log)
    ensures op.path in ModesOf(log) && op.path in ModesOf(Replace(log, op))
    ensures ModesOf(Replace(log, op))[op.path] == MetaOf(op)
  {
    hide ModesOf, DirsOf, LinksOf, Replace, MetaOf, Prefixes;
    var (init, last) := (log[..|log| - 1], log[|log| - 1]);
    ReplaceLast(log, op);
    LastOp(init, last);
    LastOp(Replace(init, op), Replaced(last, op));
    if last.path == op.path {
      OwnDirectory(last);
    } else {
      ModeThere(init, op);
    }
  }

  lemma OwnDirectory(op: Op)
    ensures op.DirOp? && op.path != [] ==> op.path in DirsFor(op)
  {
    if op.path != [] { PrefixesParent(op.path); }
  }

  lemma {:induction false} FileDirs(log: seq<Op>, p: Path)
    requires p in FilesOf(log)
    ensures Prefixes(Parent(p)) <= DirsOf(log)
  {
    hide Prefixes;
    var (init, last) := (log[..|log| - 1], log[|log| - 1]);
    assert log == init + [last];
    LastOp(init, last);
    if !(last.FileOp? && last.path == p) { FileDirs(init, p); }
  }

  lemma ReplaceOneOwner(log: seq<Op>, op: Op)
    requires OneOwner(log) && Place(log, op) && op.path !in LinksOf(log)
    ensures OneOwner(Replace(log, op))
  {
    hide ModesOf, DirsOf, LinksOf, FilesOf, Replace, Prefixes;
    ReplaceAt(log, op);
    ReplaceDirs(log, op);
    ReplaceLinks(log, op);
    ReplaceFiles(log, op);
  }

  /** Overwriting in terms of the log it overwrites. */
  lemma OverwriteMeaning(log: seq<Op>, op: Op)
    requires OneOwner(log) && Place(log, op)
    ensures var over := Overwrite(log, op);
      && OneOwner(over)
      && LinksOf(over) == (if op.LinkOp? then LinksOf(log)[op.path := op.link] else LinksOf(log))
      && FilesOf(over) == (if op.FileOp? then FilesOf(log)[op.path := op.file] else FilesOf(log) - {op.path})
      && DirsOf(over) == DirsOf(log) + Prefixes(Parent(op.path))
      && ModesOf(over) == ModesOf(log)[op.path := MetaOf(op)]
  {
    hide ModesOf, DirsOf, LinksOf, FilesOf, Replace, Prefixes, MetaOf, OneOwner;
    Owners(log);
    if op.path in FilesOf(log) {
      ReplaceOneOwner(log, op);
      ReplaceDirs(log, op);
      ReplaceLinks(log, op);
      ReplaceFiles(log, op);
      ModesElsewhere(log, op);
      ModeThere(log, op);
      FileDirs(log, op.path);
    } else {
      LastOp(log, op);
      OneOwnerStep(log, op);
    }
  }

  // ---------------------------------------------------------------- what a host then holds

  function DropExtras(extras: seq<Extra>, p: Path): seq<Extra> {
    if extras == [] then []
    else (if extras[0].path == p then [] else [extras[0]]) + DropExtras(extras[1..], p)
  }

  lemma {:induction false} DroppedAre(extras: seq<Extra>, p: Path)
    ensures forall e :: e in DropExtras(extras, p) <==> e in extras && e.path != p
    ensures (forall e :: e in extras ==> e.path != p) ==> DropExtras(extras, p) == extras
  {
    if extras != [] { DroppedAre(extras[1..], p); }
  }

  /** The state without what it keeps aside for one path. */
  function Without(s: State, p: Path): State { s.(extras := DropExtras(s.extras, p)) }

  lemma NothingAside(s: State, log: seq<Op>, p: Path)
    requires Kept(s, log) && p !in FilesOf(log)
    ensures Without(s, p) == s
  {
    hide FilesOf;
    DroppedAre(s.extras, p);
  }

  lemma StillKept(s: State, t: State, log: seq<Op>, over: seq<Op>, op: Op)
    requires Kept(s, log) && t.extras == DropExtras(s.extras, op.path)
    requires FilesOf(over) == if op.FileOp? then FilesOf(log)[op.path := op.file] else FilesOf(log) - {op.path}
    requires op.FileOp? ==> op.path in t.tree && t.tree[op.path].FileNode?
    requires forall p :: p in s.tree && s.tree[p].FileNode? && p != op.path ==> p in t.tree && t.tree[p].FileNode?
    ensures Kept(t, over)
  {
    hide FilesOf, DropExtras;
    DroppedAre(s.extras, op.path);
    forall i | 0 <= i < |t.extras| ensures t.extras[i].path in FilesOf(over) && t.extras[i].file == FilesOf(over)[t.extras[i].path] {
      assert t.extras[i] in t.extras;
      var j :| 0 <= j < |s.extras| && s.extras[j] == t.extras[i];
    }
    forall p | p in FilesOf(over) && !(p in t.tree && t.tree[p].FileNode?)
      ensures exists i :: 0 <= i < |t.extras| && t.extras[i].path == p
    {
      var j :| 0 <= j < |s.extras| && s.extras[j].path == p;
      assert s.extras[j] in t.extras;
    }
  }

  lemma NothingToMake(s: State, log: seq<Op>, p: Path)
    requires Staged(s, log) && Prefixes(p) <= DirsOf(log)
    ensures MakeDirs(s.tree, p) == s.tree
  {
    hide ModesOf, LinksOf, FilesOf, DirsOf, Prefixes, NodeOk, Housed;
  }

  function NodeFor(op: Op): Node
    requires Staging(op)
  {
    if op.FileOp? then FileNode(op.file.bytes) else LinkNode(op.link.target)
  }

  lemma InstalledOver(s: State, log: seq<Op>, op: Op)
    requires Represents(s, log) && Place(log, op) && op.path in FilesOf(log)
    ensures var t := Installed(s, op, true);
      && t.tree == s.tree[op.path := NodeFor(op)]
      && t.modes == s.modes[op.path := MetaOf(op)]
      && t.links == (if op.LinkOp? then s.links[op.path := op.link] else s.links)
      && t.extras == s.extras
  {
    hide ModesOf, LinksOf, FilesOf, DirsOf, Prefixes, MetaOf, OneOwner, Kept, Housed, MakeDirs;
    FileDirs(log, op.path);
    NothingToMake(s, log, Parent(op.path));
    Owners(log);
    if op.path in s.tree { assert NodeOk(s, log, op.path); }
    if op.LinkOp? {
      assert PlaceLink(Unlink(s.tree, op.path), op.path, op.link.target, true) == s.tree[op.path := LinkNode(op.link.target)];
    }
  }

  lemma OverNode(s: State, t: State, log: seq<Op>, over: seq<Op>, op: Op, p: Path)
    requires Staging(op) && p in t.tree && t.tree == s.tree[op.path := NodeFor(op)]
    requires p in s.tree ==> NodeOk(s, log, p)
    requires LinksOf(over) == if op.LinkOp? then LinksOf(log)[op.path := op.link] else LinksOf(log)
    requires FilesOf(over) == if op.FileOp? then FilesOf(log)[op.path := op.file] else FilesOf(log) - {op.path}
    requires DirsOf(log) <= DirsOf(over)
    ensures NodeOk(t, over, p)
  {
    hide ModesOf, LinksOf, FilesOf, DirsOf;
  }

  lemma OverHoused(tree: map<Path, Node>, p: Path, node: Node, dirs: set<Path>)
    requires Housed(tree, dirs) && p != [] && Prefixes(Parent(p)) <= dirs
    ensures Housed(tree[p := node], dirs)
  {
    ParentMade(p);
  }

  /** A file or symlink that the host puts at its path, with nothing kept aside for that path any more, makes overlay
      and tree represent what is recorded once the operation has taken the place of any file there. */
  lemma OverwriteRepresents(s: State, log: seq<Op>, op: Op)
    requires Represents(s, log) && Place(log, op)
    ensures Represents(Installed(Without(s, op.path), op, true), Overwrite(log, op))
  {
    hide ModesOf, LinksOf, FilesOf, DirsOf, Prefixes, MetaOf, OneOwner, Kept, Housed, Installed, NodeOk, Replace, NodeFor,
         DropExtras;
    var over := Overwrite(log, op);
    OverwriteMeaning(log, op);
    if op.path in FilesOf(log) {
      var t := Installed(Without(s, op.path), op, true);
      FileDirs(log, op.path);
      assert DirsOf(over) == DirsOf(log);
      InstalledOver(s, log, op);
      AsideUntouched(s, op.path, op);
      forall p | p in t.tree ensures NodeOk(t, over, p) {
        if p in s.tree { assert NodeOk(s, log, p); }
        OverNode(s, t, log, over, op, p);
      }
      OverHoused(s.tree, op.path, NodeFor(op), DirsOf(log));
      NodeKind(op);
      StillKept(s, t, log, over, op);
    } else {
      NothingAside(s, log, op.path);
      OneOwnerStep(log, op);
      InstalledRepresents(s, log, op, true);
    }
  }

  lemma NodeKind(op: Op)
    requires Staging(op)
    ensures NodeFor(op).FileNode? <==> op.FileOp?
    ensures !NodeFor(op).DirNode?
  {
  }

  /** What a host keeps aside plays no part in an installation that succeeds. */
  lemma AsideUntouched(s: State, p: Path, op: Op)
    requires Staging(op)
    ensures Installed(Without(s, p), op, true) == Without(Installed(s, op, true), p)
  {
  }

  // ---------------------------------------------------------------- and packs

  lemma {:induction false} FirstExtraElsewhere(extras: seq<Extra>, p: Path, q: Path)
    requires q != p
    ensures FirstExtra(DropExtras(extras, p), q) == FirstExtra(extras, q)
  {
    if extras != [] {
      var rest := DropExtras(extras[1..], p);
      assert ([extras[0]] + rest)[1..] == rest && [] + rest == rest;
      FirstExtraElsewhere(extras[1..], p, q);
    }
  }

  lemma WalkedAlike(s: State, t: State, entries: seq<Entry>, emitted: set<Path>)
    requires Walked(s, entries, emitted) && t.links == s.links && t.tree == s.tree && t.modes == s.modes
    ensures Walked(t, entries, emitted)
  {
    hide Emits, ParentsFirst, SiblingsSorted;
  }

  lemma ExtraAlike(s: State, t: State, p: Path, e: Entry)
    requires ExtraEntry(s, e) && e.path != p && t == Without(s, p)
    ensures ExtraEntry(t, e)
  {
    hide FirstExtra, DropExtras;
    FirstExtraElsewhere(s.extras, p, e.path);
  }

  /** What is kept aside for a path that the walk or a link accounts for does not show in the archive. */
  lemma AsideUnseen(s: State, p: Path, entries: seq<Entry>, walked: nat, linked: nat)
    requires Packed(s, entries, walked, linked) && (p in Reach(s, []) || p in s.links)
    ensures Packed(Without(s, p), entries, walked, linked)
  {
    hide CompareText, PathText, Walked, Reach, DropExtras, FirstExtra, ExtraEntry;
    var t := Without(s, p);
    DroppedAre(s.extras, p);
    AlikeReach(s, t);
    WalkedAlike(s, t, entries[..walked], Reach(s, []));
    forall i | linked <= i < |entries| ensures ExtraEntry(t, entries[i]) {
      NotAside(s, p, entries, walked, linked, i);
      ExtraAlike(s, t, p, entries[i]);
    }
    forall i | 0 <= i < |t.extras| ensures Written(entries, t.extras[i].path) {
      assert t.extras[i] in t.extras;
      var j :| 0 <= j < |s.extras| && s.extras[j] == t.extras[i];
    }
  }

  lemma NotAside(s: State, p: Path, entries: seq<Entry>, walked: nat, linked: nat, i: nat)
    requires Packed(s, entries, walked, linked) && (p in Reach(s, []) || p in s.links) && linked <= i < |entries|
    ensures entries[i].path != p
  {
    hide CompareText, PathText, SiblingsSorted, ParentsFirst, AsStaged, Reach;
    if p in Reach(s, []) {
      WalkedPart(entries, walked, p);
      var k :| 0 <= k < walked && entries[k].path == p;
      assert entries[k].path != entries[i].path;
    } else {
      assert ExtraEntry(s, entries[i]);
    }
  }

  /** Two hosts that agreed before, and both put the same file or symlink there, write the same archive, whatever was
      recorded at its path before and wherever either kept it. */
  lemma OverwrittenHostsAgree(s: State, t: State, log: seq<Op>, op: Op,
                              a: seq<Entry>, walkedA: nat, linkedA: nat, b: seq<Entry>, walkedB: nat, linkedB: nat)
    requires Represents(s, log) && Represents(t, log) && Place(log, op)
    requires Packed(Installed(s, op, true), a, walkedA, linkedA) && Packed(Installed(t, op, true), b, walkedB, linkedB)
    ensures multiset(a) == multiset(b) && Holds(a, Expected(Overwrite(log, op)))
  {
    hide Represents, Packed, Expected, Holds, Installed, Overwrite;
    OverwritePacked(s, log, op, a, walkedA, linkedA);
    OverwritePacked(t, log, op, b, walkedB, linkedB);
    SameEntries(a, b, Expected(Overwrite(log, op)));
  }

  lemma OverwritePacked(s: State, log: seq<Op>, op: Op, entries: seq<Entry>, walked: nat, linked: nat)
    requires Represents(s, log) && Place(log, op) && Packed(Installed(s, op, true), entries, walked, linked)
    ensures Holds(entries, Expected(Overwrite(log, op)))
  {
    hide Represents, Packed, Expected, Holds, Overwrite, Reach, MakeDirs;
    var t := Without(Installed(s, op, true), op.path);
    OverwriteRepresents(s, log, op);
    AsideUntouched(s, op.path, op);
    StagedReachable(t, Overwrite(log, op));
    AlikeReach(Installed(s, op, true), t);
    AsideUnseen(Installed(s, op, true), op.path, entries, walked, linked);
    PackedAsRecorded(t, Overwrite(log, op), entries, walked, linked);
  }

  lemma AlikeReach(s: State, t: State)
    requires t.links == s.links && t.tree.Keys == s.tree.Keys
    ensures Reach(t, []) == Reach(s, [])
  {
  }
}
