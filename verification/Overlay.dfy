/** The metadata overlay and the staging tree of a root filesystem (buster/osbuild/rootfs.py), what the recorded
    operations mean for the archive, and how one operation changes overlay and tree on any host. */
module Overlay {
  /** A normalised path inside the root: its components, none for the root itself. */
  type Path = seq<string>

  type Byte = n: int | 0 <= n < 256
  type Bytes = seq<Byte>

  /** Permission bits as `stat.S_IMODE` leaves them. */
  type Mode = n: int | 0 <= n < 4096

  datatype Kind = Directory | Regular | Symlink | Hardlink

  datatype Meta = Meta(kind: Kind, mode: Mode)

  datatype Link = Link(hard: bool, target: string)

  datatype FileInfo = FileInfo(mode: Mode, bytes: Bytes)

  datatype Node = DirNode | FileNode(bytes: Bytes) | LinkNode(target: string)

  datatype Extra = Extra(path: Path, file: FileInfo)

  /** `modes`, `links` and `extra_members`, and the staging tree without its root. */
  datatype State = State(modes: map<Path, Meta>, links: map<Path, Link>, extras: seq<Extra>, tree: map<Path, Node>)

  /** What the build records, in order: directories, links and regular files with their bytes. */
  datatype Op =
    | DirOp(path: Path, mode: Mode)
    | LinkOp(path: Path, link: Link)
    | FileOp(path: Path, file: FileInfo)

  const LINK_MODE: Mode := 511  // 0o777
  const DIR_MODE: Mode := 493   // 0o755
  const FILE_MODE: Mode := 420  // 0o644

  /** `stat.S_IMODE`. */
  function PermissionBits(mode: nat): Mode { mode % 4096 }

  /** `mode or default`. */
  function Or(mode: Mode, default: Mode): Mode { if mode == 0 then default else mode }

  // ---------------------------------------------------------------- paths

  function Parent(p: Path): Path { if p == [] then [] else p[..|p| - 1] }

  /** The directories on the way to `p`, itself included. */
  function Prefixes(p: Path): set<Path> { set i | 1 <= i <= |p| :: p[..i] }

  lemma PrefixesParent(p: Path)
    requires p != []
    ensures Prefixes(p) == Prefixes(Parent(p)) + {p}
  {
    assert p[..|p|] == p;
    forall i | 1 <= i < |p| ensures p[..i] in Prefixes(Parent(p)) { assert p[..i] == Parent(p)[..i]; }
    forall i | 1 <= i <= |Parent(p)| ensures Parent(p)[..i] in Prefixes(p) { assert p[..i] == Parent(p)[..i]; }
  }

  lemma {:induction false} PrefixesClosed(p: Path, q: Path)
    requires q in Prefixes(p)
    ensures Prefixes(q) <= Prefixes(p) && q != []
  {
    var i :| 1 <= i <= |p| && p[..i] == q;
    forall j | 1 <= j <= |q| ensures q[..j] in Prefixes(p) { assert q[..j] == p[..j]; }
  }

  // ---------------------------------------------------------------- what the recorded operations mean

  /** The overlay entry `_record` writes for an operation. */
  function MetaOf(op: Op): Meta {
    match op
    case DirOp(_, mode) => Meta(Directory, mode)
    case LinkOp(_, link) => Meta(if link.hard then Hardlink else Symlink, LINK_MODE)
    case FileOp(_, file) => Meta(Regular, file.mode)
  }

  function ModesOf(log: seq<Op>): map<Path, Meta> {
    if log == [] then map[]
    else ModesOf(log[..|log| - 1])[log[|log| - 1].path := MetaOf(log[|log| - 1])]
  }

  function LinksOf(log: seq<Op>): map<Path, Link> {
    if log == [] then map[]
    else
      var (rest, last) := (LinksOf(log[..|log| - 1]), log[|log| - 1]);
      if last.LinkOp? then rest[last.path := last.link] else rest
  }

  function FilesOf(log: seq<Op>): map<Path, FileInfo> {
    if log == [] then map[]
    else
      var (rest, last) := (FilesOf(log[..|log| - 1]), log[|log| - 1]);
      if last.FileOp? then rest[last.path := last.file] else rest
  }

  /** The directories an operation creates on every host: a hard link touches nothing on disk. */
  function DirsFor(op: Op): set<Path> {
    match op
    case DirOp(path, _) => Prefixes(path)
    case LinkOp(path, link) => if link.hard then {} else Prefixes(Parent(path))
    case FileOp(path, _) => Prefixes(Parent(path))
  }

  function DirsOf(log: seq<Op>): set<Path> {
    if log == [] then {} else DirsOf(log[..|log| - 1]) + DirsFor(log[|log| - 1])
  }

  /** One owner for each path: links, files and directories (those on the way to staged members included) are
      disjoint, and a file recorded again is recorded alike. So nothing is staged beneath a link or a file. */
  ghost predicate OneOwner(log: seq<Op>) {
    && LinksOf(log).Keys !! FilesOf(log).Keys
    && LinksOf(log).Keys !! DirsOf(log)
    && FilesOf(log).Keys !! DirsOf(log)
    && (forall i :: 0 <= i < |log| ==> log[i].path != [])
    && (forall i, j :: 0 <= i < j < |log| && log[i].FileOp? && log[j].FileOp? && log[i].path == log[j].path ==>
          log[i].file == log[j].file)
  }

  /** An entry of the archive: a directory, a regular file, or a link (always of mode 0777). */
  datatype Body = DirBody(mode: Mode) | FileBody(mode: Mode, bytes: Bytes) | LinkBody(hard: bool, target: string)

  datatype Entry = Entry(path: Path, body: Body)

  /** What the archive must hold, told from the recorded operations alone. */
  function Expected(log: seq<Op>): map<Path, Body> {
    map p | p in LinksOf(log).Keys + FilesOf(log).Keys + DirsOf(log) :: ExpectedBody(log, p)
  }

  function ExpectedBody(log: seq<Op>, p: Path): Body {
    if p in LinksOf(log) then LinkBody(LinksOf(log)[p].hard, LinksOf(log)[p].target)
    else if p in FilesOf(log) then FileBody(Or(FilesOf(log)[p].mode, FILE_MODE), FilesOf(log)[p].bytes)
    else DirBody(Or(if p in ModesOf(log) then ModesOf(log)[p].mode else DIR_MODE, DIR_MODE))
  }

  lemma LastOp(log: seq<Op>, op: Op)
    ensures ModesOf(log + [op]) == ModesOf(log)[op.path := MetaOf(op)]
    ensures LinksOf(log + [op]) == if op.LinkOp? then LinksOf(log)[op.path := op.link] else LinksOf(log)
    ensures FilesOf(log + [op]) == if op.FileOp? then FilesOf(log)[op.path := op.file] else FilesOf(log)
    ensures DirsOf(log + [op]) == DirsOf(log) + DirsFor(op)
  {
    assert (log + [op])[..|log|] == log;
  }

  lemma {:induction false} FileSource(log: seq<Op>, p: Path) returns (i: nat)
    requires p in FilesOf(log)
    ensures i < |log| && log[i] == FileOp(p, FilesOf(log)[p])
  {
    var (init, last) := (log[..|log| - 1], log[|log| - 1]);
    if last.FileOp? && last.path == p {
      i := |log| - 1;
    } else {
      i := FileSource(init, p);
    }
  }

  /** Earlier operations have one owner each if all do, and a new file agrees with the file it repeats. */
  lemma OwnerBefore(log: seq<Op>, op: Op)
    requires OneOwner(log + [op])
    ensures OneOwner(log) && op.path != []
    ensures op.FileOp? && op.path in FilesOf(log) ==> FilesOf(log)[op.path] == op.file
  {
    LastOp(log, op);
    var whole := log + [op];
    assert forall i :: 0 <= i < |log| ==> whole[i] == log[i];
    assert whole[|log|] == op;
    if op.FileOp? && op.path in FilesOf(log) {
      var i := FileSource(log, op.path);
      assert whole[i] == log[i];
    }
  }

  lemma {:induction false} DirsClosed(log: seq<Op>, p: Path)
    requires p in DirsOf(log)
    ensures Prefixes(p) <= DirsOf(log) && p != []
  {
    var (init, last) := (log[..|log| - 1], log[|log| - 1]);
    if p in DirsOf(init) {
      DirsClosed(init, p);
    } else if last.DirOp? {
      PrefixesClosed(last.path, p);
    } else {
      PrefixesClosed(Parent(last.path), p);
    }
  }

  lemma {:induction false} FileModes(log: seq<Op>)
    requires OneOwner(log)
    ensures forall p :: p in FilesOf(log) ==> p in ModesOf(log) && ModesOf(log)[p].mode == FilesOf(log)[p].mode
  {
    if log != [] {
      var (init, last) := (log[..|log| - 1], log[|log| - 1]);
      assert init + [last] == log;
      OwnerBefore(init, last);
      FileModes(init);
      if last.DirOp? {
        PrefixesParent(last.path);
        assert last.path in DirsOf(log);
      }
    }
  }

  // ---------------------------------------------------------------- one operation on one host

  /** `os.makedirs(path, exist_ok=True)`. */
  function MakeDirs(tree: map<Path, Node>, p: Path): map<Path, Node> {
    tree + (map q | q in Prefixes(p) && q !in tree :: DirNode)
  }

  function Recorded(s: State, op: Op): State {
    s.(modes := s.modes[op.path := MetaOf(op)], links := if op.LinkOp? then s.links[op.path := op.link] else s.links)
  }

  /** `os.unlink` of anything but a directory. */
  function Unlink(tree: map<Path, Node>, p: Path): map<Path, Node> {
    if p in tree && !tree[p].DirNode? then tree - {p} else tree
  }

  /** `os.symlink`: it fails on an existing name, and whenever the host refuses. */
  function PlaceLink(tree: map<Path, Node>, p: Path, target: string, accepted: bool): map<Path, Node> {
    if accepted && p !in tree then tree[p := LinkNode(target)] else tree
  }

  /** Installing one member on a host that accepts or refuses to create its symlink or file. */
  function Installed(s: State, op: Op, accepted: bool): State {
    var r := Recorded(s, op);
    match op
    case DirOp(path, _) => r.(tree := MakeDirs(s.tree, path))
    case LinkOp(path, link) =>
      if link.hard then r
      else r.(tree := PlaceLink(Unlink(MakeDirs(s.tree, Parent(path)), path), path, link.target, accepted))
    case FileOp(path, file) =>
      var tree := MakeDirs(s.tree, Parent(path));
      if accepted then r.(tree := tree[path := FileNode(file.bytes)])
      else r.(tree := tree, extras := s.extras + [Extra(path, file)])
  }

  /** A merged-/usr link of the layout: a host that refuses the symlink gets a real directory instead. */
  function LaidOut(s: State, op: Op, accepted: bool): State
    requires op.LinkOp?
  {
    var r := Recorded(s, op);
    if op.path in s.tree then r
    else if accepted then r.(tree := s.tree[op.path := LinkNode(op.link.target)])
    else r.(tree := MakeDirs(s.tree, op.path))
  }

  // ---------------------------------------------------------------- what every host keeps

  ghost predicate Staged(s: State, log: seq<Op>) {
    && s.modes == ModesOf(log) && s.links == LinksOf(log)
    && (forall p :: p in DirsOf(log) ==> p in s.tree && s.tree[p] == DirNode)
    && (forall p :: p in s.tree ==> NodeOk(s, log, p))
    && Housed(s.tree, DirsOf(log))
  }

  /** Everything below the top level is in a recorded directory. */
  ghost predicate Housed(tree: map<Path, Node>, dirs: set<Path>) {
    forall p :: p in tree ==> p != [] && (|p| > 1 ==> Parent(p) in dirs)
  }

  /** Everything staged is a recorded directory, a recorded file with its bytes, or stands at a link; a directory
      at a link is one of the layout's fallbacks. */
  ghost predicate NodeOk(s: State, log: seq<Op>, p: Path)
    requires p in s.tree
  {
    match s.tree[p]
    case DirNode => p in DirsOf(log) || (p in LinksOf(log) && |p| == 1)
    case FileNode(bytes) => p in FilesOf(log) && FilesOf(log)[p].bytes == bytes
    case LinkNode(_) => p in LinksOf(log)
  }

  /** Every file is staged or kept among the extra members, where all is as recorded. */
  ghost predicate Kept(s: State, log: seq<Op>) {
    && (forall p :: p in FilesOf(log) ==>
          (p in s.tree && s.tree[p].FileNode?) || exists i :: 0 <= i < |s.extras| && s.extras[i].path == p)
    && (forall i :: 0 <= i < |s.extras| ==>
          s.extras[i].path in FilesOf(log) && s.extras[i].file == FilesOf(log)[s.extras[i].path])
  }

  ghost predicate Represents(s: State, log: seq<Op>) { OneOwner(log) && Staged(s, log) && Kept(s, log) }

  lemma MakeDirsHoused(tree: map<Path, Node>, p: Path, dirs: set<Path>)
    requires Housed(tree, dirs) && Prefixes(p) <= dirs
    ensures Housed(MakeDirs(tree, p), dirs)
  {
    forall q | q in Prefixes(p) ensures q != [] && (|q| > 1 ==> Parent(q) in dirs) {
      PrefixesClosed(p, q);
      PrefixesParent(q);
      if |q| > 1 { PrefixesParent(Parent(q)); }
    }
  }

  /** Making recorded directories changes no other staged node and keeps everything staged as recorded. */
  lemma MakeDirsStaged(s: State, log: seq<Op>, p: Path, dirs: set<Path>)
    requires Staged(s, log) && dirs == DirsOf(log) + Prefixes(p)
    requires LinksOf(log).Keys !! dirs && FilesOf(log).Keys !! dirs
    ensures var tree := MakeDirs(s.tree, p);
      && Housed(tree, dirs)
      && (forall q :: q in tree <==> q in s.tree || q in dirs)
      && (forall q :: q in s.tree ==> tree[q] == s.tree[q])
      && (forall q :: q in dirs ==> tree[q] == DirNode)
  {
    hide ModesOf, LinksOf, FilesOf, DirsOf, Prefixes;
    forall q | q in Prefixes(p) && q in s.tree ensures s.tree[q] == DirNode { assert NodeOk(s, log, q); }
    MakeDirsHoused(s.tree, p, dirs);
  }

  lemma DirInstalled(s: State, log: seq<Op>, op: Op, accepted: bool)
    requires op.DirOp? && Represents(s, log) && OneOwner(log + [op])
    ensures Represents(Installed(s, op, accepted), log + [op])
  {
    hide OneOwner, ModesOf, LinksOf, FilesOf, DirsOf, Prefixes, Housed;
    LastOp(log, op);
    Owners(log + [op]);
    MakeDirsStaged(s, log, op.path, DirsOf(log + [op]));
  }

  lemma KeptSame(s: State, s': State, log: seq<Op>, log': seq<Op>)
    requires Kept(s, log) && FilesOf(log') == FilesOf(log) && s'.extras == s.extras
    requires forall p :: p in FilesOf(log) && p in s.tree && s.tree[p].FileNode? ==> p in s'.tree && s'.tree[p].FileNode?
    ensures Kept(s', log')
  {
  }

  lemma LinkInstalled(s: State, log: seq<Op>, op: Op, accepted: bool)
    requires op.LinkOp? && !op.link.hard && Represents(s, log) && OneOwner(log + [op])
    ensures Represents(Installed(s, op, accepted), log + [op])
  {
    hide OneOwner, ModesOf, LinksOf, FilesOf, DirsOf, Prefixes, Housed, MakeDirs, Kept, PlaceLink, Unlink, NodeOk;
    LastOp(log, op);
    OwnerBefore(log, op);
    Owners(log + [op]);
    var (dirs, made) := (DirsOf(log + [op]), MakeDirs(s.tree, Parent(op.path)));
    MakeDirsStaged(s, log, Parent(op.path), dirs);
    ParentMade(op.path);
    LinkPlaced(made, op.path, op.link.target, accepted, dirs);
    var s' := Installed(s, op, accepted);
    forall p | p in s'.tree ensures NodeOk(s', log + [op], p) {
      if p in s.tree { assert NodeOk(s, log, p); }
      LinkNodes(s, s', log, op, p, dirs);
    }
    forall p | p in FilesOf(log) && p in s.tree && s.tree[p].FileNode? ensures p in s'.tree && s'.tree[p].FileNode? {}
    KeptSame(s, s', log, log + [op]);
  }

  lemma LinkNodes(s: State, s': State, log: seq<Op>, op: Op, p: Path, dirs: set<Path>)
    requires p in s'.tree && (p in s.tree ==> NodeOk(s, log, p))
    requires op.LinkOp? && LinksOf(log + [op]) == LinksOf(log)[op.path := op.link] && FilesOf(log + [op]) == FilesOf(log)
    requires dirs == DirsOf(log + [op]) && DirsOf(log) <= dirs
    requires p != op.path ==> (p in s.tree && s'.tree[p] == s.tree[p]) || (p in dirs && s'.tree[p] == DirNode)
    requires p == op.path ==> s'.tree[p].LinkNode? || (p in s.tree && s'.tree[p] == s.tree[p] == DirNode)
    ensures NodeOk(s', log + [op], p)
  {
    hide ModesOf, LinksOf, FilesOf, DirsOf;
  }

  lemma ParentMade(p: Path)
    requires p != []
    ensures |p| > 1 ==> Parent(p) in Prefixes(Parent(p))
  {
    if |p| > 1 { PrefixesParent(Parent(p)); }
  }

  lemma LinkPlaced(tree: map<Path, Node>, p: Path, target: string, accepted: bool, dirs: set<Path>)
    requires Housed(tree, dirs) && p != [] && (|p| > 1 ==> Parent(p) in dirs)
    ensures var r := PlaceLink(Unlink(tree, p), p, target, accepted);
      && Housed(r, dirs)
      && (forall q :: q != p ==> (q in r <==> q in tree) && (q in tree ==> r[q] == tree[q]))
      && (p in r ==> r[p].LinkNode? || (p in tree && r[p] == tree[p] == DirNode))
  {
  }

  lemma HardLinkInstalled(s: State, log: seq<Op>, op: Op, accepted: bool)
    requires op.LinkOp? && op.link.hard && Represents(s, log) && OneOwner(log + [op])
    ensures Represents(Installed(s, op, accepted), log + [op])
  {
    hide OneOwner, ModesOf, LinksOf, FilesOf, DirsOf, Housed;
    LastOp(log, op);
    assert DirsOf(log) + {} == DirsOf(log);
  }

  lemma FilePlaced(tree: map<Path, Node>, p: Path, bytes: Bytes, dirs: set<Path>)
    requires Housed(tree, dirs) && p != [] && (|p| > 1 ==> Parent(p) in dirs)
    ensures Housed(tree[p := FileNode(bytes)], dirs)
  {
  }

  lemma FileInstalled(s: State, log: seq<Op>, op: Op, accepted: bool)
    requires op.FileOp? && Represents(s, log) && OneOwner(log + [op])
    ensures Represents(Installed(s, op, accepted), log + [op])
  {
    hide OneOwner, ModesOf, LinksOf, FilesOf, DirsOf, Prefixes, MakeDirs, Housed, Kept, NodeOk;
    LastOp(log, op);
    OwnerBefore(log, op);
    Owners(log + [op]);
    var (dirs, made) := (DirsOf(log + [op]), MakeDirs(s.tree, Parent(op.path)));
    MakeDirsStaged(s, log, Parent(op.path), dirs);
    ParentMade(op.path);
    FilePlaced(made, op.path, op.file.bytes, dirs);
    FileKept(s, log, op, accepted);
    var s' := Installed(s, op, accepted);
    forall p | p in s'.tree ensures NodeOk(s', log + [op], p) {
      if p in s.tree { assert NodeOk(s, log, p); }
      FileNodes(s, s', log, op, p, dirs);
    }
  }

  lemma FileNodes(s: State, s': State, log: seq<Op>, op: Op, p: Path, dirs: set<Path>)
    requires p in s'.tree && (p in s.tree ==> NodeOk(s, log, p))
    requires op.FileOp? && LinksOf(log + [op]) == LinksOf(log) && FilesOf(log + [op]) == FilesOf(log)[op.path := op.file]
    requires op.path in FilesOf(log) ==> FilesOf(log)[op.path] == op.file
    requires dirs == DirsOf(log + [op]) && DirsOf(log) <= dirs
    requires (p in s.tree && s'.tree[p] == s.tree[p]) || (p in dirs && s'.tree[p] == DirNode)
             || (p == op.path && s'.tree[p] == FileNode(op.file.bytes))
    ensures NodeOk(s', log + [op], p)
  {
    hide ModesOf, LinksOf, FilesOf, DirsOf;
  }

  lemma FileKept(s: State, log: seq<Op>, op: Op, accepted: bool)
    requires op.FileOp? && Represents(s, log)
    requires FilesOf(log + [op]) == FilesOf(log)[op.path := op.file]
    requires op.path in FilesOf(log) ==> FilesOf(log)[op.path] == op.file
    ensures Kept(Installed(s, op, accepted), log + [op])
  {
    hide OneOwner, ModesOf, LinksOf, FilesOf, DirsOf, Prefixes, Housed, NodeOk, Staged;
    var s' := Installed(s, op, accepted);
    assert forall p :: p in s.tree && s.tree[p].FileNode? ==> p in s'.tree && s'.tree[p].FileNode?;
    assert forall i :: 0 <= i < |s.extras| ==> s'.extras[i] == s.extras[i];
    if !accepted { assert s'.extras[|s.extras|].path == op.path; }
  }

  /** One member, installed on any host, keeps overlay and tree representing what was recorded. */
  lemma InstalledRepresents(s: State, log: seq<Op>, op: Op, accepted: bool)
    requires Represents(s, log) && OneOwner(log + [op])
    ensures Represents(Installed(s, op, accepted), log + [op])
  {
    hide Represents, OneOwner, Installed;
    match op
    case DirOp(_, _) => DirInstalled(s, log, op, accepted);
    case LinkOp(_, link) =>
      if link.hard { HardLinkInstalled(s, log, op, accepted); } else { LinkInstalled(s, log, op, accepted); }
    case FileOp(_, _) => FileInstalled(s, log, op, accepted);
  }

  /** So does a layout link, staged as a link or as a directory. */
  lemma LaidOutRepresents(s: State, log: seq<Op>, op: Op, accepted: bool)
    requires op.LinkOp? && !op.link.hard && |op.path| == 1 && Represents(s, log) && OneOwner(log + [op])
    ensures Represents(LaidOut(s, op, accepted), log + [op])
  {
    hide OneOwner, ModesOf, LinksOf, FilesOf, DirsOf, Housed, Kept, Prefixes, MakeDirs;
    LastOp(log, op);
    OwnerBefore(log, op);
    Owners(log + [op]);
    TopLevel(op.path, s.tree);
    assert DirsOf(log) + {} == DirsOf(log);
    TopPlaced(s.tree, op.path, DirNode, DirsOf(log));
    TopPlaced(s.tree, op.path, LinkNode(op.link.target), DirsOf(log));
    KeptSame(s, LaidOut(s, op, accepted), log, log + [op]);
  }

  lemma TopLevel(p: Path, tree: map<Path, Node>)
    requires |p| == 1
    ensures Prefixes(Parent(p)) == {} && (p !in tree ==> MakeDirs(tree, p) == tree[p := DirNode])
  {
    assert Parent(p) == [] && Prefixes([]) == {};
    assert Prefixes(p) == {p} by { PrefixesParent(p); }
  }

  lemma TopPlaced(tree: map<Path, Node>, p: Path, node: Node, dirs: set<Path>)
    requires Housed(tree, dirs) && |p| == 1
    ensures Housed(tree[p := node], dirs)
  {
  }

  lemma Owners(log: seq<Op>)
    requires OneOwner(log)
    ensures LinksOf(log).Keys !! FilesOf(log).Keys
    ensures LinksOf(log).Keys !! DirsOf(log)
    ensures FilesOf(log).Keys !! DirsOf(log)
  {
  }
}
