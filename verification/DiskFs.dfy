/** The filesystem backend over a directory on disk. Requests name inodes, system calls take
    paths, and a map filled as inodes are met leads from the one to the other. */
module DiskFs {
  import opened Bytes
  import opened FileTypes
  import opened Messages
  import opened Conversions
  import opened Disk
  import opened InodeTree
  import opened DiskRefinement

  const ROOT_INODE: u64 := 1
  const O_EXCL: u32 := 0x80
  const O_TRUNC: u32 := 0x200

  type InodeMap = map<u64, Path>

  predicate HasFlag(flags: u32, flag: u32) {
    (flags as bv32) & (flag as bv32) != 0
  }

  /** The map with the path for the inode, unless it already has one. */
  function OrInsert(m: InodeMap, i: u64, p: Path): InodeMap {
    if i in m then m else m[i := p]
  }

  // ----- The index agrees with the disk -----

  /** The path of every registered inode that is still on the disk leads to that inode. */
  ghost predicate Agrees(m: InodeMap, d: Disk) {
    forall i | i in m && HasInode(d, i) :: m[i] in d && d[m[i]].inode == i
  }

  /** The inode that a request for `i` acts on: what now stands at the path of `i`. */
  ghost function Target(m: InodeMap, d: Disk, i: u64): Option<u64> {
    if i in m && m[i] in d then Some(d[m[i]].inode) else None
  }

  /** That is `i` itself as long as `i` is on the disk; once `i` is gone, it is nothing, or
      whatever was put in its place. */
  lemma TargetIsSelf(m: InodeMap, d: Disk, i: u64)
    requires Agrees(m, d) && i in m
    ensures HasInode(d, i) <==> Target(m, d, i) == Some(i)
    ensures Target(m, d, i).Some? ==> HasInode(d, Target(m, d, i).value)
  {
    if m[i] in d {
      assert HasInode(d, d[m[i]].inode);
    }
  }

  /** For instance inode 3, registered as `a/b` and removed with its directory: once both have
      been made anew, a request for 3 acts on the new file, inode 5. */
  lemma GoneInodeExample(data: seq<byte>)
    ensures var dir: Path, file: Path := [[0x61]], [[0x61], [0x62]];
            var d: Disk := map[[] := Node(1, Directory, 0, []), dir := Node(4, Directory, 0, []),
                               file := Node(5, RegularFile, 0, data)];
            var m: InodeMap := map[1 := [], 3 := file, 4 := dir, 5 := file];
            && WellFormed(d) && Agrees(m, d) && !HasInode(d, 3) && Target(m, d, 3) == Some(5)
            && file !in RemoveTree(d, m[3])
  {
    var dir: Path, file: Path := [[0x61]], [[0x61], [0x62]];
    var d: Disk := map[[] := Node(1, Directory, 0, []), dir := Node(4, Directory, 0, []),
                       file := Node(5, RegularFile, 0, data)];
    var m: InodeMap := map[1 := [], 3 := file, 4 := dir, 5 := file];
    assert file[..1] == dir;
    hide WellFormed, Agrees, HasInode;
    SmallDisk(d, dir, file);
    GoneIndex(m, d, dir, file);
  }

  lemma GoneIndex(m: InodeMap, d: Disk, dir: Path, file: Path)
    requires m == map[1 := [], 3 := file, 4 := dir, 5 := file] && d.Keys == {[], dir, file}
    requires d[[]].inode == 1 && d[dir].inode == 4 && d[file].inode == 5
    ensures Agrees(m, d) && !HasInode(d, 3)
  {
  }

  /** No registered inode but `i` lies at or below `a`. */
  ghost predicate NothingRegisteredBelow(m: InodeMap, t: Tree, i: u64, a: u64) {
    forall j | j in m && j in t && j != i :: !AtOrBelow(t, a, j)
  }

  lemma AgreesWhenKept(m: InodeMap, d: Disk, e: Disk)
    requires Agrees(m, d)
    requires forall p | p in d :: p in e && e[p].inode == d[p].inode
    requires forall i | i in m && HasInode(e, i) :: HasInode(d, i)
    ensures Agrees(m, e)
  {
  }

  lemma AgreesWhenRemoved(m: InodeMap, d: Disk, p: Path)
    requires Agrees(m, d) && WellFormed(d)
    ensures Agrees(m, RemoveTree(d, p))
  {
    var e := RemoveTree(d, p);
    forall i | i in m && HasInode(e, i) ensures m[i] in e && e[m[i]].inode == i {
      var q := PathOf(e, i);
      assert q in d && d[q].inode == i;
      assert HasInode(d, i);
    }
  }

  lemma AgreesWhenInserted(m: InodeMap, d: Disk, p: Path)
    requires Agrees(m, d) && p in d
    ensures Agrees(OrInsert(m, d[p].inode, p), d)
  {
  }

  /** Writing a node keeps the index right, and so does registering it. */
  lemma AgreesWhenPut(m: InodeMap, d: Disk, p: Path, node: Node)
    requires Agrees(m, d)
    requires if p in d then node.inode == d[p].inode else node.inode !in m
    ensures Agrees(OrInsert(m, node.inode, p), d[p := node])
  {
    var e := d[p := node];
    forall i | i in m && HasInode(e, i) ensures HasInode(d, i) {
      var q := PathOf(e, i);
      assert i != node.inode || p in d;
      assert (if q == p then d[p].inode else d[q].inode) == i;
    }
    AgreesWhenKept(m, d, e);
    AgreesWhenInserted(m, e, p);
  }

  /** Re-keying one inode, the moved one or one that is gone, is enough exactly when no other
      registered inode moves along. */
  lemma AgreesWhenMoved(m: InodeMap, d: Disk, from: Path, to: Path, i: u64)
    requires Agrees(m, d) && WellFormed(d) && from in d && to !in d && !(from <= to)
    requires HasInode(d, i) ==> d[from].inode == i
    ensures Agrees(m[i := to], MoveTree(d, from, to)) <==> NothingRegisteredBelow(m, Abs(d), i, d[from].inode)
  {
    var e := MoveTree(d, from, to);
    var n := m[i := to];
    hide MoveTree, Abs, AtOrBelow, WellFormed, HasInode, IsDir;
    MovedAway(d, from, to, from);
    forall j | j in m && j != i && HasInode(d, j)
      ensures n[j] in e && e[n[j]].inode == j <==> !AtOrBelow(Abs(d), d[from].inode, j)
    {
      StillNamed(m, d, from, to, j);
    }
    forall j ensures HasInode(e, j) <==> HasInode(d, j) {
      MovedInodes(d, from, to, j);
    }
    forall j ensures j in Abs(d) <==> HasInode(d, j) {
      AbsInodes(d, j);
    }
  }

  lemma StillNamed(m: InodeMap, d: Disk, from: Path, to: Path, j: u64)
    requires Agrees(m, d) && WellFormed(d) && from in d && to !in d && !(from <= to)
    requires j in m && HasInode(d, j)
    ensures m[j] in MoveTree(d, from, to) && MoveTree(d, from, to)[m[j]].inode == j
            <==> !AtOrBelow(Abs(d), d[from].inode, j)
  {
    hide MoveTree, Abs, AtOrBelow, WellFormed, HasInode, IsDir;
    BelowByPath(d, from, m[j]);
    MovedAway(d, from, to, m[j]);
  }

  /** A registered inode that moved along is lost to the index for good: looking it up again at
      its new path finds it, but changes nothing, and requests for it go on failing. */
  lemma StaleForGood(m: InodeMap, d: Disk, from: Path, to: Path, i: u64, j: u64)
    requires Agrees(m, d) && WellFormed(d) && from in d && to !in d && !(from <= to)
    requires to != [] && IsDir(d, Parent(to)) && d[from].inode == i
    requires j in m && HasInode(d, j) && from <= m[j] && m[j] != from
    ensures FoundButLost(m[i := to], MoveTree(d, from, to), Rebase(from, to, m[j]), j)
  {
    var q := m[j];
    NewPlace(d, from, to, q);
    assert d[q].inode == j && i != j;
    hide FoundButLost, WellFormed, MoveTree, Rebase, Parent, IsDir, Agrees, HasInode;
    LostThere(m[i := to], MoveTree(d, from, to), q, Rebase(from, to, q), j);
  }

  lemma LostThere(m: InodeMap, d: Disk, q: Path, r: Path, j: u64)
    requires WellFormed(d) && j in m && m[j] == q && q !in d
    requires r in d && d[r].inode == j && r != [] && Parent(r) in d
    ensures FoundButLost(m, d, r, j)
  {
    hide Abs, WellFormed, ILookup;
    FoundAgain(d, r);
  }

  /** Looking `j` up where it now is, at `r`, finds it, but leaves the index as it is, and it
      has no target. */
  ghost predicate FoundButLost(m: InodeMap, d: Disk, r: Path, j: u64) {
    && r != [] && Parent(r) in d && d[Parent(r)].inode in Abs(d)
    && ILookup(Abs(d), d[Parent(r)].inode, Last(r)) == Ok(j)
    && OrInsert(m, j, r) == m && Target(m, d, j) == None
  }

  lemma FoundAgain(d: Disk, p: Path)
    requires WellFormed(d) && p in d && p != [] && Parent(p) in d
    ensures d[Parent(p)].inode in Abs(d) && ILookup(Abs(d), d[Parent(p)].inode, Last(p)) == Ok(d[p].inode)
  {
    hide Abs, WellFormed, ILookup;
    StatByInode(d, Parent(p), Last(p));
    assert Parent(p) + [Last(p)] == p;
  }

  /** Where a path below a moved one reappears. */
  lemma NewPlace(d: Disk, from: Path, to: Path, q: Path)
    requires WellFormed(d) && from in d && to !in d && !(from <= to)
    requires to != [] && IsDir(d, Parent(to)) && q in d && from <= q && q != from
    ensures var e, r := MoveTree(d, from, to), Rebase(from, to, q);
      && WellFormed(e) && q !in e && r in e && e[r].inode == d[q].inode && r != [] && Parent(r) in e
  {
    MovedAway(d, from, to, q);
    MovedPaths(d, from, to);
    MoveTreeByInode(d, from, to);
    MovedParent(d, from, to, q);
    hide Abs, MoveTree, Rebase, IPlace;
  }

  lemma FoundAtItsPath(m: InodeMap, d: Disk, p: Path)
    requires WellFormed(d) && Agrees(m, d) && p in d && d[p].inode in m
    ensures m[d[p].inode] == p
  {
    assert HasInode(d, d[p].inode);
  }

  /** A path below the moved one no longer resolves; any other resolves as before. */
  lemma MovedAway(d: Disk, from: Path, to: Path, q: Path)
    requires WellFormed(d) && from in d && to !in d && !(from <= to) && q in d
    ensures to in MoveTree(d, from, to) && MoveTree(d, from, to)[to] == d[from]
    ensures q in MoveTree(d, from, to) <==> !(from <= q)
    ensures !(from <= q) ==> MoveTree(d, from, to)[q] == d[q]
  {
    MovedPaths(d, from, to);
    RebaseSelf(from, to);
    hide MoveTree, Rebase;
    if from <= q && to <= q {
      PrefixPresent(d, to, q);
    }
  }

  lemma MovedInodes(d: Disk, from: Path, to: Path, j: u64)
    requires WellFormed(d) && from in d && to !in d
    ensures HasInode(MoveTree(d, from, to), j) <==> HasInode(d, j)
  {
    var e := MoveTree(d, from, to);
    MovedPaths(d, from, to);
    hide MoveTree, Rebase, WellFormed;
    if HasInode(d, j) {
      var q := PathOf(d, j);
      assert (if from <= q then e[Rebase(from, to, q)].inode else e[q].inode) == j;
    }
    if HasInode(e, j) {
      var r := PathOf(e, j);
      assert (if r in d && !(from <= r) then d[r].inode else d[Rebase(to, from, r)].inode) == j;
    }
  }

  // ----- What the backend keeps -----

  /** The disk is a tree, and every inode number met belongs to it or did. */
  ghost predicate Tracked(m: InodeMap, d: Disk, used: set<u64>) {
    && WellFormed(d)
    && m.Keys <= used
    && forall p | p in d :: d[p].inode in used
  }

  /** Of the inode numbers used so far, none is on the disk now that was not there before. */
  ghost predicate NoneRevived(before: Disk, used: set<u64>, after: Disk) {
    forall i | i in used && HasInode(after, i) :: HasInode(before, i)
  }

  lemma PutKeeps(m: InodeMap, d: Disk, used: set<u64>, p: Path, node: Node)
    requires Tracked(m, d, used) && p != [] && IsDir(d, Parent(p))
    requires if p in d then node.inode == d[p].inode && node.kind == d[p].kind else node.inode !in used
    ensures Tracked(OrInsert(m, node.inode, p), d[p := node], used + {node.inode})
    ensures Agrees(m, d) ==> Agrees(OrInsert(m, node.inode, p), d[p := node])
    ensures NoneRevived(d, used, d[p := node])
    ensures HasInode(d[p := node], node.inode)
  {
    hide Agrees, WellFormed, IsDir, HasInode, NoneRevived;
    NotYetThere(d, used, p, node);
    PutWellFormed(d, p, node);
    if Agrees(m, d) {
      AgreesWhenPut(m, d, p, node);
    }
    PutRevivesNone(d, used, p, node);
  }

  lemma NotYetThere(d: Disk, used: set<u64>, p: Path, node: Node)
    requires forall q | q in d :: d[q].inode in used
    ensures node.inode !in used ==> !HasInode(d, node.inode)
    ensures HasInode(d[p := node], node.inode)
  {
    assert d[p := node][p].inode == node.inode;
  }

  lemma PutRevivesNone(d: Disk, used: set<u64>, p: Path, node: Node)
    requires if p in d then node.inode == d[p].inode else node.inode !in used
    ensures NoneRevived(d, used, d[p := node])
  {
    var e := d[p := node];
    forall i | i in used && HasInode(e, i) ensures HasInode(d, i) {
      var q := PathOf(e, i);
      assert (if q == p then d[p].inode else d[q].inode) == i;
    }
  }

  lemma RemovalKeeps(m: InodeMap, d: Disk, used: set<u64>, p: Path, i: u64)
    requires Tracked(m, d, used) && p in d
    ensures Tracked(m - {i}, RemoveTree(d, p), used)
    ensures Agrees(m, d) ==> Agrees(m - {i}, RemoveTree(d, p))
    ensures NoneRevived(d, used, RemoveTree(d, p))
  {
    RemoveTreeByInode(d, p);
    if Agrees(m, d) {
      AgreesWhenRemoved(m, d, p);
    }
    forall j | HasInode(RemoveTree(d, p), j) ensures HasInode(d, j) {
      assert d[PathOf(RemoveTree(d, p), j)].inode == j;
    }
  }

  lemma MoveKeeps(m: InodeMap, d: Disk, used: set<u64>, from: Path, to: Path, i: u64)
    requires Tracked(m, d, used) && from in d && to !in d && !(from <= to) && i in used
    requires to != [] && IsDir(d, Parent(to))
    ensures Tracked(m[i := to], MoveTree(d, from, to), used)
    ensures NoneRevived(d, used, MoveTree(d, from, to))
  {
    var e := MoveTree(d, from, to);
    MoveTreeByInode(d, from, to);
    hide MoveTree, WellFormed, IsDir, HasInode;
    forall j ensures HasInode(e, j) <==> HasInode(d, j) {
      MovedInodes(d, from, to, j);
    }
    forall p | p in e ensures e[p].inode in used {
      MovedStillUsed(d, used, from, to, p);
    }
  }

  lemma RenameKeeps(m: InodeMap, d: Disk, used: set<u64>, from: Path, to: Path, i: u64)
    requires Tracked(m, d, used) && to != [] && i in used && RenamePath(d, from, to).Ok?
    ensures Tracked(m[i := to], RenamePath(d, from, to).value, used)
    ensures NoneRevived(d, used, RenamePath(d, from, to).value)
  {
    if from == to {
    } else if to !in d {
      MoveKeeps(m, d, used, from, to, i);
    } else {
      ReplaceKeeps(m, d, used, from, to, i);
    }
  }

  /** Replacing what stands at the destination. */
  lemma ReplaceKeeps(m: InodeMap, d: Disk, used: set<u64>, from: Path, to: Path, i: u64)
    requires Tracked(m, d, used) && from in d && to in d && !(from <= to) && i in used
    requires to != [] && IsDir(d, Parent(to)) && RemoveTree(d, to) == RemoveFile(d, to)
    ensures Tracked(m[i := to], MoveTree(RemoveTree(d, to), from, to), used)
    ensures NoneRevived(d, used, MoveTree(RemoveTree(d, to), from, to))
  {
    var cleared := RemoveTree(d, to);
    assert from in RemoveFile(d, to) && to !in cleared && Parent(to) in RemoveFile(d, to);
    assert IsDir(cleared, Parent(to));
    RemovalKeeps(m, d, used, to, i);
    assert Tracked(m, cleared, used) by {
      RemoveTreeByInode(d, to);
    }
    MoveKeeps(m, cleared, used, from, to, i);
    ReviveNoneTwice(d, used, cleared, MoveTree(cleared, from, to));
  }

  lemma ReviveNone(d: Disk, used: set<u64>)
    ensures NoneRevived(d, used, d)
  {
  }

  lemma ReviveNoneTwice(a: Disk, used: set<u64>, b: Disk, c: Disk)
    requires NoneRevived(a, used, b) && NoneRevived(b, used, c)
    ensures NoneRevived(a, used, c)
  {
  }

  lemma NoLongerThere(d: Disk, p: Path)
    ensures p !in RemoveTree(d, p)
  {
  }

  /** A directory is not an entry of itself. */
  lemma NotOwnParent(m: InodeMap, d: Disk, dir: u64, name: Name)
    requires WellFormed(d) && Agrees(m, d) && dir in m && m[dir] + [name] in d
    ensures d[m[dir] + [name]].inode != dir
  {
    var to := m[dir] + [name];
    assert HasInode(d, d[to].inode);
  }

  lemma MovedStillUsed(d: Disk, used: set<u64>, from: Path, to: Path, p: Path)
    requires WellFormed(d) && to !in d && p in MoveTree(d, from, to)
    requires forall q | q in d :: d[q].inode in used
    ensures MoveTree(d, from, to)[p].inode in used
  {
    MovedFrom(d, from, to, p);
  }

  // ----- What each operation does -----

  ghost predicate LookupOutcome(m0: InodeMap, d: Disk, dir: u64, name: Name, r: Result<u64>, m: InodeMap) {
    && (dir !in m0 ==> r == Err(NotFoundKind))
    && (match Target(m0, d, dir)
        case Some(a) => a in Abs(d) && r == ILookup(Abs(d), a, name)
        case None => r.Err? && (dir in m0 ==> r.kind == Unresolved(d, m0[dir] + [name])))
    && (if r.Ok? then dir in m0 && HasInode(d, r.value) && m == OrInsert(m0, r.value, m0[dir] + [name]) else m == m0)
  }

  /** A creation by `spec` in the target directory. */
  ghost predicate CreateOutcome(m0: InodeMap, d0: Disk, used0: set<u64>, dir: u64, name: Name,
                                spec: Effect<u64>, r: Result<u64>, m: InodeMap, d: Disk, used: set<u64>) {
    && (dir !in m0 ==> r == Err(NotFoundKind))
    && (if Target(m0, d0, dir).Some? then Effect(r, Abs(d)) == spec
        else r.Err? && (dir in m0 ==> r.kind == Unresolved(d0, m0[dir] + [name])))
    && (if r.Ok? then
          dir in m0 && HasInode(d, r.value) && m == OrInsert(m0, r.value, m0[dir] + [name]) && used == used0 + {r.value}
        else m == m0 && d == d0 && used == used0)
  }

  ghost function FileSpec(m: InodeMap, d: Disk, dir: u64, mode: u16, flags: u32, name: Name, newInode: u64): Effect<u64>
    requires WellFormed(d)
  {
    match Target(m, d, dir)
    case Some(a) =>
      AbsAt(d, m[dir]);
      ICreateFile(Abs(d), a, mode, HasFlag(flags, O_EXCL), HasFlag(flags, O_TRUNC), name, newInode)
    case None => Effect(Err(NotFoundKind), Abs(d))
  }

  ghost function DirSpec(m: InodeMap, d: Disk, dir: u64, mode: u16, name: Name, newInode: u64): Effect<u64>
    requires WellFormed(d)
  {
    match Target(m, d, dir)
    case Some(a) =>
      AbsAt(d, m[dir]);
      ICreateDir(Abs(d), a, mode, name, newInode)
    case None => Effect(Err(NotFoundKind), Abs(d))
  }

  ghost predicate RemoveOutcome(m0: InodeMap, d0: Disk, i: u64, r: Result<()>, m: InodeMap, d: Disk) {
    && (i !in m0 ==> r == Err(NotFoundKind))
    && (match Target(m0, d0, i)
        case Some(a) => r == Ok(()) && Abs(d) == IRemove(Abs(d0), a)
        case None => r.Err? && (i in m0 ==> r.kind == Unresolved(d0, m0[i])))
    && (if r.Ok? then i in m0 && m == m0 - {i} && d == RemoveTree(d0, m0[i]) else m == m0 && d == d0)
  }

  /** Nothing is created below a path that does not resolve. */
  lemma NowhereToCreate(d: Disk, dir: Path, name: Name, exclusive: bool, truncate: bool, newInode: u64)
    requires WellFormed(d) && dir !in d
    ensures OpenCreate(d, dir + [name], exclusive, truncate, newInode) == Err(Unresolved(d, dir + [name]))
    ensures MakeDir(d, dir + [name], newInode) == Err(Unresolved(d, dir + [name]))
  {
    assert Parent(dir + [name]) == dir;
  }

  // ----- Renaming, and when it loses a file -----

  /** The entry `name` of the directory, as a set of at most one inode. */
  ghost function Occupant(t: Tree, dir: u64, name: Name): set<u64> {
    match Child(t, dir, name)
    case Some(x) => {x}
    case None => {}
  }

  /** The file at the destination passes the type checks, so it is removed, and yet the rename
      cannot succeed: the file is the source itself, or its directory lies below the source. */
  ghost predicate Destructive(t: Tree, i: u64, dir: u64, name: Name) {
    match Child(t, dir, name)
    case None => false
    case Some(x) =>
      && !t[x].kind.Directory?
      && (t[x].kind.RegularFile? && i in t ==> t[i].kind.RegularFile?)
      && (x == i || AtOrBelow(t, i, dir))
  }

  /** In just these cases losing the file is not what the rename of inodes does. */
  lemma DestructiveDiffers(t: Tree, i: u64, dir: u64, name: Name)
    requires i in t && dir in t && t[dir].kind.Directory? && Destructive(t, i, dir, name)
    ensures IRename(t, i, dir, name).tree == t != t - Occupant(t, dir, name)
  {
    hide AtOrBelow;
    var x := Child(t, dir, name).value;
    assert x in t && x !in t - {x};
  }

  /** Renaming a file to the name it has is one of these cases. */
  lemma OntoItself(t: Tree, i: u64, dir: u64, name: Name)
    requires dir in t && t[dir].kind.Directory? && Child(t, dir, name) == Some(i) && !t[i].kind.Directory?
    ensures Destructive(t, i, dir, name) && IRename(t, i, dir, name) == Effect(Ok(()), t)
  {
    hide AtOrBelow;
  }

  /** For instance the file `a` of a disk that holds nothing else. */
  lemma OntoItselfExample(data: seq<byte>)
    ensures var d: Disk := map[[] := Node(1, Directory, 0, []), [[0x61]] := Node(2, RegularFile, 0, data)];
            WellFormed(d) && Destructive(Abs(d), 2, 1, [0x61])
  {
    var d: Disk := map[[] := Node(1, Directory, 0, []), [[0x61]] := Node(2, RegularFile, 0, data)];
    var name: Name := [0x61];
    var p: Path := [name];
    assert Parent(p) == [];
    assert WellFormed(d);
    AbsAt(d, []);
    AbsAt(d, p);
    ChildByPath(d, [], name);
    assert [] + [name] == p;
    hide Abs, AtOrBelow, Child;
  }

  /** For instance with a file `b` registered below a directory `a` that is renamed to `c`. */
  lemma MovedDirectoryExample(data: seq<byte>)
    ensures var d: Disk := map[[] := Node(1, Directory, 0, []), [[0x61]] := Node(2, Directory, 0, []),
                               [[0x61], [0x62]] := Node(3, RegularFile, 0, data)];
            var m: InodeMap := map[1 := [], 2 := [[0x61]], 3 := [[0x61], [0x62]]];
            var from: Path, to: Path := [[0x61]], [[0x63]];
            && WellFormed(d) && Agrees(m, d)
            && RenamePath(d, from, to) == Ok(MoveTree(d, from, to))
            && !Agrees(m[2 := to], MoveTree(d, from, to))
  {
    var from: Path, to: Path := [[0x61]], [[0x63]];
    var below: Path := [[0x61], [0x62]];
    var d: Disk := map[[] := Node(1, Directory, 0, []), from := Node(2, Directory, 0, []),
                       below := Node(3, RegularFile, 0, data)];
    var m: InodeMap := map[1 := [], 2 := from, 3 := below];
    assert below[..1] == from && from[0] != to[0];
    hide WellFormed, Agrees, RenamePath, MoveTree;
    SmallDisk(d, from, below);
    SmallIndex(m, d, from, below);
    SmallMove(m, d, from, below, to);
  }

  lemma SmallMove(m: InodeMap, d: Disk, from: Path, below: Path, to: Path)
    requires WellFormed(d) && Agrees(m, d) && d.Keys == {[], from, below} && |to| == 1 && |from| == 1
    requires |below| == 2 && below[..1] == from && from[0] != to[0]
    requires d[[]].kind.Directory? && d[from].inode == 2 && d[below].inode == 3 && 3 in m
    ensures RenamePath(d, from, to) == Ok(MoveTree(d, from, to))
    ensures !Agrees(m[2 := to], MoveTree(d, from, to))
  {
    assert Parent(to) == [] && to !in d && from <= below && !(from <= to);
    assert IsDir(d, Parent(to));
    hide WellFormed, Abs, AtOrBelow, MoveTree, HasInode, Agrees, IsDir, Parent;
    OneInodeThere(d, from);
    BelowByPath(d, from, below);
    AbsAt(d, below);
    AgreesWhenMoved(m, d, from, to, 2);
  }

  lemma OneInodeThere(d: Disk, p: Path)
    requires p in d
    ensures HasInode(d, d[p].inode)
  {
  }

  lemma SmallDisk(d: Disk, from: Path, below: Path)
    requires |from| == 1 && |below| == 2 && below[..1] == from && d.Keys == {[], from, below}
    requires d[[]].kind.Directory? && d[from].kind.Directory?
    requires d[[]].inode != d[from].inode && d[from].inode != d[below].inode && d[below].inode != d[[]].inode
    ensures WellFormed(d)
  {
    assert Parent(below) == from && Parent(from) == [];
  }

  lemma SmallIndex(m: InodeMap, d: Disk, from: Path, below: Path)
    requires m == map[1 := [], 2 := from, 3 := below] && [] in d && from in d && below in d
    requires d[[]].inode == 1 && d[from].inode == 2 && d[below].inode == 3
    ensures Agrees(m, d)
  {
    hide HasInode;
  }

  lemma RenameFreeOutcome(m: InodeMap, d: Disk, i: u64, dir: u64, name: Name)
    requires WellFormed(d) && Agrees(m, d)
    requires i in m && m[i] in d && dir in m && m[dir] in d && m[dir] + [name] !in d
    ensures var t, a, b := Abs(d), d[m[i]].inode, d[m[dir]].inode;
            a in t && b in t && Child(t, b, name).None?
    ensures var t, a, b, to := Abs(d), d[m[i]].inode, d[m[dir]].inode, m[dir] + [name];
            match RenamePath(d, m[i], to)
            case Err(kind) => IRename(t, a, b, name) == Effect(Err(kind), t)
            case Ok(moved) =>
              && IRename(t, a, b, name) == Effect(Ok(()), Abs(moved))
              && (Agrees(m[i := to], moved) <==> NothingRegisteredBelow(m, t, i, a))
  {
    var to := m[dir] + [name];
    RenameToFree(d, m[i], m[dir], name);
    ChildByPath(d, m[dir], name);
    if RenamePath(d, m[i], to).Ok? {
      AgreesWhenMoved(m, d, m[i], to, i);
    }
    hide Abs, IRename, WellFormed, MoveTree, NothingRegisteredBelow;
  }

  /** The file at the destination, found and registered under `m`, has been removed. */
  lemma RenameOverOutcome(m: InodeMap, d: Disk, i: u64, dir: u64, name: Name)
    requires WellFormed(d) && Agrees(m, d)
    requires i in m && m[i] in d && dir in m && m[dir] in d
    requires m[dir] + [name] in d && !d[m[dir] + [name]].kind.Directory?
    requires d[m[dir] + [name]].kind.RegularFile? ==> d[m[i]].kind.RegularFile?
    ensures var t, a, b, to := Abs(d), d[m[i]].inode, d[m[dir]].inode, m[dir] + [name];
            var x := d[to].inode;
            var cleared := RemoveTree(d, to);
            && a in t && b in t && x in t && Child(t, b, name) == Some(x)
            && to !in cleared && Abs(cleared) == t - {x}
            && (a == x ==> Destructive(t, a, b, name) && RenamePath(cleared, m[i], to) == Err(NotFoundKind))
            && (a != x ==>
              match RenamePath(cleared, m[i], to)
              case Err(kind) => kind.InvalidInput? && Destructive(t, a, b, name)
              case Ok(moved) =>
                && !Destructive(t, a, b, name)
                && IRename(t, a, b, name) == Effect(Ok(()), Abs(moved))
                && (Agrees((m - {x})[i := to], moved) <==> NothingRegisteredBelow(m - {x}, t, i, a)))
  {
    var to := m[dir] + [name];
    var x := d[to].inode;
    AbsAt(d, m[i]);
    AbsAt(d, m[dir]);
    AbsAt(d, to);
    ChildByPath(d, m[dir], name);
    RemoveTreeByInode(d, to);
    RemoveFileByInode(d, to);
    if d[m[i]].inode == x {
      RenameGone(d, to);
    } else {
      RenameOverFile(d, m[i], m[dir], name);
      if RenamePath(RemoveTree(d, to), m[i], to).Ok? {
        OverFileIndex(m, d, i, to);
      }
    }
    hide Abs, IRename, IRemove, MoveTree, RemoveTree, NothingRegisteredBelow, Agrees, AtOrBelow, RenamePath;
  }

  /** Nothing is found at a path that has just been removed. */
  lemma RenameGone(d: Disk, p: Path)
    requires WellFormed(d) && p in d && p != []
    ensures p !in RemoveTree(d, p) && RenamePath(RemoveTree(d, p), p, p) == Err(NotFoundKind)
  {
    assert IsDir(d, Parent(p)) && !(p <= Parent(p));
  }

  lemma OverFileIndex(m: InodeMap, d: Disk, i: u64, to: Path)
    requires WellFormed(d) && Agrees(m, d) && i in m && m[i] in d
    requires to in d && !d[to].kind.Directory? && !(m[i] <= to)
    requires WellFormed(RemoveTree(d, to)) && m[i] in RemoveTree(d, to)
    ensures var x := d[to].inode;
            Agrees((m - {x})[i := to], MoveTree(RemoveTree(d, to), m[i], to))
            <==> NothingRegisteredBelow(m - {x}, Abs(d), i, d[m[i]].inode)
  {
    var x := d[to].inode;
    var cleared := RemoveTree(d, to);
    var a := d[m[i]].inode;
    AgreesWhenRemoved(m, d, to);
    RemoveFileByInode(d, to);
    RemoveTreeByInode(d, to);
    assert cleared[m[i]] == d[m[i]];
    OneInode(m, cleared, i);
    AgreesWhenMoved(m - {x}, cleared, m[i], to, i);
    hide Abs, WellFormed, MoveTree, AtOrBelow, IRemove, Agrees, RemoveTree;
    forall j | j in Abs(cleared) ensures AtOrBelow(Abs(cleared), a, j) <==> AtOrBelow(Abs(d), a, j) {
      SameBelow(d, to, m[i], j);
    }
  }

  lemma OneInode(m: InodeMap, d: Disk, i: u64)
    requires Agrees(m, d) && i in m && m[i] in d
    ensures HasInode(d, i) ==> d[m[i]].inode == i
  {
  }

  /** Removing a tree changes nothing of what lies below what among the rest. */
  lemma SameBelow(d: Disk, gone: Path, p: Path, j: u64)
    requires WellFormed(d) && WellFormed(RemoveTree(d, gone)) && p in RemoveTree(d, gone)
    requires j in Abs(RemoveTree(d, gone))
    ensures AtOrBelow(Abs(RemoveTree(d, gone)), d[p].inode, j) <==> AtOrBelow(Abs(d), d[p].inode, j)
  {
    var e := RemoveTree(d, gone);
    hide Abs, WellFormed, AtOrBelow;
    AbsInodes(e, j);
    var q := PathOf(e, j);
    assert e[q] == d[q];
    BelowByPath(e, p, q);
    BelowByPath(d, p, q);
  }

  /** What a rename does, given the index and disk it starts from and those it ends with, to
      whatever its two inodes lead to: all of its result, of the tree and of the index. */
  ghost predicate RenameOutcome(m0: InodeMap, d0: Disk, i: u64, dir: u64, name: Name, r: Result<()>, m: InodeMap, d: Disk) {
    && (dir !in m0 ==> r == Err(NotFoundKind))
    && match Target(m0, d0, dir)
       case None => r.Err? && (r.kind.NotFoundKind? || r.kind.NotADirectory?) && d == d0 && m == m0
       case Some(b) =>
         var t := Abs(d0);
         var occupant := Occupant(t, b, name);
         && b in t
         && (match Source(m0, d0, i, occupant)
             case Some(a) => RenameResult(m0, t, i, a, b, name, r, Agrees(m, d), Abs(d))
             case None =>
               && r.Err? && (r.kind.NotFoundKind? || (i in m0 && r.kind.NotADirectory?))
               && d == d0 && Agrees(m, d))
         && (if r.Ok? then m == (m0 - occupant)[i := m0[dir] + [name]] else m - occupant == m0 - occupant)
  }

  /** What is renamed. Looking up the destination registers it, even if it is the source. */
  ghost function Source(m0: InodeMap, d0: Disk, i: u64, occupant: set<u64>): Option<u64> {
    if i in m0 then Target(m0, d0, i) else if i in occupant then Some(i) else None
  }

  /** The rename of inodes, except that a destructive one fails with the destination gone. The
      index still agrees unless the rename went through with something registered below. */
  ghost predicate RenameResult(m0: InodeMap, t: Tree, i: u64, a: u64, b: u64, name: Name, r: Result<()>,
                               agrees: bool, after: Tree) {
    var occupant := Occupant(t, b, name);
    && a in t && b in t
    && Effect(r, after)
       == (if !Destructive(t, a, b, name) then IRename(t, a, b, name)
           else Effect(Err(if a in occupant then NotFoundKind else InvalidInput), t - occupant))
    && (agrees <==> (r.Ok? ==> NothingRegisteredBelow(m0 - occupant, t, i, a)))
  }

  lemma FreeOutcome(m0: InodeMap, d0: Disk, i: u64, dir: u64, name: Name, r: Result<()>, m: InodeMap, d: Disk)
    requires WellFormed(d0) && Agrees(m0, d0)
    requires i in m0 && dir in m0 && m0[dir] + [name] !in d0
    requires match RenamePath(d0, m0[i], m0[dir] + [name])
             case Err(kind) => r == Err(kind) && m == m0 && d == d0
             case Ok(moved) => r == Ok(()) && m == m0[i := m0[dir] + [name]] && d == moved
    ensures RenameOutcome(m0, d0, i, dir, name, r, m, d)
  {
    NoParent(d0, m0[i], m0[dir], name);
    hide Abs, IRename, MoveTree, RenamePath, NothingRegisteredBelow, WellFormed;
    if m0[dir] in d0 {
      AbsAt(d0, m0[dir]);
      ChildByPath(d0, m0[dir], name);
      assert Occupant(Abs(d0), d0[m0[dir]].inode, name) == {} && m0 - {} == m0;
      if m0[i] in d0 {
        RenameFreeOutcome(m0, d0, i, dir, name);
      }
    }
  }

  lemma NoParent(d: Disk, from: Path, dir: Path, name: Name)
    requires dir + [name] !in d
    ensures dir !in d || from !in d ==> RenamePath(d, from, dir + [name]).Err?
  {
    assert Parent(dir + [name]) == dir;
  }

  lemma AbsentOutcome(m0: InodeMap, d0: Disk, i: u64, dir: u64, name: Name)
    requires WellFormed(d0) && Agrees(m0, d0)
    requires dir !in m0 || (i !in m0 && m0[dir] + [name] !in d0)
    ensures RenameOutcome(m0, d0, i, dir, name, Err(NotFoundKind), m0, d0)
  {
    hide Abs, RenameResult, WellFormed;
    if dir in m0 && m0[dir] in d0 {
      AbsAt(d0, m0[dir]);
      ChildByPath(d0, m0[dir], name);
    }
  }

  /** The call is refused once the destination has been found and registered. */
  lemma RefusedOutcome(m0: InodeMap, d0: Disk, i: u64, dir: u64, name: Name, self: Result<Node>, kind: ErrorKind)
    requires WellFormed(d0) && Agrees(m0, d0)
    requires dir in m0 && m0[dir] + [name] in d0
    requires var to := m0[dir] + [name];
             var m := OrInsert(m0, d0[to].inode, to);
             && self == (if i in m then Stat(d0, m[i]) else Err(NotFoundKind))
             && match self
                case Err(k) => kind == k
                case Ok(node) =>
                  if d0[to].kind.Directory? then kind.AlreadyExists?
                  else kind.InvalidInput? && d0[to].kind.RegularFile? && !node.kind.RegularFile?
    ensures var to := m0[dir] + [name];
            RenameOutcome(m0, d0, i, dir, name, Err(kind), OrInsert(m0, d0[to].inode, to), d0)
  {
    hide Abs, Child, RenameResult, Unresolved, IsDir;
    var to := m0[dir] + [name];
    var x := d0[to].inode;
    var m := OrInsert(m0, x, to);
    ParentPresent(d0, m0[dir], name);
    hide WellFormed;
    AgreesWhenInserted(m0, d0, to);
    AbsAt(d0, m0[dir]);
    ChildByPath(d0, m0[dir], name);
    if i in m && m[i] in d0 {
      RefusedResult(m0, d0, i, m0[dir], m[i], name, kind);
      OneInode(m, d0, i);
    }
    assert HasInode(d0, x);
  }

  lemma ParentPresent(d: Disk, dir: Path, name: Name)
    requires WellFormed(d) && dir + [name] in d
    ensures dir in d && IsDir(d, dir)
  {
    assert Parent(dir + [name]) == dir;
  }

  lemma RefusedResult(m0: InodeMap, d0: Disk, i: u64, dir: Path, from: Path, name: Name, kind: ErrorKind)
    requires WellFormed(d0) && from in d0 && dir in d0 && dir + [name] in d0
    requires if d0[dir + [name]].kind.Directory? then kind.AlreadyExists?
             else kind.InvalidInput? && d0[dir + [name]].kind.RegularFile? && !d0[from].kind.RegularFile?
    ensures RenameResult(m0, Abs(d0), i, d0[from].inode, d0[dir].inode, name, Err(kind), true, Abs(d0))
  {
    ChildByPath(d0, dir, name);
    AbsAt(d0, dir + [name]);
    AbsAt(d0, dir);
    AbsAt(d0, from);
    assert Parent(dir + [name]) == dir;
    assert IsDir(d0, dir);
    hide Abs, WellFormed, NothingRegisteredBelow, AtOrBelow, Child;
  }

  /** The call ends after the destination has been found, registered and removed. */
  ghost predicate ClearedCall(m0: InodeMap, d0: Disk, i: u64, to: Path, r: Result<()>, m: InodeMap, d: Disk)
    requires to in d0
  {
    var x := d0[to].inode;
    var found := OrInsert(m0, x, to);
    var cleared := RemoveTree(d0, to);
    && i in found && to != [] && to !in cleared && !d0[to].kind.Directory?
    && found[i] in d0 && (d0[to].kind.RegularFile? ==> d0[found[i]].kind.RegularFile?)
    && if i == x then r == Err(NotFoundKind) && m == found - {x} && d == cleared
       else
         match RenamePath(cleared, m0[i], to)
         case Err(kind) => r == Err(kind) && m == found - {x} && d == cleared
         case Ok(moved) => r == Ok(()) && m == (found - {x})[i := to] && d == moved
  }

  lemma ClearedIndex(m0: InodeMap, d0: Disk, i: u64, to: Path, r: Result<()>, m: InodeMap, d: Disk)
    requires to in d0 && ClearedCall(m0, d0, i, to, r, m, d)
    ensures var x := d0[to].inode;
            && (i != x ==> i in m0)
            && m == if r.Ok? then (m0 - {x})[i := to] else m0 - {x}
  {
    hide RemoveTree, RenamePath;
    assert OrInsert(m0, d0[to].inode, to) - {d0[to].inode} == m0 - {d0[to].inode};
  }

  lemma ClearedOutcome(m0: InodeMap, d0: Disk, i: u64, dir: u64, name: Name, r: Result<()>, m: InodeMap, d: Disk)
    requires WellFormed(d0) && Agrees(m0, d0) && dir in m0 && m0[dir] + [name] in d0
    requires ClearedCall(m0, d0, i, m0[dir] + [name], r, m, d)
    ensures RenameOutcome(m0, d0, i, dir, name, r, m, d)
  {
    hide Abs, RenameResult, ClearedCall, Child, IsDir;
    var to := m0[dir] + [name];
    ClearedIndex(m0, d0, i, to, r, m, d);
    ParentPresent(d0, m0[dir], name);
    hide WellFormed;
    AbsAt(d0, m0[dir]);
    ChildByPath(d0, m0[dir], name);
    ClearedSource(m0, d0, i, to, r, m, d);
    ClearedResult(m0, d0, i, dir, name, r, m, d);
  }

  lemma ClearedSource(m0: InodeMap, d0: Disk, i: u64, to: Path, r: Result<()>, m: InodeMap, d: Disk)
    requires Agrees(m0, d0) && to in d0 && ClearedCall(m0, d0, i, to, r, m, d)
    ensures var x := d0[to].inode;
            var found := OrInsert(m0, x, to);
            i in found && found[i] in d0 && Source(m0, d0, i, {x}) == Some(d0[found[i]].inode)
  {
    hide RemoveTree, RenamePath;
  }

  lemma ClearedResult(m0: InodeMap, d0: Disk, i: u64, dir: u64, name: Name, r: Result<()>, m: InodeMap, d: Disk)
    requires WellFormed(d0) && Agrees(m0, d0) && dir in m0 && m0[dir] in d0 && m0[dir] + [name] in d0
    requires ClearedCall(m0, d0, i, m0[dir] + [name], r, m, d)
    ensures var found := OrInsert(m0, d0[m0[dir] + [name]].inode, m0[dir] + [name]);
            i in found && found[i] in d0
            && RenameResult(m0, Abs(d0), i, d0[found[i]].inode, d0[m0[dir]].inode, name, r, Agrees(m, d), Abs(d))
  {
    hide Abs, WellFormed, Agrees, RenameResult, ClearedCall;
    if r.Err? {
      ClearedFails(m0, d0, i, dir, name, r, m, d);
    } else {
      ClearedMoves(m0, d0, i, dir, name, r, m, d);
    }
  }

  lemma ClearedFails(m0: InodeMap, d0: Disk, i: u64, dir: u64, name: Name, r: Result<()>, m: InodeMap, d: Disk)
    requires WellFormed(d0) && Agrees(m0, d0) && dir in m0 && m0[dir] in d0 && m0[dir] + [name] in d0
    requires ClearedCall(m0, d0, i, m0[dir] + [name], r, m, d)
    requires r.Err?
    ensures var found := OrInsert(m0, d0[m0[dir] + [name]].inode, m0[dir] + [name]);
            i in found && found[i] in d0
            && RenameResult(m0, Abs(d0), i, d0[found[i]].inode, d0[m0[dir]].inode, name, r, Agrees(m, d), Abs(d))
  {
    assert HasInode(d0, d0[m0[dir] + [name]].inode);
    hide Abs, WellFormed, Agrees, HasInode, Child, Destructive, RemoveTree, RenamePath, RenameResult, NothingRegisteredBelow, IRename;
    var to := m0[dir] + [name];
    var x: u64 := d0[to].inode;
    var found: InodeMap := OrInsert(m0, x, to);
    AgreesWhenInserted(m0, d0, to);
    OneInode(found, d0, i);
    ClearedKeeps(found, d0, to, x);
    RenameOverOutcome(found, d0, i, dir, name);
    FailedResult(m0, Abs(d0), i, d0[found[i]].inode, d0[m0[dir]].inode, name, x, r.kind, Abs(d));
  }

  lemma FailedResult(m0: InodeMap, t: Tree, i: u64, a: u64, b: u64, name: Name, x: u64, kind: ErrorKind, after: Tree)
    requires a in t && b in t && Child(t, b, name) == Some(x) && Destructive(t, a, b, name)
    requires after == t - {x} && (if a == x then kind.NotFoundKind? else kind.InvalidInput?)
    ensures RenameResult(m0, t, i, a, b, name, Err(kind), true, after)
  {
    hide Child, Destructive, NothingRegisteredBelow, IRename;
  }

  lemma ClearedKeeps(m: InodeMap, d: Disk, p: Path, x: u64)
    requires Agrees(m, d) && WellFormed(d)
    ensures Agrees(m - {x}, RemoveTree(d, p))
  {
    hide RemoveTree, WellFormed;
    AgreesWhenRemoved(m, d, p);
  }

  lemma ClearedMoves(m0: InodeMap, d0: Disk, i: u64, dir: u64, name: Name, r: Result<()>, m: InodeMap, d: Disk)
    requires WellFormed(d0) && Agrees(m0, d0) && dir in m0 && m0[dir] in d0 && m0[dir] + [name] in d0
    requires ClearedCall(m0, d0, i, m0[dir] + [name], r, m, d)
    requires r.Ok?
    ensures var found := OrInsert(m0, d0[m0[dir] + [name]].inode, m0[dir] + [name]);
            i in found && found[i] in d0
            && RenameResult(m0, Abs(d0), i, d0[found[i]].inode, d0[m0[dir]].inode, name, r, Agrees(m, d), Abs(d))
  {
    hide Abs, WellFormed, NothingRegisteredBelow, Agrees, HasInode, Child, IRename, Destructive, RemoveTree, RenamePath;
    var to := m0[dir] + [name];
    var x: u64 := d0[to].inode;
    var found: InodeMap := OrInsert(m0, x, to);
    AgreesWhenInserted(m0, d0, to);
    assert m0 - {x} == found - {x};
    RenameOverOutcome(found, d0, i, dir, name);
  }

  // ----- The backend -----

  class DiskFs {
    var inodeMap: InodeMap
    var disk: Disk
    /** Every inode number the disk has used so far. */
    ghost var used: set<u64>

    ghost predicate Sound()
      reads this
    {
      Tracked(inodeMap, disk, used)
    }

    ghost predicate Valid()
      reads this
    {
      Sound() && Agrees(inodeMap, disk)
    }

    /** The inode has been handed out and is still on the disk. */
    ghost predicate Known(i: u64)
      reads this
    {
      i in inodeMap && HasInode(disk, i)
    }

    ghost function Tree(): Tree
      reads this
    {
      Abs(disk)
    }

    constructor (root: Disk)
      requires WellFormed(root) && [] in root && root[[]].inode == ROOT_INODE
      ensures Valid() && Known(ROOT_INODE)
      ensures disk == root && inodeMap == map[1 := []]
    {
      inodeMap := map[ROOT_INODE := []];
      disk := root;
      used := set p | p in root :: root[p].inode;
    }

    method GetPath(inode: u64) returns (r: Result<Path>)
      ensures r == if inode in inodeMap then Ok(inodeMap[inode]) else Err(NotFoundKind)
    {
      if inode in inodeMap {
        return Ok(inodeMap[inode]);
      }
      return Err(NotFoundKind);
    }

    /** The attributes of what the inode's path names. */
    method GetAttr(inode: u64) returns (r: Result<Node>)
      requires Sound()
      ensures r == if inode in inodeMap then Stat(disk, inodeMap[inode]) else Err(NotFoundKind)
      ensures r.Ok? == Target(inodeMap, disk, inode).Some?
      ensures r.Ok? ==> var a := Target(inodeMap, disk, inode).value;
                        a in Tree() && r.value == Node(a, Tree()[a].kind, Tree()[a].mode, Tree()[a].data)
    {
      var path := GetPath(inode);
      if path.Err? {
        return Err(path.kind);
      }
      r := Stat(disk, path.value);
      if path.value in disk {
        AbsAt(disk, path.value);
      }
    }

    method Lookup(dirInode: u64, filename: Name) returns (r: Result<u64>)
      requires Sound()
      modifies this`inodeMap
      ensures Sound() && (old(Valid()) ==> Valid())
      ensures LookupOutcome(old(inodeMap), disk, dirInode, filename, r, inodeMap)
      ensures dirInode in old(inodeMap) ==>
                var path := old(inodeMap)[dirInode] + [filename];
                if r.Ok? then path in disk && disk[path].inode == r.value else path !in disk
    {
      var dir := GetPath(dirInode);
      if dir.Err? {
        return Err(dir.kind);
      }
      var path := dir.value + [filename];
      var metadata := Stat(disk, path);
      if dir.value in disk {
        StatByInode(disk, dir.value, filename);
      }
      if metadata.Err? {
        return Err(metadata.kind);
      }
      var ino := metadata.value.inode;
      assert disk[path].inode == ino;
      if Valid() {
        AgreesWhenInserted(inodeMap, disk, path);
      }
      inodeMap := OrInsert(inodeMap, ino, path);
      return Ok(ino);
    }

    /** `newInode` is the number the disk gives a file created by the call. */
    method CreateFile(parentInode: u64, perms: u16, unixFlags: u32, filename: Name, newInode: u64)
      returns (r: Result<u64>)
      requires Sound() && newInode !in used
      modifies this
      ensures Sound() && (old(Valid()) ==> Valid())
      ensures NoneRevived(old(disk), old(used), disk)
      ensures CreateOutcome(old(inodeMap), old(disk), old(used), parentInode, filename,
                            old(FileSpec(inodeMap, disk, parentInode, perms, unixFlags, filename, newInode)),
                            r, inodeMap, disk, used)
    {
      hide Abs, ICreateFile, HasFlag, NoneRevived, Tracked, WellFormed, HasInode, OpenCreate, Agrees;
      Unused(newInode);
      var dir := GetPath(parentInode);
      if dir.Err? {
        return Err(dir.kind);
      }
      var path := dir.value + [filename];
      var exclusive := HasFlag(unixFlags, O_EXCL);
      var truncate := HasFlag(unixFlags, O_TRUNC);
      var file := OpenCreate(disk, path, exclusive, truncate, newInode);
      if dir.value in disk {
        OpenByInode(disk, dir.value, filename, perms, exclusive, truncate, newInode);
      } else {
        NowhereToCreate(disk, dir.value, filename, exclusive, truncate, newInode);
      }
      if file.Err? {
        return Err(file.kind);
      }
      assert Parent(path) == dir.value;
      OpenedNode(disk, path, perms, exclusive, truncate, newInode);
      ghost var node := NodeAfterOpen(disk, path, perms, truncate, newInode);
      PutKeeps(inodeMap, disk, used, path, node);
      disk := file.value;
      disk := SetPermissions(disk, path, perms);
      var ino := disk[path].inode;
      used := used + {ino};
      inodeMap := OrInsert(inodeMap, ino, path);
      return Ok(ino);
    }

    method CreateDir(parentInode: u64, permissions: u16, dirName: Name, newInode: u64) returns (r: Result<u64>)
      requires Sound() && newInode !in used
      modifies this
      ensures Sound() && (old(Valid()) ==> Valid())
      ensures NoneRevived(old(disk), old(used), disk)
      ensures CreateOutcome(old(inodeMap), old(disk), old(used), parentInode, dirName,
                            old(DirSpec(inodeMap, disk, parentInode, permissions, dirName, newInode)),
                            r, inodeMap, disk, used)
    {
      hide Abs, ICreateDir, NoneRevived, Tracked, WellFormed, HasInode, MakeDir, Agrees;
      Unused(newInode);
      var dir := GetPath(parentInode);
      if dir.Err? {
        return Err(dir.kind);
      }
      var path := dir.value + [dirName];
      var made := MakeDir(disk, path, newInode);
      if dir.value in disk {
        MakeDirByInode(disk, dir.value, dirName, permissions, newInode);
      } else {
        NowhereToCreate(disk, dir.value, dirName, false, false, newInode);
      }
      if made.Err? {
        return Err(made.kind);
      }
      assert Parent(path) == dir.value;
      MadeNode(disk, path, permissions, newInode);
      PutKeeps(inodeMap, disk, used, path, Node(newInode, Directory, permissions, []));
      disk := made.value;
      disk := SetPermissions(disk, path, permissions);
      var ino := disk[path].inode;
      used := used + {ino};
      inodeMap := OrInsert(inodeMap, ino, path);
      return Ok(ino);
    }

    method Remove(inode: u64) returns (r: Result<()>)
      requires Sound()
      modifies this`inodeMap, this`disk
      ensures Sound() && (old(Valid()) ==> Valid())
      ensures NoneRevived(old(disk), old(used), disk)
      ensures RemoveOutcome(old(inodeMap), old(disk), inode, r, inodeMap, disk)
    {
      hide Abs, IRemove, Unresolved, Agrees, WellFormed, HasInode, NoneRevived;
      ReviveNone(disk, used);
      var path := GetPath(inode);
      if path.Err? {
        return Err(path.kind);
      }
      var metadata := Stat(disk, path.value);
      if metadata.Err? {
        return Err(metadata.kind);
      }
      RemoveTreeByInode(disk, path.value);
      RemovalKeeps(inodeMap, disk, used, path.value, inode);
      if metadata.value.kind.Directory? {
        disk := RemoveTree(disk, path.value);
      } else {
        RemoveFileByInode(disk, path.value);
        disk := RemoveFile(disk, path.value);
      }
      inodeMap := inodeMap - {inode};
      return Ok(());
    }

    method Rename(inode: u64, destParentInode: u64, destFilename: Name) returns (r: Result<()>)
      requires Sound()
      modifies this`inodeMap, this`disk
      ensures Sound() && NoneRevived(old(disk), old(used), disk)
      ensures old(Valid()) ==>
                RenameOutcome(old(inodeMap), old(disk), inode, destParentInode, destFilename, r, inodeMap, disk)
    {
      hide Abs, Agrees, HasInode, WellFormed, NoneRevived, RenameOutcome, RemoveTree, MoveTree, RenamePath, ILookup, IRemove;
      ghost var m0, d0, valid := inodeMap, disk, Valid();
      ReviveNone(d0, used);
      var dest := Lookup(destParentInode, destFilename);
      if dest.Ok? {
        if valid {
          FoundAtItsPath(inodeMap, disk, m0[destParentInode] + [destFilename]);
        }
        var destAttr := GetAttr(dest.value);
        if destAttr.Err? {
          return Err(destAttr.kind);
        }
        var selfAttr := GetAttr(inode);
        if selfAttr.Err? {
          if valid {
            RefusedOutcome(m0, d0, inode, destParentInode, destFilename, selfAttr, selfAttr.kind);
          }
          return Err(selfAttr.kind);
        }
        if destAttr.value.kind.Directory? {
          if valid {
            RefusedOutcome(m0, d0, inode, destParentInode, destFilename, selfAttr, AlreadyExists);
          }
          return Err(AlreadyExists);
        } else if destAttr.value.kind.RegularFile? && destAttr.value.kind != selfAttr.value.kind {
          if valid {
            RefusedOutcome(m0, d0, inode, destParentInode, destFilename, selfAttr, InvalidInput);
          }
          return Err(InvalidInput);
        }
        var removed := Remove(dest.value);
        if removed.Err? {
          return removed;
        }
        if valid {
          NoLongerThere(d0, m0[destParentInode] + [destFilename]);
          NotOwnParent(m0, d0, destParentInode, destFilename);
        }
      }

      var oldPath := GetPath(inode);
      if oldPath.Err? {
        if valid {
          if dest.Ok? {
            ClearedOutcome(m0, d0, inode, destParentInode, destFilename, Err(NotFoundKind), inodeMap, disk);
          } else {
            AbsentOutcome(m0, d0, inode, destParentInode, destFilename);
          }
        }
        return Err(oldPath.kind);
      }
      var newDir := GetPath(destParentInode);
      if newDir.Err? {
        if valid {
          AbsentOutcome(m0, d0, inode, destParentInode, destFilename);
        }
        return Err(newDir.kind);
      }
      var newPath := newDir.value + [destFilename];
      var renamed := RenamePath(disk, oldPath.value, newPath);
      if renamed.Err? {
        if valid {
          if dest.Ok? {
            ClearedOutcome(m0, d0, inode, destParentInode, destFilename, Err(renamed.kind), inodeMap, disk);
          } else {
            FreeOutcome(m0, d0, inode, destParentInode, destFilename, Err(renamed.kind), inodeMap, disk);
          }
        }
        return Err(renamed.kind);
      }
      RenameKeeps(inodeMap, disk, used, oldPath.value, newPath, inode);
      ReviveNoneTwice(d0, used, disk, renamed.value);
      disk := renamed.value;
      inodeMap := inodeMap[inode := newPath];
      if valid {
        if dest.Ok? {
          ClearedOutcome(m0, d0, inode, destParentInode, destFilename, Ok(()), inodeMap, disk);
        } else {
          FreeOutcome(m0, d0, inode, destParentInode, destFilename, Ok(()), inodeMap, disk);
        }
      }
      return Ok(());
    }

    lemma Unused(newInode: u64)
      requires Sound() && newInode !in used
      ensures WellFormed(disk) && !HasInode(disk, newInode)
      ensures NoneRevived(disk, used, disk)
    {
    }
  }
}
