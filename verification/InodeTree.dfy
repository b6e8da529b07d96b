/** The filesystem as the protocol addresses it: inodes, each with a place in its parent.
    An operation here is a change to one inode; `Abs` reads such a tree off a set of paths. */
module InodeTree {
  import opened Bytes
  import opened FileTypes
  import opened Messages
  import opened Conversions
  import opened Disk

  datatype Place = Top | At(parent: u64, name: Name)

  datatype INode = INode(place: Place, kind: FileType, mode: u16, data: seq<byte>)

  type Tree = map<u64, INode>

  // ----- Reading the tree -----

  /** Inode `i` is the entry `name` of directory `dir`. */
  ghost predicate IsChild(t: Tree, dir: u64, name: Name, i: u64) {
    i in t && t[i].place == At(dir, name)
  }

  ghost function Child(t: Tree, dir: u64, name: Name): (r: Option<u64>)
    ensures r.Some? ==> IsChild(t, dir, name, r.value)
  {
    if exists i :: IsChild(t, dir, name, i) then
      var i :| IsChild(t, dir, name, i); Some(i)
    else None
  }

  /** Following at most `n` parents from `j` leads to `i`. */
  ghost predicate Climbs(t: Tree, i: u64, j: u64, n: nat)
    decreases n
  {
    i == j || (n > 0 && j in t && t[j].place.At? && Climbs(t, i, t[j].place.parent, n - 1))
  }

  /** `j` is `i` or lies somewhere below it. */
  ghost predicate AtOrBelow(t: Tree, i: u64, j: u64) {
    exists n: nat :: Climbs(t, i, j, n)
  }

  // ----- Operations on inodes -----

  datatype Effect<T> = Effect(result: Result<T>, tree: Tree)

  ghost function ILookup(t: Tree, dir: u64, name: Name): Result<u64>
    requires dir in t
  {
    if !t[dir].kind.Directory? then Err(NotADirectory)
    else
      match Child(t, dir, name)
      case Some(i) => Ok(i)
      case None => Err(NotFoundKind)
  }

  /** Opens or creates the entry and gives it its permissions. */
  ghost function ICreateFile(t: Tree, dir: u64, mode: u16, exclusive: bool, truncate: bool, name: Name,
                             newInode: u64): Effect<u64>
    requires dir in t
  {
    if !t[dir].kind.Directory? then Effect(Err(NotADirectory), t)
    else
      match Child(t, dir, name)
      case Some(i) =>
        if exclusive then Effect(Err(AlreadyExists), t)
        else if t[i].kind.Directory? then Effect(Err(IsADirectory), t)
        else if !t[i].kind.RegularFile? then Effect(Err(Other), t)
        else Effect(Ok(i), t[i := t[i].(mode := mode, data := if truncate then [] else t[i].data)])
      case None => Effect(Ok(newInode), t[newInode := INode(At(dir, name), RegularFile, mode, [])])
  }

  ghost function ICreateDir(t: Tree, dir: u64, mode: u16, name: Name, newInode: u64): Effect<u64>
    requires dir in t
  {
    if !t[dir].kind.Directory? then Effect(Err(NotADirectory), t)
    else if Child(t, dir, name).Some? then Effect(Err(AlreadyExists), t)
    else Effect(Ok(newInode), t[newInode := INode(At(dir, name), Directory, mode, [])])
  }

  /** Removes the inode and everything below it. */
  ghost function IRemove(t: Tree, i: u64): Tree {
    map j | j in t && !AtOrBelow(t, i, j) :: t[j]
  }

  ghost function IPlace(t: Tree, i: u64, dir: u64, name: Name): Tree
    requires i in t
  {
    t[i := t[i].(place := At(dir, name))]
  }

  /** Moves the inode to its new place, taking the place of a file that was there. */
  ghost function IRename(t: Tree, i: u64, dir: u64, name: Name): Effect<()>
    requires i in t && dir in t
  {
    if !t[dir].kind.Directory? then Effect(Err(NotADirectory), t)
    else
      match Child(t, dir, name)
      case Some(x) =>
        if t[x].kind.Directory? then Effect(Err(AlreadyExists), t)
        else if t[x].kind.RegularFile? && !t[i].kind.RegularFile? then Effect(Err(InvalidInput), t)
        else if x == i then Effect(Ok(()), t)
        else if AtOrBelow(t, i, dir) then Effect(Err(InvalidInput), t)
        else Effect(Ok(()), IPlace(t, i, dir, name) - {x})
      case None =>
        if AtOrBelow(t, i, dir) then Effect(Err(InvalidInput), t)
        else Effect(Ok(()), IPlace(t, i, dir, name))
  }

  /** The backend interface has renaming fail whenever source and destination differ in type.
      It does so for directories and regular files in the way, but another kind of file is
      replaced by anything that does not hold it. */
  lemma OtherKindsGiveWay(t: Tree, i: u64, dir: u64, name: Name, x: u64)
    requires i in t && dir in t && t[dir].kind.Directory? && Child(t, dir, name) == Some(x)
    requires t[x].kind != t[i].kind
    ensures IRename(t, i, dir, name).result.Err?
            <==> t[x].kind.Directory? || t[x].kind.RegularFile? || AtOrBelow(t, i, dir)
    ensures IRename(t, i, dir, name).result.Err? ==> IRename(t, i, dir, name).tree == t
    ensures IRename(t, i, dir, name).result.Ok? ==> x !in IRename(t, i, dir, name).tree
  {
    hide AtOrBelow;
  }

  // ----- The tree of a disk -----

  ghost function PathOf(d: Disk, i: u64): Path
    requires HasInode(d, i)
    ensures PathOf(d, i) in d && d[PathOf(d, i)].inode == i
  {
    var p :| p in d && d[p].inode == i; p
  }

  ghost function PlaceOf(d: Disk, p: Path): Place {
    if p == [] || Parent(p) !in d then Top else At(d[Parent(p)].inode, Last(p))
  }

  ghost function EntryOf(d: Disk, p: Path): INode
    requires p in d
  {
    INode(PlaceOf(d, p), d[p].kind, d[p].mode, d[p].data)
  }

  ghost function Abs(d: Disk): Tree {
    map i: u64 | HasInode(d, i) :: EntryOf(d, PathOf(d, i))
  }

  lemma AbsAt(d: Disk, p: Path)
    requires WellFormed(d) && p in d
    ensures d[p].inode in Abs(d) && Abs(d)[d[p].inode] == EntryOf(d, p)
  {
    assert HasInode(d, d[p].inode);
  }

  lemma AbsInodes(d: Disk, i: u64)
    ensures i in Abs(d) <==> HasInode(d, i)
  {
  }

  /** A tree that lists exactly the inodes of a disk, each as the disk places it, is its tree. */
  lemma AbsIs(d: Disk, t: Tree)
    requires WellFormed(d)
    requires forall i :: i in t ==> HasInode(d, i)
    requires forall p | p in d :: d[p].inode in t && t[d[p].inode] == EntryOf(d, p)
    ensures Abs(d) == t
  {
    forall i: u64 ensures i in Abs(d) <==> i in t {
      AbsInodes(d, i);
    }
    forall i | i in t ensures Abs(d)[i] == t[i] {
      AbsInodes(d, i);
      AbsAt(d, PathOf(d, i));
    }
  }

  // ----- Entries and ancestors, by path -----

  lemma ChildPath(d: Disk, p: Path, name: Name, i: u64)
    requires WellFormed(d) && p in d
    ensures IsChild(Abs(d), d[p].inode, name, i) <==> p + [name] in d && d[p + [name]].inode == i
  {
    hide Abs, WellFormed, IsDir;
    var q := p + [name];
    AbsInodes(d, i);
    if IsChild(Abs(d), d[p].inode, name, i) {
      var r := PathOf(d, i);
      PlacedByPath(d, r);
      SamePath(d, Parent(r), p);
      assert r == Parent(r) + [Last(r)];
    }
    if q in d {
      PlacedByPath(d, q);
      assert Parent(q) == p && Last(q) == name;
    }
  }

  lemma SamePath(d: Disk, p: Path, q: Path)
    requires WellFormed(d) && p in d && q in d && d[p].inode == d[q].inode
    ensures p == q
  {
  }

  lemma ChildByPath(d: Disk, p: Path, name: Name)
    requires WellFormed(d) && p in d
    ensures Child(Abs(d), d[p].inode, name) == if p + [name] in d then Some(d[p + [name]].inode) else None
  {
    hide Abs, WellFormed, IsChild;
    forall i ensures IsChild(Abs(d), d[p].inode, name, i) <==> p + [name] in d && d[p + [name]].inode == i {
      ChildPath(d, p, name, i);
    }
    if p + [name] in d {
      assert IsChild(Abs(d), d[p].inode, name, d[p + [name]].inode);
    }
  }

  lemma PlacedByPath(d: Disk, q: Path)
    requires WellFormed(d) && q in d
    ensures d[q].inode in Abs(d)
    ensures q == [] ==> Abs(d)[d[q].inode].place.Top?
    ensures q != [] ==> Parent(q) in d && Abs(d)[d[q].inode].place == At(d[Parent(q)].inode, Last(q))
  {
    hide Abs;
    AbsAt(d, q);
  }

  lemma {:induction false} ClimbsByPath(d: Disk, p: Path, q: Path, n: nat)
    requires WellFormed(d) && p in d && q in d
    ensures Climbs(Abs(d), d[p].inode, d[q].inode, n) <==> p <= q && |q| - |p| <= n
    decreases n
  {
    assert d[p].inode == d[q].inode <==> p == q;
    hide Abs, WellFormed, Parent, IsDir;
    PlacedByPath(d, q);
    if p != q && q != [] {
      PrefixStep(p, q);
      if n > 0 {
        ClimbsByPath(d, p, Parent(q), n - 1);
      }
    }
  }

  lemma PrefixStep(p: Path, q: Path)
    requires q != [] && p != q
    ensures |Parent(q)| == |q| - 1
    ensures p <= q <==> p <= Parent(q)
  {
  }

  /** Being at or below an inode is having its path as a prefix. */
  lemma BelowByPath(d: Disk, p: Path, q: Path)
    requires WellFormed(d) && p in d && q in d
    ensures AtOrBelow(Abs(d), d[p].inode, d[q].inode) <==> p <= q
  {
    hide Abs, WellFormed, Climbs;
    if p <= q {
      ClimbsByPath(d, p, q, |q| - |p|);
    }
    if n: nat :| Climbs(Abs(d), d[p].inode, d[q].inode, n) {
      ClimbsByPath(d, p, q, n);
    }
  }

  // ----- The tree says everything about the disk -----

  lemma {:induction false} SameNodeAt(d: Disk, e: Disk, p: Path)
    requires WellFormed(d) && WellFormed(e) && Abs(d) == Abs(e) && p in d
    ensures p in e && e[p] == d[p]
    decreases |p|
  {
    var i := d[p].inode;
    AbsAt(d, p);
    AbsInodes(e, i);
    var r := PathOf(e, i);
    AbsAt(e, r);
    hide Abs;
    if p == [] {
      assert r == [];
    } else {
      SameNodeAt(d, e, Parent(p));
      assert Parent(r) == Parent(p) && Last(r) == Last(p);
      assert r == Parent(r) + [Last(r)] && p == Parent(p) + [Last(p)];
    }
  }

  /** Disks with the same tree of inodes have the same paths: a tree left alone leaves every path alone. */
  lemma TreeDeterminesPaths(d: Disk, e: Disk)
    requires WellFormed(d) && WellFormed(e) && Abs(d) == Abs(e)
    ensures d == e
  {
    hide Abs, WellFormed;
    forall p | p in d ensures p in e && e[p] == d[p] {
      SameNodeAt(d, e, p);
    }
    forall p | p in e ensures p in d {
      SameNodeAt(e, d, p);
    }
  }

  /** For instance a directory `a` renamed onto a pipe `p` beside it, which is then gone. */
  lemma DirectoryOntoPipe()
    ensures var d: Disk := map[[] := Node(1, Directory, 0, []), [[0x61]] := Node(2, Directory, 0, []),
                               [[0x70]] := Node(3, Pipe, 0, [])];
            && WellFormed(d) && 1 in Abs(d) && 2 in Abs(d)
            && IRename(Abs(d), 2, 1, [0x70]).result == Ok(()) && 3 !in IRename(Abs(d), 2, 1, [0x70]).tree
  {
    var a: Path, p: Path := [[0x61]], [[0x70]];
    var d: Disk := map[[] := Node(1, Directory, 0, []), a := Node(2, Directory, 0, []), p := Node(3, Pipe, 0, [])];
    assert a[0] != p[0];
    hide WellFormed, Abs, IRename;
    TwoEntries(d, a, p);
    OntoTheOther(d, a, p);
  }

  lemma TwoEntries(d: Disk, a: Path, p: Path)
    requires |a| == 1 && |p| == 1 && d.Keys == {[], a, p} && d[[]].kind.Directory?
    requires d[[]].inode == 1 && d[a].inode == 2 && d[p].inode == 3
    ensures WellFormed(d)
  {
    assert Parent(a) == [] && Parent(p) == [];
  }

  lemma OntoTheOther(d: Disk, a: Path, p: Path)
    requires WellFormed(d) && |a| == 1 && |p| == 1 && a != p && [] in d && a in d && p in d
    requires d[[]].kind.Directory? && d[a].kind.Directory? && d[p].kind.Pipe?
    ensures d[[]].inode in Abs(d) && d[a].inode in Abs(d)
    ensures IRename(Abs(d), d[a].inode, d[[]].inode, p[0]).result == Ok(())
    ensures d[p].inode !in IRename(Abs(d), d[a].inode, d[[]].inode, p[0]).tree
  {
    hide WellFormed, Abs, AtOrBelow, Child, IsDir, IRename;
    assert [] + [p[0]] == p;
    AbsAt(d, []);
    AbsAt(d, a);
    AbsAt(d, p);
    ChildByPath(d, [], p[0]);
    BelowByPath(d, a, []);
    OtherKindsGiveWay(Abs(d), d[a].inode, d[[]].inode, p[0], d[p].inode);
    OnlyUnit(IRename(Abs(d), d[a].inode, d[[]].inode, p[0]).result);
  }

  lemma OnlyUnit(r: Result<()>)
    requires r.Ok?
    ensures r == Ok(())
  {
    assert r.value == ();
  }
}
