/** What each system call on paths does to the tree of inodes. */
module DiskRefinement {
  import opened Bytes
  import opened FileTypes
  import opened Disk
  import opened InodeTree

  /** A node written below a directory: a new entry with a new inode, or an old entry kept in place. */
  lemma PutNode(d: Disk, p: Path, node: Node)
    requires WellFormed(d) && p != [] && IsDir(d, Parent(p))
    requires if p in d then node.inode == d[p].inode && node.kind == d[p].kind else !HasInode(d, node.inode)
    ensures WellFormed(d[p := node])
    ensures Abs(d[p := node])
            == Abs(d)[node.inode := INode(At(d[Parent(p)].inode, Last(p)), node.kind, node.mode, node.data)]
  {
    var e := d[p := node];
    PutWellFormed(d, p, node);
    PutEntries(d, p, node);
    hide Abs, WellFormed, EntryOf, PlaceOf, IsDir;
    var t := Abs(d)[node.inode := INode(At(d[Parent(p)].inode, Last(p)), node.kind, node.mode, node.data)];
    forall i | i in t ensures HasInode(e, i) {
      if i == node.inode {
        assert e[p].inode == i;
      } else {
        AbsInodes(d, i);
        var q := PathOf(d, i);
        assert e[q].inode == i;
      }
    }
    forall q | q in e ensures e[q].inode in t && t[e[q].inode] == EntryOf(e, q) {
      if q != p {
        AbsAt(d, q);
        assert d[q].inode != node.inode;
      }
    }
    AbsIs(e, t);
  }

  lemma PutWellFormed(d: Disk, p: Path, node: Node)
    requires WellFormed(d) && p != [] && IsDir(d, Parent(p))
    requires if p in d then node.inode == d[p].inode && node.kind == d[p].kind else !HasInode(d, node.inode)
    ensures WellFormed(d[p := node])
  {
    forall q | q in d ensures d[q].inode == node.inode ==> HasInode(d, node.inode) {
    }
  }

  lemma PutEntries(d: Disk, p: Path, node: Node)
    requires WellFormed(d) && p != [] && IsDir(d, Parent(p))
    requires p in d ==> node.inode == d[p].inode && node.kind == d[p].kind
    ensures EntryOf(d[p := node], p) == INode(At(d[Parent(p)].inode, Last(p)), node.kind, node.mode, node.data)
    ensures forall q | q in d && q != p :: EntryOf(d[p := node], q) == EntryOf(d, q)
  {
    var e := d[p := node];
    assert Parent(p) != p;
    forall q | q in d && q != p ensures EntryOf(e, q) == EntryOf(d, q) {
      if q != [] {
        assert Parent(q) in d;
      }
    }
  }

  /** Removing a path and all below it removes the inode and all below it. */
  lemma RemoveTreeByInode(d: Disk, p: Path)
    requires WellFormed(d) && p in d
    ensures WellFormed(RemoveTree(d, p))
    ensures Abs(RemoveTree(d, p)) == IRemove(Abs(d), d[p].inode)
  {
    var e := RemoveTree(d, p);
    forall q | q in e && q != [] ensures IsDir(e, Parent(q)) {
      assert IsDir(d, Parent(q));
    }
    forall q | q in e ensures EntryOf(e, q) == EntryOf(d, q) {
      if q != [] {
        assert IsDir(e, Parent(q));
      }
    }
    assert WellFormed(e);
    RemoveTreeEntries(d, p, e);
  }

  lemma RemoveTreeEntries(d: Disk, p: Path, e: Disk)
    requires WellFormed(d) && p in d && WellFormed(e) && e == RemoveTree(d, p)
    requires forall q | q in e :: EntryOf(e, q) == EntryOf(d, q)
    ensures Abs(e) == IRemove(Abs(d), d[p].inode)
  {
    hide Abs, WellFormed, EntryOf, AtOrBelow;
    var t := IRemove(Abs(d), d[p].inode);
    forall i | i in t ensures HasInode(e, i) {
      AbsInodes(d, i);
      var q := PathOf(d, i);
      BelowByPath(d, p, q);
      assert e[q].inode == i;
    }
    forall q | q in e ensures e[q].inode in t && t[e[q].inode] == EntryOf(e, q) {
      AbsAt(d, q);
      BelowByPath(d, p, q);
    }
    AbsIs(e, t);
  }

  /** What is not a directory has nothing below it. */
  lemma RemoveFileByInode(d: Disk, p: Path)
    requires WellFormed(d) && p in d && !d[p].kind.Directory?
    ensures RemoveFile(d, p) == RemoveTree(d, p)
    ensures IRemove(Abs(d), d[p].inode) == Abs(d) - {d[p].inode}
  {
    hide Abs, AtOrBelow, WellFormed, IRemove, RemoveTree, RemoveFile;
    NothingBelowFile(d, p);
    forall j | j in Abs(d) ensures AtOrBelow(Abs(d), d[p].inode, j) <==> j == d[p].inode {
      OnlyItself(d, p, j);
    }
    RemoveOne(Abs(d), d[p].inode);
  }

  lemma NothingBelowFile(d: Disk, p: Path)
    requires WellFormed(d) && p in d && !d[p].kind.Directory?
    ensures RemoveFile(d, p) == RemoveTree(d, p)
    ensures forall q | q in d && p <= q :: q == p
  {
    hide WellFormed;
    forall q | q in d && p <= q ensures p == q {
      PrefixPresent(d, p, q);
    }
  }

  lemma OnlyItself(d: Disk, p: Path, j: u64)
    requires WellFormed(d) && p in d && j in Abs(d)
    requires forall q | q in d && p <= q :: q == p
    ensures AtOrBelow(Abs(d), d[p].inode, j) <==> j == d[p].inode
  {
    hide Abs, AtOrBelow, WellFormed;
    AbsInodes(d, j);
    var q := PathOf(d, j);
    BelowByPath(d, p, q);
    if j == d[p].inode {
      SamePath(d, p, q);
    }
  }

  lemma RemoveOne(t: Tree, i: u64)
    requires forall j | j in t :: AtOrBelow(t, i, j) <==> j == i
    ensures IRemove(t, i) == t - {i}
  {
    hide AtOrBelow;
  }

  /** Moving a path and all below it to a free place gives the inode its new place. */
  lemma MoveTreeByInode(d: Disk, from: Path, to: Path)
    requires WellFormed(d) && from in d && to !in d && !(from <= to)
    requires to != [] && IsDir(d, Parent(to))
    ensures WellFormed(MoveTree(d, from, to))
    ensures Abs(MoveTree(d, from, to)) == IPlace(Abs(d), d[from].inode, d[Parent(to)].inode, Last(to))
  {
    var e := MoveTree(d, from, to);
    MovedPaths(d, from, to);
    MovedWellFormed(d, from, to);
    AbsAt(d, from);
    hide Abs, WellFormed, EntryOf, MoveTree, Rebase;
    var t := IPlace(Abs(d), d[from].inode, d[Parent(to)].inode, Last(to));
    forall i | i in t ensures HasInode(e, i) {
      AbsInodes(d, i);
      var q := PathOf(d, i);
      if from <= q {
        assert e[Rebase(from, to, q)].inode == i;
      } else {
        assert e[q].inode == i;
      }
    }
    forall r | r in e ensures e[r].inode in t && t[e[r].inode] == EntryOf(e, r) {
      MovedEntry(d, from, to, r);
    }
    AbsIs(e, t);
  }

  lemma MovedParent(d: Disk, from: Path, to: Path, q: Path)
    requires WellFormed(d) && to !in d && q in d && from <= q && q != from
    ensures Rebase(from, to, q) != []
    ensures Parent(Rebase(from, to, q)) == Rebase(from, to, Parent(q))
    ensures Last(Rebase(from, to, q)) == Last(q)
    ensures from <= Parent(q) && IsDir(d, Parent(q))
  {
  }

  lemma MovedWellFormed(d: Disk, from: Path, to: Path)
    requires WellFormed(d) && from in d && to !in d && !(from <= to)
    requires to != [] && IsDir(d, Parent(to))
    ensures WellFormed(MoveTree(d, from, to))
  {
    var e := MoveTree(d, from, to);
    MovedPaths(d, from, to);
    hide MoveTree, Rebase;
    forall r | r in e && r != [] ensures IsDir(e, Parent(r)) {
      MovedDirectory(d, from, to, r);
    }
    forall r, s | r in e && s in e && e[r].inode == e[s].inode ensures r == s {
      MovedUnique(d, from, to, r, s);
    }
  }

  lemma MovedDirectory(d: Disk, from: Path, to: Path, r: Path)
    requires WellFormed(d) && from in d && to !in d && !(from <= to)
    requires to != [] && IsDir(d, Parent(to))
    requires r in MoveTree(d, from, to) && r != []
    ensures IsDir(MoveTree(d, from, to), Parent(r))
  {
    MovedFrom(d, from, to, r);
    hide MoveTree, WellFormed, IsDir, Renamed;
    var q :| q in d && r == Renamed(from, to, q) && MoveTree(d, from, to)[r] == d[q];
    RenamedParent(d, from, to, q);
  }

  lemma RenamedParent(d: Disk, from: Path, to: Path, q: Path)
    requires WellFormed(d) && from in d && to !in d && !(from <= to)
    requires to != [] && IsDir(d, Parent(to)) && q in d
    ensures Renamed(from, to, q) != [] ==> IsDir(MoveTree(d, from, to), Parent(Renamed(from, to, q)))
  {
    MovedPaths(d, from, to);
    hide MoveTree;
    if !(from <= q) {
      hide Rebase;
      assert q != [] ==> IsDir(d, Parent(q)) && !(from <= Parent(q));
    } else if q == from {
      RebaseSelf(from, to);
      hide Rebase;
      assert !(from <= Parent(to));
    } else {
      hide Rebase;
      MovedParent(d, from, to, q);
    }
  }

  lemma RebaseSelf(from: Path, to: Path)
    ensures Rebase(from, to, from) == to
  {
  }

  lemma MovedUnique(d: Disk, from: Path, to: Path, r: Path, s: Path)
    requires WellFormed(d) && to !in d
    requires r in MoveTree(d, from, to) && s in MoveTree(d, from, to)
    requires MoveTree(d, from, to)[r].inode == MoveTree(d, from, to)[s].inode
    ensures r == s
  {
    MovedFrom(d, from, to, r);
    MovedFrom(d, from, to, s);
  }

  /** Every path of the new disk is the new name of one of the old. */
  lemma MovedFrom(d: Disk, from: Path, to: Path, r: Path)
    requires WellFormed(d) && to !in d && r in MoveTree(d, from, to)
    ensures exists q :: q in d && r == Renamed(from, to, q) && MoveTree(d, from, to)[r] == d[q]
  {
    MovedPaths(d, from, to);
    hide MoveTree;
    if r in d && !(from <= r) {
      assert r == Renamed(from, to, r);
    } else {
      RebaseBack(to, from, r);
      var q := Rebase(to, from, r);
      assert r == Renamed(from, to, q);
    }
  }

  function Renamed(from: Path, to: Path, q: Path): Path {
    if from <= q then Rebase(from, to, q) else q
  }

  /** Where an entry of the new disk stands: the moved one in its new directory, any other where it stood. */
  lemma MovedEntry(d: Disk, from: Path, to: Path, r: Path)
    requires WellFormed(d) && from in d && to !in d && !(from <= to)
    requires to != [] && IsDir(d, Parent(to))
    requires r in MoveTree(d, from, to)
    ensures var e := MoveTree(d, from, to);
            var t := IPlace(Abs(d), d[from].inode, d[Parent(to)].inode, Last(to));
            e[r].inode in t && t[e[r].inode] == EntryOf(e, r)
  {
    MovedFrom(d, from, to, r);
    hide MoveTree, Abs, Renamed, IsDir, WellFormed, EntryOf, IPlace;
    var q :| q in d && r == Renamed(from, to, q) && MoveTree(d, from, to)[r] == d[q];
    RenamedEntry(d, from, to, q, r);
  }

  lemma RenamedEntry(d: Disk, from: Path, to: Path, q: Path, r: Path)
    requires WellFormed(d) && from in d && to !in d && !(from <= to)
    requires to != [] && IsDir(d, Parent(to)) && q in d && r == Renamed(from, to, q)
    requires r in MoveTree(d, from, to) && MoveTree(d, from, to)[r] == d[q]
    ensures var t := IPlace(Abs(d), d[from].inode, d[Parent(to)].inode, Last(to));
            d[q].inode in t && t[d[q].inode] == EntryOf(MoveTree(d, from, to), r)
  {
    assert d[q].inode == d[from].inode ==> q == from;
    hide MoveTree, Abs, Renamed, PlaceOf, IsDir, WellFormed;
    AbsAt(d, q);
    AbsAt(d, from);
    MovedPlace(d, from, to, q);
  }

  lemma MovedPlace(d: Disk, from: Path, to: Path, q: Path)
    requires WellFormed(d) && from in d && to !in d && !(from <= to)
    requires to != [] && IsDir(d, Parent(to)) && q in d
    ensures PlaceOf(MoveTree(d, from, to), Renamed(from, to, q))
            == if q == from then At(d[Parent(to)].inode, Last(to)) else PlaceOf(d, q)
  {
    var e := MoveTree(d, from, to);
    MovedPaths(d, from, to);
    hide MoveTree;
    if !(from <= q) {
      hide Rebase;
      if q != [] {
        assert IsDir(d, Parent(q)) && !(from <= Parent(q));
      }
    } else if q == from {
      RebaseSelf(from, to);
      hide Rebase;
      assert !(from <= Parent(to));
    } else {
      hide Rebase;
      MovedParent(d, from, to, q);
    }
  }

  // ----- The calls the backend makes, as operations on inodes -----

  lemma StatByInode(d: Disk, dir: Path, name: Name)
    requires WellFormed(d) && dir in d
    ensures d[dir].inode in Abs(d)
    ensures ILookup(Abs(d), d[dir].inode, name)
            == match Stat(d, dir + [name]) { case Ok(node) => Ok(node.inode) case Err(kind) => Err(kind) }
  {
    hide Abs, Child;
    var p := dir + [name];
    assert Parent(p) == dir;
    AbsAt(d, dir);
    ChildByPath(d, dir, name);
  }

  /** Opening with O_CREAT and then setting permissions. */
  lemma OpenByInode(d: Disk, dir: Path, name: Name, mode: u16, exclusive: bool, truncate: bool, newInode: u64)
    requires WellFormed(d) && dir in d && !HasInode(d, newInode)
    ensures d[dir].inode in Abs(d)
    ensures var p := dir + [name];
            var spec := ICreateFile(Abs(d), d[dir].inode, mode, exclusive, truncate, name, newInode);
            match OpenCreate(d, p, exclusive, truncate, newInode)
            case Err(kind) => spec == Effect(Err(kind), Abs(d))
            case Ok(created) =>
              && p in created
              && WellFormed(SetPermissions(created, p, mode))
              && spec == Effect(Ok(created[p].inode), Abs(SetPermissions(created, p, mode)))
  {
    var p := dir + [name];
    assert Parent(p) == dir && Last(p) == name;
    AbsAt(d, dir);
    ChildByPath(d, dir, name);
    if OpenCreate(d, p, exclusive, truncate, newInode).Ok? {
      OpenedNode(d, p, mode, exclusive, truncate, newInode);
      PutNode(d, p, NodeAfterOpen(d, p, mode, truncate, newInode));
      if p in d {
        AbsAt(d, p);
      }
    }
    hide Abs, Child, WellFormed, SetPermissions;
  }

  /** What opening and setting permissions leaves at a path. */
  function NodeAfterOpen(d: Disk, p: Path, mode: u16, truncate: bool, newInode: u64): Node {
    if p in d then Node(d[p].inode, d[p].kind, mode, if truncate then [] else d[p].data)
    else Node(newInode, RegularFile, mode, [])
  }

  lemma OpenedNode(d: Disk, p: Path, mode: u16, exclusive: bool, truncate: bool, newInode: u64)
    requires p != [] && OpenCreate(d, p, exclusive, truncate, newInode).Ok?
    requires WellFormed(d)
    ensures IsDir(d, Parent(p))
    ensures p in OpenCreate(d, p, exclusive, truncate, newInode).value
    ensures SetPermissions(OpenCreate(d, p, exclusive, truncate, newInode).value, p, mode)
            == d[p := NodeAfterOpen(d, p, mode, truncate, newInode)]
  {
    assert p in d ==> IsDir(d, Parent(p));
    hide WellFormed;
  }

  lemma MakeDirByInode(d: Disk, dir: Path, name: Name, mode: u16, newInode: u64)
    requires WellFormed(d) && dir in d && !HasInode(d, newInode)
    ensures d[dir].inode in Abs(d)
    ensures var p := dir + [name];
            var spec := ICreateDir(Abs(d), d[dir].inode, mode, name, newInode);
            match MakeDir(d, p, newInode)
            case Err(kind) => spec == Effect(Err(kind), Abs(d))
            case Ok(made) =>
              && p in made
              && WellFormed(SetPermissions(made, p, mode))
              && spec == Effect(Ok(made[p].inode), Abs(SetPermissions(made, p, mode)))
  {
    var p := dir + [name];
    assert Parent(p) == dir && Last(p) == name;
    AbsAt(d, dir);
    ChildByPath(d, dir, name);
    var r := MakeDir(d, p, newInode);
    if r.Ok? {
      var node := Node(newInode, Directory, mode, []);
      PutNode(d, p, node);
      assert SetPermissions(r.value, p, mode) == d[p := node];
    }
    hide Abs, Child, WellFormed, SetPermissions;
  }

  lemma MadeNode(d: Disk, p: Path, mode: u16, newInode: u64)
    requires p != [] && MakeDir(d, p, newInode).Ok?
    requires WellFormed(d)
    ensures IsDir(d, Parent(p)) && p !in d
    ensures p in MakeDir(d, p, newInode).value
    ensures SetPermissions(MakeDir(d, p, newInode).value, p, mode) == d[p := Node(newInode, Directory, mode, [])]
  {
  }

  // ----- Renaming -----

  /** Renaming to a place that is free. */
  lemma RenameToFree(d: Disk, from: Path, dir: Path, name: Name)
    requires WellFormed(d) && from in d && dir in d && dir + [name] !in d
    ensures d[from].inode in Abs(d) && d[dir].inode in Abs(d)
    ensures IRename(Abs(d), d[from].inode, d[dir].inode, name)
            == match RenamePath(d, from, dir + [name]) {
                 case Err(kind) => Effect(Err(kind), Abs(d))
                 case Ok(moved) => Effect(Ok(()), Abs(moved))
               }
  {
    var to := dir + [name];
    assert Parent(to) == dir && Last(to) == name;
    AbsAt(d, from);
    AbsAt(d, dir);
    ChildByPath(d, dir, name);
    BelowByPath(d, from, dir);
    PrefixStep(from, to);
    if IsDir(d, dir) && !(from <= to) {
      MoveTreeByInode(d, from, to);
    }
    hide Abs, Child, WellFormed, AtOrBelow, MoveTree, IPlace;
  }

  /** What removing a file leaves. */
  lemma ClearedPlace(d: Disk, from: Path, to: Path)
    requires WellFormed(d) && from in d && from != to && to != []
    requires to in d && !d[to].kind.Directory?
    ensures var cleared := RemoveTree(d, to);
            && to !in cleared && from in cleared && cleared[from] == d[from]
            && WellFormed(cleared) && Abs(cleared) == Abs(d) - {d[to].inode}
            && d[from].inode != d[to].inode
  {
    RemoveFileByInode(d, to);
    RemoveTreeByInode(d, to);
    hide Abs, IRemove;
  }

  /** Removing the file at the new place first, and then renaming. */
  lemma RenameOverFile(d: Disk, from: Path, dir: Path, name: Name)
    requires WellFormed(d) && from in d && dir in d && from != dir + [name]
    requires dir + [name] in d && !d[dir + [name]].kind.Directory?
    requires d[dir + [name]].kind.RegularFile? ==> d[from].kind.RegularFile?
    ensures d[from].inode in Abs(d) && d[dir].inode in Abs(d)
    ensures var to := dir + [name];
            to !in RemoveTree(d, to)
            && match RenamePath(RemoveTree(d, to), from, to)
               case Err(kind) =>
                 kind.InvalidInput? && AtOrBelow(Abs(d), d[from].inode, d[dir].inode)
               case Ok(moved) =>
                 && !AtOrBelow(Abs(d), d[from].inode, d[dir].inode)
                 && IRename(Abs(d), d[from].inode, d[dir].inode, name) == Effect(Ok(()), Abs(moved))
  {
    var to := dir + [name];
    var cleared := RemoveTree(d, to);
    var i, x := d[from].inode, d[to].inode;
    assert Parent(to) == dir && Last(to) == name;
    assert IsDir(d, dir);
    AbsAt(d, to);
    ClearedPlace(d, from, to);
    ClearedPlace(d, dir, to);
    PrefixStep(from, to);
    if !(from <= to) {
      MoveTreeByInode(cleared, from, to);
      PlaceThenDrop(Abs(d), i, d[dir].inode, name, x);
    }
    RenameOverFileSpec(d, from, dir, name);
    hide Abs, WellFormed, AtOrBelow, MoveTree, RemoveTree, IPlace, IRename;
  }

  lemma PlaceThenDrop(t: Tree, i: u64, dir: u64, name: Name, x: u64)
    requires i in t && i != x
    ensures IPlace(t - {x}, i, dir, name) == IPlace(t, i, dir, name) - {x}
  {
  }

  lemma RenameOverFileSpec(d: Disk, from: Path, dir: Path, name: Name)
    requires WellFormed(d) && from in d && dir in d && from != dir + [name] && IsDir(d, dir)
    requires dir + [name] in d && !d[dir + [name]].kind.Directory?
    requires d[dir + [name]].kind.RegularFile? ==> d[from].kind.RegularFile?
    ensures d[from].inode in Abs(d) && d[dir].inode in Abs(d)
    ensures AtOrBelow(Abs(d), d[from].inode, d[dir].inode) <==> from <= dir
    ensures !(from <= dir) ==>
              IRename(Abs(d), d[from].inode, d[dir].inode, name)
              == Effect(Ok(()), IPlace(Abs(d), d[from].inode, d[dir].inode, name) - {d[dir + [name]].inode})
  {
    AbsAt(d, from);
    AbsAt(d, dir);
    AbsAt(d, dir + [name]);
    assert d[from].inode != d[dir + [name]].inode;
    ChildByPath(d, dir, name);
    BelowByPath(d, from, dir);
    hide Abs, Child, WellFormed, AtOrBelow, IPlace;
  }
}
