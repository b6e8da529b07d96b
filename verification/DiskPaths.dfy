/** The same operations on paths alone, flag by flag and error by error: what the inode-level
    outcomes come to on the disk. */
module DiskPaths {
  import opened Bytes
  import opened FileTypes
  import opened Conversions
  import opened Disk
  import opened InodeTree
  import opened DiskRefinement
  import opened DiskFs

  // ----- Paths that do not resolve -----

  /** The error is decided by the longest prefix that resolves: a directory lacks the next
      component, anything else can have none. */
  lemma {:induction false} UnresolvedIs(d: Disk, p: Path, n: nat)
    requires WellFormed(d) && n < |p| && p[..n] in d && p[..n + 1] !in d
    ensures p !in d
    ensures Unresolved(d, p) == if d[p[..n]].kind.Directory? then NotFoundKind else NotADirectory
    decreases |p|
  {
    if p in d {
      PrefixPresent(d, p[..n + 1], p);
    }
    if n == |p| - 1 {
      assert Parent(p) == p[..n];
    } else {
      assert Parent(p)[..n] == p[..n] && Parent(p)[..n + 1] == p[..n + 1];
      UnresolvedIs(d, Parent(p), n);
    }
  }

  /** With the root there, every path has such a prefix or resolves. */
  lemma {:induction false} LongestPrefix(d: Disk, p: Path)
    requires [] in d && p !in d
    ensures exists n: nat :: n < |p| && p[..n] in d && p[..n + 1] !in d
    decreases |p|
  {
    if Parent(p) in d {
      var n: nat := |p| - 1;
      assert p[..n] == Parent(p) && p[..n + 1] == p;
    } else {
      LongestPrefix(d, Parent(p));
      var n: nat :| n < |Parent(p)| && Parent(p)[..n] in d && Parent(p)[..n + 1] !in d;
      assert p[..n] == Parent(p)[..n] && p[..n + 1] == Parent(p)[..n + 1];
    }
  }

  // ----- Looking up -----

  /** Looking up finds what stands at the path, registering it there if it was not registered
      before, or says why nothing does. */
  lemma FoundPath(m0: InodeMap, d: Disk, dir: u64, name: Name, r: Result<u64>, m: InodeMap)
    requires WellFormed(d) && dir in m0 && LookupOutcome(m0, d, dir, name, r, m)
    ensures var p := m0[dir] + [name];
            && r == (if p in d then Ok(d[p].inode) else Err(Unresolved(d, p)))
            && m == if p !in d || d[p].inode in m0 then m0 else m0[d[p].inode := p]
  {
    hide Abs, ILookup;
    var p := m0[dir] + [name];
    if m0[dir] in d {
      StatByInode(d, m0[dir], name);
    } else {
      assert Parent(p) == m0[dir];
    }
  }

  // ----- Creating -----

  lemma FlagBits(flags: u32)
    ensures HasFlag(flags, O_EXCL) <==> (flags as bv32) & (1 << 7) != 0
    ensures HasFlag(flags, O_TRUNC) <==> (flags as bv32) & (1 << 9) != 0
  {
  }

  /** Creating a file, bit by bit: bit 7 of the flags refuses what is there, bit 9 empties it,
      with neither its contents stay, and either way it gets the permissions. */
  lemma CreatedFile(m0: InodeMap, d0: Disk, used0: set<u64>, dir: u64, mode: u16, flags: u32, name: Name, n: u64,
                    r: Result<u64>, m: InodeMap, d: Disk, used: set<u64>)
    requires Tracked(m0, d0, used0) && Tracked(m, d, used) && n !in used0 && dir in m0 && IsDir(d0, m0[dir])
    requires CreateOutcome(m0, d0, used0, dir, name, FileSpec(m0, d0, dir, mode, flags, name, n), r, m, d, used)
    ensures var p := m0[dir] + [name];
            if p !in d0 then r == Ok(n) && d == d0[p := Node(n, RegularFile, mode, [])]
            else if (flags as bv32) & (1 << 7) != 0 then r == Err(AlreadyExists) && d == d0
            else if d0[p].kind.Directory? then r == Err(IsADirectory) && d == d0
            else if !d0[p].kind.RegularFile? then r == Err(Other) && d == d0
            else
              && r == Ok(d0[p].inode)
              && d == d0[p := Node(d0[p].inode, RegularFile, mode,
                                   if (flags as bv32) & (1 << 9) != 0 then [] else d0[p].data)]
    ensures m == if r.Err? || r.value in m0 then m0 else m0[r.value := m0[dir] + [name]]
    ensures r.Ok? ==> HasInode(d, r.value)
  {
    hide Abs, ICreateFile, HasFlag, WellFormed;
    FlagBits(flags);
    var p := m0[dir] + [name];
    assert Parent(p) == m0[dir];
    var exclusive, truncate := HasFlag(flags, O_EXCL), HasFlag(flags, O_TRUNC);
    OpenByInode(d0, m0[dir], name, mode, exclusive, truncate, n);
    var file := OpenCreate(d0, p, exclusive, truncate, n);
    if file.Ok? {
      TreeDeterminesPaths(d, SetPermissions(file.value, p, mode));
    }
  }

  /** Making a directory, on paths. */
  lemma MadeDirectory(m0: InodeMap, d0: Disk, used0: set<u64>, dir: u64, mode: u16, name: Name, n: u64,
                      r: Result<u64>, m: InodeMap, d: Disk, used: set<u64>)
    requires Tracked(m0, d0, used0) && Tracked(m, d, used) && n !in used0 && dir in m0 && IsDir(d0, m0[dir])
    requires CreateOutcome(m0, d0, used0, dir, name, DirSpec(m0, d0, dir, mode, name, n), r, m, d, used)
    ensures var p := m0[dir] + [name];
            if p in d0 then r == Err(AlreadyExists) && d == d0
            else r == Ok(n) && d == d0[p := Node(n, Directory, mode, [])]
    ensures m == if r.Err? || r.value in m0 then m0 else m0[r.value := m0[dir] + [name]]
    ensures r.Ok? ==> HasInode(d, r.value)
  {
    hide Abs, ICreateDir, WellFormed;
    var p := m0[dir] + [name];
    assert Parent(p) == m0[dir];
    MakeDirByInode(d0, m0[dir], name, mode, n);
    var made := MakeDir(d0, p, n);
    if made.Ok? {
      TreeDeterminesPaths(d, SetPermissions(made.value, p, mode));
    }
  }

  /** Nothing is created in what is not a directory, or not there. */
  lemma NotCreated(m0: InodeMap, d0: Disk, used0: set<u64>, dir: u64, mode: u16, flags: u32, name: Name, n: u64,
                   spec: Effect<u64>, r: Result<u64>, m: InodeMap, d: Disk, used: set<u64>)
    requires Tracked(m0, d0, used0) && dir in m0 && !IsDir(d0, m0[dir])
    requires || spec == FileSpec(m0, d0, dir, mode, flags, name, n)
             || spec == DirSpec(m0, d0, dir, mode, name, n)
    requires CreateOutcome(m0, d0, used0, dir, name, spec, r, m, d, used)
    ensures r == Err(Unresolved(d0, m0[dir] + [name])) && d == d0 && m == m0
  {
    hide Abs, HasFlag, WellFormed;
    assert Parent(m0[dir] + [name]) == m0[dir];
    if m0[dir] in d0 {
      AbsAt(d0, m0[dir]);
    }
  }

  // ----- Removing -----

  /** Removing takes away the paths at and below that of the inode, and nothing else. */
  lemma RemovedPaths(m0: InodeMap, d0: Disk, i: u64, r: Result<()>, m: InodeMap, d: Disk)
    requires i in m0 && RemoveOutcome(m0, d0, i, r, m, d)
    ensures m0[i] in d0 ==>
              && r.Ok? && m == m0 - {i}
              && forall q :: (q in d <==> q in d0 && !(m0[i] <= q)) && (q in d ==> d[q] == d0[q])
    ensures m0[i] !in d0 ==> r == Err(Unresolved(d0, m0[i])) && d == d0 && m == m0
  {
    hide Abs, IRemove, Unresolved;
  }

  // ----- Renaming -----

  /** Renaming, on paths. A directory in the way, or a regular file in the way of something
      else, refuses it; a file is not moved onto itself nor a directory below itself, although
      a file at the destination has gone by then; otherwise the tree moves, in place of a file
      that was there. */
  lemma RenamedPaths(m0: InodeMap, d0: Disk, i: u64, dir: u64, name: Name, r: Result<()>, m: InodeMap, d: Disk)
    requires WellFormed(d0) && Agrees(m0, d0) && WellFormed(d)
    requires i in m0 && m0[i] in d0 && dir in m0 && IsDir(d0, m0[dir])
    requires RenameOutcome(m0, d0, i, dir, name, r, m, d)
    ensures var from, to := m0[i], m0[dir] + [name];
            if to in d0 && d0[to].kind.Directory? then r == Err(AlreadyExists) && d == d0
            else if to in d0 && d0[to].kind.RegularFile? && !d0[from].kind.RegularFile? then
              r == Err(InvalidInput) && d == d0
            else if to in d0 && from == to then r == Err(NotFoundKind) && d == d0 - {to}
            else if from <= to then r == Err(InvalidInput) && d == d0 - {to}
            else r == Ok(()) && d == MoveTree(d0 - {to}, from, to)
    ensures var to := m0[dir] + [name];
            var gone := if to in d0 then {d0[to].inode} else {};
            if r.Ok? then m == (m0 - gone)[i := to] else m - gone == m0 - gone
  {
    RenamedIndex(m0, d0, i, dir, name, r, m, d);
    hide RenameOutcome, RenameResult, WellFormed, Abs, MoveTree, NothingRegisteredBelow, AtOrBelow, IRename, Destructive;
    hide Agrees, Child;
    var to := m0[dir] + [name];
    if to !in d0 {
      assert d0 - {to} == d0;
      RenamedToFree(m0, d0, i, dir, name, r, m, d);
    } else if d0[to].kind.Directory? || (d0[to].kind.RegularFile? && !d0[m0[i]].kind.RegularFile?) {
      RenameRefused(m0, d0, i, dir, name, r, m, d);
    } else {
      RenamedOver(m0, d0, i, dir, name, r, m, d);
    }
  }

  /** What the outcome says once both inodes lead somewhere. */
  lemma RenameEffect(m0: InodeMap, d0: Disk, i: u64, dir: u64, name: Name, r: Result<()>, m: InodeMap, d: Disk)
    requires i in m0 && m0[i] in d0 && dir in m0 && m0[dir] in d0
    requires RenameOutcome(m0, d0, i, dir, name, r, m, d)
    ensures var t, a, b := Abs(d0), d0[m0[i]].inode, d0[m0[dir]].inode;
            && a in t && b in t
            && Effect(r, Abs(d)) == (if !Destructive(t, a, b, name) then IRename(t, a, b, name)
                                     else Effect(Err(if a in Occupant(t, b, name) then NotFoundKind else InvalidInput),
                                                 t - Occupant(t, b, name)))
  {
    hide Abs, NothingRegisteredBelow, IRename, Destructive, Occupant, Agrees;
  }

  lemma RenamedIndex(m0: InodeMap, d0: Disk, i: u64, dir: u64, name: Name, r: Result<()>, m: InodeMap, d: Disk)
    requires WellFormed(d0) && dir in m0 && m0[dir] in d0
    requires RenameOutcome(m0, d0, i, dir, name, r, m, d)
    ensures var to := m0[dir] + [name];
            var gone := if to in d0 then {d0[to].inode} else {};
            if r.Ok? then m == (m0 - gone)[i := to] else m - gone == m0 - gone
  {
    hide Abs, WellFormed, Child, RenameResult, Source, Agrees;
    ChildByPath(d0, m0[dir], name);
  }

  lemma RenamedToFree(m0: InodeMap, d0: Disk, i: u64, dir: u64, name: Name, r: Result<()>, m: InodeMap, d: Disk)
    requires WellFormed(d0) && WellFormed(d)
    requires i in m0 && m0[i] in d0 && dir in m0 && IsDir(d0, m0[dir]) && m0[dir] + [name] !in d0
    requires RenameOutcome(m0, d0, i, dir, name, r, m, d)
    ensures var from, to := m0[i], m0[dir] + [name];
            if from <= to then r == Err(InvalidInput) && d == d0
            else r == Ok(()) && d == MoveTree(d0, from, to)
  {
    hide RenameOutcome, WellFormed, Abs, MoveTree, AtOrBelow, IRename, Agrees, Child;
    var from, to := m0[i], m0[dir] + [name];
    assert Parent(to) == m0[dir];
    RenameEffect(m0, d0, i, dir, name, r, m, d);
    ChildByPath(d0, m0[dir], name);
    RenameToFree(d0, from, m0[dir], name);
    if !(from <= to) {
      MoveTreeByInode(d0, from, to);
      TreeDeterminesPaths(d, MoveTree(d0, from, to));
    } else {
      TreeDeterminesPaths(d, d0);
    }
  }

  lemma RenameRefused(m0: InodeMap, d0: Disk, i: u64, dir: u64, name: Name, r: Result<()>, m: InodeMap, d: Disk)
    requires WellFormed(d0) && WellFormed(d)
    requires i in m0 && m0[i] in d0 && dir in m0 && IsDir(d0, m0[dir]) && m0[dir] + [name] in d0
    requires RenameOutcome(m0, d0, i, dir, name, r, m, d)
    ensures var to := m0[dir] + [name];
            && (d0[to].kind.Directory? ==> r == Err(AlreadyExists) && d == d0)
            && (d0[to].kind.RegularFile? && !d0[m0[i]].kind.RegularFile? ==> r == Err(InvalidInput) && d == d0)
  {
    hide RenameOutcome, WellFormed, Abs, MoveTree, AtOrBelow, Agrees, Child;
    var to := m0[dir] + [name];
    RenameEffect(m0, d0, i, dir, name, r, m, d);
    ChildByPath(d0, m0[dir], name);
    AbsAt(d0, to);
    AbsAt(d0, m0[i]);
    AbsAt(d0, m0[dir]);
    if d0[to].kind.Directory? || (d0[to].kind.RegularFile? && !d0[m0[i]].kind.RegularFile?) {
      TreeDeterminesPaths(d, d0);
    }
  }

  lemma RenamedOver(m0: InodeMap, d0: Disk, i: u64, dir: u64, name: Name, r: Result<()>, m: InodeMap, d: Disk)
    requires WellFormed(d0) && WellFormed(d)
    requires i in m0 && m0[i] in d0 && dir in m0 && IsDir(d0, m0[dir]) && m0[dir] + [name] in d0
    requires var to := m0[dir] + [name];
             !d0[to].kind.Directory? && (d0[to].kind.RegularFile? ==> d0[m0[i]].kind.RegularFile?)
    requires RenameOutcome(m0, d0, i, dir, name, r, m, d)
    ensures var from, to := m0[i], m0[dir] + [name];
            if from == to then r == Err(NotFoundKind) && d == d0 - {to}
            else if from <= to then r == Err(InvalidInput) && d == d0 - {to}
            else r == Ok(()) && d == MoveTree(d0 - {to}, from, to)
  {
    hide RenameOutcome, WellFormed, Abs, MoveTree, AtOrBelow, IRename, Agrees, Child, RemoveTree;
    var from, to := m0[i], m0[dir] + [name];
    var a, b, x := d0[from].inode, d0[m0[dir]].inode, d0[to].inode;
    RenameEffect(m0, d0, i, dir, name, r, m, d);
    ChildByPath(d0, m0[dir], name);
    AbsAt(d0, to);
    AbsAt(d0, from);
    BelowByPath(d0, from, m0[dir]);
    assert Parent(to) == m0[dir];
    if from != to {
      PrefixStep(from, to);
      SamePathHere(d0, from, to);
    }
    RemoveFileByInode(d0, to);
    RemoveTreeByInode(d0, to);
    assert RemoveTree(d0, to) == d0 - {to};
    if from == to || from <= to {
      TreeDeterminesPaths(d, d0 - {to});
    } else {
      RenameOverFile(d0, from, m0[dir], name);
      ClearedPlace(d0, from, to);
      ClearedPlace(d0, m0[dir], to);
      MoveTreeByInode(d0 - {to}, from, to);
      TreeDeterminesPaths(d, MoveTree(d0 - {to}, from, to));
    }
  }

  lemma SamePathHere(d: Disk, p: Path, q: Path)
    requires WellFormed(d) && p in d && q in d && p != q
    ensures d[p].inode != d[q].inode
  {
  }
}
