/** What a client sees of a disk at the other end of the connection, request by request: the
    result that its call returned, and the paths that the next request in line met. */
module RemoteDisk {
  import opened Bytes
  import opened FileTypes
  import opened Messages
  import opened Conversions
  import opened Disk
  import opened DiskFs
  import opened DiskPaths
  import opened Stub
  import opened Rpc
  import opened RpcInvariant
  import opened RpcSafety
  import opened DiskService

  /** Clients reach a backend that runs `DiskFs`, names are single components, no rename takes
      another registered inode along, and the call has returned, having taken effect at `i`. */
  ghost predicate Effective(exec: Exec<Backing>, b0: Backing, s: Sys<Backing>, c: nat, k: nat, i: nat) {
    && Sane(exec) && RunsDiskFs(exec) && Consistent(b0) && ReachableUnwrapped(exec, b0, s) && OrderlyLog(s.log)
    && c < |s.conns| && k < |s.conns[c].calls| && s.conns[c].calls[k].phase.Returned?
    && TookEffect(exec, s, c, k, i)
  }

  lemma EffectOnDisk(exec: Exec<Backing>, b0: Backing, s: Sys<Backing>, c: nat, k: nat, i: nat, op: Op)
    requires Effective(exec, b0, s, c, k, i) && OpOf(s.conns[c].calls[k].request) == Some(op)
    ensures i < |s.log| && Consistent(s.log[i].before) && SingleNames(op)
    ensures exists out ::
              && Fits(op, out) && Does(s.log[i].before, op, StateAfter(s, i), out)
              && s.conns[c].calls[k].phase.result == NormOutcome(out)
  {
    hide ReachableUnwrapped, Legal, TookEffect, Consistent, SingleNames, Orderly, Does, NormOutcome, OpOf, Fits;
    Linearizable(exec, b0, s);
    EffectMeans(exec, s, c, k, i);
    HistoryConsistent(exec, b0, s.log, s.backend);
    OrderlyNames(s.log[i].before, s.log[i].request);
    NoHandshake(s.log[i].request);
    assert RunsTo(exec, s.log[i].before, s.log[i].request, StateAfter(s, i));
    assert Does(s.log[i].before, op, StateAfter(s, i), exec(s.log[i].before, op).1);
  }

  /** A request for the inode acts on that inode. */
  ghost predicate ActsOn(b: Backing, inode: u64) {
    inode in b.index && b.index[inode] in b.disk && b.disk[b.index[inode]].inode == inode
  }

  lemma HandedOut(b: Backing, r: Result<u64>)
    requires Agrees(b.index, b.disk)
    requires r.Ok? ==> r.value in b.index && HasInode(b.disk, r.value)
    ensures r.Ok? ==> ActsOn(b, r.value)
  {
  }

  /** A LOOKUP_REQ finds what stands at the path and changes nothing; a path below something
      other than a directory has no error code of its own. The inode handed out is one that
      the next request can ask for, and so below. */
  lemma LookupPathThroughStub(exec: Exec<Backing>, b0: Backing, s: Sys<Backing>, c: nat, k: nat, i: nat,
                              dir: u64, name: Name)
    requires Effective(exec, b0, s, c, k, i)
    requires s.conns[c].calls[k].request == LookupReq(k % 0x1_0000_0000, dir, name)
    requires i < |s.log| && dir in s.log[i].before.index
    ensures var d, result := s.log[i].before.disk, s.conns[c].calls[k].phase.result;
            var p := s.log[i].before.index[dir] + [name];
            && StateAfter(s, i).disk == d
            && if p in d then result == Inode(d[p].inode)
               else result.Fail? && result.error.kind == if Unresolved(d, p).NotFoundKind? then NotFoundKind else Other
    ensures s.conns[c].calls[k].phase.result.Inode? ==>
              ActsOn(StateAfter(s, i), s.conns[c].calls[k].phase.result.inode)
  {
    hide Consistent, SingleNames, Does, Fits;
    var op := Op.Lookup(dir, name);
    EffectOnDisk(exec, b0, s, c, k, i, op);
    var out :| Fits(op, out) && Does(s.log[i].before, op, StateAfter(s, i), out)
               && s.conns[c].calls[k].phase.result == NormOutcome(out);
    LookupPathDone(s.log[i].before, dir, name, StateAfter(s, i), out);
  }

  lemma LookupPathDone(b: Backing, dir: u64, name: Name, b': Backing, out: Outcome)
    requires Consistent(b) && Does(b, Op.Lookup(dir, name), b', out) && Fits(Op.Lookup(dir, name), out)
    requires dir in b.index
    ensures var d, result := b.disk, NormOutcome(out);
            var p := b.index[dir] + [name];
            && b'.disk == d
            && if p in d then result == Inode(d[p].inode)
               else result.Fail? && result.error.kind == if Unresolved(d, p).NotFoundKind? then NotFoundKind else Other
    ensures NormOutcome(out).Inode? ==> ActsOn(b', NormOutcome(out).inode)
  {
    hide Agrees, WellFormed, LookupOutcome, Unresolved;
    FoundPath(b.index, b.disk, dir, name, InodeResult(out), b'.index);
    HandedOut(b', InodeResult(out));
  }

  /** A CREATE_REQ for a file in a directory that is registered and there: through the stub,
      bit 7 of the flags refuses what stands at the path, bit 9 empties it, and with neither
      its contents stay. */
  lemma CreateThroughStub(exec: Exec<Backing>, b0: Backing, s: Sys<Backing>, c: nat, k: nat, i: nat,
                          dir: u64, mode: u16, flags: u32, name: Name)
    requires Effective(exec, b0, s, c, k, i)
    requires s.conns[c].calls[k].request == CreateReq(k % 0x1_0000_0000, dir, mode, flags, false, name)
    requires i < |s.log| && dir in s.log[i].before.index
    requires IsDir(s.log[i].before.disk, s.log[i].before.index[dir])
    requires exists n: u64 :: n !in s.log[i].before.used
    ensures var d, d', result := s.log[i].before.disk, StateAfter(s, i).disk, s.conns[c].calls[k].phase.result;
            var p := s.log[i].before.index[dir] + [name];
            if p !in d then
              result.Inode? && result.inode !in s.log[i].before.used
              && d' == d[p := Node(result.inode, RegularFile, mode, [])]
            else if (flags as bv32) & (1 << 7) != 0 then result.Fail? && result.error.kind == AlreadyExists && d' == d
            else if !d[p].kind.RegularFile? then result.Fail? && result.error.kind == Other && d' == d
            else
              && result == Inode(d[p].inode)
              && d' == d[p := Node(d[p].inode, RegularFile, mode,
                                   if (flags as bv32) & (1 << 9) != 0 then [] else d[p].data)]
    ensures s.conns[c].calls[k].phase.result.Inode? ==>
              ActsOn(StateAfter(s, i), s.conns[c].calls[k].phase.result.inode)
  {
    hide Consistent, SingleNames, Does, Fits;
    var op := Op.CreateFile(dir, mode, flags, name);
    EffectOnDisk(exec, b0, s, c, k, i, op);
    var out :| Fits(op, out) && Does(s.log[i].before, op, StateAfter(s, i), out)
               && s.conns[c].calls[k].phase.result == NormOutcome(out);
    CreateDone(s.log[i].before, dir, mode, flags, name, StateAfter(s, i), out);
  }

  lemma CreateDone(b: Backing, dir: u64, mode: u16, flags: u32, name: Name, b': Backing, out: Outcome)
    requires Consistent(b) && Does(b, Op.CreateFile(dir, mode, flags, name), b', out)
    requires Fits(Op.CreateFile(dir, mode, flags, name), out)
    requires dir in b.index && IsDir(b.disk, b.index[dir]) && exists n: u64 :: n !in b.used
    ensures var d, d', result := b.disk, b'.disk, NormOutcome(out);
            var p := b.index[dir] + [name];
            if p !in d then
              result.Inode? && result.inode !in b.used && d' == d[p := Node(result.inode, RegularFile, mode, [])]
            else if (flags as bv32) & (1 << 7) != 0 then result.Fail? && result.error.kind == AlreadyExists && d' == d
            else if !d[p].kind.RegularFile? then result.Fail? && result.error.kind == Other && d' == d
            else
              && result == Inode(d[p].inode)
              && d' == d[p := Node(d[p].inode, RegularFile, mode,
                                   if (flags as bv32) & (1 << 9) != 0 then [] else d[p].data)]
    ensures NormOutcome(out).Inode? ==> ActsOn(b', NormOutcome(out).inode)
  {
    hide Tracked, Agrees, CreateOutcome, FileSpec, IsDir;
    var op := Op.CreateFile(dir, mode, flags, name);
    var n: u64 :| MayDo(b, op, n, b', out) && n !in b.used;
    CreatedFile(b.index, b.disk, b.used, dir, mode, flags, name, n, InodeResult(out), b'.index, b'.disk, b'.used);
    HandedOut(b', InodeResult(out));
  }

  /** A CREATE_REQ for a directory, in a directory that is registered and there. */
  lemma MakeDirThroughStub(exec: Exec<Backing>, b0: Backing, s: Sys<Backing>, c: nat, k: nat, i: nat,
                           dir: u64, mode: u16, flags: u32, name: Name)
    requires Effective(exec, b0, s, c, k, i)
    requires s.conns[c].calls[k].request == CreateReq(k % 0x1_0000_0000, dir, mode, flags, true, name)
    requires i < |s.log| && dir in s.log[i].before.index
    requires IsDir(s.log[i].before.disk, s.log[i].before.index[dir])
    requires exists n: u64 :: n !in s.log[i].before.used
    ensures var d, d', result := s.log[i].before.disk, StateAfter(s, i).disk, s.conns[c].calls[k].phase.result;
            var p := s.log[i].before.index[dir] + [name];
            if p in d then result.Fail? && result.error.kind == AlreadyExists && d' == d
            else
              && result.Inode? && result.inode !in s.log[i].before.used
              && d' == d[p := Node(result.inode, Directory, mode, [])]
    ensures s.conns[c].calls[k].phase.result.Inode? ==>
              ActsOn(StateAfter(s, i), s.conns[c].calls[k].phase.result.inode)
  {
    hide Consistent, SingleNames, Does, Fits;
    var op := Op.CreateDir(dir, mode, name);
    EffectOnDisk(exec, b0, s, c, k, i, op);
    var out :| Fits(op, out) && Does(s.log[i].before, op, StateAfter(s, i), out)
               && s.conns[c].calls[k].phase.result == NormOutcome(out);
    MakeDirDone(s.log[i].before, dir, mode, name, StateAfter(s, i), out);
  }

  lemma MakeDirDone(b: Backing, dir: u64, mode: u16, name: Name, b': Backing, out: Outcome)
    requires Consistent(b) && Does(b, Op.CreateDir(dir, mode, name), b', out) && Fits(Op.CreateDir(dir, mode, name), out)
    requires dir in b.index && IsDir(b.disk, b.index[dir]) && exists n: u64 :: n !in b.used
    ensures var d, d', result := b.disk, b'.disk, NormOutcome(out);
            var p := b.index[dir] + [name];
            if p in d then result.Fail? && result.error.kind == AlreadyExists && d' == d
            else result.Inode? && result.inode !in b.used && d' == d[p := Node(result.inode, Directory, mode, [])]
    ensures NormOutcome(out).Inode? ==> ActsOn(b', NormOutcome(out).inode)
  {
    hide Tracked, Agrees, CreateOutcome, DirSpec, IsDir;
    var op := Op.CreateDir(dir, mode, name);
    var n: u64 :| MayDo(b, op, n, b', out) && n !in b.used;
    MadeDirectory(b.index, b.disk, b.used, dir, mode, name, n, InodeResult(out), b'.index, b'.disk, b'.used);
    HandedOut(b', InodeResult(out));
  }

  /** An RM_REQ for an inode that is registered and there takes away the paths at and below
      its own, and no others. */
  lemma RemoveThroughStub(exec: Exec<Backing>, b0: Backing, s: Sys<Backing>, c: nat, k: nat, i: nat, inode: u64)
    requires Effective(exec, b0, s, c, k, i)
    requires s.conns[c].calls[k].request == RmReq(k % 0x1_0000_0000, inode)
    requires i < |s.log| && inode in s.log[i].before.index
    ensures var d, d', result := s.log[i].before.disk, StateAfter(s, i).disk, s.conns[c].calls[k].phase.result;
            var p := s.log[i].before.index[inode];
            && (if p in d then result.Done?
                else result.Fail? && d' == d
                     && result.error.kind == if Unresolved(d, p).NotFoundKind? then NotFoundKind else Other)
            && forall q :: (q in d' <==> q in d && (p in d ==> !(p <= q))) && (q in d' ==> d'[q] == d[q])
  {
    hide Consistent, SingleNames, Does, Fits;
    var op := Op.Remove(inode);
    EffectOnDisk(exec, b0, s, c, k, i, op);
    var out :| Fits(op, out) && Does(s.log[i].before, op, StateAfter(s, i), out)
               && s.conns[c].calls[k].phase.result == NormOutcome(out);
    RemoveDone(s.log[i].before, inode, StateAfter(s, i), out);
  }

  lemma RemoveDone(b: Backing, inode: u64, b': Backing, out: Outcome)
    requires Consistent(b) && Does(b, Op.Remove(inode), b', out) && Fits(Op.Remove(inode), out)
    requires inode in b.index
    ensures var p := b.index[inode];
            && (if p in b.disk then NormOutcome(out).Done?
                else NormOutcome(out).Fail? && b'.disk == b.disk
                     && NormOutcome(out).error.kind
                        == if Unresolved(b.disk, p).NotFoundKind? then NotFoundKind else Other)
            && forall q :: (q in b'.disk <==> q in b.disk && (p in b.disk ==> !(p <= q)))
                           && (q in b'.disk ==> b'.disk[q] == b.disk[q])
  {
    hide Tracked, Agrees, RemoveOutcome, Unresolved;
    RemovedPaths(b.index, b.disk, inode, DoneResult(out), b'.index, b'.disk);
  }

  /** A MOVE_REQ between inodes that are registered and there. */
  lemma RenameThroughStub(exec: Exec<Backing>, b0: Backing, s: Sys<Backing>, c: nat, k: nat, i: nat,
                          inode: u64, dir: u64, name: Name)
    requires Effective(exec, b0, s, c, k, i)
    requires s.conns[c].calls[k].request == MoveReq(k % 0x1_0000_0000, inode, dir, name)
    requires i < |s.log| && inode in s.log[i].before.index && dir in s.log[i].before.index
    requires s.log[i].before.index[inode] in s.log[i].before.disk
    requires IsDir(s.log[i].before.disk, s.log[i].before.index[dir])
    ensures var d, d', result := s.log[i].before.disk, StateAfter(s, i).disk, s.conns[c].calls[k].phase.result;
            var from, to := s.log[i].before.index[inode], s.log[i].before.index[dir] + [name];
            if to in d && d[to].kind.Directory? then result.Fail? && result.error.kind == AlreadyExists && d' == d
            else if to in d && d[to].kind.RegularFile? && !d[from].kind.RegularFile? then
              result.Fail? && result.error.kind == InvalidInput && d' == d
            else if to in d && from == to then result.Fail? && result.error.kind == NotFoundKind && d' == d - {to}
            else if from <= to then result.Fail? && result.error.kind == InvalidInput && d' == d - {to}
            else result == Done && d' == MoveTree(d - {to}, from, to)
  {
    hide Consistent, SingleNames, Does, Fits, MoveTree;
    var op := Op.Rename(inode, dir, name);
    EffectOnDisk(exec, b0, s, c, k, i, op);
    var out :| Fits(op, out) && Does(s.log[i].before, op, StateAfter(s, i), out)
               && s.conns[c].calls[k].phase.result == NormOutcome(out);
    RenameDone(s.log[i].before, inode, dir, name, StateAfter(s, i), out);
  }

  lemma RenameDone(b: Backing, inode: u64, dir: u64, name: Name, b': Backing, out: Outcome)
    requires Consistent(b) && Does(b, Op.Rename(inode, dir, name), b', out) && Fits(Op.Rename(inode, dir, name), out)
    requires inode in b.index && dir in b.index && b.index[inode] in b.disk && IsDir(b.disk, b.index[dir])
    ensures var d, d', result := b.disk, b'.disk, NormOutcome(out);
            var from, to := b.index[inode], b.index[dir] + [name];
            if to in d && d[to].kind.Directory? then result.Fail? && result.error.kind == AlreadyExists && d' == d
            else if to in d && d[to].kind.RegularFile? && !d[from].kind.RegularFile? then
              result.Fail? && result.error.kind == InvalidInput && d' == d
            else if to in d && from == to then result.Fail? && result.error.kind == NotFoundKind && d' == d - {to}
            else if from <= to then result.Fail? && result.error.kind == InvalidInput && d' == d - {to}
            else result == Done && d' == MoveTree(d - {to}, from, to)
  {
    hide WellFormed, Agrees, RenameOutcome, IsDir, MoveTree;
    RenamedPaths(b.index, b.disk, inode, dir, name, DoneResult(out), b'.index, b'.disk);
  }
}
