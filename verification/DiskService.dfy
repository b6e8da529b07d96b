/** The filesystem behind the protocol: what a client sees when the backend it reaches through
    a stub keeps its files on a disk. */
module DiskService {
  import opened Bytes
  import opened Messages
  import opened Conversions
  import opened Disk
  import opened InodeTree
  import opened DiskFs
  import opened Stub
  import opened Rpc
  import opened RpcInvariant
  import opened RpcSafety

  /** The state of such a backend. */
  datatype Backing = Backing(index: InodeMap, disk: Disk, used: set<u64>)

  ghost predicate Consistent(b: Backing) {
    Tracked(b.index, b.disk, b.used) && Agrees(b.index, b.disk)
  }

  /** Paths made of the names in a request have one more component each. */
  predicate SingleNames(op: Op) {
    op.Lookup? || op.CreateFile? || op.CreateDir? || op.Rename? ==> SingleComponent(op.name)
  }

  function InodeResult(out: Outcome): Result<u64> {
    match out
    case Inode(i) => Ok(i)
    case Fail(e) => Err(e.kind)
    case _ => Err(Other)
  }

  function DoneResult(out: Outcome): Result<()> {
    match out
    case Done => Ok(())
    case Fail(e) => Err(e.kind)
    case _ => Err(Other)
  }

  /** Operations on attributes and contents leave the index alone, and of the disk every path,
      with its inode and its type. */
  ghost predicate SameShape(b: Backing, b': Backing) {
    && b'.index == b.index && b'.used == b.used && b'.disk.Keys == b.disk.Keys
    && forall p | p in b.disk :: b'.disk[p].inode == b.disk[p].inode && b'.disk[p].kind == b.disk[p].kind
  }

  predicate Creates(op: Op) {
    op.CreateFile? || op.CreateDir?
  }

  /** What the backend may do on an operation, if a file it creates is given the number `n`. */
  ghost predicate MayDo(b: Backing, op: Op, n: u64, b': Backing, out: Outcome)
    requires Consistent(b) && SingleNames(op)
  {
    && Tracked(b'.index, b'.disk, b'.used) && (!op.Rename? ==> Agrees(b'.index, b'.disk))
    && match op
       case Lookup(dir, name) =>
         b'.disk == b.disk && b'.used == b.used
         && LookupOutcome(b.index, b.disk, dir, name, InodeResult(out), b'.index)
       case CreateFile(dir, mode, flags, name) =>
         CreateOutcome(b.index, b.disk, b.used, dir, name, FileSpec(b.index, b.disk, dir, mode, flags, name, n),
                       InodeResult(out), b'.index, b'.disk, b'.used)
       case CreateDir(dir, mode, name) =>
         CreateOutcome(b.index, b.disk, b.used, dir, name, DirSpec(b.index, b.disk, dir, mode, name, n),
                       InodeResult(out), b'.index, b'.disk, b'.used)
       case Remove(i) =>
         b'.used == b.used && RemoveOutcome(b.index, b.disk, i, DoneResult(out), b'.index, b'.disk)
       case Rename(i, dir, name) =>
         b'.used == b.used && RenameOutcome(b.index, b.disk, i, dir, name, DoneResult(out), b'.index, b'.disk)
       case _ => SameShape(b, b')
  }

  // ----- The backend of DiskFs does it -----

  ghost function StateOf(fs: DiskFs): Backing
    reads fs
  {
    Backing(fs.inodeMap, fs.disk, fs.used)
  }

  function InodeOutcome(r: Result<u64>): (out: Outcome)
    ensures InodeResult(out) == r
  {
    match r
    case Ok(i) => Inode(i)
    case Err(kind) => Fail(FsError(kind, []))
  }

  function DoneOutcome(r: Result<()>): (out: Outcome)
    ensures DoneResult(out) == r
  {
    match r
    case Ok(unit) => assert unit == (); Done
    case Err(kind) => Fail(FsError(kind, []))
  }

  method Perform(fs: DiskFs, op: Op, newInode: u64) returns (out: Outcome)
    requires fs.Valid() && SingleNames(op) && newInode !in fs.used
    requires op.Lookup? || Creates(op) || op.Remove? || op.Rename?
    modifies fs
    ensures MayDo(old(StateOf(fs)), op, newInode, StateOf(fs), out)
  {
    hide LookupOutcome, CreateOutcome, RemoveOutcome, RenameOutcome, FileSpec, DirSpec, Tracked, Agrees;
    match op {
      case Lookup(dir, name) =>
        var r := fs.Lookup(dir, name);
        out := InodeOutcome(r);
      case CreateFile(dir, mode, flags, name) =>
        var r := fs.CreateFile(dir, mode, flags, name, newInode);
        out := InodeOutcome(r);
      case CreateDir(dir, mode, name) =>
        var r := fs.CreateDir(dir, mode, name, newInode);
        out := InodeOutcome(r);
      case Remove(i) =>
        var r := fs.Remove(i);
        out := DoneOutcome(r);
      case Rename(i, dir, name) =>
        var r := fs.Rename(i, dir, name);
        out := DoneOutcome(r);
    }
  }

  // ----- Along a history -----

  /** The operation is done with some number not used before, or, if a file is to be created
      and there is none, fails. */
  ghost predicate Does(b: Backing, op: Op, b': Backing, out: Outcome)
    requires Consistent(b) && SingleNames(op)
  {
    || (exists n: u64 :: MayDo(b, op, n, b', out) && (Creates(op) ==> n !in b.used))
    || (Creates(op) && (forall n: u64 :: n in b.used) && out.Fail? && b' == b)
  }

  /** A backend that keeps its files as `DiskFs` does. */
  ghost predicate RunsDiskFs(exec: Exec<Backing>) {
    forall b, op | Consistent(b) && SingleNames(op) :: Does(b, op, exec(b, op).0, exec(b, op).1)
  }

  /** A rename that takes no other registered inode along. */
  ghost predicate MovesAlone(b: Backing, op: Op) {
    op.Rename? && SingleNames(op) ==>
      match Target(b.index, b.disk, op.dir)
      case None => true
      case Some(dir) =>
        var occupant := Occupant(Abs(b.disk), dir, op.name);
        match Source(b.index, b.disk, op.inode, occupant)
        case None => true
        case Some(a) => NothingRegisteredBelow(b.index - occupant, Abs(b.disk), op.inode, a)
  }

  lemma DoesKeeps(b: Backing, op: Op, b': Backing, out: Outcome)
    requires Consistent(b) && SingleNames(op) && Does(b, op, b', out) && MovesAlone(b, op)
    ensures Consistent(b')
  {
    hide Tracked, Agrees, NothingRegisteredBelow, LookupOutcome, CreateOutcome, RemoveOutcome, FileSpec, DirSpec;
    hide Abs, Occupant, Source, IRename, Destructive;
  }

  /** Names are single components, and renames move alone. */
  ghost predicate Orderly(b: Backing, m: Message) {
    match OpOf(m)
    case Some(op) => SingleNames(op) && MovesAlone(b, op)
    case None => true
  }

  ghost predicate OrderlyLog(log: seq<Entry<Backing>>) {
    forall i | 0 <= i < |log| :: Orderly(log[i].before, log[i].request)
  }

  lemma ServedKeeps(exec: Exec<Backing>, b: Backing, m: Message)
    requires Sane(exec) && RunsDiskFs(exec) && Consistent(b) && Orderly(b, m)
    ensures Consistent(Serve(exec, b, m).0)
  {
    hide Consistent, SingleNames, MovesAlone, Does, Replies, OpOf;
    if OpOf(m).Some? {
      var op := OpOf(m).value;
      NoHandshake(m);
      DoesKeeps(b, op, exec(b, op).0, exec(b, op).1);
    }
  }

  lemma NoHandshake(m: Message)
    requires OpOf(m).Some?
    ensures !m.InitReq?
  {
  }

  lemma {:induction false} HistoryConsistent(exec: Exec<Backing>, b0: Backing, log: seq<Entry<Backing>>, b: Backing)
    requires Sane(exec) && RunsDiskFs(exec) && Consistent(b0) && Legal(exec, b0, log, b) && OrderlyLog(log)
    ensures Consistent(b)
    ensures forall i | 0 <= i < |log| :: Consistent(log[i].before)
    decreases |log|
  {
    hide Serve, RunsDiskFs, Consistent, Orderly;
    if log != [] {
      var e := log[|log| - 1];
      HistoryConsistent(exec, b0, log[..|log| - 1], e.before);
      ServedKeeps(exec, e.before, e.request);
    }
  }

  // ----- Through a stub -----

  /** The call returned what `op` returned from the disk's own tree where it took effect, and
      the disk then was as `op` left it. */
  ghost predicate DoneOnDisk(exec: Exec<Backing>, s: Sys<Backing>, c: nat, k: nat, op: Op, i: nat)
    requires Sane(exec) && c < |s.conns| && k < |s.conns[c].calls|
  {
    && AsIfAtomic(exec, s, c, k, op, i) && SingleNames(NormOp(op)) && Consistent(s.log[i].before)
    && var (after, out) := exec(s.log[i].before, NormOp(op));
       && Does(s.log[i].before, NormOp(op), after, out)
       && StateAfter(s, i) == after
       && s.conns[c].calls[k].phase.result == NormOutcome(out)
  }

  /** The two halves together. With clients reaching a backend that runs `DiskFs`, names being
      single components and no rename taking another registered inode along: every returned
      call did, atomically and at its point in the one history of the disk, what the operation
      on inodes does there, with that result in normal form, and the next operation in line
      met the disk it left. */
  lemma DiskThroughStub(exec: Exec<Backing>, b0: Backing, s: Sys<Backing>, c: nat, k: nat, op: Op)
    requires Sane(exec) && RunsDiskFs(exec) && Consistent(b0)
    requires ReachableUnwrapped(exec, b0, s) && OrderlyLog(s.log)
    requires c < |s.conns| && k < |s.conns[c].calls| && s.conns[c].calls[k].phase.Returned?
    requires s.conns[c].calls[k].request == Request(op).WithId(k % IDS)
    ensures exists i: nat :: DoneOnDisk(exec, s, c, k, op, i)
  {
    hide ReachableUnwrapped, Consistent, Orderly, Legal, TookEffect, NormOp, NormOutcome, Request, OpOf, Message.WithId, Does, SingleNames;
    Transparency(exec, b0, s, c, k, op);
    Linearizable(exec, b0, s);
    HistoryConsistent(exec, b0, s.log, s.backend);
    var i: nat :| AsIfAtomic(exec, s, c, k, op, i);
    EffectMeans(exec, s, c, k, i);
    EffectRequest(exec, s, c, k, i);
    RequestIsUnderstood(op, k % IDS);
    OrderlyNames(s.log[i].before, s.log[i].request);
    assert DoneOnDisk(exec, s, c, k, op, i);
  }

  lemma EffectRequest(exec: Exec<Backing>, s: Sys<Backing>, c: nat, k: nat, i: nat)
    requires Sane(exec) && c < |s.conns| && k < |s.conns[c].calls| && TookEffect(exec, s, c, k, i)
    ensures i < |s.log| && s.log[i].request == s.conns[c].calls[k].request
  {
  }

  lemma OrderlyNames(b: Backing, m: Message)
    requires Orderly(b, m) && OpOf(m).Some?
    ensures SingleNames(OpOf(m).value)
  {
  }

  function NormResult(r: Result<u64>): Result<u64> {
    if r.Err? && !CodedKind(r.kind) then Err(Other) else r
  }

  /** For instance a lookup in a directory that is registered and still there: through the
      stub it finds what the disk's tree holds under the name at that moment. */
  lemma LookupThroughStub(exec: Exec<Backing>, b0: Backing, s: Sys<Backing>, c: nat, k: nat, dir: u64, name: Name)
    requires Sane(exec) && RunsDiskFs(exec) && Consistent(b0)
    requires ReachableUnwrapped(exec, b0, s) && OrderlyLog(s.log)
    requires c < |s.conns| && k < |s.conns[c].calls| && s.conns[c].calls[k].phase.Returned?
    requires s.conns[c].calls[k].request == Request(Lookup(dir, name)).WithId(k % IDS)
    ensures exists i: nat :: FoundAt(exec, s, c, k, dir, name, i)
  {
    hide ReachableUnwrapped, Legal, Request, Message.WithId, Orderly, RunsDiskFs, Consistent, NormOutcome, Deserved, IsRequest;
    DiskThroughStub(exec, b0, s, c, k, Lookup(dir, name));
    var i: nat :| DoneOnDisk(exec, s, c, k, Lookup(dir, name), i);
    var b := s.log[i].before;
    LookupDone(b, dir, name, exec(b, Lookup(dir, name)).0, exec(b, Lookup(dir, name)).1);
    assert FoundAt(exec, s, c, k, dir, name, i);
  }

  ghost predicate FoundAt(exec: Exec<Backing>, s: Sys<Backing>, c: nat, k: nat, dir: u64, name: Name, i: nat)
    requires Sane(exec) && c < |s.conns| && k < |s.conns[c].calls|
  {
    && TookEffect(exec, s, c, k, i)
    && FoundThen(s.log[i].before, dir, name, s.conns[c].calls[k].phase.result)
  }

  ghost predicate FoundThen(b: Backing, dir: u64, name: Name, result: Outcome) {
    Consistent(b) &&
    (dir in b.index && HasInode(b.disk, dir) ==>
       dir in Abs(b.disk) && InodeResult(result) == NormResult(ILookup(Abs(b.disk), dir, name)))
  }

  lemma LookupDone(b: Backing, dir: u64, name: Name, b': Backing, out: Outcome)
    requires Consistent(b) && Does(b, Lookup(dir, name), b', out)
    ensures FoundThen(b, dir, name, NormOutcome(out))
  {
    hide Abs, Tracked, ILookup, WellFormed;
    if dir in b.index {
      TargetIsSelf(b.index, b.disk, dir);
    }
  }
}
