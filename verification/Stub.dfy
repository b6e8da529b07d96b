/** One call, from the client stub to the backend and back: the request each operation
    sends, what the server runs and answers, and what the waiting client makes of it. */
module Stub {
  import opened Bytes
  import opened Messages
  import opened Conversions
  import opened DirEntries
  import opened Chunks

  /** The operations of the backend trait, which the client stub implements too. */
  datatype Op =
    | Lookup(dir: u64, name: seq<byte>)
    | GetAttr(inode: u64)
    | SetAttr(inode: u64, size: Option<u64>, atime: Option<SystemTime>, mtime: Option<SystemTime>,
              permissions: Option<u16>, uid: Option<u32>, gid: Option<u32>)
    | Stats
    | CreateFile(dir: u64, mode: u16, unixFlags: u32, name: seq<byte>)
    | CreateDir(dir: u64, mode: u16, name: seq<byte>)
    | ReadFile(inode: u64, offset: u64, length: u64)
    | WriteFile(inode: u64, offset: u64, data: seq<byte>)
    | ReadDir(inode: u64)
    | Remove(inode: u64)
    | Rename(inode: u64, dir: u64, name: seq<byte>)

  datatype Outcome =
    | Connected
    | Inode(inode: u64)
    | Attrs(attr: FileAttr)
    | Done
    | Statistics(stats: FsStats)
    | Contents(data: seq<byte>)
    | Listing(entries: seq<DirEntry>)
    | Fail(error: FsError)

  /** What a backend may answer: a value of the operation's result type that memory can
      hold, names that fit a directory entry, and error texts that fit a message. */
  predicate Fits(op: Op, out: Outcome) {
    match out
    case Fail(e) => |e.text| < 0x1_0000
    case Inode(_) => op.Lookup? || op.CreateFile? || op.CreateDir?
    case Attrs(_) => op.GetAttr?
    case Done => op.SetAttr? || op.WriteFile? || op.Remove? || op.Rename?
    case Statistics(_) => op.Stats?
    case Contents(data) => op.ReadFile? && |data| < 0x8000_0000_0000_0000
    case Listing(entries) => op.ReadDir? && ShortNames(entries) && |Pack(entries)| < 0x8000_0000_0000_0000
    case Connected => false
  }

  // ----- The client's request -----

  function MapTime(t: Option<SystemTime>): Option<u64> {
    if t.Some? then Some(ToUnix(t.value)) else None
  }

  /** The message a stub method sends. Its id is a dummy that sending overwrites. */
  function Request(op: Op): Message {
    match op
    case Lookup(dir, name) => LookupReq(0, dir, name)
    case GetAttr(inode) => GetAttrReq(0, inode)
    case SetAttr(inode, size, atime, mtime, permissions, uid, gid) =>
      SetAttrReq(0, inode, size, MapTime(atime), MapTime(mtime), permissions, uid, gid)
    case Stats => StatsReq(0)
    case CreateFile(dir, mode, flags, name) => CreateReq(0, dir, mode, flags, false, name)
    case CreateDir(dir, mode, name) => CreateReq(0, dir, mode, 0, true, name)
    case ReadFile(inode, offset, length) => ReadReq(0, inode, offset, length)
    case WriteFile(inode, offset, data) => WriteReq(0, inode, offset, data)
    case ReadDir(inode) => ReaddirReq(0, inode)
    case Remove(inode) => RmReq(0, inode)
    case Rename(inode, dir, name) => MoveReq(0, inode, dir, name)
  }

  // ----- The server -----

  function UnmapTime(t: Option<u64>): Option<SystemTime> {
    if t.Some? then Some(FromUnix(t.value)) else None
  }

  /** The backend operation a message asks for; the handshake and the response types ask
      for none. */
  function OpOf(m: Message): Option<Op> {
    match m
    case LookupReq(_, dir, name) => Some(Lookup(dir, name))
    case GetAttrReq(_, inode) => Some(GetAttr(inode))
    case SetAttrReq(_, inode, size, atime, mtime, permissions, uid, gid) =>
      Some(SetAttr(inode, size, UnmapTime(atime), UnmapTime(mtime), permissions, uid, gid))
    case StatsReq(_) => Some(Stats)
    case CreateReq(_, dir, mode, flags, isDirectory, name) =>
      Some(if isDirectory then CreateDir(dir, mode, name) else CreateFile(dir, mode, flags, name))
    case ReadReq(_, inode, offset, length) => Some(ReadFile(inode, offset, length))
    case WriteReq(_, inode, offset, data) => Some(WriteFile(inode, offset, data))
    case ReaddirReq(_, inode) => Some(ReadDir(inode))
    case RmReq(_, inode) => Some(Remove(inode))
    case MoveReq(_, inode, dir, name) => Some(Rename(inode, dir, name))
    case _ => None
  }

  predicate IsRequest(m: Message) {
    m.InitReq? || OpOf(m).Some?
  }

  /** The complete reply set for an operation that produced `out`. */
  function Replies(id: u32, op: Op, out: Outcome): seq<Message>
    requires Fits(op, out)
  {
    match out
    case Fail(e) => [FromError(id, e)]
    case Inode(inode) => [LookupRes(id, inode)]
    case Attrs(attr) => [AttrMessage(attr, id)]
    case Done => [SuccessRes(id)]
    case Statistics(stats) => [StatsMessage(stats, id)]
    case Contents(data) => ChunksOf(id, data)
    case Listing(entries) => ChunksOf(id, Pack(entries))
  }

  /** The backend as a deterministic state machine: any function of its state and the
      operation. What an implementation draws from its surroundings is part of the state. */
  type Exec<!B> = (B, Op) -> (B, Outcome)

  ghost predicate Sane<B(!new)>(exec: Exec<B>) {
    forall b, op :: Fits(op, exec(b, op).1)
  }

  /** Handling one message: the backend's next state and the replies. */
  function Serve<B>(exec: Exec<B>, b: B, m: Message): (B, seq<Message>)
    requires OpOf(m).Some? ==> Fits(OpOf(m).value, exec(b, OpOf(m).value).1)
  {
    if m.InitReq? then (b, [InitRes(m.requestId, m.version == 0)])
    else if OpOf(m).Some? then
      var op := OpOf(m).value;
      var (b', out) := exec(b, op);
      (b', Replies(m.requestId, op, out))
    else (b, [])
  }

  // ----- The client's wait -----

  /** The one response type each simple request waits for. */
  predicate Answers(request: Message, m: Message) {
    match request
    case LookupReq(_, _, _) => m.LookupRes?
    case CreateReq(_, _, _, _, _, _) => m.LookupRes?
    case GetAttrReq(_, _) => m.FileAttrRes?
    case StatsReq(_) => m.StatsRes?
    case SetAttrReq(_, _, _, _, _, _, _, _) => m.SuccessRes?
    case WriteReq(_, _, _, _) => m.SuccessRes?
    case RmReq(_, _) => m.SuccessRes?
    case MoveReq(_, _, _, _) => m.SuccessRes?
    case _ => false
  }

  function Meaning(m: Message): Outcome {
    match m
    case LookupRes(_, inode) => Inode(inode)
    case FileAttrRes(_, _, _, _, _, _, _, _, _, _, _, _, _) => Attrs(AttrOfMessage(m).value)
    case StatsRes(_, _, _, _, _, _, _, _, _) => Statistics(StatsOfMessage(m).value)
    case Error(_, _, _) => Fail(ErrorOfMessage(m).value)
    case _ => Done
  }

  /** Skips messages of other types, stops at an error. */
  function AwaitOne(request: Message, inbox: seq<Message>): Waited<Outcome>
    decreases |inbox|
  {
    if inbox == [] then Waiting
    else if inbox[0].Error? || Answers(request, inbox[0]) then Ready(Meaning(inbox[0]))
    else AwaitOne(request, inbox[1..])
  }

  /** The handshake judges the first message that comes, whatever it is. */
  function AwaitInit(inbox: seq<Message>): Waited<Outcome> {
    if inbox == [] then Waiting
    else
      match inbox[0]
      case InitRes(_, accepted) => if accepted then Ready(Connected) else Ready(Fail(FsError(ConnectionRefused, [])))
      case Error(_, _, _) => Ready(Fail(FsError(ConnectionRefused, [])))
      case _ => Ready(Fail(FsError(InvalidData, [])))
  }

  function AwaitData(inbox: seq<Message>): Waited<Outcome> {
    match Combine(NOTHING, inbox)
    case Ready(data) => Ready(Contents(data))
    case Refused(m) => if m.Error? then Ready(Fail(ErrorOfMessage(m).value)) else Waiting
    case Waiting => Waiting
  }

  function AwaitListing(inbox: seq<Message>): Waited<Outcome> {
    match AwaitData(inbox)
    case Ready(out) =>
      if !out.Contents? then Ready(out)
      else (match Unpack(out.data)
            case Entries(list) => Ready(Listing(list))
            case BadPayload => Ready(Fail(FsError(Other, []))))
    case _ => Waiting
  }

  /** What the caller of `request` has, once `inbox` has been delivered to its listener. */
  function Await(request: Message, inbox: seq<Message>): Waited<Outcome> {
    match request
    case InitReq(_, _) => AwaitInit(inbox)
    case ReadReq(_, _, _, _) => AwaitData(inbox)
    case ReaddirReq(_, _) => AwaitListing(inbox)
    case _ => AwaitOne(request, inbox)
  }

  // ----- Transparency of one call -----

  /** What a call passes on of its arguments, and of the backend's outcome. */
  function NormOp(op: Op): Op {
    match op
    case SetAttr(inode, size, atime, mtime, permissions, uid, gid) =>
      SetAttr(inode, size, NormOption(atime), NormOption(mtime), permissions, uid, gid)
    case _ => op
  }

  function NormOption(t: Option<SystemTime>): Option<SystemTime> {
    if t.Some? then Some(NormTime(t.value)) else None
  }

  function NormOutcome(out: Outcome): Outcome {
    match out
    case Attrs(a) => Attrs(NormAttr(a))
    case Fail(e) => Fail(NormError(e))
    case _ => out
  }

  /** A normal form differs in its times, cut to whole seconds since the epoch, and in an error
      of a kind that has no code. */
  lemma NormalFormMeans(op: Op, out: Outcome)
    ensures !op.SetAttr? ==> NormOp(op) == op
    ensures op.SetAttr? ==>
              NormOp(op) == op.(atime := NormOp(op).atime, mtime := NormOp(op).mtime)
              && NormOp(op).atime == (match op.atime case None => None case Some(t) =>
                                      Some(if t < 0 then 0 else t - t % 1_000_000_000))
              && NormOp(op).mtime == (match op.mtime case None => None case Some(t) =>
                                      Some(if t < 0 then 0 else t - t % 1_000_000_000))
    ensures !out.Attrs? && !out.Fail? ==> NormOutcome(out) == out
    ensures out.Fail? ==>
              NormOutcome(out) == Fail(FsError(match out.error.kind
                                               case InvalidInput => InvalidInput
                                               case NotFoundKind => NotFoundKind
                                               case AlreadyExists => AlreadyExists
                                               case UnsupportedKind => UnsupportedKind
                                               case _ => Other, out.error.text))
  {
  }

  /** The server runs the caller's operation, times cut to whole seconds. */
  lemma RequestIsUnderstood(op: Op, id: u32)
    ensures OpOf(Request(op).WithId(id)) == Some(NormOp(op))
  {
    if op.SetAttr? {
      if op.atime.Some? { TimeRoundTrip(op.atime.value, 0); }
      if op.mtime.Some? { TimeRoundTrip(op.mtime.value, 0); }
    }
  }

  /** The backend as it appears through a stub: the same machine, up to normal forms. */
  ghost function Remote<B>(exec: Exec<B>): Exec<B> {
    (b: B, op: Op) => (exec(b, NormOp(op)).0, NormOutcome(exec(b, NormOp(op)).1))
  }

  lemma NormalForms(op: Op, out: Outcome)
    ensures NormOp(NormOp(op)) == NormOp(op) && NormOutcome(NormOutcome(out)) == NormOutcome(out)
    ensures Fits(op, out) ==> Fits(op, NormOutcome(out))
    ensures Fits(NormOp(op), out) <==> Fits(op, out)
  {
    if op.SetAttr? {
      if op.atime.Some? { TimeRoundTrip(NormTime(op.atime.value), 0); }
      if op.mtime.Some? { TimeRoundTrip(NormTime(op.mtime.value), 0); }
    }
  }

  /** Normalisation is a retraction: seen through a stub a backend is a backend again, and a
      second stub in front of the first changes nothing more. */
  lemma RemoteOfRemote<B(!new)>(exec: Exec<B>)
    requires Sane(exec)
    ensures Sane(Remote(exec))
    ensures forall b, op :: Remote(Remote(exec))(b, op) == Remote(exec)(b, op)
  {
    hide NormOp, NormOutcome, Fits;
    forall b, op ensures Fits(op, Remote(exec)(b, op).1) && Remote(Remote(exec))(b, op) == Remote(exec)(b, op) {
      var out := exec(b, NormOp(op)).1;
      NormalForms(op, out);
      NormalForms(op, NormOutcome(out));
    }
  }

  /** The outcome the caller of a request message deserves. */
  function Deserved<B>(exec: Exec<B>, b: B, m: Message): Outcome
    requires IsRequest(m)
  {
    if m.InitReq? then
      if m.version == 0 then Connected else Fail(FsError(ConnectionRefused, []))
    else NormOutcome(exec(b, OpOf(m).value).1)
  }

  /** Every reply carries the request's id and fits its frame. */
  lemma RepliesFit<B(!new)>(exec: Exec<B>, b: B, m: Message)
    requires Sane(exec)
    ensures forall r | r in Serve(exec, b, m).1 :: r.requestId == m.requestId && WellSized(r)
  {
    if OpOf(m).Some? {
      var op := OpOf(m).value;
      match exec(b, op).1
      case Contents(data) => ChunksFit(m.requestId, data);
      case Listing(entries) => ChunksFit(m.requestId, Pack(entries));
      case _ =>
    }
  }

  lemma OneReply(reply: Message, inbox: seq<Message>)
    requires multiset(inbox) <= multiset([reply])
    ensures inbox == if multiset(inbox) == multiset([reply]) then [reply] else []
  {
    forall i | 0 <= i < |inbox| ensures inbox[i] == reply {
      assert inbox[i] in multiset(inbox) && inbox[i] in multiset([reply]);
    }
    AllSame(inbox, reply);
  }

  lemma {:induction false} AllSame(ms: seq<Message>, m: Message)
    requires forall i | 0 <= i < |ms| :: ms[i] == m
    ensures multiset(ms)[m] == |ms|
    decreases |ms|
  {
    if ms != [] {
      assert ms == [ms[0]] + ms[1..];
      AllSame(ms[1..], m);
    }
  }

  lemma {:induction false} AllReads(inbox: seq<Message>)
    requires forall m | m in inbox :: m.ReadRes?
    ensures Reads(inbox) == inbox
    decreases |inbox|
  {
    if inbox != [] {
      assert inbox == [inbox[0]] + inbox[1..];
      AllReads(inbox[1..]);
    }
  }

  lemma ChunkReplies(id: u32, data: Data, inbox: seq<Message>)
    requires multiset(inbox) <= multiset(ChunksOf(id, data))
    ensures Combine(NOTHING, inbox) ==
            if multiset(inbox) == multiset(ChunksOf(id, data)) then Ready(data) else Waiting
  {
    hide Combine, ChunksOf;
    ChunksFit(id, data);
    forall m | m in inbox ensures m.ReadRes? {
      assert m in multiset(inbox);
      assert m in multiset(ChunksOf(id, data));
    }
    AllReads(inbox);
    Reassembly(id, data, inbox);
  }

  lemma RefusedAtOnce(m: Message)
    requires m.Error?
    ensures Combine(NOTHING, [m]) == Refused(m) && Combine(NOTHING, []) == Waiting
  {
  }

  lemma FailTransparency(m: Message, op: Op, e: FsError, inbox: seq<Message>)
    requires OpOf(m) == Some(op) && multiset(inbox) <= multiset([FromError(m.requestId, e)])
    ensures Await(m, inbox) ==
            if multiset(inbox) == multiset([FromError(m.requestId, e)]) then Ready(NormOutcome(Fail(e))) else Waiting
  {
    hide Combine;
    var reply := FromError(m.requestId, e);
    OneReply(reply, inbox);
    ErrorRetraction(e, m.requestId);
    RefusedAtOnce(reply);
  }

  lemma ReplyAnswers(m: Message, op: Op, out: Outcome)
    requires OpOf(m) == Some(op) && Fits(op, out) && !out.Fail? && !op.ReadFile? && !op.ReadDir?
    ensures |Replies(m.requestId, op, out)| == 1
    ensures Answers(m, Replies(m.requestId, op, out)[0])
    ensures Meaning(Replies(m.requestId, op, out)[0]) == NormOutcome(out)
  {
    hide ChunksOf, Pack;
    if out.Attrs? {
      AttrRetraction(out.attr, m.requestId);
    }
  }

  lemma SimpleTransparency(m: Message, op: Op, out: Outcome, inbox: seq<Message>)
    requires OpOf(m) == Some(op) && Fits(op, out) && !out.Fail? && !op.ReadFile? && !op.ReadDir?
    requires multiset(inbox) <= multiset(Replies(m.requestId, op, out))
    ensures Await(m, inbox) ==
            if multiset(inbox) == multiset(Replies(m.requestId, op, out)) then Ready(NormOutcome(out)) else Waiting
  {
    ReplyAnswers(m, op, out);
    assert Await(m, inbox) == AwaitOne(m, inbox);
    hide Replies, Answers, Meaning, NormOutcome, Await, OpOf, Fits;
    var replies := Replies(m.requestId, op, out);
    assert replies == [replies[0]];
    OneReply(replies[0], inbox);
  }

  lemma DataTransparency(m: Message, op: Op, out: Outcome, inbox: seq<Message>)
    requires OpOf(m) == Some(op) && Fits(op, out) && !out.Fail? && (op.ReadFile? || op.ReadDir?)
    requires multiset(inbox) <= multiset(Replies(m.requestId, op, out))
    ensures Await(m, inbox) ==
            if multiset(inbox) == multiset(Replies(m.requestId, op, out)) then Ready(NormOutcome(out)) else Waiting
  {
    hide ChunksOf, Pack, Unpack, Combine;
    if op.ReadFile? {
      ChunkReplies(m.requestId, out.data, inbox);
    } else {
      ChunkReplies(m.requestId, Pack(out.entries), inbox);
      PackRoundTrip(out.entries);
    }
  }

  /** A waiting caller is answered exactly when its whole reply set has been delivered, in
      whatever order, and the answer is the backend's outcome in normal form. */
  lemma CallTransparency<B(!new)>(exec: Exec<B>, b: B, m: Message, inbox: seq<Message>)
    requires Sane(exec) && IsRequest(m)
    requires multiset(inbox) <= multiset(Serve(exec, b, m).1)
    ensures Await(m, inbox) ==
            if multiset(inbox) == multiset(Serve(exec, b, m).1) then Ready(Deserved(exec, b, m)) else Waiting
  {
    hide Await, Replies, NormOutcome, Fits;
    if m.InitReq? {
      InitTransparency(m, inbox);
    } else {
      var op := OpOf(m).value;
      AnyTransparency(m, op, exec(b, op).1, inbox);
    }
  }

  lemma InitTransparency(m: Message, inbox: seq<Message>)
    requires m.InitReq? && multiset(inbox) <= multiset([InitRes(m.requestId, m.version == 0)])
    ensures Await(m, inbox) ==
            if multiset(inbox) == multiset([InitRes(m.requestId, m.version == 0)])
            then Ready(if m.version == 0 then Connected else Fail(FsError(ConnectionRefused, [])))
            else Waiting
  {
    OneReply(InitRes(m.requestId, m.version == 0), inbox);
  }

  lemma AnyTransparency(m: Message, op: Op, out: Outcome, inbox: seq<Message>)
    requires OpOf(m) == Some(op) && Fits(op, out)
    requires multiset(inbox) <= multiset(Replies(m.requestId, op, out))
    ensures Await(m, inbox) ==
            if multiset(inbox) == multiset(Replies(m.requestId, op, out)) then Ready(NormOutcome(out)) else Waiting
  {
    hide Await, NormOutcome;
    if out.Fail? {
      FailTransparency(m, op, out.error, inbox);
    } else if op.ReadFile? || op.ReadDir? {
      DataTransparency(m, op, out, inbox);
    } else {
      SimpleTransparency(m, op, out, inbox);
    }
  }
}
