/** The protocol as a step system: any number of clients, one backend behind one lock. Each
    step is one atomic action of one party; a run is any interleaving of steps. */
module Rpc {
  import opened Bytes
  import opened Messages
  import opened Stub

  const IDS := 0x1_0000_0000
  const REPLY_QUEUE_CAPACITY := 32

  // ----- State -----

  datatype Phase = Listening | Returned(result: Outcome) | Abandoned

  /** One message sent on a connection, and its listener. `delivered`, `sentAt` and
      `returnedAt` are history: the replies to this call that have come off the wire, and
      the length of the execution log when it was sent and when it returned. */
  datatype Call = Call(request: Message, inbox: seq<Message>, phase: Phase,
                       delivered: multiset<Message>, sentAt: nat, returnedAt: nat)

  /** The server's task for one message. `at` is history: where the log records it. */
  datatype Task =
    | Queued(m: Message)
    | Answering(at: nat, unsent: multiset<Message>)
    | Finished(at: nat)

  /** A reply, and (history) the number of the call it answers. */
  datatype Reply = Reply(call: nat, m: Message)

  /** One connection. Calls are numbered in sending order, tasks in arrival order.
      `upMsgs` and `downMsgs` are history: what the bytes in flight are encodings of. */
  datatype Conn = Conn(
    nextId: u32,
    calls: seq<Call>,
    listeners: map<u32, nat>,
    upBytes: seq<byte>, upBuffer: seq<byte>, upMsgs: seq<Message>,
    tasks: seq<Task>,
    replies: seq<Reply>,
    downBytes: seq<byte>, downBuffer: seq<byte>, downMsgs: seq<Reply>)

  datatype Holder = Free | Held(conn: nat, task: nat)

  /** The log (history) records each handled message with the backend state it met. */
  datatype Entry<B> = Entry(conn: nat, call: nat, before: B, request: Message)

  datatype Sys<B> = Sys(conns: seq<Conn>, lock: Holder, backend: B, log: seq<Entry<B>>)

  const NEW_CONN := Conn(0, [], map[], [], [], [], [], [], [], [], [])

  function Start<B>(clients: nat, b: B): Sys<B> {
    Sys(seq(clients, _ => NEW_CONN), Free, b, [])
  }

  // ----- Steps -----

  datatype Step =
    | Send(c: nat, body: Message)
    | DeliverUp(c: nat, n: nat)
    | Spawn(c: nat)
    | Execute(c: nat, k: nat)
    | Enqueue(c: nat, k: nat, m: Message)
    | Finish(c: nat, k: nat)
    | Write(c: nat)
    | DeliverDown(c: nat, n: nat)
    | Route(c: nat)
    | Return(c: nat, k: nat)
    | Abandon(c: nat, k: nat)

  function WithCall(conn: Conn, k: nat, call: Call): Conn
    requires k < |conn.calls|
  {
    conn.(calls := conn.calls[k := call])
  }

  function WithTask(conn: Conn, k: nat, task: Task): Conn
    requires k < |conn.tasks|
  {
    conn.(tasks := conn.tasks[k := task])
  }

  /** Only messages that ask for a backend operation contend for the lock. */
  predicate NeedsLock(m: Message) {
    OpOf(m).Some?
  }

  /** What a step needs of its own connection. */
  predicate CanMove(conn: Conn, step: Step) {
    match step
    case Send(_, body) => WellSized(body)
    case DeliverUp(_, n) => 0 < n <= |conn.upBytes|
    case Spawn(_) => Decode(conn.upBuffer).Got?
    case Execute(_, k) => k < |conn.tasks| && conn.tasks[k].Queued?
    case Enqueue(_, k, m) =>
      k < |conn.tasks| && conn.tasks[k].Answering? && m in conn.tasks[k].unsent
      && |conn.replies| < REPLY_QUEUE_CAPACITY
    case Finish(_, k) =>
      k < |conn.tasks| && conn.tasks[k].Answering? && conn.tasks[k].unsent == multiset{}
    case Write(_) => conn.replies != []
    case DeliverDown(_, n) => 0 < n <= |conn.downBytes|
    case Route(_) => Decode(conn.downBuffer).Got?
    case Return(_, k) =>
      k < |conn.calls| && conn.calls[k].phase.Listening? && Await(conn.calls[k].request, conn.calls[k].inbox).Ready?
    case Abandon(_, k) => k < |conn.calls| && conn.calls[k].phase.Listening?
  }

  predicate CanStep<B>(s: Sys<B>, step: Step) {
    && step.c < |s.conns| && CanMove(s.conns[step.c], step)
    && (step.Execute? && NeedsLock(s.conns[step.c].tasks[step.k].m) ==> s.lock.Free?)
  }

  /** A message is given the next id, its listener is registered under that id in place of
      any older one, and its frame goes to the wire. */
  function Sent(conn: Conn, body: Message, now: nat): Conn {
    var m := body.WithId(conn.nextId);
    conn.(nextId := (conn.nextId + 1) % IDS,
          calls := conn.calls + [Call(m, [], Listening, multiset{}, now, 0)],
          listeners := conn.listeners[conn.nextId := |conn.calls|],
          upBytes := conn.upBytes + Encode(m),
          upMsgs := conn.upMsgs + [m])
  }

  function Tail<T>(s: seq<T>): seq<T> {
    if s == [] then [] else s[1..]
  }

  function Spawned(conn: Conn): Conn
    requires Decode(conn.upBuffer).Got?
  {
    var d := Decode(conn.upBuffer);
    conn.(upBuffer := d.rest, upMsgs := Tail(conn.upMsgs), tasks := conn.tasks + [Queued(d.value)])
  }

  function Enqueued(conn: Conn, k: nat, m: Message): Conn
    requires k < |conn.tasks| && conn.tasks[k].Answering?
  {
    var task := conn.tasks[k];
    WithTask(conn, k, task.(unsent := task.unsent - multiset{m})).(replies := conn.replies + [Reply(k, m)])
  }

  function Written(conn: Conn): Conn
    requires conn.replies != []
  {
    conn.(replies := conn.replies[1..],
          downBytes := conn.downBytes + Encode(conn.replies[0].m),
          downMsgs := conn.downMsgs + [conn.replies[0]])
  }

  /** History: reply `r` has come off the wire. */
  function Recorded(calls: seq<Call>, r: Reply): seq<Call> {
    if r.call < |calls| then
      calls[r.call := calls[r.call].(delivered := calls[r.call].delivered + multiset{r.m})]
    else calls
  }

  /** The receive loop's dispatch of one message by its id alone: to the registered
      listener, or, if its owner has stopped listening, dropping the listener. */
  function Dispatched(conn: Conn, m: Message): Conn {
    if m.requestId !in conn.listeners || conn.listeners[m.requestId] >= |conn.calls| then conn
    else
      var k := conn.listeners[m.requestId];
      if conn.calls[k].phase.Listening? then
        WithCall(conn, k, conn.calls[k].(inbox := conn.calls[k].inbox + [m]))
      else conn.(listeners := conn.listeners - {m.requestId})
  }

  function Received(conn: Conn): Conn
    requires Decode(conn.downBuffer).Got?
  {
    var d := Decode(conn.downBuffer);
    var after := Dispatched(conn, d.value).(downBuffer := d.rest, downMsgs := Tail(conn.downMsgs));
    if conn.downMsgs == [] then after else after.(calls := Recorded(after.calls, conn.downMsgs[0]))
  }

  predicate Fitting<B>(exec: Exec<B>, b: B, m: Message) {
    OpOf(m).Some? ==> Fits(OpOf(m).value, exec(b, OpOf(m).value).1)
  }

  /** Taking the lock if the request needs it, running it to completion, and setting out
      its replies. The log grows by one entry. */
  function Executed<B>(exec: Exec<B>, b: B, log: seq<Entry<B>>, conn: Conn, k: nat): Conn
    requires k < |conn.tasks| && conn.tasks[k].Queued? && Fitting(exec, b, conn.tasks[k].m)
  {
    WithTask(conn, k, Answering(|log|, multiset(Serve(exec, b, conn.tasks[k].m).1)))
  }

  /** Every other step changes its own connection only. */
  function Moved(conn: Conn, step: Step, now: nat): Conn
    requires CanMove(conn, step) && !step.Execute?
  {
    match step
    case Send(_, body) => Sent(conn, body, now)
    case DeliverUp(_, n) => conn.(upBytes := conn.upBytes[n..], upBuffer := conn.upBuffer + conn.upBytes[..n])
    case Spawn(_) => Spawned(conn)
    case Enqueue(_, k, m) => Enqueued(conn, k, m)
    case Finish(_, k) => WithTask(conn, k, Finished(conn.tasks[k].at))
    case Write(_) => Written(conn)
    case DeliverDown(_, n) =>
      conn.(downBytes := conn.downBytes[n..], downBuffer := conn.downBuffer + conn.downBytes[..n])
    case Route(_) => Received(conn)
    case Return(_, k) =>
      WithCall(conn, k, conn.calls[k].(phase := Returned(Await(conn.calls[k].request, conn.calls[k].inbox).value),
                                       returnedAt := now))
    case Abandon(_, k) => WithCall(conn, k, conn.calls[k].(phase := Abandoned))
  }

  function Apply<B>(exec: Exec<B>, s: Sys<B>, step: Step): Sys<B>
    requires CanStep(s, step)
    requires step.Execute? ==> Fitting(exec, s.backend, s.conns[step.c].tasks[step.k].m)
  {
    var conn := s.conns[step.c];
    if step.Execute? then
      var m := conn.tasks[step.k].m;
      Sys(s.conns[step.c := Executed(exec, s.backend, s.log, conn, step.k)],
          if NeedsLock(m) then Held(step.c, step.k) else s.lock,
          Serve(exec, s.backend, m).0,
          s.log + [Entry(step.c, step.k, s.backend, m)])
    else
      s.(conns := s.conns[step.c := Moved(conn, step, |s.log|)],
         lock := if step.Finish? && s.lock == Held(step.c, step.k) then Free else s.lock)
  }

  // ----- Runs -----

  /** The server has not finished with call `k`, or some reply to it is not yet routed. */
  ghost predicate Outstanding(conn: Conn, k: nat) {
    k < |conn.calls| &&
    (k >= |conn.tasks| || !conn.tasks[k].Finished? || exists r | r in conn.replies + conn.downMsgs :: r.call == k)
  }

  /** Fewer than 2^32 messages were sent since any outstanding call: what the protocol asks
      of a client, and what the wrapping id counter does not check. */
  ghost predicate NoWrap(conn: Conn) {
    forall k | Outstanding(conn, k) :: |conn.calls| - k <= IDS
  }

  ghost predicate Unwrapped<B>(s: Sys<B>) {
    forall conn | conn in s.conns :: NoWrap(conn)
  }

  ghost predicate IsRun<B(!new)>(exec: Exec<B>, s: Sys<B>, steps: seq<Step>)
    requires Sane(exec)
    decreases |steps|
  {
    steps == [] || (CanStep(s, steps[0]) && IsRun(exec, Apply(exec, s, steps[0]), steps[1..]))
  }

  /** A run through unwrapped states only. */
  ghost predicate NeverWraps<B(!new)>(exec: Exec<B>, s: Sys<B>, steps: seq<Step>)
    requires Sane(exec) && IsRun(exec, s, steps)
    decreases |steps|
  {
    Unwrapped(s) && (steps == [] || NeverWraps(exec, Apply(exec, s, steps[0]), steps[1..]))
  }

  ghost function After<B(!new)>(exec: Exec<B>, s: Sys<B>, steps: seq<Step>): Sys<B>
    requires Sane(exec) && IsRun(exec, s, steps)
    decreases |steps|
  {
    if steps == [] then s else After(exec, Apply(exec, s, steps[0]), steps[1..])
  }
}
