/** Progress: with one lock and a bounded reply queue the system never deadlocks, and once no
    more messages are sent every run ends, with every request answered. */
module RpcProgress {
  import opened Messages
  import opened Codec
  import opened Stub
  import opened Rpc
  import opened RpcInvariant
  import opened RpcSteps
  import opened RpcSafety

  // ----- What is left to do -----

  function SumBy<T>(f: T -> nat, s: seq<T>): nat {
    if s == [] then 0 else f(s[0]) + SumBy(f, s[1..])
  }

  lemma {:induction false} SumSplit<T>(f: T -> nat, a: seq<T>, b: seq<T>)
    ensures SumBy(f, a + b) == SumBy(f, a) + SumBy(f, b)
    decreases |a|
  {
    if a == [] {
      assert a + b == b;
    } else {
      var s := a + b;
      assert s[0] == a[0] && s[1..] == a[1..] + b;
      SumSplit(f, a[1..], b);
    }
  }

  lemma SumUpdate<T>(f: T -> nat, s: seq<T>, i: nat, x: T)
    requires i < |s|
    ensures SumBy(f, s[i := x]) + f(s[i]) == SumBy(f, s) + f(x)
  {
    assert s == s[..i] + ([s[i]] + s[i + 1..]);
    assert s[i := x] == s[..i] + ([x] + s[i + 1..]);
    SumSplit(f, s[..i], [s[i]] + s[i + 1..]);
    SumSplit(f, s[..i], [x] + s[i + 1..]);
    SumSplit(f, [s[i]], s[i + 1..]);
    SumSplit(f, [x], s[i + 1..]);
  }

  lemma SumSnoc<T>(f: T -> nat, s: seq<T>, x: T)
    ensures SumBy(f, s + [x]) == SumBy(f, s) + f(x)
  {
    SumSplit(f, s, [x]);
  }

  ghost function QueuedTask(t: Task): nat { if t.Queued? then 1 else 0 }

  ghost function UnsentOf(t: Task): nat { if t.Answering? then |t.unsent| else 0 }

  ghost function OpenTask(t: Task): nat { if t.Finished? then 0 else 1 }

  ghost function OpenCall(c: Call): nat { if c.phase.Listening? then 1 else 0 }

  /** Messages not yet handled. */
  ghost function Unhandled(conn: Conn): nat {
    |conn.upMsgs| + SumBy(QueuedTask, conn.tasks)
  }

  /** Replies not yet in the reply queue. */
  ghost function Unqueued(conn: Conn): nat {
    SumBy(UnsentOf, conn.tasks)
  }

  ghost function InQueue(conn: Conn): nat {
    |conn.replies|
  }

  /** Messages on the wire, unfinished tasks and waiting callers. A request on the wire
      counts double, since it leaves a task behind. */
  ghost function Unsettled(conn: Conn): nat {
    2 * |conn.upMsgs| + |conn.downMsgs| + SumBy(OpenTask, conn.tasks) + SumBy(OpenCall, conn.calls)
  }

  ghost function Undelivered(conn: Conn): nat {
    |conn.upBytes| + |conn.downBytes|
  }

  /** A step on one connection lowers the first measure it changes. */
  ghost predicate Lower(conn': Conn, conn: Conn) {
    || Unhandled(conn') < Unhandled(conn)
    || (Unhandled(conn') == Unhandled(conn)
        && (|| Unqueued(conn') < Unqueued(conn)
            || (Unqueued(conn') == Unqueued(conn)
                && (|| InQueue(conn') < InQueue(conn)
                    || (InQueue(conn') == InQueue(conn)
                        && (|| Unsettled(conn') < Unsettled(conn)
                            || (Unsettled(conn') == Unsettled(conn) && Undelivered(conn') < Undelivered(conn))))))))
  }

  lemma SpawnLowers(conn: Conn)
    requires Decode(conn.upBuffer).Got? && conn.upMsgs != []
    ensures Lower(Spawned(conn), conn)
  {
    hide Decode;
    var t := Queued(Decode(conn.upBuffer).value);
    SumSnoc(QueuedTask, conn.tasks, t);
    SumSnoc(UnsentOf, conn.tasks, t);
    SumSnoc(OpenTask, conn.tasks, t);
  }

  lemma TaskLowers(conn: Conn, k: nat, t: Task, conn': Conn)
    requires k < |conn.tasks| && conn'.tasks == conn.tasks[k := t] && conn'.upMsgs == conn.upMsgs
    ensures Unhandled(conn') + QueuedTask(conn.tasks[k]) == Unhandled(conn) + QueuedTask(t)
    ensures Unqueued(conn') + UnsentOf(conn.tasks[k]) == Unqueued(conn) + UnsentOf(t)
    ensures conn'.downMsgs == conn.downMsgs && conn'.calls == conn.calls ==>
              Unsettled(conn') + OpenTask(conn.tasks[k]) == Unsettled(conn) + OpenTask(t)
  {
    SumUpdate(QueuedTask, conn.tasks, k, t);
    SumUpdate(UnsentOf, conn.tasks, k, t);
    SumUpdate(OpenTask, conn.tasks, k, t);
  }

  lemma CallLowers(conn: Conn, k: nat, call: Call)
    requires k < |conn.calls|
    ensures var conn' := WithCall(conn, k, call);
      && Unhandled(conn') == Unhandled(conn) && Unqueued(conn') == Unqueued(conn) && InQueue(conn') == InQueue(conn)
      && Unsettled(conn') + OpenCall(conn.calls[k]) == Unsettled(conn) + OpenCall(call)
  {
    SumUpdate(OpenCall, conn.calls, k, call);
  }

  lemma {:induction false} SumSame<T>(f: T -> nat, s: seq<T>, t: seq<T>)
    requires |s| == |t| && forall i | 0 <= i < |s| :: f(s[i]) == f(t[i])
    ensures SumBy(f, s) == SumBy(f, t)
    decreases |s|
  {
    if s != [] {
      SumSame(f, s[1..], t[1..]);
    }
  }

  lemma RouteLowers(conn: Conn)
    requires DownOk(conn) && |conn.tasks| <= |conn.calls|
    requires Decode(conn.downBuffer).Got?
    ensures Lower(Received(conn), conn)
  {
    hide Decode, DownOk, Dispatched, Received;
    FrontReply(conn);
    ReceivedKeeps(conn);
    SumSame(OpenCall, Received(conn).calls, conn.calls);
  }

  lemma EnqueueLowers(conn: Conn, k: nat, m: Message)
    requires k < |conn.tasks| && conn.tasks[k].Answering? && m in conn.tasks[k].unsent
    ensures Lower(Enqueued(conn, k, m), conn)
  {
    TaskLowers(conn, k, conn.tasks[k].(unsent := conn.tasks[k].unsent - multiset{m}), Enqueued(conn, k, m));
  }

  lemma FinishLowers(conn: Conn, k: nat)
    requires k < |conn.tasks| && conn.tasks[k].Answering? && conn.tasks[k].unsent == multiset{}
    ensures Lower(WithTask(conn, k, Finished(conn.tasks[k].at)), conn)
  {
    TaskLowers(conn, k, Finished(conn.tasks[k].at), WithTask(conn, k, Finished(conn.tasks[k].at)));
  }

  lemma MovedLowers(conn: Conn, step: Step, now: nat)
    requires IdsOk(conn) && UpOk(conn) && DownOk(conn) && |conn.tasks| <= |conn.calls|
    requires CanMove(conn, step) && !step.Execute? && !step.Send?
    ensures Lower(Moved(conn, step, now), conn)
  {
    hide Decode, Await, WellSized, IdsOk, DownOk, Received, Spawned, Enqueued, WithTask, EncodeAll;
    match step
    case Spawn(_) =>
      assert conn.upMsgs != [] by { StreamFront(conn); }
      SpawnLowers(conn);
    case Enqueue(_, k, m) =>
      EnqueueLowers(conn, k, m);
    case Finish(_, k) =>
      FinishLowers(conn, k);
    case Return(_, k) =>
      CallLowers(conn, k, Moved(conn, step, now).calls[k]);
    case Abandon(_, k) =>
      CallLowers(conn, k, Moved(conn, step, now).calls[k]);
    case Route(_) => RouteLowers(conn);
    case _ =>
  }

  lemma StreamFront(conn: Conn)
    requires IdsOk(conn) && UpOk(conn) && DownOk(conn)
    ensures Decode(conn.upBuffer).Got? ==> conn.upMsgs != []
    ensures conn.upBytes == [] && conn.upMsgs != [] ==> Decode(conn.upBuffer).Got?
    ensures conn.downBytes == [] && conn.downMsgs != [] ==> Decode(conn.downBuffer).Got?
  {
    hide Decode, WellSized, EncodeAll;
    StreamsSized(conn);
    FrontOfStream(conn.upMsgs, conn.upBuffer, conn.upBytes);
    FrontOfStream(Plain(conn.downMsgs), conn.downBuffer, conn.downBytes);
  }

  lemma ExecuteLowers<B(!new)>(exec: Exec<B>, b: B, log: seq<Entry<B>>, conn: Conn, k: nat)
    requires Sane(exec) && k < |conn.tasks| && conn.tasks[k].Queued?
    ensures Unhandled(Executed(exec, b, log, conn, k)) < Unhandled(conn)
  {
    hide Serve;
    TaskLowers(conn, k, Executed(exec, b, log, conn, k).tasks[k], Executed(exec, b, log, conn, k));
  }

  // ----- The whole system -----

  /** What is left to do, most significant first. */
  ghost function Left<B>(s: Sys<B>): (nat, nat, nat, nat, nat) {
    (SumBy(Unhandled, s.conns), SumBy(Unqueued, s.conns), SumBy(InQueue, s.conns),
     SumBy(Unsettled, s.conns), SumBy(Undelivered, s.conns))
  }

  ghost predicate Fewer(a: (nat, nat, nat, nat, nat), b: (nat, nat, nat, nat, nat)) {
    || a.0 < b.0
    || (a.0 == b.0
        && (|| a.1 < b.1
            || (a.1 == b.1
                && (|| a.2 < b.2
                    || (a.2 == b.2
                        && (|| a.3 < b.3
                            || (a.3 == b.3 && a.4 < b.4)))))))
  }

  lemma LeftAfter<B>(s: Sys<B>, s': Sys<B>, c: nat, conn: Conn)
    requires c < |s.conns| && s'.conns == s.conns[c := conn]
    ensures Lower(conn, s.conns[c]) ==> Fewer(Left(s'), Left(s))
  {
    hide Unhandled, Unqueued, InQueue, Unsettled, Undelivered, SumBy;
    SumUpdate(Unhandled, s.conns, c, conn);
    SumUpdate(Unqueued, s.conns, c, conn);
    SumUpdate(InQueue, s.conns, c, conn);
    SumUpdate(Unsettled, s.conns, c, conn);
    SumUpdate(Undelivered, s.conns, c, conn);
  }

  /** Every step but sending leaves less to do. */
  lemma StepLowers<B(!new)>(exec: Exec<B>, b0: B, s: Sys<B>, step: Step)
    requires Sane(exec) && Inv(exec, b0, s) && CanStep(s, step) && !step.Send?
    ensures Fewer(Left(Apply(exec, s, step)), Left(s))
  {
    hide Serve, CanMove, Moved, Executed, Left, Fewer, Lower, IdsOk, UpOk, DownOk, ListenOk;
    var conn := s.conns[step.c];
    assert ConnInv(exec, s.log, step.c, conn);
    CallsCoverTasks(exec, s);
    if step.Execute? {
      CanExecute(conn, step);
      var after := Executed(exec, s.backend, s.log, conn, step.k);
      ExecuteLowers(exec, s.backend, s.log, conn, step.k);
      FirstLower(after, conn);
      LeftAfter(s, Apply(exec, s, step), step.c, after);
    } else {
      MovedLowers(conn, step, |s.log|);
      LeftAfter(s, Apply(exec, s, step), step.c, Moved(conn, step, |s.log|));
    }
  }

  lemma FirstLower(conn': Conn, conn: Conn)
    requires Unhandled(conn') < Unhandled(conn)
    ensures Lower(conn', conn)
  {
  }

  // ----- Ids stay unambiguous -----

  lemma OutstandingShrinks(conn: Conn, step: Step, now: nat)
    requires CanMove(conn, step) && !step.Execute? && !step.Send?
    ensures |Moved(conn, step, now).calls| == |conn.calls|
    ensures forall k | Outstanding(Moved(conn, step, now), k) :: Outstanding(conn, k)
  {
    hide Decode, Await, WellSized, Encode, Spawned, Received;
    match step
    case Spawn(_) => SpawnedOutstanding(conn);
    case Route(_) => ReceivedOutstanding(conn);
    case Enqueue(_, k, m) =>
      assert forall r | r in conn.replies + [Reply(k, m)] :: r in conn.replies || r == Reply(k, m);
    case Write(_) =>
      assert conn.replies == [conn.replies[0]] + conn.replies[1..];
    case _ =>
  }

  lemma SpawnedOutstanding(conn: Conn)
    requires Decode(conn.upBuffer).Got?
    ensures |Spawned(conn).calls| == |conn.calls|
    ensures forall k | Outstanding(Spawned(conn), k) :: Outstanding(conn, k)
  {
    hide Decode;
  }

  lemma ReceivedOutstanding(conn: Conn)
    requires Decode(conn.downBuffer).Got?
    ensures |Received(conn).calls| == |conn.calls|
    ensures forall k | Outstanding(Received(conn), k) :: Outstanding(conn, k)
  {
    hide Decode;
    var conn' := Received(conn);
    assert conn'.tasks == conn.tasks && conn'.replies == conn.replies && conn'.downMsgs == Tail(conn.downMsgs);
    assert forall r | r in Tail(conn.downMsgs) :: r in conn.downMsgs;
  }

  lemma ExecutedOutstanding<B(!new)>(exec: Exec<B>, b: B, log: seq<Entry<B>>, conn: Conn, k: nat)
    requires Sane(exec) && k < |conn.tasks| && conn.tasks[k].Queued?
    ensures |Executed(exec, b, log, conn, k).calls| == |conn.calls|
    ensures forall j | Outstanding(Executed(exec, b, log, conn, k), j) :: Outstanding(conn, j)
  {
    hide Serve;
  }

  /** Only sending can bring an outstanding id closer to reuse. */
  lemma StaysUnwrapped<B(!new)>(exec: Exec<B>, s: Sys<B>, step: Step)
    requires Sane(exec) && Unwrapped(s) && CanStep(s, step) && !step.Send?
    ensures Unwrapped(Apply(exec, s, step))
  {
    hide Serve, CanMove, Moved, Executed, Outstanding;
    var conn, s' := s.conns[step.c], Apply(exec, s, step);
    assert NoWrap(conn);
    if step.Execute? {
      CanExecute(conn, step);
      ExecutedOutstanding(exec, s.backend, s.log, conn, step.k);
    } else {
      OutstandingShrinks(conn, step, |s.log|);
    }
    assert NoWrap(s'.conns[step.c]);
  }

  // ----- Termination -----

  /** No run goes on for ever without sending: from any good state, infinitely many steps
      of any other kind are impossible. */
  lemma {:induction false} NoInfiniteRun<B(!new)>(exec: Exec<B>, b0: B, states: nat -> Sys<B>, steps: nat -> Step, n: nat)
    requires Sane(exec) && Inv(exec, b0, states(n))
    requires forall i: nat :: CanStep(states(i), steps(i)) && !steps(i).Send?
    requires forall i: nat :: states(i + 1) == Apply(exec, states(i), steps(i))
    ensures false
    decreases Left(states(n)).0, Left(states(n)).1, Left(states(n)).2, Left(states(n)).3, Left(states(n)).4
  {
    hide Inv, CanStep, Apply, Left;
    StepKeeps(exec, b0, states(n), steps(n));
    StepLowers(exec, b0, states(n), steps(n));
    NoInfiniteRun(exec, b0, states, steps, n + 1);
  }

  // ----- No deadlock -----

  /** A step the system takes by itself: neither a new message nor a caller giving up. */
  predicate OwnStep(step: Step) {
    !step.Send? && !step.Abandon?
  }

  ghost predicate Quiet(conn: Conn) {
    && conn.upBytes == [] && conn.downBytes == [] && conn.upMsgs == [] && conn.downMsgs == [] && conn.replies == []
  }

  /** A connection with anything in flight has a step of its own. */
  lemma FlightMoves(conn: Conn, c: nat) returns (step: Step)
    requires IdsOk(conn) && UpOk(conn) && DownOk(conn) && !Quiet(conn)
    ensures step.c == c && OwnStep(step) && !step.Execute? && CanMove(conn, step)
  {
    hide Decode, WellSized, EncodeAll, IdsOk, UpOk, DownOk, Await;
    StreamFront(conn);
    if conn.upBytes != [] {
      step := DeliverUp(c, |conn.upBytes|);
    } else if conn.downBytes != [] {
      step := DeliverDown(c, |conn.downBytes|);
    } else if conn.upMsgs != [] {
      step := Spawn(c);
    } else if conn.downMsgs != [] {
      step := Route(c);
    } else {
      step := Write(c);
    }
  }

  /** With nothing queued, a task that is answering can go on: the queue has room. */
  lemma AnsweringMoves(conn: Conn, c: nat, k: nat) returns (step: Step)
    requires conn.replies == [] && k < |conn.tasks| && conn.tasks[k].Answering?
    ensures step.c == c && OwnStep(step) && !step.Execute? && CanMove(conn, step)
  {
    hide Decode, WellSized, Await;
    if conn.tasks[k].unsent == multiset{} {
      step := Finish(c, k);
    } else {
      var m :| m in conn.tasks[k].unsent;
      step := Enqueue(c, k, m);
    }
  }

  /** With nothing in flight and every task finished, a waiting request has its answer. */
  lemma SettledReturns<B(!new)>(exec: Exec<B>, log: seq<Entry<B>>, c: nat, conn: Conn, k: nat)
    requires Sane(exec) && ConnInv(exec, log, c, conn) && InboxesOk(conn) && Quiet(conn)
    requires forall j | 0 <= j < |conn.tasks| :: conn.tasks[j].Finished?
    requires k < |conn.calls| && conn.calls[k].phase.Listening? && IsRequest(conn.calls[k].request)
    ensures CanMove(conn, Return(c, k))
  {
    hide Serve, Await, Deserved, WellSized, IsRequest, EncodeAll, ListenOk;
    var m, inbox := conn.calls[k].request, conn.calls[k].inbox;
    var e := log[conn.tasks[k].at];
    assert Accounted(conn, k) == Expected(exec, log, conn, k);
    assert multiset(inbox) == multiset(Serve(exec, e.before, m).1);
    CallTransparency(exec, e.before, m, inbox);
  }

  /** Nothing in flight, and every message the server was sent handled to the end. */
  ghost predicate Settled<B>(s: Sys<B>) {
    forall c | 0 <= c < |s.conns| ::
      Quiet(s.conns[c]) && forall k | 0 <= k < |s.conns[c].tasks| :: s.conns[c].tasks[k].Finished?
  }

  /** Whatever the lock and the queues look like, and whatever has become of the ids: until
      everything in flight has arrived and every task has finished, some step other than
      sending or giving up can be taken. */
  lemma UnsettledMoves<B(!new)>(exec: Exec<B>, b0: B, s: Sys<B>) returns (step: Step)
    requires Sane(exec) && Inv(exec, b0, s) && !Settled(s)
    ensures OwnStep(step) && CanStep(s, step)
  {
    hide ConnInv, NeedsLock, CanMove, Quiet, EntriesOk, Legal;
    if d :| 0 <= d < |s.conns| && !Quiet(s.conns[d]) {
      assert ConnInv(exec, s.log, d, s.conns[d]);
      Streams(exec, s.log, d, s.conns[d]);
      step := FlightMoves(s.conns[d], d);
    } else if d, j :| 0 <= d < |s.conns| && 0 <= j < |s.conns[d].tasks| && s.conns[d].tasks[j].Answering? {
      assert Quiet(s.conns[d]);
      QuietQueue(s.conns[d]);
      step := AnsweringMoves(s.conns[d], d, j);
    } else {
      var d, j :| 0 <= d < |s.conns| && 0 <= j < |s.conns[d].tasks| && s.conns[d].tasks[j].Queued?;
      assert s.lock.Free?;
      step := Execute(d, j);
      QueuedMoves(s.conns[d], d, j);
    }
  }

  /** No deadlock. As long as no id is reused while outstanding: while some request is
      unanswered and its caller waiting, some step other than sending or giving up can be
      taken, whatever the lock and the queues look like. */
  lemma NoDeadlock<B(!new)>(exec: Exec<B>, b0: B, s: Sys<B>, c: nat, k: nat) returns (step: Step)
    requires Sane(exec) && Inv(exec, b0, s) && Faithful(exec, s) && c < |s.conns| && k < |s.conns[c].calls|
    requires s.conns[c].calls[k].phase.Listening? && IsRequest(s.conns[c].calls[k].request)
    ensures OwnStep(step) && CanStep(s, step)
  {
    hide ConnInv, IsRequest, CanMove, Quiet, ResultsOk;
    if !Settled(s) {
      step := UnsettledMoves(exec, b0, s);
    } else {
      assert ConnInv(exec, s.log, c, s.conns[c]) && ConnFaithful(exec, s.log, s.conns[c]);
      SettledReturns(exec, s.log, c, s.conns[c], k);
      step := Return(c, k);
    }
  }

  lemma Streams<B(!new)>(exec: Exec<B>, log: seq<Entry<B>>, c: nat, conn: Conn)
    requires Sane(exec) && ConnInv(exec, log, c, conn)
    ensures IdsOk(conn) && UpOk(conn) && DownOk(conn)
  {
  }

  lemma QuietQueue(conn: Conn)
    requires Quiet(conn)
    ensures conn.replies == []
  {
  }

  lemma QueuedMoves(conn: Conn, c: nat, k: nat)
    requires k < |conn.tasks| && conn.tasks[k].Queued?
    ensures CanMove(conn, Execute(c, k))
  {
  }

  // ----- Every request is answered -----

  ghost predicate Stuck<B>(s: Sys<B>) {
    forall step | OwnStep(step) :: !CanStep(s, step)
  }

  /** A run that cannot go on by itself has handled every message and delivered every reply. */
  lemma StuckMeansSettled<B(!new)>(exec: Exec<B>, b0: B, s: Sys<B>)
    requires Sane(exec) && Reachable(exec, b0, s) && Stuck(s)
    ensures Settled(s)
  {
    hide Inv, Reachable, CanStep, OwnStep, Settled;
    ReachableInv(exec, b0, s);
    if !Settled(s) {
      var step := UnsettledMoves(exec, b0, s);
    }
  }

  /** And, as long as no id was reused while outstanding, has answered every request whose
      caller still waits. */
  lemma StuckMeansAnswered<B(!new)>(exec: Exec<B>, b0: B, s: Sys<B>, c: nat, k: nat)
    requires Sane(exec) && ReachableUnwrapped(exec, b0, s) && Stuck(s)
    requires c < |s.conns| && k < |s.conns[c].calls| && IsRequest(s.conns[c].calls[k].request)
    ensures !s.conns[c].calls[k].phase.Listening?
  {
    hide Inv, Faithful, Unwrapped, Reachable, ReachableUnwrapped, CanStep, IsRequest, OwnStep;
    ReachableFaithful(exec, b0, s);
    if s.conns[c].calls[k].phase.Listening? {
      var step := NoDeadlock(exec, b0, s, c, k);
    }
  }

  /** From any good state, steps of the system's own lead to a state where none is left: a
      run to completion exists, and by `NoInfiniteRun` every run is one. */
  lemma {:induction false} RunsOut<B(!new)>(exec: Exec<B>, b0: B, s: Sys<B>) returns (steps: seq<Step>)
    requires Sane(exec) && Inv(exec, b0, s)
    ensures IsRun(exec, s, steps) && Stuck(After(exec, s, steps))
    ensures forall i | 0 <= i < |steps| :: OwnStep(steps[i])
    decreases Left(s).0, Left(s).1, Left(s).2, Left(s).3, Left(s).4
  {
    hide Inv, CanStep, Apply, Left, OwnStep;
    if step :| OwnStep(step) && CanStep(s, step) {
      assert !step.Send? by { OwnIsNoSend(step); }
      var s' := Apply(exec, s, step);
      StepKeeps(exec, b0, s, step);
      StepLowers(exec, b0, s, step);
      var more := RunsOut(exec, b0, s');
      steps := [step] + more;
      assert steps[1..] == more;
    } else {
      steps := [];
    }
  }

  /** Such a run never brings an id back into use too early. */
  lemma {:induction false} OwnRunNeverWraps<B(!new)>(exec: Exec<B>, s: Sys<B>, steps: seq<Step>)
    requires Sane(exec) && Unwrapped(s) && IsRun(exec, s, steps)
    requires forall i | 0 <= i < |steps| :: OwnStep(steps[i])
    ensures NeverWraps(exec, s, steps)
    decreases |steps|
  {
    hide Unwrapped, CanStep, Apply, OwnStep;
    if steps != [] {
      OwnIsNoSend(steps[0]);
      StaysUnwrapped(exec, s, steps[0]);
      assert forall i | 0 <= i < |steps[1..]| :: steps[1..][i] == steps[i + 1];
      OwnRunNeverWraps(exec, Apply(exec, s, steps[0]), steps[1..]);
    }
  }

  lemma OwnIsNoSend(step: Step)
    requires OwnStep(step)
    ensures !step.Send? && !step.Abandon?
  {
  }
}
