/** Safety over whole runs: the invariant holds in every reachable state, and with it
    conservation of replies, delivery to the right caller, and linearizability. */
module RpcSafety {
  import opened Bytes
  import opened Messages
  import opened Conversions
  import opened Codec
  import opened Stub
  import opened Rpc
  import opened RpcInvariant
  import opened RpcSteps

  // ----- One step -----

  lemma MovedKeeps<B(!new)>(exec: Exec<B>, log: seq<Entry<B>>, c: nat, conn: Conn, step: Step)
    requires Sane(exec) && ConnInv(exec, log, c, conn)
    requires CanMove(conn, step) && !step.Execute?
    ensures ConnInv(exec, log, c, Moved(conn, step, |log|))
  {
    hide ConnInv, Sent, Spawned, Enqueued, Written, Received, Decode, Await, WithTask, WellSized;
    match step
    case Send(_, body) => SentOk(exec, log, c, conn, body);
    case DeliverUp(_, n) =>
      assert conn.upBuffer + conn.upBytes[..n] + conn.upBytes[n..] == conn.upBuffer + conn.upBytes;
      MovedOk(exec, log, c, conn, Moved(conn, step, |log|));
    case Spawn(_) => SpawnedOk(exec, log, c, conn);
    case Enqueue(_, k, m) => EnqueuedOk(exec, log, c, conn, k, m);
    case Finish(_, k) => FinishedOk(exec, log, c, conn, k);
    case Write(_) => WrittenOk(exec, log, c, conn);
    case DeliverDown(_, n) =>
      assert conn.downBuffer + conn.downBytes[..n] + conn.downBytes[n..] == conn.downBuffer + conn.downBytes;
      MovedOk(exec, log, c, conn, Moved(conn, step, |log|));
    case Route(_) => ReceivedOk(exec, log, c, conn);
    case Return(_, k) =>
      ClosedOk(exec, log, c, conn, k, Returned(Await(conn.calls[k].request, conn.calls[k].inbox).value), |log|);
    case Abandon(_, k) =>
      ReturnMarks(exec, log, c, conn, k);
      ClosedOk(exec, log, c, conn, k, Abandoned, conn.calls[k].returnedAt);
  }

  lemma ReturnMarks<B(!new)>(exec: Exec<B>, log: seq<Entry<B>>, c: nat, conn: Conn, k: nat)
    requires Sane(exec) && ConnInv(exec, log, c, conn) && k < |conn.calls|
    ensures conn.calls[k].returnedAt <= |log|
  {
  }

  /** Steps other than receiving and returning neither hand out replies nor close calls with
      a result, and keep what the log says of every handled task. */
  lemma QuietFaithful<B(!new)>(exec: Exec<B>, log: seq<Entry<B>>, conn: Conn, step: Step)
    requires Sane(exec) && ConnFaithful(exec, log, conn)
    requires CanMove(conn, step) && !step.Execute? && !step.Route? && !step.Return?
    ensures ConnFaithful(exec, log, Moved(conn, step, |log|))
  {
    hide Decode, Encode, WellSized, Await, InboxesOk, ResultsOk, Message.WithId;
    InboxFrame(conn, Moved(conn, step, |log|));
    ResultsFrame(exec, log, conn, log, Moved(conn, step, |log|));
  }

  lemma MovedFaithful<B(!new)>(exec: Exec<B>, log: seq<Entry<B>>, c: nat, conn: Conn, step: Step)
    requires Sane(exec) && ConnInv(exec, log, c, conn) && ConnFaithful(exec, log, conn) && NoWrap(conn)
    requires CanMove(conn, step) && !step.Execute?
    ensures ConnFaithful(exec, log, Moved(conn, step, |log|))
  {
    hide ConnFaithful, NoWrap, Received, Decode, Await, WellSized, Sent, Spawned, Enqueued, Written, WithTask;
    hide IdsOk, UpOk, DownOk, ListenOk, Conserved, LoggedOk;
    match step
    case Route(_) => ReceivedFaithful(exec, log, c, conn);
    case Return(_, _) => ReturnedFaithful(exec, log, c, conn, step);
    case _ => QuietFaithful(exec, log, conn, step);
  }

  /** Outside Execute and Finish no task changes hands: new ones are queued, answering ones
      keep answering, and what the log says of a handled task stays said. */
  ghost predicate TasksKept(conn: Conn, conn': Conn) {
    && |conn.tasks| <= |conn'.tasks| && |conn.calls| <= |conn'.calls|
    && (forall k | 0 <= k < |conn.calls| :: conn'.calls[k].request == conn.calls[k].request)
    && (forall k | 0 <= k < |conn'.tasks| ::
          if k < |conn.tasks| then
            && conn'.tasks[k].Queued? == conn.tasks[k].Queued?
            && conn'.tasks[k].Answering? == conn.tasks[k].Answering?
            && (!conn.tasks[k].Queued? ==> conn'.tasks[k].at == conn.tasks[k].at)
          else conn'.tasks[k].Queued?)
  }

  lemma SentTasks(conn: Conn, body: Message, now: nat)
    ensures TasksKept(conn, Sent(conn, body, now))
  {
    hide Encode, Message.WithId;
  }

  lemma SpawnedTasks(conn: Conn)
    requires Decode(conn.upBuffer).Got?
    ensures TasksKept(conn, Spawned(conn))
  {
    hide Decode;
  }

  lemma ReceivedTasks(conn: Conn)
    requires Decode(conn.downBuffer).Got?
    ensures TasksKept(conn, Received(conn))
  {
    hide Decode, Received, Dispatched;
    ReceivedKeeps(conn);
  }

  lemma MovedTasks(conn: Conn, step: Step, now: nat)
    requires CanMove(conn, step) && !step.Execute? && !step.Finish?
    ensures TasksKept(conn, Moved(conn, step, now))
  {
    hide Decode, Await, WellSized, Encode, Sent, Spawned, Received;
    match step
    case Send(_, body) => SentTasks(conn, body, now);
    case Spawn(_) => SpawnedTasks(conn);
    case Route(_) => ReceivedTasks(conn);
    case _ =>
  }

  lemma MovedLock<B(!new)>(s: Sys<B>, s': Sys<B>, c: nat)
    requires LockOk(s) && EntriesOk(s) && c < |s.conns|
    requires forall d | 0 <= d < |s.conns| :: |s.conns[d].tasks| <= |s.conns[d].calls|
    requires |s'.conns| == |s.conns| && s' == s.(conns := s.conns[c := s'.conns[c]])
    requires TasksKept(s.conns[c], s'.conns[c])
    ensures LockOk(s') && EntriesOk(s')
  {
    hide NeedsLock;
    forall i | 0 <= i < |s'.log|
      ensures var e := s'.log[i];
              e.conn < |s'.conns| && Handled(s'.conns[e.conn], e.call) && s'.conns[e.conn].tasks[e.call].at == i
    {
      assert s'.log[i] == s.log[i];
    }
  }

  lemma FinishLock<B(!new)>(s: Sys<B>, s': Sys<B>, c: nat, k: nat)
    requires LockOk(s) && EntriesOk(s) && c < |s.conns| && k < |s.conns[c].tasks| && s.conns[c].tasks[k].Answering?
    requires s' == s.(conns := s.conns[c := WithTask(s.conns[c], k, Finished(s.conns[c].tasks[k].at))],
                      lock := if s.lock == Held(c, k) then Free else s.lock)
    ensures LockOk(s') && EntriesOk(s')
  {
    hide NeedsLock;
    forall i | 0 <= i < |s'.log|
      ensures var e := s'.log[i];
              e.conn < |s'.conns| && Handled(s'.conns[e.conn], e.call) && s'.conns[e.conn].tasks[e.call].at == i
    {
      assert s'.log[i] == s.log[i];
    }
  }

  lemma ExecuteLock<B(!new)>(exec: Exec<B>, s: Sys<B>, c: nat, k: nat)
    requires Sane(exec) && LockOk(s) && EntriesOk(s)
    requires CanStep(s, Execute(c, k)) && UpOk(s.conns[c])
    ensures var s' := Apply(exec, s, Execute(c, k)); LockOk(s') && EntriesOk(s')
  {
    hide Serve, NeedsLock, EncodeAll;
    var s' := Apply(exec, s, Execute(c, k));
    forall i | 0 <= i < |s'.log|
      ensures var e := s'.log[i];
              e.conn < |s'.conns| && Handled(s'.conns[e.conn], e.call) && s'.conns[e.conn].tasks[e.call].at == i
    {
      if i < |s.log| {
        assert s'.log[i] == s.log[i];
      }
    }
  }

  lemma ExecuteKeeps<B(!new)>(exec: Exec<B>, b0: B, s: Sys<B>, step: Step)
    requires Sane(exec) && Inv(exec, b0, s) && CanStep(s, step) && step.Execute?
    ensures Inv(exec, b0, Apply(exec, s, step))
  {
    hide Serve, ConnInv, LockOk, EntriesOk, NeedsLock, CanMove, Moved, Executed;
    var s', c, conn := Apply(exec, s, step), step.c, s.conns[step.c];
    assert ConnInv(exec, s.log, c, conn);
    CallsCoverTasks(exec, s);
    CanExecute(conn, step);
    var e := Entry(c, step.k, s.backend, conn.tasks[step.k].m);
    ExecutedOk(exec, s.backend, s.log, c, conn, step.k);
    forall d | 0 <= d < |s'.conns| && d != c ensures ConnInv(exec, s'.log, d, s'.conns[d]) {
      LogGrows(exec, s.log, e, d, s.conns[d]);
    }
    ConnUp(exec, s.log, c, conn);
    ExecuteLock(exec, s, c, step.k);
    assert s'.log[..|s'.log| - 1] == s.log;
  }

  lemma StepKeeps<B(!new)>(exec: Exec<B>, b0: B, s: Sys<B>, step: Step)
    requires Sane(exec) && Inv(exec, b0, s) && CanStep(s, step)
    ensures Inv(exec, b0, Apply(exec, s, step))
  {
    hide Serve, ConnInv, LockOk, EntriesOk, NeedsLock, CanMove, Moved, Executed;
    var s', c, conn := Apply(exec, s, step), step.c, s.conns[step.c];
    assert ConnInv(exec, s.log, c, conn);
    CallsCoverTasks(exec, s);
    if step.Execute? {
      ExecuteKeeps(exec, b0, s, step);
    } else {
      MovedKeeps(exec, s.log, c, conn, step);
      if step.Finish? {
        CanFinish(conn, step);
        FinishLock(s, s', c, step.k);
      } else {
        MovedTasks(conn, step, |s.log|);
        MovedLock(s, s', c);
      }
    }
  }

  /** And every step from an unwrapped state keeps results and inboxes right. */
  lemma StepFaithful<B(!new)>(exec: Exec<B>, b0: B, s: Sys<B>, step: Step)
    requires Sane(exec) && Inv(exec, b0, s) && Faithful(exec, s) && Unwrapped(s) && CanStep(s, step)
    ensures Faithful(exec, Apply(exec, s, step))
  {
    hide Serve, ConnInv, ConnFaithful, NoWrap, NeedsLock, CanMove, Moved, Executed;
    var s', c, conn := Apply(exec, s, step), step.c, s.conns[step.c];
    assert ConnInv(exec, s.log, c, conn) && ConnFaithful(exec, s.log, conn) && NoWrap(conn);
    if step.Execute? {
      CanExecute(conn, step);
      forall d | 0 <= d < |s'.conns| ensures ConnFaithful(exec, s'.log, s'.conns[d]) {
        assert ConnFaithful(exec, s.log, s.conns[d]);
        if d == c {
          ExecutedFaithful(exec, s.backend, s.log, c, conn, step.k);
        } else {
          LogGrowsFaithful(exec, s.log, Entry(c, step.k, s.backend, conn.tasks[step.k].m), s.conns[d]);
        }
      }
    } else {
      MovedFaithful(exec, s.log, c, conn, step);
    }
  }

  lemma ExecutedFaithful<B(!new)>(exec: Exec<B>, b: B, log: seq<Entry<B>>, c: nat, conn: Conn, k: nat)
    requires Sane(exec) && ConnFaithful(exec, log, conn) && k < |conn.tasks| && conn.tasks[k].Queued?
    ensures ConnFaithful(exec, log + [Entry(c, k, b, conn.tasks[k].m)], Executed(exec, b, log, conn, k))
  {
    hide Serve, InboxesOk, ResultsOk;
    var conn' := Executed(exec, b, log, conn, k);
    InboxFrame(conn, conn');
    ResultsFrame(exec, log, conn, log + [Entry(c, k, b, conn.tasks[k].m)], conn');
  }

  lemma LogGrowsFaithful<B(!new)>(exec: Exec<B>, log: seq<Entry<B>>, e: Entry<B>, conn: Conn)
    requires Sane(exec) && ConnFaithful(exec, log, conn)
    ensures ConnFaithful(exec, log + [e], conn)
  {
    hide InboxesOk, ResultsOk;
    ResultsFrame(exec, log, conn, log + [e], conn);
  }

  lemma CanExecute(conn: Conn, step: Step)
    requires CanMove(conn, step) && step.Execute?
    ensures step.k < |conn.tasks| && conn.tasks[step.k].Queued?
  {
  }

  lemma CanFinish(conn: Conn, step: Step)
    requires CanMove(conn, step) && step.Finish?
    ensures step.k < |conn.tasks| && conn.tasks[step.k].Answering?
    ensures Moved(conn, step, 0) == WithTask(conn, step.k, Finished(conn.tasks[step.k].at))
    ensures forall now :: Moved(conn, step, now) == Moved(conn, step, 0)
  {
  }

  lemma ConnUp<B(!new)>(exec: Exec<B>, log: seq<Entry<B>>, c: nat, conn: Conn)
    requires Sane(exec) && ConnInv(exec, log, c, conn)
    ensures UpOk(conn)
  {
  }

  lemma CallsCoverTasks<B(!new)>(exec: Exec<B>, s: Sys<B>)
    requires Sane(exec)
    requires forall c | 0 <= c < |s.conns| :: ConnInv(exec, s.log, c, s.conns[c])
    ensures forall d | 0 <= d < |s.conns| :: |s.conns[d].tasks| <= |s.conns[d].calls|
  {
    forall d | 0 <= d < |s.conns| ensures |s.conns[d].tasks| <= |s.conns[d].calls| {
      ConnUp(exec, s.log, d, s.conns[d]);
    }
  }

  lemma StartInv<B(!new)>(exec: Exec<B>, clients: nat, b0: B)
    requires Sane(exec)
    ensures Inv(exec, b0, Start(clients, b0)) && Faithful(exec, Start(clients, b0))
  {
    NewConnInv<B>(exec);
    hide ConnInv, ConnFaithful, Handled, NeedsLock, Serve;
    var s := Start(clients, b0);
    forall c | 0 <= c < |s.conns| ensures ConnInv(exec, s.log, c, s.conns[c]) && ConnFaithful(exec, s.log, s.conns[c]) {
      assert s.conns[c] == NEW_CONN;
    }
  }

  lemma NewConnInv<B(!new)>(exec: Exec<B>)
    requires Sane(exec)
    ensures forall c: nat :: ConnInv(exec, [], c, NEW_CONN)
    ensures ConnFaithful(exec, [], NEW_CONN)
  {
  }

  // ----- Every run -----

  lemma {:induction false} RunKeeps<B(!new)>(exec: Exec<B>, b0: B, s: Sys<B>, steps: seq<Step>)
    requires Sane(exec) && Inv(exec, b0, s) && IsRun(exec, s, steps)
    ensures Inv(exec, b0, After(exec, s, steps))
    decreases |steps|
  {
    hide Inv, CanStep, Apply;
    if steps != [] {
      StepKeeps(exec, b0, s, steps[0]);
      RunKeeps(exec, b0, Apply(exec, s, steps[0]), steps[1..]);
    }
  }

  lemma {:induction false} RunFaithful<B(!new)>(exec: Exec<B>, b0: B, s: Sys<B>, steps: seq<Step>)
    requires Sane(exec) && Inv(exec, b0, s) && Faithful(exec, s) && IsRun(exec, s, steps) && NeverWraps(exec, s, steps)
    ensures Faithful(exec, After(exec, s, steps)) && Unwrapped(After(exec, s, steps))
    decreases |steps|
  {
    hide Inv, Faithful, Unwrapped, CanStep, Apply;
    if steps != [] {
      StepKeeps(exec, b0, s, steps[0]);
      StepFaithful(exec, b0, s, steps[0]);
      RunFaithful(exec, b0, Apply(exec, s, steps[0]), steps[1..]);
    }
  }

  ghost predicate Reachable<B(!new)>(exec: Exec<B>, b0: B, s: Sys<B>)
    requires Sane(exec)
  {
    exists clients, steps: seq<Step> ::
      IsRun(exec, Start(clients, b0), steps) && s == After(exec, Start(clients, b0), steps)
  }

  /** Reachable by a run in which no id is reused while a call under it is outstanding. */
  ghost predicate ReachableUnwrapped<B(!new)>(exec: Exec<B>, b0: B, s: Sys<B>)
    requires Sane(exec)
  {
    exists clients, steps: seq<Step> ::
      && IsRun(exec, Start(clients, b0), steps) && NeverWraps(exec, Start(clients, b0), steps)
      && s == After(exec, Start(clients, b0), steps)
  }

  lemma ReachableInv<B(!new)>(exec: Exec<B>, b0: B, s: Sys<B>)
    requires Sane(exec) && Reachable(exec, b0, s)
    ensures Inv(exec, b0, s)
  {
    hide Inv;
    var clients, steps: seq<Step> :|
      IsRun(exec, Start(clients, b0), steps) && s == After(exec, Start(clients, b0), steps);
    StartInv(exec, clients, b0);
    RunKeeps(exec, b0, Start(clients, b0), steps);
  }

  lemma ReachableFaithful<B(!new)>(exec: Exec<B>, b0: B, s: Sys<B>)
    requires Sane(exec) && ReachableUnwrapped(exec, b0, s)
    ensures Reachable(exec, b0, s) && Inv(exec, b0, s) && Faithful(exec, s) && Unwrapped(s)
  {
    hide Inv, Faithful, Unwrapped;
    var clients, steps: seq<Step> :|
      && IsRun(exec, Start(clients, b0), steps) && NeverWraps(exec, Start(clients, b0), steps)
      && s == After(exec, Start(clients, b0), steps);
    StartInv(exec, clients, b0);
    ReachableInv(exec, b0, s);
    RunFaithful(exec, b0, Start(clients, b0), steps);
  }

  /** The replies to call `k` there are make up the reply set of its one execution, at `i`. */
  ghost predicate RepliesOf<B(!new)>(exec: Exec<B>, s: Sys<B>, c: nat, k: nat, i: nat)
    requires Sane(exec) && c < |s.conns| && k < |s.conns[c].calls|
  {
    && i < |s.log| && s.log[i].conn == c && s.log[i].call == k
    && s.log[i].request == s.conns[c].calls[k].request
    && Accounted(s.conns[c], k) == multiset(Serve(exec, s.log[i].before, s.log[i].request).1)
  }

  /** Conservation. In every reachable state, reused ids or not, the replies to a call that are unsent, queued,
      on the wire, or off it make up exactly its one complete reply set: nothing before it
      is handled, each reply once afterwards. Each carries the call's id, and a message that
      asks for nothing has no replies. */
  lemma Conservation<B(!new)>(exec: Exec<B>, b0: B, s: Sys<B>, c: nat, k: nat)
    requires Sane(exec) && Reachable(exec, b0, s) && c < |s.conns| && k < |s.conns[c].calls|
    ensures !Handled(s.conns[c], k) ==> Accounted(s.conns[c], k) == multiset{}
    ensures Handled(s.conns[c], k) ==> RepliesOf(exec, s, c, k, s.conns[c].tasks[k].at)
    ensures forall m | m in Accounted(s.conns[c], k) :: m.requestId == k % IDS
    ensures !IsRequest(s.conns[c].calls[k].request) ==> Accounted(s.conns[c], k) == multiset{}
  {
    hide Serve, Reachable, IsRequest, WellSized, UpOk, DownOk, ListenOk;
    ReachableInv(exec, b0, s);
    var conn := s.conns[c];
    assert ConnInv(exec, s.log, c, conn);
    assert Accounted(conn, k) == Expected(exec, s.log, conn, k);
    if Handled(conn, k) {
      var e := s.log[conn.tasks[k].at];
      RepliesFit(exec, e.before, e.request);
      SpuriousIsSilent(exec, e.before, e.request);
    }
  }

  /** Response-typed messages sent to the server change nothing and are not answered. */
  lemma SpuriousIsSilent<B(!new)>(exec: Exec<B>, b: B, m: Message)
    requires Sane(exec)
    ensures !IsRequest(m) ==> Serve(exec, b, m) == (b, [])
  {
  }

  /** Id safety. As long as no id is reused while outstanding, a listening call has been
      handed exactly the replies to itself that are off the wire: none of another call's,
      whatever older calls had its id and whatever listeners are stale. */
  lemma DeliveredToCaller<B(!new)>(exec: Exec<B>, b0: B, s: Sys<B>, c: nat, k: nat)
    requires Sane(exec) && ReachableUnwrapped(exec, b0, s) && c < |s.conns| && k < |s.conns[c].calls|
    requires s.conns[c].calls[k].phase.Listening?
    ensures multiset(s.conns[c].calls[k].inbox) == s.conns[c].calls[k].delivered
    ensures multiset(s.conns[c].calls[k].inbox) <= Expected(exec, s.log, s.conns[c], k)
    ensures s.conns[c].calls[k].request.requestId == k % IDS
  {
    hide Serve, Expected, Of, Reachable, ReachableUnwrapped, Unwrapped, ResultsOk;
    ReachableFaithful(exec, b0, s);
    assert ConnInv(exec, s.log, c, s.conns[c]) && ConnFaithful(exec, s.log, s.conns[c]);
    assert Accounted(s.conns[c], k) == Expected(exec, s.log, s.conns[c], k);
  }

  /** Outstanding calls on one connection have pairwise distinct ids, unless 2^32 messages
      have been sent since the older one. */
  lemma OutstandingIdsDiffer<B(!new)>(exec: Exec<B>, b0: B, s: Sys<B>, c: nat, j: nat, k: nat)
    requires Sane(exec) && Reachable(exec, b0, s) && c < |s.conns| && NoWrap(s.conns[c])
    requires j < k && Outstanding(s.conns[c], j) && k < |s.conns[c].calls|
    ensures s.conns[c].calls[j].request.requestId != s.conns[c].calls[k].request.requestId
  {
    hide Outstanding;
    ReachableInv(exec, b0, s);
    assert ConnInv(exec, s.log, c, s.conns[c]);
    OutstandingIsCall(s.conns[c], j);
    RecentIsLatest(s.conns[c], j);
  }

  lemma OutstandingIsCall(conn: Conn, k: nat)
    requires Outstanding(conn, k)
    ensures k < |conn.calls|
  {
  }

  /** The k-th message sent on a connection carries k modulo 2^32. */
  lemma KthMessage<B(!new)>(exec: Exec<B>, b0: B, s: Sys<B>, c: nat, k: nat)
    requires Sane(exec) && Reachable(exec, b0, s) && c < |s.conns| && k < |s.conns[c].calls|
    ensures s.conns[c].calls[k].request.requestId == k % 0x1_0000_0000
  {
    hide Reachable, UpOk, DownOk, ListenOk, Conserved;
    ReachableInv(exec, b0, s);
    assert ConnInv(exec, s.log, c, s.conns[c]);
  }

  /** In every reachable state, routing the next reply hands it to the call it answers, if
      that call is waiting, exactly when fewer than 2^32 messages were sent since that call. */
  lemma RoutedToCaller<B(!new)>(exec: Exec<B>, b0: B, s: Sys<B>, c: nat)
    requires Sane(exec) && Reachable(exec, b0, s) && CanStep(s, Route(c))
    ensures s.conns[c].downMsgs != [] && s.conns[c].downMsgs[0].call < |s.conns[c].calls|
    ensures var conn, r := s.conns[c], s.conns[c].downMsgs[0];
            conn.calls[r.call].phase.Listening? ==>
              (Received(conn).calls[r.call].inbox == conn.calls[r.call].inbox + [r.m]
               <==> |conn.calls| - r.call <= 0x1_0000_0000)
  {
    hide Decode, Reachable, UpOk, DownOk, IdsOk, ListenOk, Conserved, Dispatched, Received;
    ReachableInv(exec, b0, s);
    var conn := s.conns[c];
    assert ConnInv(exec, s.log, c, conn);
    FrontReply(conn);
    var r := conn.downMsgs[0];
    DispatchedToNewest(conn, r);
    ReceivedKeeps(conn);
    assert |conn.calls[r.call].inbox + [r.m]| != |conn.calls[r.call].inbox|;
  }

  /** No stream is ever malformed, in either direction, reused ids or not. */
  lemma NeverMalformed<B(!new)>(exec: Exec<B>, b0: B, s: Sys<B>, c: nat)
    requires Sane(exec) && Reachable(exec, b0, s) && c < |s.conns|
    ensures !Decode(s.conns[c].upBuffer).Malformed? && !Decode(s.conns[c].downBuffer).Malformed?
  {
    hide Decode, EncodeAll, WellSized;
    ReachableInv(exec, b0, s);
    var conn := s.conns[c];
    assert ConnInv(exec, s.log, c, conn);
    StreamsSized(conn);
    FrontOfStream(conn.upMsgs, conn.upBuffer, conn.upBytes);
    FrontOfStream(Plain(conn.downMsgs), conn.downBuffer, conn.downBytes);
  }

  lemma StreamsSized(conn: Conn)
    requires IdsOk(conn) && UpOk(conn) && DownOk(conn)
    ensures AllWellSized(conn.upMsgs) && AllWellSized(Plain(conn.downMsgs))
  {
    hide EncodeAll, WellSized;
    var ms := Plain(conn.downMsgs);
    forall m | m in ms ensures WellSized(m) {
      var i :| 0 <= i < |ms| && ms[i] == m;
      assert ReplyOk(conn, conn.downMsgs[i]);
    }
  }

  // ----- Linearizability -----

  /** The entry at `i` is where the call took effect: after it was sent, before it returned. */
  ghost predicate TookEffect<B(!new)>(exec: Exec<B>, s: Sys<B>, c: nat, k: nat, i: nat)
    requires Sane(exec) && c < |s.conns| && k < |s.conns[c].calls|
  {
    var call := s.conns[c].calls[k];
    && call.sentAt <= i < call.returnedAt && i < |s.log|
    && s.log[i].conn == c && s.log[i].call == k && s.log[i].request == call.request
    && call.phase.Returned? && IsRequest(call.request)
    && call.phase.result == Deserved(exec, s.log[i].before, call.request)
  }

  /** The backend after the `i`-th entry: what the next entry meets, or what there is now. */
  ghost function StateAfter<B>(s: Sys<B>, i: nat): B
    requires i < |s.log|
  {
    if i + 1 < |s.log| then s.log[i + 1].before else s.backend
  }

  /** Handling a message takes the backend from one state to the other: by running the
      operation it asks for, or, if it asks for none, not at all. */
  ghost predicate RunsTo<B(!new)>(exec: Exec<B>, before: B, m: Message, after: B) {
    match OpOf(m)
    case Some(op) => after == exec(before, op).0
    case None => after == before
  }

  /** The backend went from `b0` to where it is by the logged messages alone, in log order. */
  ghost predicate OneHistory<B(!new)>(exec: Exec<B>, b0: B, s: Sys<B>) {
    && (if s.log == [] then s.backend == b0 else s.log[0].before == b0)
    && forall i: nat | i < |s.log| :: RunsTo(exec, s.log[i].before, s.log[i].request, StateAfter(s, i))
  }

  lemma ServeRuns<B(!new)>(exec: Exec<B>, b: B, m: Message)
    requires Sane(exec)
    ensures RunsTo(exec, b, m, Serve(exec, b, m).0)
  {
    hide Replies;
  }

  lemma {:induction false} LegalIsOneHistory<B(!new)>(exec: Exec<B>, b0: B, s: Sys<B>)
    requires Sane(exec) && Legal(exec, b0, s.log, s.backend)
    ensures OneHistory(exec, b0, s)
    decreases |s.log|
  {
    hide Serve, RunsTo;
    if s.log != [] {
      var n := |s.log| - 1;
      var e := s.log[n];
      var earlier := s.(log := s.log[..n], backend := e.before);
      LegalIsOneHistory(exec, b0, earlier);
      ServeRuns(exec, e.before, e.request);
      forall i: nat | i < |s.log| ensures RunsTo(exec, s.log[i].before, s.log[i].request, StateAfter(s, i)) {
        if i < n {
          assert StateAfter(s, i) == StateAfter(earlier, i);
          assert RunsTo(exec, earlier.log[i].before, earlier.log[i].request, StateAfter(earlier, i));
        }
      }
    }
  }

  /** Seriality. In every reachable state, reused ids or not, the backend went from its initial
      state to its present one by running the requests in the order in which they took the
      lock, each from the state the one before it left, and none of them twice. */
  lemma Serial<B(!new)>(exec: Exec<B>, b0: B, s: Sys<B>)
    requires Sane(exec) && Reachable(exec, b0, s)
    ensures OneHistory(exec, b0, s) && Legal(exec, b0, s.log, s.backend)
    ensures forall i, j | 0 <= i < j < |s.log| :: s.log[i].conn != s.log[j].conn || s.log[i].call != s.log[j].call
  {
    hide ConnInv, LockOk, Legal, Reachable, OneHistory;
    ReachableInv(exec, b0, s);
    LegalIsOneHistory(exec, b0, s);
  }

  /** Linearizability. As long as no id is reused while outstanding, moreover, every call that
      has returned took effect in that history at a point between being sent and returning,
      its result being the backend's own answer there, in normal form. */
  lemma Linearizable<B(!new)>(exec: Exec<B>, b0: B, s: Sys<B>)
    requires Sane(exec) && ReachableUnwrapped(exec, b0, s)
    ensures OneHistory(exec, b0, s) && Legal(exec, b0, s.log, s.backend)
    ensures forall i, j | 0 <= i < j < |s.log| :: s.log[i].conn != s.log[j].conn || s.log[i].call != s.log[j].call
    ensures forall c, k | 0 <= c < |s.conns| && 0 <= k < |s.conns[c].calls| && s.conns[c].calls[k].phase.Returned? ::
              exists i :: TookEffect(exec, s, c, k, i)
  {
    hide Deserved, IdsOk, UpOk, DownOk, ListenOk, Conserved, LockOk, Legal, Reachable, ReachableUnwrapped, Unwrapped, OneHistory;
    ReachableFaithful(exec, b0, s);
    Serial(exec, b0, s);
    forall c, k | 0 <= c < |s.conns| && 0 <= k < |s.conns[c].calls| && s.conns[c].calls[k].phase.Returned?
      ensures exists i :: TookEffect(exec, s, c, k, i)
    {
      assert ConnInv(exec, s.log, c, s.conns[c]) && ConnFaithful(exec, s.log, s.conns[c]);
      assert ResultOk(exec, s.log, s.conns[c], k);
      assert TookEffect(exec, s, c, k, s.conns[c].tasks[k].at);
    }
  }

  // ----- Exclusion -----

  /** A task that has run an operation on the backend and is still answering. */
  ghost predicate AtWork<B>(s: Sys<B>, c: nat, k: nat) {
    && c < |s.conns| && k < |s.conns[c].tasks| && k < |s.conns[c].calls|
    && s.conns[c].tasks[k].Answering? && OpOf(s.conns[c].calls[k].request).Some?
  }

  /** Exclusion. In every reachable state at most one task, over all connections, has run an
      operation and not yet put its last reply in the queue. */
  lemma OneAtWork<B(!new)>(exec: Exec<B>, b0: B, s: Sys<B>, c: nat, k: nat, c': nat, k': nat)
    requires Sane(exec) && Reachable(exec, b0, s) && AtWork(s, c, k) && AtWork(s, c', k')
    ensures c == c' && k == k'
  {
    hide Reachable, ConnInv, EntriesOk, Legal, OpOf;
    ReachableInv(exec, b0, s);
    assert NeedsLock(s.conns[c].calls[k].request) && NeedsLock(s.conns[c'].calls[k'].request);
  }

  /** So a request for an operation is run exactly when no other is at work, and the handshake,
      like any message that asks for nothing, at any time. */
  lemma WaitsForTheOther<B(!new)>(exec: Exec<B>, b0: B, s: Sys<B>, c: nat, k: nat)
    requires Sane(exec) && Reachable(exec, b0, s) && c < |s.conns| && k < |s.conns[c].tasks|
    requires s.conns[c].tasks[k].Queued?
    ensures OpOf(s.conns[c].tasks[k].m).Some? ==>
              (CanStep(s, Execute(c, k)) <==> forall c': nat, k': nat :: !AtWork(s, c', k'))
    ensures OpOf(s.conns[c].tasks[k].m).None? ==> CanStep(s, Execute(c, k))
  {
    hide Reachable, ConnInv, EntriesOk, Legal, OpOf;
    ReachableInv(exec, b0, s);
    assert OpOf(s.conns[c].tasks[k].m).Some? <==> NeedsLock(s.conns[c].tasks[k].m);
    if s.lock.Held? {
      assert AtWork(s, s.lock.conn, s.lock.task);
    }
    forall c': nat, k': nat | AtWork(s, c', k') ensures s.lock.Held? {
      assert NeedsLock(s.conns[c'].calls[k'].request);
    }
  }

  /** An INIT_REQ asks for no operation. */
  lemma HandshakeAsksNothing(id: u32, version: u8)
    ensures OpOf(InitReq(id, version)) == None
  {
  }

  // ----- Real time -----

  /** Call `k` on connection `c` returned when the log had at most `n` entries, and call `k'`
      on connection `c'`, if sent yet, was sent when it had at least as many. */
  ghost predicate Before<B>(s: Sys<B>, c: nat, k: nat, c': nat, k': nat, n: nat) {
    && c < |s.conns| && k < |s.conns[c].calls| && c' < |s.conns| && n <= |s.log|
    && s.conns[c].calls[k].phase.Returned? && s.conns[c].calls[k].returnedAt <= n
    && (k' < |s.conns[c'].calls| ==> n <= s.conns[c'].calls[k'].sentAt)
  }

  /** No step changes when an old call was sent or, once it has returned, when it returned. */
  ghost predicate MarksKept(conn: Conn, conn': Conn, now: nat) {
    && |conn.calls| <= |conn'.calls|
    && (forall k | 0 <= k < |conn.calls| ::
          && conn'.calls[k].sentAt == conn.calls[k].sentAt
          && (conn.calls[k].phase.Returned? ==>
                conn'.calls[k].phase.Returned? && conn'.calls[k].returnedAt == conn.calls[k].returnedAt))
    && (forall k | |conn.calls| <= k < |conn'.calls| :: conn'.calls[k].sentAt == now)
  }

  lemma MovedMarks(conn: Conn, step: Step, now: nat)
    requires CanMove(conn, step) && !step.Execute?
    ensures MarksKept(conn, Moved(conn, step, now), now)
  {
    hide Decode, Await, WellSized, Encode, Message.WithId;
  }

  lemma StepBefore<B(!new)>(exec: Exec<B>, s: Sys<B>, step: Step, c: nat, k: nat, c': nat, k': nat, n: nat)
    requires Sane(exec) && CanStep(s, step) && Before(s, c, k, c', k', n)
    ensures Before(Apply(exec, s, step), c, k, c', k', n)
  {
    hide CanMove, Moved, Serve;
    if step.Execute? {
      CanExecute(s.conns[step.c], step);
    } else {
      MovedMarks(s.conns[step.c], step, |s.log|);
    }
  }

  lemma {:induction false} RunBefore<B(!new)>(exec: Exec<B>, s: Sys<B>, steps: seq<Step>, c: nat, k: nat, c': nat, k': nat, n: nat)
    requires Sane(exec) && IsRun(exec, s, steps) && Before(s, c, k, c', k', n)
    ensures Before(After(exec, s, steps), c, k, c', k', n)
    decreases |steps|
  {
    hide CanStep, Apply, Before;
    if steps != [] {
      StepBefore(exec, s, steps[0], c, k, c', k', n);
      RunBefore(exec, Apply(exec, s, steps[0]), steps[1..], c, k, c', k', n);
    }
  }

  /** Real time is respected: if a call has returned in some state of a run, and another, on
      whichever connection, is sent only later in that run, then wherever the two took effect
      the first did so before the second. */
  lemma RealTimeOrder<B(!new)>(exec: Exec<B>, b0: B, s: Sys<B>, steps: seq<Step>,
                               c: nat, k: nat, i: nat, c': nat, k': nat, i': nat)
    requires Sane(exec) && Reachable(exec, b0, s) && IsRun(exec, s, steps)
    requires c < |s.conns| && k < |s.conns[c].calls| && s.conns[c].calls[k].phase.Returned?
    requires c' < |s.conns| && |s.conns[c'].calls| <= k'
    requires var end := After(exec, s, steps);
      && c < |end.conns| && k < |end.conns[c].calls| && TookEffect(exec, end, c, k, i)
      && c' < |end.conns| && k' < |end.conns[c'].calls| && TookEffect(exec, end, c', k', i')
    ensures i < i'
  {
    hide Inv, Reachable, CanStep, Apply, IsRun, After, Deserved, IsRequest;
    ReachableInv(exec, b0, s);
    ReturnedBy(exec, b0, s, c, k);
    RunBefore(exec, s, steps, c, k, c', k', |s.log|);
  }

  lemma ReturnedBy<B(!new)>(exec: Exec<B>, b0: B, s: Sys<B>, c: nat, k: nat)
    requires Sane(exec) && Inv(exec, b0, s) && c < |s.conns| && k < |s.conns[c].calls|
    ensures s.conns[c].calls[k].returnedAt <= |s.log|
  {
    assert ConnInv(exec, s.log, c, s.conns[c]);
  }

  /** The call returned what `op`, run atomically where the call took effect, returns from the
      backend as a stub shows it, and the next in line met the state that `op` leaves. */
  ghost predicate AsIfAtomic<B(!new)>(exec: Exec<B>, s: Sys<B>, c: nat, k: nat, op: Op, i: nat)
    requires Sane(exec) && c < |s.conns| && k < |s.conns[c].calls|
  {
    && TookEffect(exec, s, c, k, i)
    && s.conns[c].calls[k].phase.result == Remote(exec)(s.log[i].before, op).1
    && StateAfter(s, i) == Remote(exec)(s.log[i].before, op).0
  }

  /** Transparency. As long as no id is reused while outstanding, a stub operation that has
      returned gave the same result, in normal form, and left the same state, as running that
      operation atomically on the backend state at its point in the history. */
  lemma Transparency<B(!new)>(exec: Exec<B>, b0: B, s: Sys<B>, c: nat, k: nat, op: Op)
    requires Sane(exec) && ReachableUnwrapped(exec, b0, s) && c < |s.conns| && k < |s.conns[c].calls|
    requires s.conns[c].calls[k].request == Request(op).WithId(k % IDS)
    requires s.conns[c].calls[k].phase.Returned?
    ensures exists i :: AsIfAtomic(exec, s, c, k, op, i)
  {
    hide NormOutcome, NormOp, Request, OpOf, TookEffect, Message.WithId, ReachableUnwrapped, Legal;
    Linearizable(exec, b0, s);
    RequestIsUnderstood(op, k % IDS);
    var i: nat :| TookEffect(exec, s, c, k, i);
    EffectMeans(exec, s, c, k, i);
    NotTheHandshake(op, k % IDS);
    assert RunsTo(exec, s.log[i].before, s.log[i].request, StateAfter(s, i));
    assert AsIfAtomic(exec, s, c, k, op, i);
  }

  lemma EffectMeans<B(!new)>(exec: Exec<B>, s: Sys<B>, c: nat, k: nat, i: nat)
    requires Sane(exec) && c < |s.conns| && k < |s.conns[c].calls| && TookEffect(exec, s, c, k, i)
    ensures i < |s.log| && s.log[i].request == s.conns[c].calls[k].request
    ensures IsRequest(s.conns[c].calls[k].request) && s.conns[c].calls[k].phase.Returned?
    ensures s.conns[c].calls[k].phase.result == Deserved(exec, s.log[i].before, s.conns[c].calls[k].request)
  {
  }

  /** A handshake that has returned was accepted if and only if it proposed version 0. */
  lemma HandshakeTransparency<B(!new)>(exec: Exec<B>, b0: B, s: Sys<B>, c: nat, k: nat, version: u8)
    requires Sane(exec) && ReachableUnwrapped(exec, b0, s) && c < |s.conns| && k < |s.conns[c].calls|
    requires s.conns[c].calls[k].request == InitReq(k % 0x1_0000_0000, version)
    requires s.conns[c].calls[k].phase.Returned?
    ensures s.conns[c].calls[k].phase.result
         == if version == 0 then Connected else Fail(FsError(ConnectionRefused, []))
  {
    hide TookEffect, ReachableUnwrapped, Legal, OneHistory;
    Linearizable(exec, b0, s);
    var i: nat :| TookEffect(exec, s, c, k, i);
    EffectMeans(exec, s, c, k, i);
  }

  lemma NotTheHandshake(op: Op, id: u32)
    ensures !Request(op).WithId(id).InitReq?
  {
  }
}
