/** What happens when 2^32 messages are sent while a call is outstanding: its reply is handed
    to a newer call, which then returns although nothing was done for it. */
module RpcWrap {
  import opened Bytes
  import opened Messages
  import opened Stub
  import opened Rpc
  import opened RpcInvariant
  import opened RpcSteps
  import opened RpcSafety
  import opened RpcCompletion
  import MessageLaws

  // ----- Sending many times -----

  function Copies(step: Step, n: nat): (steps: seq<Step>)
    ensures |steps| == n
  {
    if n == 0 then [] else [step] + Copies(step, n - 1)
  }

  ghost function SentMany(conn: Conn, body: Message, now: nat, n: nat): Conn
    decreases n
  {
    if n == 0 then conn else SentMany(Sent(conn, body, now), body, now, n - 1)
  }

  lemma {:induction false} SentManyIs(conn: Conn, body: Message, now: nat, n: nat)
    ensures var conn' := SentMany(conn, body, now, n);
      && |conn'.calls| == |conn.calls| + n
      && (forall k | 0 <= k < |conn.calls| :: conn'.calls[k] == conn.calls[k])
      && (forall k | |conn.calls| <= k < |conn'.calls| ::
            && conn'.calls[k].phase.Listening? && conn'.calls[k].inbox == []
            && conn'.calls[k].request == body.WithId(conn'.calls[k].request.requestId))
      && conn'.tasks == conn.tasks && conn'.downBuffer == conn.downBuffer && conn'.downMsgs == conn.downMsgs
    decreases n
  {
    hide Encode, Message.WithId;
    if n > 0 {
      SentManyIs(Sent(conn, body, now), body, now, n - 1);
      SentOne(conn, body, now);
    }
  }

  lemma SentOne(conn: Conn, body: Message, now: nat)
    ensures Sent(conn, body, now).calls[|conn.calls|].request
            == body.WithId(Sent(conn, body, now).calls[|conn.calls|].request.requestId)
  {
    hide Encode;
  }

  lemma {:induction false} SendRun<B(!new)>(exec: Exec<B>, s: Sys<B>, c: nat, body: Message, n: nat)
    requires Sane(exec) && c < |s.conns| && WellSized(body)
    ensures IsRun(exec, s, Copies(Send(c, body), n))
    ensures After(exec, s, Copies(Send(c, body), n))
            == s.(conns := s.conns[c := SentMany(s.conns[c], body, |s.log|, n)])
    decreases n
  {
    hide Sent, WellSized;
    if n == 0 {
      assert s.conns[c := s.conns[c]] == s.conns;
    } else {
      var steps := Copies(Send(c, body), n);
      assert steps[0] == Send(c, body) && steps[1..] == Copies(Send(c, body), n - 1);
      var s1 := Apply(exec, s, Send(c, body));
      SendRun(exec, s1, c, body, n - 1);
      assert s1.conns[c] == Sent(s.conns[c], body, |s.log|);
    }
  }

  // ----- A reply in the wrong hands -----

  /** The first reply on the wire, and how many more messages make the counter come round to
      its id. */
  ghost function UntilReuse(conn: Conn): nat
    requires conn.downMsgs != [] && |conn.calls| - conn.downMsgs[0].call <= IDS
  {
    IDS + 1 - (|conn.calls| - conn.downMsgs[0].call)
  }

  lemma ReplyInFront<B(!new)>(exec: Exec<B>, b0: B, s: Sys<B>, c: nat)
    requires Sane(exec) && Reachable(exec, b0, s) && CanStep(s, Route(c))
    ensures s.conns[c].downMsgs != [] && s.conns[c].downMsgs[0].call < |s.conns[c].calls|
    ensures IdsOk(s.conns[c]) && ListenOk(s.conns[c])
    ensures s.conns[c].downMsgs[0].m == Decode(s.conns[c].downBuffer).value
    ensures s.conns[c].downMsgs[0].m.requestId == s.conns[c].downMsgs[0].call % IDS
  {
    hide Decode, Reachable, UpOk, DownOk, IdsOk, ListenOk, Conserved;
    ReachableInv(exec, b0, s);
    assert ConnInv(exec, s.log, c, s.conns[c]);
    FrontReply(s.conns[c]);
  }

  /** Once the counter has come round, the reply is handed to the call that has its id now. */
  lemma RoutedToNewer(conn: Conn)
    requires IdsOk(conn) && ListenOk(conn) && Decode(conn.downBuffer).Got? && conn.downMsgs != []
    requires conn.downMsgs[0].call + IDS + 1 == |conn.calls|
    requires conn.downMsgs[0].m == Decode(conn.downBuffer).value
    requires conn.downMsgs[0].m.requestId == conn.downMsgs[0].call % IDS
    requires var n := conn.calls[|conn.calls| - 1]; n.phase.Listening? && n.inbox == []
    ensures var r, n := conn.downMsgs[0], |conn.calls| - 1;
      && |Received(conn).calls| == |conn.calls|
      && Received(conn).calls[r.call].inbox == conn.calls[r.call].inbox
      && Received(conn).calls[n].phase.Listening? && Received(conn).calls[n].inbox == [r.m]
      && Received(conn).calls[n].request == conn.calls[n].request && Received(conn).tasks == conn.tasks
  {
    hide Decode, IdsOk, ListenOk, Dispatched, Received;
    var r := conn.downMsgs[0];
    assert Newest(conn, r.call) == |conn.calls| - 1;
    DispatchedToNewest(conn, r);
    ReceivedKeeps(conn);
    assert [] + [r.m] == [r.m];
  }

  /** From any reachable state with a reply about to be routed, sending until the counter
      comes round and then routing hands that reply to the newest call and not to its own. */
  lemma Misdelivers<B(!new)>(exec: Exec<B>, b0: B, s: Sys<B>, c: nat, body: Message)
    requires Sane(exec) && Reachable(exec, b0, s) && CanStep(s, Route(c)) && WellSized(body)
    requires s.conns[c].downMsgs != [] && |s.conns[c].calls| - s.conns[c].downMsgs[0].call <= IDS
    ensures var r, sends := s.conns[c].downMsgs[0], Copies(Send(c, body), UntilReuse(s.conns[c]));
      && IsRun(exec, s, sends + [Route(c)])
      && var end := After(exec, s, sends + [Route(c)]);
         && Reachable(exec, b0, end) && |end.conns| == |s.conns| && |end.conns[c].calls| == r.call + IDS + 1
         && r.call < |s.conns[c].calls| && end.conns[c].calls[r.call].inbox == s.conns[c].calls[r.call].inbox
         && end.conns[c].tasks == s.conns[c].tasks
         && var newer := end.conns[c].calls[r.call + IDS];
            newer.phase.Listening? && newer.inbox == [r.m] && newer.request == body.WithId(newer.request.requestId)
  {
    hide Decode, Reachable, Sent, Message.WithId, IdsOk, ListenOk, WellSized, IsRun, After, SentMany, Received;
    var conn := s.conns[c];
    ReplyInFront(exec, b0, s, c);
    var n := UntilReuse(conn);
    var sends := Copies(Send(c, body), n);
    SendRun(exec, s, c, body, n);
    StaysReachable(exec, b0, s, sends);
    var wrapped := After(exec, s, sends);
    SentManyIs(conn, body, |s.log|, n);
    ReplyInFront(exec, b0, wrapped, c);
    RoutedToNewer(wrapped.conns[c]);
    OneStepRun(exec, wrapped, Route(c));
    RunAppends(exec, s, sends, [Route(c)]);
    StaysReachable(exec, b0, s, sends + [Route(c)]);
  }

  // ----- A concrete run -----

  const HELLO := InitReq(0, 0)
  const WELCOME := InitRes(0, true)

  /** One client that has sent its handshake. */
  const GREETED := NEW_CONN.(nextId := 1, calls := [Call(HELLO, [], Listening, multiset{}, 0, 0)],
                             listeners := map[0 := 0])

  ghost function Alone<B>(b: B, log: seq<Entry<B>>, conn: Conn): Sys<B> {
    Sys([conn], Free, b, log)
  }

  ghost function Logged<B>(b: B): seq<Entry<B>> {
    [Entry(0, 0, b, HELLO)]
  }

  /** The handshake has been answered, and the answer is about to be routed. */
  ghost function AnsweredConn(): Conn {
    GREETED.(tasks := [Answering(0, multiset{})], downBuffer := Encode(WELCOME), downMsgs := [Reply(0, WELCOME)])
  }

  lemma Codes()
    ensures WellSized(HELLO) && Decode(Encode(HELLO)) == Got(HELLO, []) && |Encode(HELLO)| > 0
    ensures Decode(Encode(WELCOME)) == Got(WELCOME, []) && |Encode(WELCOME)| > 0
  {
    hide Decode, EncodeTo;
    MessageLaws.RoundTrip(HELLO, []);
    MessageLaws.RoundTrip(WELCOME, []);
    MessageLaws.EncodeAppends(HELLO, []);
    MessageLaws.EncodeAppends(WELCOME, []);
  }

  lemma HelloGoesUp()
    ensures CanMove(NEW_CONN, Send(0, HELLO))
    ensures Moved(NEW_CONN, Send(0, HELLO), 0) == GREETED.(upBytes := Encode(HELLO), upMsgs := [HELLO])
    ensures var conn, n := GREETED.(upBytes := Encode(HELLO), upMsgs := [HELLO]), |Encode(HELLO)|;
            CanMove(conn, DeliverUp(0, n))
            && Moved(conn, DeliverUp(0, n), 0) == GREETED.(upBuffer := Encode(HELLO), upMsgs := [HELLO])
    ensures var conn := GREETED.(upBuffer := Encode(HELLO), upMsgs := [HELLO]);
            CanMove(conn, Spawn(0)) && Moved(conn, Spawn(0), 0) == GREETED.(tasks := [Queued(HELLO)])
  {
    hide Decode, Encode;
    Codes();
    assert [] + Encode(HELLO) == Encode(HELLO);
    assert [HELLO][1..] == [];
  }

  lemma WelcomeGoesDown()
    ensures var conn := GREETED.(tasks := [Answering(0, multiset{WELCOME})]);
            CanMove(conn, Enqueue(0, 0, WELCOME))
            && Moved(conn, Enqueue(0, 0, WELCOME), 0)
               == GREETED.(tasks := [Answering(0, multiset{})], replies := [Reply(0, WELCOME)])
    ensures var conn := GREETED.(tasks := [Answering(0, multiset{})], replies := [Reply(0, WELCOME)]);
            CanMove(conn, Write(0))
            && Moved(conn, Write(0), 0)
               == GREETED.(tasks := [Answering(0, multiset{})], downBytes := Encode(WELCOME), downMsgs := [Reply(0, WELCOME)])
    ensures var n := |Encode(WELCOME)|;
            var conn := GREETED.(tasks := [Answering(0, multiset{})], downBytes := Encode(WELCOME),
                                 downMsgs := [Reply(0, WELCOME)]);
            CanMove(conn, DeliverDown(0, n)) && Moved(conn, DeliverDown(0, n), 0) == AnsweredConn()
    ensures CanMove(AnsweredConn(), Route(0))
  {
    hide Decode, Encode;
    Codes();
    assert [] + Encode(WELCOME) == Encode(WELCOME);
    assert multiset{WELCOME} - multiset{WELCOME} == multiset{};
    assert [Reply(0, WELCOME)][1..] == [];
  }

  lemma StartReachable<B(!new)>(exec: Exec<B>, b0: B)
    requires Sane(exec)
    ensures Reachable(exec, b0, Alone(b0, [], NEW_CONN))
  {
    var s0: Sys<B> := Start(1, b0);
    assert IsRun(exec, s0, []) && After(exec, s0, []) == s0;
    assert s0.conns == [NEW_CONN];
  }

  lemma OneMore<B(!new)>(exec: Exec<B>, b0: B, s: Sys<B>, step: Step)
    requires Sane(exec) && Reachable(exec, b0, s) && CanStep(s, step)
    ensures Reachable(exec, b0, Apply(exec, s, step))
  {
    hide Reachable, CanStep, Apply;
    OneStepRun(exec, s, step);
    StaysReachable(exec, b0, s, [step]);
  }

  lemma MoveAlone<B(!new)>(exec: Exec<B>, b0: B, log: seq<Entry<B>>, conn: Conn, step: Step, conn': Conn)
    requires Sane(exec) && Reachable(exec, b0, Alone(b0, log, conn))
    requires step.c == 0 && !step.Execute? && !step.Finish? && CanMove(conn, step)
    requires forall now :: Moved(conn, step, now) == Moved(conn, step, 0)
    requires Moved(conn, step, 0) == conn'
    ensures Reachable(exec, b0, Alone(b0, log, conn'))
  {
    hide Reachable, CanMove, Moved;
    var s := Alone(b0, log, conn);
    OneMore(exec, b0, s, step);
    assert [conn][0 := conn'] == [conn'];
  }

  lemma Timeless(conn: Conn, step: Step)
    requires CanMove(conn, step) && !step.Execute? && !step.Send? && !step.Return?
    ensures forall now :: Moved(conn, step, now) == Moved(conn, step, 0)
  {
    hide Decode, Await, Encode;
  }

  lemma RequestArrives<B(!new)>(exec: Exec<B>, b0: B)
    requires Sane(exec)
    ensures Reachable(exec, b0, Alone(b0, [], GREETED.(tasks := [Queued(HELLO)])))
  {
    hide Reachable, CanMove, Moved, Encode;
    HelloGoesUp();
    StartReachable(exec, b0);
    var c1 := GREETED.(upBytes := Encode(HELLO), upMsgs := [HELLO]);
    var c2 := GREETED.(upBuffer := Encode(HELLO), upMsgs := [HELLO]);
    OneMore(exec, b0, Alone(b0, [], NEW_CONN), Send(0, HELLO));
    assert [NEW_CONN][0 := c1] == [c1];
    Timeless(c1, DeliverUp(0, |Encode(HELLO)|));
    MoveAlone(exec, b0, [], c1, DeliverUp(0, |Encode(HELLO)|), c2);
    Timeless(c2, Spawn(0));
    MoveAlone(exec, b0, [], c2, Spawn(0), GREETED.(tasks := [Queued(HELLO)]));
  }

  lemma HelloExecutes<B(!new)>(exec: Exec<B>, b0: B)
    requires Sane(exec) && Reachable(exec, b0, Alone(b0, [], GREETED.(tasks := [Queued(HELLO)])))
    ensures Reachable(exec, b0, Alone(b0, Logged(b0), GREETED.(tasks := [Answering(0, multiset{WELCOME})])))
  {
    hide Reachable;
    var s := Alone(b0, [], GREETED.(tasks := [Queued(HELLO)]));
    OneMore(exec, b0, s, Execute(0, 0));
    assert Serve(exec, b0, HELLO) == (b0, [WELCOME]);
    assert multiset([WELCOME]) == multiset{WELCOME};
    var c4 := GREETED.(tasks := [Answering(0, multiset{WELCOME})]);
    assert Executed(exec, b0, [], s.conns[0], 0) == c4;
    assert s.conns[0 := c4] == [c4];
    assert s.log + [Entry(0, 0, b0, HELLO)] == Logged(b0);
    assert Apply(exec, s, Execute(0, 0)) == Alone(b0, Logged(b0), c4);
  }

  lemma ReplyLeaves<B(!new)>(exec: Exec<B>, b0: B)
    requires Sane(exec)
    ensures Reachable(exec, b0, Alone(b0, Logged(b0), AnsweredConn()))
  {
    hide Reachable, CanMove, Moved, Encode, AnsweredConn, Logged;
    RequestArrives(exec, b0);
    HelloExecutes(exec, b0);
    WelcomeGoesDown();
    var c4 := GREETED.(tasks := [Answering(0, multiset{WELCOME})]);
    var c5 := GREETED.(tasks := [Answering(0, multiset{})], replies := [Reply(0, WELCOME)]);
    var c6 := GREETED.(tasks := [Answering(0, multiset{})], downBytes := Encode(WELCOME), downMsgs := [Reply(0, WELCOME)]);
    Timeless(c4, Enqueue(0, 0, WELCOME));
    MoveAlone(exec, b0, Logged(b0), c4, Enqueue(0, 0, WELCOME), c5);
    Timeless(c5, Write(0));
    MoveAlone(exec, b0, Logged(b0), c5, Write(0), c6);
    Timeless(c6, DeliverDown(0, |Encode(WELCOME)|));
    MoveAlone(exec, b0, Logged(b0), c6, DeliverDown(0, |Encode(WELCOME)|), AnsweredConn());
  }

  lemma Welcomed(conn: Conn, k: nat)
    requires k < |conn.calls| && conn.calls[k].phase.Listening? && conn.calls[k].inbox == [WELCOME]
    requires conn.calls[k].request == HELLO.WithId(conn.calls[k].request.requestId)
    ensures CanMove(conn, Return(0, k)) && Await(conn.calls[k].request, conn.calls[k].inbox).value == Connected
  {
  }

  /** Over every backend there is a reachable state in which a call has returned although its
      request was never handled: the promise of linearizability does need the bound. */
  lemma ReturnsUnhandled<B(!new)>(exec: Exec<B>, b0: B) returns (s: Sys<B>)
    requires Sane(exec)
    ensures Reachable(exec, b0, s) && |s.conns| == 1 && |s.conns[0].calls| == IDS + 1
    ensures s.conns[0].calls[IDS].phase == Returned(Connected) && !Handled(s.conns[0], IDS)
  {
    hide Reachable, Decode, Encode, IsRun, After, CanMove, Await, Copies;
    ReplyLeaves(exec, b0);
    WelcomeGoesDown();
    Codes();
    var s0 := Alone(b0, Logged(b0), AnsweredConn());
    Misdelivers(exec, b0, s0, 0, HELLO);
    var s1 := After(exec, s0, Copies(Send(0, HELLO), UntilReuse(AnsweredConn())) + [Route(0)]);
    Welcomed(s1.conns[0], IDS);
    OneMore(exec, b0, s1, Return(0, IDS));
    s := Apply(exec, s1, Return(0, IDS));
  }
}
