/** Each step keeps the invariant of the connection it acts on. */
module RpcSteps {
  import opened Bytes
  import opened Messages
  import opened Codec
  import opened Stub
  import opened Rpc
  import opened RpcInvariant
  import MessageLaws

  lemma {:induction false} OfNone(k: nat, rs: seq<Reply>)
    requires forall i | 0 <= i < |rs| :: rs[i].call != k
    ensures Of(k, rs) == multiset{}
    decreases |rs|
  {
    if rs != [] {
      OfNone(k, rs[1..]);
    }
  }

  // ----- Sending -----

  lemma SizedWithId(m: Message, id: u32)
    requires WellSized(m)
    ensures WellSized(m.WithId(id))
  {
  }

  lemma SentIds(conn: Conn, body: Message, now: nat)
    requires IdsOk(conn) && WellSized(body)
    ensures IdsOk(Sent(conn, body, now))
  {
    hide Encode, WellSized, Message.WithId;
    SizedWithId(body, conn.nextId);
  }

  lemma SentUp(conn: Conn, body: Message, now: nat)
    requires UpOk(conn)
    ensures UpOk(Sent(conn, body, now))
  {
    hide Encode, EncodeAll, Message.WithId;
    var m := body.WithId(conn.nextId);
    EncodeAllSnoc(conn.upMsgs, m);
    assert conn.upBuffer + (conn.upBytes + Encode(m)) == (conn.upBuffer + conn.upBytes) + Encode(m);
  }

  lemma SentListen(conn: Conn, body: Message, now: nat)
    requires IdsOk(conn) && ListenOk(conn)
    ensures ListenOk(Sent(conn, body, now))
  {
    hide Encode, WellSized, Message.WithId;
    var conn' := Sent(conn, body, now);
    var n := |conn.calls|;
    forall id | id in conn'.listeners
      ensures var k := conn'.listeners[id];
              k < |conn'.calls| && conn'.calls[k].request.requestId == id && Latest(conn', k)
    {
    }
    forall k | 0 <= k < |conn'.calls| && conn'.calls[k].phase.Listening? && Latest(conn', k)
      ensures var id := conn'.calls[k].request.requestId; id in conn'.listeners && conn'.listeners[id] == k
    {
      if k < n {
        assert conn'.calls[n].request.requestId != conn'.calls[k].request.requestId;
        forall j | k < j < n ensures conn.calls[j].request.requestId != conn.calls[k].request.requestId {
          assert conn'.calls[j].request.requestId != conn'.calls[k].request.requestId;
        }
        assert Latest(conn, k);
      }
    }
  }

  lemma SentConserved<B(!new)>(exec: Exec<B>, log: seq<Entry<B>>, conn: Conn, body: Message, now: nat)
    requires Sane(exec) && Conserved(exec, log, conn) && DownOk(conn) && |conn.tasks| <= |conn.calls|
    ensures Conserved(exec, log, Sent(conn, body, now))
  {
    hide Encode, EncodeAll, Serve, WellSized, Message.WithId, Of, Accounted, Expected;
    var conn' := Sent(conn, body, now);
    forall k | 0 <= k < |conn'.calls| ensures Accounted(conn', k) == Expected(exec, log, conn', k) {
      if k < |conn.calls| {
        SentAccounted(exec, log, conn, body, now, k);
      } else {
        SentNothingYet(exec, log, conn, body, now);
      }
    }
  }

  lemma SentAccounted<B(!new)>(exec: Exec<B>, log: seq<Entry<B>>, conn: Conn, body: Message, now: nat, k: nat)
    requires Sane(exec) && k < |conn.calls|
    ensures Accounted(Sent(conn, body, now), k) == Accounted(conn, k)
    ensures Expected(exec, log, Sent(conn, body, now), k) == Expected(exec, log, conn, k)
  {
    hide Encode, Serve, Message.WithId, Of;
  }

  lemma SentNothingYet<B(!new)>(exec: Exec<B>, log: seq<Entry<B>>, conn: Conn, body: Message, now: nat)
    requires Sane(exec) && DownOk(conn) && |conn.tasks| <= |conn.calls|
    ensures var conn', n := Sent(conn, body, now), |conn.calls|;
            Accounted(conn', n) == Expected(exec, log, conn', n)
  {
    hide Encode, EncodeAll, Serve, WellSized, Message.WithId;
    var conn', n := Sent(conn, body, now), |conn.calls|;
    OfNone(n, conn.replies);
    OfNone(n, conn.downMsgs);
    assert !Handled(conn', n) && Unsent(conn', n) == multiset{};
  }

  lemma SentLogged<B>(log: seq<Entry<B>>, c: nat, conn: Conn, body: Message)
    requires LoggedOk(log, c, conn)
    ensures LoggedOk(log, c, Sent(conn, body, |log|))
  {
    hide Encode, Message.WithId;
  }

  lemma SentDown(conn: Conn, body: Message, now: nat)
    requires DownOk(conn)
    ensures DownOk(Sent(conn, body, now))
  {
    hide Encode, EncodeAll, WellSized, Message.WithId, Plain;
    forall r ensures ReplyOk(conn, r) ==> ReplyOk(Sent(conn, body, now), r) {
    }
  }

  lemma TasksWithinCalls<B>(log: seq<Entry<B>>, c: nat, conn: Conn)
    requires LoggedOk(log, c, conn)
    ensures |conn.tasks| <= |conn.calls|
  {
  }

  lemma SentOk<B(!new)>(exec: Exec<B>, log: seq<Entry<B>>, c: nat, conn: Conn, body: Message)
    requires Sane(exec) && ConnInv(exec, log, c, conn) && WellSized(body)
    ensures ConnInv(exec, log, c, Sent(conn, body, |log|))
  {
    hide WellSized, IdsOk, UpOk, ListenOk, Conserved, LoggedOk, Sent;
    assert |conn.tasks| <= |conn.calls| by { TasksWithinCalls(log, c, conn); }
    SentDown(conn, body, |log|);
    SentIds(conn, body, |log|);
    SentUp(conn, body, |log|);
    SentListen(conn, body, |log|);
    SentConserved(exec, log, conn, body, |log|);
    SentLogged(log, c, conn, body);
  }

  // ----- Bytes arriving -----

  /** Steps that leave calls, tasks and replies alone leave what was proved of them alone. */
  lemma ServerFrame<B(!new)>(exec: Exec<B>, log: seq<Entry<B>>, conn: Conn, conn': Conn)
    requires Sane(exec) && Conserved(exec, log, conn)
    requires conn'.calls == conn.calls && conn'.tasks == conn.tasks
    requires conn'.replies == conn.replies && conn'.downMsgs == conn.downMsgs
    ensures Conserved(exec, log, conn')
  {
    hide Serve, Of, Expected;
    forall k | 0 <= k < |conn'.calls| ensures Accounted(conn', k) == Expected(exec, log, conn', k) {
      assert Accounted(conn, k) == Expected(exec, log, conn, k);
      SameExpected(exec, log, conn, conn', k);
    }
  }

  lemma SameExpected<B(!new)>(exec: Exec<B>, log: seq<Entry<B>>, conn: Conn, conn': Conn, k: nat)
    requires Sane(exec) && conn'.tasks == conn.tasks
    ensures Expected(exec, log, conn', k) == Expected(exec, log, conn, k)
  {
    hide Serve;
  }

  /** Steps that leave the listeners alone, and wake no caller, leave them right. */
  lemma ListenFrame(conn: Conn, conn': Conn)
    requires ListenOk(conn) && |conn'.calls| == |conn.calls| && conn'.listeners == conn.listeners
    requires forall k | 0 <= k < |conn.calls| ::
               && conn'.calls[k].request == conn.calls[k].request
               && (conn'.calls[k].phase.Listening? ==> conn.calls[k].phase.Listening?)
    ensures ListenOk(conn')
  {
    forall k | 0 <= k < |conn'.calls| ensures Latest(conn', k) <==> Latest(conn, k) {
      forall j | k < j < |conn.calls| ensures conn'.calls[j].request == conn.calls[j].request {
      }
    }
  }

  lemma MovedStreams(conn: Conn, conn': Conn)
    requires UpOk(conn) && DownOk(conn)
    requires conn'.calls == conn.calls && conn'.tasks == conn.tasks && conn'.upMsgs == conn.upMsgs
    requires conn'.replies == conn.replies && conn'.downMsgs == conn.downMsgs
    requires conn'.upBuffer + conn'.upBytes == conn.upBuffer + conn.upBytes
    requires conn'.downBuffer + conn'.downBytes == conn.downBuffer + conn.downBytes
    ensures UpOk(conn') && DownOk(conn')
  {
    hide EncodeAll, Plain, WellSized;
    forall r ensures ReplyOk(conn, r) <==> ReplyOk(conn', r) {
    }
  }

  lemma MovedOk<B(!new)>(exec: Exec<B>, log: seq<Entry<B>>, c: nat, conn: Conn, conn': Conn)
    requires Sane(exec) && ConnInv(exec, log, c, conn)
    requires conn' == conn.(upBytes := conn'.upBytes, upBuffer := conn'.upBuffer,
                            downBytes := conn'.downBytes, downBuffer := conn'.downBuffer)
    requires conn'.upBuffer + conn'.upBytes == conn.upBuffer + conn.upBytes
    requires conn'.downBuffer + conn'.downBytes == conn.downBuffer + conn.downBytes
    ensures ConnInv(exec, log, c, conn')
  {
    hide WellSized, ListenOk, Conserved, UpOk, DownOk;
    ServerFrame(exec, log, conn, conn');
    MovedStreams(conn, conn');
    ListenFrame(conn, conn');
  }

  // ----- Taking messages off a stream -----

  /** The front of a buffer whose stream encodes whole messages is never malformed, is the
      next message as soon as it is complete, and is complete once nothing is in flight. */
  lemma FrontOfStream(ms: seq<Message>, buffer: seq<byte>, bytes: seq<byte>)
    requires AllWellSized(ms) && buffer + bytes == EncodeAll(ms)
    ensures !Decode(buffer).Malformed?
    ensures Decode(buffer).Got? ==>
              ms != [] && Decode(buffer).value == ms[0] && Decode(buffer).rest + bytes == EncodeAll(ms[1..])
    ensures bytes == [] && ms != [] ==> Decode(buffer).Got?
  {
    hide EncodeTo, WellSized, DecodeBody;
    MessageLaws.ExtendDecode(buffer, bytes);
    if ms != [] {
      hide Decode;
      MessageLaws.RoundTrip(ms[0], EncodeAll(ms[1..]));
      if bytes == [] {
        assert buffer + bytes == buffer;
      }
    }
  }

  lemma SpawnedUp(conn: Conn)
    requires IdsOk(conn) && UpOk(conn) && Decode(conn.upBuffer).Got?
    ensures UpOk(Spawned(conn)) && |Spawned(conn).tasks| <= |conn.calls|
  {
    hide Decode, EncodeAll, WellSized;
    assert AllWellSized(conn.upMsgs);
    FrontOfStream(conn.upMsgs, conn.upBuffer, conn.upBytes);
    var conn' := Spawned(conn);
    assert |conn'.tasks| + |conn'.upMsgs| == |conn'.calls|;
    forall i | 0 <= i < |conn'.upMsgs| ensures conn'.upMsgs[i] == conn'.calls[|conn'.tasks| + i].request {
      assert conn'.upMsgs[i] == conn.upMsgs[i + 1];
    }
  }

  /** A new task changes nothing for the tasks before it. */
  lemma SpawnedConserved<B(!new)>(exec: Exec<B>, log: seq<Entry<B>>, conn: Conn)
    requires Sane(exec) && Decode(conn.upBuffer).Got? && Conserved(exec, log, conn)
    ensures Conserved(exec, log, Spawned(conn))
  {
    hide Decode, Serve, Of, Accounted, Expected;
    var conn' := Spawned(conn);
    forall k | 0 <= k < |conn'.calls| ensures Accounted(conn', k) == Expected(exec, log, conn', k) {
      SpawnedAccounted(exec, log, conn, k);
    }
  }

  lemma SpawnedAccounted<B(!new)>(exec: Exec<B>, log: seq<Entry<B>>, conn: Conn, k: nat)
    requires Sane(exec) && Decode(conn.upBuffer).Got? && k < |conn.calls|
    ensures Accounted(Spawned(conn), k) == Accounted(conn, k)
    ensures Expected(exec, log, Spawned(conn), k) == Expected(exec, log, conn, k)
  {
    hide Decode, Serve, Of;
  }

  lemma SpawnedServer<B>(log: seq<Entry<B>>, c: nat, conn: Conn)
    requires Decode(conn.upBuffer).Got? && |conn.tasks| < |conn.calls|
    requires LoggedOk(log, c, conn) && DownOk(conn)
    ensures LoggedOk(log, c, Spawned(conn)) && DownOk(Spawned(conn))
  {
    hide Decode, EncodeAll, WellSized;
    forall r ensures ReplyOk(conn, r) ==> ReplyOk(Spawned(conn), r) {
    }
  }

  lemma SpawnedOk<B(!new)>(exec: Exec<B>, log: seq<Entry<B>>, c: nat, conn: Conn)
    requires Sane(exec) && ConnInv(exec, log, c, conn) && Decode(conn.upBuffer).Got?
    ensures ConnInv(exec, log, c, Spawned(conn))
  {
    SpawnedUp(conn);
    hide Decode, EncodeAll, WellSized, ListenOk, Conserved, UpOk, DownOk, LoggedOk;
    SpawnedConserved(exec, log, conn);
    SpawnedServer(log, c, conn);
    ListenFrame(conn, Spawned(conn));
  }

  // ----- Answering -----

  /** A reply still to be sent is one of the replies to its call. */
  lemma UnsentOk<B(!new)>(exec: Exec<B>, log: seq<Entry<B>>, c: nat, conn: Conn, k: nat, m: Message)
    requires Sane(exec) && Conserved(exec, log, conn) && LoggedOk(log, c, conn) && IdsOk(conn)
    requires k < |conn.tasks| && m in Unsent(conn, k)
    ensures m.requestId == k % IDS && WellSized(m)
  {
    hide WellSized, Serve;
    assert Accounted(conn, k) == Expected(exec, log, conn, k);
    assert m in Expected(exec, log, conn, k);
    var e := log[conn.tasks[k].at];
    assert m in multiset(Serve(exec, e.before, e.request).1);
    RepliesFit(exec, e.before, e.request);
  }

  lemma EnqueuedConserved<B(!new)>(exec: Exec<B>, log: seq<Entry<B>>, conn: Conn, k: nat, m: Message)
    requires Sane(exec) && Conserved(exec, log, conn)
    requires k < |conn.tasks| && conn.tasks[k].Answering? && m in conn.tasks[k].unsent
    ensures Conserved(exec, log, Enqueued(conn, k, m))
  {
    hide Serve, Of, Accounted, Expected;
    var conn' := Enqueued(conn, k, m);
    forall j | 0 <= j < |conn'.calls| ensures Accounted(conn', j) == Expected(exec, log, conn', j) {
      EnqueuedAccounted(conn, k, m, j);
      EnqueuedExpected(exec, log, conn, k, m, j);
    }
  }

  lemma EnqueuedAccounted(conn: Conn, k: nat, m: Message, j: nat)
    requires k < |conn.tasks| && conn.tasks[k].Answering? && m in conn.tasks[k].unsent && j < |conn.calls|
    ensures Accounted(Enqueued(conn, k, m), j) == Accounted(conn, j)
  {
    OfAppend(j, conn.replies, [Reply(k, m)]);
    OfOne(j, Reply(k, m));
    hide Of;
    if j == k {
      MoveOver(conn.tasks[k].unsent, m, Of(j, conn.replies), Of(j, conn.downMsgs), conn.calls[j].delivered);
    }
  }

  lemma MoveOver(a: multiset<Message>, m: Message, b: multiset<Message>, c: multiset<Message>, d: multiset<Message>)
    requires m in a
    ensures (a - multiset{m}) + (b + multiset{m}) + c + d == a + b + c + d
  {
  }

  lemma EnqueuedExpected<B(!new)>(exec: Exec<B>, log: seq<Entry<B>>, conn: Conn, k: nat, m: Message, j: nat)
    requires Sane(exec) && k < |conn.tasks| && conn.tasks[k].Answering?
    ensures Expected(exec, log, Enqueued(conn, k, m), j) == Expected(exec, log, conn, j)
  {
    hide Serve;
  }

  lemma TaskFrame<B>(log: seq<Entry<B>>, c: nat, conn: Conn, conn': Conn)
    requires LoggedOk(log, c, conn)
    requires conn'.calls == conn.calls && |conn'.tasks| == |conn.tasks|
    requires forall k | 0 <= k < |conn.tasks| ::
               conn'.tasks[k] == conn.tasks[k]
               || (!conn.tasks[k].Queued? && !conn'.tasks[k].Queued? && conn'.tasks[k].at == conn.tasks[k].at)
    ensures LoggedOk(log, c, conn')
  {
  }

  lemma EnqueuedOk<B(!new)>(exec: Exec<B>, log: seq<Entry<B>>, c: nat, conn: Conn, k: nat, m: Message)
    requires Sane(exec) && ConnInv(exec, log, c, conn)
    requires k < |conn.tasks| && conn.tasks[k].Answering? && m in conn.tasks[k].unsent
    requires |conn.replies| < REPLY_QUEUE_CAPACITY
    ensures ConnInv(exec, log, c, Enqueued(conn, k, m))
  {
    hide WellSized, EncodeAll, Conserved, ListenOk, LoggedOk;
    var conn' := Enqueued(conn, k, m);
    UnsentOk(exec, log, c, conn, k, m);
    EnqueuedConserved(exec, log, conn, k, m);
    TaskFrame(log, c, conn, conn');
    ListenFrame(conn, conn');
    forall r ensures ReplyOk(conn, r) ==> ReplyOk(conn', r) {
    }
  }

  lemma FinishedConserved<B(!new)>(exec: Exec<B>, log: seq<Entry<B>>, conn: Conn, k: nat)
    requires Sane(exec) && Conserved(exec, log, conn)
    requires k < |conn.tasks| && conn.tasks[k].Answering? && conn.tasks[k].unsent == multiset{}
    ensures Conserved(exec, log, WithTask(conn, k, Finished(conn.tasks[k].at)))
  {
    var conn' := WithTask(conn, k, Finished(conn.tasks[k].at));
    hide Serve, Of, Accounted, Expected;
    forall j | 0 <= j < |conn'.calls| ensures Accounted(conn', j) == Expected(exec, log, conn', j) {
      FinishedAccounted(exec, log, conn, k, j);
    }
  }

  lemma FinishedAccounted<B(!new)>(exec: Exec<B>, log: seq<Entry<B>>, conn: Conn, k: nat, j: nat)
    requires Sane(exec) && j < |conn.calls|
    requires k < |conn.tasks| && conn.tasks[k].Answering? && conn.tasks[k].unsent == multiset{}
    ensures var conn' := WithTask(conn, k, Finished(conn.tasks[k].at));
            && Accounted(conn', j) == Accounted(conn, j)
            && Expected(exec, log, conn', j) == Expected(exec, log, conn, j)
  {
    hide Serve, Of;
  }

  lemma FinishedOk<B(!new)>(exec: Exec<B>, log: seq<Entry<B>>, c: nat, conn: Conn, k: nat)
    requires Sane(exec) && ConnInv(exec, log, c, conn)
    requires k < |conn.tasks| && conn.tasks[k].Answering? && conn.tasks[k].unsent == multiset{}
    ensures ConnInv(exec, log, c, WithTask(conn, k, Finished(conn.tasks[k].at)))
  {
    hide WellSized, EncodeAll, ListenOk, LoggedOk, Conserved;
    var conn' := WithTask(conn, k, Finished(conn.tasks[k].at));
    FinishedConserved(exec, log, conn, k);
    TaskFrame(log, c, conn, conn');
    ListenFrame(conn, conn');
    forall r ensures ReplyOk(conn, r) ==> ReplyOk(conn', r) {
    }
  }

  // ----- The writer -----

  lemma WrittenDown(conn: Conn)
    requires DownOk(conn) && conn.replies != []
    ensures DownOk(Written(conn))
  {
    hide WellSized, Encode, EncodeAll;
    var conn', r := Written(conn), conn.replies[0];
    assert Plain(conn'.downMsgs) == Plain(conn.downMsgs) + [r.m];
    EncodeAllSnoc(Plain(conn.downMsgs), r.m);
    assert conn.downBuffer + (conn.downBytes + Encode(r.m)) == (conn.downBuffer + conn.downBytes) + Encode(r.m);
    forall x ensures ReplyOk(conn, x) ==> ReplyOk(conn', x) {
    }
    assert ReplyOk(conn, r);
  }

  lemma WrittenConserved<B(!new)>(exec: Exec<B>, log: seq<Entry<B>>, conn: Conn)
    requires Sane(exec) && Conserved(exec, log, conn) && conn.replies != []
    ensures Conserved(exec, log, Written(conn))
  {
    hide Serve, Of, Accounted, Expected, Encode;
    var conn' := Written(conn);
    forall j | 0 <= j < |conn'.calls| ensures Accounted(conn', j) == Expected(exec, log, conn', j) {
      WrittenAccounted(conn, j);
      SameExpected(exec, log, conn, conn', j);
    }
  }

  lemma WrittenAccounted(conn: Conn, j: nat)
    requires conn.replies != [] && j < |conn.calls|
    ensures Accounted(Written(conn), j) == Accounted(conn, j)
  {
    var conn', r := Written(conn), conn.replies[0];
    assert conn.replies == [r] + conn'.replies;
    OfAppend(j, [r], conn'.replies);
    OfAppend(j, conn.downMsgs, [r]);
    hide Of, Encode;
    var one := Of(j, [r]);
    PassOn(Unsent(conn, j), one, Of(j, conn'.replies), Of(j, conn.downMsgs), conn.calls[j].delivered);
  }

  lemma PassOn(a: multiset<Message>, one: multiset<Message>, b: multiset<Message>, c: multiset<Message>, d: multiset<Message>)
    ensures a + b + (c + one) + d == a + (one + b) + c + d
  {
  }

  lemma WrittenOk<B(!new)>(exec: Exec<B>, log: seq<Entry<B>>, c: nat, conn: Conn)
    requires Sane(exec) && ConnInv(exec, log, c, conn) && conn.replies != []
    ensures ConnInv(exec, log, c, Written(conn))
  {
    hide WellSized, Encode, EncodeAll, Conserved, ListenOk, LoggedOk, DownOk;
    var conn' := Written(conn);
    WrittenDown(conn);
    WrittenConserved(exec, log, conn);
    TaskFrame(log, c, conn, conn');
    ListenFrame(conn, conn');
  }

  // ----- The receive loop -----

  /** With fewer than 2^32 messages sent since, no later call shares the id of call `k`. */
  lemma RecentIsLatest(conn: Conn, k: nat)
    requires IdsOk(conn) && k < |conn.calls| && |conn.calls| - k <= IDS
    ensures Latest(conn, k)
  {
    hide WellSized;
    forall j | k < j < |conn.calls| ensures conn.calls[j].request.requestId != conn.calls[k].request.requestId {
      assert conn.calls[j].request.requestId == j % IDS && conn.calls[k].request.requestId == k % IDS;
    }
  }

  /** The listener registered for a recent call's id, if any, is that call's own. */
  lemma ListenerIsOwner(conn: Conn, k: nat)
    requires ListenOk(conn) && k < |conn.calls| && Latest(conn, k)
    ensures var id := conn.calls[k].request.requestId;
      && (id in conn.listeners ==> conn.listeners[id] == k)
      && (conn.calls[k].phase.Listening? ==> id in conn.listeners)
  {
    var id := conn.calls[k].request.requestId;
    if id in conn.listeners {
      var j := conn.listeners[id];
      assert Latest(conn, j);
    }
  }

  /** The newest call with the id of call `k`. */
  function Newest(conn: Conn, k: nat): (n: nat)
    requires k < |conn.calls|
    ensures k <= n < |conn.calls| && n % IDS == k % IDS && |conn.calls| - n <= IDS
    ensures n == k <==> |conn.calls| - k <= IDS
    decreases |conn.calls| - k
  {
    if |conn.calls| - k <= IDS then k else Newest(conn, k + IDS)
  }

  /** Routing by id alone, however many messages have been sent: a reply is handed to the
      newest call with its id if that call is listening, and to none otherwise. */
  lemma DispatchedToNewest(conn: Conn, r: Reply)
    requires IdsOk(conn) && ListenOk(conn) && r.call < |conn.calls| && r.m.requestId == r.call % IDS
    ensures var n := Newest(conn, r.call);
      && Dispatched(conn, r.m).calls
         == (if conn.calls[n].phase.Listening?
             then conn.calls[n := conn.calls[n].(inbox := conn.calls[n].inbox + [r.m])]
             else conn.calls)
      && Dispatched(conn, r.m).listeners
         == if conn.calls[n].phase.Listening? then conn.listeners else conn.listeners - {r.m.requestId}
  {
    hide WellSized, Latest, ListenOk;
    var n := Newest(conn, r.call);
    RecentIsLatest(conn, n);
    ListenerIsOwner(conn, n);
    assert conn.calls[n].request.requestId == n % IDS;
    if r.m.requestId !in conn.listeners {
      assert conn.listeners - {r.m.requestId} == conn.listeners;
    }
  }

  /** So a waiting call is handed the reply to it if and only if fewer than 2^32 messages
      have been sent since. */
  lemma DispatchedToOwner(conn: Conn, r: Reply)
    requires IdsOk(conn) && ListenOk(conn) && r.call < |conn.calls| && r.m.requestId == r.call % IDS
    requires conn.calls[r.call].phase.Listening?
    ensures Dispatched(conn, r.m).calls == conn.calls[r.call := conn.calls[r.call].(inbox := conn.calls[r.call].inbox + [r.m])]
            <==> |conn.calls| - r.call <= IDS
  {
    hide IdsOk, ListenOk, Dispatched;
    DispatchedToNewest(conn, r);
    var inbox := conn.calls[r.call].inbox;
    assert |inbox + [r.m]| != |inbox|;
  }

  /** The first reply on the wire is what decoding yields. */
  lemma FrontReply(conn: Conn)
    requires DownOk(conn) && |conn.tasks| <= |conn.calls| && Decode(conn.downBuffer).Got?
    ensures conn.downMsgs != [] && conn.downMsgs[0].call < |conn.tasks|
    ensures conn.downMsgs[0].m == Decode(conn.downBuffer).value
    ensures conn.downMsgs[0].m.requestId == conn.downMsgs[0].call % IDS
    ensures DownOk(Received(conn))
  {
    hide Decode, EncodeAll, WellSized;
    var ms := Plain(conn.downMsgs);
    assert AllWellSized(ms) by {
      forall m | m in ms ensures WellSized(m) {
        var i :| 0 <= i < |ms| && ms[i] == m;
        assert ReplyOk(conn, conn.downMsgs[i]);
      }
    }
    FrontOfStream(ms, conn.downBuffer, conn.downBytes);
    assert ReplyOk(conn, conn.downMsgs[0]);
    var conn' := Received(conn);
    assert Plain(conn'.downMsgs) == ms[1..];
    forall x ensures ReplyOk(conn, x) ==> ReplyOk(conn', x) {
    }
  }

  /** Receiving changes nothing of a call but its inbox and what has been delivered of it. */
  ghost predicate CallsKept(conn: Conn, conn': Conn) {
    && |conn'.calls| == |conn.calls|
    && forall k | 0 <= k < |conn.calls| ::
         && conn'.calls[k].request == conn.calls[k].request && conn'.calls[k].phase == conn.calls[k].phase
         && conn'.calls[k].sentAt == conn.calls[k].sentAt && conn'.calls[k].returnedAt == conn.calls[k].returnedAt
  }

  ghost function ArrivedFor(r: Reply, k: nat): multiset<Message> {
    if k == r.call then multiset{r.m} else multiset{}
  }

  lemma DispatchedCalls(conn: Conn, m: Message)
    ensures var conn' := Dispatched(conn, m);
      && CallsKept(conn, conn') && conn' == conn.(calls := conn'.calls, listeners := conn'.listeners)
      && forall k | 0 <= k < |conn.calls| :: conn'.calls[k].delivered == conn.calls[k].delivered
  {
  }

  lemma RecordedCalls(calls: seq<Call>, r: Reply)
    ensures var calls' := Recorded(calls, r);
      && |calls'| == |calls|
      && forall k | 0 <= k < |calls| ::
           calls'[k] == calls[k].(delivered := calls[k].delivered + ArrivedFor(r, k))
  {
    forall k | 0 <= k < |calls| && k != r.call ensures calls[k].delivered + ArrivedFor(r, k) == calls[k].delivered {
    }
  }

  /** Of everything else receiving leaves all as it is, but for what dispatching does. */
  lemma ReceivedKeeps(conn: Conn)
    requires Decode(conn.downBuffer).Got?
    ensures var conn', handed := Received(conn), Dispatched(conn, Decode(conn.downBuffer).value);
      && CallsKept(conn, conn')
      && conn' == conn.(downBuffer := Decode(conn.downBuffer).rest, downMsgs := Tail(conn.downMsgs),
                        calls := conn'.calls, listeners := handed.listeners)
      && (forall k | 0 <= k < |conn.calls| :: conn'.calls[k].inbox == handed.calls[k].inbox)
      && forall k | 0 <= k < |conn.calls| ::
           conn'.calls[k].delivered
           == if conn.downMsgs == [] then conn.calls[k].delivered
              else conn.calls[k].delivered + ArrivedFor(conn.downMsgs[0], k)
  {
    hide Decode, Dispatched, Recorded, ArrivedFor;
    var handed := Dispatched(conn, Decode(conn.downBuffer).value);
    DispatchedCalls(conn, Decode(conn.downBuffer).value);
    if conn.downMsgs != [] {
      RecordedCalls(handed.calls, conn.downMsgs[0]);
    }
  }

  lemma DispatchedListen(conn: Conn, m: Message)
    requires ListenOk(conn)
    ensures ListenOk(Dispatched(conn, m))
  {
    var conn' := Dispatched(conn, m);
    forall k | 0 <= k < |conn'.calls| ensures Latest(conn', k) <==> Latest(conn, k) {
      forall j | k < j < |conn.calls| ensures conn'.calls[j].request == conn.calls[j].request {
      }
    }
  }

  lemma ReceivedListen(conn: Conn)
    requires ListenOk(conn) && Decode(conn.downBuffer).Got?
    ensures ListenOk(Received(conn))
  {
    hide Decode, ListenOk, Dispatched, Received;
    var m := Decode(conn.downBuffer).value;
    DispatchedListen(conn, m);
    DispatchedCalls(conn, m);
    ReceivedKeeps(conn);
    ListenFrame(Dispatched(conn, m), Received(conn));
  }

  lemma ReceivedConserved<B(!new)>(exec: Exec<B>, log: seq<Entry<B>>, conn: Conn)
    requires Sane(exec) && Conserved(exec, log, conn)
    requires Decode(conn.downBuffer).Got? && conn.downMsgs != []
    ensures Conserved(exec, log, Received(conn))
  {
    hide Serve, Of, Accounted, Expected, Decode, Dispatched, Received, ArrivedFor;
    var conn' := Received(conn);
    ReceivedKeeps(conn);
    forall j | 0 <= j < |conn'.calls| ensures Accounted(conn', j) == Expected(exec, log, conn', j) {
      ReceivedAccounted(conn, conn', j);
      SameExpected(exec, log, conn, conn', j);
    }
  }

  lemma ReceivedAccounted(conn: Conn, conn': Conn, j: nat)
    requires conn.downMsgs != [] && j < |conn.calls| == |conn'.calls|
    requires conn'.calls[j].delivered == conn.calls[j].delivered + ArrivedFor(conn.downMsgs[0], j)
    requires conn'.tasks == conn.tasks && conn'.replies == conn.replies && conn'.downMsgs == conn.downMsgs[1..]
    ensures Accounted(conn', j) == Accounted(conn, j)
  {
    var r := conn.downMsgs[0];
    assert conn.downMsgs == [r] + conn'.downMsgs;
    OfAppend(j, [r], conn'.downMsgs);
    OfOne(j, r);
    hide Of;
    Arrives(Unsent(conn, j) + Of(j, conn.replies), ArrivedFor(r, j), Of(j, conn'.downMsgs), conn.calls[j].delivered);
  }

  lemma Arrives(a: multiset<Message>, one: multiset<Message>, c: multiset<Message>, d: multiset<Message>)
    ensures a + c + (d + one) == a + (one + c) + d
  {
  }

  /** Steps that keep every call's request and history marks keep what the log says. */
  lemma CallFrame<B>(log: seq<Entry<B>>, c: nat, conn: Conn, conn': Conn)
    requires LoggedOk(log, c, conn)
    requires conn'.tasks == conn.tasks && |conn'.calls| == |conn.calls|
    requires forall k | 0 <= k < |conn.calls| ::
      && conn'.calls[k].request == conn.calls[k].request && conn'.calls[k].sentAt == conn.calls[k].sentAt
      && conn'.calls[k].returnedAt <= |log|
    ensures LoggedOk(log, c, conn')
  {
  }

  /** Steps that keep every request keep the numbering and the stream of requests. */
  lemma RequestFrame(conn: Conn, conn': Conn)
    requires IdsOk(conn) && UpOk(conn)
    requires conn'.nextId == conn.nextId && |conn'.calls| == |conn.calls| && conn'.tasks == conn.tasks
    requires conn'.upMsgs == conn.upMsgs && conn'.upBuffer == conn.upBuffer && conn'.upBytes == conn.upBytes
    requires forall k | 0 <= k < |conn.calls| :: conn'.calls[k].request == conn.calls[k].request
    ensures IdsOk(conn') && UpOk(conn')
  {
    hide EncodeAll, WellSized;
  }

  lemma ReceivedOk<B(!new)>(exec: Exec<B>, log: seq<Entry<B>>, c: nat, conn: Conn)
    requires Sane(exec) && ConnInv(exec, log, c, conn) && Decode(conn.downBuffer).Got?
    ensures ConnInv(exec, log, c, Received(conn))
  {
    assert forall k | 0 <= k < |conn.calls| :: conn.calls[k].returnedAt <= |log|;
    hide Dispatched, Received, Decode, Conserved, ListenOk, DownOk, UpOk, IdsOk, LoggedOk, ArrivedFor;
    TasksWithinCalls(log, c, conn);
    FrontReply(conn);
    ReceivedKeeps(conn);
    ReceivedListen(conn);
    ReceivedConserved(exec, log, conn);
    CallFrame(log, c, conn, Received(conn));
    RequestFrame(conn, Received(conn));
  }

  // ----- Returning and giving up -----

  lemma ClosedConserved<B(!new)>(exec: Exec<B>, log: seq<Entry<B>>, conn: Conn, conn': Conn)
    requires Sane(exec) && Conserved(exec, log, conn) && |conn'.calls| == |conn.calls|
    requires forall j | 0 <= j < |conn.calls| :: conn'.calls[j].delivered == conn.calls[j].delivered
    requires conn'.tasks == conn.tasks && conn'.replies == conn.replies && conn'.downMsgs == conn.downMsgs
    ensures Conserved(exec, log, conn')
  {
    hide Serve, Of, Expected;
    forall j | 0 <= j < |conn'.calls| ensures Accounted(conn', j) == Expected(exec, log, conn', j) {
      assert Accounted(conn, j) == Expected(exec, log, conn, j);
      SameExpected(exec, log, conn, conn', j);
    }
  }

  lemma ClosedStreams(conn: Conn, conn': Conn)
    requires IdsOk(conn) && UpOk(conn) && DownOk(conn)
    requires conn' == conn.(calls := conn'.calls) && |conn'.calls| == |conn.calls|
    requires forall k | 0 <= k < |conn.calls| :: conn'.calls[k].request == conn.calls[k].request
    ensures IdsOk(conn') && UpOk(conn') && DownOk(conn')
  {
    hide WellSized, EncodeAll, Plain;
    RequestFrame(conn, conn');
    forall r ensures ReplyOk(conn, r) ==> ReplyOk(conn', r) {
    }
  }

  /** Closing a call, by returning or by giving up. */
  lemma ClosedOk<B(!new)>(exec: Exec<B>, log: seq<Entry<B>>, c: nat, conn: Conn, k: nat, phase: Phase, returnedAt: nat)
    requires Sane(exec) && ConnInv(exec, log, c, conn) && k < |conn.calls|
    requires !phase.Listening? && returnedAt <= |log|
    ensures ConnInv(exec, log, c, WithCall(conn, k, conn.calls[k].(phase := phase, returnedAt := returnedAt)))
  {
    var conn' := WithCall(conn, k, conn.calls[k].(phase := phase, returnedAt := returnedAt));
    assert forall j | 0 <= j < |conn.calls| :: conn.calls[j].returnedAt <= |log|;
    hide Conserved, ListenOk, LoggedOk, IdsOk, UpOk, DownOk;
    ListenFrame(conn, conn');
    ClosedConserved(exec, log, conn, conn');
    CallFrame(log, c, conn, conn');
    ClosedStreams(conn, conn');
  }

  // ----- Executing -----

  /** Recording one more entry changes nothing for what the log already says. */
  lemma LogGrows<B(!new)>(exec: Exec<B>, log: seq<Entry<B>>, e: Entry<B>, c: nat, conn: Conn)
    requires Sane(exec) && ConnInv(exec, log, c, conn)
    ensures ConnInv(exec, log + [e], c, conn)
  {
    hide IdsOk, UpOk, DownOk, ListenOk, Serve, Accounted;
    forall k | 0 <= k < |conn.calls| ensures Accounted(conn, k) == Expected(exec, log + [e], conn, k) {
      assert Accounted(conn, k) == Expected(exec, log, conn, k);
    }
  }

  lemma ExecutedConserved<B(!new)>(exec: Exec<B>, b: B, log: seq<Entry<B>>, c: nat, conn: Conn, k: nat)
    requires Sane(exec) && Conserved(exec, log, conn) && LoggedOk(log, c, conn) && UpOk(conn)
    requires k < |conn.tasks| && conn.tasks[k].Queued?
    ensures Conserved(exec, log + [Entry(c, k, b, conn.tasks[k].m)], Executed(exec, b, log, conn, k))
  {
    hide Serve, Of, Accounted, Expected, UpOk;
    var log', conn' := log + [Entry(c, k, b, conn.tasks[k].m)], Executed(exec, b, log, conn, k);
    forall j | 0 <= j < |conn'.calls| ensures Accounted(conn', j) == Expected(exec, log', conn', j) {
      assert Accounted(conn, j) == Expected(exec, log, conn, j);
      if j == k {
        ExecutedCall(exec, b, log, c, conn, k);
      } else {
        ExecutedOther(exec, b, log, c, conn, k, j);
      }
    }
  }

  lemma ExecutedCall<B(!new)>(exec: Exec<B>, b: B, log: seq<Entry<B>>, c: nat, conn: Conn, k: nat)
    requires Sane(exec) && k < |conn.tasks| && conn.tasks[k].Queued? && k < |conn.calls|
    requires Accounted(conn, k) == Expected(exec, log, conn, k)
    ensures var conn' := Executed(exec, b, log, conn, k);
            Accounted(conn', k) == Expected(exec, log + [Entry(c, k, b, conn.tasks[k].m)], conn', k)
  {
    hide Serve, Of;
  }

  lemma ExecutedOther<B(!new)>(exec: Exec<B>, b: B, log: seq<Entry<B>>, c: nat, conn: Conn, k: nat, j: nat)
    requires Sane(exec) && LoggedOk(log, c, conn) && k < |conn.tasks| && conn.tasks[k].Queued?
    requires j < |conn.calls| && j != k
    ensures var log', conn' := log + [Entry(c, k, b, conn.tasks[k].m)], Executed(exec, b, log, conn, k);
            Accounted(conn', j) == Accounted(conn, j) && Expected(exec, log', conn', j) == Expected(exec, log, conn, j)
  {
    hide Serve, Of;
  }

  lemma ExecutedLogged<B(!new)>(exec: Exec<B>, b: B, log: seq<Entry<B>>, c: nat, conn: Conn, k: nat)
    requires Sane(exec) && LoggedOk(log, c, conn) && UpOk(conn)
    requires k < |conn.tasks| && conn.tasks[k].Queued?
    ensures LoggedOk(log + [Entry(c, k, b, conn.tasks[k].m)], c, Executed(exec, b, log, conn, k))
  {
    hide Serve, EncodeAll;
  }

  lemma ExecutedStreams<B(!new)>(exec: Exec<B>, b: B, log: seq<Entry<B>>, conn: Conn, k: nat)
    requires Sane(exec) && UpOk(conn) && DownOk(conn)
    requires k < |conn.tasks| && conn.tasks[k].Queued?
    ensures UpOk(Executed(exec, b, log, conn, k)) && DownOk(Executed(exec, b, log, conn, k))
  {
    hide WellSized, EncodeAll, Serve, Plain;
    forall r ensures ReplyOk(conn, r) ==> ReplyOk(Executed(exec, b, log, conn, k), r) {
    }
  }

  lemma ExecutedOk<B(!new)>(exec: Exec<B>, b: B, log: seq<Entry<B>>, c: nat, conn: Conn, k: nat)
    requires Sane(exec) && ConnInv(exec, log, c, conn)
    requires k < |conn.tasks| && conn.tasks[k].Queued?
    ensures ConnInv(exec, log + [Entry(c, k, b, conn.tasks[k].m)], c, Executed(exec, b, log, conn, k))
  {
    hide WellSized, Conserved, ListenOk, LoggedOk, UpOk, DownOk, Serve;
    ExecutedConserved(exec, b, log, c, conn, k);
    ExecutedLogged(exec, b, log, c, conn, k);
    ExecutedStreams(exec, b, log, conn, k);
    ListenFrame(conn, Executed(exec, b, log, conn, k));
  }

  // ----- While no id is reused too early -----

  /** Steps that keep the results calls have returned, and the executions they go back to. */
  lemma ResultsFrame<B(!new)>(exec: Exec<B>, log: seq<Entry<B>>, conn: Conn, log': seq<Entry<B>>, conn': Conn)
    requires Sane(exec) && ResultsOk(exec, log, conn)
    requires log <= log' && |conn.calls| <= |conn'.calls|
    requires forall k | 0 <= k < |conn'.calls| && conn'.calls[k].phase.Returned? ::
      && k < |conn.calls| && conn'.calls[k].request == conn.calls[k].request
      && conn'.calls[k].phase == conn.calls[k].phase && conn'.calls[k].returnedAt == conn.calls[k].returnedAt
    requires forall k: nat | Handled(conn, k) :: Handled(conn', k) && conn'.tasks[k].at == conn.tasks[k].at
    ensures ResultsOk(exec, log', conn')
  {
    hide Serve, Deserved, IsRequest;
    forall k | 0 <= k < |conn'.calls| ensures ResultOk(exec, log', conn', k) {
      if conn'.calls[k].phase.Returned? {
        assert ResultOk(exec, log, conn, k);
      }
    }
  }

  /** Steps that hand nobody a reply. */
  lemma InboxFrame(conn: Conn, conn': Conn)
    requires InboxesOk(conn)
    requires forall k | 0 <= k < |conn'.calls| && conn'.calls[k].phase.Listening? ::
      if k < |conn.calls| then
        && conn.calls[k].phase.Listening?
        && conn'.calls[k].inbox == conn.calls[k].inbox && conn'.calls[k].delivered == conn.calls[k].delivered
      else conn'.calls[k].inbox == [] && conn'.calls[k].delivered == multiset{}
    ensures InboxesOk(conn')
  {
  }

  /** A reply that comes off the wire while its call is outstanding reaches its own call. */
  lemma ReceivedInboxes(conn: Conn)
    requires IdsOk(conn) && DownOk(conn) && ListenOk(conn) && InboxesOk(conn) && NoWrap(conn)
    requires |conn.tasks| <= |conn.calls| && Decode(conn.downBuffer).Got?
    ensures InboxesOk(Received(conn))
  {
    hide Decode, IdsOk, DownOk, ListenOk, Dispatched, Received;
    FrontReply(conn);
    var r := conn.downMsgs[0];
    assert conn.replies + conn.downMsgs == conn.replies + [r] + conn.downMsgs[1..];
    assert Outstanding(conn, r.call);
    DispatchedToNewest(conn, r);
    ReceivedKeeps(conn);
  }

  lemma NothingYet(m: Message)
    ensures Await(m, []).Waiting?
  {
  }

  /** A call can return only after its request was handled, with the whole reply set in its
      inbox, and then returns what the backend's answer deserves. */
  lemma ReturnMeans<B(!new)>(exec: Exec<B>, log: seq<Entry<B>>, c: nat, conn: Conn, k: nat)
    requires Sane(exec) && Conserved(exec, log, conn) && InboxesOk(conn) && LoggedOk(log, c, conn)
    requires k < |conn.calls| && conn.calls[k].phase.Listening?
    requires Await(conn.calls[k].request, conn.calls[k].inbox).Ready?
    ensures Handled(conn, k) && IsRequest(conn.calls[k].request)
    ensures conn.calls[k].delivered == Expected(exec, log, conn, k)
    ensures Await(conn.calls[k].request, conn.calls[k].inbox).value
         == Deserved(exec, log[conn.tasks[k].at].before, conn.calls[k].request)
  {
    hide Await, Of, Deserved;
    var m, inbox := conn.calls[k].request, conn.calls[k].inbox;
    NothingYet(m);
    assert Accounted(conn, k) == Expected(exec, log, conn, k);
    assert multiset(inbox) <= Expected(exec, log, conn, k);
    assert inbox != [];
    assert inbox[0] in multiset(inbox);
    var e := log[conn.tasks[k].at];
    assert IsRequest(m) by {
      assert inbox[0] in multiset(Serve(exec, e.before, e.request).1);
    }
    CallTransparency(exec, e.before, m, inbox);
  }

  lemma ReturnedFaithful<B(!new)>(exec: Exec<B>, log: seq<Entry<B>>, c: nat, conn: Conn, step: Step)
    requires Sane(exec) && Conserved(exec, log, conn) && LoggedOk(log, c, conn) && ConnFaithful(exec, log, conn)
    requires step.Return? && CanMove(conn, step)
    ensures ConnFaithful(exec, log, Moved(conn, step, |log|))
  {
    hide Await, Deserved, Expected, IsRequest;
    var conn' := Moved(conn, step, |log|);
    ReturnMeans(exec, log, c, conn, step.k);
    InboxFrame(conn, conn');
    forall j | 0 <= j < |conn'.calls| ensures ResultOk(exec, log, conn', j) {
      assert ResultOk(exec, log, conn, j);
    }
  }

  lemma ReceivedFaithful<B(!new)>(exec: Exec<B>, log: seq<Entry<B>>, c: nat, conn: Conn)
    requires Sane(exec) && ConnInv(exec, log, c, conn) && ConnFaithful(exec, log, conn) && NoWrap(conn)
    requires Decode(conn.downBuffer).Got?
    ensures ConnFaithful(exec, log, Received(conn))
  {
    hide Dispatched, Received, Decode, Conserved, ListenOk, DownOk, UpOk, IdsOk, LoggedOk, NoWrap, InboxesOk, ResultsOk;
    TasksWithinCalls(log, c, conn);
    FrontReply(conn);
    ReceivedKeeps(conn);
    ReceivedInboxes(conn);
    ResultsFrame(exec, log, conn, log, Received(conn));
  }
}
