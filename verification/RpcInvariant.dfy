/** The invariant every run keeps: ids number the calls, bytes in flight are encodings of
    whole messages, every reply is in exactly one place, and listeners get only their own. */
module RpcInvariant {
  import opened Messages
  import opened Codec
  import opened Stub
  import opened Rpc

  // ----- One connection -----

  ghost predicate IdsOk(conn: Conn) {
    && conn.nextId == |conn.calls| % IDS
    && forall k | 0 <= k < |conn.calls| ::
         conn.calls[k].request.requestId == k % IDS && WellSized(conn.calls[k].request)
  }

  ghost predicate UpOk(conn: Conn) {
    && |conn.tasks| + |conn.upMsgs| == |conn.calls|
    && conn.upBuffer + conn.upBytes == EncodeAll(conn.upMsgs)
    && (forall i | 0 <= i < |conn.upMsgs| :: conn.upMsgs[i] == conn.calls[|conn.tasks| + i].request)
    && (forall k | 0 <= k < |conn.tasks| && conn.tasks[k].Queued? :: conn.tasks[k].m == conn.calls[k].request)
  }

  function Plain(rs: seq<Reply>): (ms: seq<Message>)
    ensures |ms| == |rs| && forall i | 0 <= i < |rs| :: ms[i] == rs[i].m
  {
    seq(|rs|, i requires 0 <= i < |rs| => rs[i].m)
  }

  ghost predicate ReplyOk(conn: Conn, r: Reply) {
    r.call < |conn.tasks| && r.m.requestId == r.call % IDS && WellSized(r.m)
  }

  ghost predicate DownOk(conn: Conn) {
    && conn.downBuffer + conn.downBytes == EncodeAll(Plain(conn.downMsgs))
    && (forall i | 0 <= i < |conn.replies| :: ReplyOk(conn, conn.replies[i]))
    && (forall i | 0 <= i < |conn.downMsgs| :: ReplyOk(conn, conn.downMsgs[i]))
    && |conn.replies| <= REPLY_QUEUE_CAPACITY
  }

  /** No later call carries the id of call `k`. */
  ghost predicate Latest(conn: Conn, k: nat)
    requires k < |conn.calls|
  {
    forall j | k < j < |conn.calls| :: conn.calls[j].request.requestId != conn.calls[k].request.requestId
  }

  ghost predicate ListenOk(conn: Conn) {
    && (forall id | id in conn.listeners ::
          var k := conn.listeners[id];
          k < |conn.calls| && conn.calls[k].request.requestId == id && Latest(conn, k))
    && (forall k | 0 <= k < |conn.calls| && conn.calls[k].phase.Listening? && Latest(conn, k) ::
          var id := conn.calls[k].request.requestId; id in conn.listeners && conn.listeners[id] == k)
  }

  /** Listeners have been handed the replies to their own calls, and nothing else. */
  ghost predicate InboxesOk(conn: Conn) {
    forall k | 0 <= k < |conn.calls| && conn.calls[k].phase.Listening? ::
      multiset(conn.calls[k].inbox) == conn.calls[k].delivered
  }

  // ----- Where the replies are -----

  /** The replies among `rs` that answer call `k`. */
  ghost function Of(k: nat, rs: seq<Reply>): multiset<Message> {
    if rs == [] then multiset{}
    else (if rs[0].call == k then multiset{rs[0].m} else multiset{}) + Of(k, rs[1..])
  }

  ghost function Unsent(conn: Conn, k: nat): multiset<Message> {
    if k < |conn.tasks| && conn.tasks[k].Answering? then conn.tasks[k].unsent else multiset{}
  }

  /** Every reply to call `k` there is: not yet enqueued, in the reply queue, on the wire,
      or already off it. */
  ghost function Accounted(conn: Conn, k: nat): multiset<Message>
    requires k < |conn.calls|
  {
    Unsent(conn, k) + Of(k, conn.replies) + Of(k, conn.downMsgs) + conn.calls[k].delivered
  }

  ghost predicate Handled(conn: Conn, k: nat) {
    k < |conn.tasks| && !conn.tasks[k].Queued?
  }

  /** The one complete reply set of call `k`, once it has been handled. */
  ghost function Expected<B(!new)>(exec: Exec<B>, log: seq<Entry<B>>, conn: Conn, k: nat): multiset<Message>
    requires Sane(exec)
  {
    if Handled(conn, k) && conn.tasks[k].at < |log| then
      var e := log[conn.tasks[k].at];
      multiset(Serve(exec, e.before, e.request).1)
    else multiset{}
  }

  ghost predicate Conserved<B(!new)>(exec: Exec<B>, log: seq<Entry<B>>, conn: Conn)
    requires Sane(exec)
  {
    forall k | 0 <= k < |conn.calls| :: Accounted(conn, k) == Expected(exec, log, conn, k)
  }

  ghost predicate LoggedOk<B>(log: seq<Entry<B>>, c: nat, conn: Conn) {
    && |conn.tasks| <= |conn.calls|
    && (forall k | 0 <= k < |conn.calls| :: conn.calls[k].sentAt <= |log| && conn.calls[k].returnedAt <= |log|)
    && (forall k | 0 <= k < |conn.tasks| && !conn.tasks[k].Queued? ::
          var at := conn.tasks[k].at;
          && at < |log| && log[at].conn == c && log[at].call == k
          && log[at].request == conn.calls[k].request && conn.calls[k].sentAt <= at)
  }

  /** A returned call was handled between being sent and returning, and its result is what
      the backend's answer at that point deserves. */
  ghost predicate ResultOk<B(!new)>(exec: Exec<B>, log: seq<Entry<B>>, conn: Conn, k: nat)
    requires Sane(exec) && k < |conn.calls|
  {
    conn.calls[k].phase.Returned? ==>
      && Handled(conn, k) && IsRequest(conn.calls[k].request)
      && conn.tasks[k].at < conn.calls[k].returnedAt <= |log|
      && conn.calls[k].phase.result == Deserved(exec, log[conn.tasks[k].at].before, conn.calls[k].request)
  }

  ghost predicate ResultsOk<B(!new)>(exec: Exec<B>, log: seq<Entry<B>>, conn: Conn)
    requires Sane(exec)
  {
    forall k | 0 <= k < |conn.calls| :: ResultOk(exec, log, conn, k)
  }

  /** What every run keeps, whatever becomes of its ids. */
  ghost predicate ConnInv<B(!new)>(exec: Exec<B>, log: seq<Entry<B>>, c: nat, conn: Conn)
    requires Sane(exec)
  {
    && IdsOk(conn) && UpOk(conn) && DownOk(conn) && ListenOk(conn)
    && Conserved(exec, log, conn) && LoggedOk(log, c, conn)
  }

  /** What runs keep in which no id is reused too early. */
  ghost predicate ConnFaithful<B(!new)>(exec: Exec<B>, log: seq<Entry<B>>, conn: Conn)
    requires Sane(exec)
  {
    InboxesOk(conn) && ResultsOk(exec, log, conn)
  }

  // ----- The whole system -----

  ghost predicate LockOk<B>(s: Sys<B>) {
    && (forall c, k | 0 <= c < |s.conns| && 0 <= k < |s.conns[c].tasks| && s.conns[c].tasks[k].Answering? ::
          k < |s.conns[c].calls| && (NeedsLock(s.conns[c].calls[k].request) ==> s.lock == Held(c, k)))
    && (s.lock.Held? ==>
          && s.lock.conn < |s.conns| && s.lock.task < |s.conns[s.lock.conn].tasks|
          && s.conns[s.lock.conn].tasks[s.lock.task].Answering? && s.lock.task < |s.conns[s.lock.conn].calls|
          && NeedsLock(s.conns[s.lock.conn].calls[s.lock.task].request))
  }

  /** The log is a legal sequential history from `b0` to the present backend: each entry
      meets the state the one before it left. */
  ghost predicate Legal<B(!new)>(exec: Exec<B>, b0: B, log: seq<Entry<B>>, b: B)
    requires Sane(exec)
    decreases |log|
  {
    if log == [] then b == b0
    else
      var e := log[|log| - 1];
      b == Serve(exec, e.before, e.request).0 && Legal(exec, b0, log[..|log| - 1], e.before)
  }

  /** Every log entry is the execution of the task it names. */
  ghost predicate EntriesOk<B>(s: Sys<B>) {
    forall i | 0 <= i < |s.log| ::
      var e := s.log[i];
      e.conn < |s.conns| && Handled(s.conns[e.conn], e.call) && s.conns[e.conn].tasks[e.call].at == i
  }

  ghost predicate Inv<B(!new)>(exec: Exec<B>, b0: B, s: Sys<B>)
    requires Sane(exec)
  {
    && (forall c | 0 <= c < |s.conns| :: ConnInv(exec, s.log, c, s.conns[c]))
    && LockOk(s) && EntriesOk(s) && Legal(exec, b0, s.log, s.backend)
  }

  ghost predicate Faithful<B(!new)>(exec: Exec<B>, s: Sys<B>)
    requires Sane(exec)
  {
    forall c | 0 <= c < |s.conns| :: ConnFaithful(exec, s.log, s.conns[c])
  }

  // ----- Counting replies -----

  lemma Regroup(a: multiset<Message>, b: multiset<Message>, c: multiset<Message>)
    ensures (a + b) + c == a + (b + c)
  {
  }

  ghost function One(k: nat, r: Reply): multiset<Message> {
    if r.call == k then multiset{r.m} else multiset{}
  }

  lemma OfCons(k: nat, rs: seq<Reply>)
    ensures Of(k, rs) == if rs == [] then multiset{} else One(k, rs[0]) + Of(k, rs[1..])
  {
  }

  lemma {:induction false} OfAppend(k: nat, a: seq<Reply>, b: seq<Reply>)
    ensures Of(k, a + b) == Of(k, a) + Of(k, b)
    decreases |a|
  {
    hide Of, One;
    OfCons(k, a);
    if a == [] {
      assert a + b == b;
    } else {
      OfAppend(k, a[1..], b);
      var s := a + b;
      assert s[0] == a[0] && s[1..] == a[1..] + b;
      OfCons(k, s);
      Regroup(One(k, a[0]), Of(k, a[1..]), Of(k, b));
    }
  }

  lemma OfOne(k: nat, r: Reply)
    ensures Of(k, [r]) == if r.call == k then multiset{r.m} else multiset{}
  {
    assert [r][1..] == [];
  }

  lemma {:induction false} OfMember(k: nat, rs: seq<Reply>, m: Message)
    requires m in Of(k, rs)
    ensures exists r | r in rs :: r.call == k && r.m == m
    decreases |rs|
  {
    if rs[0].call != k || rs[0].m != m {
      OfMember(k, rs[1..], m);
    }
  }
}
