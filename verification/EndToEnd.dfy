/** A read and a directory listing from the server's bytes to the caller's, through chunking,
    framing, an arbitrarily cut byte stream, the receive loop's dispatch, and reassembly. */
module EndToEnd {
  import opened Bytes
  import opened Messages
  import opened Codec
  import opened DirEntries
  import opened Chunks
  import opened Stub
  import opened Rpc
  import opened RpcInvariant
  import opened RpcSteps
  import opened Client
  import MessageLaws

  /** The messages among `ms` that carry the id. */
  function Inbox(id: u32, ms: seq<Message>): seq<Message>
    decreases |ms|
  {
    if ms == [] then []
    else if ms[0].requestId == id then [ms[0]] + Inbox(id, ms[1..])
    else Inbox(id, ms[1..])
  }

  lemma {:induction false} InboxAppend(id: u32, a: seq<Message>, b: seq<Message>)
    ensures Inbox(id, a + b) == Inbox(id, a) + Inbox(id, b)
    decreases |a|
  {
    if a == [] {
      assert a + b == b;
    } else {
      InboxAppend(id, a[1..], b);
      assert (a + b)[0] == a[0] && (a + b)[1..] == a[1..] + b;
    }
  }

  // ----- Dispatching to one caller -----

  /** Call `k` is waiting, and is the newest with its id. */
  ghost predicate Waits(conn: Conn, k: nat, id: u32) {
    && ListenOk(conn) && k < |conn.calls| && conn.calls[k].phase.Listening? && Latest(conn, k)
    && conn.calls[k].request.requestId == id
  }

  lemma LatestKept(conn: Conn, conn': Conn, k: nat)
    requires CallsKept(conn, conn') && k < |conn.calls| && Latest(conn, k)
    ensures Latest(conn', k)
  {
    forall j | k < j < |conn.calls| ensures conn'.calls[j].request == conn.calls[j].request {
    }
  }

  lemma DispatchedInbox(conn: Conn, k: nat, id: u32, m: Message)
    requires Waits(conn, k, id)
    ensures CallsKept(conn, Dispatched(conn, m))
    ensures Dispatched(conn, m).calls[k].inbox == conn.calls[k].inbox + Inbox(id, [m])
  {
    hide Latest, ListenOk;
    ListenerIsOwner(conn, k);
    ListenersDiffer(conn);
    assert [m][1..] == [];
  }

  lemma ListenersDiffer(conn: Conn)
    requires ListenOk(conn)
    ensures forall id | id in conn.listeners ::
              conn.listeners[id] < |conn.calls| && conn.calls[conn.listeners[id]].request.requestId == id
  {
  }

  lemma ReceivedInbox(conn: Conn, k: nat, id: u32)
    requires Waits(conn, k, id) && Decode(conn.downBuffer).Got?
    ensures Waits(Received(conn), k, id)
    ensures Received(conn).calls[k].inbox == conn.calls[k].inbox + Inbox(id, [Decode(conn.downBuffer).value])
  {
    hide Decode, ListenOk, Latest, Inbox, Dispatched, Received;
    ReceivedListen(conn);
    DispatchedInbox(conn, k, id, Decode(conn.downBuffer).value);
    ReceivedKeeps(conn);
    LatestKept(conn, Received(conn), k);
  }

  /** Running the receive loop hands a waiting caller exactly the messages with its id. */
  lemma {:induction false} ReceivedAllInbox(conn: Conn, k: nat, id: u32)
    requires Waits(conn, k, id)
    ensures Waits(ReceivedAll(conn), k, id)
    ensures ReceivedAll(conn).calls[k].inbox == conn.calls[k].inbox + Inbox(id, Drain(conn.downBuffer).msgs)
    ensures !Drain(conn.downBuffer).failed ==> ReceivedAll(conn).downBuffer == Drain(conn.downBuffer).pending
    decreases |conn.downBuffer|
  {
    hide Decode, Waits, Inbox, Dispatched, Recorded;
    match Decode(conn.downBuffer)
    case Got(m, rest) =>
      MessageLaws.DecodeConsumes(conn.downBuffer);
      WaitsIsCall(conn, k, id);
      ReceivedInbox(conn, k, id);
      WaitsIsCall(Received(conn), k, id);
      ReceivedAllInbox(Received(conn), k, id);
      WaitsIsCall(ReceivedAll(Received(conn)), k, id);
      InboxAppend(id, [m], Drain(rest).msgs);
    case _ =>
      WaitsIsCall(conn, k, id);
      NothingInboxed(id, conn.calls[k].inbox);
  }

  lemma WaitsIsCall(conn: Conn, k: nat, id: u32)
    requires Waits(conn, k, id)
    ensures k < |conn.calls|
  {
  }

  lemma NothingInboxed(id: u32, inbox: seq<Message>)
    ensures inbox + Inbox(id, []) == inbox
  {
  }

  /** Segments arriving one after the other, the receive loop running after each. */
  ghost function ArriveAll(conn: Conn, segments: seq<seq<byte>>): Conn
    decreases |segments|
  {
    if segments == [] then conn
    else ArriveAll(ReceivedAll(conn.(downBuffer := conn.downBuffer + segments[0])), segments[1..])
  }

  lemma {:induction false} ArriveAllInbox(conn: Conn, k: nat, id: u32, segments: seq<seq<byte>>)
    requires Waits(conn, k, id) && Drain(conn.downBuffer) == Stream([], conn.downBuffer, false)
    requires !Drain(conn.downBuffer + Concat(segments)).failed
    ensures Waits(ArriveAll(conn, segments), k, id)
    ensures ArriveAll(conn, segments).calls[k].inbox
         == conn.calls[k].inbox + Inbox(id, Drain(conn.downBuffer + Concat(segments)).msgs)
    decreases |segments|
  {
    hide Drain, Inbox, ReceivedAll, ListenOk, Latest;
    if segments == [] {
      assert conn.downBuffer + Concat(segments) == conn.downBuffer;
      NothingInboxed(id, conn.calls[k].inbox);
    } else {
      var more, later := conn.downBuffer + segments[0], Concat(segments[1..]);
      assert more + later == conn.downBuffer + Concat(segments);
      var conn1 := conn.(downBuffer := more);
      BufferIsNothing(conn, conn1, k, id);
      ReceivedAllInbox(conn1, k, id);
      DrainThenFeed(more, later);
      PendingIsShort(more);
      InboxAppend(id, Drain(more).msgs, Drain(Drain(more).pending + later).msgs);
      ArriveAllInbox(ReceivedAll(conn1), k, id, segments[1..]);
    }
  }

  lemma BufferIsNothing(conn: Conn, conn': Conn, k: nat, id: u32)
    requires Waits(conn, k, id) && conn' == conn.(downBuffer := conn'.downBuffer)
    ensures Waits(conn', k, id)
  {
    ListenFrame(conn, conn');
    LatestKept(conn, conn', k);
  }

  /** What is left pending does not hold another message. */
  lemma {:induction false} PendingIsShort(s: seq<byte>)
    ensures !Drain(s).failed ==> Drain(Drain(s).pending) == Stream([], Drain(s).pending, false)
    decreases |s|
  {
    hide Decode;
    if Decode(s).Got? {
      MessageLaws.DecodeConsumes(s);
      PendingIsShort(Decode(s).rest);
    }
  }

  /** What has arrived for a waiting caller once the encoding of `sent` has, in whatever cut. */
  lemma HandedOver(conn: Conn, k: nat, id: u32, sent: seq<Message>, segments: seq<seq<byte>>)
    requires Waits(conn, k, id) && conn.downBuffer == [] && conn.calls[k].inbox == []
    requires AllWellSized(sent) && Concat(segments) == EncodeAll(sent)
    ensures Waits(ArriveAll(conn, segments), k, id)
    ensures ArriveAll(conn, segments).calls[k].inbox == Inbox(id, sent)
  {
    hide Drain, Inbox, Waits, ArriveAll, WellSized, EncodeAll;
    StreamRoundTrip(sent, segments);
    SegmentationInvariance(segments);
    assert [] + Concat(segments) == Concat(segments);
    DrainOfNothing();
    ArriveAllInbox(conn, k, id, segments);
    assert [] + Inbox(id, sent) == Inbox(id, sent);
  }

  // ----- A read and a listing -----

  /** Whatever order the chunk tasks ran in, whatever traffic for other ids is mixed in,
      whatever else the connection has registered, and however the stream is cut: the caller
      reads exactly the backend's bytes. */
  lemma Read(conn: Conn, k: nat, id: u32, data: Data, sent: seq<Message>, segments: seq<seq<byte>>)
    requires Waits(conn, k, id) && conn.downBuffer == [] && conn.calls[k].inbox == []
    requires AllWellSized(sent) && Concat(segments) == EncodeAll(sent)
    requires multiset(Inbox(id, sent)) == multiset(ChunksOf(id, data))
    ensures k < |ArriveAll(conn, segments).calls|
    ensures Combine(NOTHING, ArriveAll(conn, segments).calls[k].inbox) == Ready(data)
  {
    hide Combine, ChunksOf, WellSized, ArriveAll, Inbox;
    HandedOver(conn, k, id, sent, segments);
    ChunkReplies(id, data, Inbox(id, sent));
  }

  /** As long as some chunk has not been sent, the caller goes on waiting. */
  lemma ReadInProgress(conn: Conn, k: nat, id: u32, data: Data, sent: seq<Message>, segments: seq<seq<byte>>)
    requires Waits(conn, k, id) && conn.downBuffer == [] && conn.calls[k].inbox == []
    requires AllWellSized(sent) && Concat(segments) == EncodeAll(sent)
    requires multiset(Inbox(id, sent)) < multiset(ChunksOf(id, data))
    ensures k < |ArriveAll(conn, segments).calls|
    ensures Combine(NOTHING, ArriveAll(conn, segments).calls[k].inbox) == Waiting
  {
    hide Combine, ChunksOf, WellSized, ArriveAll, Inbox;
    HandedOver(conn, k, id, sent, segments);
    ChunkReplies(id, data, Inbox(id, sent));
  }

  /** The same for a directory listing, wherever the chunk boundaries fall inside its packed
      entries: the caller lists exactly the backend's entries. */
  lemma Listed(conn: Conn, k: nat, id: u32, entries: seq<DirEntry>, sent: seq<Message>, segments: seq<seq<byte>>)
    requires Waits(conn, k, id) && conn.downBuffer == [] && conn.calls[k].inbox == []
    requires ShortNames(entries) && |Pack(entries)| < 0x8000_0000_0000_0000
    requires AllWellSized(sent) && Concat(segments) == EncodeAll(sent)
    requires multiset(Inbox(id, sent)) == multiset(ChunksOf(id, Pack(entries)))
    ensures k < |ArriveAll(conn, segments).calls|
    ensures AwaitListing(ArriveAll(conn, segments).calls[k].inbox) == Ready(Listing(entries))
  {
    hide Combine, ChunksOf, WellSized, Pack, Unpack, ArriveAll, Inbox;
    Read(conn, k, id, Pack(entries), sent, segments);
    PackRoundTrip(entries);
  }
}
