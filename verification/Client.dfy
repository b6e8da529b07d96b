/** The client handler as it runs: its id counter and listener map, its receive loop, and
    the loops its callers wait in, proved against the steps of the protocol. */
module Client {
  import opened Bytes
  import opened Messages
  import opened Codec
  import opened Conversions
  import opened DirEntries
  import opened Chunks
  import opened Stub
  import opened Rpc
  import MessageLaws

  /** An unbounded channel: what has been pushed, and whether its receiver still exists. */
  datatype Channel = Channel(queue: seq<Message>, open: bool)

  class ClientHandler {
    var nextId: u32
    var channels: seq<Channel>
    var replyListeners: map<u32, nat>
    var writer: ByteBuffer
    var reader: ByteBuffer

    /** The handler is the client's side of connection `conn`. */
    ghost predicate Represents(conn: Conn)
      reads this, writer, reader
    {
      && writer != reader
      && nextId == conn.nextId && replyListeners == conn.listeners
      && writer.bytes == conn.upBytes && reader.bytes == conn.downBuffer
      && |channels| == |conn.calls|
      && forall k | 0 <= k < |channels| ::
           channels[k] == Channel(conn.calls[k].inbox, conn.calls[k].phase.Listening?)
    }

    constructor ()
      ensures Represents(NEW_CONN)
      ensures fresh(writer) && fresh(reader)
    {
      nextId, channels, replyListeners := 0, [], map[];
      writer := new ByteBuffer();
      reader := new ByteBuffer();
    }

    /** Registers a fresh listener for the id, in place of any older one. */
    method RegisterListener(id: u32) returns (rx: nat)
      modifies this
      ensures rx == |old(channels)| && channels == old(channels) + [Channel([], true)]
      ensures replyListeners == old(replyListeners)[id := rx]
      ensures nextId == old(nextId) && writer == old(writer) && reader == old(reader)
    {
      rx := |channels|;
      channels := channels + [Channel([], true)];
      replyListeners := replyListeners[id := rx];
    }

    method SendMsg(msg: Message, ghost conn: Conn, ghost now: nat) returns (rx: nat)
      requires Represents(conn)
      modifies this, writer
      ensures writer == old(writer) && reader == old(reader)
      ensures rx == |conn.calls| && Represents(Sent(conn, msg, now))
    {
      hide Encode, Message.WithId;
      var id := nextId;
      var stamped := msg.WithId(id);
      rx := RegisterListener(id);
      nextId := (nextId + 1) % IDS;
      EncodeInto(stamped, writer);
    }

    /** Dispatches one decoded message. */
    method Deliver(msg: Message, ghost conn: Conn)
      requires Represents(conn)
      modifies this
      ensures writer == old(writer) && reader == old(reader)
      ensures Represents(Dispatched(conn, msg))
    {
      var id := msg.requestId;
      if id in replyListeners && replyListeners[id] < |channels| {
        var tx := replyListeners[id];
        if channels[tx].open {
          channels := channels[tx := channels[tx].(queue := channels[tx].queue + [msg])];
        } else {
          replyListeners := replyListeners - {id};
        }
      }
    }

    /** Takes and dispatches every complete message there is. A malformed one ends the
        stream with the rest undelivered. */
    method ReceiveLoop(ghost conn: Conn) returns (ghost conn': Conn)
      requires Represents(conn)
      modifies this, reader
      ensures writer == old(writer) && reader == old(reader)
      ensures conn' == ReceivedAll(conn) && Represents(conn')
    {
      hide Decode, Dispatched;
      conn' := conn;
      var more := true;
      while more
        invariant writer == old(writer) && reader == old(reader)
        invariant Represents(conn') && ReceivedAll(conn) == ReceivedAll(conn')
        invariant !more ==> conn' == ReceivedAll(conn)
        decreases more, |reader.bytes|
      {
        ghost var before := conn';
        var r := DecodeFrom(reader);
        match r {
          case Frame(msg) =>
            MessageLaws.DecodeConsumes(before.downBuffer);
            Deliver(msg, before.(downBuffer := reader.bytes));
            DispatchIgnoresBytes(before, msg, reader.bytes);
            conn' := Received(before);
          case _ =>
            more := false;
        }
      }
    }
  }

  /** The receive loop run to the end of the complete messages in the buffer. */
  ghost function ReceivedAll(conn: Conn): Conn
    decreases |conn.downBuffer|
  {
    if Decode(conn.downBuffer).Got? then
      MessageLaws.DecodeConsumes(conn.downBuffer);
      ReceivedAll(Received(conn))
    else conn
  }

  lemma DispatchIgnoresBytes(conn: Conn, m: Message, bytes: seq<byte>)
    ensures Dispatched(conn.(downBuffer := bytes), m) == Dispatched(conn, m).(downBuffer := bytes)
    ensures Dispatched(conn, m).downMsgs == conn.downMsgs
  {
  }

  // ----- Waiting for the answer -----

  /** Skips what is neither an error nor the awaited response. */
  method AwaitResponse(request: Message, inbox: seq<Message>) returns (r: Waited<Outcome>)
    ensures r == AwaitOne(request, inbox)
  {
    for i := 0 to |inbox|
      invariant AwaitOne(request, inbox) == AwaitOne(request, inbox[i..])
    {
      if inbox[i].Error? || Answers(request, inbox[i]) {
        return Ready(Meaning(inbox[i]));
      }
    }
    return Waiting;
  }

  method AwaitEntries(inbox: seq<Message>) returns (r: Waited<Outcome>)
    ensures r == AwaitListing(inbox)
  {
    hide Unpack, Combine;
    var data := CombineReadChunks(inbox);
    match data {
      case Ready(bytes) =>
        var parsed := ParseDirEntries(bytes);
        match parsed {
          case Entries(list) => r := Ready(Listing(list));
          case BadPayload => r := Ready(Fail(FsError(Other, [])));
        }
      case Refused(m) =>
        r := if m.Error? then Ready(Fail(ErrorOfMessage(m).value)) else Waiting;
      case Waiting =>
        r := Waiting;
    }
  }

  /** Each stub method's wait, over the messages its listener has been handed. */
  method AwaitAnswer(request: Message, inbox: seq<Message>) returns (r: Waited<Outcome>)
    ensures r == Await(request, inbox)
  {
    hide Combine, AwaitListing, AwaitOne;
    match request {
      case InitReq(_, _) => r := AwaitInit(inbox);
      case ReadReq(_, _, _, _) =>
        var data := CombineReadChunks(inbox);
        match data {
          case Ready(bytes) => r := Ready(Contents(bytes));
          case Refused(m) => r := if m.Error? then Ready(Fail(ErrorOfMessage(m).value)) else Waiting;
          case Waiting => r := Waiting;
        }
      case ReaddirReq(_, _) => r := AwaitEntries(inbox);
      case _ => r := AwaitResponse(request, inbox);
    }
  }
}
