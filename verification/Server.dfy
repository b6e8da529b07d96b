/** The server as it runs: handling one message against the locked backend, and the loops
    that spawn a task per message and drain the reply queue to the wire. */
module Server {
  import opened Bytes
  import opened Messages
  import opened Codec
  import opened Conversions
  import opened DirEntries
  import opened Chunks
  import opened Stub
  import opened Rpc
  import MessageLaws

  /** The shared backend: its state, advanced by each operation run under the lock. */
  class Backend<!B(!new)> {
    var state: B
    const exec: Exec<B>

    constructor (state: B, exec: Exec<B>)
      ensures this.state == state && this.exec == exec
    {
      this.state := state;
      this.exec := exec;
    }

    method Perform(op: Op) returns (out: Outcome)
      modifies this
      ensures (state, out) == exec(old(state), op)
    {
      var (state', r) := exec(state, op);
      state, out := state', r;
    }
  }

  /** One reply for a simple outcome, an error message for a failure. */
  function SimpleReply(id: u32, out: Outcome): Message {
    match out
    case Inode(inode) => LookupRes(id, inode)
    case Attrs(attr) => AttrMessage(attr, id)
    case Statistics(stats) => StatsMessage(stats, id)
    case Fail(e) => FromError(id, e)
    case _ => SuccessRes(id)
  }

  method HandleRead<B(!new)>(id: u32, op: Op, fs: Backend<B>) returns (replies: seq<Message>)
    requires Sane(fs.exec) && op.ReadFile?
    modifies fs
    ensures fs.state == fs.exec(old(fs.state), op).0 && replies == Replies(id, op, fs.exec(old(fs.state), op).1)
  {
    hide ChunksOf;
    var out := fs.Perform(op);
    if out.Fail? {
      return [FromError(id, out.error)];
    }
    replies := AssembleReadResChunks(id, out.data);
  }

  method HandleReadDir<B(!new)>(id: u32, op: Op, fs: Backend<B>) returns (replies: seq<Message>)
    requires Sane(fs.exec) && op.ReadDir?
    modifies fs
    ensures fs.state == fs.exec(old(fs.state), op).0 && replies == Replies(id, op, fs.exec(old(fs.state), op).1)
  {
    hide ChunksOf, Pack;
    var out := fs.Perform(op);
    if out.Fail? {
      return [FromError(id, out.error)];
    }
    var payload := SerializeDirEntries(out.entries);
    replies := AssembleReadResChunks(id, payload);
  }

  method HandleSimple<B(!new)>(id: u32, op: Op, fs: Backend<B>) returns (replies: seq<Message>)
    requires Sane(fs.exec) && !op.ReadFile? && !op.ReadDir?
    modifies fs
    ensures fs.state == fs.exec(old(fs.state), op).0 && replies == Replies(id, op, fs.exec(old(fs.state), op).1)
  {
    var out := fs.Perform(op);
    replies := [SimpleReply(id, out)];
  }

  /** The replies to one message, and what it does to the backend. */
  method HandleMsg<B(!new)>(msg: Message, fs: Backend<B>) returns (replies: seq<Message>)
    requires Sane(fs.exec)
    modifies fs
    ensures match OpOf(msg)
            case Some(op) =>
              && fs.state == fs.exec(old(fs.state), op).0
              && replies == Replies(msg.requestId, op, fs.exec(old(fs.state), op).1)
            case None =>
              && fs.state == old(fs.state)
              && replies == if msg.InitReq? then [InitRes(msg.requestId, msg.version == 0)] else []
    ensures (fs.state, replies) == Serve(fs.exec, old(fs.state), msg)
  {
    hide Replies, Fits;
    match msg {
      case InitReq(id, version) =>
        replies := [InitRes(id, version == 0x00)];
      case LookupReq(id, dir, filename) =>
        replies := HandleSimple(id, Lookup(dir, filename), fs);
      case GetAttrReq(id, inode) =>
        replies := HandleSimple(id, GetAttr(inode), fs);
      case SetAttrReq(id, inode, size, atime, mtime, permissions, uid, gid) =>
        replies := HandleSimple(id, SetAttr(inode, size, UnmapTime(atime), UnmapTime(mtime), permissions, uid, gid), fs);
      case StatsReq(id) =>
        replies := HandleSimple(id, Stats, fs);
      case CreateReq(id, dir, permissions, flags, isDirectory, filename) =>
        if isDirectory {
          replies := HandleSimple(id, CreateDir(dir, permissions, filename), fs);
        } else {
          replies := HandleSimple(id, CreateFile(dir, permissions, flags, filename), fs);
        }
      case ReadReq(id, inode, offset, length) =>
        replies := HandleRead(id, ReadFile(inode, offset, length), fs);
      case WriteReq(id, inode, offset, data) =>
        replies := HandleSimple(id, WriteFile(inode, offset, data), fs);
      case ReaddirReq(id, inode) =>
        replies := HandleReadDir(id, ReadDir(inode), fs);
      case RmReq(id, inode) =>
        replies := HandleSimple(id, Remove(inode), fs);
      case MoveReq(id, inode, dir, filename) =>
        replies := HandleSimple(id, Rename(inode, dir, filename), fs);
      case _ =>
        replies := [];
    }
  }

  // ----- The connection's two loops -----

  class ClientSession {
    var reader: ByteBuffer
    var writer: ByteBuffer
    var spawned: seq<Message>
    var replyQueue: seq<Message>

    /** The session is the server's side of connection `conn`: what has been read but not
        decoded, the message each task was spawned for, and the bounded reply queue. */
    ghost predicate Represents(conn: Conn, messages: seq<Message>)
      reads this, writer, reader
    {
      && writer != reader
      && reader.bytes == conn.upBuffer && writer.bytes == conn.downBytes
      && spawned == messages && |messages| == |conn.tasks|
      && (forall k | 0 <= k < |messages| && conn.tasks[k].Queued? :: conn.tasks[k].m == messages[k])
      && |replyQueue| == |conn.replies| && forall i | 0 <= i < |replyQueue| :: replyQueue[i] == conn.replies[i].m
    }

    constructor ()
      ensures Represents(NEW_CONN, []) && fresh(writer) && fresh(reader)
    {
      reader := new ByteBuffer();
      writer := new ByteBuffer();
      spawned, replyQueue := [], [];
    }

    /** Spawns a task for every complete message read so far, in arrival order. */
    method ReadLoop(ghost conn: Conn, ghost messages: seq<Message>)
      returns (ghost conn': Conn, ghost messages': seq<Message>)
      requires Represents(conn, messages)
      modifies this, reader
      ensures writer == old(writer) && reader == old(reader)
      ensures conn' == SpawnedAll(conn) && messages <= messages' && Represents(conn', messages')
      ensures spawned == old(spawned) + Drain(old(reader.bytes)).msgs
    {
      hide Decode;
      conn', messages' := conn, messages;
      ghost var arriving := Drain(reader.bytes).msgs;
      assert spawned + arriving == old(spawned) + arriving;
      var more := true;
      while more
        invariant writer == old(writer) && reader == old(reader)
        invariant Represents(conn', messages') && messages <= messages'
        invariant SpawnedAll(conn) == SpawnedAll(conn')
        invariant more ==> spawned + Drain(reader.bytes).msgs == old(spawned) + arriving
        invariant !more ==> conn' == SpawnedAll(conn) && spawned == old(spawned) + arriving
        decreases more, |reader.bytes|
      {
        ghost var before := conn';
        var r := DecodeFrom(reader);
        match r {
          case Frame(msg) =>
            MessageLaws.DecodeConsumes(before.upBuffer);
            assert spawned + ([msg] + Drain(reader.bytes).msgs) == (spawned + [msg]) + Drain(reader.bytes).msgs;
            spawned := spawned + [msg];
            conn', messages' := Spawned(before), messages' + [msg];
          case _ =>
            assert spawned + [] == spawned;
            more := false;
        }
      }
    }

    /** Drains the reply queue to the wire, in order. */
    method WriteLoop(ghost conn: Conn, ghost messages: seq<Message>) returns (ghost conn': Conn)
      requires Represents(conn, messages)
      modifies this, writer
      ensures writer == old(writer) && reader == old(reader)
      ensures conn' == WrittenAll(conn) && Represents(conn', messages) && replyQueue == []
    {
      hide Encode;
      conn' := conn;
      while replyQueue != []
        invariant writer == old(writer) && reader == old(reader)
        invariant Represents(conn', messages) && WrittenAll(conn) == WrittenAll(conn')
        decreases |replyQueue|
      {
        var msg := replyQueue[0];
        replyQueue := replyQueue[1..];
        EncodeInto(msg, writer);
        conn' := Written(conn');
      }
    }
  }

  ghost function SpawnedAll(conn: Conn): Conn
    decreases |conn.upBuffer|
  {
    if Decode(conn.upBuffer).Got? then
      MessageLaws.DecodeConsumes(conn.upBuffer);
      SpawnedAll(Spawned(conn))
    else conn
  }

  ghost function WrittenAll(conn: Conn): Conn
    decreases |conn.replies|
  {
    if conn.replies == [] then conn else WrittenAll(Written(conn))
  }
}
