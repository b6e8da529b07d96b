/** What each waiting caller makes of an inbox in which other messages stand before its own,
    behind it or among its chunks. */
module Callers {
  import opened Bytes
  import opened Messages
  import opened Conversions
  import opened DirEntries
  import opened Chunks
  import opened Stub

  // ----- Waiting for one message -----

  lemma {:induction false} FirstThatCounts(request: Message, before: seq<Message>, m: Message, after: seq<Message>)
    requires forall x | x in before :: !x.Error? && !Answers(request, x)
    ensures AwaitOne(request, before) == Waiting
    ensures m.Error? || Answers(request, m) ==> AwaitOne(request, before + [m] + after) == Ready(Meaning(m))
    decreases |before|
  {
    hide Answers, Meaning;
    var inbox := before + [m] + after;
    if before == [] {
      assert inbox[0] == m;
    } else {
      FirstThatCounts(request, before[1..], m, after);
      assert before == [before[0]] + before[1..];
      assert before[0] in before;
      assert inbox[0] == before[0] && inbox[1..] == before[1..] + [m] + after;
    }
  }

  /** A caller who waits for an inode skips what is neither that nor an error, and takes the
      first that is. */
  lemma AwaitInode(request: Message, before: seq<Message>, m: Message, after: seq<Message>)
    requires request.LookupReq? || request.CreateReq?
    requires forall x | x in before :: !x.Error? && !x.LookupRes?
    ensures Await(request, before) == Waiting
    ensures m.LookupRes? ==> Await(request, before + [m] + after) == Ready(Inode(m.inode))
    ensures m.Error? ==> Await(request, before + [m] + after) == Ready(Fail(FsError(KindOfCode(m.code), m.text)))
  {
    hide AwaitOne;
    FirstThatCounts(request, before, m, after);
  }

  /** One who waits for success. */
  lemma AwaitSuccess(request: Message, before: seq<Message>, m: Message, after: seq<Message>)
    requires request.SetAttrReq? || request.WriteReq? || request.RmReq? || request.MoveReq?
    requires forall x | x in before :: !x.Error? && !x.SuccessRes?
    ensures Await(request, before) == Waiting
    ensures m.SuccessRes? ==> Await(request, before + [m] + after) == Ready(Done)
    ensures m.Error? ==> Await(request, before + [m] + after) == Ready(Fail(FsError(KindOfCode(m.code), m.text)))
  {
    hide AwaitOne;
    FirstThatCounts(request, before, m, after);
  }

  /** One who waits for attributes, whose times are whole seconds on the wire. */
  lemma AwaitAttributes(request: Message, before: seq<Message>, m: Message, after: seq<Message>)
    requires request.GetAttrReq?
    requires forall x | x in before :: !x.Error? && !x.FileAttrRes?
    ensures Await(request, before) == Waiting
    ensures m.FileAttrRes? ==>
              Await(request, before + [m] + after)
              == Ready(Attrs(FileAttr(m.fileType, m.size, m.blocks, m.atime * 1_000_000_000, m.mtime * 1_000_000_000,
                                      m.ctime * 1_000_000_000, m.permissions, m.nlinks, m.uid, m.gid, m.rdev,
                                      m.blksize)))
    ensures m.Error? ==> Await(request, before + [m] + after) == Ready(Fail(FsError(KindOfCode(m.code), m.text)))
  {
    hide AwaitOne;
    FirstThatCounts(request, before, m, after);
  }

  /** One who waits for statistics. */
  lemma AwaitStatistics(request: Message, before: seq<Message>, m: Message, after: seq<Message>)
    requires request.StatsReq?
    requires forall x | x in before :: !x.Error? && !x.StatsRes?
    ensures Await(request, before) == Waiting
    ensures m.StatsRes? ==>
              Await(request, before + [m] + after)
              == Ready(Statistics(FsStats(m.blksize, m.blocks, m.freeBlocks, m.availBlocks, m.totalInodes, m.freeInodes,
                                          m.maxFilenameLen, m.fragmentSize)))
    ensures m.Error? ==> Await(request, before + [m] + after) == Ready(Fail(FsError(KindOfCode(m.code), m.text)))
  {
    hide AwaitOne;
    FirstThatCounts(request, before, m, after);
  }

  /** The handshake, by contrast, goes by the first message whatever it is. */
  lemma AwaitHandshake(id: u32, version: u8, m: Message, after: seq<Message>)
    ensures Await(InitReq(id, version), []) == Waiting
    ensures Await(InitReq(id, version), [m] + after)
         == Ready(if m.InitRes? && m.accepted then Connected
                  else Fail(FsError(if m.InitRes? || m.Error? then ConnectionRefused else InvalidData, [])))
  {
  }

  // ----- Waiting for chunks -----

  lemma {:induction false} RefusedAt(st: Assembly, before: seq<Message>, e: Message, after: seq<Message>)
    requires e.Error? && Combine(st, before) == Waiting
    ensures Combine(st, before + [e] + after) == Refused(e)
    decreases |before|
  {
    hide InOrder;
    var inbox := before + [e] + after;
    if before == [] {
      assert inbox[0] == e;
    } else {
      assert inbox[0] == before[0] && inbox[1..] == before[1..] + [e] + after;
      RefusedAt(if before[0].ReadRes? then Absorb(st, before[0]) else st, before[1..], e, after);
    }
  }

  /** An error that comes while bytes are still missing is the answer. */
  lemma AwaitRefused(request: Message, before: seq<Message>, e: Message, after: seq<Message>)
    requires request.ReadReq? || request.ReaddirReq?
    requires e.Error? && Await(request, before) == Waiting
    ensures Await(request, before + [e] + after) == Ready(Fail(FsError(KindOfCode(e.code), e.text)))
  {
    hide Combine, Unpack;
    NoneRefused(NOTHING, before);
    RefusedAt(NOTHING, before, e, after);
  }

  /** Only an error refuses. */
  lemma {:induction false} NoneRefused(st: Assembly, inbox: seq<Message>)
    ensures Combine(st, inbox).Refused? ==> Combine(st, inbox).error.Error?
    decreases |inbox|
  {
    hide InOrder;
    if inbox != [] {
      NoneRefused(if inbox[0].ReadRes? then Absorb(st, inbox[0]) else st, inbox[1..]);
    }
  }

  /** Chunks in any order, with messages that are neither chunks nor errors among them: a read
      returns the bytes, and a listing the entries that they parse to or, if they do not, an
      error; and both wait as long as a chunk is missing. */
  lemma AwaitBytes(request: Message, id: u32, data: Data, inbox: seq<Message>)
    requires request.ReadReq? || request.ReaddirReq?
    requires NoErrors(inbox) && multiset(Reads(inbox)) <= multiset(ChunksOf(id, data))
    ensures if multiset(Reads(inbox)) != multiset(ChunksOf(id, data)) then Await(request, inbox) == Waiting
            else if request.ReadReq? then Await(request, inbox) == Ready(Contents(data))
            else match Unpack(data)
                 case Entries(list) => Await(request, inbox) == Ready(Listing(list))
                 case BadPayload => Await(request, inbox) == Ready(Fail(FsError(Other, [])))
  {
    hide Combine, Unpack, ChunksOf, Reads;
    Reassembly(id, data, inbox);
  }
}
