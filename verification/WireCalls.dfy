/** The frames of a call: the bytes each operation sends, and the bytes each outcome is
    answered with. */
module WireCalls {
  import opened Bytes
  import opened Messages
  import opened Conversions
  import opened DirEntries
  import opened Chunks
  import opened Stub
  import opened WireLayout

  // ----- Requests -----

  /** Every operation has a message type of its own, but that creating a file and creating a
      directory share one. */
  lemma RequestType(op: Op, id: u32)
    ensures var s := Encode(Request(op).WithId(id));
            && |s| >= 5 && Number(s, 1, 4) == id
            && s[0] == match op
                       case Lookup(_, _) => 0x03
                       case GetAttr(_) => 0x05
                       case SetAttr(_, _, _, _, _, _, _) => 0x07
                       case Stats => 0x09
                       case CreateFile(_, _, _, _) => 0x0B
                       case CreateDir(_, _, _) => 0x0B
                       case ReadFile(_, _, _) => 0x0C
                       case WriteFile(_, _, _) => 0x0E
                       case ReadDir(_) => 0x0F
                       case Remove(_) => 0x10
                       case Rename(_, _, _) => 0x11
  {
    hide Encode, Number;
    TypeAndId(Request(op).WithId(id));
  }

  /** Whatever an operation is about, the inode or directory it starts from comes first. */
  lemma RequestInode(op: Op, id: u32)
    ensures var s := Encode(Request(op).WithId(id));
            if op.Stats? then |s| == 5
            else |s| >= 13 && Number(s, 5, 8) == match op
                                                 case Lookup(dir, _) => dir
                                                 case GetAttr(inode) => inode
                                                 case SetAttr(inode, _, _, _, _, _, _) => inode
                                                 case CreateFile(dir, _, _, _) => dir
                                                 case CreateDir(dir, _, _) => dir
                                                 case ReadFile(inode, _, _) => inode
                                                 case WriteFile(inode, _, _) => inode
                                                 case ReadDir(inode) => inode
                                                 case Remove(inode) => inode
                                                 case Rename(inode, _, _) => inode
                                                 case Stats => 0
  {
    hide Encode, Number;
    var m := Request(op).WithId(id);
    match op
    case Lookup(_, _) => LookupLayout(m);
    case SetAttr(_, _, _, _, _, _, _) => SetAttrLayout(m);
    case Stats => BareLayout(m);
    case CreateFile(_, _, _, _) => CreateLayout(m);
    case CreateDir(_, _, _) => CreateLayout(m);
    case ReadFile(_, _, _) => ReadLayout(m);
    case WriteFile(_, _, _) => WriteLayout(m);
    case Rename(_, _, _) => MoveLayout(m);
    case _ => InodeLayout(m);
  }

  /** Three operations have no other argument; those of the rest follow. */
  lemma NoArguments(op: Op, id: u32)
    requires op.GetAttr? || op.ReadDir? || op.Remove?
    ensures |Encode(Request(op).WithId(id))| == 13
  {
    hide Encode, Number;
    InodeLayout(Request(op).WithId(id));
  }

  lemma LookupArguments(dir: u64, name: seq<byte>, id: u32)
    ensures var s := Encode(Request(Lookup(dir, name)).WithId(id));
            |s| == 14 + |name| && s[13] == |name| % 0x100 && s[14..] == name
  {
    hide Encode, Number;
    LookupLayout(Request(Lookup(dir, name)).WithId(id));
  }

  lemma CreateFileArguments(dir: u64, mode: u16, flags: u32, name: seq<byte>, id: u32)
    ensures var s := Encode(Request(CreateFile(dir, mode, flags, name)).WithId(id));
            && |s| == 21 + |name| && Number(s, 13, 2) == mode && Number(s, 15, 4) == flags
            && s[19] == 0 && s[20] == |name| % 0x100 && s[21..] == name
  {
    hide Encode, Number;
    CreateLayout(Request(CreateFile(dir, mode, flags, name)).WithId(id));
  }

  lemma CreateDirArguments(dir: u64, mode: u16, name: seq<byte>, id: u32)
    ensures var s := Encode(Request(CreateDir(dir, mode, name)).WithId(id));
            && |s| == 21 + |name| && Number(s, 13, 2) == mode && Number(s, 15, 4) == 0
            && s[19] == 0x80 && s[20] == |name| % 0x100 && s[21..] == name
  {
    hide Encode, Number;
    CreateLayout(Request(CreateDir(dir, mode, name)).WithId(id));
  }

  lemma ReadArguments(inode: u64, offset: u64, length: u64, id: u32)
    ensures var s := Encode(Request(ReadFile(inode, offset, length)).WithId(id));
            |s| == 29 && Number(s, 13, 8) == offset && Number(s, 21, 8) == length
  {
    hide Encode, Number;
    ReadLayout(Request(ReadFile(inode, offset, length)).WithId(id));
  }

  lemma WriteArguments(inode: u64, offset: u64, data: seq<byte>, id: u32)
    ensures var s := Encode(Request(WriteFile(inode, offset, data)).WithId(id));
            && |s| == 25 + |data| && Number(s, 13, 8) == offset
            && Number(s, 21, 4) == |data| % 0x1_0000_0000 && s[25..] == data
  {
    hide Encode, Number;
    WriteLayout(Request(WriteFile(inode, offset, data)).WithId(id));
  }

  lemma RenameArguments(inode: u64, dir: u64, name: seq<byte>, id: u32)
    ensures var s := Encode(Request(Rename(inode, dir, name)).WithId(id));
            |s| == 22 + |name| && Number(s, 13, 8) == dir && s[21] == |name| % 0x100 && s[22..] == name
  {
    hide Encode, Number;
    MoveLayout(Request(Rename(inode, dir, name)).WithId(id));
  }

  /** SET_ATTR_REQ lays out its fields as given, times in whole seconds since the epoch. */
  lemma SetAttrArguments(op: Op, id: u32)
    requires op.SetAttr?
    ensures var m := Request(op).WithId(id);
            && m.SetAttrReq?
            && m.newSize == op.size && m.newPermissions == op.permissions && m.newUid == op.uid && m.newGid == op.gid
            && m.newAtime == (match op.atime case None => None case Some(t) =>
                              Some(if t < 0 then 0 else t / 1_000_000_000))
            && m.newMtime == (match op.mtime case None => None case Some(t) =>
                              Some(if t < 0 then 0 else t / 1_000_000_000))
  {
  }

  // ----- Replies -----

  /** An outcome other than bytes or a listing is answered by one frame. */
  lemma SingleReply(id: u32, op: Op, out: Outcome)
    requires Fits(op, out) && !out.Contents? && !out.Listing?
    ensures |Replies(id, op, out)| == 1
    ensures var s := Encode(Replies(id, op, out)[0]);
            && |s| >= 5 && Number(s, 1, 4) == id
            && (out.Done? ==> s[0] == 0x08 && |s| == 5)
            && (out.Inode? ==> s[0] == 0x04 && |s| == 13 && Number(s, 5, 8) == out.inode)
            && (out.Attrs? ==> s[0] == 0x06 && |s| == 68)
            && (out.Statistics? ==> s[0] == 0x0A && |s| == 57)
            && (out.Fail? ==>
                  && s[0] == 0x00 && |s| == 8 + |out.error.text|
                  && s[5] == (match out.error.kind case InvalidInput => 1 case NotFoundKind => 2 case AlreadyExists => 3
                              case UnsupportedKind => 4 case _ => 0)
                  && Number(s, 6, 2) == |out.error.text| && s[8..] == out.error.text)
  {
    hide Encode, Number;
    var m := Replies(id, op, out)[0];
    TypeAndId(m);
    match out
    case Done => BareLayout(m);
    case Inode(_) => InodeLayout(m);
    case Attrs(_) => FileAttrLayout(m);
    case Statistics(_) => StatsLayout(m);
    case Fail(_) => ErrorLayout(m);
  }

  /** Attributes are answered field by field, times in whole seconds since the epoch. */
  lemma AttrReply(id: u32, a: FileAttr)
    ensures var s := Encode(Replies(id, GetAttr(0), Attrs(a))[0]);
            && |s| == 68
            && s[5] == 0x20 * (match a.fileType case Pipe => 0 case CharDevice => 1 case BlockDevice => 2
                               case Directory => 3 case RegularFile => 4 case Symlink => 5 case Socket => 6)
            && Number(s, 6, 8) == a.size && Number(s, 14, 8) == a.blocks
            && Number(s, 22, 8) == (if a.accessTime < 0 then 0 else a.accessTime / 1_000_000_000)
            && Number(s, 30, 8) == (if a.modificationTime < 0 then 0 else a.modificationTime / 1_000_000_000)
            && Number(s, 38, 8) == (if a.changeTime < 0 then 0 else a.changeTime / 1_000_000_000)
            && Number(s, 46, 2) == a.permissions && Number(s, 48, 4) == a.nHardLinks
            && Number(s, 52, 4) == a.uid && Number(s, 56, 4) == a.gid
            && Number(s, 60, 4) == a.rdev && Number(s, 64, 4) == a.blockSize
  {
    hide Encode, Number;
    FileAttrLayout(AttrMessage(a, id));
  }

  lemma StatsReply(id: u32, stats: FsStats)
    ensures var s := Encode(Replies(id, Op.Stats, Statistics(stats))[0]);
            && |s| == 57 && Number(s, 5, 4) == stats.blockSize && Number(s, 9, 8) == stats.totalBlocks
            && Number(s, 17, 8) == stats.freeBlocks && Number(s, 25, 8) == stats.availBlocks
            && Number(s, 33, 8) == stats.totalInodes && Number(s, 41, 8) == stats.freeInodes
            && Number(s, 49, 4) == stats.maxFilenameLen && Number(s, 53, 4) == stats.fragmentSize
  {
    hide Encode, Number;
    StatsLayout(StatsMessage(stats, id));
  }

  /** Bytes, a file's or those of the packed entries, are answered by a frame for every started
      65535 of them, and at least one: the total, then these bytes under their offset. */
  lemma BytesReply(id: u32, op: Op, out: Outcome, i: nat)
    requires Fits(op, out) && (out.Contents? || out.Listing?)
    ensures var data := if out.Contents? then out.data else Pack(out.entries);
            var replies := Replies(id, op, out);
            && |replies| == (if data == [] then 1 else (|data| + 65534) / 65535)
            && (i < |replies| ==>
                  var s := Encode(replies[i]);
                  var size := if i + 1 < |replies| then 65535 else |data| - 65535 * i;
                  && 0 <= size && 65535 * i + size <= |data| && |s| == 23 + size
                  && s[0] == 0x0D && Number(s, 1, 4) == id && Number(s, 5, 8) == |data|
                  && Number(s, 13, 2) == size && Number(s, 15, 8) == 65535 * i
                  && s[23..] == data[65535 * i..65535 * i + size])
  {
    hide Encode, Number, Pack;
    var data := if out.Contents? then out.data else Pack(out.entries);
    var replies := Replies(id, op, out);
    if i < |replies| {
      ChunkStarts(data, i);
      TypeAndId(replies[i]);
      ChunkLayout(replies[i]);
    }
  }
}
