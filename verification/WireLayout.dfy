/** The bytes on the wire, position by position: what any other implementation of the protocol
    must write and expect, stated without this project's writer or reader. */
module WireLayout {
  import opened Bytes
  import opened FileTypes
  import opened Messages
  import opened DirEntries

  /** The `n` bytes of `s` from position `i` on, as one big-endian number. */
  function Number(s: seq<byte>, i: nat, n: nat): nat
    requires i + n <= |s|
  {
    if n == 0 then 0 else 0x100 * Number(s, i, n - 1) + s[i + n - 1] as int
  }

  /** What stands in `s` from position `i` on. */
  predicate At(s: seq<byte>, i: nat, t: seq<byte>) {
    i <= |s| && s[i..] == t
  }

  lemma At8(s: seq<byte>, i: nat, v: u8, t: seq<byte>)
    requires At(s, i, PutU8(v, t))
    ensures i + 1 <= |s| && s[i] == v && At(s, i + 1, t)
  {
    assert s[i] == s[i..][0] && s[i + 1..] == s[i..][1..];
  }

  lemma Joined(s: seq<byte>, i: nat)
    ensures i + 2 <= |s| ==> Number(s, i, 2) == Number(s, i, 1) * 0x100 + Number(s, i + 1, 1)
    ensures i + 4 <= |s| ==> Number(s, i, 4) == Number(s, i, 2) * 0x1_0000 + Number(s, i + 2, 2)
    ensures i + 8 <= |s| ==> Number(s, i, 8) == Number(s, i, 4) * 0x1_0000_0000 + Number(s, i + 4, 4)
  {
    if i + 4 <= |s| {
      assert Number(s, i, 4) == 0x100 * Number(s, i, 3) + s[i + 3] as int;
      assert Number(s, i + 2, 2) == 0x100 * Number(s, i + 2, 1) + s[i + 3] as int;
    }
    if i + 8 <= |s| {
      assert Number(s, i, 6) == 0x100 * Number(s, i, 5) + s[i + 5] as int;
      assert Number(s, i + 4, 4) == 0x100 * Number(s, i + 4, 3) + s[i + 7] as int;
      assert Number(s, i + 4, 3) == 0x100 * Number(s, i + 4, 2) + s[i + 6] as int;
      assert Number(s, i + 4, 2) == 0x100 * Number(s, i + 4, 1) + s[i + 5] as int;
    }
  }

  lemma At16(s: seq<byte>, i: nat, v: u16, t: seq<byte>)
    requires At(s, i, PutU16(v, t))
    ensures i + 2 <= |s| && Number(s, i, 2) == v && At(s, i + 2, t)
  {
    At8(s, i, v / 0x100, PutU8(v % 0x100, t));
    At8(s, i + 1, v % 0x100, t);
    Joined(s, i);
    assert Number(s, i, 1) == v / 0x100 && Number(s, i + 1, 1) == v % 0x100;
  }

  lemma At32(s: seq<byte>, i: nat, v: u32, t: seq<byte>)
    requires At(s, i, PutU32(v, t))
    ensures i + 4 <= |s| && Number(s, i, 4) == v && At(s, i + 4, t)
  {
    hide PutU16, Number;
    At16(s, i, v / 0x1_0000, PutU16(v % 0x1_0000, t));
    At16(s, i + 2, v % 0x1_0000, t);
    Joined(s, i);
  }

  lemma At64(s: seq<byte>, i: nat, v: u64, t: seq<byte>)
    requires At(s, i, PutU64(v, t))
    ensures i + 8 <= |s| && Number(s, i, 8) == v && At(s, i + 8, t)
  {
    hide PutU32, Number;
    At32(s, i, v / 0x1_0000_0000, PutU32(v % 0x1_0000_0000, t));
    At32(s, i + 4, v % 0x1_0000_0000, t);
    Joined(s, i);
  }

  /** Following the fields of a frame, whatever their values. */
  lemma Fields(s: seq<byte>)
    ensures forall i: nat, v: u8, t: seq<byte> {:trigger At(s, i, PutU8(v, t))} ::
              At(s, i, PutU8(v, t)) ==> i + 1 <= |s| && s[i] == v && At(s, i + 1, t)
    ensures forall i: nat, v: u16, t: seq<byte> {:trigger At(s, i, PutU16(v, t))} ::
              At(s, i, PutU16(v, t)) ==> i + 2 <= |s| && Number(s, i, 2) == v && At(s, i + 2, t)
    ensures forall i: nat, v: u32, t: seq<byte> {:trigger At(s, i, PutU32(v, t))} ::
              At(s, i, PutU32(v, t)) ==> i + 4 <= |s| && Number(s, i, 4) == v && At(s, i + 4, t)
    ensures forall i: nat, v: u64, t: seq<byte> {:trigger At(s, i, PutU64(v, t))} ::
              At(s, i, PutU64(v, t)) ==> i + 8 <= |s| && Number(s, i, 8) == v && At(s, i + 8, t)
  {
    forall i: nat, v: u8, t: seq<byte> | At(s, i, PutU8(v, t)) ensures i + 1 <= |s| && s[i] == v && At(s, i + 1, t) {
      At8(s, i, v, t);
    }
    forall i: nat, v: u16, t: seq<byte> | At(s, i, PutU16(v, t))
      ensures i + 2 <= |s| && Number(s, i, 2) == v && At(s, i + 2, t)
    {
      At16(s, i, v, t);
    }
    forall i: nat, v: u32, t: seq<byte> | At(s, i, PutU32(v, t))
      ensures i + 4 <= |s| && Number(s, i, 4) == v && At(s, i + 4, t)
    {
      At32(s, i, v, t);
    }
    forall i: nat, v: u64, t: seq<byte> | At(s, i, PutU64(v, t))
      ensures i + 8 <= |s| && Number(s, i, 8) == v && At(s, i + 8, t)
    {
      At64(s, i, v, t);
    }
  }

  /** The frame of `m`, from its first byte to its last. */
  lemma Start(m: Message)
    ensures var s := Encode(m);
            && At(s, 0, PutU8(Tag(m), EncodeBody(m, [])))
            && |s| > 0 && s[0] == Tag(m) && At(s, 1, EncodeBody(m, []))
  {
    hide EncodeBody;
    var s := Encode(m);
    assert s[0..] == s;
    At8(s, 0, Tag(m), EncodeBody(m, []));
  }

  lemma Rest(s: seq<byte>, i: nat, data: seq<byte>)
    requires At(s, i, PutBytes(data, []))
    ensures |s| == i + |data| && s[i..] == data
  {
  }

  lemma End(s: seq<byte>, i: nat)
    requires At(s, i, [])
    ensures |s| == i
  {
  }

  // ----- Every message -----

  lemma TypeAndId(m: Message)
    ensures var s := Encode(m);
            && |s| >= 5 && Number(s, 1, 4) == m.requestId
            && s[0] == match m
                       case Error(_, _, _) => 0x00
                       case InitReq(_, _) => 0x01
                       case InitRes(_, _) => 0x02
                       case LookupReq(_, _, _) => 0x03
                       case LookupRes(_, _) => 0x04
                       case GetAttrReq(_, _) => 0x05
                       case FileAttrRes(_, _, _, _, _, _, _, _, _, _, _, _, _) => 0x06
                       case SetAttrReq(_, _, _, _, _, _, _, _) => 0x07
                       case SuccessRes(_) => 0x08
                       case StatsReq(_) => 0x09
                       case StatsRes(_, _, _, _, _, _, _, _, _) => 0x0A
                       case CreateReq(_, _, _, _, _, _) => 0x0B
                       case ReadReq(_, _, _, _) => 0x0C
                       case ReadRes(_, _, _, _) => 0x0D
                       case WriteReq(_, _, _, _) => 0x0E
                       case ReaddirReq(_, _) => 0x0F
                       case RmReq(_, _) => 0x10
                       case MoveReq(_, _, _, _) => 0x11
  {
    hide PutU8, PutU16, PutU32, PutU64, PutBytes, Number, At, Encode;
    Start(m);
    Fields(Encode(m));
  }

  // ----- Bytes that are divided into bits -----

  lemma TopBits(version: u8, flag: bool)
    ensures version < 0x10 ==> ToHighBits(version, 4) == 0x10 * version
    ensures FlagByte(flag) == if flag then 0x80 else 0
  {
    if version < 0x10 {
      assert version % 0x100 == version;
    }
  }

  lemma TypeBits(t: FileType)
    ensures ToHighBits(TypeCode(t), 5)
         == 0x20 * match t case Pipe => 0 case CharDevice => 1 case BlockDevice => 2 case Directory => 3
                           case RegularFile => 4 case Symlink => 5 case Socket => 6
  {
  }

  lemma MaskSum(size: Option<u64>, atime: Option<u64>, mtime: Option<u64>, permissions: Option<u16>,
                uid: Option<u32>, gid: Option<u32>)
    ensures MaskByte(size, atime, mtime, permissions, uid, gid)
         == (if size.Some? then 0x04 else 0) + (if atime.Some? then 0x08 else 0)
            + (if mtime.Some? then 0x10 else 0) + (if permissions.Some? then 0x20 else 0)
            + (if uid.Some? then 0x40 else 0) + (if gid.Some? then 0x80 else 0)
  {
  }

  // ----- Fields that may be absent -----

  lemma OptionalFields(s: seq<byte>)
    ensures forall i: nat, v: Option<u16>, t: seq<byte> {:trigger At(s, i, PutOpt16(v, t))} ::
              At(s, i, PutOpt16(v, t)) ==>
                At(s, i + (if v.Some? then 2 else 0), t) && (v.Some? ==> i + 2 <= |s| && Number(s, i, 2) == v.value)
    ensures forall i: nat, v: Option<u32>, t: seq<byte> {:trigger At(s, i, PutOpt32(v, t))} ::
              At(s, i, PutOpt32(v, t)) ==>
                At(s, i + (if v.Some? then 4 else 0), t) && (v.Some? ==> i + 4 <= |s| && Number(s, i, 4) == v.value)
    ensures forall i: nat, v: Option<u64>, t: seq<byte> {:trigger At(s, i, PutOpt64(v, t))} ::
              At(s, i, PutOpt64(v, t)) ==>
                At(s, i + (if v.Some? then 8 else 0), t) && (v.Some? ==> i + 8 <= |s| && Number(s, i, 8) == v.value)
  {
    hide PutU8, PutU16, PutU32, PutU64, Number, At;
    Fields(s);
  }

  // ----- The single layouts, from byte 5 on -----

  lemma BareLayout(m: Message)
    requires m.SuccessRes? || m.StatsReq?
    ensures |Encode(m)| == 5
  {
    hide PutU8, PutU16, PutU32, PutU64, PutBytes, Number, At, Encode;
    var s := Encode(m);
    Start(m);
    Fields(s);
    End(s, 5);
  }

  /** Of four messages the one field left is an inode. */
  lemma InodeLayout(m: Message)
    requires m.LookupRes? || m.GetAttrReq? || m.ReaddirReq? || m.RmReq?
    ensures |Encode(m)| == 13
    ensures m.LookupRes? ==> Number(Encode(m), 5, 8) == m.inode
    ensures m.GetAttrReq? ==> Number(Encode(m), 5, 8) == m.inode
    ensures m.ReaddirReq? ==> Number(Encode(m), 5, 8) == m.inode
    ensures m.RmReq? ==> Number(Encode(m), 5, 8) == m.inode
  {
    hide PutU8, PutU16, PutU32, PutU64, PutBytes, Number, At, Encode;
    var s := Encode(m);
    Start(m);
    Fields(s);
    End(s, 13);
  }

  /** The code, the length of the text and the text. */
  lemma ErrorLayout(m: Message)
    requires m.Error?
    ensures var s := Encode(m);
            && |s| == 8 + |m.text|
            && s[5] == (match m.code case Internal => 0 case Invalid => 1 case NotFound => 2 case Exists => 3
                        case Unsupported => 4)
            && Number(s, 6, 2) == |m.text| % 0x1_0000 && s[8..] == m.text
  {
    hide PutU8, PutU16, PutU32, PutU64, PutBytes, Number, At, Encode;
    var s := Encode(m);
    Start(m);
    Fields(s);
    Rest(s, 8, m.text);
  }

  /** The version stands in the upper four bits, and an answer in the topmost one. */
  lemma HandshakeLayout(m: Message)
    requires m.InitReq? || m.InitRes?
    ensures var s := Encode(m);
            && |s| == 6
            && (m.InitReq? && m.version < 0x10 ==> s[5] == 0x10 * m.version)
            && (m.InitRes? ==> s[5] == if m.accepted then 0x80 else 0)
  {
    hide PutU8, PutU16, PutU32, PutU64, PutBytes, Number, At, Encode;
    var s := Encode(m);
    Start(m);
    Fields(s);
    End(s, 6);
    TopBits(if m.InitReq? then m.version else 0, m.InitRes? && m.accepted);
  }

  lemma LookupLayout(m: Message)
    requires m.LookupReq?
    ensures var s := Encode(m);
            && |s| == 14 + |m.filename|
            && Number(s, 5, 8) == m.dirInode && s[13] == |m.filename| % 0x100 && s[14..] == m.filename
  {
    hide PutU8, PutU16, PutU32, PutU64, PutBytes, Number, At, Encode;
    var s := Encode(m);
    Start(m);
    Fields(s);
    Rest(s, 14, m.filename);
  }

  /** The file type stands in the upper three bits of its byte. */
  lemma FileAttrLayout(m: Message)
    requires m.FileAttrRes?
    ensures var s := Encode(m);
            && |s| == 68
            && s[5] == 0x20 * (match m.fileType case Pipe => 0 case CharDevice => 1 case BlockDevice => 2
                               case Directory => 3 case RegularFile => 4 case Symlink => 5 case Socket => 6)
            && Number(s, 6, 8) == m.size && Number(s, 14, 8) == m.blocks
            && Number(s, 22, 8) == m.atime && Number(s, 30, 8) == m.mtime && Number(s, 38, 8) == m.ctime
            && Number(s, 46, 2) == m.permissions && Number(s, 48, 4) == m.nlinks
            && Number(s, 52, 4) == m.uid && Number(s, 56, 4) == m.gid
            && Number(s, 60, 4) == m.rdev && Number(s, 64, 4) == m.blksize
  {
    hide PutU8, PutU16, PutU32, PutU64, PutBytes, Number, At, Encode;
    var s := Encode(m);
    Start(m);
    Fields(s);
    End(s, 68);
    TypeBits(m.fileType);
  }

  lemma StatsLayout(m: Message)
    requires m.StatsRes?
    ensures var s := Encode(m);
            && |s| == 57
            && Number(s, 5, 4) == m.blksize && Number(s, 9, 8) == m.blocks && Number(s, 17, 8) == m.freeBlocks
            && Number(s, 25, 8) == m.availBlocks && Number(s, 33, 8) == m.totalInodes && Number(s, 41, 8) == m.freeInodes
            && Number(s, 49, 4) == m.maxFilenameLen && Number(s, 53, 4) == m.fragmentSize
  {
    hide PutU8, PutU16, PutU32, PutU64, PutBytes, Number, At, Encode;
    var s := Encode(m);
    Start(m);
    Fields(s);
    End(s, 57);
  }

  lemma CreateLayout(m: Message)
    requires m.CreateReq?
    ensures var s := Encode(m);
            && |s| == 21 + |m.filename|
            && Number(s, 5, 8) == m.dirInode && Number(s, 13, 2) == m.permissions && Number(s, 15, 4) == m.unixFlags
            && s[19] == (if m.isDirectory then 0x80 else 0)
            && s[20] == |m.filename| % 0x100 && s[21..] == m.filename
  {
    hide PutU8, PutU16, PutU32, PutU64, PutBytes, Number, At, Encode;
    var s := Encode(m);
    Start(m);
    Fields(s);
    Rest(s, 21, m.filename);
    TopBits(0, m.isDirectory);
  }

  lemma ReadLayout(m: Message)
    requires m.ReadReq?
    ensures var s := Encode(m);
            && |s| == 29
            && Number(s, 5, 8) == m.inode && Number(s, 13, 8) == m.offset && Number(s, 21, 8) == m.length
  {
    hide PutU8, PutU16, PutU32, PutU64, PutBytes, Number, At, Encode;
    var s := Encode(m);
    Start(m);
    Fields(s);
    End(s, 29);
  }

  /** The length of a chunk stands between the total and the offset. */
  lemma ChunkLayout(m: Message)
    requires m.ReadRes?
    ensures var s := Encode(m);
            && |s| == 23 + |m.data|
            && Number(s, 5, 8) == m.totalLength && Number(s, 13, 2) == |m.data| % 0x1_0000
            && Number(s, 15, 8) == m.chunkOffset
            && s[23..] == m.data
  {
    hide PutU8, PutU16, PutU32, PutU64, PutBytes, Number, At, Encode;
    var s := Encode(m);
    Start(m);
    Fields(s);
    Rest(s, 23, m.data);
  }

  lemma WriteLayout(m: Message)
    requires m.WriteReq?
    ensures var s := Encode(m);
            && |s| == 25 + |m.data|
            && Number(s, 5, 8) == m.inode && Number(s, 13, 8) == m.offset && Number(s, 21, 4) == |m.data| % 0x1_0000_0000
            && s[25..] == m.data
  {
    hide PutU8, PutU16, PutU32, PutU64, PutBytes, Number, At, Encode;
    var s := Encode(m);
    Start(m);
    Fields(s);
    Rest(s, 25, m.data);
  }

  lemma MoveLayout(m: Message)
    requires m.MoveReq?
    ensures var s := Encode(m);
            && |s| == 22 + |m.destFilename|
            && Number(s, 5, 8) == m.inode && Number(s, 13, 8) == m.destDirInode
            && s[21] == |m.destFilename| % 0x100 && s[22..] == m.destFilename
  {
    hide PutU8, PutU16, PutU32, PutU64, PutBytes, Number, At, Encode;
    var s := Encode(m);
    Start(m);
    Fields(s);
    Rest(s, 22, m.destFilename);
  }

  /** The mask says which of the six fields are there; those that are follow in this order. */
  lemma SetAttrLayout(m: Message)
    requires m.SetAttrReq?
    ensures var s := Encode(m);
            var atime := 14 + if m.newSize.Some? then 8 else 0;
            var mtime := atime + if m.newAtime.Some? then 8 else 0;
            var permissions := mtime + if m.newMtime.Some? then 8 else 0;
            var uid := permissions + if m.newPermissions.Some? then 2 else 0;
            var gid := uid + if m.newUid.Some? then 4 else 0;
            && |s| == gid + (if m.newGid.Some? then 4 else 0)
            && Number(s, 5, 8) == m.inode
            && s[13] == (if m.newSize.Some? then 0x04 else 0) + (if m.newAtime.Some? then 0x08 else 0)
                        + (if m.newMtime.Some? then 0x10 else 0) + (if m.newPermissions.Some? then 0x20 else 0)
                        + (if m.newUid.Some? then 0x40 else 0) + (if m.newGid.Some? then 0x80 else 0)
            && (m.newSize.Some? ==> Number(s, 14, 8) == m.newSize.value)
            && (m.newAtime.Some? ==> Number(s, atime, 8) == m.newAtime.value)
            && (m.newMtime.Some? ==> Number(s, mtime, 8) == m.newMtime.value)
            && (m.newPermissions.Some? ==> Number(s, permissions, 2) == m.newPermissions.value)
            && (m.newUid.Some? ==> Number(s, uid, 4) == m.newUid.value)
            && (m.newGid.Some? ==> Number(s, gid, 4) == m.newGid.value)
  {
    hide PutU8, PutU16, PutU32, PutU64, PutOpt16, PutOpt32, PutOpt64, MaskByte, Number, At, Encode;
    var s := Encode(m);
    Start(m);
    Fields(s);
    MaskSum(m.newSize, m.newAtime, m.newMtime, m.newPermissions, m.newUid, m.newGid);
    OptionalFields(s);
    var atime := 14 + if m.newSize.Some? then 8 else 0;
    var mtime := atime + if m.newAtime.Some? then 8 else 0;
    var permissions := mtime + if m.newMtime.Some? then 8 else 0;
    var uid := permissions + if m.newPermissions.Some? then 2 else 0;
    var gid := uid + if m.newUid.Some? then 4 else 0;
    var last := PutOpt32(m.newGid, []);
    assert At(s, mtime, PutOpt64(m.newMtime, PutOpt16(m.newPermissions, PutOpt32(m.newUid, last))));
    assert At(s, gid, last);
    End(s, gid + if m.newGid.Some? then 4 else 0);
  }

  // ----- Directory entries -----

  /** An entry of a listing: inode, type, length of the name, name. */
  lemma EntryLayout(e: DirEntry, t: seq<byte>)
    ensures var s := PutEntry(e, t);
            && |s| == 10 + |e.filename| + |t|
            && Number(s, 0, 8) == e.inode
            && s[8] == (match e.fileType case Pipe => 0 case CharDevice => 1 case BlockDevice => 2 case Directory => 3
                        case RegularFile => 4 case Symlink => 5 case Socket => 6)
            && s[9] == |e.filename| % 0x100 && s[10..] == e.filename + t
  {
    hide PutU8, PutU16, PutU32, PutU64, PutBytes, Number, At;
    var s := PutEntry(e, t);
    assert At(s, 0, s) by {
      Whole(s);
    }
    Fields(s);
    Behind(s, 10, e.filename, t);
  }

  /** And a listing is its entries one after the other. */
  lemma ListingLayout(entries: seq<DirEntry>)
    ensures entries == [] ==> Pack(entries) == []
    ensures entries != [] ==>
              var s, e := Pack(entries), entries[0];
              && |s| >= 10 + |e.filename| && Number(s, 0, 8) == e.inode && s[9] == |e.filename| % 0x100
              && s[10..10 + |e.filename|] == e.filename && s[10 + |e.filename|..] == Pack(entries[1..])
  {
    hide Number, PutEntry;
    if entries != [] {
      var s, e, t := Pack(entries), entries[0], Pack(entries[1..]);
      EntryLayout(e, t);
      assert s[10..][..|e.filename|] == e.filename && s[10..][|e.filename|..] == t;
    }
  }

  lemma Whole(s: seq<byte>)
    ensures At(s, 0, s)
  {
  }

  lemma Behind(s: seq<byte>, i: nat, data: seq<byte>, t: seq<byte>)
    requires At(s, i, PutBytes(data, t))
    ensures |s| == i + |data| + |t| && s[i..] == data + t
  {
  }
}
