/** What the layouts guarantee: reading undoes writing on exactly the well-sized messages,
    accepted frames re-encode canonically, and the reader only ever looks as far ahead as
    the frame it returns. */
module MessageLaws {
  import opened Bits
  import opened Bytes
  import opened FileTypes
  import opened Messages

  // ----- Packed bytes -----

  /** The version survives exactly when it fits the top four bits. */
  lemma VersionBits(v: byte)
    ensures HighBits(ToHighBits(v, 4), 4) == v <==> v < 0x10
    ensures HighBits(v, 4) < 0x10
  {
    var w := v as bv8;
    IntAsBits(v);
    BitsAsInt(w << 4);
    assert (w << 4) >> 4 == w <==> w < 0x10;
    assert w >> 4 < 0x10;
  }

  lemma FlagBits(a: bool)
    ensures Flag(FlagByte(a)) == a
  {
    BitsAsInt(0x80);
    assert FlagByte(true) == 0x80;
    assert FlagByte(false) == 0;
  }

  lemma TypeBits(t: FileType)
    ensures HighBits(ToHighBits(TypeCode(t), 5), 5) == TypeCode(t)
  {
    var v := TypeCode(t) as bv8;
    IntAsBits(TypeCode(t));
    BitsAsInt(v << 5);
    assert (v << 5) >> 5 == v;
  }

  lemma MaskBits(size: Option<u64>, atime: Option<u64>, mtime: Option<u64>, permissions: Option<u16>,
                 uid: Option<u32>, gid: Option<u32>)
    ensures var b := MaskByte(size, atime, mtime, permissions, uid, gid);
      && MaskHas(b, 1 << 0) == size.Some?
      && MaskHas(b, 1 << 1) == atime.Some?
      && MaskHas(b, 1 << 2) == mtime.Some?
      && MaskHas(b, 1 << 3) == permissions.Some?
      && MaskHas(b, 1 << 4) == uid.Some?
      && MaskHas(b, 1 << 5) == gid.Some?
  {
    BitsAsInt(FieldMask(size.Some?, atime.Some?, mtime.Some?, permissions.Some?, uid.Some?, gid.Some?));
  }

  // ----- Stability under extension -----

  lemma ExtendOptions(t: seq<byte>)
    ensures forall p, s {:trigger GetOpt16(p, s + t)} :: Extends(GetOpt16(p, s), GetOpt16(p, s + t), t)
    ensures forall p, s {:trigger GetOpt32(p, s + t)} :: Extends(GetOpt32(p, s), GetOpt32(p, s + t), t)
    ensures forall p, s {:trigger GetOpt64(p, s + t)} :: Extends(GetOpt64(p, s), GetOpt64(p, s + t), t)
  {
    hide GetU16, GetU32, GetU64;
    Extension(t);
  }

  lemma ExtendSetAttr(id: u32, inode: u64, mask: byte, s: seq<byte>, t: seq<byte>)
    ensures Extends(ReadSetAttrFields(id, inode, mask, s), ReadSetAttrFields(id, inode, mask, s + t), t)
  {
    hide GetOpt16, GetOpt32, GetOpt64, MaskHas;
    ExtendOptions(t);
  }

  lemma ExtendFileAttr(id: u32, fileType: FileType, s: seq<byte>, t: seq<byte>)
    ensures Extends(ReadFileAttrFields(id, fileType, s), ReadFileAttrFields(id, fileType, s + t), t)
  {
    hide GetU8, GetU16, GetU32, GetU64, GetBytes;
    Extension(t);
  }

  lemma ExtendStats(id: u32, s: seq<byte>, t: seq<byte>)
    ensures Extends(ReadStatsFields(id, s), ReadStatsFields(id, s + t), t)
  {
    hide GetU8, GetU16, GetU32, GetU64, GetBytes;
    Extension(t);
  }

  lemma ExtendCreate(id: u32, s: seq<byte>, t: seq<byte>)
    ensures Extends(ReadCreateFields(id, s), ReadCreateFields(id, s + t), t)
  {
    hide GetU8, GetU16, GetU32, GetU64, GetBytes;
    Extension(t);
  }

  lemma ExtendFields(t: seq<byte>)
    ensures forall id, inode, mask, s {:trigger ReadSetAttrFields(id, inode, mask, s + t)} ::
              Extends(ReadSetAttrFields(id, inode, mask, s), ReadSetAttrFields(id, inode, mask, s + t), t)
    ensures forall id, fileType, s {:trigger ReadFileAttrFields(id, fileType, s + t)} ::
              Extends(ReadFileAttrFields(id, fileType, s), ReadFileAttrFields(id, fileType, s + t), t)
    ensures forall id, s {:trigger ReadStatsFields(id, s + t)} ::
              Extends(ReadStatsFields(id, s), ReadStatsFields(id, s + t), t)
    ensures forall id, s {:trigger ReadCreateFields(id, s + t)} ::
              Extends(ReadCreateFields(id, s), ReadCreateFields(id, s + t), t)
  {
    hide ReadSetAttrFields, ReadFileAttrFields, ReadStatsFields, ReadCreateFields;
    forall id, inode, mask, s ensures Extends(ReadSetAttrFields(id, inode, mask, s), ReadSetAttrFields(id, inode, mask, s + t), t) {
      ExtendSetAttr(id, inode, mask, s, t);
    }
    forall id, fileType, s ensures Extends(ReadFileAttrFields(id, fileType, s), ReadFileAttrFields(id, fileType, s + t), t) {
      ExtendFileAttr(id, fileType, s, t);
    }
    forall id, s ensures Extends(ReadStatsFields(id, s), ReadStatsFields(id, s + t), t) {
      ExtendStats(id, s, t);
    }
    forall id, s ensures Extends(ReadCreateFields(id, s), ReadCreateFields(id, s + t), t) {
      ExtendCreate(id, s, t);
    }
  }

  lemma ExtendLowBody(tag: u8, s: seq<byte>, t: seq<byte>)
    requires 0x00 <= tag <= 0x08
    ensures Extends(DecodeBody(tag, s), DecodeBody(tag, s + t), t)
  {
    hide GetU8, GetU16, GetU32, GetU64, GetBytes;
    hide ReadSetAttrFields, ReadFileAttrFields, ReadStatsFields, ReadCreateFields;
    Extension(t);
    ExtendFields(t);
  }

  lemma ExtendHighBody(tag: u8, s: seq<byte>, t: seq<byte>)
    requires 0x09 <= tag <= 0x11
    ensures Extends(DecodeBody(tag, s), DecodeBody(tag, s + t), t)
  {
    hide GetU8, GetU16, GetU32, GetU64, GetBytes;
    hide ReadSetAttrFields, ReadFileAttrFields, ReadStatsFields, ReadCreateFields;
    Extension(t);
    ExtendFields(t);
  }

  lemma ExtendBody(tag: u8, s: seq<byte>, t: seq<byte>)
    requires tag <= 0x11
    ensures Extends(DecodeBody(tag, s), DecodeBody(tag, s + t), t)
  {
    hide DecodeBody;
    if tag <= 0x08 {
      ExtendLowBody(tag, s, t);
    } else {
      ExtendHighBody(tag, s, t);
    }
  }

  /** A decoded message and a rejection both survive more bytes arriving behind them. */
  lemma ExtendDecode(s: seq<byte>, t: seq<byte>)
    ensures Extends(Decode(s), Decode(s + t), t)
  {
    ExtendU8(s, t);
    if s != [] && s[0] <= 0x11 {
      ExtendBody(s[0], s[1..], t);
    }
  }

  // ----- Reading back what was written -----

  lemma ReadBackSetAttr(id: u32, inode: u64, size: Option<u64>, atime: Option<u64>, mtime: Option<u64>,
                        permissions: Option<u16>, uid: Option<u32>, gid: Option<u32>, t: seq<byte>)
    ensures ReadSetAttrFields(id, inode, MaskByte(size, atime, mtime, permissions, uid, gid),
                              PutSetAttrFields(size, atime, mtime, permissions, uid, gid, t))
         == Got(SetAttrReq(id, inode, size, atime, mtime, permissions, uid, gid), t)
  {
    MaskBits(size, atime, mtime, permissions, uid, gid);
    hide PutU8, PutU16, PutU32, PutU64, PutBytes, GetU8, GetU16, GetU32, GetU64, GetBytes;
    GetPut();
  }

  lemma ReadBackFileAttr(m: Message, t: seq<byte>)
    requires m.FileAttrRes?
    ensures DecodeBody(Tag(m), EncodeBody(m, t)) == Got(m, t)
  {
    hide PutU8, PutU16, PutU32, PutU64, PutBytes, GetU8, GetU16, GetU32, GetU64, GetBytes;
    hide HighBits, ToHighBits, TypeCode, TypeOfCode;
    GetPut();
    TypeBits(m.fileType);
    TypeCodesInvert(m.fileType, TypeCode(m.fileType),
      PutU64(m.size, PutU64(m.blocks, PutTimes(m.atime, m.mtime, m.ctime,
        PutOwner(m.permissions, m.nlinks, m.uid, m.gid, PutU32(m.rdev, PutU32(m.blksize, t)))))));
  }

  lemma ReadBackStats(m: Message, t: seq<byte>)
    requires m.StatsRes?
    ensures DecodeBody(Tag(m), EncodeBody(m, t)) == Got(m, t)
  {
    hide PutU8, PutU16, PutU32, PutU64, PutBytes, GetU8, GetU16, GetU32, GetU64, GetBytes;
    GetPut();
  }

  lemma ReadBackCreate(m: Message, t: seq<byte>)
    requires m.CreateReq? && WellSized(m)
    ensures DecodeBody(Tag(m), EncodeBody(m, t)) == Got(m, t)
  {
    hide PutU8, PutU16, PutU32, PutU64, PutBytes, GetU8, GetU16, GetU32, GetU64, GetBytes;
    hide Flag, FlagByte;
    GetPut();
    FlagBits(m.isDirectory);
  }

  lemma ReadBackSized(m: Message, t: seq<byte>)
    requires WellSized(m)
    requires !m.FileAttrRes? && !m.SetAttrReq? && !m.StatsRes? && !m.CreateReq? && !m.InitReq? && !m.InitRes?
    ensures DecodeBody(Tag(m), EncodeBody(m, t)) == Got(m, t)
  {
    hide PutU8, PutU16, PutU32, PutU64, PutBytes, GetU8, GetU16, GetU32, GetU64, GetBytes;
    hide HighBits, ToHighBits, Flag, FlagByte;
    GetPut();
  }

  lemma ReadBackBody(m: Message, t: seq<byte>)
    requires WellSized(m)
    ensures DecodeBody(Tag(m), EncodeBody(m, t)) == Got(m, t)
  {
    hide PutU8, PutU16, PutU32, PutU64, PutBytes, GetU8, GetU16, GetU32, GetU64, GetBytes;
    hide Flag, FlagByte, HighBits, ToHighBits, ReadSetAttrFields, ReadFileAttrFields, ReadStatsFields, ReadCreateFields;
    match m
    case FileAttrRes(_, _, _, _, _, _, _, _, _, _, _, _, _) => ReadBackFileAttr(m, t);
    case SetAttrReq(id, inode, size, atime, mtime, permissions, uid, gid) =>
      GetPut();
      ReadBackSetAttr(id, inode, size, atime, mtime, permissions, uid, gid, t);
    case StatsRes(_, _, _, _, _, _, _, _, _) => ReadBackStats(m, t);
    case CreateReq(_, _, _, _, _, _) => ReadBackCreate(m, t);
    case InitReq(_, v) => GetPut(); VersionBits(v);
    case InitRes(_, a) => GetPut(); FlagBits(a);
    case _ => ReadBackSized(m, t);
  }

  // ----- Canonical re-encoding -----

  /** Byte `k` of `s` with the bits outside `keep` cleared. */
  function KeepBits(s: seq<byte>, k: nat, keep: bv8): (r: seq<byte>)
    ensures |r| == |s|
    ensures forall i | 0 <= i < |s| && i != k :: r[i] == s[i]
  {
    if k < |s| then s[k := ((s[k] as bv8) & keep) as byte] else s
  }

  /** The fields after the tag with every reserved bit cleared. Five layouts reserve the
      low bits of one byte; the others reserve none. */
  function ClearReservedBody(tag: u8, s: seq<byte>): seq<byte> {
    match tag
    case 0x01 => KeepBits(s, 4, 0xF0)
    case 0x02 => KeepBits(s, 4, 0x80)
    case 0x06 => KeepBits(s, 4, 0xE0)
    case 0x07 => KeepBits(s, 12, 0xFC)
    case 0x0B => KeepBits(s, 18, 0x80)
    case _ => s
  }

  function ClearReserved(s: seq<byte>): seq<byte> {
    if s == [] then s else PutU8(s[0], ClearReservedBody(s[0], s[1..]))
  }

  lemma KeepBehindU8(v: u8, t: seq<byte>, k: nat, keep: bv8)
    ensures KeepBits(PutU8(v, t), k + 1, keep) == PutU8(v, KeepBits(t, k, keep))
  {
  }

  lemma KeepBehindU16(v: u16, t: seq<byte>, k: nat, keep: bv8)
    ensures KeepBits(PutU16(v, t), k + 2, keep) == PutU16(v, KeepBits(t, k, keep))
  {
    KeepBehindU8(v % 0x100, t, k, keep);
    KeepBehindU8(v / 0x100, PutU8(v % 0x100, t), k + 1, keep);
  }

  lemma KeepBehindU32(v: u32, t: seq<byte>, k: nat, keep: bv8)
    ensures KeepBits(PutU32(v, t), k + 4, keep) == PutU32(v, KeepBits(t, k, keep))
  {
    hide PutU16, KeepBits;
    KeepBehindU16(v % 0x1_0000, t, k, keep);
    KeepBehindU16(v / 0x1_0000, PutU16(v % 0x1_0000, t), k + 2, keep);
  }

  lemma KeepBehindU64(v: u64, t: seq<byte>, k: nat, keep: bv8)
    ensures KeepBits(PutU64(v, t), k + 8, keep) == PutU64(v, KeepBits(t, k, keep))
  {
    hide PutU32, KeepBits;
    KeepBehindU32(v % 0x1_0000_0000, t, k, keep);
    KeepBehindU32(v / 0x1_0000_0000, PutU32(v % 0x1_0000_0000, t), k + 4, keep);
  }

  lemma VersionByteKept(b: byte, t: seq<byte>)
    ensures KeepBits(PutU8(b, t), 0, 0xF0) == PutU8(ToHighBits(HighBits(b, 4), 4), t)
  {
    var w := b as bv8;
    BitsAsInt(w >> 4);
    assert (w >> 4) << 4 == w & 0xF0;
  }

  lemma FlagByteKept(b: byte, t: seq<byte>)
    ensures KeepBits(PutU8(b, t), 0, 0x80) == PutU8(FlagByte(Flag(b)), t)
  {
    var w := b as bv8;
    BitsAsInt(w >> 7);
    assert w >> 7 == 0 || w >> 7 == 1;
    assert w & 0x80 == if w >> 7 == 0 then 0 else 0x80;
  }

  lemma TypeByteKept(b: byte, t: seq<byte>)
    ensures KeepBits(PutU8(b, t), 0, 0xE0) == PutU8(ToHighBits(HighBits(b, 5), 5), t)
  {
    var w := b as bv8;
    BitsAsInt(w >> 5);
    assert (w >> 5) << 5 == w & 0xE0;
  }

  lemma MaskByteKept(b: byte, size: Option<u64>, atime: Option<u64>, mtime: Option<u64>, permissions: Option<u16>,
                     uid: Option<u32>, gid: Option<u32>, t: seq<byte>)
    requires MaskHas(b, 1 << 0) == size.Some? && MaskHas(b, 1 << 1) == atime.Some? && MaskHas(b, 1 << 2) == mtime.Some?
    requires MaskHas(b, 1 << 3) == permissions.Some? && MaskHas(b, 1 << 4) == uid.Some? && MaskHas(b, 1 << 5) == gid.Some?
    ensures KeepBits(PutU8(b, t), 0, 0xFC) == PutU8(MaskByte(size, atime, mtime, permissions, uid, gid), t)
  {
    assert FieldMask(size.Some?, atime.Some?, mtime.Some?, permissions.Some?, uid.Some?, gid.Some?) == (b as bv8) & 0xFC;
  }

  lemma RewriteSetAttr(id: u32, inode: u64, mask: byte, s: seq<byte>)
    requires ReadSetAttrFields(id, inode, mask, s).Got?
    ensures var m := ReadSetAttrFields(id, inode, mask, s).value;
      && m.SetAttrReq? && m.requestId == id && m.inode == inode
      && s == PutSetAttrFields(m.newSize, m.newAtime, m.newMtime, m.newPermissions, m.newUid, m.newGid,
                               ReadSetAttrFields(id, inode, mask, s).rest)
      && MaskHas(mask, 1 << 0) == m.newSize.Some? && MaskHas(mask, 1 << 1) == m.newAtime.Some?
      && MaskHas(mask, 1 << 2) == m.newMtime.Some? && MaskHas(mask, 1 << 3) == m.newPermissions.Some?
      && MaskHas(mask, 1 << 4) == m.newUid.Some? && MaskHas(mask, 1 << 5) == m.newGid.Some?
  {
    hide PutU8, PutU16, PutU32, PutU64, PutBytes, GetU8, GetU16, GetU32, GetU64, GetBytes;
    hide MaskHas;
    PutGet();
  }

  lemma RewriteFileAttr(id: u32, t: FileType, s: seq<byte>)
    requires ReadFileAttrFields(id, t, s).Got?
    ensures var m := ReadFileAttrFields(id, t, s).value;
      && m.FileAttrRes? && m.requestId == id && m.fileType == t
      && s == PutU64(m.size, PutU64(m.blocks, PutTimes(m.atime, m.mtime, m.ctime,
                PutOwner(m.permissions, m.nlinks, m.uid, m.gid, PutU32(m.rdev, PutU32(m.blksize,
                  ReadFileAttrFields(id, t, s).rest))))))
  {
    hide PutU8, PutU16, PutU32, PutU64, PutBytes, GetU8, GetU16, GetU32, GetU64, GetBytes;
    PutGet();
  }

  lemma RewriteCreate(id: u32, s: seq<byte>)
    requires ReadCreateFields(id, s).Got?
    ensures var m := ReadCreateFields(id, s).value;
      && m.CreateReq? && m.requestId == id
      && EncodeBody(m, ReadCreateFields(id, s).rest) == PutU32(id, KeepBits(s, 14, 0x80))
  {
    hide PutU8, PutU16, PutU32, PutU64, PutBytes, GetU8, GetU16, GetU32, GetU64, GetBytes;
    hide KeepBits, Flag, FlagByte;
    PutGet();
    var m, rest := ReadCreateFields(id, s).value, ReadCreateFields(id, s).rest;
    var t := PutU8(|m.filename|, PutBytes(m.filename, rest));
    var b := GetU8(GetU32(GetU16(GetU64(s).rest).rest).rest).value;
    KeepBehindU64(m.dirInode, PutU16(m.permissions, PutU32(m.unixFlags, PutU8(b, t))), 6, 0x80);
    KeepBehindU16(m.permissions, PutU32(m.unixFlags, PutU8(b, t)), 4, 0x80);
    KeepBehindU32(m.unixFlags, PutU8(b, t), 0, 0x80);
    FlagByteKept(b, t);
  }

  /** Re-encoding a decoded body gives its bytes back with the reserved bits cleared: first the
      layouts with packed bits. */
  lemma CanonicalPacked(tag: u8, s: seq<byte>)
    requires tag in {0x01, 0x02, 0x06, 0x07, 0x0B} && DecodeBody(tag, s).Got?
    ensures Tag(DecodeBody(tag, s).value) == tag
    ensures EncodeBody(DecodeBody(tag, s).value, DecodeBody(tag, s).rest) == ClearReservedBody(tag, s)
  {
    hide PutU8, PutU16, PutU32, PutU64, PutBytes, GetU8, GetU16, GetU32, GetU64, GetBytes;
    hide KeepBits, Flag, FlagByte, HighBits, ToHighBits, MaskHas, FieldMask, MaskByte;
    hide ReadSetAttrFields, ReadFileAttrFields, ReadCreateFields;
    var id, s1 := GetU32(s).value, GetU32(s).rest;
    match tag
    case 0x01 =>
      PutGet();
      KeepBehindU32(id, s1, 0, 0xF0);
      VersionByteKept(GetU8(s1).value, GetU8(s1).rest);
    case 0x02 =>
      PutGet();
      KeepBehindU32(id, s1, 0, 0x80);
      FlagByteKept(GetU8(s1).value, GetU8(s1).rest);
    case 0x06 =>
      PutGet();
      var b, s2 := GetU8(s1).value, GetU8(s1).rest;
      KeepBehindU32(id, s1, 0, 0xE0);
      TypeByteKept(b, s2);
      TypeCodesInvert(Pipe, HighBits(b, 5), s2);
      RewriteFileAttr(id, TypeOfCode(HighBits(b, 5), s2).value, s2);
    case 0x07 =>
      PutGet();
      var inode, s2 := GetU64(s1).value, GetU64(s1).rest;
      var mask, s3 := GetU8(s2).value, GetU8(s2).rest;
      RewriteSetAttr(id, inode, mask, s3);
      var m := ReadSetAttrFields(id, inode, mask, s3).value;
      KeepBehindU32(id, s1, 8, 0xFC);
      KeepBehindU64(inode, s2, 0, 0xFC);
      MaskByteKept(mask, m.newSize, m.newAtime, m.newMtime, m.newPermissions, m.newUid, m.newGid, s3);
    case 0x0B =>
      PutGet();
      RewriteCreate(id, s1);
      KeepBehindU32(id, s1, 14, 0x80);
  }

  lemma CanonicalBytes(tag: u8, s: seq<byte>)
    requires tag in {0x00, 0x03, 0x0D, 0x0E, 0x11} && DecodeBody(tag, s).Got?
    ensures Tag(DecodeBody(tag, s).value) == tag
    ensures EncodeBody(DecodeBody(tag, s).value, DecodeBody(tag, s).rest) == ClearReservedBody(tag, s)
  {
    hide PutU8, PutU16, PutU32, PutU64, PutBytes, GetU8, GetU16, GetU32, GetU64, GetBytes;
    hide KeepBits, Flag, FlagByte, HighBits, ToHighBits, MaskHas, FieldMask, MaskByte;
    hide ReadSetAttrFields, ReadFileAttrFields, ReadCreateFields;
    PutGet();
  }

  lemma CanonicalFixed(tag: u8, s: seq<byte>)
    requires tag in {0x04, 0x05, 0x08, 0x09, 0x0A, 0x0C, 0x0F, 0x10} && DecodeBody(tag, s).Got?
    ensures Tag(DecodeBody(tag, s).value) == tag
    ensures EncodeBody(DecodeBody(tag, s).value, DecodeBody(tag, s).rest) == ClearReservedBody(tag, s)
  {
    hide PutU8, PutU16, PutU32, PutU64, PutBytes, GetU8, GetU16, GetU32, GetU64, GetBytes;
    hide KeepBits, Flag, FlagByte, HighBits, ToHighBits, MaskHas, FieldMask, MaskByte;
    hide ReadSetAttrFields, ReadFileAttrFields, ReadCreateFields;
    PutGet();
  }

  lemma CanonicalBody(tag: u8, s: seq<byte>)
    requires tag <= 0x11 && DecodeBody(tag, s).Got?
    ensures Tag(DecodeBody(tag, s).value) == tag
    ensures EncodeBody(DecodeBody(tag, s).value, DecodeBody(tag, s).rest) == ClearReservedBody(tag, s)
  {
    hide DecodeBody, EncodeBody, ClearReservedBody, Tag;
    if tag in {0x01, 0x02, 0x06, 0x07, 0x0B} {
      CanonicalPacked(tag, s);
    } else if tag in {0x00, 0x03, 0x0D, 0x0E, 0x11} {
      CanonicalBytes(tag, s);
    } else {
      CanonicalFixed(tag, s);
    }
  }

  /** An accepted frame re-encodes to itself with its reserved bits cleared, so a frame
      that reserves them as zero is reproduced exactly. */
  lemma Canonical(s: seq<byte>)
    requires Decode(s).Got?
    ensures EncodeTo(Decode(s).value, Decode(s).rest) == ClearReserved(s)
    ensures ClearReserved(s) == s <==> EncodeTo(Decode(s).value, Decode(s).rest) == s
  {
    CanonicalBody(s[0], s[1..]);
  }

  // ----- The exact round-trip domain -----

  lemma BodyIsWellSized(tag: u8, s: seq<byte>)
    requires tag <= 0x11 && DecodeBody(tag, s).Got?
    ensures WellSized(DecodeBody(tag, s).value)
  {
    hide GetU8, GetU16, GetU32, GetU64, GetBytes, HighBits, CodeOfByte;
    if tag == 0x01 {
      VersionBits(GetU8(GetU32(s).rest).value);
    } else if tag in {0x00, 0x03, 0x0B, 0x0D, 0x0E, 0x11} {
      BytesRead();
    } else {
      hide DecodeBody, EncodeBody, ClearReservedBody;
      CanonicalBody(tag, s);
    }
  }

  /** The exact round-trip domain: what decoding returns for an encoded message, with any
      bytes behind it, is that message and those bytes if and only if every length fits
      its field and the version its four bits. */
  lemma RoundTrip(m: Message, t: seq<byte>)
    ensures Decode(EncodeTo(m, t)) == Got(m, t) <==> WellSized(m)
  {
    hide DecodeBody, EncodeBody, WellSized;
    if WellSized(m) {
      ReadBackBody(m, t);
    } else if Decode(EncodeTo(m, t)) == Got(m, t) {
      BodyIsWellSized(Tag(m), EncodeBody(m, t));
    }
  }

  // ----- Frames -----

  lemma SetAttrAppends(m: Message, t: seq<byte>)
    requires m.SetAttrReq?
    ensures EncodeBody(m, t) == EncodeBody(m, []) + t
  {
    hide PutU8, PutU16, PutU32, PutU64, MaskByte;
    PutAppends(t);
    assert [] + t == t;
  }

  lemma BodyAppends(m: Message, t: seq<byte>)
    ensures EncodeBody(m, t) == EncodeBody(m, []) + t
  {
    hide PutU8, PutU16, PutU32, PutU64, PutBytes, TypeCode, FlagByte, ToHighBits, MaskByte, CodeByte, PutSetAttrFields;
    PutAppends(t);
    assert [] + t == t;
    if m.SetAttrReq? {
      SetAttrAppends(m, t);
    }
  }

  /** Messages are laid in front of what follows without looking at it. */
  lemma EncodeAppends(m: Message, t: seq<byte>)
    ensures EncodeTo(m, t) == Encode(m) + t
    ensures |Encode(m)| >= 5
  {
    hide PutU8, PutU32;
    BodyAppends(m, t);
    PutAppends(t);
    PutLengths();
  }

  lemma BodySuffix(tag: u8, s: seq<byte>)
    requires tag <= 0x11 && DecodeBody(tag, s).Got?
    ensures GetU32(s).Got? && Suffix(DecodeBody(tag, s).rest, GetU32(s).rest)
  {
    hide Suffix, GetU8, GetU16, GetU32, GetU64, GetBytes, MaskHas, TypeOfCode;
    RestIsSuffix();
    forall a, b, c | Suffix(a, b) && Suffix(b, c) ensures Suffix(a, c) { SuffixTransitive(a, b, c); }
    forall a ensures Suffix(a, a) { SuffixReflexive(a); }
    forall code, rest ensures TypeOfCode(code, rest).Got? ==> TypeOfCode(code, rest).rest == rest {
      TypeCodesInvert(Pipe, code, rest);
    }
  }

  /** A success leaves a suffix, having consumed at least the tag and the request id. */
  lemma DecodeConsumes(s: seq<byte>)
    requires Decode(s).Got?
    ensures |Decode(s).rest| + 5 <= |s|
    ensures Suffix(Decode(s).rest, s)
  {
    hide GetU32, DecodeBody;
    BodySuffix(s[0], s[1..]);
    SuffixU32(s[1..]);
  }

  /** No encoding of a well-sized message is a proper prefix of another. */
  lemma PrefixFree(a: Message, b: Message, t: seq<byte>)
    requires WellSized(a) && WellSized(b)
    requires Encode(b) == Encode(a) + t
    ensures a == b && t == []
  {
    EncodeAppends(a, t);
    RoundTrip(a, t);
    RoundTrip(b, []);
  }
}
