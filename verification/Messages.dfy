/** The eighteen message layouts of the protocol: a writer that lays a message in front of
    the bytes that follow it, and a field-by-field reader. */
module Messages {
  import opened Bytes
  import opened FileTypes
  import opened Utf8

  datatype ErrorCode = Internal | Invalid | NotFound | Exists | Unsupported

  datatype Option<+T> = None | Some(value: T)

  /** Max bytes in a single READ_RES chunk. */
  const MAX_READ_RES_CHUNK := 0xFFFF

  datatype Message =
    | Error(requestId: u32, code: ErrorCode, text: Text)
    | InitReq(requestId: u32, version: u8)
    | InitRes(requestId: u32, accepted: bool)
    | LookupReq(requestId: u32, dirInode: u64, filename: seq<byte>)
    | LookupRes(requestId: u32, inode: u64)
    | GetAttrReq(requestId: u32, inode: u64)
    | FileAttrRes(requestId: u32, fileType: FileType, size: u64, blocks: u64, atime: u64, mtime: u64, ctime: u64,
                  permissions: u16, nlinks: u32, uid: u32, gid: u32, rdev: u32, blksize: u32)
    | SetAttrReq(requestId: u32, inode: u64, newSize: Option<u64>, newAtime: Option<u64>, newMtime: Option<u64>,
                 newPermissions: Option<u16>, newUid: Option<u32>, newGid: Option<u32>)
    | SuccessRes(requestId: u32)
    | StatsReq(requestId: u32)
    | StatsRes(requestId: u32, blksize: u32, blocks: u64, freeBlocks: u64, availBlocks: u64, totalInodes: u64,
               freeInodes: u64, maxFilenameLen: u32, fragmentSize: u32)
    | CreateReq(requestId: u32, dirInode: u64, permissions: u16, unixFlags: u32, isDirectory: bool, filename: seq<byte>)
    | ReadReq(requestId: u32, inode: u64, offset: u64, length: u64)
    | ReadRes(requestId: u32, totalLength: u64, chunkOffset: u64, data: seq<byte>)
    | WriteReq(requestId: u32, inode: u64, offset: u64, data: seq<byte>)
    | ReaddirReq(requestId: u32, inode: u64)
    | RmReq(requestId: u32, inode: u64)
    | MoveReq(requestId: u32, inode: u64, destDirInode: u64, destFilename: seq<byte>)
  {
    function WithId(id: u32): (m: Message)
      ensures m.requestId == id
    {
      this.(requestId := id)
    }
  }

  /** Every length fits the field that carries it, and the version its four bits. */
  predicate WellSized(m: Message) {
    match m
    case Error(_, _, text) => |text| < 0x1_0000
    case InitReq(_, version) => version < 0x10
    case LookupReq(_, _, filename) => |filename| < 0x100
    case CreateReq(_, _, _, _, _, filename) => |filename| < 0x100
    case ReadRes(_, _, _, data) => |data| < 0x1_0000
    case WriteReq(_, _, _, data) => |data| < 0x1_0000_0000
    case MoveReq(_, _, _, filename) => |filename| < 0x100
    case _ => true
  }

  function Tag(m: Message): u8 {
    match m
    case Error(_, _, _) => 0x00
    case InitReq(_, _) => 0x01
    case InitRes(_, _) => 0x02
    case LookupReq(_, _, _) => 0x03
    case LookupRes(_, _) => 0x04
    case GetAttrReq(_, _) => 0x05
    case FileAttrRes(_, _, _, _, _, _, _, _, _, _, _, _, _) => 0x06
    case SetAttrReq(_, _, _, _, _, _, _, _) => 0x07
    case SuccessRes(_) => 0x08
    case StatsReq(_) => 0x09
    case StatsRes(_, _, _, _, _, _, _, _, _) => 0x0A
    case CreateReq(_, _, _, _, _, _) => 0x0B
    case ReadReq(_, _, _, _) => 0x0C
    case ReadRes(_, _, _, _) => 0x0D
    case WriteReq(_, _, _, _) => 0x0E
    case ReaddirReq(_, _) => 0x0F
    case RmReq(_, _) => 0x10
    case MoveReq(_, _, _, _) => 0x11
  }

  // ----- Values packed in the top bits of a byte -----

  function HighBits(b: byte, drop: nat): byte
    requires drop < 8
  {
    ((b as bv8) >> drop) as byte
  }

  function ToHighBits(v: byte, drop: nat): byte
    requires drop < 8
  {
    ((v as bv8) << drop) as byte
  }

  function FlagByte(flag: bool): byte {
    ToHighBits(if flag then 1 else 0, 7)
  }

  predicate Flag(b: byte) {
    HighBits(b, 7) != 0
  }

  /** The SET_ATTR_REQ field mask: one bit per present field, in the top six bits. */
  function FieldMask(size: bool, atime: bool, mtime: bool, permissions: bool, uid: bool, gid: bool): bv8 {
    ((if size then 1 << 0 else 0)
     | (if atime then 1 << 1 else 0)
     | (if mtime then 1 << 2 else 0)
     | (if permissions then 1 << 3 else 0)
     | (if uid then 1 << 4 else 0)
     | (if gid then 1 << 5 else 0)) << 2
  }

  predicate MaskHas(b: byte, bit: bv8) {
    ((b as bv8) >> 2) & bit != 0
  }

  /** The mask as the writer accumulates it, one conditional `or` at a time. */
  method BuildFieldMask(size: bool, atime: bool, mtime: bool, permissions: bool, uid: bool, gid: bool)
    returns (m: bv8)
    ensures m == FieldMask(size, atime, mtime, permissions, uid, gid)
  {
    m := 0;
    if size { m := m | (1 << 0); }
    if atime { m := m | (1 << 1); }
    if mtime { m := m | (1 << 2); }
    if permissions { m := m | (1 << 3); }
    if uid { m := m | (1 << 4); }
    if gid { m := m | (1 << 5); }
    m := m << 2;
  }

  // ----- Error codes -----

  function CodeByte(c: ErrorCode): u8 {
    match c
    case Internal => 0
    case Invalid => 1
    case NotFound => 2
    case Exists => 3
    case Unsupported => 4
  }

  function CodeOfByte(b: u8, rest: seq<byte>): Read<ErrorCode> {
    match b
    case 0 => Got(Internal, rest)
    case 1 => Got(Invalid, rest)
    case 2 => Got(NotFound, rest)
    case 3 => Got(Exists, rest)
    case 4 => Got(Unsupported, rest)
    case _ => Malformed
  }

  function CheckUtf8(data: seq<byte>, rest: seq<byte>): Read<Text> {
    if ValidUtf8(data) then Got(data, rest) else Malformed
  }

  // ----- Conditional fields -----

  function PutOpt16(v: Option<u16>, t: seq<byte>): seq<byte> {
    if v.Some? then PutU16(v.value, t) else t
  }

  function PutOpt32(v: Option<u32>, t: seq<byte>): seq<byte> {
    if v.Some? then PutU32(v.value, t) else t
  }

  function PutOpt64(v: Option<u64>, t: seq<byte>): seq<byte> {
    if v.Some? then PutU64(v.value, t) else t
  }

  function GetOpt16(present: bool, s: seq<byte>): Read<Option<u16>> {
    if !present then Got(None, s) else var (v, s) :- GetU16(s); Got(Some(v), s)
  }

  function GetOpt32(present: bool, s: seq<byte>): Read<Option<u32>> {
    if !present then Got(None, s) else var (v, s) :- GetU32(s); Got(Some(v), s)
  }

  function GetOpt64(present: bool, s: seq<byte>): Read<Option<u64>> {
    if !present then Got(None, s) else var (v, s) :- GetU64(s); Got(Some(v), s)
  }

  // ----- Writing -----

  function PutTimes(atime: u64, mtime: u64, ctime: u64, t: seq<byte>): seq<byte> {
    PutU64(atime, PutU64(mtime, PutU64(ctime, t)))
  }

  function PutOwner(permissions: u16, nlinks: u32, uid: u32, gid: u32, t: seq<byte>): seq<byte> {
    PutU16(permissions, PutU32(nlinks, PutU32(uid, PutU32(gid, t))))
  }

  function PutBlockCounts(blocks: u64, free: u64, avail: u64, inodes: u64, freeInodes: u64, t: seq<byte>): seq<byte> {
    PutU64(blocks, PutU64(free, PutU64(avail, PutU64(inodes, PutU64(freeInodes, t)))))
  }

  function PutSetAttrFields(size: Option<u64>, atime: Option<u64>, mtime: Option<u64>, permissions: Option<u16>,
                            uid: Option<u32>, gid: Option<u32>, t: seq<byte>): seq<byte> {
    PutOpt64(size, PutOpt64(atime, PutOpt64(mtime, PutOpt16(permissions, PutOpt32(uid, PutOpt32(gid, t))))))
  }

  function MaskByte(size: Option<u64>, atime: Option<u64>, mtime: Option<u64>, permissions: Option<u16>,
                    uid: Option<u32>, gid: Option<u32>): byte {
    FieldMask(size.Some?, atime.Some?, mtime.Some?, permissions.Some?, uid.Some?, gid.Some?) as byte
  }

  /** The fields of `m` in wire order, in front of `t`. Length fields truncate, as the
      source's casts do. */
  function EncodeBody(m: Message, t: seq<byte>): seq<byte> {
    match m
    case Error(id, code, text) =>
      PutU32(id, PutU8(CodeByte(code), PutU16(|text| % 0x1_0000, PutBytes(text, t))))
    case InitReq(id, version) =>
      PutU32(id, PutU8(ToHighBits(version, 4), t))
    case InitRes(id, accepted) =>
      PutU32(id, PutU8(FlagByte(accepted), t))
    case LookupReq(id, dir, filename) =>
      PutU32(id, PutU64(dir, PutU8(|filename| % 0x100, PutBytes(filename, t))))
    case LookupRes(id, inode) =>
      PutU32(id, PutU64(inode, t))
    case GetAttrReq(id, inode) =>
      PutU32(id, PutU64(inode, t))
    case FileAttrRes(id, fileType, size, blocks, atime, mtime, ctime, permissions, nlinks, uid, gid, rdev, blksize) =>
      PutU32(id, PutU8(ToHighBits(TypeCode(fileType), 5), PutU64(size, PutU64(blocks, PutTimes(atime, mtime, ctime,
        PutOwner(permissions, nlinks, uid, gid, PutU32(rdev, PutU32(blksize, t))))))))
    case SetAttrReq(id, inode, size, atime, mtime, permissions, uid, gid) =>
      PutU32(id, PutU64(inode, PutU8(MaskByte(size, atime, mtime, permissions, uid, gid),
        PutSetAttrFields(size, atime, mtime, permissions, uid, gid, t))))
    case SuccessRes(id) =>
      PutU32(id, t)
    case StatsReq(id) =>
      PutU32(id, t)
    case StatsRes(id, blksize, blocks, free, avail, inodes, freeInodes, maxLen, fragment) =>
      PutU32(id, PutU32(blksize, PutBlockCounts(blocks, free, avail, inodes, freeInodes,
        PutU32(maxLen, PutU32(fragment, t)))))
    case CreateReq(id, dir, permissions, flags, isDirectory, filename) =>
      PutU32(id, PutU64(dir, PutU16(permissions, PutU32(flags, PutU8(FlagByte(isDirectory),
        PutU8(|filename| % 0x100, PutBytes(filename, t)))))))
    case ReadReq(id, inode, offset, length) =>
      PutU32(id, PutU64(inode, PutU64(offset, PutU64(length, t))))
    case ReadRes(id, total, offset, data) =>
      PutU32(id, PutU64(total, PutU16(|data| % 0x1_0000, PutU64(offset, PutBytes(data, t)))))
    case WriteReq(id, inode, offset, data) =>
      PutU32(id, PutU64(inode, PutU64(offset, PutU32(|data| % 0x1_0000_0000, PutBytes(data, t)))))
    case ReaddirReq(id, inode) =>
      PutU32(id, PutU64(inode, t))
    case RmReq(id, inode) =>
      PutU32(id, PutU64(inode, t))
    case MoveReq(id, inode, dir, filename) =>
      PutU32(id, PutU64(inode, PutU64(dir, PutU8(|filename| % 0x100, PutBytes(filename, t)))))
  }

  function EncodeTo(m: Message, t: seq<byte>): seq<byte> {
    PutU8(Tag(m), EncodeBody(m, t))
  }

  function Encode(m: Message): seq<byte> {
    EncodeTo(m, [])
  }

  // ----- Reading -----

  function ReadSetAttrFields(id: u32, inode: u64, mask: byte, s: seq<byte>): Read<Message> {
    var (size, s) :- GetOpt64(MaskHas(mask, 1 << 0), s);
    var (atime, s) :- GetOpt64(MaskHas(mask, 1 << 1), s);
    var (mtime, s) :- GetOpt64(MaskHas(mask, 1 << 2), s);
    var (permissions, s) :- GetOpt16(MaskHas(mask, 1 << 3), s);
    var (uid, s) :- GetOpt32(MaskHas(mask, 1 << 4), s);
    var (gid, s) :- GetOpt32(MaskHas(mask, 1 << 5), s);
    Got(SetAttrReq(id, inode, size, atime, mtime, permissions, uid, gid), s)
  }

  function ReadFileAttrFields(id: u32, fileType: FileType, s: seq<byte>): Read<Message> {
    var (size, s) :- GetU64(s);
    var (blocks, s) :- GetU64(s);
    var (atime, s) :- GetU64(s);
    var (mtime, s) :- GetU64(s);
    var (ctime, s) :- GetU64(s);
    var (permissions, s) :- GetU16(s);
    var (nlinks, s) :- GetU32(s);
    var (uid, s) :- GetU32(s);
    var (gid, s) :- GetU32(s);
    var (rdev, s) :- GetU32(s);
    var (blksize, s) :- GetU32(s);
    Got(FileAttrRes(id, fileType, size, blocks, atime, mtime, ctime, permissions, nlinks, uid, gid, rdev, blksize), s)
  }

  function ReadStatsFields(id: u32, s: seq<byte>): Read<Message> {
    var (blksize, s) :- GetU32(s);
    var (blocks, s) :- GetU64(s);
    var (free, s) :- GetU64(s);
    var (avail, s) :- GetU64(s);
    var (inodes, s) :- GetU64(s);
    var (freeInodes, s) :- GetU64(s);
    var (maxLen, s) :- GetU32(s);
    var (fragment, s) :- GetU32(s);
    Got(StatsRes(id, blksize, blocks, free, avail, inodes, freeInodes, maxLen, fragment), s)
  }

  function ReadCreateFields(id: u32, s: seq<byte>): Read<Message> {
    var (dir, s) :- GetU64(s);
    var (permissions, s) :- GetU16(s);
    var (flags, s) :- GetU32(s);
    var (b, s) :- GetU8(s);
    var (n, s) :- GetU8(s);
    var (filename, s) :- GetBytes(n, s);
    Got(CreateReq(id, dir, permissions, flags, Flag(b), filename), s)
  }

  /** The fields after a tag byte, in the order the layout of that tag gives them. Every
      layout begins with the request id. */
  function DecodeBody(tag: u8, s: seq<byte>): Read<Message> {
    var (id, s) :- GetU32(s);
    match tag
    case 0x00 =>
      var (b, s) :- GetU8(s);
      var (code, s) :- CodeOfByte(b, s);
      var (n, s) :- GetU16(s);
      var (data, s) :- GetBytes(n, s);
      var (text, s) :- CheckUtf8(data, s);
      Got(Error(id, code, text), s)
    case 0x01 => var (b, s) :- GetU8(s); Got(InitReq(id, HighBits(b, 4)), s)
    case 0x02 => var (b, s) :- GetU8(s); Got(InitRes(id, Flag(b)), s)
    case 0x03 =>
      var (dir, s) :- GetU64(s);
      var (n, s) :- GetU8(s);
      var (filename, s) :- GetBytes(n, s);
      Got(LookupReq(id, dir, filename), s)
    case 0x04 => var (inode, s) :- GetU64(s); Got(LookupRes(id, inode), s)
    case 0x05 => var (inode, s) :- GetU64(s); Got(GetAttrReq(id, inode), s)
    case 0x06 =>
      var (b, s) :- GetU8(s);
      var (fileType, s) :- TypeOfCode(HighBits(b, 5), s);
      ReadFileAttrFields(id, fileType, s)
    case 0x07 =>
      var (inode, s) :- GetU64(s);
      var (mask, s) :- GetU8(s);
      ReadSetAttrFields(id, inode, mask, s)
    case 0x08 => Got(SuccessRes(id), s)
    case 0x09 => Got(StatsReq(id), s)
    case 0x0A => ReadStatsFields(id, s)
    case 0x0B => ReadCreateFields(id, s)
    case 0x0C =>
      var (inode, s) :- GetU64(s);
      var (offset, s) :- GetU64(s);
      var (length, s) :- GetU64(s);
      Got(ReadReq(id, inode, offset, length), s)
    case 0x0D =>
      var (total, s) :- GetU64(s);
      var (n, s) :- GetU16(s);
      var (offset, s) :- GetU64(s);
      var (data, s) :- GetBytes(n, s);
      Got(ReadRes(id, total, offset, data), s)
    case 0x0E =>
      var (inode, s) :- GetU64(s);
      var (offset, s) :- GetU64(s);
      var (n, s) :- GetU32(s);
      var (data, s) :- GetBytes(n, s);
      Got(WriteReq(id, inode, offset, data), s)
    case 0x0F => var (inode, s) :- GetU64(s); Got(ReaddirReq(id, inode), s)
    case 0x10 => var (inode, s) :- GetU64(s); Got(RmReq(id, inode), s)
    case 0x11 =>
      var (inode, s) :- GetU64(s);
      var (dir, s) :- GetU64(s);
      var (n, s) :- GetU8(s);
      var (filename, s) :- GetBytes(n, s);
      Got(MoveReq(id, inode, dir, filename), s)
    case _ => Malformed
  }

  function Decode(s: seq<byte>): Read<Message> {
    var (tag, s) :- GetU8(s);
    if tag <= 0x11 then DecodeBody(tag, s) else Malformed
  }
}
