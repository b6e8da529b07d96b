/** What survives a trip through the message fields: times in whole seconds from the epoch
    on, error kinds as one of five codes. */
module Conversions {
  import opened Bytes
  import opened FileTypes
  import opened Utf8
  import opened Messages

  const NANOS := 1_000_000_000

  /** Nanoseconds since the Unix epoch, negative before it, within the range of a 64-bit
      count of seconds. */
  type SystemTime = t: int | t < 0x1_0000_0000_0000_0000 * 1_000_000_000

  function ToUnix(t: SystemTime): u64 {
    if t < 0 then 0 else t / NANOS
  }

  function FromUnix(secs: u64): SystemTime {
    secs * NANOS
  }

  datatype FileAttr = FileAttr(fileType: FileType, size: u64, blocks: u64, accessTime: SystemTime,
                               modificationTime: SystemTime, changeTime: SystemTime, permissions: u16,
                               nHardLinks: u32, uid: u32, gid: u32, rdev: u32, blockSize: u32)

  datatype FsStats = FsStats(blockSize: u32, totalBlocks: u64, freeBlocks: u64, availBlocks: u64, totalInodes: u64,
                             freeInodes: u64, maxFilenameLen: u32, fragmentSize: u32)

  function AttrMessage(a: FileAttr, id: u32): Message {
    FileAttrRes(id, a.fileType, a.size, a.blocks, ToUnix(a.accessTime), ToUnix(a.modificationTime),
                ToUnix(a.changeTime), a.permissions, a.nHardLinks, a.uid, a.gid, a.rdev, a.blockSize)
  }

  function AttrOfMessage(m: Message): Option<FileAttr> {
    match m
    case FileAttrRes(_, fileType, size, blocks, atime, mtime, ctime, permissions, nlinks, uid, gid, rdev, blksize) =>
      Some(FileAttr(fileType, size, blocks, FromUnix(atime), FromUnix(mtime), FromUnix(ctime), permissions, nlinks,
                    uid, gid, rdev, blksize))
    case _ => None
  }

  function StatsMessage(s: FsStats, id: u32): Message {
    StatsRes(id, s.blockSize, s.totalBlocks, s.freeBlocks, s.availBlocks, s.totalInodes, s.freeInodes,
             s.maxFilenameLen, s.fragmentSize)
  }

  function StatsOfMessage(m: Message): Option<FsStats> {
    match m
    case StatsRes(_, blksize, blocks, free, avail, inodes, freeInodes, maxLen, fragment) =>
      Some(FsStats(blksize, blocks, free, avail, inodes, freeInodes, maxLen, fragment))
    case _ => None
  }

  /** The error kinds the system tells apart, and every other one by a number of its own. */
  datatype ErrorKind =
    | InvalidInput
    | NotFoundKind
    | AlreadyExists
    | UnsupportedKind
    | Other
    | NotADirectory
    | IsADirectory
    | ConnectionRefused
    | InvalidData
    | Unlisted(number: nat)

  function KindOfCode(c: ErrorCode): ErrorKind {
    match c
    case Internal => Other
    case Invalid => InvalidInput
    case NotFound => NotFoundKind
    case Exists => AlreadyExists
    case Unsupported => UnsupportedKind
  }

  function CodeOfKind(k: ErrorKind): ErrorCode {
    match k
    case InvalidInput => Invalid
    case NotFoundKind => NotFound
    case AlreadyExists => Exists
    case UnsupportedKind => Unsupported
    case _ => Internal
  }

  datatype FsError = FsError(kind: ErrorKind, text: Text)

  function FromError(id: u32, e: FsError): Message {
    Error(id, CodeOfKind(e.kind), e.text)
  }

  function ErrorOfMessage(m: Message): Option<FsError> {
    match m
    case Error(_, code, text) => Some(FsError(KindOfCode(code), text))
    case _ => None
  }

  // ----- The normal forms -----

  predicate WholeSecond(t: SystemTime) {
    t >= 0 && t % NANOS == 0
  }

  /** The last whole second not after `t`, or the epoch if `t` is before it. */
  function NormTime(t: SystemTime): (r: SystemTime)
    ensures WholeSecond(r)
    ensures t >= 0 ==> r <= t < r + NANOS
    ensures t < 0 ==> r == 0
  {
    if t < 0 then 0 else t - t % NANOS
  }

  function NormAttr(a: FileAttr): FileAttr {
    a.(accessTime := NormTime(a.accessTime), modificationTime := NormTime(a.modificationTime),
       changeTime := NormTime(a.changeTime))
  }

  predicate CodedKind(k: ErrorKind) {
    k.InvalidInput? || k.NotFoundKind? || k.AlreadyExists? || k.UnsupportedKind? || k.Other?
  }

  function NormError(e: FsError): FsError {
    if CodedKind(e.kind) then e else e.(kind := Other)
  }

  lemma TimeRoundTrip(t: SystemTime, secs: u64)
    ensures FromUnix(ToUnix(t)) == NormTime(t)
    ensures ToUnix(FromUnix(secs)) == secs
    ensures NormTime(t) == t <==> WholeSecond(t)
  {
  }

  /** Code to kind to code is the identity, and kind to code to kind collapses exactly the
      kinds without a code of their own. */
  lemma KindRoundTrip(c: ErrorCode, k: ErrorKind)
    ensures CodeOfKind(KindOfCode(c)) == c
    ensures KindOfCode(CodeOfKind(k)) == k <==> CodedKind(k)
    ensures !CodedKind(k) ==> KindOfCode(CodeOfKind(k)) == Other
  {
  }

  /** Attributes come back from their message in normal form, and a normal form travels
      unchanged: sending twice is sending once. */
  lemma AttrRetraction(a: FileAttr, id: u32)
    ensures AttrOfMessage(AttrMessage(a, id)) == Some(NormAttr(a))
    ensures AttrMessage(NormAttr(a), id) == AttrMessage(a, id)
    ensures AttrOfMessage(AttrMessage(NormAttr(a), id)) == Some(NormAttr(a))
  {
    TimeRoundTrip(a.accessTime, 0);
    TimeRoundTrip(a.modificationTime, 0);
    TimeRoundTrip(a.changeTime, 0);
  }

  lemma StatsRetraction(s: FsStats, id: u32)
    ensures StatsOfMessage(StatsMessage(s, id)) == Some(s)
  {
  }

  lemma ErrorRetraction(e: FsError, id: u32)
    ensures ErrorOfMessage(FromError(id, e)) == Some(NormError(e))
    ensures FromError(id, NormError(e)) == FromError(id, e)
    ensures NormError(NormError(e)) == NormError(e)
  {
  }
}
