/** What becomes of a message that does not fit its frame: its length field is cut short by a
    cast, and the stream behind it is read from the wrong place. */
module Oversized {
  import opened Bits
  import opened Bytes
  import opened FileTypes
  import opened Utf8
  import opened Messages
  import opened MessageLaws

  /** How much of the variable part of `m` its length field admits to. */
  function Admitted(m: Message): (n: nat)
    ensures n <= |Variable(m)|
  {
    match m
    case Error(_, _, text) => |text| % 0x1_0000
    case ReadRes(_, _, _, data) => |data| % 0x1_0000
    case WriteReq(_, _, _, data) => |data| % 0x1_0000_0000
    case _ => |Variable(m)| % 0x100
  }

  /** The part of `m` whose length is sent in a field of its own. */
  function Variable(m: Message): seq<byte> {
    match m
    case Error(_, _, text) => text
    case LookupReq(_, _, filename) => filename
    case CreateReq(_, _, _, _, _, filename) => filename
    case ReadRes(_, _, _, data) => data
    case WriteReq(_, _, _, data) => data
    case MoveReq(_, _, _, filename) => filename
    case _ => []
  }

  /** Only error texts must also be valid where they are cut. */
  predicate CutsCleanly(m: Message) {
    m.Error? ==> ValidUtf8(m.text[..Admitted(m)])
  }

  /** The message as its own frame describes it. */
  function CutToFit(m: Message): Message
    requires CutsCleanly(m)
  {
    var n := Admitted(m);
    match m
    case Error(id, code, text) => Error(id, code, text[..n])
    case InitReq(id, version) => InitReq(id, HighBits(ToHighBits(version, 4), 4))
    case LookupReq(id, dir, filename) => LookupReq(id, dir, filename[..n])
    case CreateReq(id, dir, permissions, flags, isDirectory, filename) =>
      CreateReq(id, dir, permissions, flags, isDirectory, filename[..n])
    case ReadRes(id, total, offset, data) => ReadRes(id, total, offset, data[..n])
    case WriteReq(id, inode, offset, data) => WriteReq(id, inode, offset, data[..n])
    case MoveReq(id, inode, dir, filename) => MoveReq(id, inode, dir, filename[..n])
    case _ => m
  }

  /** A version is sent as its low four bits. */
  lemma VersionCut(v: byte)
    ensures ToHighBits(HighBits(ToHighBits(v, 4), 4), 4) == ToHighBits(v, 4)
    ensures HighBits(ToHighBits(v, 4), 4) < 0x10
  {
    var w := v as bv8;
    BitsAsInt(w << 4);
    BitsAsInt((w << 4) >> 4);
    assert ((w << 4) >> 4) << 4 == w << 4;
    VersionBits(ToHighBits(v, 4));
  }

  lemma BytesCut(data: seq<byte>, n: nat, t: seq<byte>)
    requires n <= |data|
    ensures PutBytes(data, t) == PutBytes(data[..n], data[n..] + t)
  {
    assert data + t == data[..n] + (data[n..] + t);
  }

  lemma CutFits(m: Message)
    requires CutsCleanly(m)
    ensures WellSized(CutToFit(m))
  {
    hide HighBits, ToHighBits;
    if m.InitReq? {
      VersionCut(m.version);
    }
  }

  lemma CutName(m: Message, t: seq<byte>)
    requires m.LookupReq? || m.CreateReq? || m.MoveReq?
    ensures EncodeTo(m, t) == EncodeTo(CutToFit(m), Variable(m)[Admitted(m)..] + t)
  {
    hide PutU8, PutU16, PutU32, PutU64, PutBytes, ToHighBits, HighBits, PutSetAttrFields, PutTimes, PutOwner, PutBlockCounts;
    hide MaskByte, FlagByte, CodeByte;
    BytesCut(Variable(m), Admitted(m), t);
  }

  lemma CutData(m: Message, t: seq<byte>)
    requires (m.Error? && CutsCleanly(m)) || m.ReadRes? || m.WriteReq?
    ensures EncodeTo(m, t) == EncodeTo(CutToFit(m), Variable(m)[Admitted(m)..] + t)
  {
    hide PutU8, PutU16, PutU32, PutU64, PutBytes, ToHighBits, HighBits, PutSetAttrFields, PutTimes, PutOwner, PutBlockCounts;
    hide MaskByte, FlagByte, CodeByte;
    BytesCut(Variable(m), Admitted(m), t);
  }

  lemma CutNothing(m: Message, t: seq<byte>)
    requires Variable(m) == [] && !m.Error? && !m.InitReq?
    ensures EncodeTo(m, t) == EncodeTo(CutToFit(m), Variable(m)[Admitted(m)..] + t)
  {
    assert [] + t == t;
    hide EncodeTo;
    WholeMessage(m);
  }

  lemma WholeMessage(m: Message)
    requires Variable(m) == [] && !m.Error? && !m.InitReq?
    ensures Admitted(m) == 0 && CutToFit(m) == m
  {
  }

  /** The encoding of a message is that of its cut, followed by what was cut off. */
  lemma CutEncoding(m: Message, t: seq<byte>)
    requires CutsCleanly(m)
    ensures EncodeTo(m, t) == EncodeTo(CutToFit(m), Variable(m)[Admitted(m)..] + t)
  {
    if m.InitReq? {
      hide ToHighBits, HighBits;
      VersionCut(m.version);
      assert [] + t == t;
    } else if m.LookupReq? || m.CreateReq? || m.MoveReq? {
      hide EncodeTo, CutToFit, Admitted, Variable;
      CutName(m, t);
    } else if m.Error? || m.ReadRes? || m.WriteReq? {
      hide EncodeTo, CutToFit, Admitted, Variable;
      CutData(m, t);
    } else {
      hide EncodeTo, CutToFit, Admitted;
      CutNothing(m, t);
    }
  }

  /** What decoding makes of any message at all: the message cut to its fields, the bytes cut
      off then standing in front of the rest of the stream, where the next frame is expected.
      For a lookup, create or move whose name has 256 bytes or more, what lies behind the
      admitted part of the name is read as frames. */
  lemma OversizedDecodes(m: Message, t: seq<byte>)
    requires CutsCleanly(m)
    ensures Decode(EncodeTo(m, t)) == Got(CutToFit(m), Variable(m)[Admitted(m)..] + t)
  {
    hide Decode, EncodeTo, WellSized;
    CutFits(m);
    CutEncoding(m, t);
    RoundTrip(CutToFit(m), Variable(m)[Admitted(m)..] + t);
  }

  /** An error text cut in the middle of a character ends the stream. */
  lemma TornTextIsMalformed(m: Message, t: seq<byte>)
    requires m.Error? && !ValidUtf8(m.text[..Admitted(m)])
    ensures Decode(EncodeTo(m, t)).Malformed?
  {
    var n := Admitted(m);
    TornBody(m.requestId, m.code, m.text[..n], m.text[n..] + t);
    BytesCut(m.text, n, t);
    hide DecodeBody, PutU16, PutU32, PutBytes, ValidUtf8;
    assert EncodeTo(m, t)[1..] == EncodeBody(m, t);
  }

  lemma TornBody(id: u32, code: ErrorCode, data: seq<byte>, rest: seq<byte>)
    requires !ValidUtf8(data) && |data| < 0x1_0000
    ensures DecodeBody(0x00, PutU32(id, PutU8(CodeByte(code), PutU16(|data|, PutBytes(data, rest))))).Malformed?
  {
    hide PutU8, PutU16, PutU32, PutBytes, GetU8, GetU16, GetU32, GetU64, GetBytes, ValidUtf8, CodeByte, CodeOfByte;
    hide ReadSetAttrFields, ReadFileAttrFields, ReadStatsFields, ReadCreateFields, TypeOfCode, HighBits, Flag;
    var body := PutBytes(data, rest);
    var sized := PutU16(|data|, body);
    var coded := PutU8(CodeByte(code), sized);
    GetPutU32(id, coded);
    GetPutU8(CodeByte(code), sized);
    CodeRead(code, sized);
    GetPutU16(|data|, body);
    TextTaken(data, rest);
  }

  lemma CodeRead(code: ErrorCode, rest: seq<byte>)
    ensures CodeOfByte(CodeByte(code), rest) == Got(code, rest)
  {
  }

  lemma TextTaken(data: seq<byte>, rest: seq<byte>)
    ensures GetBytes(|data|, PutBytes(data, rest)) == Got(data, rest)
  {
  }

  /** The cut changes nothing exactly for the messages that fit. */
  lemma FitsAsItIs(m: Message)
    ensures CutsCleanly(m) && CutToFit(m) == m <==> WellSized(m)
  {
    hide WellSized, CutToFit, Variable, Admitted, EncodeTo, Decode;
    if WellSized(m) {
      SizedCutsCleanly(m);
      OversizedDecodes(m, []);
      RoundTrip(m, []);
    } else if CutsCleanly(m) {
      CutFits(m);
    }
  }

  lemma SizedCutsCleanly(m: Message)
    requires WellSized(m)
    ensures CutsCleanly(m)
  {
    hide ValidUtf8;
    if m.Error? {
      assert m.text[..Admitted(m)] == m.text;
    }
  }
}
