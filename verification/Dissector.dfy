/** The packet dissector's own framing, which knows the layouts only by their lengths, and
    its own reassembly, which keeps the first chunk seen at each offset. */
module Dissector {
  import opened Bytes
  import opened Messages
  import opened Codec
  import opened Chunks
  import MessageLaws

  // ----- Message lengths -----

  datatype Length = Known(n: nat) | Needs(n: nat) | UnknownType

  function Fixed(tag: u8): Option<nat> {
    match tag
    case 0x01 => Some(6)
    case 0x02 => Some(6)
    case 0x04 => Some(13)
    case 0x05 => Some(13)
    case 0x06 => Some(68)
    case 0x07 => Some(48)
    case 0x08 => Some(5)
    case 0x09 => Some(5)
    case 0x0A => Some(57)
    case 0x0C => Some(29)
    case 0x0F => Some(13)
    case 0x10 => Some(13)
    case _ => None
  }

  function U16At(s: seq<byte>, i: nat): nat
    requires i + 2 <= |s|
  {
    (s[i] as int) * 0x100 + s[i + 1] as int
  }

  function U32At(s: seq<byte>, i: nat): nat
    requires i + 4 <= |s|
  {
    U16At(s, i) * 0x1_0000 + U16At(s, i + 2)
  }

  /** The length of the message at the front of `s`, from its type and, for the variable
      ones, the length field at a fixed position. */
  function MessageLength(s: seq<byte>): Length {
    if s == [] then Needs(1)
    else if Fixed(s[0]).Some? then
      var n := Fixed(s[0]).value;
      if |s| < n then Needs(n) else Known(n)
    else
      match s[0]
      case 0x00 => if |s| < 8 then Needs(8) else Known(8 + U16At(s, 6))
      case 0x03 => if |s| < 14 then Needs(14) else Known(14 + s[13] as int)
      case 0x0B => if |s| < 21 then Needs(21) else Known(21 + s[20] as int)
      case 0x0D => if |s| < 23 then Needs(23) else Known(23 + U16At(s, 13))
      case 0x0E => if |s| < 25 then Needs(25) else Known(25 + U32At(s, 21))
      case 0x11 => if |s| < 22 then Needs(22) else Known(22 + s[21] as int)
      case _ => UnknownType
  }

  /** The one assumption the table of fixed lengths makes: SET_ATTR_REQ is always full. */
  predicate FullSetAttr(m: Message) {
    m.SetAttrReq? ==>
      && m.newSize.Some? && m.newAtime.Some? && m.newMtime.Some?
      && m.newPermissions.Some? && m.newUid.Some? && m.newGid.Some?
  }

  // ----- Positions in an encoding -----

  lemma Behind()
    ensures forall v: u8, t {:trigger PutU8(v, t)} :: |PutU8(v, t)| == 1 + |t| && PutU8(v, t)[1..] == t
    ensures forall v: u16, t {:trigger PutU16(v, t)} :: |PutU16(v, t)| == 2 + |t| && PutU16(v, t)[2..] == t
    ensures forall v: u32, t {:trigger PutU32(v, t)} :: |PutU32(v, t)| == 4 + |t| && PutU32(v, t)[4..] == t
    ensures forall v: u64, t {:trigger PutU64(v, t)} :: |PutU64(v, t)| == 8 + |t| && PutU64(v, t)[8..] == t
    ensures forall d, t {:trigger PutBytes(d, t)} :: |PutBytes(d, t)| == |d| + |t|
  {
    forall v: u32, t ensures |PutU32(v, t)| == 4 + |t| && PutU32(v, t)[4..] == t {
    }
    forall v: u64, t ensures |PutU64(v, t)| == 8 + |t| && PutU64(v, t)[8..] == t {
      hide PutU16;
      BehindU32(v / 0x1_0000_0000, PutU32(v % 0x1_0000_0000, t));
      BehindU32(v % 0x1_0000_0000, t);
      hide PutU32;
      var u := PutU32(v % 0x1_0000_0000, t);
      assert PutU64(v, t)[8..] == PutU64(v, t)[4..][4..];
    }
  }

  lemma BehindU32(v: u32, t: seq<byte>)
    ensures |PutU32(v, t)| == 4 + |t| && PutU32(v, t)[4..] == t
  {
  }

  lemma U16Here(s: seq<byte>, i: nat, v: u16, t: seq<byte>)
    requires i <= |s| && s[i..] == PutU16(v, t)
    ensures i + 2 <= |s| && U16At(s, i) == v
  {
    assert s[i] == s[i..][0] && s[i + 1] == s[i..][1];
  }

  lemma U32Here(s: seq<byte>, i: nat, v: u32, t: seq<byte>)
    requires i <= |s| && s[i..] == PutU32(v, t)
    ensures i + 4 <= |s| && U32At(s, i) == v
  {
    hide PutU16;
    Behind();
    U16Here(s, i, v / 0x1_0000, PutU16(v % 0x1_0000, t));
    assert s[i..][2..] == s[i + 2..];
    U16Here(s, i + 2, v % 0x1_0000, t);
  }

  // ----- Agreement with the decoder on one frame -----

  lemma EncodedLength(m: Message, t: seq<byte>)
    ensures |EncodeTo(m, t)| == |Encode(m)| + |t|
  {
    hide EncodeTo;
    MessageLaws.EncodeAppends(m, t);
  }

  /** What the six conditional fields take. */
  function SetAttrLength(m: Message): nat
    requires m.SetAttrReq?
  {
    14 + (if m.newSize.Some? then 8 else 0) + (if m.newAtime.Some? then 8 else 0)
    + (if m.newMtime.Some? then 8 else 0) + (if m.newPermissions.Some? then 2 else 0)
    + (if m.newUid.Some? then 4 else 0) + (if m.newGid.Some? then 4 else 0)
  }

  lemma SetAttrLengthIs(m: Message, t: seq<byte>)
    requires m.SetAttrReq?
    ensures |EncodeTo(m, t)| == SetAttrLength(m) + |t|
  {
    hide PutU8, PutU16, PutU32, PutU64, MaskByte;
    PutLengths();
  }

  lemma FixedLengthIs(m: Message, t: seq<byte>)
    requires Fixed(Tag(m)).Some? && !m.SetAttrReq?
    ensures |EncodeTo(m, t)| == Fixed(Tag(m)).value + |t|
  {
    hide PutU8, PutU16, PutU32, PutU64, PutBytes, ToHighBits, FlagByte;
    PutLengths();
  }

  lemma TextLengths(m: Message, t: seq<byte>)
    requires m.Error? && WellSized(m)
    ensures MessageLength(EncodeTo(m, t)) == Known(8 + |m.text|) && |EncodeTo(m, t)| == 8 + |m.text| + |t|
  {
    hide PutU8, PutU16, PutU32, PutBytes, CodeByte, U16At;
    Behind();
    var s := EncodeTo(m, t);
    assert s[6..] == s[1..][4..][1..];
    U16Here(s, 6, |m.text|, PutBytes(m.text, t));
    TagAt(m, t);
  }

  lemma TagAt(m: Message, t: seq<byte>)
    ensures |EncodeTo(m, t)| > 0 && EncodeTo(m, t)[0] == Tag(m)
  {
    hide EncodeBody;
  }

  lemma LookupLengths(m: Message, t: seq<byte>)
    requires m.LookupReq? && WellSized(m)
    ensures MessageLength(EncodeTo(m, t)) == Known(14 + |m.filename|) && |EncodeTo(m, t)| == 14 + |m.filename| + |t|
  {
    hide PutU32, PutU64, PutBytes;
    Behind();
    var s := EncodeTo(m, t);
    var length := PutU8(|m.filename|, PutBytes(m.filename, t));
    assert s[1..][4..][8..] == length;
    assert s[13] == length[0];
    TagAt(m, t);
  }

  lemma CreateLengths(m: Message, t: seq<byte>)
    requires m.CreateReq? && WellSized(m)
    ensures MessageLength(EncodeTo(m, t)) == Known(21 + |m.filename|) && |EncodeTo(m, t)| == 21 + |m.filename| + |t|
  {
    hide PutU16, PutU32, PutU64, PutBytes, FlagByte;
    Behind();
    var s := EncodeTo(m, t);
    var length := PutU8(|m.filename|, PutBytes(m.filename, t));
    assert s[1..][4..][8..][2..][4..][1..] == length;
    assert s[20] == length[0];
    TagAt(m, t);
  }

  lemma ReadLengths(m: Message, t: seq<byte>)
    requires m.ReadRes? && WellSized(m)
    ensures MessageLength(EncodeTo(m, t)) == Known(23 + |m.data|) && |EncodeTo(m, t)| == 23 + |m.data| + |t|
  {
    hide PutU8, PutU16, PutU32, PutU64, PutBytes, U16At;
    Behind();
    var s := EncodeTo(m, t);
    assert s[13..] == s[1..][4..][8..];
    U16Here(s, 13, |m.data|, PutU64(m.chunkOffset, PutBytes(m.data, t)));
    TagAt(m, t);
  }

  lemma WriteLengths(m: Message, t: seq<byte>)
    requires m.WriteReq? && WellSized(m)
    ensures MessageLength(EncodeTo(m, t)) == Known(25 + |m.data|) && |EncodeTo(m, t)| == 25 + |m.data| + |t|
  {
    hide PutU8, PutU16, PutU32, PutU64, PutBytes, U32At;
    Behind();
    var s := EncodeTo(m, t);
    assert s[21..] == s[1..][4..][8..][8..];
    U32Here(s, 21, |m.data|, PutBytes(m.data, t));
    TagAt(m, t);
  }

  lemma MoveLengths(m: Message, t: seq<byte>)
    requires m.MoveReq? && WellSized(m)
    ensures MessageLength(EncodeTo(m, t)) == Known(22 + |m.destFilename|)
    ensures |EncodeTo(m, t)| == 22 + |m.destFilename| + |t|
  {
    hide PutU32, PutU64, PutBytes;
    Behind();
    var s := EncodeTo(m, t);
    var length := PutU8(|m.destFilename|, PutBytes(m.destFilename, t));
    assert s[1..][4..][8..][8..] == length;
    assert s[21] == length[0];
    TagAt(m, t);
  }

  /** The dissector and the decoder agree on where a well-sized message ends if and only if
      it is not a SET_ATTR_REQ that leaves a field out. */
  lemma LengthsAgree(m: Message, t: seq<byte>)
    requires WellSized(m)
    ensures MessageLength(EncodeTo(m, t)) == Known(|Encode(m)|) <==> FullSetAttr(m)
  {
    hide EncodeTo, Encode, WellSized;
    EncodedLength(m, t);
    TagAt(m, t);
    match m
    case Error(_, _, _) => TextLengths(m, t);
    case LookupReq(_, _, _) => LookupLengths(m, t);
    case CreateReq(_, _, _, _, _, _) => CreateLengths(m, t);
    case ReadRes(_, _, _, _) => ReadLengths(m, t);
    case WriteReq(_, _, _, _) => WriteLengths(m, t);
    case MoveReq(_, _, _, _) => MoveLengths(m, t);
    case SetAttrReq(_, _, _, _, _, _, _, _) => SetAttrLengthIs(m, t);
    case _ => FixedLengthIs(m, t);
  }

  // ----- The dissector loop -----

  /** The frames cut so far, or giving up on the whole buffer at an unknown type. */
  datatype Dissection = Cut(frames: seq<seq<byte>>, consumed: nat) | GaveUp

  function Dissect(s: seq<byte>): Dissection
    decreases |s|
  {
    if s == [] then Cut([], 0)
    else
      match MessageLength(s)
      case UnknownType => GaveUp
      case Needs(_) => Cut([], 0)
      case Known(n) =>
        if |s| < n then Cut([], 0)
        else
          (match Dissect(s[n..])
           case GaveUp => GaveUp
           case Cut(frames, consumed) => Cut([s[..n]] + frames, n + consumed))
  }

  method RunDissector(tvb: seq<byte>) returns (r: Dissection)
    ensures r == Dissect(tvb)
  {
    hide MessageLength;
    var offset := 0;
    var frames := [];
    while offset < |tvb|
      invariant 0 <= offset <= |tvb|
      invariant Dissect(tvb) == match Dissect(tvb[offset..])
                                case GaveUp => GaveUp
                                case Cut(more, consumed) => Cut(frames + more, offset + consumed)
    {
      var rest := tvb[offset..];
      LengthIsPositive(rest);
      match MessageLength(rest) {
        case UnknownType => return GaveUp;
        case Needs(_) =>
          assert frames + [] == frames;
          return Cut(frames, offset);
        case Known(n) =>
          if |tvb| - offset < n {
            assert frames + [] == frames;
            return Cut(frames, offset);
          }
          assert rest[n..] == tvb[offset + n..];
          ghost var later := Dissect(tvb[offset + n..]);
          assert later.Cut? ==> frames + ([rest[..n]] + later.frames) == (frames + [rest[..n]]) + later.frames;
          frames, offset := frames + [rest[..n]], offset + n;
      }
    }
    assert tvb[offset..] == [];
    assert frames + [] == frames;
    return Cut(frames, offset);
  }

  lemma LengthIsPositive(s: seq<byte>)
    ensures MessageLength(s).Known? ==> MessageLength(s).n > 0
  {
  }

  function FramesOf(ms: seq<Message>): seq<seq<byte>> {
    if ms == [] then [] else [Encode(ms[0])] + FramesOf(ms[1..])
  }

  /** Well-sized messages that carry all their fields are cut off one by one, whatever follows. */
  lemma {:induction false} DissectAfter(ms: seq<Message>, t: seq<byte>)
    requires AllWellSized(ms) && AllFull(ms)
    ensures Dissect(EncodeAll(ms) + t) == match Dissect(t)
                                          case GaveUp => GaveUp
                                          case Cut(frames, n) => Cut(FramesOf(ms) + frames, |EncodeAll(ms)| + n)
    decreases |ms|
  {
    hide MessageLength, Encode, EncodeTo, WellSized, FullSetAttr;
    if ms == [] {
      assert EncodeAll(ms) + t == t;
      assert Dissect(t).Cut? ==> FramesOf(ms) + Dissect(t).frames == Dissect(t).frames;
    } else {
      var s := FirstFrame(ms, t);
      LengthIsPositive(s);
      assert FullSetAttr(ms[0]) && AllFull(ms[1..]) by {
        assert forall i | 0 <= i < |ms[1..]| :: ms[1..][i] == ms[i + 1];
      }
      hide AllFull, EncodeAll;
      DissectAfter(ms[1..], t);
      var later := Dissect(t);
      assert later.Cut? ==> [Encode(ms[0])] + (FramesOf(ms[1..]) + later.frames) == FramesOf(ms) + later.frames;
    }
  }

  /** The stream begins with the first message, and the rest of it is behind that. */
  lemma FirstFrame(ms: seq<Message>, t: seq<byte>) returns (s: seq<byte>)
    requires ms != [] && AllWellSized(ms)
    ensures s == EncodeAll(ms) + t && |s| >= |Encode(ms[0])| && |Encode(ms[0])| > 0
    ensures s[..|Encode(ms[0])|] == Encode(ms[0]) && s[|Encode(ms[0])|..] == EncodeAll(ms[1..]) + t
    ensures |EncodeAll(ms)| == |Encode(ms[0])| + |EncodeAll(ms[1..])|
    ensures MessageLength(s) == Known(|Encode(ms[0])|) <==> FullSetAttr(ms[0])
  {
    hide MessageLength, Encode, EncodeTo, WellSized, FullSetAttr;
    s := EncodeAll(ms) + t;
    var tail := EncodeAll(ms[1..]) + t;
    EncodeFirst(ms, t);
    MessageLaws.EncodeAppends(ms[0], tail);
    LengthsAgree(ms[0], tail);
    NotEmpty(ms[0]);
  }

  lemma EncodeFirst(ms: seq<Message>, t: seq<byte>)
    requires ms != []
    ensures EncodeAll(ms) + t == Encode(ms[0]) + (EncodeAll(ms[1..]) + t)
    ensures EncodeAll(ms) == Encode(ms[0]) + EncodeAll(ms[1..])
  {
    hide Encode, EncodeTo;
    MessageLaws.EncodeAppends(ms[0], EncodeAll(ms[1..]));
  }

  lemma NotEmpty(m: Message)
    ensures |Encode(m)| > 0
  {
    TagAt(m, []);
  }

  /** On well-sized messages, with a last frame perhaps cut short, the dissector cuts one frame
      per complete message, to its last byte, and waits for the rest, if and only if every
      complete SET_ATTR_REQ carries all its fields. */
  lemma {:induction false} DissectEncoded(ms: seq<Message>, p: seq<byte>)
    requires AllWellSized(ms) && CutShort(p)
    ensures Dissect(EncodeAll(ms) + p) == Cut(FramesOf(ms), |EncodeAll(ms)|) <==> AllFull(ms)
    decreases |ms|
  {
    hide MessageLength, Encode, EncodeTo, WellSized, FullSetAttr, CutShort;
    if ms == [] {
      assert EncodeAll(ms) + p == p;
      DissectCutShort(p);
    } else {
      var s := FirstFrame(ms, p);
      LengthIsPositive(s);
      DissectEncoded(ms[1..], p);
      assert AllFull(ms) <==> FullSetAttr(ms[0]) && AllFull(ms[1..]) by {
        assert forall i | 0 <= i < |ms[1..]| :: ms[1..][i] == ms[i + 1];
      }
      var tail := EncodeAll(ms[1..]) + p;
      if !FullSetAttr(ms[0]) {
        FirstFrameDiffers(s, Encode(ms[0]));
        assert FramesOf(ms)[0] == Encode(ms[0]);
      } else if Dissect(tail).Cut? {
        assert ([Encode(ms[0])] + Dissect(tail).frames)[1..] == Dissect(tail).frames;
        assert FramesOf(ms)[1..] == FramesOf(ms[1..]);
      }
    }
  }

  /** Less than the frame of some well-sized message, perhaps nothing of it. */
  ghost predicate CutShort(p: seq<byte>) {
    exists m :: WellSized(m) && p < Encode(m)
  }

  lemma DissectCutShort(p: seq<byte>)
    requires CutShort(p)
    ensures Dissect(p) == Cut([], 0)
  {
    hide MessageLength, Encode, EncodeTo, WellSized;
    var m :| WellSized(m) && p < Encode(m);
    LengthOfPart(m, p);
  }

  /** The part of a frame may already tell its length, but not that it is all there. */
  lemma LengthOfPart(m: Message, p: seq<byte>)
    requires WellSized(m) && p < Encode(m)
    ensures MessageLength(p).Needs? || (MessageLength(p).Known? && MessageLength(p).n > |p|)
  {
    hide Encode, EncodeTo, WellSized, FullSetAttr;
    LengthsAgree(m, []);
    TagAt(m, []);
    assert Encode(m) == EncodeTo(m, []) by {
      EncodeIs(m);
    }
    if !FullSetAttr(m) {
      ShortSetAttr(m);
      assert p != [] ==> p[0] == Encode(m)[0];
    } else if p != [] {
      SameLength(Encode(m), p);
    }
  }

  lemma EncodeIs(m: Message)
    ensures Encode(m) == EncodeTo(m, [])
  {
  }

  lemma ShortSetAttr(m: Message)
    requires !FullSetAttr(m)
    ensures |Encode(m)| < 48 && Tag(m) == 0x07
  {
    SetAttrLengthIs(m, []);
  }

  lemma SameLength(s: seq<byte>, p: seq<byte>)
    requires p != [] && p <= s && MessageLength(s).Known?
    ensures MessageLength(p).Needs? || MessageLength(p) == MessageLength(s)
  {
    forall i: nat | i + 2 <= |p| ensures U16At(p, i) == U16At(s, i) {
      assert p[i] == s[i] && p[i + 1] == s[i + 1];
    }
    forall i | 0 <= i < |p| ensures p[i] == s[i] {
    }
  }

  /** At a type that does not exist the whole buffer is given up, complete frames and all. */
  lemma UnknownGivesUp(ms: seq<Message>, s: seq<byte>)
    requires AllWellSized(ms) && AllFull(ms) && s != [] && s[0] > 0x11
    ensures Dissect(EncodeAll(ms) + s) == GaveUp
  {
    NoSuchType(s);
    hide Dissect, EncodeAll, AllFull, AllWellSized;
    DissectAfter(ms, s);
  }

  lemma NoSuchType(s: seq<byte>)
    requires s != [] && s[0] > 0x11
    ensures Dissect(s) == GaveUp
  {
  }

  ghost predicate AllFull(ms: seq<Message>) {
    forall i | 0 <= i < |ms| :: FullSetAttr(ms[i])
  }

  lemma FirstFrameDiffers(s: seq<byte>, frame: seq<byte>)
    requires s != [] && MessageLength(s) != Known(|frame|)
    ensures match Dissect(s) case Cut(frames, _) => frames == [] || frames[0] != frame case GaveUp => true
  {
    hide MessageLength;
    LengthIsPositive(s);
  }

  /** The two frame splitters agree, on a stream of well-sized messages whose last frame may be
      cut short, if and only if its complete SET_ATTR_REQs are full: then the dissector cuts
      exactly the frames the decoder decodes, and both wait on the same bytes. */
  lemma SplittersAgree(ms: seq<Message>, p: seq<byte>)
    requires AllWellSized(ms) && CutShort(p)
    ensures Drain(EncodeAll(ms) + p) == Stream(ms, p, false)
    ensures Dissect(EncodeAll(ms) + p)
         == Cut(FramesOf(Drain(EncodeAll(ms) + p).msgs), |EncodeAll(ms) + p| - |Drain(EncodeAll(ms) + p).pending|)
         <==> AllFull(ms)
  {
    hide Dissect, Drain, WellSized, FullSetAttr, CutShort;
    DissectEncoded(ms, p);
    DrainEncoded(ms, p);
    DrainCutShort(p);
    assert ms + [] == ms;
  }

  /** The decoder waits for the rest of a frame that is cut short. */
  lemma DrainCutShort(p: seq<byte>)
    requires CutShort(p)
    ensures Drain(p) == Stream([], p, false)
  {
    hide Decode, Encode, WellSized;
    var m :| WellSized(m) && p < Encode(m);
    var t := Encode(m)[|p|..];
    assert p + t == Encode(m);
    assert t != [];
    MessageLaws.ExtendDecode(p, t);
    MessageLaws.RoundTrip(m, []);
    EncodeIs(m);
  }

  // ----- Reassembly by first-seen offset -----

  /** One request's reassembly: the announced total, the first bytes seen at each offset,
      how many bytes those are, and the frame in which they were complete. */
  datatype Parts = Parts(total: nat, parts: map<u64, seq<byte>>, accumulated: nat, completedIn: Option<nat>)

  function Observe(st: Option<Parts>, frame: nat, m: Message): Parts
    requires m.ReadRes?
  {
    var s := if st.Some? then st.value else Parts(m.totalLength, map[], 0, None);
    var t :=
      if m.chunkOffset in s.parts then s
      else s.(parts := s.parts[m.chunkOffset := m.data], accumulated := s.accumulated + |m.data|);
    if t.accumulated >= t.total && t.completedIn.None? then t.(completedIn := Some(frame)) else t
  }

  /** The state after the chunks `ms`, the `i`-th in frame `i`. */
  function ObserveAll(ms: seq<Message>): Option<Parts>
    requires forall m | m in ms :: m.ReadRes?
    decreases |ms|
  {
    if ms == [] then None
    else
      var n := |ms| - 1;
      assert forall m | m in ms[..n] :: m in ms;
      Some(Observe(ObserveAll(ms[..n]), n, ms[n]))
  }

  class ChunkState {
    var state: Option<Parts>

    constructor ()
      ensures state == None
    {
      state := None;
    }

    method HandleChunk(frame: nat, m: Message)
      requires m.ReadRes?
      modifies this
      ensures state == Some(Observe(old(state), frame, m))
    {
      if state.None? {
        state := Some(Parts(m.totalLength, map[], 0, None));
      }
      var cs := state.value;
      if m.chunkOffset !in cs.parts {
        cs := cs.(parts := cs.parts[m.chunkOffset := m.data]);
        cs := cs.(accumulated := cs.accumulated + |m.data|);
      }
      if cs.accumulated >= cs.total && cs.completedIn.None? {
        cs := cs.(completedIn := Some(frame));
      }
      state := Some(cs);
    }
  }

  ghost function Indices(ms: seq<Message>): set<nat>
    requires forall m | m in ms :: m.ReadRes?
  {
    set m | m in ms :: m.chunkOffset / MAX_READ_RES_CHUNK
  }

  ghost predicate AllChunks(id: u32, data: Data, ms: seq<Message>) {
    forall m | m in ms :: m.ReadRes? && exists i :: IsChunk(id, data, m, i)
  }

  lemma ObserveChunk(id: u32, data: Data, seen: set<nat>, i: nat, frame: nat, done: Option<nat>)
    requires i < ChunkCount(data) && seen <= From(0, ChunkCount(data))
    requires done.Some? <==> SeenAll(seen, ChunkCount(data))
    ensures var s := Parts(|data|, Table(data, seen), BytesSeen(data, seen, ChunkCount(data)), done);
            var r := Observe(Some(s), frame, Chunk(id, data, i));
      && r.total == |data| && r.parts == Table(data, seen + {i})
      && r.accumulated == BytesSeen(data, seen + {i}, ChunkCount(data))
      && (r.completedIn.Some? <==> SeenAll(seen + {i}, ChunkCount(data)))
      && (done.Some? ==> r.completedIn == done)
  {
    hide InOrder;
    var n, o := ChunkCount(data), ChunkStart(data, i);
    ChunkStarts(data, i);
    assert o / MAX_READ_RES_CHUNK == i && o % MAX_READ_RES_CHUNK == 0;
    assert o in Table(data, seen) <==> i in seen;
    if i in seen {
      assert seen + {i} == seen;
    } else {
      AbsorbChunk(id, data, seen, i);
    }
    Complete(data, seen + {i}, i);
  }

  /** Reaching the total means having every chunk, once at least one has been seen. */
  lemma Complete(data: Data, seen: set<nat>, i: nat)
    requires i in seen && seen <= From(0, ChunkCount(data))
    ensures BytesSeen(data, seen, ChunkCount(data)) >= |data| <==> SeenAll(seen, ChunkCount(data))
  {
    var n := ChunkCount(data);
    TableEmpty(data);
    if data != [] {
      BytesSeenComplete(data, seen, n);
    } else {
      assert n == 1 && i == 0;
    }
  }

  lemma ChunkIndex(id: u32, data: Data, m: Message, i: nat)
    requires IsChunk(id, data, m, i)
    ensures m.ReadRes? && m.chunkOffset / MAX_READ_RES_CHUNK == i && i in From(0, ChunkCount(data))
  {
    ChunkStarts(data, i);
  }

  lemma IndicesSnoc(ms: seq<Message>, m: Message)
    requires m.ReadRes? && forall x | x in ms :: x.ReadRes?
    ensures Indices(ms + [m]) == Indices(ms) + {m.chunkOffset / MAX_READ_RES_CHUNK}
  {
    assert forall x :: x in ms + [m] <==> x in ms || x == m;
  }

  lemma IndicesOfChunks(id: u32, data: Data, ms: seq<Message>)
    requires AllChunks(id, data, ms)
    ensures Indices(ms) <= From(0, ChunkCount(data))
    ensures SeenAll(Indices(ms), ChunkCount(data)) <==> forall i: nat | i < ChunkCount(data) :: Chunk(id, data, i) in ms
  {
    hide ChunkCount, Chunk, ChunkStart;
    forall m | m in ms ensures m.chunkOffset / MAX_READ_RES_CHUNK in From(0, ChunkCount(data)) {
      var i :| IsChunk(id, data, m, i);
      ChunkIndex(id, data, m, i);
    }
    forall i: nat | i < ChunkCount(data) ensures i in Indices(ms) <==> Chunk(id, data, i) in ms {
      ChunkIndex(id, data, Chunk(id, data, i), i);
      if i in Indices(ms) {
        var m :| m in ms && m.chunkOffset / MAX_READ_RES_CHUNK == i;
        var j :| IsChunk(id, data, m, j);
        ChunkIndex(id, data, m, j);
      }
    }
  }

  lemma {:induction false} ObservedState(id: u32, data: Data, ms: seq<Message>)
    requires ms != [] && AllChunks(id, data, ms)
    ensures var n, st := ChunkCount(data), ObserveAll(ms).value;
      && st.total == |data| && st.parts == Table(data, Indices(ms))
      && st.accumulated == BytesSeen(data, Indices(ms), n)
      && (st.completedIn.Some? <==> SeenAll(Indices(ms), n))
      && (|ms| > 1 && ObserveAll(ms[..|ms| - 1]).value.completedIn.Some? ==>
            st.completedIn == ObserveAll(ms[..|ms| - 1]).value.completedIn)
    decreases |ms|
  {
    hide ChunkCount, Chunk, Table, BytesSeen, SeenAll, Indices, Observe;
    var k := |ms| - 1;
    var init, m := ms[..k], ms[k];
    assert ms == init + [m];
    assert m in ms;
    var i :| IsChunk(id, data, m, i);
    ChunkIndex(id, data, m, i);
    IndicesSnoc(init, m);
    IndicesOfChunks(id, data, init);
    if init == [] {
      FirstObserved(id, data, i);
      NoIndices(data);
      ObserveChunk(id, data, {}, i, k, None);
    } else {
      ObservedState(id, data, init);
      var st := ObserveAll(init).value;
      ObserveChunk(id, data, Indices(init), i, k, st.completedIn);
    }
  }

  lemma NoIndices(data: Data)
    ensures Indices([]) == {} && !SeenAll({}, ChunkCount(data))
  {
    OneMissing({}, 0, ChunkCount(data));
  }

  /** Starting empty is starting from nothing seen of this read. */
  lemma FirstObserved(id: u32, data: Data, i: nat)
    requires i < ChunkCount(data)
    ensures forall frame :: Observe(None, frame, Chunk(id, data, i)) ==
              Observe(Some(Parts(|data|, Table(data, {}), BytesSeen(data, {}, ChunkCount(data)), None)), frame,
                      Chunk(id, data, i))
  {
    assert Table(data, {}) == map[];
    NothingSeen(data, ChunkCount(data));
  }

  /** First-seen reassembly tolerates retransmission: over any sequence of a read's chunks,
      in any order and with any repetitions, it is complete exactly once each chunk has been
      seen, the completing frame is never revised, and the bytes are then the client's. */
  lemma FirstSeenReassembly(id: u32, data: Data, ms: seq<Message>)
    requires ms != [] && AllChunks(id, data, ms)
    ensures var st := ObserveAll(ms).value;
      && (st.completedIn.Some? <==> forall i: nat | i < ChunkCount(data) :: Chunk(id, data, i) in ms)
      && (st.completedIn.Some? ==> InOrder(st.parts) == data)
      && (|ms| > 1 && ObserveAll(ms[..|ms| - 1]).value.completedIn.Some? ==>
            st.completedIn == ObserveAll(ms[..|ms| - 1]).value.completedIn)
  {
    hide ChunkCount, Chunk, ChunkStart, Table, BytesSeen, ObserveAll, InOrder, SeenAll;
    ObservedState(id, data, ms);
    IndicesOfChunks(id, data, ms);
    if SeenAll(Indices(ms), ChunkCount(data)) {
      AllOfThem(Indices(ms), ChunkCount(data));
      TableInOrder(data, 0);
      StartsAtZero(data);
    }
  }

  /** The completing frame is the first with which every chunk has been seen. */
  lemma CompletedInFirst(id: u32, data: Data, ms: seq<Message>)
    requires ms != [] && AllChunks(id, data, ms) && ObserveAll(ms).value.completedIn.Some?
    ensures var f := ObserveAll(ms).value.completedIn.value;
      && f < |ms|
      && (forall i: nat | i < ChunkCount(data) :: Chunk(id, data, i) in ms[..f + 1])
      && exists i: nat :: i < ChunkCount(data) && Chunk(id, data, i) !in ms[..f]
  {
    hide ChunkCount, Chunk, ObserveAll;
    assert ObserveAll(ms).Some? by {
      ObservesSome(ms);
    }
    CompletedAt(ms);
    var f := ObserveAll(ms).value.completedIn.value;
    PartOf(id, data, ms, f);
    FirstSeenReassembly(id, data, ms[..f + 1]);
    if f > 0 {
      FirstSeenReassembly(id, data, ms[..f]);
    } else {
      assert Chunk(id, data, 0) !in ms[..f];
    }
  }

  lemma PartOf(id: u32, data: Data, ms: seq<Message>, f: nat)
    requires AllChunks(id, data, ms) && f < |ms|
    ensures AllChunks(id, data, ms[..f + 1]) && AllChunks(id, data, ms[..f])
  {
    hide IsChunk;
    assert forall m | m in ms[..f + 1] :: m in ms;
    assert forall m | m in ms[..f] :: m in ms;
  }

  lemma ObservesSome(ms: seq<Message>)
    requires ms != [] && forall m | m in ms :: m.ReadRes?
    ensures ObserveAll(ms).Some?
  {
  }

  lemma {:induction false} CompletedAt(ms: seq<Message>)
    requires ms != [] && (forall m | m in ms :: m.ReadRes?) && ObserveAll(ms).value.completedIn.Some?
    ensures var f := ObserveAll(ms).value.completedIn.value;
      && f < |ms|
      && (forall m | m in ms[..f + 1] :: m.ReadRes?) && ObserveAll(ms[..f + 1]).value.completedIn.Some?
      && (f > 0 ==> ObserveAll(ms[..f]).value.completedIn.None?)
    decreases |ms|
  {
    hide ObserveAll, Observe;
    var n := |ms| - 1;
    LastObserved(ms);
    CompletesOnce(ObserveAll(ms[..n]), n, ms[n]);
    assert ms[..n + 1] == ms;
    if ObserveAll(ms[..n]).Some? && ObserveAll(ms[..n]).value.completedIn.Some? {
      CompletedAt(ms[..n]);
      var f := ObserveAll(ms[..n]).value.completedIn.value;
      assert ms[..n][..f + 1] == ms[..f + 1] && ms[..n][..f] == ms[..f];
    }
  }

  lemma LastObserved(ms: seq<Message>)
    requires ms != [] && forall m | m in ms :: m.ReadRes?
    ensures forall m | m in ms[..|ms| - 1] :: m.ReadRes?
    ensures ObserveAll(ms) == Some(Observe(ObserveAll(ms[..|ms| - 1]), |ms| - 1, ms[|ms| - 1]))
    ensures ObserveAll(ms[..|ms| - 1]).Some? <==> |ms| > 1
  {
    hide Observe;
    assert forall m | m in ms[..|ms| - 1] :: m in ms;
  }

  lemma CompletesOnce(st: Option<Parts>, frame: nat, m: Message)
    requires m.ReadRes?
    ensures st.Some? && st.value.completedIn.Some? ==> Observe(st, frame, m).completedIn == st.value.completedIn
    ensures st.None? || st.value.completedIn.None? ==>
              Observe(st, frame, m).completedIn.None? || Observe(st, frame, m).completedIn == Some(frame)
  {
  }

  lemma AllOfThem(seen: set<nat>, n: nat)
    requires seen <= From(0, n) && SeenAll(seen, n)
    ensures seen == From(0, n)
  {
  }
}
