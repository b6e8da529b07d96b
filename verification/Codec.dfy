/** The stream codec: telling "need more bytes" from "malformed", and turning an arbitrarily
    segmented byte stream back into the messages that were written to it. */
module Codec {
  import opened Bytes
  import opened Messages
  import MessageLaws

  // ----- The parser's errors, and what counts as an end of input -----

  datatype BinError =
    | UnexpectedEof
    | BadMagic
    | BadValue
    | Backtrace(inner: BinError)
    | EnumErrors(variants: seq<BinError>)

  predicate IsEof(e: BinError) {
    match e
    case UnexpectedEof => true
    case Backtrace(inner) => IsEof(inner)
    case EnumErrors(variants) => exists i | 0 <= i < |variants| :: IsEof(variants[i])
    case _ => false
  }

  datatype Attempt = Parsed(m: Message, rest: seq<byte>) | Rejected(error: BinError)

  const VARIANTS := 18

  /** One variant of the message enum: its magic byte, then its fields. */
  function ReadVariant(tag: u8, s: seq<byte>): Attempt {
    if s == [] then Rejected(UnexpectedEof)
    else if s[0] != tag then Rejected(BadMagic)
    else
      match DecodeBody(tag, s[1..])
      case Got(m, rest) => Parsed(m, rest)
      case Short => Rejected(Backtrace(UnexpectedEof))
      case Malformed => Rejected(Backtrace(BadValue))
  }

  /** Variants are tried in order; the first success wins, and if there is none every
      variant's error is reported. */
  function TryVariants(tag: nat, errors: seq<BinError>, s: seq<byte>): Attempt
    requires tag <= VARIANTS
    decreases VARIANTS - tag
  {
    if tag == VARIANTS then Rejected(EnumErrors(errors))
    else
      match ReadVariant(tag, s)
      case Parsed(m, rest) => Parsed(m, rest)
      case Rejected(e) => TryVariants(tag + 1, errors + [e], s)
  }

  function ReadMessage(s: seq<byte>): Attempt {
    TryVariants(0, [], s)
  }

  lemma TriedVariants(tag: nat, errors: seq<BinError>, s: seq<byte>)
    requires tag <= VARIANTS && |errors| == tag
    requires forall i | 0 <= i < tag :: ReadVariant(i, s) == Rejected(errors[i])
    ensures var r := TryVariants(tag, errors, s);
      || (r.Parsed? && exists i: nat | i < VARIANTS :: ReadVariant(i, s) == r)
      || (r.Rejected? && r.error.EnumErrors? && |r.error.variants| == VARIANTS
          && forall i | 0 <= i < VARIANTS :: ReadVariant(i, s) == Rejected(r.error.variants[i]))
    decreases VARIANTS - tag
  {
    if tag < VARIANTS && ReadVariant(tag, s).Rejected? {
      TriedVariants(tag + 1, errors + [ReadVariant(tag, s).error], s);
    }
  }

  /** Trying every variant and searching the collected errors for an end of input is the
      same as dispatching on the tag: the three outcomes of `Decode` are exactly success,
      an error that `IsEof` accepts, and an error that it does not. */
  lemma VariantsAreTagDispatch(s: seq<byte>)
    ensures match Decode(s)
      case Got(m, rest) => ReadMessage(s) == Parsed(m, rest)
      case Short => ReadMessage(s).Rejected? && IsEof(ReadMessage(s).error)
      case Malformed => ReadMessage(s).Rejected? && !IsEof(ReadMessage(s).error)
  {
    hide DecodeBody;
    TriedVariants(0, [], s);
    var r := ReadMessage(s);
    if r.Rejected? {
      var errors := r.error.variants;
      assert ReadVariant(0, s) == Rejected(errors[0]);
      if s != [] && s[0] <= 0x11 {
        assert ReadVariant(s[0], s) == Rejected(errors[s[0]]);
        assert forall i | 0 <= i < VARIANTS && i != s[0] :: errors[i] == BadMagic by {
          forall i | 0 <= i < VARIANTS && i != s[0] ensures errors[i] == BadMagic {
            assert ReadVariant(i, s) == Rejected(errors[i]);
          }
        }
      }
    }
  }

  // ----- The codec over mutable buffers -----

  class ByteBuffer {
    var bytes: seq<byte>

    constructor ()
      ensures bytes == []
    {
      bytes := [];
    }
  }

  datatype Item = Frame(m: Message) | NeedMore | Failed(error: BinError)

  /** Takes one message off the front of the buffer. Needing more bytes, or failing,
      consumes nothing. */
  method DecodeFrom(src: ByteBuffer) returns (r: Item)
    modifies src
    ensures match Decode(old(src.bytes))
      case Got(m, rest) => r == Frame(m) && src.bytes == rest
      case Short => r == NeedMore && src.bytes == old(src.bytes)
      case Malformed => r.Failed? && src.bytes == old(src.bytes)
  {
    VariantsAreTagDispatch(src.bytes);
    match ReadMessage(src.bytes) {
      case Parsed(m, rest) =>
        MessageLaws.DecodeConsumes(src.bytes);
        var position := |src.bytes| - |rest|;
        src.bytes := src.bytes[position..];
        r := Frame(m);
      case Rejected(e) =>
        r := if IsEof(e) then NeedMore else Failed(e);
    }
  }

  method EncodeInto(m: Message, dst: ByteBuffer)
    modifies dst
    ensures dst.bytes == old(dst.bytes) + Encode(m)
  {
    dst.bytes := dst.bytes + Encode(m);
  }

  // ----- Streams -----

  /** What a framed reader has made of a byte stream so far. A stream that met malformed
      bytes has ended: it yields nothing more. */
  datatype Stream = Stream(msgs: seq<Message>, pending: seq<byte>, failed: bool)

  /** Every message at the front of `s`, up to the first incomplete or malformed one. */
  function Drain(s: seq<byte>): Stream
    decreases |s|
  {
    match Decode(s)
    case Got(m, rest) =>
      MessageLaws.DecodeConsumes(s);
      var d := Drain(rest);
      Stream([m] + d.msgs, d.pending, d.failed)
    case Short => Stream([], s, false)
    case Malformed => Stream([], [], true)
  }

  function Feed(st: Stream, segment: seq<byte>): Stream {
    if st.failed then st
    else
      var d := Drain(st.pending + segment);
      Stream(st.msgs + d.msgs, d.pending, d.failed)
  }

  function FeedAll(st: Stream, segments: seq<seq<byte>>): Stream
    decreases |segments|
  {
    if segments == [] then st else FeedAll(Feed(st, segments[0]), segments[1..])
  }

  function Concat(segments: seq<seq<byte>>): seq<byte> {
    if segments == [] then [] else segments[0] + Concat(segments[1..])
  }

  function EncodeAll(ms: seq<Message>): seq<byte> {
    if ms == [] then [] else EncodeTo(ms[0], EncodeAll(ms[1..]))
  }

  predicate AllWellSized(ms: seq<Message>) {
    forall m | m in ms :: WellSized(m)
  }

  const FRESH := Stream([], [], false)

  lemma DrainOfNothing()
    ensures Drain([]) == FRESH
  {
  }

  lemma {:induction false} DrainThenFeed(a: seq<byte>, b: seq<byte>)
    ensures Feed(Drain(a), b) == Drain(a + b)
    decreases |a|
  {
    hide Decode;
    MessageLaws.ExtendDecode(a, b);
    match Decode(a)
    case Got(m, rest) =>
      MessageLaws.DecodeConsumes(a);
      DrainThenFeed(rest, b);
      var d := Drain(rest);
      if !d.failed {
        assert [m] + (d.msgs + Drain(d.pending + b).msgs) == ([m] + d.msgs) + Drain(d.pending + b).msgs;
      }
    case Short => assert [] + Drain(a + b).msgs == Drain(a + b).msgs;
    case Malformed =>
  }

  lemma {:induction false} FeedSegments(a: seq<byte>, segments: seq<seq<byte>>)
    ensures FeedAll(Drain(a), segments) == Drain(a + Concat(segments))
    decreases |segments|
  {
    hide Drain, Feed;
    if segments == [] {
      assert a + [] == a;
    } else {
      DrainThenFeed(a, segments[0]);
      FeedSegments(a + segments[0], segments[1..]);
      assert a + segments[0] + Concat(segments[1..]) == a + Concat(segments);
    }
  }

  /** However a byte stream is cut into segments, feeding them one at a time yields the
      messages, and the first error, of the whole stream at once. */
  lemma SegmentationInvariance(segments: seq<seq<byte>>)
    ensures FeedAll(FRESH, segments) == Drain(Concat(segments))
  {
    FeedSegments([], segments);
    assert [] + Concat(segments) == Concat(segments);
  }

  lemma {:induction false} DrainEncoded(ms: seq<Message>, t: seq<byte>)
    requires AllWellSized(ms)
    ensures Drain(EncodeAll(ms) + t) == Stream(ms + Drain(t).msgs, Drain(t).pending, Drain(t).failed)
    decreases |ms|
  {
    hide Decode, EncodeTo, WellSized;
    if ms == [] {
      assert [] + t == t && ms + Drain(t).msgs == Drain(t).msgs;
    } else {
      var tail := EncodeAll(ms[1..]);
      MessageLaws.EncodeAppends(ms[0], tail);
      MessageLaws.EncodeAppends(ms[0], tail + t);
      assert EncodeAll(ms) + t == EncodeTo(ms[0], tail + t);
      MessageLaws.RoundTrip(ms[0], tail + t);
      DrainEncoded(ms[1..], t);
      assert ms + Drain(t).msgs == [ms[0]] + (ms[1..] + Drain(t).msgs);
    }
  }

  /** A reader fed the encoding of any well-sized messages, cut anywhere, yields exactly
      those messages, with nothing left over. */
  lemma StreamRoundTrip(ms: seq<Message>, segments: seq<seq<byte>>)
    requires AllWellSized(ms)
    requires Concat(segments) == EncodeAll(ms)
    ensures FeedAll(FRESH, segments) == Stream(ms, [], false)
  {
    SegmentationInvariance(segments);
    DrainEncoded(ms, []);
    assert EncodeAll(ms) + [] == EncodeAll(ms);
    assert ms + [] == ms;
  }

  /** What comes behind them, if it is not a message, is kept while it is too short and ends the
      stream once it is malformed. The messages before it are not lost. */
  lemma StreamUpTo(ms: seq<Message>, t: seq<byte>, segments: seq<seq<byte>>)
    requires AllWellSized(ms) && !Decode(t).Got?
    requires Concat(segments) == EncodeAll(ms) + t
    ensures FeedAll(FRESH, segments) == if Decode(t).Short? then Stream(ms, t, false) else Stream(ms, [], true)
  {
    hide Decode, FeedAll, EncodeAll, WellSized;
    SegmentationInvariance(segments);
    DrainEncoded(ms, t);
    assert ms + [] == ms;
  }

  /** Encoding one more message appends its frame to the stream. */
  lemma {:induction false} EncodeAllSnoc(ms: seq<Message>, m: Message)
    ensures EncodeAll(ms + [m]) == EncodeAll(ms) + Encode(m)
    decreases |ms|
  {
    hide EncodeTo;
    if ms == [] {
      assert [m][1..] == [];
      assert EncodeAll([m]) == EncodeTo(m, EncodeAll([m][1..]));
    } else {
      EncodeAllSnoc(ms[1..], m);
      assert (ms + [m])[1..] == ms[1..] + [m];
      MessageLaws.EncodeAppends(ms[0], EncodeAll(ms[1..]));
      MessageLaws.EncodeAppends(ms[0], EncodeAll(ms[1..]) + Encode(m));
    }
  }

  /** A framed reader: append what arrived, then decode until more is needed or the stream
      turns out malformed. */
  class FramedReader {
    var buffer: ByteBuffer
    var msgs: seq<Message>
    var failed: bool

    function State(): Stream
      reads this, buffer
    {
      Stream(msgs, buffer.bytes, failed)
    }

    constructor ()
      ensures fresh(buffer) && State() == FRESH
    {
      buffer := new ByteBuffer();
      msgs, failed := [], false;
    }

    method Receive(segment: seq<byte>)
      modifies this, buffer
      ensures buffer == old(buffer) && State() == Feed(old(State()), segment)
    {
      hide Decode;
      if failed {
        return;
      }
      ghost var done := Feed(State(), segment);
      buffer.bytes := buffer.bytes + segment;
      assert [] + buffer.bytes == buffer.bytes;
      var more := true;
      while more
        invariant buffer == old(buffer)
        invariant more ==> !failed && Feed(Stream(msgs, [], false), buffer.bytes) == done
        invariant !more ==> State() == done
        decreases more, |buffer.bytes|
      {
        ghost var before := buffer.bytes;
        assert [] + before == before;
        var r := DecodeFrom(buffer);
        match r {
          case Frame(m) =>
            MessageLaws.DecodeConsumes(before);
            assert msgs + ([m] + Drain(buffer.bytes).msgs) == (msgs + [m]) + Drain(buffer.bytes).msgs;
            assert [] + buffer.bytes == buffer.bytes;
            msgs := msgs + [m];
          case NeedMore =>
            assert msgs + [] == msgs;
            more := false;
          case Failed(_) =>
            assert msgs + [] == msgs;
            failed, more := true, false;
            buffer.bytes := [];
        }
      }
    }
  }
}
