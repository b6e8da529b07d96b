/** When a buffer is malformed, and when more bytes can still make it a message. */
module NeedMore {
  import opened Bytes
  import opened FileTypes
  import opened Utf8
  import opened Messages
  import opened WireLayout

  // ----- What reading takes -----

  lemma Reads()
    ensures forall s {:trigger GetU8(s)} :: if |s| >= 1 then GetU8(s) == Got(s[0], s[1..]) else GetU8(s) == Short
    ensures forall s {:trigger GetU16(s)} ::
              if |s| >= 2 then GetU16(s).Got? && GetU16(s).value == Number(s, 0, 2) && GetU16(s).rest == s[2..]
              else GetU16(s) == Short
    ensures forall s {:trigger GetU32(s)} ::
              if |s| >= 4 then GetU32(s).Got? && GetU32(s).rest == s[4..] else GetU32(s) == Short
    ensures forall s {:trigger GetU64(s)} ::
              if |s| >= 8 then GetU64(s).Got? && GetU64(s).rest == s[8..] else GetU64(s) == Short
    ensures forall n: nat, s {:trigger GetBytes(n, s)} ::
              if |s| >= n then GetBytes(n, s) == Got(s[..n], s[n..]) else GetBytes(n, s) == Short
  {
    forall s ensures if |s| >= 2 then GetU16(s).Got? && GetU16(s).value == Number(s, 0, 2) && GetU16(s).rest == s[2..]
                     else GetU16(s) == Short
    {
      Reads16(s);
    }
    forall s ensures if |s| >= 4 then GetU32(s).Got? && GetU32(s).rest == s[4..] else GetU32(s) == Short {
      Reads32(s);
    }
    forall s ensures if |s| >= 8 then GetU64(s).Got? && GetU64(s).rest == s[8..] else GetU64(s) == Short {
      Reads64(s);
    }
  }

  lemma Reads16(s: seq<byte>)
    ensures if |s| >= 2 then GetU16(s).Got? && GetU16(s).value == Number(s, 0, 2) && GetU16(s).rest == s[2..]
            else GetU16(s) == Short
  {
    hide Number;
    if |s| >= 2 {
      TwoBytes(s, 0);
      assert s[1..][0] == s[1] && s[1..][1..] == s[2..];
      assert GetU8(s) == Got(s[0], s[1..]);
      assert GetU8(s[1..]) == Got(s[1], s[2..]);
    } else if |s| == 1 {
      assert GetU8(s[1..]) == Short;
    }
  }

  lemma TwoBytes(s: seq<byte>, i: nat)
    requires i + 2 <= |s|
    ensures Number(s, i, 2) == 0x100 * s[i] as int + s[i + 1] as int
  {
    assert Number(s, i, 1) == 0x100 * Number(s, i, 0) + s[i] as int;
  }

  lemma Reads32(s: seq<byte>)
    ensures if |s| >= 4 then GetU32(s).Got? && GetU32(s).rest == s[4..] else GetU32(s) == Short
  {
    hide GetU16;
    Reads16(s);
    if |s| >= 2 {
      Reads16(s[2..]);
    }
  }

  lemma Reads64(s: seq<byte>)
    ensures if |s| >= 8 then GetU64(s).Got? && GetU64(s).rest == s[8..] else GetU64(s) == Short
  {
    hide GetU32;
    Reads32(s);
    if |s| >= 4 {
      Reads32(s[4..]);
    }
  }

  // ----- Malformed -----

  lemma BodyNeverMalformed(tag: u8, s: seq<byte>)
    requires 0 < tag <= 0x11 && tag != 0x06
    ensures !DecodeBody(tag, s).Malformed?
  {
    hide GetU8, GetU16, GetU32, GetU64, GetBytes;
    NumbersNeverMalformed();
    assert forall n, s {:trigger GetBytes(n, s)} :: !GetBytes(n, s).Malformed? by {
      forall n, s ensures !GetBytes(n, s).Malformed? {
        BytesNeverMalformed(n, s);
      }
    }
  }

  lemma BytesNeverMalformed(n: nat, s: seq<byte>)
    ensures !GetBytes(n, s).Malformed?
  {
  }

  lemma NumbersNeverMalformed()
    ensures forall s {:trigger GetU8(s)} :: !GetU8(s).Malformed?
    ensures forall s {:trigger GetU16(s)} :: !GetU16(s).Malformed?
    ensures forall s {:trigger GetU32(s)} :: !GetU32(s).Malformed?
    ensures forall s {:trigger GetU64(s)} :: !GetU64(s).Malformed?
  {
    hide GetU8, GetU16, GetU32, GetU64, GetBytes, Number;
    Reads();
    assert forall s :: !GetU8(s).Malformed?;
  }

  lemma AttrMalformed(s: seq<byte>)
    ensures DecodeBody(0x06, s).Malformed? <==> |s| >= 5 && s[4] >= 0xE0
    ensures DecodeBody(0x06, s).Short? ==> |s| < 67
  {
    hide GetU8, GetU16, GetU32, GetU64, Number, TypeOfCode;
    Reads();
    if |s| >= 5 {
      assert s[4..][0] == s[4];
      TypeMalformed(s[4], s[5..]);
    }
  }

  lemma TypeMalformed(b: byte, rest: seq<byte>)
    ensures !TypeOfCode(HighBits(b, 5), rest).Short?
    ensures TypeOfCode(HighBits(b, 5), rest).Malformed? <==> b >= 0xE0
    ensures TypeOfCode(HighBits(b, 5), rest).Got? ==> TypeOfCode(HighBits(b, 5), rest).rest == rest
  {
    assert b % 0x100 == b;
    assert HighBits(b, 5) == b / 0x20;
  }

  lemma ErrorBody(s: seq<byte>)
    ensures |s| < 5 ==> DecodeBody(0x00, s) == Short
    ensures |s| >= 5 && s[4] > 4 ==> DecodeBody(0x00, s) == Malformed
    ensures 5 <= |s| < 7 && s[4] <= 4 ==> DecodeBody(0x00, s) == Short
    ensures |s| >= 7 && s[4] <= 4 ==>
              var n := Number(s, 5, 2);
              if |s| < 7 + n then DecodeBody(0x00, s) == Short
              else if ValidUtf8(s[7..7 + n]) then DecodeBody(0x00, s).Got?
              else DecodeBody(0x00, s) == Malformed
  {
    hide DecodeBody, Number, ValidUtf8;
    ErrorHead(s);
    if |s| >= 7 && s[4] <= 4 {
      ErrorText(s);
    }
  }

  lemma ErrorHead(s: seq<byte>)
    ensures |s| < 5 ==> DecodeBody(0x00, s) == Short
    ensures |s| >= 5 && s[4] > 4 ==> DecodeBody(0x00, s) == Malformed
    ensures 5 <= |s| < 7 && s[4] <= 4 ==> DecodeBody(0x00, s) == Short
  {
    hide GetU8, GetU16, GetU32, GetU64, GetBytes, Number, CodeOfByte, CheckUtf8, ValidUtf8;
    hide ReadSetAttrFields, ReadFileAttrFields, ReadStatsFields, ReadCreateFields, TypeOfCode, HighBits, Flag;
    Reads();
    if |s| >= 5 {
      assert s[4..][0] == s[4] && s[4..][1..] == s[5..];
      CodeKnown(s[4], s[5..]);
    }
  }

  lemma ErrorText(s: seq<byte>)
    requires |s| >= 7 && s[4] <= 4
    ensures var n := Number(s, 5, 2);
            if |s| < 7 + n then DecodeBody(0x00, s) == Short
            else if ValidUtf8(s[7..7 + n]) then DecodeBody(0x00, s).Got?
            else DecodeBody(0x00, s) == Malformed
  {
    hide GetU8, GetU16, GetU32, GetU64, GetBytes, Number, CodeOfByte, CheckUtf8, ValidUtf8;
    hide ReadSetAttrFields, ReadFileAttrFields, ReadStatsFields, ReadCreateFields, TypeOfCode, HighBits, Flag;
    Reads();
    assert s[4..][0] == s[4] && s[4..][1..] == s[5..];
    CodeKnown(s[4], s[5..]);
    Shifted(s, 5);
    assert s[5..][2..] == s[7..];
    TextChecked(Number(s, 5, 2), s);
  }

  lemma CodeKnown(b: byte, rest: seq<byte>)
    ensures if b <= 4 then CodeOfByte(b, rest).Got? && CodeOfByte(b, rest).rest == rest
            else CodeOfByte(b, rest) == Malformed
  {
  }

  lemma TextChecked(n: nat, s: seq<byte>)
    requires |s| >= 7
    ensures var data := GetBytes(n, s[7..]);
            if |s| < 7 + n then data == Short
            else data.Got? && if ValidUtf8(s[7..7 + n]) then CheckUtf8(data.value, data.rest).Got?
                              else CheckUtf8(data.value, data.rest) == Malformed
  {
    hide ValidUtf8;
    assert |s| >= 7 + n ==> s[7..][..n] == s[7..7 + n];
  }

  lemma Shifted(s: seq<byte>, i: nat)
    requires i + 2 <= |s|
    ensures Number(s[i..], 0, 2) == Number(s, i, 2) && Number(s, i, 2) < 0x1_0000
  {
    TwoBytes(s, i);
    TwoBytes(s[i..], 0);
  }

  /** A buffer is malformed by its type, by the code of an error, by the complete text of an
      error or by a file type, and by nothing else. */
  lemma MalformedExact(s: seq<byte>)
    ensures Decode(s).Malformed? <==>
              s != [] &&
              (|| s[0] > 0x11
               || (s[0] == 0x00 && |s| >= 6 && s[5] > 4)
               || (s[0] == 0x00 && |s| >= 8 && |s| >= 8 + Number(s, 6, 2) && !ValidUtf8(s[8..8 + Number(s, 6, 2)]))
               || (s[0] == 0x06 && |s| >= 6 && s[5] >= 0xE0))
  {
    hide DecodeBody, Number, ValidUtf8;
    if s != [] && s[0] <= 0x11 {
      var body := s[1..];
      if s[0] == 0x00 {
        ErrorBody(body);
        if |s| >= 8 {
          Shifted2(s);
          var n := Number(s, 6, 2);
          assert |s| >= 8 + n ==> body[7..7 + n] == s[8..8 + n];
        }
      } else if s[0] == 0x06 {
        AttrMalformed(body);
      } else {
        BodyNeverMalformed(s[0], body);
      }
    }
  }

  lemma Shifted2(s: seq<byte>)
    requires |s| >= 8
    ensures Number(s[1..], 5, 2) == Number(s, 6, 2)
  {
    TwoBytes(s, 6);
    TwoBytes(s[1..], 5);
  }

  // ----- Texts that can still be completed -----

  function Zeros(n: nat): seq<byte> {
    seq(n, _ => 0)
  }

  lemma {:induction false} ZerosValid(s: seq<byte>)
    requires forall i | 0 <= i < |s| :: s[i] == 0
    ensures ValidUtf8(s)
    decreases |s|
  {
    if s != [] {
      ZerosValid(s[1..]);
    }
  }

  /** How many bytes the character that `u` begins still lacks, or 0 if no bytes make it one. */
  function Lacks(u: seq<byte>): nat {
    if u == [] || |u| > 3 then 0
    else if |u| >= 2 && !SecondFits(u[0], u[1]) then 0
    else if |u| == 3 && !Tail(u[2]) then 0
    else if 0xC2 <= u[0] <= 0xDF && |u| == 1 then 1
    else if 0xE0 <= u[0] <= 0xEF && |u| <= 2 then 3 - |u|
    else if 0xF0 <= u[0] <= 0xF4 then 4 - |u|
    else 0
  }

  predicate SecondFits(first: byte, b: byte) {
    && Tail(b) && (first == 0xE0 ==> b >= 0xA0) && (first == 0xED ==> b <= 0x9F)
    && (first == 0xF0 ==> b >= 0x90) && (first == 0xF4 ==> b <= 0x8F)
  }

  /** A text of which `u` has come and `r` bytes are to come: whole characters, and perhaps
      the beginning of one that `r` bytes suffice to end. */
  predicate CanEnd(u: seq<byte>, r: nat)
    decreases |u|
  {
    u == [] || if CharLength(u) > 0 then CanEnd(u[CharLength(u)..], r) else 0 < Lacks(u) <= r
  }

  lemma LengthKept(u: seq<byte>, c: seq<byte>)
    requires CharLength(u) > 0
    ensures CharLength(u + c) == CharLength(u)
  {
  }

  lemma LengthLacking(u: seq<byte>, c: seq<byte>)
    requires u != [] && CharLength(u) == 0 && CharLength(u + c) > 0
    ensures Lacks(u) > 0 && CharLength(u + c) == |u| + Lacks(u)
  {
  }

  /** Bytes that end the character which `u` begins. */
  function Ending(u: seq<byte>): (c: seq<byte>)
    requires Lacks(u) > 0
    ensures |c| == Lacks(u)
  {
    if |u| > 1 then seq(Lacks(u), _ => 0x80)
    else
      [if u[0] == 0xE0 then 0xA0 else if u[0] == 0xF0 then 0x90 else 0x80] + seq(Lacks(u) - 1, _ => 0x80)
  }

  lemma EndingEnds(u: seq<byte>, t: seq<byte>)
    requires Lacks(u) > 0
    ensures CharLength(u + Ending(u) + t) == |u| + Lacks(u)
  {
    var s := u + Ending(u) + t;
    assert s[0] == u[0];
  }

  lemma {:induction false} CanEndExact(u: seq<byte>, r: nat)
    ensures CanEnd(u, r) <==> exists c: seq<byte> :: |c| == r && ValidUtf8(u + c)
    decreases |u|
  {
    hide CharLength, Lacks, Ending;
    if u == [] {
      ZerosValid(Zeros(r));
      assert [] + Zeros(r) == Zeros(r);
    } else if CharLength(u) > 0 {
      var n := CharLength(u);
      CanEndExact(u[n..], r);
      forall c: seq<byte> ensures ValidUtf8(u + c) <==> ValidUtf8(u[n..] + c) {
        LengthKept(u, c);
        assert (u + c)[n..] == u[n..] + c;
      }
    } else {
      if CanEnd(u, r) {
        var c := Ending(u) + Zeros(r - Lacks(u));
        EndingEnds(u, Zeros(r - Lacks(u)));
        assert u + c == u + Ending(u) + Zeros(r - Lacks(u));
        assert (u + c)[|u| + Lacks(u)..] == Zeros(r - Lacks(u));
        ZerosValid(Zeros(r - Lacks(u)));
        assert ValidUtf8(u + c);
      }
      forall c: seq<byte> | |c| == r && ValidUtf8(u + c) ensures CanEnd(u, r) {
        LengthLacking(u, c);
      }
    }
  }

  // ----- Buffers that can still become a message -----

  lemma LongReads()
    ensures forall s {:trigger GetU8(s)} :: |s| >= 8 ==> GetU8(s).Got? && |GetU8(s).rest| >= |s| - 8
    ensures forall s {:trigger GetU16(s)} :: |s| >= 8 ==> GetU16(s).Got? && |GetU16(s).rest| >= |s| - 8
    ensures forall s {:trigger GetU32(s)} :: |s| >= 8 ==> GetU32(s).Got? && |GetU32(s).rest| >= |s| - 8
    ensures forall s {:trigger GetU64(s)} :: |s| >= 8 ==> GetU64(s).Got? && |GetU64(s).rest| >= |s| - 8
    ensures forall n: nat, s {:trigger GetBytes(n, s)} :: |s| >= n ==> GetBytes(n, s).Got?
  {
    hide GetU8, GetU16, GetU32, GetU64, GetBytes, Number;
    Reads();
  }

  lemma LongIsNotShort(s: seq<byte>)
    requires |s| >= 0x1_0000_0200
    ensures !Decode(s).Short?
  {
    hide DecodeBody, Number;
    if s[0] == 0x00 {
      Shifted(s[1..], 5);
      ErrorBody(s[1..]);
    } else if s[0] == 0x06 {
      AttrMalformed(s[1..]);
    } else if s[0] <= 0x11 {
      LongBody(s[0], s[1..]);
    }
  }

  lemma LongBody(tag: u8, s: seq<byte>)
    requires |s| >= 0x1_0000_0100 && 0 < tag <= 0x11 && tag != 0x06
    ensures !DecodeBody(tag, s).Short?
  {
    hide HighBits, Flag, MaskHas, CodeOfByte, CheckUtf8, TypeOfCode, ReadFileAttrFields;
    hide GetU8, GetU16, GetU32, GetU64, GetBytes;
    LongReads();
  }

  /** A buffer that is too short is the beginning of some message, unless it is an error whose
      text has begun and can no longer end. */
  lemma NeedMoreExact(s: seq<byte>)
    requires Decode(s).Short?
    ensures (exists t :: Decode(s + t).Got?) <==>
              (s != [] && s[0] == 0x00 && |s| >= 8 ==>
                 |s| < 8 + Number(s, 6, 2) && CanEnd(s[8..], 8 + Number(s, 6, 2) - |s|))
  {
    hide Decode, CanEnd, Number;
    if s != [] && s[0] == 0x00 && |s| >= 8 {
      NeedMoreText(s);
    } else {
      FillUp(s);
    }
  }

  lemma FillUp(s: seq<byte>)
    requires Decode(s).Short? && !(s != [] && s[0] == 0x00 && |s| >= 8)
    ensures Decode(s + Zeros(0x1_0000_0200)).Got?
  {
    hide Decode, Number, ValidUtf8;
    var t := Zeros(0x1_0000_0200);
    var all := s + t;
    LongIsNotShort(all);
    MalformedExact(s);
    MalformedExact(all);
    if all[0] == 0x00 {
      Shifted(all, 6);
      ZerosValid(all[8..8 + Number(all, 6, 2)]);
    }
  }

  lemma NeedMoreText(s: seq<byte>)
    requires Decode(s).Short? && s != [] && s[0] == 0x00 && |s| >= 8
    ensures |s| < 8 + Number(s, 6, 2)
    ensures (exists t :: Decode(s + t).Got?) <==> CanEnd(s[8..], 8 + Number(s, 6, 2) - |s|)
  {
    hide Decode, Number, ValidUtf8, CanEnd;
    ErrorFrame(s);
    var r := 8 + Number(s, 6, 2) - |s|;
    CanEndExact(s[8..], r);
    forall t ensures Decode(s + t).Got? <==> |t| >= r && ValidUtf8(s[8..] + t[..r]) {
      TextGoesOn(s, t, r);
    }
    forall c: seq<byte> | |c| == r && ValidUtf8(s[8..] + c) ensures Decode(s + c).Got? {
      assert c[..r] == c;
    }
  }

  lemma TextGoesOn(s: seq<byte>, t: seq<byte>, r: nat)
    requires Decode(s).Short? && s != [] && s[0] == 0x00 && |s| >= 8 && |s| + r == 8 + Number(s, 6, 2)
    ensures Decode(s + t).Got? <==> |t| >= r && ValidUtf8(s[8..] + t[..r])
  {
    hide Decode, Number, ValidUtf8;
    ErrorFrame(s);
    SameNumber(s, t);
    ErrorFrame(s + t);
    if |t| >= r {
      assert (s + t)[8..|s| + r] == s[8..] + t[..r];
    }
  }

  lemma SameNumber(s: seq<byte>, t: seq<byte>)
    requires |s| >= 8
    ensures Number(s + t, 6, 2) == Number(s, 6, 2)
  {
    TwoBytes(s, 6);
    TwoBytes(s + t, 6);
  }

  lemma ErrorFrame(s: seq<byte>)
    requires |s| >= 8 && s[0] == 0x00
    ensures var n := Number(s, 6, 2);
            && (Decode(s).Short? ==> s[5] <= 4 && |s| < 8 + n)
            && (s[5] <= 4 ==> (Decode(s).Got? <==> |s| >= 8 + n && ValidUtf8(s[8..8 + n])))
  {
    hide DecodeBody, Number, ValidUtf8;
    var body, n := s[1..], Number(s, 6, 2);
    ErrorBody(body);
    Shifted2(s);
    assert |s| >= 8 + n ==> body[7..7 + n] == s[8..8 + n];
  }

  /** For instance an error with a text of two bytes, of which 0xFF has come: the decoder goes
      on waiting, for nothing. */
  lemma WaitsForNothing()
    ensures var s: seq<byte> := [0x00, 0, 0, 0, 0, 0, 0, 2, 0xFF];
            Decode(s).Short? && !exists t :: Decode(s + t).Got?
  {
    hide Decode, DecodeBody, Number, CanEnd;
    var s: seq<byte> := [0x00, 0, 0, 0, 0, 0, 0, 2, 0xFF];
    TwoBytes(s, 6);
    assert !CanEnd(s[8..], 1) by {
      NoCharacter(s[8..]);
    }
    DecodeShort(s);
    NeedMoreExact(s);
  }

  lemma NoCharacter(u: seq<byte>)
    requires u == [0xFF]
    ensures !CanEnd(u, 1)
  {
    assert CharLength(u) == 0;
  }

  lemma DecodeShort(s: seq<byte>)
    requires |s| >= 8 && s[0] == 0x00 && s[5] <= 4 && |s| < 8 + Number(s, 6, 2)
    ensures Decode(s).Short?
  {
    hide DecodeBody, Number;
    ErrorBody(s[1..]);
    Shifted2(s);
  }
}
