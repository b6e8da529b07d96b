/** Well-formed UTF-8 is exactly what encoding Unicode scalar values gives, each in the fewest
    bytes that hold it (section 3 of RFC 3629). */
module ScalarValues {
  import opened Bytes
  import opened Utf8

  /** A code point that is not a surrogate. */
  type Scalar = c: int | 0 <= c < 0xD800 || 0xE000 <= c < 0x11_0000

  function EncodeScalar(c: Scalar): (s: seq<byte>)
    ensures s != []
  {
    if c < 0x80 then [c]
    else if c < 0x800 then [0xC0 + c / 0x40, 0x80 + c % 0x40]
    else if c < 0x1_0000 then [0xE0 + c / 0x1000, 0x80 + c / 0x40 % 0x40, 0x80 + c % 0x40]
    else [0xF0 + c / 0x4_0000, 0x80 + c / 0x1000 % 0x40, 0x80 + c / 0x40 % 0x40, 0x80 + c % 0x40]
  }

  function EncodeText(cs: seq<Scalar>): seq<byte> {
    if cs == [] then [] else EncodeScalar(cs[0]) + EncodeText(cs[1..])
  }

  lemma EncodedLength(c: Scalar, t: seq<byte>)
    ensures CharLength(EncodeScalar(c) + t) == |EncodeScalar(c)|
  {
    var s := EncodeScalar(c) + t;
    if c < 0x80 {
      assert s[0] == c;
    } else if c < 0x800 {
      assert s[0] == 0xC0 + c / 0x40 && s[1] == 0x80 + c % 0x40;
    } else if c < 0x1_0000 {
      assert s[0] == 0xE0 + c / 0x1000 && s[1] == 0x80 + c / 0x40 % 0x40 && s[2] == 0x80 + c % 0x40;
    } else {
      assert s[0] == 0xF0 + c / 0x4_0000 && s[1] == 0x80 + c / 0x1000 % 0x40;
      assert s[2] == 0x80 + c / 0x40 % 0x40 && s[3] == 0x80 + c % 0x40;
    }
  }

  /** The scalar value of the character at the front. */
  function FirstScalar(s: seq<byte>): (c: Scalar)
    requires CharLength(s) > 0
  {
    match CharLength(s)
    case 1 => s[0]
    case 2 => 0x40 * Low(s[0], 0x20) + Low(s[1], 0x40)
    case 3 => 0x1000 * Low(s[0], 0x10) + 0x40 * Low(s[1], 0x40) + Low(s[2], 0x40)
    case _ => 0x4_0000 * Low(s[0], 0x08) + 0x1000 * Low(s[1], 0x40) + 0x40 * Low(s[2], 0x40) + Low(s[3], 0x40)
  }

  /** What a byte carries below its marker bits. */
  function Low(b: byte, n: nat): nat
    requires n > 0
  {
    b as int % n
  }

  lemma FirstEncoded(s: seq<byte>)
    requires CharLength(s) > 0
    ensures EncodeScalar(FirstScalar(s)) == s[..CharLength(s)]
  {
    if CharLength(s) == 2 {
      Digits(0, 0, Low(s[0], 0x20), Low(s[1], 0x40));
    } else if CharLength(s) == 3 {
      ThreeEncoded(s);
    } else if CharLength(s) == 4 {
      FourEncoded(s);
    }
  }

  lemma ThreeEncoded(s: seq<byte>)
    requires CharLength(s) == 3
    ensures EncodeScalar(FirstScalar(s)) == s[..3]
  {
    Digits(0, Low(s[0], 0x10), Low(s[1], 0x40), Low(s[2], 0x40));
    assert FirstScalar(s) >= 0x800;
  }

  lemma FourEncoded(s: seq<byte>)
    requires CharLength(s) == 4
    ensures EncodeScalar(FirstScalar(s)) == s[..4]
  {
    var a, b, c, d := Low(s[0], 0x08), Low(s[1], 0x40), Low(s[2], 0x40), Low(s[3], 0x40);
    assert s[0] == 0xF0 + a && s[1] == 0x80 + b && s[2] == 0x80 + c && s[3] == 0x80 + d;
    Digits(a, b, c, d);
    assert FirstScalar(s) >= 0x1_0000;
  }

  lemma Digits(a: nat, b: nat, c: nat, d: nat)
    requires b < 0x40 && c < 0x40 && d < 0x40
    ensures var v := a * 0x4_0000 + b * 0x1000 + c * 0x40 + d;
            && v % 0x40 == d && v / 0x40 % 0x40 == c && v / 0x1000 % 0x40 == b && v / 0x4_0000 == a
            && v / 0x40 == a * 0x1000 + b * 0x40 + c && v / 0x1000 == a * 0x40 + b
  {
    var v := a * 0x4_0000 + b * 0x1000 + c * 0x40 + d;
    LastDigit(a * 0x1000 + b * 0x40 + c, d);
    LastDigit(a * 0x40 + b, c);
    LastDigit(a, b);
    Twice(v);
    Twice(v / 0x40);
  }

  lemma LastDigit(q: nat, d: nat)
    requires d < 0x40
    ensures (q * 0x40 + d) / 0x40 == q && (q * 0x40 + d) % 0x40 == d
  {
  }

  lemma Twice(v: nat)
    ensures v / 0x1000 == v / 0x40 / 0x40
    ensures v / 0x4_0000 == v / 0x40 / 0x1000
  {
  }

  lemma {:induction false} EncodedIsValid(cs: seq<Scalar>)
    ensures ValidUtf8(EncodeText(cs))
    decreases |cs|
  {
    hide CharLength, EncodeScalar;
    if cs != [] {
      EncodedLength(cs[0], EncodeText(cs[1..]));
      EncodedIsValid(cs[1..]);
      assert EncodeText(cs)[|EncodeScalar(cs[0])|..] == EncodeText(cs[1..]);
    }
  }

  function Scalars(s: seq<byte>): seq<Scalar>
    requires ValidUtf8(s)
    decreases |s|
  {
    if s == [] then [] else [FirstScalar(s)] + Scalars(s[CharLength(s)..])
  }

  lemma {:induction false} ValidIsEncoded(s: seq<byte>)
    requires ValidUtf8(s)
    ensures EncodeText(Scalars(s)) == s
    decreases |s|
  {
    hide CharLength, EncodeScalar, FirstScalar;
    if s != [] {
      var n := CharLength(s);
      FirstEncoded(s);
      ValidIsEncoded(s[n..]);
      assert s == s[..n] + s[n..];
    }
  }

  /** A byte sequence is well-formed if and only if it encodes some scalar values. */
  lemma ValidExactly(s: seq<byte>)
    ensures ValidUtf8(s) <==> exists cs: seq<Scalar> :: EncodeText(cs) == s
  {
    hide ValidUtf8, EncodeText, Scalars;
    if ValidUtf8(s) {
      ValidIsEncoded(s);
    }
    forall cs: seq<Scalar> | EncodeText(cs) == s ensures ValidUtf8(s) {
      EncodedIsValid(cs);
    }
  }
}
