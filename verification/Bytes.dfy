/** Big-endian primitive readers and writers, the ground the wire formats stand on.
    A writer puts a value in front of the bytes that follow it; a reader takes a value
    off the front of a buffer and says what is left. */
module Bytes {
  type byte = x: int | 0 <= x < 0x100
  type u8 = byte
  type u16 = x: int | 0 <= x < 0x1_0000
  type u32 = x: int | 0 <= x < 0x1_0000_0000
  type u64 = x: int | 0 <= x < 0x1_0000_0000_0000_0000

  /** The outcome of reading a value: `Short` is an unexpected end of input,
      `Malformed` any other rejection. */
  datatype Read<+T> = Got(value: T, rest: seq<byte>) | Short | Malformed {
    predicate IsFailure() {
      !Got?
    }

    function PropagateFailure<U>(): Read<U>
      requires !Got?
    {
      if Short? then Short else Malformed
    }

    function Extract(): (T, seq<byte>)
      requires Got?
    {
      (value, rest)
    }
  }

  function PutU8(v: u8, t: seq<byte>): seq<byte> {
    [v] + t
  }

  function PutU16(v: u16, t: seq<byte>): seq<byte> {
    PutU8(v / 0x100, PutU8(v % 0x100, t))
  }

  function PutU32(v: u32, t: seq<byte>): seq<byte> {
    PutU16(v / 0x1_0000, PutU16(v % 0x1_0000, t))
  }

  function PutU64(v: u64, t: seq<byte>): seq<byte> {
    PutU32(v / 0x1_0000_0000, PutU32(v % 0x1_0000_0000, t))
  }

  function PutBytes(data: seq<byte>, t: seq<byte>): seq<byte> {
    data + t
  }

  function GetU8(s: seq<byte>): Read<u8> {
    if s == [] then Short else Got(s[0], s[1..])
  }

  function GetU16(s: seq<byte>): Read<u16> {
    var (hi, s) :- GetU8(s);
    var (lo, s) :- GetU8(s);
    Got(hi * 0x100 + lo, s)
  }

  function GetU32(s: seq<byte>): Read<u32> {
    var (hi, s) :- GetU16(s);
    var (lo, s) :- GetU16(s);
    Got(hi * 0x1_0000 + lo, s)
  }

  function GetU64(s: seq<byte>): Read<u64> {
    var (hi, s) :- GetU32(s);
    var (lo, s) :- GetU32(s);
    Got(hi * 0x1_0000_0000 + lo, s)
  }

  function GetBytes(n: nat, s: seq<byte>): Read<seq<byte>> {
    if |s| < n then Short else Got(s[..n], s[n..])
  }

  // ----- Reading back what was written -----

  lemma GetPutU8(v: u8, t: seq<byte>)
    ensures GetU8(PutU8(v, t)) == Got(v, t)
  {
  }

  lemma GetPutU16(v: u16, t: seq<byte>)
    ensures GetU16(PutU16(v, t)) == Got(v, t)
  {
    GetPutU8(v % 0x100, t);
    GetPutU8(v / 0x100, PutU8(v % 0x100, t));
  }

  lemma GetPutU32(v: u32, t: seq<byte>)
    ensures GetU32(PutU32(v, t)) == Got(v, t)
  {
    hide GetU16, PutU16;
    GetPutU16(v % 0x1_0000, t);
    GetPutU16(v / 0x1_0000, PutU16(v % 0x1_0000, t));
  }

  lemma GetPutU64(v: u64, t: seq<byte>)
    ensures GetU64(PutU64(v, t)) == Got(v, t)
  {
    hide GetU32, PutU32;
    GetPutU32(v % 0x1_0000_0000, t);
    GetPutU32(v / 0x1_0000_0000, PutU32(v % 0x1_0000_0000, t));
  }

  /** Every reader undoes its writer, whatever bytes follow. */
  lemma GetPut()
    ensures forall v: u8, t {:trigger PutU8(v, t)} :: GetU8(PutU8(v, t)) == Got(v, t)
    ensures forall v: u16, t {:trigger PutU16(v, t)} :: GetU16(PutU16(v, t)) == Got(v, t)
    ensures forall v: u32, t {:trigger PutU32(v, t)} :: GetU32(PutU32(v, t)) == Got(v, t)
    ensures forall v: u64, t {:trigger PutU64(v, t)} :: GetU64(PutU64(v, t)) == Got(v, t)
    ensures forall d, t {:trigger PutBytes(d, t)} :: GetBytes(|d|, PutBytes(d, t)) == Got(d, t)
  {
    forall v: u16, t ensures GetU16(PutU16(v, t)) == Got(v, t) { GetPutU16(v, t); }
    forall v: u32, t ensures GetU32(PutU32(v, t)) == Got(v, t) { GetPutU32(v, t); }
    forall v: u64, t ensures GetU64(PutU64(v, t)) == Got(v, t) { GetPutU64(v, t); }
    forall d: seq<byte>, t: seq<byte> ensures GetBytes(|d|, PutBytes(d, t)) == Got(d, t) {
      assert PutBytes(d, t)[..|d|] == d && PutBytes(d, t)[|d|..] == t;
    }
  }

  // ----- Writing back what was read -----

  lemma PutGetU16(s: seq<byte>)
    requires GetU16(s).Got?
    ensures s == PutU16(GetU16(s).value, GetU16(s).rest)
  {
    assert s == [s[0]] + ([s[1]] + s[1..][1..]);
  }

  lemma PutGetU32(s: seq<byte>)
    requires GetU32(s).Got?
    ensures s == PutU32(GetU32(s).value, GetU32(s).rest)
  {
    hide GetU16, PutU16;
    PutGetU16(s);
    PutGetU16(GetU16(s).rest);
  }

  lemma PutGetU64(s: seq<byte>)
    requires GetU64(s).Got?
    ensures s == PutU64(GetU64(s).value, GetU64(s).rest)
  {
    hide GetU32, PutU32;
    PutGetU32(s);
    PutGetU32(GetU32(s).rest);
  }

  /** Every writer undoes its reader: a buffer is the value read in front of the rest. */
  lemma PutGet()
    ensures forall s {:trigger GetU8(s)} :: GetU8(s).Got? ==> s == PutU8(GetU8(s).value, GetU8(s).rest)
    ensures forall s {:trigger GetU16(s)} :: GetU16(s).Got? ==> s == PutU16(GetU16(s).value, GetU16(s).rest)
    ensures forall s {:trigger GetU32(s)} :: GetU32(s).Got? ==> s == PutU32(GetU32(s).value, GetU32(s).rest)
    ensures forall s {:trigger GetU64(s)} :: GetU64(s).Got? ==> s == PutU64(GetU64(s).value, GetU64(s).rest)
    ensures forall n: nat, s {:trigger GetBytes(n, s)} ::
      GetBytes(n, s).Got? ==>
        s == PutBytes(GetBytes(n, s).value, GetBytes(n, s).rest) && |GetBytes(n, s).value| == n
  {
    forall s | GetU16(s).Got? ensures s == PutU16(GetU16(s).value, GetU16(s).rest) { PutGetU16(s); }
    forall s | GetU32(s).Got? ensures s == PutU32(GetU32(s).value, GetU32(s).rest) { PutGetU32(s); }
    forall s | GetU64(s).Got? ensures s == PutU64(GetU64(s).value, GetU64(s).rest) { PutGetU64(s); }
  }

  lemma BytesRead()
    ensures forall n: nat, s {:trigger GetBytes(n, s)} :: GetBytes(n, s).Got? ==> |GetBytes(n, s).value| == n
  {
  }

  // ----- Reading from a longer buffer -----

  /** A reader is stable under extension of its input when a success or a rejection is
      kept, with the extra bytes left over. */
  predicate Extends<T(==)>(short: Read<T>, long: Read<T>, t: seq<byte>) {
    match short
    case Got(v, rest) => long == Got(v, rest + t)
    case Malformed => long == Malformed
    case Short => true
  }

  lemma ExtendU8(s: seq<byte>, t: seq<byte>)
    ensures Extends(GetU8(s), GetU8(s + t), t)
  {
    if s != [] {
      assert (s + t)[1..] == s[1..] + t;
    }
  }

  lemma ExtendU16(s: seq<byte>, t: seq<byte>)
    ensures Extends(GetU16(s), GetU16(s + t), t)
  {
    ExtendU8(s, t);
    if GetU8(s).Got? {
      ExtendU8(GetU8(s).rest, t);
    }
  }

  lemma ExtendU32(s: seq<byte>, t: seq<byte>)
    ensures Extends(GetU32(s), GetU32(s + t), t)
  {
    hide GetU16;
    ExtendU16(s, t);
    if GetU16(s).Got? {
      ExtendU16(GetU16(s).rest, t);
    }
  }

  lemma ExtendU64(s: seq<byte>, t: seq<byte>)
    ensures Extends(GetU64(s), GetU64(s + t), t)
  {
    hide GetU32;
    ExtendU32(s, t);
    if GetU32(s).Got? {
      ExtendU32(GetU32(s).rest, t);
    }
  }

  lemma ExtendBytes(n: nat, s: seq<byte>, t: seq<byte>)
    ensures Extends(GetBytes(n, s), GetBytes(n, s + t), t)
  {
    if n <= |s| {
      assert (s + t)[..n] == s[..n] && (s + t)[n..] == s[n..] + t;
    }
  }

  /** All primitive readers are stable under extension by `t`. */
  lemma Extension(t: seq<byte>)
    ensures forall s {:trigger GetU8(s + t)} :: Extends(GetU8(s), GetU8(s + t), t)
    ensures forall s {:trigger GetU16(s + t)} :: Extends(GetU16(s), GetU16(s + t), t)
    ensures forall s {:trigger GetU32(s + t)} :: Extends(GetU32(s), GetU32(s + t), t)
    ensures forall s {:trigger GetU64(s + t)} :: Extends(GetU64(s), GetU64(s + t), t)
    ensures forall n: nat, s {:trigger GetBytes(n, s + t)} :: Extends(GetBytes(n, s), GetBytes(n, s + t), t)
  {
    forall s ensures Extends(GetU8(s), GetU8(s + t), t) { ExtendU8(s, t); }
    forall s ensures Extends(GetU16(s), GetU16(s + t), t) { ExtendU16(s, t); }
    forall s ensures Extends(GetU32(s), GetU32(s + t), t) { ExtendU32(s, t); }
    forall s ensures Extends(GetU64(s), GetU64(s + t), t) { ExtendU64(s, t); }
    forall n: nat, s ensures Extends(GetBytes(n, s), GetBytes(n, s + t), t) { ExtendBytes(n, s, t); }
  }

  // ----- What is left after a read, and what stands behind a write -----

  predicate Suffix(r: seq<byte>, s: seq<byte>) {
    |r| <= |s| && r == s[|s| - |r|..]
  }

  lemma SuffixReflexive(a: seq<byte>)
    ensures Suffix(a, a)
  {
  }

  lemma SuffixTransitive(a: seq<byte>, b: seq<byte>, c: seq<byte>)
    requires Suffix(a, b) && Suffix(b, c)
    ensures Suffix(a, c)
  {
  }

  lemma SuffixU16(s: seq<byte>)
    requires GetU16(s).Got?
    ensures Suffix(GetU16(s).rest, s) && |s| == 2 + |GetU16(s).rest|
  {
  }

  lemma SuffixU32(s: seq<byte>)
    requires GetU32(s).Got?
    ensures Suffix(GetU32(s).rest, s) && |s| == 4 + |GetU32(s).rest|
  {
    hide GetU16;
    SuffixU16(s);
    SuffixU16(GetU16(s).rest);
    SuffixTransitive(GetU32(s).rest, GetU16(s).rest, s);
  }

  lemma SuffixU64(s: seq<byte>)
    requires GetU64(s).Got?
    ensures Suffix(GetU64(s).rest, s)
  {
    hide GetU32;
    SuffixU32(s);
    SuffixU32(GetU32(s).rest);
    SuffixTransitive(GetU64(s).rest, GetU32(s).rest, s);
  }

  lemma RestIsSuffix()
    ensures forall s {:trigger GetU8(s)} :: GetU8(s).Got? ==> Suffix(GetU8(s).rest, s)
    ensures forall s {:trigger GetU16(s)} :: GetU16(s).Got? ==> Suffix(GetU16(s).rest, s)
    ensures forall s {:trigger GetU32(s)} :: GetU32(s).Got? ==> Suffix(GetU32(s).rest, s)
    ensures forall s {:trigger GetU64(s)} :: GetU64(s).Got? ==> Suffix(GetU64(s).rest, s)
    ensures forall n: nat, s {:trigger GetBytes(n, s)} :: GetBytes(n, s).Got? ==> Suffix(GetBytes(n, s).rest, s)
  {
    hide GetU16, GetU32, GetU64;
    forall s | GetU16(s).Got? ensures Suffix(GetU16(s).rest, s) { SuffixU16(s); }
    forall s | GetU32(s).Got? ensures Suffix(GetU32(s).rest, s) { SuffixU32(s); }
    forall s | GetU64(s).Got? ensures Suffix(GetU64(s).rest, s) { SuffixU64(s); }
  }

  lemma PutLengths()
    ensures forall v: u8, s {:trigger PutU8(v, s)} :: |PutU8(v, s)| == 1 + |s|
    ensures forall v: u16, s {:trigger PutU16(v, s)} :: |PutU16(v, s)| == 2 + |s|
    ensures forall v: u32, s {:trigger PutU32(v, s)} :: |PutU32(v, s)| == 4 + |s|
    ensures forall v: u64, s {:trigger PutU64(v, s)} :: |PutU64(v, s)| == 8 + |s|
  {
    forall v: u32, s ensures |PutU32(v, s)| == 4 + |s| { }
    forall v: u64, s ensures |PutU64(v, s)| == 8 + |s| {
      hide PutU16;
      assert forall u: u32, r :: |PutU32(u, r)| == 4 + |r|;
    }
  }

  /** Writers put their bytes in front, so what is behind them can be appended later. */
  lemma PutAppends(t: seq<byte>)
    ensures forall v: u8, s {:trigger PutU8(v, s) + t} :: PutU8(v, s) + t == PutU8(v, s + t)
    ensures forall v: u16, s {:trigger PutU16(v, s) + t} :: PutU16(v, s) + t == PutU16(v, s + t)
    ensures forall v: u32, s {:trigger PutU32(v, s) + t} :: PutU32(v, s) + t == PutU32(v, s + t)
    ensures forall v: u64, s {:trigger PutU64(v, s) + t} :: PutU64(v, s) + t == PutU64(v, s + t)
    ensures forall d, s {:trigger PutBytes(d, s) + t} :: PutBytes(d, s) + t == PutBytes(d, s + t)
  {
    forall v: u8, s ensures PutU8(v, s) + t == PutU8(v, s + t) { assert [v] + s + t == [v] + (s + t); }
    forall d: seq<byte>, s ensures PutBytes(d, s) + t == PutBytes(d, s + t) { assert d + s + t == d + (s + t); }
    forall v: u32, s ensures PutU32(v, s) + t == PutU32(v, s + t) { hide PutU8; }
    forall v: u64, s ensures PutU64(v, s) + t == PutU64(v, s + t) { hide PutU16; }
  }
}
