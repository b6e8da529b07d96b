/** Well-formed UTF-8 byte sequences, by the grammar of section 4 of RFC 3629. Error
    texts stay byte sequences in this model; only their validity matters to the codec. */
module Utf8 {
  import opened Bytes

  predicate Tail(b: byte) {
    0x80 <= b <= 0xBF
  }

  /** The length of the well-formed character at the front of `s`, or 0 if there is none. */
  function CharLength(s: seq<byte>): (n: nat)
    ensures n <= |s|
  {
    if s == [] then 0
    else if s[0] <= 0x7F then 1
    else if |s| < 2 then 0
    else if 0xC2 <= s[0] <= 0xDF then
      if Tail(s[1]) then 2 else 0
    else if |s| < 3 || !Tail(s[2]) then 0
    else if 0xE0 <= s[0] <= 0xEF then
      if Tail(s[1]) && (s[0] == 0xE0 ==> s[1] >= 0xA0) && (s[0] == 0xED ==> s[1] <= 0x9F) then 3 else 0
    else if |s| < 4 || !Tail(s[3]) then 0
    else if 0xF0 <= s[0] <= 0xF4 then
      if Tail(s[1]) && (s[0] == 0xF0 ==> s[1] >= 0x90) && (s[0] == 0xF4 ==> s[1] <= 0x8F) then 4 else 0
    else 0
  }

  predicate ValidUtf8(s: seq<byte>) {
    s == [] || (CharLength(s) > 0 && ValidUtf8(s[CharLength(s)..]))
  }

  /** A Rust `String`, kept as the bytes that encode it. */
  type Text = s: seq<byte> | ValidUtf8(s) witness []
}
