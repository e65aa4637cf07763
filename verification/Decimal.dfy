/** Decimal text: `f"{n:d}"`, `int(bytes)`, and the two decodings bpickle uses. */
module Decimal {
  import opened Common
  import opened KeyOrder

  const DIGIT0: byte := '0' as int
  const MINUS: byte := '-' as int
  const PLUS: byte := '+' as int
  const UNDERSCORE: byte := '_' as int

  predicate IsDigit(c: byte) {
    DIGIT0 <= c <= DIGIT0 + 9
  }

  /** ASCII white space: tab, line feed, vertical tab, form feed, carriage return, space. */
  predicate IsSpace(c: byte) {
    9 <= c <= 13 || c == 32
  }

  function Digits(n: nat): (d: Bytes)
    ensures d != [] && forall i :: 0 <= i < |d| ==> IsDigit(d[i])
  {
    if n < 10 then [DIGIT0 + n] else Digits(n / 10) + [DIGIT0 + n % 10]
  }

  /** `f"{n:d}"`. */
  function IntText(n: int): (d: Bytes)
    ensures d != [] && forall i :: 0 <= i < |d| ==> IsDigit(d[i]) || (i == 0 && d[i] == MINUS)
  {
    if n < 0 then [MINUS] + Digits(-n) else Digits(n)
  }

  /** A digit, then digits that may each follow one underscore. */
  function ParseDigits(s: Bytes): Option<int>
    decreases |s|
  {
    if s == [] || !IsDigit(s[|s| - 1]) then None
    else if |s| == 1 then Some(s[0] - DIGIT0)
    else
      var rest := s[..|s| - 1];
      match ParseDigits(if rest[|rest| - 1] == UNDERSCORE then rest[..|rest| - 1] else rest)
      case None => None
      case Some(n) => Some(10 * n + (s[|s| - 1] - DIGIT0))
  }

  function TrimLeft(s: Bytes): Bytes {
    if s != [] && IsSpace(s[0]) then TrimLeft(s[1..]) else s
  }

  function TrimRight(s: Bytes): Bytes {
    if s != [] && IsSpace(s[|s| - 1]) then TrimRight(s[..|s| - 1]) else s
  }

  /** `int(bytes)` in base ten. */
  function ParseInt(s: Bytes): Option<int> {
    var t := TrimRight(TrimLeft(s));
    if t != [] && (t[0] == PLUS || t[0] == MINUS) then
      match ParseDigits(t[1..]) {
        case Some(n) => Some(if t[0] == MINUS then -n else n)
        case None => None
      }
    else
      ParseDigits(t)
  }

  lemma {:induction false} ParseDigitsRoundTrip(n: nat)
    ensures ParseDigits(Digits(n)) == Some(n)
  {
    if n >= 10 {
      ParseDigitsRoundTrip(n / 10);
      var d := Digits(n / 10);
      assert (d + [DIGIT0 + n % 10])[..|d|] == d;
    }
  }

  lemma ParseIntRoundTrip(n: int)
    ensures ParseInt(IntText(n)) == Some(n)
  {
    hide ParseDigits, Digits;
    var d, t := Digits(if n < 0 then -n else n), IntText(n);
    ParseDigitsRoundTrip(if n < 0 then -n else n);
    assert TrimLeft(t) == t && TrimRight(t) == t;
    if n < 0 {
      assert t == [MINUS] + d && t[1..] == d;
    }
  }

  predicate Ascii(s: Bytes) {
    forall i :: 0 <= i < |s| ==> s[i] < 128
  }

  /** Byte `i` exists and lies between `lo` and `hi`. */
  predicate ByteIn(s: Bytes, i: nat, lo: byte, hi: byte) {
    i < |s| && lo <= s[i] <= hi
  }

  /** Well-formed UTF-8 (section 4 of RFC 3629). */
  predicate ValidUtf8(s: Bytes) {
    if s == [] then true
    else if s[0] <= 0x7F then ValidUtf8(s[1..])
    else if ByteIn(s, 0, 0xC2, 0xDF) then ByteIn(s, 1, 0x80, 0xBF) && ValidUtf8(s[2..])
    else if ByteIn(s, 0, 0xE0, 0xEF) then
      && ByteIn(s, 1, if s[0] == 0xE0 then 0xA0 else 0x80, if s[0] == 0xED then 0x9F else 0xBF)
      && ByteIn(s, 2, 0x80, 0xBF)
      && ValidUtf8(s[3..])
    else if ByteIn(s, 0, 0xF0, 0xF4) then
      && ByteIn(s, 1, if s[0] == 0xF0 then 0x90 else 0x80, if s[0] == 0xF4 then 0x8F else 0xBF)
      && ByteIn(s, 2, 0x80, 0xBF) && ByteIn(s, 3, 0x80, 0xBF)
      && ValidUtf8(s[4..])
    else false
  }
}
