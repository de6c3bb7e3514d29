/** Text to UTF-8 bytes and back (RFC 3629).  A character is a Unicode scalar value. */
module Utf8 {
  import opened Base64Url

  const REPLACEMENT := '\U{FFFD}'

  function EncodeChar(c: char): (b: seq<byte>)
    ensures 1 <= |b| <= 4
  {
    var n := c as int;
    if n < 0x80 then [n]
    else if n < 0x800 then [0xC0 + n / 0x40, 0x80 + n % 0x40]
    else if n < 0x10000 then [0xE0 + n / 0x1000, 0x80 + n / 0x40 % 0x40, 0x80 + n % 0x40]
    else [0xF0 + n / 0x40000, 0x80 + n / 0x1000 % 0x40, 0x80 + n / 0x40 % 0x40, 0x80 + n % 0x40]
  }

  function Encode(s: string): (b: seq<byte>) {
    if s == "" then [] else EncodeChar(s[0]) + Encode(s[1..])
  }

  predicate IsContinuation(b: byte) {
    0x80 <= b < 0xC0
  }

  /** How many bytes the character starting with `b` takes; 0 for a byte that starts none. */
  function LengthOf(b: byte): nat {
    if b < 0x80 then 1
    else if b < 0xC2 then 0
    else if b < 0xE0 then 2
    else if b < 0xF0 then 3
    else if b < 0xF5 then 4
    else 0
  }

  function Join2(a: int, b: int): int {
    (a - 0xC0) * 0x40 + (b - 0x80)
  }

  function Join3(a: int, b: int, c: int): int {
    (a - 0xE0) * 0x1000 + (b - 0x80) * 0x40 + (c - 0x80)
  }

  function Join4(a: int, b: int, c: int, d: int): int {
    (a - 0xF0) * 0x40000 + (b - 0x80) * 0x1000 + (c - 0x80) * 0x40 + (d - 0x80)
  }

  function CodePoint(b: seq<byte>): int
    requires 1 <= |b| <= 4
  {
    if |b| == 1 then b[0]
    else if |b| == 2 then Join2(b[0], b[1])
    else if |b| == 3 then Join3(b[0], b[1], b[2])
    else Join4(b[0], b[1], b[2], b[3])
  }

  predicate IsScalar(n: int) {
    0 <= n < 0xD800 || 0xE000 <= n < 0x110000
  }

  /** A well-formed sequence: continuation bytes, a scalar value, and no shorter form. */
  predicate IsWellFormed(b: seq<byte>)
    requires 1 <= |b| <= 4
  {
    && (forall i :: 1 <= i < |b| ==> IsContinuation(b[i]))
    && IsScalar(CodePoint(b))
    && EncodeChar(CodePoint(b) as char) == b
  }

  /** The first character and how many bytes it takes; a malformed byte reads as U+FFFD. */
  function DecodeFirst(b: seq<byte>): (r: (char, nat))
    requires b != []
    ensures 1 <= r.1 <= |b|
  {
    var n := LengthOf(b[0]);
    if 1 <= n <= |b| && IsWellFormed(b[..n]) then (CodePoint(b[..n]) as char, n) else (REPLACEMENT, 1)
  }

  function Decode(b: seq<byte>): (s: string)
    decreases |b|
  {
    if b == [] then "" else
      var r := DecodeFirst(b);
      [r.0] + Decode(b[r.1..])
  }

  lemma Joins(n: int)
    requires 0 <= n
    ensures Join2(0xC0 + n / 0x40, 0x80 + n % 0x40) == n
    ensures Join3(0xE0 + n / 0x1000, 0x80 + n / 0x40 % 0x40, 0x80 + n % 0x40) == n
    ensures Join4(0xF0 + n / 0x40000, 0x80 + n / 0x1000 % 0x40, 0x80 + n / 0x40 % 0x40, 0x80 + n % 0x40) == n
  {
    assert n / 0x40 / 0x40 == n / 0x1000;
    assert n / 0x1000 / 0x40 == n / 0x40000;
  }

  lemma CodePointOfEncoded(c: char)
    ensures LengthOf(EncodeChar(c)[0]) == |EncodeChar(c)|
    ensures CodePoint(EncodeChar(c)) == c as int
    ensures forall i :: 1 <= i < |EncodeChar(c)| ==> IsContinuation(EncodeChar(c)[i])
  {
    hide Join2;
    hide Join3;
    hide Join4;
    Joins(c as int);
  }

  lemma FirstOfEncoded(c: char, rest: seq<byte>)
    ensures DecodeFirst(EncodeChar(c) + rest) == (c, |EncodeChar(c)|)
  {
    hide EncodeChar;
    hide CodePoint;
    hide LengthOf;
    CodePointOfEncoded(c);
    var b := EncodeChar(c);
    assert (b + rest)[..|b|] == b;
  }

  lemma {:induction false} DecodeUndoesEncode(s: string)
    ensures Decode(Encode(s)) == s
  {
    if s != "" {
      hide EncodeChar;
      hide DecodeFirst;
      var b, rest := EncodeChar(s[0]), Encode(s[1..]);
      FirstOfEncoded(s[0], rest);
      assert (b + rest)[|b|..] == rest;
      DecodeUndoesEncode(s[1..]);
    }
  }
}
