/** Bytes to base64url text and back: sections 4, 5 and 3.5 of RFC 4648. */
module Base64Url {
  import opened Common

  type byte = b: int | 0 <= b < 256

  type sextet = v: int | 0 <= v < 64

  function StandardChar(v: sextet): (c: char) {
    if v < 26 then 'A' + v as char
    else if v < 52 then 'a' + (v - 26) as char
    else if v < 62 then '0' + (v - 52) as char
    else if v == 62 then '+' else '/'
  }

  /** The value of a character in either alphabet: `Buffer.from(_, 'base64')` reads both. */
  function ValueOf(c: char): (v: Option<sextet>) {
    if 'A' <= c <= 'Z' then Some((c as int) - 'A' as int)
    else if 'a' <= c <= 'z' then Some((c as int) - 'a' as int + 26)
    else if '0' <= c <= '9' then Some((c as int) - '0' as int + 52)
    else if c == '+' || c == '-' then Some(62)
    else if c == '/' || c == '_' then Some(63)
    else None
  }

  /** Six bits at a time; the last value is filled up with zero bits. */
  function Sextets(b: seq<byte>): (x: seq<sextet>) {
    if |b| == 0 then []
    else if |b| == 1 then [b[0] / 4, b[0] % 4 * 16]
    else if |b| == 2 then [b[0] / 4, b[0] % 4 * 16 + b[1] / 16, b[1] % 16 * 4]
    else [b[0] / 4, b[0] % 4 * 16 + b[1] / 16, b[1] % 16 * 4 + b[2] / 64, b[2] % 64] + Sextets(b[3..])
  }

  function Octet1(u: sextet, v: sextet): byte {
    (u as int) * 4 + (v as int) / 16
  }

  function Octet2(u: sextet, v: sextet): byte {
    (u as int) % 16 * 16 + (v as int) / 4
  }

  function Octet3(u: sextet, v: sextet): byte {
    (u as int) % 4 * 64 + v as int
  }

  /** Eight bits at a time; bits that do not fill a byte are dropped. */
  function Octets(x: seq<sextet>): (b: seq<byte>) {
    if |x| < 2 then []
    else if |x| == 2 then [Octet1(x[0], x[1])]
    else if |x| == 3 then [Octet1(x[0], x[1]), Octet2(x[1], x[2])]
    else [Octet1(x[0], x[1]), Octet2(x[1], x[2]), Octet3(x[2], x[3])] + Octets(x[4..])
  }

  function Render(x: seq<sextet>): (s: string)
    ensures |s| == |x|
  {
    seq(|x|, i requires 0 <= i < |x| => StandardChar(x[i]))
  }

  /** `buf.toString('base64')`. */
  function ToBase64(b: seq<byte>): string {
    Render(Sextets(b)) + (if |b| % 3 == 1 then "==" else if |b| % 3 == 2 then "=" else "")
  }

  function ReplaceAll(s: string, from: char, to: char): (r: string)
    ensures |r| == |s|
  {
    seq(|s|, i requires 0 <= i < |s| => if s[i] == from then to else s[i])
  }

  function StripPadding(s: string): string {
    if s != "" && s[|s| - 1] == '=' then StripPadding(s[..|s| - 1]) else s
  }

  function B64UrlEncode(b: seq<byte>): string {
    StripPadding(ReplaceAll(ReplaceAll(ToBase64(b), '+', '-'), '/', '_'))
  }

  /** The values of the characters of either alphabet; other characters are skipped. */
  function Values(s: string): (x: seq<sextet>) {
    if s == "" then []
    else
      var v := ValueOf(s[0]);
      (if v.Some? then [v.value] else []) + Values(s[1..])
  }

  /** `Buffer.from(s, 'base64')`, and the same for 'base64url'. */
  function FromBase64(s: string): seq<byte> {
    Octets(Values(s))
  }

  function B64UrlDecode(s: string): seq<byte> {
    FromBase64(ReplaceAll(ReplaceAll(s, '-', '+'), '_', '/'))
  }

  // ---------- the text that is produced ----------

  function UrlChar(v: sextet): (c: char) {
    if v == 62 then '-' else if v == 63 then '_' else StandardChar(v)
  }

  function UrlText(x: seq<sextet>): (s: string)
    ensures |s| == |x|
  {
    seq(|x|, i requires 0 <= i < |x| => UrlChar(x[i]))
  }

  lemma UrlCharIsInAlphabet(v: sextet)
    ensures IsBase64UrlChar(UrlChar(v)) && ValueOf(UrlChar(v)) == Some(v) && UrlChar(v) != '='
  {
  }

  lemma NoPadding(s: string)
    requires s == "" || s[|s| - 1] != '='
    ensures StripPadding(s) == s && StripPadding(s + "=") == s && StripPadding(s + "==") == s
  {
    assert (s + "=")[..|s|] == s;
    assert (s + "==")[..|s| + 1] == s + "=";
  }

  /** Encoding then replacing characters and stripping the padding gives the base64url alphabet directly. */
  lemma EncodesAsUrlText(b: seq<byte>)
    ensures B64UrlEncode(b) == UrlText(Sextets(b))
  {
    var text, x := UrlText(Sextets(b)), Sextets(b);
    var pad := if |b| % 3 == 1 then "==" else if |b| % 3 == 2 then "=" else "";
    var replaced := ReplaceAll(ReplaceAll(ToBase64(b), '+', '-'), '/', '_');
    forall i | 0 <= i < |x| ensures replaced[i] == text[i] && text[i] != '=' {
      UrlCharIsInAlphabet(x[i]);
    }
    assert replaced == text + pad;
    NoPadding(text);
    assert text + "" == text;
  }

  /** No padding: 4 characters for 3 bytes, 2 or 3 for the rest. */
  lemma {:induction false} EncodedLength(b: seq<byte>)
    ensures |Sextets(b)| == |B64UrlEncode(b)| == |b| / 3 * 4 + (if |b| % 3 == 0 then 0 else |b| % 3 + 1)
  {
    EncodesAsUrlText(b);
    if 3 <= |b| {
      EncodedLength(b[3..]);
      EncodesAsUrlText(b[3..]);
    }
  }

  lemma OctetsBack(a: byte, b: byte, c: byte)
    ensures Octet1(a / 4, a % 4 * 16 + b / 16) == a
    ensures Octet2(a % 4 * 16 + b / 16, b % 16 * 4 + c / 64) == b
    ensures Octet3(b % 16 * 4 + c / 64, c % 64) == c
  {
  }

  lemma {:induction false} OctetsOfSextets(b: seq<byte>)
    ensures Octets(Sextets(b)) == b
  {
    if 3 <= |b| {
      var rest := Sextets(b[3..]);
      OctetsOfSextets(b[3..]);
      OctetsBack(b[0], b[1], b[2]);
      OctetsOfGroup(b[0] / 4, b[0] % 4 * 16 + b[1] / 16, b[1] % 16 * 4 + b[2] / 64, b[2] % 64, rest);
      hide Octets;
      hide Octet1;
      hide Octet2;
      hide Octet3;
      assert b == [b[0], b[1], b[2]] + b[3..];
    }
  }

  lemma {:induction false} ValuesOfUrlText(s: string, x: seq<sextet>)
    requires |s| == |x| && forall i :: 0 <= i < |x| ==> ValueOf(s[i]) == Some(x[i])
    ensures Values(s) == x
  {
    if s != "" {
      ValuesOfUrlText(s[1..], x[1..]);
      assert x == [x[0]] + x[1..];
    }
  }

  lemma DecodesUrlText(x: seq<sextet>)
    ensures Values(UrlText(x)) == x
    ensures B64UrlDecode(UrlText(x)) == Octets(x) && FromBase64(UrlText(x)) == Octets(x)
  {
    var s := UrlText(x);
    forall i | 0 <= i < |x| ensures ValueOf(s[i]) == Some(x[i]) { UrlCharIsInAlphabet(x[i]); }
    ValuesOfUrlText(s, x);
    ValuesOfUrlText(ReplaceAll(ReplaceAll(s, '-', '+'), '_', '/'), x);
  }

  /** Decoding undoes encoding, on every byte string. */
  lemma DecodeUndoesEncode(b: seq<byte>)
    ensures B64UrlDecode(B64UrlEncode(b)) == b && FromBase64(B64UrlEncode(b)) == b
    ensures forall i :: 0 <= i < |B64UrlEncode(b)| ==> IsBase64UrlChar(B64UrlEncode(b)[i])
    ensures b != [] ==> B64UrlEncode(b) != ""
  {
    EncodesAsUrlText(b);
    DecodesUrlText(Sextets(b));
    OctetsOfSextets(b);
    forall v: sextet ensures IsBase64UrlChar(UrlChar(v)) { UrlCharIsInAlphabet(v); }
  }

  // ---------- canonical text ----------

  predicate IsUrlText(s: string) {
    forall i :: 0 <= i < |s| ==> IsBase64UrlChar(s[i])
  }

  /** The test of the source: decoding and encoding again gives the same text.
      `toString('base64url')` writes the base64url alphabet without padding. */
  predicate IsCanonicalBase64Url(s: string) {
    s != "" && IsUrlText(s) && UrlText(Sextets(FromBase64(s))) == s
  }

  lemma {:induction false} UrlTextOfValues(s: string)
    requires IsUrlText(s)
    ensures UrlText(Values(s)) == s
  {
    if s != "" {
      UrlTextOfValues(s[1..]);
      var x := Values(s);
      assert UrlChar(x[0]) == s[0];
      assert x[1..] == Values(s[1..]);
      forall i | 0 <= i < |x| ensures UrlText(x)[i] == s[i] {
        if 0 < i { assert UrlText(x[1..])[i - 1] == s[1..][i - 1]; }
      }
    }
  }

  /** Accepted exactly when it is the encoding of some non-empty byte string. */
  lemma CanonicalIffEncoding(s: string)
    ensures IsCanonicalBase64Url(s) <==> exists b: seq<byte> :: b != [] && B64UrlEncode(b) == s
  {
    if IsCanonicalBase64Url(s) {
      var b := FromBase64(s);
      EncodesAsUrlText(b);
      assert b != [];
    }
    if b: seq<byte> :| b != [] && B64UrlEncode(b) == s {
      DecodeUndoesEncode(b);
      EncodesAsUrlText(b);
    }
  }

  /** Section 3.5: no six bits left over, and the bits that do not fill a byte are zero. */
  predicate ZeroPadBits(x: seq<sextet>) {
    && |x| % 4 != 1
    && (|x| % 4 == 2 ==> x[|x| - 1] % 16 == 0)
    && (|x| % 4 == 3 ==> x[|x| - 1] % 4 == 0)
  }

  lemma BackAndForth2(u: sextet, v: sextet)
    ensures Sextets(Octets([u, v])) == [u, (v as int) / 16 * 16]
  {
  }

  lemma BackAndForth3(u: sextet, v: sextet, w: sextet)
    ensures Sextets(Octets([u, v, w])) == [u, v, (w as int) / 4 * 4]
  {
  }

  lemma OctetParts(u: sextet, v: sextet, w: sextet, z: sextet)
    ensures Octet1(u, v) / 4 == u && Octet1(u, v) % 4 * 16 + Octet2(v, w) / 16 == v
    ensures Octet2(v, w) % 16 * 4 + Octet3(w, z) / 64 == w && Octet3(w, z) % 64 == z
  {
  }

  lemma SextetsOfGroup(u: sextet, v: sextet, w: sextet, z: sextet, rest: seq<byte>)
    ensures Sextets([Octet1(u, v), Octet2(v, w), Octet3(w, z)] + rest) == [u, v, w, z] + Sextets(rest)
  {
    hide Octet1;
    hide Octet2;
    hide Octet3;
    OctetParts(u, v, w, z);
    assert ([Octet1(u, v), Octet2(v, w), Octet3(w, z)] + rest)[3..] == rest;
  }

  lemma OctetsOfGroup(u: sextet, v: sextet, w: sextet, z: sextet, rest: seq<sextet>)
    ensures Octets([u, v, w, z] + rest) == [Octet1(u, v), Octet2(v, w), Octet3(w, z)] + Octets(rest)
  {
    hide Octet1;
    hide Octet2;
    hide Octet3;
    assert ([u, v, w, z] + rest)[4..] == rest;
  }

  lemma GroupBackAndForth(u: sextet, v: sextet, w: sextet, z: sextet, rest: seq<sextet>)
    ensures Sextets(Octets([u, v, w, z] + rest)) == [u, v, w, z] + Sextets(Octets(rest))
  {
    hide *;
    OctetsOfGroup(u, v, w, z, rest);
    SextetsOfGroup(u, v, w, z, Octets(rest));
  }

  lemma DropGroup(x: seq<sextet>)
    requires 4 <= |x|
    ensures Sextets(Octets(x)) == x <==> Sextets(Octets(x[4..])) == x[4..]
  {
    hide *;
    GroupsAlike(x[0], x[1], x[2], x[3], x[4..]);
    assert x == [x[0], x[1], x[2], x[3]] + x[4..];
  }

  lemma GroupsAlike(u: sextet, v: sextet, w: sextet, z: sextet, rest: seq<sextet>)
    ensures Sextets(Octets([u, v, w, z] + rest)) == [u, v, w, z] + rest <==> Sextets(Octets(rest)) == rest
  {
    hide *;
    GroupBackAndForth(u, v, w, z, rest);
    SameAfterGroup([u, v, w, z], Sextets(Octets(rest)), rest);
  }

  lemma SameAfterGroup(group: seq<sextet>, a: seq<sextet>, b: seq<sextet>)
    ensures group + a == group + b <==> a == b
  {
    if group + a == group + b { assert a == (group + a)[|group|..] == (group + b)[|group|..] == b; }
  }

  lemma ZeroPadBitsOfRest(x: seq<sextet>)
    requires 4 <= |x|
    ensures ZeroPadBits(x) <==> ZeroPadBits(x[4..])
  {
    assert |x| % 4 == |x[4..]| % 4;
  }

  lemma {:induction false} SextetsOfOctets(x: seq<sextet>)
    ensures Sextets(Octets(x)) == x <==> ZeroPadBits(x)
  {
    if 4 <= |x| {
      hide Octets;
      hide Sextets;
      hide ZeroPadBits;
      DropGroup(x);
      ZeroPadBitsOfRest(x);
      SextetsOfOctets(x[4..]);
    } else {
      ShortTail(x);
    }
  }

  lemma ShortTail(x: seq<sextet>)
    requires |x| < 4
    ensures Sextets(Octets(x)) == x <==> ZeroPadBits(x)
  {
    if |x| == 2 { Tail2(x); }
    if |x| == 3 { Tail3(x); }
  }

  lemma Tail2(x: seq<sextet>)
    requires |x| == 2
    ensures Sextets(Octets(x)) == x <==> ZeroPadBits(x)
  {
    hide Octets;
    hide Sextets;
    assert x == [x[0], x[1]];
    BackAndForth2(x[0], x[1]);
  }

  lemma Tail3(x: seq<sextet>)
    requires |x| == 3
    ensures Sextets(Octets(x)) == x <==> ZeroPadBits(x)
  {
    hide Octets;
    hide Sextets;
    assert x == [x[0], x[1], x[2]];
    BackAndForth3(x[0], x[1], x[2]);
  }

  /** The same set of texts, by a direct check of the characters. */
  lemma CanonicalIffZeroPadBits(s: string)
    ensures IsCanonicalBase64Url(s) <==> s != "" && IsUrlText(s) && ZeroPadBits(Values(s))
  {
    if IsUrlText(s) {
      var x := Values(s);
      UrlTextOfValues(s);
      SextetsOfOctets(x);
      if UrlText(Sextets(Octets(x))) == s {
        DecodesUrlText(Sextets(Octets(x)));
      }
    }
  }

  /** No two accepted texts decode to the same bytes. */
  lemma DecodingIsInjective(s: string, t: string)
    requires IsCanonicalBase64Url(s) && IsCanonicalBase64Url(t) && FromBase64(s) == FromBase64(t)
    ensures s == t
  {
  }
}
