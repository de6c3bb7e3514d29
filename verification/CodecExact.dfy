/** What the texts and bytes of a token are, character by character. */
module CodecExact {
  import opened Common
  import opened Json
  import opened Base64Url
  import opened JsonRoundTrip
  import Utf8

  // ---------- base64url ----------

  /** Three bytes are one number of 24 bits, most significant first, and so are their four values of six bits. */
  lemma GroupIsBigEndian(a: byte, b: byte, c: byte)
    ensures var x := Sextets([a, b, c]);
            |x| == 4
            && (a as int) * 65536 + (b as int) * 256 + c as int ==
                 (x[0] as int) * 262144 + (x[1] as int) * 4096 + (x[2] as int) * 64 + x[3] as int
    ensures Sextets([a, b]) == Sextets([a, b, 0])[..3] && Sextets([a]) == Sextets([a, 0, 0])[..2]
  {
    assert [a, b, c][3..] == [];
  }

  function Group(a: byte, b: byte, c: byte): (x: seq<sextet>) {
    [a / 4, a % 4 * 16 + b / 16, b % 16 * 4 + c / 64, c % 64]
  }

  lemma FirstGroup(b: seq<byte>)
    requires 3 <= |b|
    ensures Sextets(b) == Group(b[0], b[1], b[2]) + Sextets(b[3..])
  {
  }

  /** Whole groups are encoded one after the other. */
  lemma {:induction false} GroupsInTurn(a: seq<byte>, b: seq<byte>)
    requires |a| % 3 == 0
    ensures Sextets(a + b) == Sextets(a) + Sextets(b)
  {
    if a == [] {
      assert a + b == b;
    } else {
      FirstGroup(a);
      FirstGroup(a + b);
      GroupsInTurn(a[3..], b);
      hide Group;
      hide Sextets;
      assert (a + b)[3..] == a[3..] + b;
      Associates(Group(a[0], a[1], a[2]), Sextets(a[3..]), Sextets(b));
    }
  }

  lemma UrlTextInTurn(x: seq<sextet>, y: seq<sextet>)
    ensures UrlText(x + y) == UrlText(x) + UrlText(y)
  {
    hide UrlChar;
  }

  lemma GroupsAreEncodedInTurn(a: seq<byte>, b: seq<byte>)
    requires |a| % 3 == 0
    ensures B64UrlEncode(a + b) == B64UrlEncode(a) + B64UrlEncode(b)
  {
    hide *;
    GroupsInTurn(a, b);
    EncodesAsUrlText(a);
    EncodesAsUrlText(b);
    EncodesAsUrlText(a + b);
    UrlTextInTurn(Sextets(a), Sextets(b));
  }

  /** The value 4 * `q` + k is written as the character at that position of the alphabet of RFC 4648, section 5. */
  lemma FourCharacters(q: nat, text: string)
    requires q < 16
    requires text == ["ABCD", "EFGH", "IJKL", "MNOP", "QRST", "UVWX", "YZab", "cdef", "ghij", "klmn", "opqr", "stuv",
                      "wxyz", "0123", "4567", "89-_"][q]
    ensures |text| == 4 && forall k :: 0 <= k < 4 ==> UrlChar(4 * q + k) == text[k]
  {
  }

  /** Decoding reads either alphabet and nothing else. */
  lemma EitherAlphabet(c: char)
    ensures ValueOf('+') == ValueOf('-') == Some(62) && ValueOf('/') == ValueOf('_') == Some(63)
    ensures ValueOf(c) == None <==> !IsBase64UrlChar(c) && c != '+' && c != '/'
  {
  }

  /** A test vector of RFC 4648, section 10: "foobar". */
  lemma TestVector()
    ensures B64UrlEncode([102, 111, 111, 98, 97, 114]) == "Zm9vYmFy"
  {
    var foo, bar := [102, 111, 111], [98, 97, 114];
    EncodesFoo(foo);
    EncodesBar(bar);
    hide *;
    GroupsAreEncodedInTurn(foo, bar);
    assert foo + bar == [102, 111, 111, 98, 97, 114];
    assert "Zm9v" + "YmFy" == "Zm9vYmFy";
  }

  lemma EncodesFoo(foo: seq<byte>)
    requires foo == [102, 111, 111]
    ensures B64UrlEncode(foo) == "Zm9v"
  {
    hide B64UrlEncode;
    EncodesGroup(foo, [25, 38, 61, 47], "Zm9v");
  }

  lemma EncodesBar(bar: seq<byte>)
    requires bar == [98, 97, 114]
    ensures B64UrlEncode(bar) == "YmFy"
  {
    hide B64UrlEncode;
    EncodesGroup(bar, [24, 38, 5, 50], "YmFy");
  }

  lemma EncodesGroup(b: seq<byte>, x: seq<sextet>, text: string)
    requires |b| == 3 && x == [b[0] / 4, b[0] % 4 * 16 + b[1] / 16, b[1] % 16 * 4 + b[2] / 64, b[2] % 64]
    requires |text| == 4 && forall k :: 0 <= k < 4 ==> UrlChar(x[k]) == text[k]
    ensures B64UrlEncode(b) == text
  {
    EncodesAsUrlText(b);
    assert Sextets(b[3..]) == [];
    assert Sextets(b) == x;
    hide Sextets;
    hide B64UrlEncode;
  }

  // ---------- UTF-8 ----------

  /** The encoding of a character: RFC 3629, section 3. */
  lemma BytesOfCharacter(c: char)
    ensures var n, b := c as int, Utf8.EncodeChar(c);
            match |b|
            case 1 => n < 128 && b == [n]
            case 2 => 128 <= n < 2048 && b[0] < 224 && n == (b[0] as int - 192) * 64 + (b[1] as int - 128)
            case 3 =>
              2048 <= n < 65536 && 224 <= b[0] < 240
              && n == (b[0] as int - 224) * 4096 + (b[1] as int - 128) * 64 + (b[2] as int - 128)
            case 4 =>
              65536 <= n && 240 <= b[0]
              && n == (b[0] as int - 240) * 262144 + (b[1] as int - 128) * 4096 + (b[2] as int - 128) * 64
                      + (b[3] as int - 128)
            case _ => false
    ensures forall i :: 1 <= i < |Utf8.EncodeChar(c)| ==> 128 <= Utf8.EncodeChar(c)[i] < 192
  {
    Utf8.CodePointOfEncoded(c);
  }

  /** Characters are encoded one after the other. */
  lemma {:induction false} EncodedInTurn(s: string, t: string)
    ensures Utf8.Encode(s + t) == Utf8.Encode(s) + Utf8.Encode(t)
    ensures |s| == 1 ==> Utf8.Encode(s) == Utf8.EncodeChar(s[0])
  {
    hide Utf8.EncodeChar;
    if s == "" {
      assert s + t == t;
    } else {
      EncodedInTurn(s[1..], t);
      assert (s + t)[1..] == s[1..] + t;
      Associates(Utf8.EncodeChar(s[0]), Utf8.Encode(s[1..]), Utf8.Encode(t));
    }
  }

  lemma Associates<T>(a: seq<T>, b: seq<T>, c: seq<T>)
    ensures a + (b + c) == (a + b) + c
  {
  }

  /** A character is decoded exactly where its encoding stands; any other byte reads as U+FFFD. */
  lemma DecodesIff(b: seq<byte>, c: char)
    requires b != []
    ensures Utf8.EncodeChar(c) <= b ==> Utf8.DecodeFirst(b) == (c, |Utf8.EncodeChar(c)|)
    ensures (forall x: char :: !(Utf8.EncodeChar(x) <= b)) ==> Utf8.DecodeFirst(b) == ('\U{FFFD}', 1)
  {
    if Utf8.EncodeChar(c) <= b {
      Utf8.FirstOfEncoded(c, b[|Utf8.EncodeChar(c)|..]);
      assert b == Utf8.EncodeChar(c) + b[|Utf8.EncodeChar(c)|..];
    }
    hide Utf8.EncodeChar;
    hide Utf8.CodePoint;
    var n := Utf8.LengthOf(b[0]);
    if 1 <= n <= |b| && Utf8.IsWellFormed(b[..n]) {
      assert Utf8.EncodeChar(Utf8.CodePoint(b[..n]) as char) <= b;
    }
  }

  // ---------- JSON ----------

  /** Section 7 of RFC 8259: which characters are escaped, and how. */
  lemma EscapeTable(c: char)
    ensures EscapeChar('"') == "\\\"" && EscapeChar('\\') == "\\\\" && EscapeChar('\n') == "\\n"
    ensures EscapeChar('\r') == "\\r" && EscapeChar('\t') == "\\t"
    ensures EscapeChar('\U{08}') == "\\b" && EscapeChar('\U{0C}') == "\\f"
    ensures EscapeChar('\U{00}') == "\\u0000" && EscapeChar('\U{1F}') == "\\u001f"
    ensures ' ' <= c && c != '"' && c != '\\' ==> EscapeChar(c) == [c]
    ensures EscapeChar(c) == [c] ==> ' ' <= c && c != '"' && c != '\\'
  {
  }

  lemma {:induction false} EscapedInTurn(s: string, t: string)
    ensures Escape(s + t) == Escape(s) + Escape(t)
  {
    hide EscapeChar;
    if s == "" {
      assert s + t == t;
    } else {
      EscapedInTurn(s[1..], t);
      assert (s + t)[1..] == s[1..] + t;
      Associates(EscapeChar(s[0]), Escape(s[1..]), Escape(t));
    }
  }

  /** Text without quotation marks, reverse solidi and control characters is written as it is. */
  lemma {:induction false} PlainText(s: string)
    requires forall i :: 0 <= i < |s| ==> ' ' <= s[i] && s[i] != '"' && s[i] != '\\'
    ensures Escape(s) == s && Quote(s) == "\"" + s + "\""
  {
    if s != "" {
      PlainText(s[1..]);
      assert s == [s[0]] + s[1..];
    }
  }

  predicate IsJsonSpace(c: char) {
    c == ' ' || c == '\t' || c == '\n' || c == '\r'
  }

  /** Only space, tab, line feed and carriage return are skipped, and all of them. */
  lemma {:induction false} SkipsSpace(front: string, rest: string)
    requires forall i :: 0 <= i < |front| ==> IsJsonSpace(front[i])
    requires rest == "" || !IsJsonSpace(rest[0])
    ensures SkipSpace(front + rest) == rest
  {
    if front == "" {
      assert front + rest == rest;
    } else {
      SkipsSpace(front[1..], rest);
      assert (front + rest)[1..] == front[1..] + rest;
    }
  }

  /** White space around the text of a value is ignored. */
  lemma SurroundedBySpace(v: Json, front: string, back: string)
    requires Writable(v)
    requires forall i :: 0 <= i < |front| ==> IsJsonSpace(front[i])
    requires forall i :: 0 <= i < |back| ==> IsJsonSpace(back[i])
    ensures Parse(front + Stringify(v) + back) == Some(v)
  {
    var text := Stringify(v);
    StartOfValue(v);
    assert (text + back)[0] == text[0];
    SkipsSpace(front, text + back);
    assert front + text + back == front + (text + back);
    ValueBack(v, back);
    SkipsSpace(back, "");
    assert back + "" == back;
  }

  /** The property of an object is the value of its last member of that name. */
  lemma {:induction false} PropertyIsTheLast(members: seq<Member>, name: string, k: nat)
    requires k < |members| && members[k].name == name && forall j :: k < j < |members| ==> members[j].name != name
    ensures Property(members, name) == Some(members[k].value)
  {
    var n := |members| - 1;
    if k < n { PropertyIsTheLast(members[..n], name, k); }
  }

  lemma {:induction false} NoSuchProperty(members: seq<Member>, name: string)
    requires forall j :: 0 <= j < |members| ==> members[j].name != name
    ensures Property(members, name) == None
  {
    if members != [] { NoSuchProperty(members[..|members| - 1], name); }
  }
}
