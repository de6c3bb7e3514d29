/** Reading what was written gives the value back. */
module JsonRoundTrip {
  import opened Common
  import opened Json

  /** The text of a JSON number, with nothing left over. */
  predicate IsNumber(t: string) {
    NumberLength(t) == Some(|t|)
  }

  /** Values whose numbers are written as numbers. */
  ghost predicate Writable(v: Json)
    decreases v
  {
    match v
    case JNumber(text) => IsNumber(text)
    case JArray(items) => forall i :: 0 <= i < |items| ==> Writable(items[i])
    case JObject(members) => forall i :: 0 <= i < |members| ==> Writable(members[i].value)
    case _ => true
  }

  /** What may follow a value in JSON text. */
  ghost predicate Ends(rest: string) {
    rest == "" || rest[0] in {',', ']', '}', ' ', '\t', '\n', '\r'}
  }

  lemma {:induction false} DigitsStop(t: string, rest: string)
    requires Ends(rest)
    ensures Digits(t + rest) == Digits(t)
  {
    if t == "" {
      assert t + rest == rest;
    } else {
      assert (t + rest)[1..] == t[1..] + rest;
      DigitsStop(t[1..], rest);
    }
  }

  lemma DigitsFrom(t: string, rest: string, k: nat)
    requires k <= |t| && Ends(rest)
    ensures Digits((t + rest)[k..]) == Digits(t[k..])
  {
    assert (t + rest)[k..] == t[k..] + rest;
    DigitsStop(t[k..], rest);
  }

  /** What may follow a value does not change where the parts of a number end. */
  lemma WholeEndKept(t: string, rest: string)
    requires Ends(rest)
    ensures WholeEnd(t + rest) == WholeEnd(t)
  {
    var s := t + rest;
    assert forall i :: 0 <= i < |t| ==> s[i] == t[i];
    DigitsFrom(t, rest, 0);
    if t == "" { assert s == rest; } else { DigitsFrom(t, rest, 1); }
  }

  lemma FractionEndKept(t: string, rest: string, from: nat)
    requires Ends(rest) && from <= |t|
    ensures FractionEnd(t + rest, from) == FractionEnd(t, from)
  {
    if from < |t| { DigitsFrom(t, rest, from + 1); }
  }

  lemma ExponentEndKept(t: string, rest: string, from: nat)
    requires Ends(rest) && from <= |t|
    ensures ExponentEnd(t + rest, from) == ExponentEnd(t, from)
  {
    if from < |t| { DigitsFrom(t, rest, from + 1); }
    if from + 1 < |t| { DigitsFrom(t, rest, from + 2); }
  }

  lemma NumberBack(t: string, rest: string)
    requires Ends(rest)
    ensures NumberLength(t + rest) == NumberLength(t)
  {
    hide WholeEnd;
    hide FractionEnd;
    hide ExponentEnd;
    WholeEndKept(t, rest);
    if WholeEnd(t).Some? {
      FractionEndKept(t, rest, WholeEnd(t).value);
      ExponentEndKept(t, rest, FractionEnd(t, WholeEnd(t).value));
    }
  }

  /** A number starts with a digit or a minus sign. */
  lemma NumberStarts(t: string)
    requires IsNumber(t)
    ensures t != "" && (IsDigit(t[0]) || t[0] == '-')
  {
  }

  /** A whole number without leading zeros is a number. */
  lemma NaturalIsNumber(t: string)
    requires t != "" && (forall i :: 0 <= i < |t| ==> IsDigit(t[i])) && (t[0] == '0' ==> |t| == 1)
    ensures IsNumber(t)
  {
    AllDigits(t);
    assert t[0..] == t;
  }

  lemma {:induction false} AllDigits(t: string)
    requires forall i :: 0 <= i < |t| ==> IsDigit(t[i])
    ensures Digits(t) == |t|
  {
    if t != "" { AllDigits(t[1..]); }
  }

  lemma CharBack(c: char, rest: string)
    ensures ReadChar(EscapeChar(c) + rest) == Some((c, |EscapeChar(c)|))
    ensures EscapeChar(c)[0] != '"'
  {
    var e := EscapeChar(c);
    var s := e + rest;
    assert s[..|e|] == e;
    if |e| == 6 {
      assert s[2..6] == e[2..6];
      HexBack(c as int);
    }
  }

  lemma HexBack(n: int)
    requires 0 <= n < 32
    ensures FromHex("00" + [HexDigit(n / 16), HexDigit(n % 16)]) == Some(n as char)
  {
    assert n == n / 16 * 16 + n % 16;
  }

  lemma {:induction false} StringBack(s: string, rest: string)
    ensures ReadString(Escape(s) + "\"" + rest) == Some((s, rest))
  {
    var text := Escape(s) + "\"" + rest;
    if s == "" {
      assert text == "\"" + rest;
    } else {
      hide EscapeChar;
      hide ReadChar;
      var e, tail := EscapeChar(s[0]), Escape(s[1..]) + "\"" + rest;
      CharBack(s[0], tail);
      assert text == e + tail;
      assert text[0] == e[0] && text[|e|..] == tail;
      StringBack(s[1..], rest);
      assert s == [s[0]] + s[1..];
    }
  }

  lemma QuotedBack(s: string, rest: string)
    ensures (Quote(s) + rest)[0] == '"'
    ensures ReadString((Quote(s) + rest)[1..]) == Some((s, rest))
  {
    StringBack(s, rest);
    hide ReadString;
    hide Escape;
    assert (Quote(s) + rest)[1..] == Escape(s) + "\"" + rest;
  }

  /** The text of a value starts with a character that is neither space nor punctuation between values. */
  lemma StartOfValue(v: Json)
    requires Writable(v)
    ensures var s := Stringify(v);
            s != "" && s[0] !in {' ', '\t', '\n', '\r', ']', '}', ','}
  {
    if v.JNumber? { NumberStarts(v.text); }
    hide NumberLength;
  }

  lemma NoSpace(s: string)
    requires s == "" || s[0] !in {' ', '\t', '\n', '\r'}
    ensures SkipSpace(s) == s
  {
  }

  lemma LastItem(s: string, v: Json, rest: string)
    requires ReadValue(s) == Some((v, "]" + rest))
    ensures ReadItems(s) == Some(([v], rest))
  {
    assert ("]" + rest)[1..] == rest;
  }

  lemma MoreItems(s: string, v: Json, more: string, items: seq<Json>, rest: string)
    requires ReadValue(s) == Some((v, "," + more)) && SkipSpace(more) == more && ReadItems(more) == Some((items, rest))
    ensures ReadItems(s) == Some(([v] + items, rest))
  {
    assert ("," + more)[1..] == more;
  }

  lemma LastMember(s: string, m: Member, rest: string)
    requires ReadMember(s) == Some((m, "}" + rest))
    ensures ReadMembers(s) == Some(([m], rest))
  {
    assert ("}" + rest)[1..] == rest;
  }

  lemma MoreMembers(s: string, m: Member, more: string, members: seq<Member>, rest: string)
    requires ReadMember(s) == Some((m, "," + more)) && SkipSpace(more) == more
    requires ReadMembers(more) == Some((members, rest))
    ensures ReadMembers(s) == Some(([m] + members, rest))
  {
    assert ("," + more)[1..] == more;
  }

  lemma ArrayOf(tail: string, items: seq<Json>, rest: string)
    requires SkipSpace(tail) == tail && tail != "" && tail[0] != ']' && ReadItems(tail) == Some((items, rest))
    ensures ReadValue("[" + tail) == Some((JArray(items), rest))
  {
    assert ("[" + tail)[1..] == tail;
  }

  lemma ObjectOf(tail: string, members: seq<Member>, rest: string)
    requires SkipSpace(tail) == tail && tail != "" && tail[0] != '}' && ReadMembers(tail) == Some((members, rest))
    ensures ReadValue("{" + tail) == Some((JObject(members), rest))
  {
    assert ("{" + tail)[1..] == tail;
  }

  lemma LiteralBack(rest: string)
    ensures ReadValue("null" + rest) == Some((JNull, rest))
    ensures ReadValue("true" + rest) == Some((JBool(true), rest))
    ensures ReadValue("false" + rest) == Some((JBool(false), rest))
  {
    AfterPrefix("null", rest);
    AfterPrefix("true", rest);
    AfterPrefix("false", rest);
    OtherStart("true" + rest, "null");
    OtherStart("false" + rest, "null");
    OtherStart("false" + rest, "true");
  }

  lemma OtherStart(s: string, prefix: string)
    requires s != "" && prefix != "" && s[0] != prefix[0]
    ensures !StartsWith(s, prefix)
  {
    assert |prefix| <= |s| ==> s[..|prefix|][0] == s[0];
  }

  lemma NumberValueBack(t: string, rest: string)
    requires IsNumber(t) && Ends(rest)
    ensures ReadValue(t + rest) == Some((JNumber(t), rest))
  {
    NumberStarts(t);
    hide NumberLength;
    NumberBack(t, rest);
    AfterPrefix(t, rest);
    assert (t + rest)[0] == t[0];
    OtherStart(t + rest, "null");
    OtherStart(t + rest, "true");
    OtherStart(t + rest, "false");
  }

  lemma ScalarBack(v: Json, rest: string)
    requires Writable(v) && Ends(rest) && !v.JArray? && !v.JObject?
    ensures ReadValue(Stringify(v) + rest) == Some((v, rest))
  {
    if v.JString? {
      QuotedBack(v.s, rest);
    } else {
      hide ReadValue;
      if v.JNumber? { NumberValueBack(v.text, rest); } else { LiteralBack(rest); }
    }
  }

  lemma EmptyBack(rest: string)
    ensures ReadValue(Stringify(JArray([])) + rest) == Some((JArray([]), rest))
    ensures ReadValue(Stringify(JObject([])) + rest) == Some((JObject([]), rest))
  {
    assert Stringify(JArray([])) == "[]" && Stringify(JObject([])) == "{}";
    assert ("[]" + rest)[1..] == "]" + rest && ("]" + rest)[1..] == rest;
    assert ("{}" + rest)[1..] == "}" + rest && ("}" + rest)[1..] == rest;
  }

  lemma {:induction false} ValueBack(v: Json, rest: string)
    requires Writable(v) && Ends(rest)
    ensures ReadValue(Stringify(v) + rest) == Some((v, rest))
    decreases v, 0
  {
    hide ReadValue;
    hide ReadItems;
    hide ReadMembers;
    if v == JArray([]) || v == JObject([]) {
      EmptyBack(rest);
    } else if v.JArray? {
      ItemsBack(v.items, rest);
      StartOfItems(v.items, rest);
      ArrayText(v.items, rest);
      hide *;
      NoSpace(StringifyItems(v.items) + rest);
      ArrayOf(StringifyItems(v.items) + rest, v.items, rest);
    } else if v.JObject? {
      MembersBack(v.members, rest);
      StartOfMembers(v.members, rest);
      ObjectText(v.members, rest);
      hide *;
      NoSpace(StringifyMembers(v.members) + rest);
      ObjectOf(StringifyMembers(v.members) + rest, v.members, rest);
    } else {
      ScalarBack(v, rest);
    }
  }

  lemma ArrayText(items: seq<Json>, rest: string)
    requires items != []
    ensures Stringify(JArray(items)) + rest == "[" + (StringifyItems(items) + rest)
  {
    hide StringifyItems;
  }

  lemma ObjectText(members: seq<Member>, rest: string)
    requires members != []
    ensures Stringify(JObject(members)) + rest == "{" + (StringifyMembers(members) + rest)
  {
    hide StringifyMembers;
  }

  lemma AfterPrefix(prefix: string, rest: string)
    ensures (prefix + rest)[..|prefix|] == prefix && (prefix + rest)[|prefix|..] == rest
  {
  }

  lemma StartOfItems(items: seq<Json>, rest: string)
    requires items != [] && forall i :: 0 <= i < |items| ==> Writable(items[i])
    ensures var s := StringifyItems(items) + rest;
            s != "" && s[0] !in {' ', '\t', '\n', '\r', ']', '}', ','}
  {
    StartOfValue(items[0]);
  }

  lemma StartOfMembers(members: seq<Member>, rest: string)
    requires members != []
    ensures var s := StringifyMembers(members) + rest; s != "" && s[0] == '"'
  {
  }

  lemma {:induction false} ItemsBack(items: seq<Json>, rest: string)
    requires items != [] && (forall i :: 0 <= i < |items| ==> Writable(items[i])) && Ends(rest)
    ensures ReadItems(StringifyItems(items) + rest) == Some((items, rest))
    decreases items, 1
  {
    hide ReadValue;
    hide ReadItems;
    var text, first := StringifyItems(items) + rest, Stringify(items[0]);
    if |items| == 1 {
      assert text == first + ("]" + rest);
      ValueBack(items[0], "]" + rest);
      LastItem(text, items[0], rest);
      assert items == [items[0]];
    } else {
      var more := StringifyItems(items[1..]) + rest;
      assert text == first + ("," + more);
      ValueBack(items[0], "," + more);
      StartOfItems(items[1..], rest);
      NoSpace(more);
      ItemsBack(items[1..], rest);
      MoreItems(text, items[0], more, items[1..], rest);
      assert items == [items[0]] + items[1..];
    }
  }

  lemma MemberBack(m: Member, rest: string)
    requires Writable(m.value) && Ends(rest)
    requires ReadValue(Stringify(m.value) + rest) == Some((m.value, rest))
    ensures ReadMember(Quote(m.name) + ":" + Stringify(m.value) + rest) == Some((m, rest))
  {
    hide Quote;
    hide ReadString;
    hide Stringify;
    hide ReadValue;
    hide SkipSpace;
    var value, colon := Stringify(m.value) + rest, ":" + (Stringify(m.value) + rest);
    QuotedBack(m.name, colon);
    assert Quote(m.name) + ":" + Stringify(m.value) + rest == Quote(m.name) + colon;
    assert colon[1..] == value;
    StartOfValue(m.value);
    NoSpace(value);
    NoSpace(colon);
  }

  lemma OneMemberText(m: Member, rest: string)
    ensures StringifyMembers([m]) + rest == Quote(m.name) + ":" + Stringify(m.value) + ("}" + rest)
  {
    hide Quote;
    hide Stringify;
  }

  lemma MoreMembersText(members: seq<Member>, rest: string)
    requires 2 <= |members|
    ensures var first := Quote(members[0].name) + ":" + Stringify(members[0].value);
            StringifyMembers(members) + rest == first + ("," + (StringifyMembers(members[1..]) + rest))
  {
    var first := Quote(members[0].name) + ":" + Stringify(members[0].value);
    var more := StringifyMembers(members[1..]);
    assert StringifyMembers(members) == first + ("," + more);
    hide *;
    Regroup(first, ",", more, rest);
  }

  lemma Regroup(a: string, b: string, c: string, d: string)
    ensures (a + (b + c)) + d == a + (b + (c + d))
  {
  }

  lemma {:induction false} MembersBack(members: seq<Member>, rest: string)
    requires members != [] && (forall i :: 0 <= i < |members| ==> Writable(members[i].value)) && Ends(rest)
    ensures ReadMembers(StringifyMembers(members) + rest) == Some((members, rest))
    decreases members, 1
  {
    hide *;
    var m := members[0];
    var text := StringifyMembers(members) + rest;
    if |members| == 1 {
      assert members == [m];
      OneMemberText(m, rest);
      EndsHere("}", rest);
      ValueBack(m.value, "}" + rest);
      MemberBack(m, "}" + rest);
      LastMember(text, m, rest);
    } else {
      var more := StringifyMembers(members[1..]) + rest;
      MoreMembersText(members, rest);
      EndsHere(",", more);
      ValueBack(m.value, "," + more);
      MemberBack(m, "," + more);
      StartOfMembers(members[1..], rest);
      NoSpace(more);
      MembersBack(members[1..], rest);
      MoreMembers(text, m, more, members[1..], rest);
      assert members == [m] + members[1..];
    }
  }

  lemma EndsHere(c: string, rest: string)
    requires c == "," || c == "}"
    ensures Ends(c + rest)
  {
  }

  /** `JSON.parse` undoes `JSON.stringify`, for values nested to any depth. */
  lemma ParseUndoesStringify(v: Json)
    requires Writable(v)
    ensures Parse(Stringify(v)) == Some(v)
  {
    ValueBack(v, "");
    StartOfValue(v);
    NoSpace(Stringify(v));
    assert Stringify(v) + "" == Stringify(v);
  }
}
