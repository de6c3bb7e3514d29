/** JSON values, the text `JSON.stringify` writes for them, and `JSON.parse` (RFC 8259). */
module Json {
  import opened Common

  datatype Json =
    | JNull
    | JBool(b: bool)
    | JNumber(text: string)
    | JString(s: string)
    | JArray(items: seq<Json>)
    | JObject(members: seq<Member>)

  datatype Member = Member(name: string, value: Json)

  // ---------- writing ----------

  function HexDigit(n: int): (c: char)
    requires 0 <= n < 16
  {
    if n < 10 then '0' + n as char else 'a' + (n - 10) as char
  }

  /** Section 7: the quotation mark, the reverse solidus and control characters are escaped. */
  function EscapeChar(c: char): (s: string)
    ensures s != ""
  {
    if c == '"' then "\\\""
    else if c == '\\' then "\\\\"
    else if c == '\U{08}' then "\\b"
    else if c == '\U{0C}' then "\\f"
    else if c == '\n' then "\\n"
    else if c == '\r' then "\\r"
    else if c == '\t' then "\\t"
    else if c < '\U{20}' then "\\u00" + [HexDigit(c as int / 16), HexDigit(c as int % 16)]
    else [c]
  }

  function Escape(s: string): string {
    if s == "" then "" else EscapeChar(s[0]) + Escape(s[1..])
  }

  function Quote(s: string): string {
    "\"" + Escape(s) + "\""
  }

  function Stringify(v: Json): string
    decreases v, 0
  {
    match v
    case JNull => "null"
    case JBool(b) => if b then "true" else "false"
    case JNumber(text) => text
    case JString(s) => Quote(s)
    case JArray(items) => "[" + (if items == [] then "]" else StringifyItems(items))
    case JObject(members) => "{" + (if members == [] then "}" else StringifyMembers(members))
  }

  /** The items of a non-empty array and the closing bracket. */
  function StringifyItems(items: seq<Json>): string
    requires items != []
    decreases items, 1
  {
    Stringify(items[0]) + if |items| == 1 then "]" else "," + StringifyItems(items[1..])
  }

  function StringifyMembers(members: seq<Member>): string
    requires members != []
    decreases members, 1
  {
    Quote(members[0].name) + ":" + Stringify(members[0].value)
    + if |members| == 1 then "}" else "," + StringifyMembers(members[1..])
  }

  // ---------- reading: a result is a value and the text that follows it ----------

  function SkipSpace(s: string): (r: string)
    ensures |r| <= |s|
  {
    if s != "" && (s[0] == ' ' || s[0] == '\t' || s[0] == '\n' || s[0] == '\r') then SkipSpace(s[1..]) else s
  }

  function HexValue(c: char): Option<int> {
    if '0' <= c <= '9' then Some((c as int) - '0' as int)
    else if 'a' <= c <= 'f' then Some((c as int) - 'a' as int + 10)
    else if 'A' <= c <= 'F' then Some((c as int) - 'A' as int + 10)
    else None
  }

  /** The character of a \u escape; surrogates, which are not characters, read as U+FFFD. */
  function FromHex(s: string): (r: Option<char>)
    requires |s| == 4
  {
    var a, b, c, d := HexValue(s[0]), HexValue(s[1]), HexValue(s[2]), HexValue(s[3]);
    if a.None? || b.None? || c.None? || d.None? then None
    else
      var n := a.value * 4096 + b.value * 256 + c.value * 16 + d.value;
      if 0 <= n < 0xD800 || 0xE000 <= n < 0x10000 then Some(n as char) else Some('\U{FFFD}')
  }

  /** The character of a simple escape. */
  function Unescape(c: char): Option<char> {
    if c == '"' || c == '\\' || c == '/' then Some(c)
    else if c == 'b' then Some('\U{08}')
    else if c == 'f' then Some('\U{0C}')
    else if c == 'n' then Some('\n')
    else if c == 'r' then Some('\r')
    else if c == 't' then Some('\t')
    else None
  }

  /** The next character of a string and how much text it takes; `None` for what a string may not hold. */
  function ReadChar(s: string): (r: Option<(char, nat)>)
    requires s != ""
    ensures r.Some? ==> 1 <= r.value.1 <= |s|
  {
    if s[0] < '\U{20}' || s[0] == '"' then None
    else if s[0] != '\\' then Some((s[0], 1))
    else if |s| >= 2 && Unescape(s[1]).Some? then Some((Unescape(s[1]).value, 2))
    else if |s| >= 6 && s[1] == 'u' && FromHex(s[2..6]).Some? then Some((FromHex(s[2..6]).value, 6))
    else None
  }

  /** After the opening quotation mark. */
  function ReadString(s: string): (r: Option<(string, string)>)
    ensures r.Some? ==> |r.value.1| < |s|
    decreases |s|
  {
    if s == "" then None
    else if s[0] == '"' then Some(("", s[1..]))
    else
      var c := ReadChar(s);
      if c.None? then None
      else
        var rest := ReadString(s[c.value.1..]);
        if rest.None? then None else Some(([c.value.0] + rest.value.0, rest.value.1))
  }

  predicate IsDigit(c: char) {
    '0' <= c <= '9'
  }

  function Digits(s: string): (n: nat)
    ensures n <= |s| && forall i :: 0 <= i < n ==> IsDigit(s[i])
  {
    if s != "" && IsDigit(s[0]) then 1 + Digits(s[1..]) else 0
  }

  /** Where the digits before the point end, if there are any. */
  function WholeEnd(s: string): (n: Option<nat>)
    ensures n.Some? ==> 1 <= n.value <= |s|
  {
    var sign := if s != "" && s[0] == '-' then 1 else 0;
    var d := Digits(s[sign..]);
    if d == 0 then None else if s[sign] == '0' then Some(sign + 1) else Some(sign + d)
  }

  function FractionEnd(s: string, from: nat): (n: nat)
    requires from <= |s|
    ensures from <= n <= |s|
  {
    if |s| > from + 1 && s[from] == '.' && IsDigit(s[from + 1]) then from + 1 + Digits(s[from + 1..]) else from
  }

  function ExponentEnd(s: string, from: nat): (n: nat)
    requires from <= |s|
    ensures from <= n <= |s|
  {
    if from < |s| && (s[from] == 'e' || s[from] == 'E') then
      var signed := if from + 1 < |s| && (s[from + 1] == '+' || s[from + 1] == '-') then from + 2 else from + 1;
      var e := Digits(s[signed..]);
      if e == 0 then from else signed + e
    else from
  }

  /** How long the number at the start of `s` is (section 6); `None` if there is none. */
  function NumberLength(s: string): (n: Option<nat>)
    ensures n.Some? ==> 1 <= n.value <= |s|
  {
    var whole := WholeEnd(s);
    if whole.None? then None else Some(ExponentEnd(s, FractionEnd(s, whole.value)))
  }

  predicate StartsWith(s: string, prefix: string) {
    |prefix| <= |s| && s[..|prefix|] == prefix
  }

  function ReadValue(s: string): (r: Option<(Json, string)>)
    ensures r.Some? ==> |r.value.1| < |s|
    decreases |s|, 0
  {
    if s == "" then None
    else if s[0] == '"' then
      var t := ReadString(s[1..]);
      if t.None? then None else Some((JString(t.value.0), t.value.1))
    else if s[0] == '[' then
      var t := SkipSpace(s[1..]);
      if t != "" && t[0] == ']' then Some((JArray([]), t[1..]))
      else
        var items := ReadItems(t);
        if items.None? then None else Some((JArray(items.value.0), items.value.1))
    else if s[0] == '{' then
      var t := SkipSpace(s[1..]);
      if t != "" && t[0] == '}' then Some((JObject([]), t[1..]))
      else
        var members := ReadMembers(t);
        if members.None? then None else Some((JObject(members.value.0), members.value.1))
    else if StartsWith(s, "null") then Some((JNull, s[4..]))
    else if StartsWith(s, "true") then Some((JBool(true), s[4..]))
    else if StartsWith(s, "false") then Some((JBool(false), s[5..]))
    else
      var n := NumberLength(s);
      if n.None? then None else Some((JNumber(s[..n.value]), s[n.value..]))
  }

  /** A value, then more values or the end of the array. */
  function ReadItems(s: string): (r: Option<(seq<Json>, string)>)
    ensures r.Some? ==> |r.value.1| < |s|
    decreases |s|, 1
  {
    var first := ReadValue(s);
    if first.None? then None
    else
      var t := SkipSpace(first.value.1);
      if t != "" && t[0] == ']' then Some(([first.value.0], t[1..]))
      else if t != "" && t[0] == ',' then
        var rest := ReadItems(SkipSpace(t[1..]));
        if rest.None? then None else Some(([first.value.0] + rest.value.0, rest.value.1))
      else None
  }

  function ReadMember(s: string): (r: Option<(Member, string)>)
    ensures r.Some? ==> |r.value.1| < |s|
    decreases |s|, 1
  {
    if s == "" || s[0] != '"' then None
    else
      var name := ReadString(s[1..]);
      if name.None? then None
      else
        var t := SkipSpace(name.value.1);
        if t == "" || t[0] != ':' then None
        else
          var v := ReadValue(SkipSpace(t[1..]));
          if v.None? then None else Some((Member(name.value.0, v.value.0), v.value.1))
  }

  function ReadMembers(s: string): (r: Option<(seq<Member>, string)>)
    ensures r.Some? ==> |r.value.1| < |s|
    decreases |s|, 2
  {
    var first := ReadMember(s);
    if first.None? then None
    else
      var t := SkipSpace(first.value.1);
      if t != "" && t[0] == '}' then Some(([first.value.0], t[1..]))
      else if t != "" && t[0] == ',' then
        var rest := ReadMembers(SkipSpace(t[1..]));
        if rest.None? then None else Some(([first.value.0] + rest.value.0, rest.value.1))
      else None
  }

  /** `JSON.parse`; `None` where it throws. */
  function Parse(text: string): Option<Json> {
    var v := ReadValue(SkipSpace(text));
    if v.None? || SkipSpace(v.value.1) != "" then None else Some(v.value.0)
  }

  /** A property of a parsed object: the last member of that name. */
  function Property(members: seq<Member>, name: string): Option<Json> {
    if members == [] then None
    else if members[|members| - 1].name == name then Some(members[|members| - 1].value)
    else Property(members[..|members| - 1], name)
  }
}
