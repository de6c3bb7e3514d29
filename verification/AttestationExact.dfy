/** The text that is signed, and what each gate answers. */
module AttestationExact {
  import opened Common
  import opened Json
  import opened Base64Url
  import opened Attestation
  import JsonRoundTrip
  import Utf8
  import opened CodecExact

  /** A member under a name that needs no escape. */
  function Field(name: string, text: string): string {
    "\"" + name + "\":" + text
  }

  function Joined(texts: seq<string>): string
    requires texts != []
  {
    if |texts| == 1 then texts[0] else texts[0] + "," + Joined(texts[1..])
  }

  ghost predicate IsField(m: Member, text: string) {
    text == Field(m.name, Stringify(m.value)) && Quote(m.name) == "\"" + m.name + "\""
  }

  lemma {:induction false} MembersText(m: seq<Member>, texts: seq<string>)
    requires |m| == |texts| && m != [] && forall k :: 0 <= k < |m| ==> IsField(m[k], texts[k])
    ensures StringifyMembers(m) == Joined(texts) + "}"
  {
    hide Stringify;
    assert IsField(m[0], texts[0]);
    assert Quote(m[0].name) + ":" + Stringify(m[0].value) == texts[0];
    if 1 < |m| {
      MembersText(m[1..], texts[1..]);
      assert texts[0] + ("," + (Joined(texts[1..]) + "}")) == texts[0] + "," + Joined(texts[1..]) + "}";
    }
  }

  function PayloadTexts(p: Payload): (texts: seq<string>) {
    [Field("sub", if p.sub.Some? then Quote(p.sub.value) else "null"), Field("placeId", Quote(p.placeId)),
     Field("lanId", Quote(p.lanId)), Field("nonce", Quote(p.nonce)), Field("issuedAt", Decimal(p.issuedAt)),
     Field("method", Quote(p.means)), Field("assurance", Quote(p.assurance)), Field("purpose", Quote(p.purpose))]
  }

  lemma FieldOf(name: string, value: Json, text: string)
    requires forall i :: 0 <= i < |name| ==> IsBase64UrlChar(name[i])
    requires text == Stringify(value)
    ensures IsField(Member(name, value), Field(name, text))
  {
    PlainText(name);
  }

  lemma FieldsOfPayload(p: Payload)
    ensures CanonicalPayload(p).JObject? && |CanonicalPayload(p).members| == |PayloadTexts(p)| == 8
    ensures forall k :: 0 <= k < 8 ==> IsField(CanonicalPayload(p).members[k], PayloadTexts(p)[k])
  {
    hide IsField;
    hide Quote;
    hide Decimal;
    hide Field;
    FieldOf("sub", if p.sub.Some? then JString(p.sub.value) else JNull,
            if p.sub.Some? then Quote(p.sub.value) else "null");
    FieldOf("placeId", JString(p.placeId), Quote(p.placeId));
    FieldOf("lanId", JString(p.lanId), Quote(p.lanId));
    FieldOf("nonce", JString(p.nonce), Quote(p.nonce));
    FieldOf("issuedAt", JNumber(Decimal(p.issuedAt)), Decimal(p.issuedAt));
    FieldOf("method", JString(p.means), Quote(p.means));
    FieldOf("assurance", JString(p.assurance), Quote(p.assurance));
    FieldOf("purpose", JString(p.purpose), Quote(p.purpose));
  }

  /** The signed text: eight fields, under these names and in this order. */
  lemma PayloadText(p: Payload)
    ensures Stringify(CanonicalPayload(p)) == "{" + Joined(PayloadTexts(p)) + "}"
  {
    FieldsOfPayload(p);
    hide IsField;
    hide CanonicalPayload;
    hide PayloadTexts;
    MembersText(CanonicalPayload(p).members, PayloadTexts(p));
    hide Joined;
    assert "{" + (Joined(PayloadTexts(p)) + "}") == "{" + Joined(PayloadTexts(p)) + "}";
  }

  // ---------- numbers ----------

  /** The number that a row of digits stands for. */
  function ValueOfDigits(t: string): (n: int) {
    if t == "" then 0 else 10 * ValueOfDigits(t[..|t| - 1]) + t[|t| - 1] as int - '0' as int
  }

  /** An instant is written in decimal digits, without a leading zero. */
  lemma {:induction false} DecimalIsTheNumber(n: nat)
    ensures ValueOfDigits(Decimal(n)) == n
    ensures Decimal(n)[0] == '0' ==> n == 0
  {
    DecimalIsNatural(n);
    if 10 <= n {
      DecimalIsTheNumber(n / 10);
      assert Decimal(n)[..|Decimal(n)| - 1] == Decimal(n / 10);
    } else {
      assert Decimal(n)[..0] == "";
    }
  }

  // ---------- the purpose of any token ----------

  predicate NoDot(s: string) {
    '.' !in s
  }

  lemma {:induction false} FirstPartIs(s: string)
    ensures var part := FirstPart(s); NoDot(part) && part <= s && (part == s || s[|part|] == '.')
  {
    if s != "" && s[0] != '.' {
      FirstPartIs(s[1..]);
      assert s == [s[0]] + s[1..];
    }
  }

  lemma {:induction false} FirstPartOf(s: string, part: string)
    requires NoDot(part) && part <= s && (part == s || s[|part|] == '.')
    ensures FirstPart(s) == part
  {
    if part != "" {
      assert s[0] == part[0] && part[0] in part;
      FirstPartOf(s[1..], part[1..]);
      assert part == [part[0]] + part[1..];
    }
  }

  predicate HasParts(token: string, body: string, sig: string) {
    && body != "" && sig != "" && NoDot(body) && NoDot(sig)
    && (token == body + "." + sig || body + "." + sig + "." <= token)
  }

  lemma PartsAreThere(token: string)
    ensures var parts := BodyAndSignature(token); parts.Some? ==> HasParts(token, parts.value.0, parts.value.1)
  {
    FirstPartIs(token);
    var body := FirstPart(token);
    if |body| < |token| {
      var rest := token[|body| + 1..];
      FirstPartIs(rest);
      hide FirstPart;
      assert token == body + "." + rest;
    }
  }

  lemma PartsAreFound(token: string, body: string, sig: string)
    requires HasParts(token, body, sig)
    ensures BodyAndSignature(token) == Some((body, sig))
  {
    FirstPartOf(token, body);
    var rest := token[|body| + 1..];
    assert sig <= rest && (rest == sig || rest[|sig|] == '.');
    FirstPartOf(rest, sig);
    hide FirstPart;
  }

  /** The two parts of a token are the texts before its first dot and from there to the next dot or the end, if
      neither is empty. */
  lemma PartsIff(token: string, body: string, sig: string)
    ensures BodyAndSignature(token) == Some((body, sig)) <==> HasParts(token, body, sig)
  {
    PartsAreThere(token);
    if HasParts(token, body, sig) { PartsAreFound(token, body, sig); }
  }

  function TokenOf(payload: Json, signature: seq<byte>): string {
    B64UrlEncode(Utf8.Encode(Stringify(payload))) + "." + B64UrlEncode(signature)
  }

  lemma TokenParts(payload: Json, signature: seq<byte>)
    requires JsonRoundTrip.Writable(payload) && signature != []
    ensures var body := B64UrlEncode(Utf8.Encode(Stringify(payload)));
            && BodyAndSignature(TokenOf(payload, signature)) == Some((body, B64UrlEncode(signature)))
            && ReadBody(body) == Some(payload)
  {
    var text := Stringify(payload);
    JsonRoundTrip.StartOfValue(payload);
    JsonRoundTrip.ParseUndoesStringify(payload);
    Utf8.DecodeUndoesEncode(text);
    DecodeUndoesEncode(Utf8.Encode(text));
    SplitsBack(Utf8.Encode(text), signature);
  }

  /** The purpose of a token that carries an object is its property of that name if that is a text; a missing one is
      an attendance, and one that is no text cannot be read, nor can a payload that is no object or array. */
  lemma PurposeOfToken(payload: Json, signature: seq<byte>)
    requires JsonRoundTrip.Writable(payload) && signature != []
    ensures ReadPurpose(TokenOf(payload, signature)) ==
              match payload
              case JObject(members) =>
                (match Property(members, "purpose")
                 case None => Some("attendance")
                 case Some(JString(purpose)) => Some(purpose)
                 case Some(_) => None)
              case JArray(_) => Some("attendance")
              case _ => None
  {
    TokenParts(payload, signature);
    hide TokenOf;
    hide ReadBody;
    hide BodyAndSignature;
  }

  /** A text without two parts, or whose first part is no JSON, has no purpose, and so passes every gate. */
  lemma UnreadablePasses(token: string, expected: string)
    requires BodyAndSignature(token).None? || ReadBody(BodyAndSignature(token).value.0).None?
    ensures ForeignAttestationPurpose(token, expected) == None
  {
    hide ReadBody;
    hide BodyAndSignature;
  }

  // ---------- answers ----------

  /** What an attendance of a signed token comes to. */
  lemma AttendanceAnswers(p: Payload, sign: Signer, configured: bool, urlValid: bool, answer: AttendanceAnswer)
    requires forall m :: sign(m) != []
    ensures SendAttendance(SignAttestation(p, sign), configured, urlValid, answer).1 ==
              if p.purpose != "attendance" then Failed("ATTESTATION_PURPOSE_NOT_ATTENDANCE")
              else if !configured then Failed("AEDILIS_NOT_CONFIGURED")
              else if !urlValid then Failed("AEDILIS_URL_INVALID")
              else match answer
                case Unreachable => Failed("AEDILIS_UNREACHABLE")
                case HttpError(status) => Failed("AEDILIS_HTTP_" + Decimal(status))
                case InvalidBody => Failed("AEDILIS_RESPONSE_INVALID")
                case RecordedBody(id) => if id != "" then Recorded(id) else Failed("AEDILIS_RESPONSE_INVALID")
  {
    hide SignAttestation;
    GateAcceptsItsPurposeOnly(p, sign, "attendance");
  }

  /** What a submission of a signed token comes to. */
  lemma SubmitAnswers(p: Payload, sign: Signer, endpoint: Endpoint, serviceToken: Option<string>, answer: SubmitAnswer)
    requires forall m :: sign(m) != []
    ensures SubmitCernereAttestation(endpoint, serviceToken, SignAttestation(p, sign), answer).1 ==
              if p.purpose != endpoint.purpose then Rejected("purpose_not_allowed")
              else if serviceToken == None || serviceToken == Some("") then Rejected("service_token_unavailable")
              else match answer
                case NoResponse => Rejected("cernere_unreachable")
                case Success(accepted) => if accepted then Accepted else Rejected("submit_failed")
                case ClientError(status, error) =>
                  match error
                  case Some(code) =>
                    if code in endpoint.errorCodes then Rejected(code)
                    else Rejected(if status in {401, 403} then "submit_unauthorized" else "submit_failed")
                  case None => Rejected(if status in {401, 403} then "submit_unauthorized" else "submit_failed")
  {
    hide SignAttestation;
    GateAcceptsItsPurposeOnly(p, sign, endpoint.purpose);
  }
}
