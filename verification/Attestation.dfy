/** Signed attestations: the compact token, reading it back, and the purpose gates in front of every
    endpoint.  The signature is an oracle. */
module Attestation {
  import opened Common
  import opened Json
  import JsonRoundTrip
  import opened Base64Url
  import Utf8

  datatype Payload = Payload(sub: Option<string>, placeId: string, lanId: string, nonce: string, issuedAt: nat,
                             means: string, assurance: string, purpose: string)

  function Decimal(n: nat): (t: string) {
    if n < 10 then [DigitOf(n)] else Decimal(n / 10) + [DigitOf(n % 10)]
  }

  function DigitOf(n: nat): char
    requires n < 10
  {
    '0' + n as char
  }

  /** The fixed field order of a signed payload. */
  function CanonicalPayload(p: Payload): Json {
    JObject([
      Member("sub", if p.sub.Some? then JString(p.sub.value) else JNull),
      Member("placeId", JString(p.placeId)),
      Member("lanId", JString(p.lanId)),
      Member("nonce", JString(p.nonce)),
      Member("issuedAt", JNumber(Decimal(p.issuedAt))),
      Member("method", JString(p.means)),
      Member("assurance", JString(p.assurance)),
      Member("purpose", JString(p.purpose))])
  }

  type Signer = seq<byte> -> seq<byte>

  function SignCompactPayload(payload: Json, sign: Signer): (token: string) {
    var body := B64UrlEncode(Utf8.Encode(Stringify(payload)));
    body + "." + B64UrlEncode(sign(Utf8.Encode(body)))
  }

  function SignAttestation(p: Payload, sign: Signer): (token: string) {
    SignCompactPayload(CanonicalPayload(p), sign)
  }

  /** The text before the first dot. */
  function FirstPart(s: string): (r: string)
    ensures |r| <= |s|
  {
    if s == "" || s[0] == '.' then "" else [s[0]] + FirstPart(s[1..])
  }

  /** The first two parts of `split('.')`, if both are there and not empty. */
  function BodyAndSignature(token: string): (r: Option<(string, string)>) {
    var body := FirstPart(token);
    if |body| == |token| then None
    else
      var sig := FirstPart(token[|body| + 1..]);
      if body == "" || sig == "" then None else Some((body, sig))
  }

  function ReadBody(body: string): Option<Json> {
    Parse(Utf8.Decode(B64UrlDecode(body)))
  }

  function VerifyAttestation(token: string, verify: (seq<byte>, seq<byte>) -> bool): (r: Option<Json>) {
    var parts := BodyAndSignature(token);
    if parts.None? || !verify(Utf8.Encode(parts.value.0), B64UrlDecode(parts.value.1)) then None
    else ReadBody(parts.value.0)
  }

  /** A payload without a purpose is an attendance of the old format; an array has none either. */
  function ReadPurpose(token: string): (r: Option<string>) {
    var parts := BodyAndSignature(token);
    if parts.None? then None
    else
      match ReadBody(parts.value.0)
      case Some(JObject(members)) =>
        (match Property(members, "purpose")
         case None => Some("attendance")
         case Some(JString(s)) => Some(s)
         case Some(_) => None)
      case Some(JArray(_)) => Some("attendance")
      case _ => None
  }

  /** The purpose read from the token if it is readable and not the expected one. */
  function ForeignAttestationPurpose(token: string, expected: string): (r: Option<string>) {
    var purpose := ReadPurpose(token);
    if purpose.Some? && purpose.value != expected then purpose else None
  }

  // ---------- reading back what was signed ----------

  lemma {:induction false} DecimalIsNatural(n: nat)
    ensures var t := Decimal(n);
            t != "" && (forall i :: 0 <= i < |t| ==> IsDigit(t[i])) && (t[0] == '0' ==> n == 0 && |t| == 1)
  {
    if 10 <= n { DecimalIsNatural(n / 10); }
  }

  lemma PayloadIsWritable(p: Payload)
    ensures JsonRoundTrip.Writable(CanonicalPayload(p))
  {
    DecimalIsNatural(p.issuedAt);
    JsonRoundTrip.NaturalIsNumber(Decimal(p.issuedAt));
  }

  lemma {:induction false} FirstPartOfJoined(body: string, rest: string)
    requires forall i :: 0 <= i < |body| ==> body[i] != '.'
    ensures FirstPart(body + "." + rest) == body && FirstPart(body) == body
  {
    var s := body + "." + rest;
    if body != "" {
      assert s[1..] == body[1..] + "." + rest;
      FirstPartOfJoined(body[1..], rest);
      assert body == [body[0]] + body[1..];
    }
  }

  lemma SplitsBack(b: seq<byte>, c: seq<byte>)
    requires b != [] && c != []
    ensures BodyAndSignature(B64UrlEncode(b) + "." + B64UrlEncode(c)) == Some((B64UrlEncode(b), B64UrlEncode(c)))
  {
    DecodeUndoesEncode(b);
    DecodeUndoesEncode(c);
    var body, sig := B64UrlEncode(b), B64UrlEncode(c);
    FirstPartOfJoined(body, sig);
    FirstPartOfJoined(sig, "");
    assert (body + "." + sig)[|body| + 1..] == sig;
  }

  lemma TokenReadsBack(p: Payload, sign: Signer)
    requires forall m :: sign(m) != []
    ensures var body := B64UrlEncode(Utf8.Encode(Stringify(CanonicalPayload(p))));
            && BodyAndSignature(SignAttestation(p, sign)) == Some((body, B64UrlEncode(sign(Utf8.Encode(body)))))
            && ReadBody(body) == Some(CanonicalPayload(p))
  {
    var text := Stringify(CanonicalPayload(p));
    PayloadIsWritable(p);
    JsonRoundTrip.StartOfValue(CanonicalPayload(p));
    JsonRoundTrip.ParseUndoesStringify(CanonicalPayload(p));
    Utf8.DecodeUndoesEncode(text);
    DecodeUndoesEncode(Utf8.Encode(text));
    SplitsBack(Utf8.Encode(text), sign(Utf8.Encode(B64UrlEncode(Utf8.Encode(text)))));
  }

  lemma PurposeIsLast(p: Payload)
    ensures Property(CanonicalPayload(p).members, "purpose") == Some(JString(p.purpose))
  {
  }

  /** Split, base64url, UTF-8 and JSON together give back the purpose that was signed, for any text
      in any field. */
  lemma SignedPurposeIsRead(p: Payload, sign: Signer)
    requires forall m :: sign(m) != []
    ensures ReadPurpose(SignAttestation(p, sign)) == Some(p.purpose)
  {
    hide SignAttestation;
    hide CanonicalPayload;
    hide ReadBody;
    TokenReadsBack(p, sign);
    PurposeIsLast(p);
    CanonicalIsObject(p);
  }

  lemma CanonicalIsObject(p: Payload)
    ensures CanonicalPayload(p).JObject?
  {
  }

  /** A receiver whose verifier accepts the signer's signatures reads exactly the signed payload. */
  lemma VerifiedPayloadIsTheSignedOne(p: Payload, sign: Signer, verify: (seq<byte>, seq<byte>) -> bool)
    requires forall m :: sign(m) != [] && verify(m, sign(m))
    ensures VerifyAttestation(SignAttestation(p, sign), verify) == Some(CanonicalPayload(p))
  {
    hide SignAttestation;
    hide CanonicalPayload;
    hide ReadBody;
    TokenReadsBack(p, sign);
    var body := B64UrlEncode(Utf8.Encode(Stringify(CanonicalPayload(p))));
    DecodeUndoesEncode(sign(Utf8.Encode(body)));
  }

  /** Different payloads give different signed values. */
  lemma CanonicalPayloadIsInjective(p: Payload, q: Payload)
    requires CanonicalPayload(p) == CanonicalPayload(q)
    ensures p == q
  {
    assert forall i :: 0 <= i < 8 ==> CanonicalPayload(p).members[i] == CanonicalPayload(q).members[i];
    assert CanonicalPayload(p).members[0].value == CanonicalPayload(q).members[0].value;
    assert CanonicalPayload(p).members[4].value == CanonicalPayload(q).members[4].value;
    DecimalIsInjective(p.issuedAt, q.issuedAt);
  }

  lemma {:induction false} DecimalIsInjective(m: nat, n: nat)
    requires Decimal(m) == Decimal(n)
    ensures m == n
  {
    DecimalLength(m);
    DecimalLength(n);
    var a, b := Decimal(m), Decimal(n);
    assert a[|a| - 1] == b[|b| - 1];
    if 10 <= m && 10 <= n {
      assert a[..|a| - 1] == Decimal(m / 10) && b[..|b| - 1] == Decimal(n / 10);
      DecimalIsInjective(m / 10, n / 10);
    }
  }

  lemma {:induction false} DecimalLength(n: nat)
    ensures |Decimal(n)| == 1 <==> n < 10
    ensures 1 <= |Decimal(n)|
  {
    if 10 <= n { DecimalLength(n / 10); }
  }

  // ---------- the gates ----------

  /** What came back from a request, if it was sent. */
  datatype AttendanceAnswer =
    | Unreachable
    | HttpError(status: nat)
    | InvalidBody
    | RecordedBody(attendanceId: string)

  datatype AttendanceDelivery = Recorded(attendanceId: string) | Failed(code: string)

  /** Whether the request left the gateway, and the reported delivery. */
  function SendAttendance(token: string, configured: bool, urlValid: bool,
                          answer: AttendanceAnswer): (r: (bool, AttendanceDelivery))
  {
    if ForeignAttestationPurpose(token, "attendance").Some? then (false, Failed("ATTESTATION_PURPOSE_NOT_ATTENDANCE"))
    else if !configured then (false, Failed("AEDILIS_NOT_CONFIGURED"))
    else if !urlValid then (false, Failed("AEDILIS_URL_INVALID"))
    else match answer
      case Unreachable => (true, Failed("AEDILIS_UNREACHABLE"))
      case HttpError(status) => (true, Failed("AEDILIS_HTTP_" + Decimal(status)))
      case InvalidBody => (true, Failed("AEDILIS_RESPONSE_INVALID"))
      case RecordedBody(id) => (true, if id == "" then Failed("AEDILIS_RESPONSE_INVALID") else Recorded(id))
  }

  datatype Endpoint = Endpoint(purpose: string, errorCodes: set<string>)

  datatype SubmitAnswer =
    | NoResponse
    | Success(accepted: bool)
    | ClientError(status: nat, error: Option<string>)

  datatype SubmitResult = Accepted | Rejected(error: string)

  function SubmitCernereAttestation(endpoint: Endpoint, serviceToken: Option<string>, token: string,
                                    answer: SubmitAnswer)
    : (r: (bool, SubmitResult))
  {
    if ForeignAttestationPurpose(token, endpoint.purpose).Some? then (false, Rejected("purpose_not_allowed"))
    else if serviceToken.None? || serviceToken.value == "" then (false, Rejected("service_token_unavailable"))
    else match answer
      case NoResponse => (true, Rejected("cernere_unreachable"))
      case Success(accepted) => (true, if accepted then Accepted else Rejected("submit_failed"))
      case ClientError(status, error) =>
        (true, if error.Some? && error.value in endpoint.errorCodes then Rejected(error.value)
               else if status == 401 || status == 403 then Rejected("submit_unauthorized")
               else Rejected("submit_failed"))
  }

  /** The body of an attendance request, as it is stored in the outbox. */
  function OutboxPayload(token: string): string {
    Stringify(JObject([Member("attestation", JString(token))]))
  }

  /** Whether a stored row is sent again; other rows are dropped without sending. */
  function IsAttendancePayload(payload: string): bool {
    match Parse(payload)
    case Some(JObject(members)) =>
      (match Property(members, "attestation")
       case Some(JString(token)) => ForeignAttestationPurpose(token, "attendance").None?
       case _ => false)
    case _ => false
  }

  /** A signed token passes a gate exactly when it was signed for that gate's purpose. */
  lemma GateAcceptsItsPurposeOnly(p: Payload, sign: Signer, expected: string)
    requires forall m :: sign(m) != []
    ensures ForeignAttestationPurpose(SignAttestation(p, sign), expected).None? <==> p.purpose == expected
  {
    SignedPurposeIsRead(p, sign);
  }

  lemma OutboxPayloadReadsBack(token: string)
    ensures IsAttendancePayload(OutboxPayload(token)) <==> ForeignAttestationPurpose(token, "attendance").None?
  {
    var v := JObject([Member("attestation", JString(token))]);
    JsonRoundTrip.ParseUndoesStringify(v);
    assert Property(v.members, "attestation") == Some(JString(token));
  }

  /** Each channel, the outbox included, sends a signed token only if the token was signed for it, so
      no token is ever sent on two channels of different purpose. */
  lemma SentOnlyForItsPurpose(p: Payload, sign: Signer, configured: bool, urlValid: bool, answer: AttendanceAnswer,
                              endpoint: Endpoint, serviceToken: Option<string>, reply: SubmitAnswer)
    requires forall m :: sign(m) != []
    ensures var token := SignAttestation(p, sign);
            var attendance := SendAttendance(token, configured, urlValid, answer);
            var submit := SubmitCernereAttestation(endpoint, serviceToken, token, reply);
            && (attendance.0 <==> p.purpose == "attendance" && configured && urlValid)
            && (submit.0 <==> p.purpose == endpoint.purpose && serviceToken.Some? && serviceToken.value != "")
            && (IsAttendancePayload(OutboxPayload(token)) <==> p.purpose == "attendance")
            && (attendance.1.Recorded? <==> attendance.0 && answer.RecordedBody? && answer.attendanceId != "")
            && (submit.1.Accepted? <==> submit.0 && reply == Success(true))
            && (endpoint.purpose != "attendance" ==> !(attendance.0 && submit.0))
  {
    hide SignAttestation;
    GateAcceptsItsPurposeOnly(p, sign, "attendance");
    GateAcceptsItsPurposeOnly(p, sign, endpoint.purpose);
    OutboxPayloadReadsBack(SignAttestation(p, sign));
  }
}
