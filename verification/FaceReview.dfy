/** Enrolment and staff review: the handlers that write the face tables. */
module FaceReview {
  import opened Common
  import opened FaceMatcher
  import opened FaceTables
  import opened FaceHistory
  import opened Outbox

  datatype Enrollment = Enrollment(
    studentUserId: string,
    staffUserId: string,
    consentId: Option<string>,
    embeddings: seq<Vector>,
    qualities: seq<real>,
    expiresAt: int)

  const SHOTS_REQUIRED: nat := 6

  datatype PromoteMode = Reenroll | PromotePhoto

  datatype ReviewFailure = ReasonRequired | ReasonTooLong | EnrollmentRequired | InsufficientShots | PendingNotFound

  datatype CommitFailure = EnrollExpired | EnrollmentForbidden | ConsentRequired | TooFewShots

  /** The sidecar, the keys and the clock as the handlers see them: how shots are averaged (nothing
      for a zero sum), how an embedding is sealed, and the model the gateway runs. */
  datatype Host = Host(average: seq<Vector> -> Option<Vector>, sealing: Vector -> Sealed, modelId: string)

  predicate IsSet(s: Option<string>) {
    s.Some? && s.value != ""
  }

  function LiveEnrollment(m: map<string, Enrollment>, id: string, now: int): Option<Enrollment> {
    if id in m && now < m[id].expiresAt then Some(m[id]) else None
  }

  function AverageEmbedding(host: Host, embeddings: seq<Vector>): Option<Vector> {
    if |embeddings| < SHOTS_REQUIRED then None else host.average(embeddings)
  }

  function Total(qualities: seq<real>): real {
    if qualities == [] then 0.0 else Total(qualities[..|qualities| - 1]) + qualities[|qualities| - 1]
  }

  function MeanQuality(qualities: seq<real>): real {
    if qualities == [] then 0.0 else Total(qualities) / |qualities| as real
  }

  /** The active template made from the shots of an enrolment. */
  function FromShots(host: Host, e: Enrollment, embedding: Vector, staff: string, now: int): Template {
    Template(host.sealing(embedding), host.modelId, MeanQuality(e.qualities), now, Active, e.consentId, Some(staff),
             now, None)
  }

  /** White space that `trim` removes. */
  predicate IsSpace(c: char) {
    || c == ' ' || '\t' <= c <= '\r' || c == '\U{A0}' || c == '\U{1680}' || '\U{2000}' <= c <= '\U{200A}'
    || c == '\U{2028}' || c == '\U{2029}' || c == '\U{202F}' || c == '\U{205F}' || c == '\U{3000}' || c == '\U{FEFF}'
  }

  function TrimStart(s: string): string {
    if s != "" && IsSpace(s[0]) then TrimStart(s[1..]) else s
  }

  function TrimEnd(s: string): string {
    if s != "" && IsSpace(s[|s| - 1]) then TrimEnd(s[..|s| - 1]) else s
  }

  function Trim(s: string): string {
    TrimEnd(TrimStart(s))
  }

  /** Length in UTF-16 code units. */
  function Utf16Length(s: string): nat {
    if s == "" then 0 else (if s[0] <= '\U{FFFF}' then 1 else 2) + Utf16Length(s[1..])
  }

  lemma {:induction false} TrimStartDrops(s: string)
    ensures TrimStart(s) == "" <==> forall i :: 0 <= i < |s| ==> IsSpace(s[i])
    ensures TrimStart(s) != "" ==> !IsSpace(TrimStart(s)[0])
  {
    if s != "" && IsSpace(s[0]) {
      TrimStartDrops(s[1..]);
      assert forall i :: 1 <= i < |s| ==> s[i] == s[1..][i - 1];
    }
  }

  lemma {:induction false} TrimEndKeepsTheFirst(s: string)
    requires s != "" && !IsSpace(s[0])
    ensures TrimEnd(s) != "" && TrimEnd(s)[0] == s[0]
  {
    if IsSpace(s[|s| - 1]) { TrimEndKeepsTheFirst(s[..|s| - 1]); }
  }

  /** A reason is empty after trimming exactly when it is all white space. */
  lemma BlankReason(s: string)
    ensures Trim(s) == "" <==> forall i :: 0 <= i < |s| ==> IsSpace(s[i])
  {
    TrimStartDrops(s);
    if TrimStart(s) != "" { TrimEndKeepsTheFirst(TrimStart(s)); }
  }

  // ---------- the handlers between two awaits ----------

  /** What a handler does: at most one write to the tables, the enrolments it leaves, and its answer. */
  datatype Handled<+R> = Handled(write: Option<Event>, enrollments: map<string, Enrollment>, answer: R)

  function After(t: Tables, write: Option<Event>): Tables {
    if write.Some? then Apply(t, write.value) else t
  }

  const TTL_MS: nat := 10 * 60000

  /** The enrolments after `start`: expired ones are swept, and a new one is there. */
  function Started(m: map<string, Enrollment>, ttlMs: nat, id: string, student: string, staff: string, now: int)
    : map<string, Enrollment>
  {
    (map k | k in m && now < m[k].expiresAt :: m[k])[id := Enrollment(student, staff, None, [], [], now + ttlMs)]
  }

  /** The enrolments after `get(id)`: an expired one is removed. */
  function Looked(m: map<string, Enrollment>, id: string, now: int): map<string, Enrollment> {
    if LiveEnrollment(m, id, now).Some? then m else Without(m, id)
  }

  /** Re-enrolment: one active template from the shots of a consented enrolment of this user. */
  function Reenrolled(host: Host, m: map<string, Enrollment>, user: string, staff: string, enrollId: Option<string>,
                      now: int)
    : (r: Handled<Option<ReviewFailure>>)
  {
    if !IsSet(enrollId) then Handled(None, m, Some(EnrollmentRequired))
    else
      var id := enrollId.value;
      var e := LiveEnrollment(m, id, now);
      if e.None? || e.value.studentUserId != user || !IsSet(e.value.consentId)
      then Handled(None, Looked(m, id, now), Some(EnrollmentRequired))
      else
        var embedding := AverageEmbedding(host, e.value.embeddings);
        if embedding.None? then Handled(None, m, Some(InsufficientShots))
        else Handled(Some(Enrolled(user, FromShots(host, e.value, embedding.value, staff, now))), Without(m, id), None)
  }

  /** Promotion activates whatever template is stored. */
  function Approved(host: Host, t: Tables, m: map<string, Enrollment>, user: string, mode: PromoteMode, staff: string,
                    enrollId: Option<string>, now: int): (r: Handled<Result<PromoteMode, ReviewFailure>>)
  {
    if mode.Reenroll? then
      var h := Reenrolled(host, m, user, staff, enrollId, now);
      Handled(h.write, h.enrollments, if h.answer.Some? then Err(h.answer.value) else Ok(mode))
    else Handled(Some(Promoted(user)), m, if user in t.templates then Ok(mode) else Err(PendingNotFound))
  }

  function Committed(host: Host, m: map<string, Enrollment>, id: string, actor: string, now: int)
    : (r: Handled<Result<int, CommitFailure>>)
  {
    var e := LiveEnrollment(m, id, now);
    if e.None? then Handled(None, Without(m, id), Err(EnrollExpired))
    else if e.value.staffUserId != actor then Handled(None, m, Err(EnrollmentForbidden))
    else if !IsSet(e.value.consentId) then Handled(None, m, Err(ConsentRequired))
    else
      var embedding := AverageEmbedding(host, e.value.embeddings);
      if embedding.None? then Handled(None, m, Err(TooFewShots))
      else
        var template := FromShots(host, e.value, embedding.value, actor, now);
        Handled(Some(Enrolled(e.value.studentUserId, template)), Without(m, id), Ok(now))
  }

  /** The pending template of a photo; `e` is the record that the request held on to, as it stands now. */
  function FromPhoto(host: Host, e: Enrollment, embedding: Vector, pass: bool, now: int): Template {
    var quality := if pass then 1.0 else 0.0;
    Template(host.sealing(embedding), host.modelId, quality, now, Pending, e.consentId, Some(e.staffUserId), now, None)
  }

  /** A photo as it is sealed for storing. */
  datatype Upload = Upload(sealed: Sealed, contentType: string)

  function PhotoRow(e: Enrollment, upload: Upload, now: int): Photo {
    Photo(upload.sealed, upload.contentType, e.consentId, now)
  }

  function PhotoWrite(host: Host, e: Enrollment, embedding: Option<Vector>, pass: bool, upload: Upload,
                      now: int): Option<Event>
  {
    if embedding.None? then None
    else Some(PhotoTaken(e.studentUserId, FromPhoto(host, e, embedding.value, pass, now), PhotoRow(e, upload, now)))
  }

  /** A consent as it was recorded remotely. */
  datatype Granted = Granted(consentId: string, policyVersion: string, at: int)

  /** The enrolments after `consent(id, consentId)`, and whether it was taken. */
  function Consenting(m: map<string, Enrollment>, id: string, consentId: string, now: int)
    : (map<string, Enrollment>, bool)
  {
    var e := LiveEnrollment(m, id, now);
    if e.None? then (Without(m, id), false)
    else if consentId == "" then (m, false)
    else (m[id := e.value.(consentId := Some(consentId))], true)
  }

  /** The end of `consent`; `e` is the record that the request held on to. */
  function ConsentGiven(m: map<string, Enrollment>, id: string, e: Enrollment, granted: Option<Granted>,
                        now: int): (r: Handled<bool>)
  {
    if granted.None? then Handled(None, m, false)
    else
      var g := granted.value;
      var taken := Consenting(m, id, g.consentId, now);
      var copy := ConsentCopied(e.studentUserId, Consent(g.consentId, g.policyVersion, g.at, None));
      Handled(if taken.1 then Some(copy) else None, taken.0, taken.1)
  }

  /** Shots are kept only once the consent is recorded. */
  function Adding(m: map<string, Enrollment>, id: string, embedding: Option<Vector>, quality: real, now: int)
    : (map<string, Enrollment>, bool)
  {
    var e := LiveEnrollment(m, id, now);
    if e.None? then (Without(m, id), false)
    else if e.value.consentId.None? || embedding.None? then (m, false)
    else
      (m[id := e.value.(embeddings := e.value.embeddings + [embedding.value],
                        qualities := e.value.qualities + [quality])], true)
  }

  /** A rejection with a usable reason deletes every row of the user, even when it then reports that
      there was no template or photo; without one it deletes nothing. */
  function Rejected(t: Tables, user: string, reason: string): (Option<Event>, Result<(), ReviewFailure>) {
    if Trim(reason) == "" then (None, Err(ReasonRequired))
    else if Utf16Length(Trim(reason)) > 256 then (None, Err(ReasonTooLong))
    else (Some(Purged(user)), if user in t.templates || user in t.photos then Ok(()) else Err(PendingNotFound))
  }

  /** A rejection that reports pending_not_found has changed the tables exactly if its reason was usable and
      the user had a consent, but neither template nor photo; the consent is then gone. */
  lemma RefusedAfterDeletingIff(t: Tables, user: string, reason: string)
    ensures var r := Rejected(t, user, reason); var changed := After(t, r.0) != t;
            var usable := Trim(reason) != "" && Utf16Length(Trim(reason)) <= 256;
            var consentOnly := user in t.consents && user !in t.templates && user !in t.photos;
            r.1 == Err(PendingNotFound) && changed <==> usable && consentOnly
    ensures var r := Rejected(t, user, reason);
            r.1 == Err(PendingNotFound) ==> After(t, r.0) == t.(consents := Without(t.consents, user))
  {
    if user !in t.templates { assert Without(t.templates, user) == t.templates; }
    if user !in t.photos { assert Without(t.photos, user) == t.photos; }
    if user !in t.consents { assert Without(t.consents, user) == t.consents; }
  }

  class EnrollmentSessionStore {
    var sessions: map<string, Enrollment>
    const ttlMs: nat

    constructor (ttlMs: nat)
      ensures this.ttlMs == ttlMs && sessions == map[]
    {
      this.ttlMs := ttlMs;
      sessions := map[];
    }

    method Start(id: string, student: string, staff: string, now: int)
      requires id !in sessions
      modifies this
      ensures sessions == Started(old(sessions), ttlMs, id, student, staff, now)
    {
      ghost var before := sessions;
      var todo := sessions.Keys;
      while todo != {}
        invariant todo <= before.Keys
        invariant sessions == map k | k in before && (k in todo || now < before[k].expiresAt) :: before[k]
      {
        var k :| k in todo;
        if sessions[k].expiresAt <= now { sessions := Without(sessions, k); }
        todo := todo - {k};
      }
      sessions := sessions[id := Enrollment(student, staff, None, [], [], now + ttlMs)];
    }

    method Get(id: string, now: int) returns (r: Option<Enrollment>)
      modifies this
      ensures r == LiveEnrollment(old(sessions), id, now)
      ensures sessions == Looked(old(sessions), id, now)
    {
      if id !in sessions || sessions[id].expiresAt <= now {
        sessions := Without(sessions, id);
        return None;
      }
      r := Some(sessions[id]);
    }

    method Consented(id: string, consentId: string, now: int) returns (ok: bool)
      modifies this
      ensures (sessions, ok) == Consenting(old(sessions), id, consentId, now)
    {
      var session := Get(id, now);
      if session.None? || consentId == "" { return false; }
      sessions := sessions[id := session.value.(consentId := Some(consentId))];
      ok := true;
    }

    method Add(id: string, embedding: Option<Vector>, quality: real, now: int) returns (ok: bool)
      modifies this
      ensures (sessions, ok) == Adding(old(sessions), id, embedding, quality, now)
    {
      var session := Get(id, now);
      if session.None? || session.value.consentId.None? || embedding.None? { return false; }
      sessions := sessions[id := session.value.(embeddings := session.value.embeddings + [embedding.value],
                                                qualities := session.value.qualities + [quality])];
      ok := true;
    }

    method Cancel(id: string)
      modifies this
      ensures sessions == Without(old(sessions), id)
    {
      sessions := Without(sessions, id);
    }
  }

  class FaceReviewService {
    const db: FaceDatabase
    const enrollment: EnrollmentSessionStore
    const outbox: OutboxTable
    const host: Host

    constructor (db: FaceDatabase, enrollment: EnrollmentSessionStore, outbox: OutboxTable, host: Host)
      ensures this.db == db && this.enrollment == enrollment && this.outbox == outbox && this.host == host
    {
      this.db := db;
      this.enrollment := enrollment;
      this.outbox := outbox;
      this.host := host;
    }

    method Approve(user: string, mode: PromoteMode, staff: string, enrollId: Option<string>, now: int)
      returns (r: Result<PromoteMode, ReviewFailure>)
      modifies db, enrollment
      ensures var h := Approved(host, old(db.Rows()), old(enrollment.sessions), user, mode, staff, enrollId, now);
              r == h.answer && enrollment.sessions == h.enrollments && db.Rows() == After(old(db.Rows()), h.write)
    {
      if mode.Reenroll? {
        var failure := StoreReenrolledTemplate(user, staff, enrollId, now);
        if failure.Some? { return Err(failure.value); }
      } else {
        var changed := db.SetFaceTemplateState(user, Active, 0);
        if !changed { return Err(PendingNotFound); }
      }
      r := Ok(mode);
    }

    method StoreReenrolledTemplate(user: string, staff: string, enrollId: Option<string>, now: int)
      returns (failure: Option<ReviewFailure>)
      modifies db, enrollment
      ensures var h := Reenrolled(host, old(enrollment.sessions), user, staff, enrollId, now);
              failure == h.answer && enrollment.sessions == h.enrollments && db.Rows() == After(old(db.Rows()), h.write)
    {
      if !IsSet(enrollId) { return Some(EnrollmentRequired); }
      var session := enrollment.Get(enrollId.value, now);
      if session.None? || session.value.studentUserId != user || !IsSet(session.value.consentId) {
        return Some(EnrollmentRequired);
      }
      var embedding := AverageEmbedding(host, session.value.embeddings);
      if embedding.None? { return Some(InsufficientShots); }
      db.UpsertFaceTemplate(user, FromShots(host, session.value, embedding.value, staff, now));
      enrollment.Cancel(enrollId.value);
      failure := None;
    }

    method Reject(user: string, reason: string) returns (r: Result<(), ReviewFailure>)
      modifies db
      ensures var h := Rejected(old(db.Rows()), user, reason);
              r == h.1 && db.Rows() == After(old(db.Rows()), h.0)
    {
      var trimmed := Trim(reason);
      if trimmed == "" { return Err(ReasonRequired); }
      if Utf16Length(trimmed) > 256 { return Err(ReasonTooLong); }
      var removed := db.PurgeFaceSubject(user);
      if removed.templates == 0 && removed.photos == 0 { return Err(PendingNotFound); }
      r := Ok(());
    }

    /** `commit`: the shots of a consented enrolment become the active template, once. */
    method Commit(enrollId: string, actor: string, now: int) returns (r: Result<int, CommitFailure>)
      modifies db, enrollment
      ensures var h := Committed(host, old(enrollment.sessions), enrollId, actor, now);
              r == h.answer && enrollment.sessions == h.enrollments && db.Rows() == After(old(db.Rows()), h.write)
    {
      var session := enrollment.Get(enrollId, now);
      if session.None? { return Err(EnrollExpired); }
      if session.value.staffUserId != actor { return Err(EnrollmentForbidden); }
      if !IsSet(session.value.consentId) { return Err(ConsentRequired); }
      var embedding := AverageEmbedding(host, session.value.embeddings);
      if embedding.None? { return Err(TooFewShots); }
      db.UpsertFaceTemplate(session.value.studentUserId, FromShots(host, session.value, embedding.value, actor, now));
      enrollment.Cancel(enrollId);
      r := Ok(now);
    }

    /** `photo` after the extraction; `e` is the record it held on to, as it stands now, though it may be
        gone from the store.  A photo without a face stores nothing. */
    method FinishPhoto(e: Enrollment, embedding: Option<Vector>, pass: bool, upload: Upload, now: int)
      returns (stored: bool)
      modifies db
      ensures stored <==> embedding.Some?
      ensures db.Rows() == After(old(db.Rows()), PhotoWrite(host, e, embedding, pass, upload, now))
    {
      if embedding.None? { return false; }
      db.UpsertFaceTemplate(e.studentUserId, FromPhoto(host, e, embedding.value, pass, now));
      db.UpsertFacePhoto(e.studentUserId, Photo(upload.sealed, upload.contentType, e.consentId, now));
      stored := true;
    }

    /** `consent` after the consent is recorded remotely; `e` is the record it held on to. */
    method FinishConsent(enrollId: string, e: Enrollment, granted: Option<Granted>, now: int) returns (ok: bool)
      modifies db, enrollment
      ensures var h := ConsentGiven(old(enrollment.sessions), enrollId, e, granted, now);
              ok == h.answer && enrollment.sessions == h.enrollments && db.Rows() == After(old(db.Rows()), h.write)
    {
      if granted.None? { return false; }
      var g := granted.value;
      ok := enrollment.Consented(enrollId, g.consentId, now);
      if ok { db.UpsertFaceConsentCopy(e.studentUserId, Consent(g.consentId, g.policyVersion, g.at, None)); }
    }

    /** Deletion at the kiosk: everything goes at once, and the remote revocation is queued exactly
        when there was something to delete. */
    method DeleteRegistration(user: string, actor: string, now: int) returns (found: bool)
      modifies db, outbox
      ensures found <==> HasRows(old(db.Rows()), user)
      ensures db.Rows() == Apply(old(db.Rows()), Purged(user))
      ensures if found
              then
                var payload := RevocationPayload(RevokeConsentInput(user, None, actor));
                var row := Row(old(outbox.nextId), CONSENT_REVOKE_TARGET, payload, 0, now);
                outbox.rows == old(outbox.rows)[row.id := row] && outbox.nextId == row.id + 1
              else outbox.rows == old(outbox.rows) && outbox.nextId == old(outbox.nextId)
    {
      var removed := db.PurgeFaceSubject(user);
      found := removed.templates != 0 || removed.photos != 0 || removed.consents != 0;
      if found { outbox.EnqueueConsentRevocation(RevokeConsentInput(user, None, actor), now); }
    }
  }
}
