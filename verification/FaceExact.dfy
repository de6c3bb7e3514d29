/** What each handler of the face data does to the tables, exactly when, and where a stored consent and its
    instant come from. */
module FaceExact {
  import opened Common
  import opened FaceMatcher
  import opened FaceTables
  import opened FaceHistory
  import opened FaceReview
  import opened RevocationSync
  import opened FaceProtocol

  type Event = FaceProtocol.Event

  // ---------- one write ----------

  lemma OneWrite(t: Tables, w: FaceHistory.Event)
    ensures Replay(t, [w]) == Apply(t, w) && Replay(t, []) == t
  {
    assert [w][..0] == [];
  }

  ghost predicate IsLiveAt(s: System, id: string, now: int) {
    id in s.enrollments && now < s.enrollments[id].expiresAt
  }

  /** Asking for an enrolment that has expired removes it. */
  ghost function AfterAsking(s: System, id: string, now: int): map<string, Enrollment> {
    if IsLiveAt(s, id, now) then s.enrollments else s.enrollments - {id}
  }

  /** In every run, a request that asks for an enrolment leaves it, unless it has expired. */
  lemma AskingRemovesTheExpired(host: Host, ss: seq<System>, es: seq<Event>, ts: seq<int>, i: nat)
    requires IsRun(host, ss, es, ts) && i < |es|
    requires es[i].LookUp? || es[i].BeginConsent? || es[i].BeginPhoto? || es[i].Cancel?
    ensures ss[i + 1].tables == ss[i].tables
    ensures ss[i + 1].enrollments ==
              if es[i].Cancel? then ss[i].enrollments - {es[i].id} else AfterAsking(ss[i], es[i].id, ts[i])
  {
    assert Moves(host, ss[i], es[i], ts[i], ss[i + 1]);
    assert Replay(ss[i].tables, []) == ss[i].tables;
  }

  /** In every run, a consent is copied exactly if it was granted, under an identifier, while its enrolment is
      live.  The copy is the consent that was granted, with its own instant. */
  lemma ConsentIsCopiedIff(host: Host, ss: seq<System>, es: seq<Event>, ts: seq<int>, i: nat)
    requires IsRun(host, ss, es, ts) && i < |es| && es[i].EndConsent?
    ensures es[i].task in ss[i].tasks && ss[i].tasks[es[i].task].AwaitConsent?
    ensures ss[i].tasks[es[i].task].id in ss[i].records
    ensures var s, s', id, granted := ss[i], ss[i + 1], ss[i].tasks[es[i].task].id, es[i].granted;
            if granted.Some? && granted.value.consentId != "" && IsLiveAt(s, id, ts[i]) then
              var g, u := granted.value, s.records[id].studentUserId;
              && s'.tables == s.tables.(consents :=
                   s.tables.consents[u := Consent(g.consentId, g.policyVersion, g.at, None)])
              && s'.enrollments == s.enrollments[id := s.enrollments[id].(consentId := Some(g.consentId))]
              && s'.consents == s.consents + [Recorded(id, u, g.consentId, g.policyVersion, g.at)]
            else
              && s'.tables == s.tables && s'.consents == s.consents
              && s'.enrollments == (if granted.Some? then AfterAsking(s, id, ts[i]) else s.enrollments)
  {
    assert Moves(host, ss[i], es[i], ts[i], ss[i + 1]);
    var s := ss[i];
    var writes := Writes(host, s, es[i], ts[i]);
    if writes != [] { OneWrite(s.tables, writes[0]); }
  }

  // ---------- enrolments and requests ----------

  /** In every run, a start drops the enrolments that have expired and adds one for ten minutes, without a consent. */
  lemma StartsForTenMinutes(host: Host, ss: seq<System>, es: seq<Event>, ts: seq<int>, i: nat)
    requires IsRun(host, ss, es, ts) && i < |es| && es[i].StartEnrollment?
    ensures var s, s', e, now := ss[i], ss[i + 1], es[i], ts[i];
            && e.id in s'.enrollments
            && s'.enrollments[e.id] == Enrollment(e.student, e.staff, None, [], [], now + 600_000)
            && (forall k :: k in s'.enrollments && k != e.id <==> k != e.id && IsLiveAt(s, k, now))
            && (forall k :: k in s'.enrollments && k != e.id ==> s'.enrollments[k] == s.enrollments[k])
  {
    assert Moves(host, ss[i], es[i], ts[i], ss[i + 1]);
  }

  /** In every run, a shot is kept at the end of its enrolment exactly if that is live and carries a consent and the
      shot has an embedding. */
  lemma ShotIsKeptIff(host: Host, ss: seq<System>, es: seq<Event>, ts: seq<int>, i: nat)
    requires IsRun(host, ss, es, ts) && i < |es| && es[i].AddShot?
    ensures var s, id, shot := ss[i], es[i].id, es[i].embedding;
            ss[i + 1].enrollments ==
              if !IsLiveAt(s, id, ts[i]) then s.enrollments - {id}
              else if s.enrollments[id].consentId.Some? && shot.Some? then
                var e := s.enrollments[id];
                s.enrollments[id := e.(embeddings := e.embeddings + [shot.value],
                                       qualities := e.qualities + [es[i].quality])]
              else s.enrollments
  {
    assert Moves(host, ss[i], es[i], ts[i], ss[i + 1]);
  }

  /** In every run, a request for a consent goes on exactly for the staff member of a live enrolment, and one for a
      photo exactly if that carries a consent as well. */
  lemma WaitsIff(host: Host, ss: seq<System>, es: seq<Event>, ts: seq<int>, i: nat)
    requires IsRun(host, ss, es, ts) && i < |es| && (es[i].BeginConsent? || es[i].BeginPhoto?)
    ensures var s, e := ss[i], es[i];
            var mayAct := IsLiveAt(s, e.id, ts[i]) && s.enrollments[e.id].staffUserId == e.actor;
            ss[i + 1].tasks == s.tasks[e.task :=
              if e.BeginConsent? && mayAct then AwaitConsent(e.id)
              else if e.BeginPhoto? && mayAct && s.enrollments[e.id].consentId.Some?
                      && s.enrollments[e.id].consentId.value != "" then AwaitPhoto(e.id)
              else Finished]
  {
    assert Moves(host, ss[i], es[i], ts[i], ss[i + 1]);
  }

  // ---------- templates ----------

  /** A consented enrolment with at least six shots that can be averaged. */
  predicate HasShots(host: Host, e: Enrollment) {
    e.consentId.Some? && e.consentId.value != "" && 6 <= |e.embeddings| && host.average(e.embeddings).Some?
  }

  /** The active template of the averaged shots, under the consent of the enrolment. */
  function ShotTemplate(host: Host, e: Enrollment, staff: string, now: int): Template
    requires HasShots(host, e)
  {
    Template(host.sealing(host.average(e.embeddings).value), host.modelId, MeanQuality(e.qualities), now, Active,
             e.consentId, Some(staff), now, None)
  }

  /** In every run, a commit stores the template of the shots for the student exactly if its enrolment is live,
      with shots, and the actor is its staff member; the enrolment is then used up.  Otherwise the tables stay. */
  lemma CommitStoresIff(host: Host, ss: seq<System>, es: seq<Event>, ts: seq<int>, i: nat)
    requires IsRun(host, ss, es, ts) && i < |es| && es[i].Commit?
    ensures var s, s', id, actor := ss[i], ss[i + 1], es[i].id, es[i].actor;
            if IsLiveAt(s, id, ts[i]) && s.enrollments[id].staffUserId == actor && HasShots(host, s.enrollments[id])
            then
              var e := s.enrollments[id];
              && s'.tables == s.tables.(templates :=
                   s.tables.templates[e.studentUserId := ShotTemplate(host, e, actor, ts[i])])
              && s'.enrollments == s.enrollments - {id}
            else s'.tables == s.tables && s'.enrollments == AfterAsking(s, id, ts[i])
  {
    assert Moves(host, ss[i], es[i], ts[i], ss[i + 1]);
    var writes := Writes(host, ss[i], es[i], ts[i]);
    if writes != [] { OneWrite(ss[i].tables, writes[0]); }
  }

  /** The answers of a commit, in the order of its checks. */
  lemma CommitAnswers(host: Host, m: map<string, Enrollment>, id: string, actor: string, now: int)
    ensures var answer := Committed(host, m, id, actor, now).answer;
            if id !in m || m[id].expiresAt <= now then answer == Err(EnrollExpired)
            else if m[id].staffUserId != actor then answer == Err(EnrollmentForbidden)
            else if m[id].consentId == None || m[id].consentId == Some("") then answer == Err(ConsentRequired)
            else if HasShots(host, m[id]) then answer == Ok(now) else answer == Err(TooFewShots)
  {
  }

  /** In every run, an approval by new shots stores the template of the shots exactly if the enrolment it names
      is live, of this user and with shots; it is then used up.  An approval of the photo makes the stored
      template active, whatever it was.  Otherwise the tables stay. */
  lemma ApproveStoresIff(host: Host, ss: seq<System>, es: seq<Event>, ts: seq<int>, i: nat)
    requires IsRun(host, ss, es, ts) && i < |es| && es[i].Approve?
    ensures var s, s', user, enrollId := ss[i], ss[i + 1], es[i].user, es[i].enrollId;
            match es[i].mode
            case PromotePhoto =>
              && s'.enrollments == s.enrollments
              && s'.tables == (if user in s.tables.templates
                               then s.tables.(templates := s.tables.templates[
                                      user := s.tables.templates[user].(state := Active, revokedAt := None)])
                               else s.tables)
            case Reenroll =>
              if enrollId.Some? && enrollId.value != "" && IsLiveAt(s, enrollId.value, ts[i])
                 && s.enrollments[enrollId.value].studentUserId == user && HasShots(host, s.enrollments[enrollId.value])
              then
                var template := ShotTemplate(host, s.enrollments[enrollId.value], es[i].staff, ts[i]);
                && s'.tables == s.tables.(templates := s.tables.templates[user := template])
                && s'.enrollments == s.enrollments - {enrollId.value}
              else
                && s'.tables == s.tables
                && s'.enrollments == (if enrollId == None || enrollId == Some("") then s.enrollments
                                      else AfterAsking(s, enrollId.value, ts[i]))
  {
    assert Moves(host, ss[i], es[i], ts[i], ss[i + 1]);
    var writes := Writes(host, ss[i], es[i], ts[i]);
    if writes != [] { OneWrite(ss[i].tables, writes[0]); }
  }

  /** The answers of an approval. */
  lemma ApproveAnswers(host: Host, t: Tables, m: map<string, Enrollment>, user: string, mode: PromoteMode,
                       staff: string, enrollId: Option<string>, now: int)
    ensures var answer := Approved(host, t, m, user, mode, staff, enrollId, now).answer;
            match mode
            case PromotePhoto => answer == if user in t.templates then Ok(mode) else Err(PendingNotFound)
            case Reenroll =>
              if enrollId.Some? && enrollId.value in m && now < m[enrollId.value].expiresAt
                 && enrollId.value != "" && m[enrollId.value].studentUserId == user
                 && m[enrollId.value].consentId.Some? && m[enrollId.value].consentId.value != ""
              then answer == if HasShots(host, m[enrollId.value]) then Ok(mode) else Err(InsufficientShots)
              else answer == Err(EnrollmentRequired)
  {
  }

  /** In every run, the end of a photo stores its row and a pending template of its face, both under the consent of
      the enrolment, exactly if it shows a face.  It stores them though the enrolment may be gone. */
  lemma PhotoStoresIff(host: Host, ss: seq<System>, es: seq<Event>, ts: seq<int>, i: nat)
    requires IsRun(host, ss, es, ts) && i < |es| && es[i].EndPhoto?
    ensures es[i].task in ss[i].tasks && ss[i].tasks[es[i].task].AwaitPhoto?
    ensures ss[i].tasks[es[i].task].id in ss[i].records
    ensures var s, s', now, upload := ss[i], ss[i + 1], ts[i], es[i].upload;
            var e := s.records[s.tasks[es[i].task].id];
            if es[i].embedding.None? then s'.tables == s.tables
            else
              var template := Template(host.sealing(es[i].embedding.value), host.modelId,
                                       if es[i].pass then 1.0 else 0.0, now, Pending, e.consentId,
                                       Some(e.staffUserId), now, None);
              var photo := Photo(upload.sealed, upload.contentType, e.consentId, now);
              s'.tables == s.tables.(templates := s.tables.templates[e.studentUserId := template],
                                     photos := s.tables.photos[e.studentUserId := photo])
  {
    assert Moves(host, ss[i], es[i], ts[i], ss[i + 1]);
    var writes := Writes(host, ss[i], es[i], ts[i]);
    if writes != [] { OneWrite(ss[i].tables, writes[0]); }
  }

  /** How many of the shots pass. */
  function Passed(passes: seq<bool>): (n: nat) {
    |set k | 0 <= k < |passes| && passes[k]|
  }

  lemma OneMorePass(passes: seq<bool>)
    requires passes != []
    ensures var n := |passes| - 1;
            Passed(passes) == Passed(passes[..n]) + if passes[n] then 1 else 0
  {
    var n := |passes| - 1;
    var all, before := set k | 0 <= k < |passes| && passes[k], set k | 0 <= k < n && passes[..n][k];
    assert all == if passes[n] then before + {n} else before;
  }

  lemma {:induction false} QualitiesAddUp(qualities: seq<real>, passes: seq<bool>)
    requires |passes| == |qualities|
    requires forall k :: 0 <= k < |passes| ==> qualities[k] == if passes[k] then 1.0 else 0.0
    ensures Total(qualities) == Passed(passes) as real
  {
    if qualities != [] {
      var n := |qualities| - 1;
      QualitiesAddUp(qualities[..n], passes[..n]);
      OneMorePass(passes);
      hide Passed;
    }
  }

  /** Of shots that pass or do not, the quality is the share that passes. */
  lemma QualityIsTheShareOfPasses(qualities: seq<real>, passes: seq<bool>)
    requires |passes| == |qualities| && passes != []
    requires forall k :: 0 <= k < |passes| ==> qualities[k] == if passes[k] then 1.0 else 0.0
    ensures MeanQuality(qualities) == Passed(passes) as real / |passes| as real
  {
    QualitiesAddUp(qualities, passes);
  }

  // ---------- deletions ----------

  function AllButUser(t: Tables, u: string): Tables {
    Tables(t.templates - {u}, t.photos - {u}, t.consents - {u})
  }

  /** In every run, a deletion removes every row of its user and nothing else, and a rejection does so exactly if its
      reason, without the white space around it, is neither empty nor longer than 256 code units. */
  lemma DeletesIff(host: Host, ss: seq<System>, es: seq<Event>, ts: seq<int>, i: nat)
    requires IsRun(host, ss, es, ts) && i < |es| && (es[i].Delete? || es[i].Reject?)
    ensures ss[i + 1].tables ==
              if es[i].Delete? || 1 <= Utf16Length(Trim(es[i].reason)) <= 256
              then AllButUser(ss[i].tables, es[i].user) else ss[i].tables
  {
    assert Moves(host, ss[i], es[i], ts[i], ss[i + 1]);
    OneWrite(ss[i].tables, Purged(es[i].user));
  }

  /** The white space and line terminators of ECMAScript, by code point. */
  lemma WhiteSpaceTable(c: char)
    ensures IsSpace(c) <==> c as int in {0x09, 0x0A, 0x0B, 0x0C, 0x0D, 0x20, 0xA0, 0x1680, 0x2000, 0x2001, 0x2002,
                                         0x2003, 0x2004, 0x2005, 0x2006, 0x2007, 0x2008, 0x2009, 0x200A, 0x2028,
                                         0x2029, 0x202F, 0x205F, 0x3000, 0xFEFF}
  {
  }

  /** Trimming takes away white space only, and leaves none at either end. */
  lemma TrimIsTheCore(s: string) returns (front: string, back: string)
    ensures s == front + Trim(s) + back
    ensures forall i :: 0 <= i < |front| ==> IsSpace(front[i])
    ensures forall i :: 0 <= i < |back| ==> IsSpace(back[i])
    ensures Trim(s) != "" ==> !IsSpace(Trim(s)[0]) && !IsSpace(Trim(s)[|Trim(s)| - 1])
  {
    front := TrimStartCuts(s);
    back := TrimEndCuts(TrimStart(s));
    assert s == front + (Trim(s) + back);
    if Trim(s) != "" {
      TrimStartDrops(s);
      assert TrimStart(s)[0] == Trim(s)[0];
    }
  }

  lemma {:induction false} TrimStartCuts(s: string) returns (front: string)
    ensures s == front + TrimStart(s) && forall i :: 0 <= i < |front| ==> IsSpace(front[i])
  {
    if s != "" && IsSpace(s[0]) {
      var rest := TrimStartCuts(s[1..]);
      front := [s[0]] + rest;
    } else {
      front := "";
    }
  }

  lemma {:induction false} TrimEndCuts(s: string) returns (back: string)
    ensures s == TrimEnd(s) + back && forall i :: 0 <= i < |back| ==> IsSpace(back[i])
    ensures TrimEnd(s) != "" ==> !IsSpace(TrimEnd(s)[|TrimEnd(s)| - 1])
  {
    if s != "" && IsSpace(s[|s| - 1]) {
      var rest := TrimEndCuts(s[..|s| - 1]);
      back := rest + [s[|s| - 1]];
    } else {
      back := "";
    }
  }

  /** Two code units for every character above U+FFFF, one for every other. */
  lemma {:induction false} CodeUnits(s: string)
    ensures Utf16Length(s) == |s| + |Astral(s)|
  {
    if s != "" {
      CodeUnits(s[1..]);
    }
  }

  /** The characters above U+FFFF. */
  function Astral(s: string): string {
    if s == "" then "" else (if '\U{10000}' <= s[0] then [s[0]] else "") + Astral(s[1..])
  }

  /** In every run, a pulled list of revocations removes every row of the users it names and no other row. */
  lemma PulledRevocations(host: Host, ss: seq<System>, es: seq<Event>, ts: seq<int>, i: nat, u: string)
    requires IsRun(host, ss, es, ts) && i < |es| && es[i].RevocationsPulled?
    ensures var t, t' := ss[i].tables, ss[i + 1].tables;
            if exists r :: r in es[i].revocations && r.userId == Some(u) && u != ""
            then u !in t'.templates && u !in t'.photos && u !in t'.consents
            else SameRows(t, t', u)
  {
    assert Moves(host, ss[i], es[i], ts[i], ss[i + 1]);
    RevocationsAreDeletions(ss[i].tables, es[i].revocations);
    hide Replay;
    hide RevocationEvents;
  }

  predicate SameRows(t: Tables, t': Tables, u: string) {
    && SameTemplate(t, t', u)
    && (u in t'.photos <==> u in t.photos) && (u in t.photos ==> t'.photos[u] == t.photos[u])
    && (u in t'.consents <==> u in t.consents) && (u in t.consents ==> t'.consents[u] == t.consents[u])
  }

  predicate SameTemplate(t: Tables, t': Tables, u: string) {
    (u in t'.templates <==> u in t.templates) && (u in t.templates ==> t'.templates[u] == t.templates[u])
  }

  // ---------- a pull of consents ----------

  /** The record is of `u` and names a consent. */
  predicate Names(r: RawConsent, u: string) {
    r.userId == Some(u) && u != "" && r.consentId.Some? && r.consentId.value != ""
  }

  predicate Revokes(r: RawConsent) {
    r.revokedAt.Some? && r.revokedAt.value != 0
  }

  /** `consent` is the copy of a record that is pulled at `now`. */
  predicate IsCopyOf(consent: Consent, r: RawConsent, now: int) {
    && r.consentId == Some(consent.consentId) && consent.revokedAt == r.revokedAt && !Revokes(r)
    && consent.policyVersion == (match r.policyVersion case Some(p) => p case None => "unknown")
    && consent.at == (match r.at case Some(at) => at case None => now)
  }

  /** Record `k` is the last one of `u`. */
  predicate IsLastOf(rs: seq<RawConsent>, u: string, k: nat) {
    k < |rs| && Names(rs[k], u) && forall j :: k < j < |rs| ==> !Names(rs[j], u)
  }

  /** The last record of a user decides: a revoked one leaves no row, any other one its copy. */
  lemma {:induction false} LastRecordDecides(t: Tables, rs: seq<RawConsent>, now: int, u: string, k: nat)
    requires IsLastOf(rs, u, k)
    ensures var t' := Replay(t, ConsentEvents(rs, now));
            if Revokes(rs[k]) then u !in t'.templates && u !in t'.photos && u !in t'.consents
            else u in t'.consents && IsCopyOf(t'.consents[u], rs[k], now)
  {
    var n := |rs| - 1;
    if k < n { LastRecordDecides(t, rs[..n], now, u, k); }
    ConsentEventsEnd(t, rs, now);
  }

  lemma ConsentEventsEnd(t: Tables, rs: seq<RawConsent>, now: int)
    requires rs != []
    ensures var before, r := Replay(t, ConsentEvents(rs[..|rs| - 1], now)), rs[|rs| - 1];
            Replay(t, ConsentEvents(rs, now)) == if IsConsent(r) then Apply(before, ConsentEvent(r, now)) else before
  {
    var es, r := ConsentEvents(rs[..|rs| - 1], now), rs[|rs| - 1];
    hide Apply;
    if IsConsent(r) { ReplayOneMore(t, es, ConsentEvent(r, now)); }
  }

  /** The template of a user goes exactly if some record of theirs is revoked, and a user without a record keeps
      every row. */
  lemma {:induction false} RecordsTouchTheirUser(t: Tables, rs: seq<RawConsent>, now: int, u: string)
    ensures var t' := Replay(t, ConsentEvents(rs, now));
            && (if exists k :: 0 <= k < |rs| && Names(rs[k], u) && Revokes(rs[k]) then u !in t'.templates
                else SameTemplate(t, t', u))
            && ((forall k :: 0 <= k < |rs| ==> !Names(rs[k], u)) ==> SameRows(t, t', u))
  {
    if rs != [] {
      var n := |rs| - 1;
      RecordsTouchTheirUser(t, rs[..n], now, u);
      ConsentEventsEnd(t, rs, now);
      hide Replay;
      hide ConsentEvents;
      if k :| 0 <= k < |rs| && Names(rs[k], u) && Revokes(rs[k]) {
        assert k < n ==> rs[..n][k] == rs[k];
      } else {
        assert forall k :: 0 <= k < n ==> rs[..n][k] == rs[k];
      }
    }
  }

  lemma LastOf(rs: seq<RawConsent>, u: string) returns (k: int)
    ensures if k == -1 then forall j :: 0 <= j < |rs| ==> !Names(rs[j], u) else 0 <= k && IsLastOf(rs, u, k)
  {
    k := |rs| - 1;
    while 0 <= k && !Names(rs[k], u)
      invariant -1 <= k < |rs| && forall j :: k < j < |rs| ==> !Names(rs[j], u)
    {
      k := k - 1;
    }
  }

  // ---------- where a stored consent comes from ----------

  /** A record of `u` in the answer that was pulled by step `j` was copied. */
  ghost predicate PulledBy(es: seq<Event>, ts: seq<int>, j: nat, u: string, consent: Consent) {
    && j < |es| && j < |ts| && es[j].ConsentsPulled?
    && exists r :: r in es[j].records && Names(r, u) && IsCopyOf(consent, r, ts[j])
  }

  /** The consent was recorded for `u`, with this instant, or copied from a record of `u`, with its instant. */
  ghost predicate GivenBy(ss: seq<System>, es: seq<Event>, ts: seq<int>, i: nat, u: string, consent: Consent)
    requires i < |ss|
  {
    || (exists c :: c in ss[i].consents && c.user == u
          && consent == Consent(c.consentId, c.policyVersion, c.at, None))
    || (exists j: nat :: j < i && PulledBy(es, ts, j, u, consent))
  }

  /** A step leaves a stored consent as it was, unless it copies one. */
  lemma ConsentStep(host: Host, s: System, e: Event, now: int, u: string)
    requires Enabled(s, e, now) && !e.EndConsent? && !e.ConsentsPulled? && u in Next(host, s, e, now).tables.consents
    ensures u in s.tables.consents && Next(host, s, e, now).tables.consents[u] == s.tables.consents[u]
  {
    var writes := Writes(host, s, e, now);
    if e.RevocationsPulled? {
      RevocationsAreDeletions(s.tables, e.revocations);
    } else if writes != [] {
      OneWrite(s.tables, writes[0]);
    }
  }

  /** In every run, a stored consent is one that was recorded for its user or pulled for its user, with the instant
      that the grant or the record gave. */
  lemma {:induction false} StoredConsentWasGiven(host: Host, ss: seq<System>, es: seq<Event>, ts: seq<int>, i: nat,
                                                 u: string)
    requires IsRun(host, ss, es, ts) && i < |ss| && u in ss[i].tables.consents
    ensures GivenBy(ss, es, ts, i, u, ss[i].tables.consents[u])
  {
    if 0 < i {
      var s, e, now := ss[i - 1], es[i - 1], ts[i - 1];
      assert Moves(host, s, e, now, ss[i]);
      LogsGrow(host, s, e, now);
      if u in s.tables.consents && ss[i].tables.consents[u] == s.tables.consents[u] {
        StoredConsentWasGiven(host, ss, es, ts, i - 1, u);
        hide Next;
        var consent := ss[i].tables.consents[u];
        if c :| c in s.consents && c.user == u && consent == Consent(c.consentId, c.policyVersion, c.at, None) {
          assert c in ss[i].consents;
        }
      } else if e.EndConsent? {
        ConsentIsCopiedIff(host, ss, es, ts, i - 1);
        hide Next;
        assert ss[i].consents[|s.consents|] in ss[i].consents;
      } else if e.ConsentsPulled? {
        var k := LastOf(e.records, u);
        RecordsTouchTheirUser(s.tables, e.records, now, u);
        if k != -1 {
          LastRecordDecides(s.tables, e.records, now, u, k);
          assert PulledBy(es, ts, i - 1, u, ss[i].tables.consents[u]);
        }
      } else {
        ConsentStep(host, s, e, now, u);
      }
    }
  }

  /** The end of a request for consent that recorded `c`. */
  ghost predicate GrantedBy(ss: seq<System>, es: seq<Event>, j: nat, c: Recorded) {
    && j < |es| && j < |ss| && es[j].EndConsent? && es[j].granted.Some?
    && es[j].task in ss[j].tasks && !ss[j].tasks[es[j].task].Finished? && ss[j].tasks[es[j].task].id in ss[j].records
    && var id, g := ss[j].tasks[es[j].task].id, es[j].granted.value;
       c == Recorded(id, ss[j].records[id].studentUserId, g.consentId, g.policyVersion, g.at)
  }

  /** In every run, every consent that was recorded is the answer to a request that waited for one, with the
      instant of that answer, for the student of its enrolment. */
  lemma {:induction false} RecordedWasGranted(host: Host, ss: seq<System>, es: seq<Event>, ts: seq<int>, i: nat,
                                              c: Recorded)
    requires IsRun(host, ss, es, ts) && i < |ss| && c in ss[i].consents
    ensures exists j: nat :: j < i && GrantedBy(ss, es, j, c)
  {
    if 0 < i {
      assert Moves(host, ss[i - 1], es[i - 1], ts[i - 1], ss[i]);
      if c in ss[i - 1].consents {
        RecordedWasGranted(host, ss, es, ts, i - 1, c);
      } else {
        hide Writes;
        hide Activates;
        hide EnrollmentsAfter;
        assert GrantedBy(ss, es, i - 1, c);
      }
    }
  }

  /** In every run, an enrolment is of the student and the staff member it was started for. */
  lemma {:induction false} RecordIsAsStarted(host: Host, ss: seq<System>, es: seq<Event>, ts: seq<int>, i: nat,
                                             id: string)
    requires IsRun(host, ss, es, ts) && i < |ss| && id in ss[i].records
    ensures exists j: nat :: j < i && j < |es|
              && es[j] == StartEnrollment(id, ss[i].records[id].studentUserId, ss[i].records[id].staffUserId)
  {
    if 0 < i {
      assert Moves(host, ss[i - 1], es[i - 1], ts[i - 1], ss[i]);
      ReachableInv(host, ss, es, ts, i - 1);
      RecordKeepsItsPeople(host, ss[i - 1], es[i - 1], ts[i - 1], id);
      hide Next;
      if id in ss[i - 1].records { RecordIsAsStarted(host, ss, es, ts, i - 1, id); }
    }
  }

  lemma EnrollmentKeepsItsPeople(host: Host, s: System, e: Event, now: int, id: string)
    requires Enabled(s, e, now) && id in EnrollmentsAfter(host, s, e, now)
    ensures var x := EnrollmentsAfter(host, s, e, now)[id];
            || (e == StartEnrollment(id, x.studentUserId, x.staffUserId))
            || (id in s.enrollments
                && x.studentUserId == s.enrollments[id].studentUserId
                && x.staffUserId == s.enrollments[id].staffUserId)
  {
    hide AverageEmbedding;
    hide FromShots;
    hide Rejected;
  }

  lemma RecordKeepsItsPeople(host: Host, s: System, e: Event, now: int, id: string)
    requires EnrollmentsOk(s) && Enabled(s, e, now) && id in Next(host, s, e, now).records
    ensures var x := Next(host, s, e, now).records[id];
            if id in s.records
            then x.studentUserId == s.records[id].studentUserId && x.staffUserId == s.records[id].staffUserId
            else e == StartEnrollment(id, x.studentUserId, x.staffUserId)
  {
    if id in EnrollmentsAfter(host, s, e, now) { EnrollmentKeepsItsPeople(host, s, e, now, id); }
    hide EnrollmentsAfter;
    hide Writes;
    hide Activates;
    hide TasksAfter;
  }

  /** In every run, a user is in the roster exactly if their template is active, of this model and opens, and a year
      has not passed since their stored consent, or without one since the template; and that consent is one that
      was recorded or pulled for them, so the year runs from the instant it was given. */
  lemma RosterForAYearFromTheGrant(host: Host, ss: seq<System>, es: seq<Event>, ts: seq<int>, i: nat,
                                   open: Sealed -> Option<Vector>, modelId: string, now: int, u: string)
    requires IsRun(host, ss, es, ts) && i < |ss|
    ensures var t := ss[i].tables;
            var year := 31_536_000_000;
            && (InRoster(t, open, modelId, now, u) <==>
                  u in t.templates && t.templates[u].state == Active && t.templates[u].modelId == modelId
                  && open(t.templates[u].sealed).Some?
                  && now <= (if u in t.consents then t.consents[u].at else t.templates[u].enrolledAt) + year)
            && (u in t.consents ==> GivenBy(ss, es, ts, i, u, t.consents[u]))
  {
    RecognisedInEveryRun(host, ss, es, ts, i, open, modelId, now, u);
    NoPhotoAlone(ss[i].history, u);
    if u in ss[i].tables.consents { StoredConsentWasGiven(host, ss, es, ts, i, u); }
  }
}
