/** All interleavings of the handlers that write face data: enrolment, photos, review, deletion and
    pulls, with photos, consents and shots in flight across their awaits. */
module FaceProtocol {
  import opened Common
  import opened FaceMatcher
  import opened FaceTables
  import opened FaceHistory
  import opened FaceReview
  import opened RevocationSync

  /** A request that waits, holding on to the record of an enrolment. */
  datatype Task = AwaitConsent(id: string) | AwaitPhoto(id: string) | Finished

  /** A consent that was recorded for an enrolment, with the instant it was given at. */
  datatype Recorded = Recorded(enrollId: string, user: string, consentId: string, policyVersion: string, at: int)

  /** The write number `at` made an active template from the shots of an enrolment. */
  datatype Activation = Activation(enrollId: string, at: nat, shots: nat)

  /** `records` has every enrolment ever started, as its record stands or was left when it was removed;
      `history` has every write to the tables. */
  datatype System = System(
    tables: Tables,
    enrollments: map<string, Enrollment>,
    tasks: map<nat, Task>,
    records: map<string, Enrollment>,
    history: seq<FaceHistory.Event>,
    consents: seq<Recorded>,
    activations: seq<Activation>,
    clock: int)

  datatype Event =
    | StartEnrollment(id: string, student: string, staff: string)
    | LookUp(id: string)
    | AddShot(id: string, embedding: Option<Vector>, quality: real)
    | BeginConsent(task: nat, id: string, actor: string)
    | EndConsent(task: nat, granted: Option<Granted>)
    | BeginPhoto(task: nat, id: string, actor: string)
    | EndPhoto(task: nat, embedding: Option<Vector>, pass: bool, upload: Upload)
    | Commit(id: string, actor: string)
    | Approve(user: string, mode: PromoteMode, staff: string, enrollId: Option<string>)
    | Reject(user: string, reason: string)
    | Delete(user: string)
    | Cancel(id: string)
    | RevocationsPulled(revocations: seq<RawRevocation>)
    | ConsentsPulled(records: seq<RawConsent>)

  predicate Init(s: System) {
    && s.tables == EMPTY && s.enrollments == map[] && s.tasks == map[] && s.records == map[]
    && s.history == [] && s.consents == [] && s.activations == []
  }

  /** Enrolment identifiers are drawn fresh, and an awaited call settles once. */
  predicate Enabled(s: System, e: Event, now: int) {
    && s.clock <= now
    && match e
       case StartEnrollment(id, _, _) => id !in s.records
       case BeginConsent(t, _, _) => t !in s.tasks
       case BeginPhoto(t, _, _) => t !in s.tasks
       case EndConsent(t, _) => t in s.tasks && s.tasks[t].AwaitConsent? && s.tasks[t].id in s.records
       case EndPhoto(t, _, _, _) => t in s.tasks && s.tasks[t].AwaitPhoto? && s.tasks[t].id in s.records
       case _ => true
  }

  function Listing(write: Option<FaceHistory.Event>): seq<FaceHistory.Event> {
    if write.Some? then [write.value] else []
  }

  /** The writes of a step, in order. */
  function Writes(host: Host, s: System, e: Event, now: int): seq<FaceHistory.Event>
    requires Enabled(s, e, now)
  {
    match e
    case EndConsent(t, granted) =>
      var id := s.tasks[t].id;
      Listing(ConsentGiven(s.enrollments, id, s.records[id], granted, now).write)
    case EndPhoto(t, embedding, pass, upload) =>
      Listing(PhotoWrite(host, s.records[s.tasks[t].id], embedding, pass, upload, now))
    case Commit(id, actor) => Listing(Committed(host, s.enrollments, id, actor, now).write)
    case Approve(user, mode, staff, enrollId) =>
      Listing(Approved(host, s.tables, s.enrollments, user, mode, staff, enrollId, now).write)
    case Reject(user, reason) => Listing(Rejected(s.tables, user, reason).0)
    case Delete(user) => [Purged(user)]
    case RevocationsPulled(revocations) => RevocationEvents(revocations)
    case ConsentsPulled(records) => ConsentEvents(records, now)
    case _ => []
  }

  function EnrollmentsAfter(host: Host, s: System, e: Event, now: int): map<string, Enrollment>
    requires Enabled(s, e, now)
  {
    var m := s.enrollments;
    match e
    case StartEnrollment(id, student, staff) => Started(m, TTL_MS, id, student, staff, now)
    case LookUp(id) => Looked(m, id, now)
    case AddShot(id, embedding, quality) => Adding(m, id, embedding, quality, now).0
    case BeginConsent(_, id, _) => Looked(m, id, now)
    case BeginPhoto(_, id, _) => Looked(m, id, now)
    case EndConsent(t, granted) => ConsentGiven(m, s.tasks[t].id, s.records[s.tasks[t].id], granted, now).enrollments
    case Commit(id, actor) => Committed(host, m, id, actor, now).enrollments
    case Approve(user, mode, staff, enrollId) =>
      Approved(host, s.tables, m, user, mode, staff, enrollId, now).enrollments
    case Cancel(id) => Without(m, id)
    case _ => m
  }

  /** Only the staff member of a live enrolment goes on to the await; a photo also needs the consent. */
  function TasksAfter(s: System, e: Event, now: int): map<nat, Task>
    requires Enabled(s, e, now)
  {
    match e
    case BeginConsent(t, id, actor) =>
      var x := LiveEnrollment(s.enrollments, id, now);
      s.tasks[t := if x.Some? && x.value.staffUserId == actor then AwaitConsent(id) else Finished]
    case BeginPhoto(t, id, actor) =>
      var x := LiveEnrollment(s.enrollments, id, now);
      var goesOn := x.Some? && x.value.staffUserId == actor && IsSet(x.value.consentId);
      s.tasks[t := if goesOn then AwaitPhoto(id) else Finished]
    case EndConsent(t, _) => s.tasks[t := Finished]
    case EndPhoto(t, _, _, _) => s.tasks[t := Finished]
    case _ => s.tasks
  }

  /** The enrolment whose shots a step makes a template of, if it does. */
  function Activates(host: Host, s: System, e: Event, now: int): Option<string>
    requires Enabled(s, e, now)
  {
    var writes := Writes(host, s, e, now);
    match e
    case Commit(id, _) => if writes != [] then Some(id) else None
    case Approve(_, mode, _, enrollId) => if mode.Reenroll? && writes != [] then enrollId else None
    case _ => None
  }

  function Next(host: Host, s: System, e: Event, now: int): System
    requires Enabled(s, e, now)
  {
    var writes := Writes(host, s, e, now);
    var active := Activates(host, s, e, now);
    var m := EnrollmentsAfter(host, s, e, now);
    System(
      Replay(s.tables, writes),
      m,
      TasksAfter(s, e, now),
      s.records + m,
      s.history + writes,
      if e.EndConsent? && writes != [] then
        var id, g := s.tasks[e.task].id, e.granted.value;
        s.consents + [Recorded(id, s.records[id].studentUserId, g.consentId, g.policyVersion, g.at)]
      else s.consents,
      if active.Some? && active.value in s.enrollments
      then s.activations + [Activation(active.value, |s.history|, |s.enrollments[active.value].embeddings|)]
      else s.activations,
      now)
  }

  // ---------- the invariant ----------

  ghost predicate WasRecorded(s: System, id: string, user: string, consentId: Option<string>) {
    consentId.Some? && exists c :: c in s.consents && IsFor(c, id, user, consentId.value)
  }

  predicate IsFor(c: Recorded, id: string, user: string, consentId: string) {
    c.enrollId == id && c.user == user && c.consentId == consentId
  }

  /** A consent that a record carries was recorded for it. */
  ghost predicate RecordOk(s: System, id: string, e: Enrollment) {
    e.consentId.Some? ==> WasRecorded(s, id, e.studentUserId, e.consentId)
  }

  ghost predicate EnrollmentsOk(s: System) {
    && (forall id :: id in s.enrollments ==> id in s.records && s.records[id] == s.enrollments[id])
    && (forall id :: id in s.records ==> RecordOk(s, id, s.records[id]))
    && (forall t :: t in s.tasks && !s.tasks[t].Finished? ==> s.tasks[t].id in s.records)
    && (forall t :: t in s.tasks && s.tasks[t].AwaitPhoto? ==> s.records[s.tasks[t].id].consentId.Some?)
  }

  /** A stored template carries a consent that was recorded for an enrolment of its user. */
  ghost predicate WriteOk(s: System, w: FaceHistory.Event) {
    && Valid(w)
    && (w.PhotoTaken? || w.Enrolled? ==> exists id :: WasRecorded(s, id, w.user, w.template.consentId))
  }

  ghost predicate WritesOk(s: System) {
    && s.tables == Replay(EMPTY, s.history)
    && (forall k :: 0 <= k < |s.history| ==> WriteOk(s, s.history[k]))
  }

  /** An activation used its enrolment up, and its write is a template from enough shots of the student. */
  ghost predicate ActivationOk(s: System, a: Activation) {
    && a.enrollId in s.records && a.enrollId !in s.enrollments && SHOTS_REQUIRED <= a.shots
    && a.at < |s.history| && s.history[a.at].Enrolled?
    && s.history[a.at].user == s.records[a.enrollId].studentUserId
  }

  /** No two activations share an enrolment, and every template from shots has its activation. */
  ghost predicate ActivationsOk(s: System) {
    && (forall a :: a in s.activations ==> ActivationOk(s, a))
    && (forall i, j :: 0 <= i < j < |s.activations| ==>
          s.activations[i].enrollId != s.activations[j].enrollId && s.activations[i].at < s.activations[j].at)
    && (forall k :: 0 <= k < |s.history| && s.history[k].Enrolled? ==> ActivatedAt(s, k))
  }

  ghost predicate ActivatedAt(s: System, k: nat) {
    exists a :: a in s.activations && a.at == k
  }

  ghost predicate Inv(s: System) {
    EnrollmentsOk(s) && WritesOk(s) && ActivationsOk(s)
  }

  // ---------- every step keeps it ----------

  lemma LogsGrow(host: Host, s: System, e: Event, now: int)
    requires Enabled(s, e, now)
    ensures var s' := Next(host, s, e, now);
            && s.history <= s'.history && s.consents <= s'.consents && s.activations <= s'.activations
            && s.records.Keys <= s'.records.Keys
  {
    hide Writes;
    hide EnrollmentsAfter;
    hide Activates;
  }

  /** Where an enrolment of the next state comes from: it is unchanged, new, was given one more shot after
      its consent, or was given the consent that the step records. */
  lemma EnrollmentsTouched(host: Host, s: System, e: Event, now: int, id: string)
    requires Enabled(s, e, now) && id in EnrollmentsAfter(host, s, e, now)
    ensures var x := EnrollmentsAfter(host, s, e, now)[id];
            || (e.StartEnrollment? && id == e.id && x.studentUserId == e.student && x.consentId.None?)
            || (id in s.enrollments
                && x.studentUserId == s.enrollments[id].studentUserId && x.expiresAt == s.enrollments[id].expiresAt
                && (x.consentId == s.enrollments[id].consentId
                    || (e.EndConsent? && id == s.tasks[e.task].id && Writes(host, s, e, now) != []
                        && x.consentId == Some(e.granted.value.consentId))))
  {
    hide AverageEmbedding;
    hide FromShots;
    hide Rejected;
    hide RevocationEvents;
    hide ConsentEvents;
    hide PhotoWrite;
  }

  /** Records keep their student; a consent they carry stays or is replaced by the one the step records. */
  lemma RecordsTouched(host: Host, s: System, e: Event, now: int, id: string)
    requires EnrollmentsOk(s) && Enabled(s, e, now) && id in Next(host, s, e, now).records
    ensures var s' := Next(host, s, e, now); var x := s'.records[id];
            || (e.StartEnrollment? && id == e.id && x.consentId.None?)
            || (id in s.records && x.studentUserId == s.records[id].studentUserId
                && (x.consentId == s.records[id].consentId
                    || (|s'.consents| == |s.consents| + 1 && x.consentId.Some?
                        && IsFor(s'.consents[|s.consents|], id, x.studentUserId, x.consentId.value))))
  {
    hide Writes;
    hide Activates;
    if id in EnrollmentsAfter(host, s, e, now) { EnrollmentsTouched(host, s, e, now, id); }
    hide EnrollmentsAfter;
  }

  /** A waiting request either waited before, or began in this step with a live enrolment; for a photo
      the enrolment carries a consent. */
  lemma TasksTouched(host: Host, s: System, e: Event, now: int, t: nat)
    requires EnrollmentsOk(s) && Enabled(s, e, now)
    requires var tasks := Next(host, s, e, now).tasks; t in tasks && !tasks[t].Finished?
    ensures var s' := Next(host, s, e, now);
            || (t in s.tasks && s'.tasks[t] == s.tasks[t])
            || (var id := s'.tasks[t].id;
                LiveEnrollment(s.enrollments, id, now).Some? && s'.records[id] == s.records[id] == s.enrollments[id]
                && (s'.tasks[t].AwaitPhoto? ==> s.records[id].consentId.Some?))
  {
    hide Writes;
    hide Activates;
  }

  lemma EnrollmentsStep(host: Host, s: System, e: Event, now: int)
    requires EnrollmentsOk(s) && Enabled(s, e, now)
    ensures EnrollmentsOk(Next(host, s, e, now))
  {
    var s' := Next(host, s, e, now);
    LogsGrow(host, s, e, now);
    forall id | id in s'.records ensures RecordOk(s', id, s'.records[id]) {
      RecordsTouched(host, s, e, now, id);
      if id in s.records { assert RecordOk(s, id, s.records[id]); }
      assert |s'.consents| == |s.consents| + 1 ==> s'.consents[|s.consents|] in s'.consents;
    }
    assert forall id :: id in s'.enrollments ==> id in s'.records && s'.records[id] == s'.enrollments[id];
    hide Next;
    forall t | t in s'.tasks && !s'.tasks[t].Finished?
      ensures s'.tasks[t].id in s'.records
      ensures s'.tasks[t].AwaitPhoto? ==> s'.records[s'.tasks[t].id].consentId.Some?
    {
      TasksTouched(host, s, e, now, t);
      RecordsTouched(host, s, e, now, s'.tasks[t].id);
    }
  }

  /** Every write is valid, and stores no template without a recorded consent of its user. */
  lemma NewWritesOk(host: Host, s: System, e: Event, now: int, w: FaceHistory.Event)
    requires EnrollmentsOk(s) && Enabled(s, e, now) && w in Writes(host, s, e, now)
    ensures WriteOk(s, w)
  {
    hide AverageEmbedding;
    match e
    case RevocationsPulled(revocations) => RevocationsStoreNothing(revocations, w);
    case ConsentsPulled(records) => ConsentsStoreNoTemplate(records, now, w);
    case EndPhoto(t, _, _, _) => assert RecordOk(s, s.tasks[t].id, s.records[s.tasks[t].id]);
    case Commit(id, _) => assert id in s.enrollments ==> RecordOk(s, id, s.records[id]);
    case Approve(_, _, _, enrollId) =>
      if enrollId.Some? && enrollId.value in s.enrollments {
        assert RecordOk(s, enrollId.value, s.records[enrollId.value]);
      }
    case _ =>
  }

  lemma {:induction false} RevocationsStoreNothing(rs: seq<RawRevocation>, w: FaceHistory.Event)
    requires w in RevocationEvents(rs)
    ensures w.Purged?
  {
    if w !in RevocationEvents(rs[..|rs| - 1]) {
    } else {
      RevocationsStoreNothing(rs[..|rs| - 1], w);
    }
  }

  lemma {:induction false} ConsentsStoreNoTemplate(rs: seq<RawConsent>, now: int, w: FaceHistory.Event)
    requires w in ConsentEvents(rs, now)
    ensures Valid(w) && (w.ConsentCopied? || w.Purged?)
  {
    if w in ConsentEvents(rs[..|rs| - 1], now) { ConsentsStoreNoTemplate(rs[..|rs| - 1], now, w); }
  }

  lemma WritesStep(host: Host, s: System, e: Event, now: int)
    requires EnrollmentsOk(s) && WritesOk(s) && Enabled(s, e, now)
    ensures WritesOk(Next(host, s, e, now))
  {
    var s' := Next(host, s, e, now);
    var writes := Writes(host, s, e, now);
    LogsGrow(host, s, e, now);
    ReplayInParts(EMPTY, s.history, writes);
    hide Replay;
    hide Writes;
    hide Valid;
    forall k | 0 <= k < |s'.history| ensures WriteOk(s', s'.history[k]) {
      var w := s'.history[k];
      if |s.history| <= k { NewWritesOk(host, s, e, now, w); }
      assert WriteOk(s, w);
      if w.PhotoTaken? || w.Enrolled? {
        var id :| WasRecorded(s, id, w.user, w.template.consentId);
        assert WasRecorded(s', id, w.user, w.template.consentId);
      }
    }
  }

  /** A template from shots is written exactly when a live enrolment is used up for it, of the same
      student, with at least six shots. */
  lemma ActivationsTouched(host: Host, s: System, e: Event, now: int)
    requires EnrollmentsOk(s) && Enabled(s, e, now)
    ensures var writes, active := Writes(host, s, e, now), Activates(host, s, e, now);
            if active.Some? then
              && active.value in s.enrollments && active.value !in EnrollmentsAfter(host, s, e, now)
              && SHOTS_REQUIRED <= |s.enrollments[active.value].embeddings|
              && |writes| == 1 && writes[0].Enrolled? && writes[0].user == s.enrollments[active.value].studentUserId
            else forall w :: w in writes ==> !w.Enrolled?
  {
    hide FromShots;
    hide FromPhoto;
    match e
    case RevocationsPulled(revocations) =>
      forall w | w in RevocationEvents(revocations) ensures w.Purged? { RevocationsStoreNothing(revocations, w); }
    case ConsentsPulled(records) =>
      forall w | w in ConsentEvents(records, now) ensures !w.Enrolled? { ConsentsStoreNoTemplate(records, now, w); }
    case _ =>
  }

  /** An enrolment that was used up stays gone. */
  lemma UsedUpStaysGone(host: Host, s: System, e: Event, now: int, id: string)
    requires Enabled(s, e, now) && id in s.records && id !in s.enrollments
    ensures id !in Next(host, s, e, now).enrollments
  {
    if id in EnrollmentsAfter(host, s, e, now) { EnrollmentsTouched(host, s, e, now, id); }
  }

  lemma ActivationsAddUp(host: Host, s: System, e: Event, now: int)
    requires Inv(s) && Enabled(s, e, now)
    ensures var s' := Next(host, s, e, now);
            || s'.activations == s.activations
            || (|s'.history| == |s.history| + 1 && |s'.activations| == |s.activations| + 1
                && var a := s'.activations[|s.activations|];
                   && a.at == |s.history| && s'.history[a.at].Enrolled? && SHOTS_REQUIRED <= a.shots
                   && a.enrollId in s.enrollments && a.enrollId !in s'.enrollments
                   && s'.history[a.at].user == s.enrollments[a.enrollId].studentUserId)
  {
    ActivationsTouched(host, s, e, now);
    hide Writes;
    hide EnrollmentsAfter;
    hide Activates;
    hide WritesOk;
    hide ActivationsOk;
  }

  lemma ShotsAreActivated(host: Host, s: System, e: Event, now: int, k: nat)
    requires Inv(s) && Enabled(s, e, now)
    requires var h := Next(host, s, e, now).history; k < |h| && h[k].Enrolled?
    ensures ActivatedAt(Next(host, s, e, now), k)
  {
    var s' := Next(host, s, e, now);
    LogsGrow(host, s, e, now);
    ActivationsTouched(host, s, e, now);
    hide Writes;
    hide EnrollmentsAfter;
    hide Activates;
    hide WritesOk;
    if k < |s.history| {
      assert ActivatedAt(s, k);
      var a :| a in s.activations && a.at == k;
      assert a in s'.activations;
    } else {
      assert s'.history[k] in Writes(host, s, e, now);
      assert s'.activations[|s.activations|] in s'.activations;
    }
  }

  lemma ActivationStays(host: Host, s: System, e: Event, now: int, a: Activation)
    requires EnrollmentsOk(s) && Enabled(s, e, now) && ActivationOk(s, a)
    ensures ActivationOk(Next(host, s, e, now), a)
  {
    LogsGrow(host, s, e, now);
    UsedUpStaysGone(host, s, e, now, a.enrollId);
    RecordsTouched(host, s, e, now, a.enrollId);
    hide Next;
  }

  lemma ActivationsStep(host: Host, s: System, e: Event, now: int)
    requires Inv(s) && Enabled(s, e, now)
    ensures ActivationsOk(Next(host, s, e, now))
  {
    var s' := Next(host, s, e, now);
    LogsGrow(host, s, e, now);
    ActivationsAddUp(host, s, e, now);
    forall k | 0 <= k < |s'.history| && s'.history[k].Enrolled? ensures ActivatedAt(s', k) {
      ShotsAreActivated(host, s, e, now, k);
    }
    forall a | a in s.activations ensures ActivationOk(s', a) { ActivationStays(host, s, e, now, a); }
    forall i | 0 <= i < |s.activations|
      ensures s.activations[i].enrollId !in s.enrollments && s.activations[i].at < |s.history|
    {
      assert ActivationOk(s, s.activations[i]);
    }
    if s'.activations != s.activations {
      var a := s'.activations[|s.activations|];
      RecordsTouched(host, s, e, now, a.enrollId);
      assert ActivationOk(s', a);
    }
    hide Next;
    hide ActivatedAt;
    hide ActivationOk;
    hide WritesOk;
    hide EnrollmentsOk;
  }

  lemma StepKeepsInv(host: Host, s: System, e: Event, now: int)
    requires Inv(s) && Enabled(s, e, now)
    ensures Inv(Next(host, s, e, now))
  {
    hide Next;
    EnrollmentsStep(host, s, e, now);
    WritesStep(host, s, e, now);
    ActivationsStep(host, s, e, now);
  }

  // ---------- every run ----------

  ghost predicate Moves(host: Host, s: System, e: Event, now: int, s': System) {
    Enabled(s, e, now) && s' == Next(host, s, e, now)
  }

  ghost predicate IsRun(host: Host, ss: seq<System>, es: seq<Event>, ts: seq<int>) {
    && |ss| == |es| + 1 == |ts| + 1
    && Init(ss[0])
    && forall i :: 0 <= i < |es| ==> Moves(host, ss[i], es[i], ts[i], ss[i + 1])
  }

  lemma {:induction false} ReachableInv(host: Host, ss: seq<System>, es: seq<Event>, ts: seq<int>, i: nat)
    requires IsRun(host, ss, es, ts) && i < |ss|
    ensures Inv(ss[i])
  {
    hide Next;
    if 0 < i {
      ReachableInv(host, ss, es, ts, i - 1);
      assert Moves(host, ss[i - 1], es[i - 1], ts[i - 1], ss[i]);
      StepKeepsInv(host, ss[i - 1], es[i - 1], ts[i - 1]);
    }
  }

  /** In every run the tables are what the history of writes says, and a user is recognised exactly when
      that history allows it. */
  lemma RecognisedInEveryRun(host: Host, ss: seq<System>, es: seq<Event>, ts: seq<int>, i: nat,
                             open: Sealed -> Option<Vector>, modelId: string, now: int, u: string)
    requires IsRun(host, ss, es, ts) && i < |ss|
    ensures ss[i].tables == Replay(EMPTY, ss[i].history) && AllValid(ss[i].history)
    ensures InRoster(ss[i].tables, open, modelId, now, u) <==> MayBeRecognised(ss[i].history, open, modelId, now, u)
  {
    ReachableInv(host, ss, es, ts, i);
    forall k | 0 <= k < |ss[i].history| ensures Valid(ss[i].history[k]) { assert WriteOk(ss[i], ss[i].history[k]); }
    RecognisedIff(ss[i].history, open, modelId, now, u);
  }

  /** An enrolment yields at most one active template, and is gone after it. */
  lemma EnrolmentActivatesOnce(host: Host, ss: seq<System>, es: seq<Event>, ts: seq<int>, i: nat, a: nat, b: nat)
    requires IsRun(host, ss, es, ts) && i < |ss| && a < b < |ss[i].activations|
    ensures ss[i].activations[a].enrollId != ss[i].activations[b].enrollId
    ensures ss[i].activations[a].enrollId !in ss[i].enrollments
  {
    ReachableInv(host, ss, es, ts, i);
    assert ss[i].activations[a] in ss[i].activations;
  }

  /** Every active template that was written came from an enrolment of its user with at least six shots,
      and carries a consent recorded for that user. */
  lemma ActiveTemplateHasEvidence(host: Host, ss: seq<System>, es: seq<Event>, ts: seq<int>, i: nat, k: nat)
    requires IsRun(host, ss, es, ts) && i < |ss| && k < |ss[i].history| && ss[i].history[k].Enrolled?
    ensures exists a :: a in ss[i].activations && a.at == k && SHOTS_REQUIRED <= a.shots
                        && a.enrollId in ss[i].records
                        && ss[i].records[a.enrollId].studentUserId == ss[i].history[k].user
    ensures exists id :: WasRecorded(ss[i], id, ss[i].history[k].user, ss[i].history[k].template.consentId)
  {
    ReachableInv(host, ss, es, ts, i);
    assert ActivatedAt(ss[i], k) && WriteOk(ss[i], ss[i].history[k]);
    var a :| a in ss[i].activations && a.at == k;
    assert ss[i].history[a.at].user == ss[i].records[a.enrollId].studentUserId;
  }

  /** Whatever is stored, by photo or by shots and promoted or not, a template carries a consent that was
      recorded for an enrolment of its user. */
  lemma StoredTemplateHasConsent(host: Host, ss: seq<System>, es: seq<Event>, ts: seq<int>, i: nat, u: string)
    requires IsRun(host, ss, es, ts) && i < |ss| && u in ss[i].tables.templates
    ensures exists id :: WasRecorded(ss[i], id, u, ss[i].tables.templates[u].consentId)
  {
    RecognisedInEveryRun(host, ss, es, ts, i, x => None, "", 0, u);
    ReachableInv(host, ss, es, ts, i);
    var k := StoredWhenPresent(ss[i].history, u);
    TemplateIsTheLastStored(ss[i].history, u, k);
    assert WriteOk(ss[i], ss[i].history[k]);
    var id :| WasRecorded(ss[i], id, u, ss[i].history[k].template.consentId);
    assert WasRecorded(ss[i], id, u, ss[i].tables.templates[u].consentId);
  }

  /** A deletion does not end an enrolment in progress.  In every run, if the registration of a student is
      deleted while their consented enrolment with enough shots is live, the commit that follows succeeds:
      the student is recognised, exactly until a year after the commit, though no consent of theirs is
      stored any more. */
  lemma DeletionThenCommit(host: Host, ss: seq<System>, es: seq<Event>, ts: seq<int>, i: nat,
                           open: Sealed -> Option<Vector>, id: string, now: int)
    requires IsRun(host, ss, es, ts) && i + 1 < |es|
    requires var e := LiveEnrollment(ss[i].enrollments, id, ts[i + 1]);
             && e.Some? && e.value.consentId.Some? && e.value.consentId != Some("")
             && es[i] == Delete(e.value.studentUserId) && es[i + 1] == Commit(id, e.value.staffUserId)
             && var embedding := AverageEmbedding(host, e.value.embeddings);
                embedding.Some? && open(host.sealing(embedding.value)).Some?
    ensures var u := ss[i].enrollments[id].studentUserId;
            && (InRoster(ss[i + 2].tables, open, host.modelId, now, u) <==> now <= ts[i + 1] + CONSENT_MAX_AGE_MS)
            && u !in ss[i + 2].tables.consents
  {
    ReachableInv(host, ss, es, ts, i);
    assert Moves(host, ss[i], es[i], ts[i], ss[i + 1]);
    assert Moves(host, ss[i + 1], es[i + 1], ts[i + 1], ss[i + 2]);
    var e := ss[i].enrollments[id];
    var u := e.studentUserId;
    var template := FromShots(host, e, AverageEmbedding(host, e.embeddings).value, e.staffUserId, ts[i + 1]);
    assert ss[i + 2].history == ss[i].history + [Purged(u), Enrolled(u, template)];
    RecognisedInEveryRun(host, ss, es, ts, i, open, host.modelId, now, u);
    RecognisedInEveryRun(host, ss, es, ts, i + 2, open, host.modelId, now, u);
    EnrolledAfterDeletion(ss[i].history, template, open, now, u);
    NoConsentAfterDeletion(ss[i].history, u, template);
  }

  lemma NoConsentAfterDeletion(before: seq<FaceHistory.Event>, u: string, template: Template)
    ensures u !in Replay(EMPTY, before + [Purged(u), Enrolled(u, template)]).consents
  {
    var es := before + [Purged(u), Enrolled(u, template)];
    assert es[..|es| - 1] == before + [Purged(u)];
    assert (before + [Purged(u)])[..|before|] == before;
  }
}
