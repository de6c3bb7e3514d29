/** When the deletion of a registration holds: what requests under way may still store. */
module FaceDeletion {
  import opened Common
  import opened FaceMatcher
  import opened FaceTables
  import opened FaceHistory
  import opened FaceReview
  import opened RevocationSync
  import opened FaceProtocol

  type Event = FaceProtocol.Event

  /** Nothing under way can store a template of `u` on a consent given before: no live enrolment of `u`
      carries one, and no photo of `u` is waiting for its extraction. */
  ghost predicate NothingUnderWay(s: System, u: string, now: int) {
    && (forall id :: LiveEnrollment(s.enrollments, id, now).Some? && s.enrollments[id].studentUserId == u ==>
          s.enrollments[id].consentId.None?)
    && (forall t :: !WaitsFor(s, t, u))
  }

  /** Request `t` is a photo of `u` that waits for its extraction. */
  predicate WaitsFor(s: System, t: nat, u: string) {
    t in s.tasks && s.tasks[t].AwaitPhoto? && s.tasks[t].id in s.records && s.records[s.tasks[t].id].studentUserId == u
  }

  /** The consent was recorded for `u` as number `c0` or later. */
  ghost predicate IsFresh(s: System, u: string, c0: nat, consentId: Option<string>) {
    && consentId.Some?
    && exists k :: c0 <= k < |s.consents| && s.consents[k].user == u && s.consents[k].consentId == consentId.value
  }

  /** Every template of `u` written as number `h0` or later carries a consent recorded as `c0` or later. */
  ghost predicate StoresFreshOnly(s: System, u: string, h0: nat, c0: nat) {
    forall k :: h0 <= k < |s.history| && Stores(s.history[k], u) ==> IsFresh(s, u, c0, s.history[k].template.consentId)
  }

  /** If the record is of `u` and carries a consent, it is a fresh one. */
  ghost predicate RecordFresh(s: System, u: string, c0: nat, e: Enrollment) {
    e.studentUserId == u && e.consentId.Some? ==> IsFresh(s, u, c0, e.consentId)
  }

  ghost predicate FreshOnly(s: System, u: string, h0: nat, c0: nat) {
    && StoresFreshOnly(s, u, h0, c0) && c0 <= |s.consents| && h0 <= |s.history|
    && (forall id :: id in s.enrollments && s.clock < s.enrollments[id].expiresAt ==>
          RecordFresh(s, u, c0, s.enrollments[id]))
    && (forall t :: t in s.tasks && s.tasks[t].AwaitPhoto? && s.tasks[t].id in s.records ==>
          RecordFresh(s, u, c0, s.records[s.tasks[t].id]))
  }

  lemma StaysFresh(host: Host, s: System, e: Event, now: int, u: string, c0: nat, consentId: Option<string>)
    requires Enabled(s, e, now) && IsFresh(s, u, c0, consentId)
    ensures IsFresh(Next(host, s, e, now), u, c0, consentId)
  {
    LogsGrow(host, s, e, now);
    var s' := Next(host, s, e, now);
    hide Next;
    var k :| c0 <= k < |s.consents| && s.consents[k].user == u && s.consents[k].consentId == consentId.value;
    assert s'.consents[k] == s.consents[k];
  }

  /** A template is written from a live enrolment, or from the record of a photo that waited. */
  lemma WriteComesFrom(host: Host, s: System, e: Event, now: int, w: FaceHistory.Event, u: string)
    requires EnrollmentsOk(s) && Enabled(s, e, now) && w in Writes(host, s, e, now) && Stores(w, u)
    ensures exists id :: id in s.records && s.records[id].studentUserId == u
              && s.records[id].consentId == w.template.consentId && w.template.consentId.Some?
              && (LiveEnrollment(s.enrollments, id, now).Some? || (e.EndPhoto? && s.tasks[e.task].id == id))
  {
    hide AverageEmbedding;
    match e
    case RevocationsPulled(revocations) => RevocationsStoreNothing(revocations, w);
    case ConsentsPulled(records) => ConsentsStoreNoTemplate(records, now, w);
    case EndPhoto(t, _, _, _) => assert s.tasks[t].id in s.records;
    case Commit(id, _) => assert id in s.records;
    case Approve(_, _, _, enrollId) => assert enrollId.Some? && enrollId.value in s.records;
    case _ =>
  }

  lemma NewTemplatesAreFresh(host: Host, s: System, e: Event, now: int, u: string, h0: nat, c0: nat)
    requires EnrollmentsOk(s) && FreshOnly(s, u, h0, c0) && Enabled(s, e, now)
    ensures StoresFreshOnly(Next(host, s, e, now), u, h0, c0)
  {
    var s' := Next(host, s, e, now);
    LogsGrow(host, s, e, now);
    forall k | h0 <= k < |s'.history| && Stores(s'.history[k], u)
      ensures IsFresh(s', u, c0, s'.history[k].template.consentId)
    {
      var w := s'.history[k];
      if |s.history| <= k {
        hide Writes;
        assert w in Writes(host, s, e, now);
        WriteComesFrom(host, s, e, now, w, u);
      }
      assert IsFresh(s, u, c0, w.template.consentId);
      StaysFresh(host, s, e, now, u, c0, w.template.consentId);
    }
  }

  lemma FreshOnlyStep(host: Host, s: System, e: Event, now: int, u: string, h0: nat, c0: nat)
    requires EnrollmentsOk(s) && FreshOnly(s, u, h0, c0) && Enabled(s, e, now)
    ensures FreshOnly(Next(host, s, e, now), u, h0, c0)
  {
    var s' := Next(host, s, e, now);
    LogsGrow(host, s, e, now);
    NewTemplatesAreFresh(host, s, e, now, u, h0, c0);
    EnrollmentsStep(host, s, e, now);
    assert s'.enrollments == EnrollmentsAfter(host, s, e, now) && s'.clock == now;
    hide Next;
    hide EnrollmentsAfter;
    hide Writes;
    hide RecordFresh;
    hide StoresFreshOnly;
    forall id | id in s'.enrollments && now < s'.enrollments[id].expiresAt
      ensures RecordFresh(s', u, c0, s'.enrollments[id])
    {
      EnrollmentsTouched(host, s, e, now, id);
      RecordStaysFresh(host, s, e, now, u, c0, id);
    }
    forall t | t in s'.tasks && s'.tasks[t].AwaitPhoto? && s'.tasks[t].id in s'.records
      ensures RecordFresh(s', u, c0, s'.records[s'.tasks[t].id])
    {
      TasksTouched(host, s, e, now, t);
      RecordStaysFresh(host, s, e, now, u, c0, s'.tasks[t].id);
    }
  }

  lemma RecordStaysFresh(host: Host, s: System, e: Event, now: int, u: string, c0: nat, id: string)
    requires EnrollmentsOk(s) && Enabled(s, e, now) && c0 <= |s.consents| && id in Next(host, s, e, now).records
    requires id in s.records ==> RecordFresh(s, u, c0, s.records[id])
    ensures RecordFresh(Next(host, s, e, now), u, c0, Next(host, s, e, now).records[id])
  {
    RecordsTouched(host, s, e, now, id);
    var s' := Next(host, s, e, now);
    hide Next;
    var x := s'.records[id];
    if id in s.records && x.consentId == s.records[id].consentId && IsFresh(s, u, c0, x.consentId) {
      StaysFresh(host, s, e, now, u, c0, x.consentId);
    }
  }

  /** A deletion touches the tables only. */
  lemma DeletionTouches(host: Host, s: System, u: string, now: int)
    requires EnrollmentsOk(s) && Enabled(s, Delete(u), now)
    ensures var s' := Next(host, s, Delete(u), now);
            && s'.enrollments == s.enrollments && s'.tasks == s.tasks && s'.records == s.records
            && s'.consents == s.consents && s'.history == s.history + [Purged(u)] && s'.clock == now
            && s'.tables == Purge(s.tables, u)
  {
    assert s.records + s.enrollments == s.records;
    assert Replay(s.tables, [Purged(u)]) == Apply(Replay(s.tables, []), Purged(u));
  }

  lemma DeletionStartsFresh(host: Host, s: System, u: string, now: int)
    requires EnrollmentsOk(s) && Enabled(s, Delete(u), now) && NothingUnderWay(s, u, now)
    ensures FreshOnly(Next(host, s, Delete(u), now), u, |s.history|, |s.consents|)
  {
    DeletionTouches(host, s, u, now);
    hide Next;
    var s' := Next(host, s, Delete(u), now);
    forall t | t in s'.tasks && s'.tasks[t].AwaitPhoto? && s'.tasks[t].id in s'.records
      ensures RecordFresh(s', u, |s.consents|, s'.records[s'.tasks[t].id])
    {
      assert !WaitsFor(s, t, u);
    }
  }

  lemma {:induction false} FreshThroughout(host: Host, ss: seq<System>, es: seq<Event>, ts: seq<int>, i: nat, j: nat,
                                           u: string)
    requires IsRun(host, ss, es, ts) && i < |es| && es[i] == Delete(u) && i < j < |ss|
    requires NothingUnderWay(ss[i], u, ts[i])
    ensures FreshOnly(ss[j], u, |ss[i].history|, |ss[i].consents|)
  {
    hide Next;
    assert Moves(host, ss[j - 1], es[j - 1], ts[j - 1], ss[j]);
    if j == i + 1 {
      ReachableInv(host, ss, es, ts, i);
      DeletionStartsFresh(host, ss[i], u, ts[i]);
    } else {
      FreshThroughout(host, ss, es, ts, i, j - 1, u);
      ReachableInv(host, ss, es, ts, j - 1);
      FreshOnlyStep(host, ss[j - 1], es[j - 1], ts[j - 1], u, |ss[i].history|, |ss[i].consents|);
    }
  }

  /** A deletion with nothing under way holds: whatever template of the user is stored after it carries a
      consent that was recorded for them after it. */
  lemma DeletionHolds(host: Host, ss: seq<System>, es: seq<Event>, ts: seq<int>, i: nat, j: nat, u: string)
    requires IsRun(host, ss, es, ts) && i < |es| && es[i] == Delete(u) && i < j < |ss|
    requires NothingUnderWay(ss[i], u, ts[i])
    ensures StoresFreshOnly(ss[j], u, |ss[i].history|, |ss[i].consents|)
    ensures u in ss[j].tables.templates ==>
              IsFresh(ss[j], u, |ss[i].consents|, ss[j].tables.templates[u].consentId)
  {
    FreshThroughout(host, ss, es, ts, i, j, u);
    if u in ss[j].tables.templates { StoredSinceDeletion(host, ss, es, ts, i, j, u); }
  }

  /** A template found after a deletion was written after it. */
  lemma StoredSinceDeletion(host: Host, ss: seq<System>, es: seq<Event>, ts: seq<int>, i: nat, j: nat, u: string)
    requires IsRun(host, ss, es, ts) && i < |es| && es[i] == Delete(u) && i < j < |ss| && u in ss[j].tables.templates
    ensures exists k :: |ss[i].history| <= k < |ss[j].history| && Stores(ss[j].history[k], u)
              && ss[j].history[k].template.consentId == ss[j].tables.templates[u].consentId
  {
    RecognisedInEveryRun(host, ss, es, ts, j, x => None, "", 0, u);
    var h := ss[j].history;
    var k := StoredWhenPresent(h, u);
    TemplateIsTheLastStored(h, u, k);
    assert Moves(host, ss[i], es[i], ts[i], ss[i + 1]);
    assert ss[i + 1].history[|ss[i].history|] == Purged(u);
    HistoryGrows(host, ss, es, ts, i + 1, j);
    assert h[|ss[i].history|] == Purged(u);
  }

  lemma {:induction false} HistoryGrows(host: Host, ss: seq<System>, es: seq<Event>, ts: seq<int>, i: nat, j: nat)
    requires IsRun(host, ss, es, ts) && i <= j < |ss|
    ensures ss[i].history <= ss[j].history
  {
    if i < j {
      HistoryGrows(host, ss, es, ts, i, j - 1);
      assert Moves(host, ss[j - 1], es[j - 1], ts[j - 1], ss[j]);
      LogsGrow(host, ss[j - 1], es[j - 1], ts[j - 1]);
    }
  }

  // ---------- otherwise it need not hold ----------

  /** A run and one more step. */
  lemma OneMore(host: Host, ss: seq<System>, es: seq<Event>, ts: seq<int>, e: Event, now: int)
    requires IsRun(host, ss, es, ts) && Enabled(ss[|es|], e, now)
    ensures IsRun(host, ss + [Next(host, ss[|es|], e, now)], es + [e], ts + [now])
  {
    hide Next;
    var ss', es', ts' := ss + [Next(host, ss[|es|], e, now)], es + [e], ts + [now];
    forall i | 0 <= i < |es'| ensures Moves(host, ss'[i], es'[i], ts'[i], ss'[i + 1]) {
      if i < |es| { assert Moves(host, ss[i], es[i], ts[i], ss[i + 1]); }
    }
  }

  lemma {:induction false} UnusedTask(tasks: set<nat>) returns (t: nat)
    ensures forall x :: x in tasks ==> x < t
  {
    t := 0;
    if tasks != {} {
      var x :| x in tasks;
      var y := UnusedTask(tasks - {x});
      t := if x < y then y else x + 1;
      forall z | z in tasks ensures z < t { assert z == x || z in tasks - {x}; }
    }
  }

  /** The run `es'` goes on from `es` without any further consent, and ends with an active template of `u`
      and no stored consent. */
  ghost predicate EndsActive(host: Host, es: seq<Event>, ts: seq<int>, consents: nat, u: string,
                             ss': seq<System>, es': seq<Event>, ts': seq<int>)
  {
    && IsRun(host, ss', es', ts') && es <= es' && ts <= ts'
    && var last := ss'[|es'|];
       && u in last.tables.templates && last.tables.templates[u].state.Active?
       && u !in last.tables.consents && |last.consents| == consents
  }

  /** A photo that waited through the deletion is stored, and can then be promoted. */
  lemma WaitingPhotoIsStored(host: Host, ss: seq<System>, es: seq<Event>, ts: seq<int>, u: string, t: nat,
                             v: Vector, upload: Upload) returns (ss': seq<System>, es': seq<Event>, ts': seq<int>)
    requires IsRun(host, ss, es, ts) && u !in ss[|es|].tables.consents
    requires WaitsFor(ss[|es|], t, u)
    ensures EndsActive(host, es, ts, |ss[|es|].consents|, u, ss', es', ts')
  {
    var s, now := ss[|es|], ss[|es|].clock;
    var end, approve := EndPhoto(t, Some(v), true, upload), Approve(u, PromotePhoto, "", None);
    OneMore(host, ss, es, ts, end, now);
    var s1 := Next(host, s, end, now);
    assert Replay(s.tables, Writes(host, s, end, now)) == Apply(s.tables, Writes(host, s, end, now)[0]);
    assert u in s1.tables.templates && u !in s1.tables.consents && s1.consents == s.consents;
    OneMore(host, ss + [s1], es + [end], ts + [now], approve, now);
    var s2 := Next(host, s1, approve, now);
    assert Replay(s1.tables, Writes(host, s1, approve, now)) == Apply(s1.tables, Promoted(u));
    ss', es', ts' := ss + [s1] + [s2], es + [end] + [approve], ts + [now] + [now];
  }

  /** A live, consented enrolment can still begin a photo. */
  lemma EnrollmentStoresAPhoto(host: Host, ss: seq<System>, es: seq<Event>, ts: seq<int>, u: string, id: string,
                               v: Vector, upload: Upload)
    returns (ss': seq<System>, es': seq<Event>, ts': seq<int>)
    requires IsRun(host, ss, es, ts) && u !in ss[|es|].tables.consents
    requires LiveEnrollment(ss[|es|].enrollments, id, ss[|es|].clock).Some?
    requires ss[|es|].enrollments[id].studentUserId == u && IsSet(ss[|es|].enrollments[id].consentId)
    ensures EndsActive(host, es, ts, |ss[|es|].consents|, u, ss', es', ts')
  {
    var s, now := ss[|es|], ss[|es|].clock;
    var t := UnusedTask(s.tasks.Keys);
    var begin := BeginPhoto(t, id, s.enrollments[id].staffUserId);
    OneMore(host, ss, es, ts, begin, now);
    var s1 := Next(host, s, begin, now);
    assert s1.tables == s.tables && s1.consents == s.consents && s1.tasks[t] == AwaitPhoto(id);
    assert s1.records[id] == s.enrollments[id];
    hide Next;
    assert WaitsFor(s1, t, u);
    ss', es', ts' := WaitingPhotoIsStored(host, ss + [s1], es + [begin], ts + [now], u, t, v, upload);
    assert es <= es' && ts <= ts';
  }

  /** The condition is exact: if something was under way, the run that ends with the deletion goes on to an
      active template of the user, with no consent given after the deletion and none stored. */
  lemma DeletionFailsOtherwise(host: Host, ss: seq<System>, es: seq<Event>, ts: seq<int>, i: nat, u: string,
                               v: Vector, upload: Upload)
    returns (ss': seq<System>, es': seq<Event>, ts': seq<int>)
    requires IsRun(host, ss, es, ts) && |es| == i + 1 && es[i] == Delete(u) && !NothingUnderWay(ss[i], u, ts[i])
    ensures EndsActive(host, es, ts, |ss[i].consents|, u, ss', es', ts')
  {
    assert Moves(host, ss[i], es[i], ts[i], ss[i + 1]);
    ReachableInv(host, ss, es, ts, i);
    DeletionTouches(host, ss[i], u, ts[i]);
    hide Next;
    if t :| WaitsFor(ss[i], t, u) {
      assert WaitsFor(ss[i + 1], t, u);
      ss', es', ts' := WaitingPhotoIsStored(host, ss, es, ts, u, t, v, upload);
    } else {
      var id :| LiveEnrollment(ss[i].enrollments, id, ts[i]).Some? && ss[i].enrollments[id].studentUserId == u
                && ss[i].enrollments[id].consentId.Some?;
      ConsentIsSet(host, ss, es, ts, i, id);
      ss', es', ts' := EnrollmentStoresAPhoto(host, ss, es, ts, u, id, v, upload);
    }
  }

  /** A consent that an enrolment carries is not the empty text. */
  lemma {:induction false} ConsentIsSet(host: Host, ss: seq<System>, es: seq<Event>, ts: seq<int>, i: nat, id: string)
    requires IsRun(host, ss, es, ts) && i < |ss| && id in ss[i].enrollments
    ensures ss[i].enrollments[id].consentId != Some("")
  {
    if 0 < i {
      var s, e, now := ss[i - 1], es[i - 1], ts[i - 1];
      assert Moves(host, s, e, now, ss[i]);
      assert ss[i].enrollments == EnrollmentsAfter(host, s, e, now);
      if id in s.enrollments { ConsentIsSet(host, ss, es, ts, i - 1, id); }
      EnrollmentsTouched(host, s, e, now, id);
    }
  }

  // ---------- the step after a deletion ----------

  /** The guard under which a step stores a template of `u`. */
  ghost predicate StoresFor(host: Host, s: System, e: Event, now: int, u: string)
    requires Enabled(s, e, now)
  {
    match e
    case Commit(id, actor) =>
      var x := LiveEnrollment(s.enrollments, id, now);
      x.Some? && x.value.studentUserId == u && x.value.staffUserId == actor && IsSet(x.value.consentId)
      && AverageEmbedding(host, x.value.embeddings).Some?
    case Approve(user, mode, _, enrollId) =>
      mode.Reenroll? && user == u && IsSet(enrollId)
      && var x := LiveEnrollment(s.enrollments, enrollId.value, now);
         x.Some? && x.value.studentUserId == u && IsSet(x.value.consentId)
         && AverageEmbedding(host, x.value.embeddings).Some?
    case EndPhoto(t, embedding, _, _) => s.records[s.tasks[t].id].studentUserId == u && embedding.Some?
    case _ => false
  }

  /** Right after a deletion the user has a template again exactly if the next step is the commit or
      re-enrolment of a live, consented enrolment of theirs with enough shots, by whom it may be done, or
      the end of a photo of theirs that shows a face. */
  lemma StoredRightAfterIff(host: Host, ss: seq<System>, es: seq<Event>, ts: seq<int>, i: nat, u: string)
    requires IsRun(host, ss, es, ts) && i + 1 < |es| && es[i] == Delete(u)
    ensures Enabled(ss[i + 1], es[i + 1], ts[i + 1])
    ensures u in ss[i + 2].tables.templates <==> StoresFor(host, ss[i + 1], es[i + 1], ts[i + 1], u)
  {
    assert Moves(host, ss[i], es[i], ts[i], ss[i + 1]) && Moves(host, ss[i + 1], es[i + 1], ts[i + 1], ss[i + 2]);
    var s, e, now := ss[i + 1], es[i + 1], ts[i + 1];
    assert u !in s.tables.templates;
    StoresForWrites(host, s, e, now, u);
    var writes := Writes(host, s, e, now);
    if StoresFor(host, s, e, now, u) {
      assert Replay(s.tables, writes) == Apply(s.tables, writes[0]);
    } else if u in Replay(s.tables, writes).templates {
      NewTemplateWasWritten(s.tables, writes, u);
    }
  }

  lemma StoresForWrites(host: Host, s: System, e: Event, now: int, u: string)
    requires Enabled(s, e, now)
    ensures var writes := Writes(host, s, e, now);
            && (StoresFor(host, s, e, now, u) ==> |writes| == 1 && Stores(writes[0], u))
            && (!StoresFor(host, s, e, now, u) ==> forall w :: w in writes ==> !Stores(w, u))
  {
    hide AverageEmbedding;
    match e
    case RevocationsPulled(revocations) =>
      forall w | w in Writes(host, s, e, now) ensures w.Purged? { RevocationsStoreNothing(revocations, w); }
    case ConsentsPulled(records) =>
      forall w | w in Writes(host, s, e, now) ensures !Stores(w, u) { ConsentsStoreNoTemplate(records, now, w); }
    case _ =>
  }

  lemma {:induction false} NewTemplateWasWritten(t: Tables, writes: seq<FaceHistory.Event>, u: string)
    requires u !in t.templates && u in Replay(t, writes).templates
    ensures exists w :: w in writes && Stores(w, u)
  {
    if writes != [] {
      var n := |writes| - 1;
      if Stores(writes[n], u) {
        assert writes[n] in writes;
      } else {
        NewTemplateWasWritten(t, writes[..n], u);
        var w :| w in writes[..n] && Stores(w, u);
        assert w in writes;
      }
    }
  }

  // ---------- two runs ----------

  const CONSENTED: Enrollment := Enrollment("u", "staff", Some("c"), [], [], TTL_MS)

  /** Student "u" is enrolled and consents; nothing else is stored. */
  function ConsentedRun(): seq<System> {
    var asked, copied := CONSENTED.(consentId := None), Consent("c", "v", 7, None);
    [System(EMPTY, map[], map[], map[], [], [], [], 0),
     System(EMPTY, map["e" := asked], map[], map["e" := asked], [], [], [], 0),
     System(EMPTY, map["e" := asked], map[0 := AwaitConsent("e")], map["e" := asked], [], [], [], 0),
     System(Tables(map[], map[], map["u" := copied]), map["e" := CONSENTED], map[0 := Finished], map["e" := CONSENTED],
            [ConsentCopied("u", copied)], [Recorded("e", "u", "c", "v", 7)], [], 0)]
  }

  const CONSENTED_EVENTS: seq<Event> :=
    [StartEnrollment("e", "u", "staff"), BeginConsent(0, "e", "staff"), EndConsent(0, Some(Granted("c", "v", 7)))]

  lemma ConsentedStep(host: Host, i: nat)
    requires i < 3
    ensures Moves(host, ConsentedRun()[i], CONSENTED_EVENTS[i], 0, ConsentedRun()[i + 1])
  {
    var s, s', e := ConsentedRun()[i], ConsentedRun()[i + 1], CONSENTED_EVENTS[i];
    var writes := Writes(host, s, e, 0);
    assert Replay(s.tables, []) == s.tables;
    assert writes != [] ==> Replay(s.tables, writes) == Apply(Replay(s.tables, []), writes[0]);
    assert EnrollmentsAfter(host, s, e, 0) == s'.enrollments;
    assert s.records + s'.enrollments == s'.records;
    assert TasksAfter(s, e, 0) == s'.tasks;
  }

  lemma ConsentedIsRun(host: Host)
    ensures IsRun(host, ConsentedRun(), CONSENTED_EVENTS, [0, 0, 0])
  {
    hide Moves;
    forall i | 0 <= i < 3 ensures Moves(host, ConsentedRun()[i], CONSENTED_EVENTS[i], 0, ConsentedRun()[i + 1]) {
      ConsentedStep(host, i);
    }
  }

  /** A rejection is answered with pending_not_found and has deleted the consent. */
  lemma RefusedRejectionDeletes(host: Host) returns (ss: seq<System>)
    ensures IsRun(host, ss, CONSENTED_EVENTS + [Reject("u", "x")], [0, 0, 0, 0])
    ensures "u" in ss[3].tables.consents && "u" !in ss[4].tables.consents
    ensures Rejected(ss[3].tables, "u", "x").1 == Err(PendingNotFound)
  {
    ConsentedIsRun(host);
    var s, e := ConsentedRun()[3], Reject("u", "x");
    OneMore(host, ConsentedRun(), CONSENTED_EVENTS, [0, 0, 0], e, 0);
    assert Trim("x") == "x" && Utf16Length("x") == 1 by { assert "x"[1..] == ""; }
    assert Writes(host, s, e, 0) == [Purged("u")];
    assert Replay(s.tables, [Purged("u")]) == Purge(s.tables, "u");
    ss := ConsentedRun() + [Next(host, s, e, 0)];
    assert [0, 0, 0] + [0] == [0, 0, 0, 0];
  }

  /** A photo waits while the registration is deleted, is stored, and is promoted: the template is active,
      and no consent is stored. */
  lemma PhotoOutlivesDeletion(host: Host, v: Vector, upload: Upload) returns (ss: seq<System>, es: seq<Event>,
      ts: seq<int>)
    ensures IsRun(host, ss, es, ts) && CONSENTED_EVENTS + [BeginPhoto(1, "e", "staff"), Delete("u")] <= es
    ensures var last := ss[|es|].tables;
            "u" in last.templates && last.templates["u"].state.Active? && "u" !in last.consents
  {
    ConsentedIsRun(host);
    var s, begin := ConsentedRun()[3], BeginPhoto(1, "e", "staff");
    OneMore(host, ConsentedRun(), CONSENTED_EVENTS, [0, 0, 0], begin, 0);
    var s1 := Next(host, s, begin, 0);
    assert s1.tasks[1] == AwaitPhoto("e") && s1.records["e"] == CONSENTED;
    OneMore(host, ConsentedRun() + [s1], CONSENTED_EVENTS + [begin], [0, 0, 0] + [0], Delete("u"), 0);
    var s2 := Next(host, s1, Delete("u"), 0);
    assert Writes(host, s1, Delete("u"), 0) == [Purged("u")];
    assert Replay(s1.tables, [Purged("u")]) == Purge(s1.tables, "u");
    assert s2.tasks[1] == AwaitPhoto("e") && s2.records["e"] == CONSENTED;
    ss, es, ts := WaitingPhotoIsStored(host, ConsentedRun() + [s1] + [s2], CONSENTED_EVENTS + [begin] + [Delete("u")],
                                       [0, 0, 0] + [0] + [0], "u", 1, v, upload);
  }
}
