/** Attendance by passkey at the kiosk: a router that lets one request per session through at a time. */
module KioskProximity {
  import opened Common
  import opened IdentitySessions

  datatype Action = BeginAction | FinishAction | OtherAction

  datatype Admission = SessionClosed | SessionBusy | UnknownAction | Admitted

  /** What verification of an assertion yields: a refusal, or the session its challenge was bound to. */
  datatype Verification = Refused | Verified(boundTo: Option<string>)

  datatype Delivery = Recorded | Failed | Threw

  predicate IsOpen(s: Option<Session>) {
    s.Some? && !s.value.state.Issued?
  }

  function Admit(sessions: map<string, Session>, busy: set<string>, id: string, action: Action,
                 now: int): (r: Admission)
  {
    if !IsOpen(Live(Lookup(sessions, id), now)) then SessionClosed
    else if id in busy then SessionBusy
    else if action.OtherAction? then UnknownAction
    else Admitted
  }

  /** Whether a verified request goes on to send an attendance. */
  predicate MaySend(sessions: map<string, Session>, id: string, v: Verification, now: int) {
    v.Verified? && v.boundTo == Some(id) && IsOpen(Live(Lookup(sessions, id), now))
  }

  /** The sessions after `get(id)`. */
  function Looked(sessions: map<string, Session>, id: string, now: int): (r: map<string, Session>)
    ensures forall k :: Lookup(r, k) == if k == id then Live(Lookup(sessions, k), now) else Lookup(sessions, k)
  {
    Store(sessions, id, Live(Lookup(sessions, id), now))
  }

  class KioskProximityRouter {
    const store: IdentitySessionStore
    var busy: set<string>

    constructor (store: IdentitySessionStore)
      ensures this.store == store && busy == {}
    {
      this.store := store;
      busy := {};
    }

    /** A request up to its first await; an unknown action leaves at once. */
    method Enter(id: string, action: Action, now: int) returns (r: Admission)
      modifies this, store
      ensures r == Admit(old(store.sessions), old(busy), id, action, now)
      ensures store.sessions == Looked(old(store.sessions), id, now)
      ensures busy == if r.Admitted? then old(busy) + {id} else old(busy)
    {
      var session := store.Get(id, now);
      if session.None? || session.value.state.Issued? { return SessionClosed; }
      if id in busy { return SessionBusy; }
      busy := busy + {id};
      if action.OtherAction? {
        busy := busy - {id};
        return UnknownAction;
      }
      r := Admitted;
    }

    /** `begin` is done. */
    method LeaveBegin(id: string)
      modifies this
      ensures busy == old(busy) - {id}
    {
      busy := busy - {id};
    }

    /** `finish` after its assertion is verified; the session is looked at again before the send. */
    method ResumeAfterVerification(id: string, v: Verification, now: int) returns (sent: bool)
      modifies this, store
      ensures sent <==> MaySend(old(store.sessions), id, v, now)
      ensures store.sessions ==
                if v == Verified(Some(id)) then Looked(old(store.sessions), id, now) else old(store.sessions)
      ensures busy == if sent then old(busy) else old(busy) - {id}
    {
      sent := false;
      if v == Verified(Some(id)) {
        var current := store.Get(id, now);
        sent := current.Some? && !current.value.state.Issued?;
      }
      if !sent { busy := busy - {id}; }
    }

    /** `finish` after the delivery: only a recorded one issues the session. */
    method ResumeAfterDelivery(id: string, d: Delivery, now: int)
      modifies this, store
      ensures d.Recorded? ==>
                var issued := Moved(Lookup(old(store.sessions), id), store.ttlMs, Issued, Passkey, now);
                store.sessions == Store(old(store.sessions), id, issued)
      ensures !d.Recorded? ==> store.sessions == old(store.sessions)
      ensures busy == old(busy) - {id}
    {
      if d.Recorded? {
        var _ := store.Issue(id, now);
      }
      busy := busy - {id};
    }
  }
}

/** All interleavings of the router's requests with other users of the session store. */
module KioskProximityProtocol {
  import opened Common
  import opened IdentitySessions
  import opened KioskProximity
  import FaceFlow

  datatype Phase = Beginning(id: string) | Verifying(id: string) | Delivering(id: string, send: nat) | Ended

  /** `sends` lists the session of every attendance sent and `recorded` the positions that were
      recorded; `outside` has the sessions issued elsewhere, `reopened` those moved out of issued. */
  datatype System = System(
    sessions: map<string, Session>,
    busy: set<string>,
    tasks: map<nat, Phase>,
    used: set<string>,
    sends: seq<string>,
    recorded: set<nat>,
    outside: set<string>,
    reopened: set<string>,
    clock: int)

  datatype Event =
    | Enter(task: nat, id: string, action: Action)
    | BeginSettled(task: nat)
    | VerifySettled(task: nat, v: Verification)
    | DeliverySettled(task: nat, d: Delivery)
    | CreateElsewhere(id: string)
    | GetElsewhere(id: string)
    | TouchElsewhere(id: string)
    | MoveElsewhere(id: string, state: SessionState, means: Means)

  predicate Init(s: System) {
    && s.sessions == map[] && s.busy == {} && s.tasks == map[] && s.used == {} && s.sends == []
    && s.recorded == {} && s.outside == {} && s.reopened == {}
  }

  /** Session identifiers are drawn fresh and an awaited call settles once. */
  predicate Enabled(s: System, e: Event, now: int) {
    && s.clock <= now
    && match e
       case Enter(t, _, _) => t !in s.tasks
       case BeginSettled(t) => t in s.tasks && s.tasks[t].Beginning?
       case VerifySettled(t, _) => t in s.tasks && s.tasks[t].Verifying?
       case DeliverySettled(t, _) => t in s.tasks && s.tasks[t].Delivering?
       case CreateElsewhere(id) => id !in s.used
       case _ => true
  }

  function Next(ttlMs: nat, s: System, e: Event, now: int): System
    requires Enabled(s, e, now)
  {
    match e
    case Enter(t, id, action) =>
      var admitted := Admit(s.sessions, s.busy, id, action, now).Admitted?;
      s.(clock := now, sessions := Looked(s.sessions, id, now),
         busy := if admitted then s.busy + {id} else s.busy,
         tasks := s.tasks[t := if !admitted then Ended
                               else if action.BeginAction? then Beginning(id) else Verifying(id)])
    case BeginSettled(t) =>
      s.(clock := now, busy := s.busy - {s.tasks[t].id}, tasks := s.tasks[t := Ended])
    case VerifySettled(t, v) =>
      var id := s.tasks[t].id;
      var sent := MaySend(s.sessions, id, v, now);
      s.(clock := now,
         sessions := if v == Verified(Some(id)) then Looked(s.sessions, id, now) else s.sessions,
         busy := if sent then s.busy else s.busy - {id},
         tasks := s.tasks[t := if sent then Delivering(id, |s.sends|) else Ended],
         sends := if sent then s.sends + [id] else s.sends)
    case DeliverySettled(t, d) =>
      var id := s.tasks[t].id;
      var issued := Store(s.sessions, id, Moved(Lookup(s.sessions, id), ttlMs, Issued, Passkey, now));
      s.(clock := now,
         sessions := if d.Recorded? then issued else s.sessions,
         busy := s.busy - {id},
         tasks := s.tasks[t := Ended],
         recorded := if d.Recorded? then s.recorded + {s.tasks[t].send} else s.recorded)
    case CreateElsewhere(id) =>
      var swept := map k | k in s.sessions && s.sessions[k].expiresAt > now :: s.sessions[k];
      s.(clock := now, used := s.used + {id}, sessions := swept[id := Session(now + ttlMs, Idle, NoMeans)])
    case GetElsewhere(id) =>
      s.(clock := now, sessions := Looked(s.sessions, id, now))
    case TouchElsewhere(id) =>
      s.(clock := now, sessions := Store(s.sessions, id, Touched(Lookup(s.sessions, id), ttlMs, now)))
    case MoveElsewhere(id, state, means) =>
      var reopens := !state.Issued? && IsIssued(Live(Lookup(s.sessions, id), now));
      s.(clock := now, sessions := Store(s.sessions, id, Moved(Lookup(s.sessions, id), ttlMs, state, means, now)),
         outside := if state.Issued? then s.outside + {id} else s.outside,
         reopened := if reopens then s.reopened + {id} else s.reopened)
  }

  predicate IsIssued(s: Option<Session>) {
    s.Some? && s.value.state.Issued?
  }

  // ---------- the invariant ----------

  /** Exactly one running request for every busy session. */
  ghost predicate TasksOk(s: System) {
    && (forall t :: t in s.tasks && !s.tasks[t].Ended? ==> s.tasks[t].id in s.busy && s.tasks[t].id in s.used)
    && (forall t, u :: t in s.tasks && u in s.tasks && !s.tasks[t].Ended? && !s.tasks[u].Ended? && t != u ==>
          s.tasks[t].id != s.tasks[u].id)
    && (forall id :: id in s.busy ==> HasTask(s, id))
    && (forall id :: id in s.sessions ==> id in s.used)
  }

  ghost predicate HasTask(s: System, id: string) {
    exists t :: t in s.tasks && !s.tasks[t].Ended? && s.tasks[t].id == id
  }

  ghost predicate SendsOk(s: System) {
    && (forall t :: t in s.tasks && s.tasks[t].Delivering? ==>
          s.tasks[t].send < |s.sends| && s.sends[s.tasks[t].send] == s.tasks[t].id && s.tasks[t].send !in s.recorded)
    && (forall k :: k in s.recorded ==> k < |s.sends|)
    && (forall k :: 0 <= k < |s.sends| ==> s.sends[k] in s.used)
  }

  /** A recorded session stays closed unless it is reopened, and no later send is its own. */
  ghost predicate ClosedAfter(s: System, k: nat)
    requires k < |s.sends|
  {
    s.sends[k] !in s.reopened ==>
      && !IsOpen(Lookup(s.sessions, s.sends[k]))
      && forall m :: k < m < |s.sends| ==> s.sends[m] != s.sends[k]
  }

  ghost predicate RecordedOk(s: System)
    requires SendsOk(s)
  {
    forall k :: k in s.recorded ==> ClosedAfter(s, k)
  }

  ghost predicate WasRecorded(s: System, id: string) {
    exists k :: k in s.recorded && k < |s.sends| && s.sends[k] == id
  }

  ghost predicate IssuedOk(s: System) {
    forall id :: IsIssued(Lookup(s.sessions, id)) ==> id in s.outside || WasRecorded(s, id)
  }

  /** The send of a running delivery is the last one of its session. */
  ghost predicate LatestOk(s: System) {
    forall t, m :: t in s.tasks && s.tasks[t].Delivering? && s.tasks[t].send < m < |s.sends| ==>
      s.sends[m] != s.tasks[t].id
  }

  ghost predicate Inv(s: System) {
    TasksOk(s) && SendsOk(s) && LatestOk(s) && RecordedOk(s) && IssuedOk(s)
  }

  lemma TasksStep(ttlMs: nat, s: System, e: Event, now: int)
    requires TasksOk(s) && Enabled(s, e, now)
    ensures TasksOk(Next(ttlMs, s, e, now))
  {
    var s' := Next(ttlMs, s, e, now);
    forall id | id in s'.busy ensures HasTask(s', id) {
      if id in s.busy {
        var t :| t in s.tasks && !s.tasks[t].Ended? && s.tasks[t].id == id;
        assert t in s'.tasks && !s'.tasks[t].Ended? && s'.tasks[t].id == id;
      } else {
        assert e.Enter? && e.task in s'.tasks;
      }
    }
    forall id | id in s'.sessions ensures id in s'.used {
      assert Lookup(s'.sessions, id).Some?;
    }
  }

  lemma SendsStep(ttlMs: nat, s: System, e: Event, now: int)
    requires TasksOk(s) && SendsOk(s) && Enabled(s, e, now)
    ensures SendsOk(Next(ttlMs, s, e, now))
  {
    var s' := Next(ttlMs, s, e, now);
    if e.VerifySettled? { assert s.tasks[e.task].id in s.used; }
  }

  /** A step sends at most once, for the request that was verified; it starts no other delivery. */
  lemma SendsGrow(ttlMs: nat, s: System, e: Event, now: int)
    requires Enabled(s, e, now)
    ensures var s' := Next(ttlMs, s, e, now);
            && (s'.sends == s.sends || (e.VerifySettled? && s'.sends == s.sends + [s.tasks[e.task].id]))
            && forall t :: t in s'.tasks && s'.tasks[t].Delivering? ==>
                 || (t in s.tasks && s'.tasks[t] == s.tasks[t] && (e.VerifySettled? ==> t != e.task))
                 || (e.VerifySettled? && t == e.task && s'.tasks[t].send == |s.sends|)
  {
  }

  lemma LatestStep(ttlMs: nat, s: System, e: Event, now: int)
    requires TasksOk(s) && LatestOk(s) && Enabled(s, e, now)
    ensures LatestOk(Next(ttlMs, s, e, now))
  {
    hide Next;
    SendsGrow(ttlMs, s, e, now);
  }

  /** A closed session is not opened by any step but a reopening. */
  lemma StaysClosed(ttlMs: nat, s: System, e: Event, now: int, id: string)
    requires Enabled(s, e, now) && id in s.used && !IsOpen(Lookup(s.sessions, id))
    ensures var s' := Next(ttlMs, s, e, now);
            s.reopened <= s'.reopened && (id in s'.reopened || !IsOpen(Lookup(s'.sessions, id)))
  {
  }

  lemma RecordedStep(ttlMs: nat, s: System, e: Event, now: int)
    requires Inv(s) && Enabled(s, e, now)
    ensures SendsOk(Next(ttlMs, s, e, now)) && RecordedOk(Next(ttlMs, s, e, now))
  {
    SendsStep(ttlMs, s, e, now);
    var s' := Next(ttlMs, s, e, now);
    forall k | k in s'.recorded ensures ClosedAfter(s', k) {
      if k in s.recorded {
        var id := s.sends[k];
        assert ClosedAfter(s, k);
        if id !in s.reopened { StaysClosed(ttlMs, s, e, now, id); }
      }
    }
  }

  lemma IssuedStep(ttlMs: nat, s: System, e: Event, now: int)
    requires Inv(s) && Enabled(s, e, now)
    ensures IssuedOk(Next(ttlMs, s, e, now))
  {
    var s' := Next(ttlMs, s, e, now);
    forall id | IsIssued(Lookup(s'.sessions, id)) ensures id in s'.outside || WasRecorded(s', id) {
      if IsIssued(Lookup(s.sessions, id)) && id !in s.outside {
        var k :| k in s.recorded && k < |s.sends| && s.sends[k] == id;
        assert k in s'.recorded && s'.sends[k] == id;
      } else if e.DeliverySettled? && e.d.Recorded? && s.tasks[e.task].id == id {
        assert s.tasks[e.task].send in s'.recorded;
      }
    }
  }

  lemma StepKeepsInv(ttlMs: nat, s: System, e: Event, now: int)
    requires Inv(s) && Enabled(s, e, now)
    ensures Inv(Next(ttlMs, s, e, now))
  {
    hide Next;
    TasksStep(ttlMs, s, e, now);
    LatestStep(ttlMs, s, e, now);
    RecordedStep(ttlMs, s, e, now);
    IssuedStep(ttlMs, s, e, now);
  }

  // ---------- every run ----------

  ghost predicate Moves(ttlMs: nat, s: System, e: Event, now: int, s': System) {
    Enabled(s, e, now) && s' == Next(ttlMs, s, e, now)
  }

  ghost predicate IsRun(ttlMs: nat, ss: seq<System>, es: seq<Event>, ts: seq<int>) {
    && |ss| == |es| + 1 == |ts| + 1
    && Init(ss[0])
    && forall i :: 0 <= i < |es| ==> Moves(ttlMs, ss[i], es[i], ts[i], ss[i + 1])
  }

  lemma {:induction false} ReachableInv(ttlMs: nat, ss: seq<System>, es: seq<Event>, ts: seq<int>, i: nat)
    requires IsRun(ttlMs, ss, es, ts) && i < |ss|
    ensures Inv(ss[i])
  {
    hide Next;
    if 0 < i {
      ReachableInv(ttlMs, ss, es, ts, i - 1);
      assert Moves(ttlMs, ss[i - 1], es[i - 1], ts[i - 1], ss[i]);
      StepKeepsInv(ttlMs, ss[i - 1], es[i - 1], ts[i - 1]);
    }
  }

  /** At most one request runs per session, so at most one delivery is in flight for it. */
  lemma OneDeliveryInFlight(ttlMs: nat, ss: seq<System>, es: seq<Event>, ts: seq<int>, i: nat, t: nat, u: nat)
    requires IsRun(ttlMs, ss, es, ts) && i < |ss| && t in ss[i].tasks && u in ss[i].tasks
    ensures ss[i].tasks[t].Delivering? && ss[i].tasks[u].Delivering? && t != u ==>
              ss[i].tasks[t].id != ss[i].tasks[u].id
    ensures forall id :: id in ss[i].busy <==> HasTask(ss[i], id)
  {
    ReachableInv(ttlMs, ss, es, ts, i);
  }

  /** A session is issued only if it was issued elsewhere or one of its deliveries was recorded. */
  lemma IssuedOnlyIfRecorded(ttlMs: nat, ss: seq<System>, es: seq<Event>, ts: seq<int>, i: nat, id: string)
    requires IsRun(ttlMs, ss, es, ts) && i < |ss| && IsIssued(Lookup(ss[i].sessions, id))
    ensures id in ss[i].outside || WasRecorded(ss[i], id)
  {
    ReachableInv(ttlMs, ss, es, ts, i);
  }

  /** After a recorded delivery no further one is sent for the session, unless a transition elsewhere
      moved the issued session back. */
  lemma NothingSentAfterRecorded(ttlMs: nat, ss: seq<System>, es: seq<Event>, ts: seq<int>, i: nat, a: nat, b: nat)
    requires IsRun(ttlMs, ss, es, ts) && i < |ss| && a < b < |ss[i].sends|
    requires ss[i].sends[a] == ss[i].sends[b] && a in ss[i].recorded
    ensures ss[i].sends[a] in ss[i].reopened
  {
    ReachableInv(ttlMs, ss, es, ts, i);
    assert ClosedAfter(ss[i], a);
  }

  /** A run in which a camera frame is in flight: the frame begins at 1 and touches the session, the
      session is sent and issued, the frame is answered at 5, and the session is sent again. */
  function ReopeningEvents(): seq<Event> {
    var verified := Verified(Some("s"));
    [CreateElsewhere("s"), TouchElsewhere("s"),
     Enter(0, "s", FinishAction), VerifySettled(0, verified), DeliverySettled(0, Recorded),
     MoveElsewhere("s", Scanning, NoMeans),
     Enter(1, "s", FinishAction), VerifySettled(1, verified)]
  }

  function ReopeningStates(): seq<System> {
    var touched := map["s" := Session(60001, Idle, NoMeans)];
    var issued, scanning := map["s" := Session(60004, Issued, Passkey)], map["s" := Session(60005, Scanning, Passkey)];
    [System(map[], {}, map[], {}, [], {}, {}, {}, 0),
     System(map["s" := Session(60000, Idle, NoMeans)], {}, map[], {"s"}, [], {}, {}, {}, 0),
     System(touched, {}, map[], {"s"}, [], {}, {}, {}, 1),
     System(touched, {"s"}, map[0 := Verifying("s")], {"s"}, [], {}, {}, {}, 2),
     System(touched, {"s"}, map[0 := Delivering("s", 0)], {"s"}, ["s"], {}, {}, {}, 3),
     System(issued, {}, map[0 := Ended], {"s"}, ["s"], {0}, {}, {}, 4),
     System(scanning, {}, map[0 := Ended], {"s"}, ["s"], {0}, {}, {"s"}, 5),
     System(scanning, {"s"}, map[0 := Ended, 1 := Verifying("s")], {"s"}, ["s"], {0}, {}, {"s"}, 6),
     System(scanning, {"s"}, map[0 := Ended, 1 := Delivering("s", 1)], {"s"}, ["s", "s"], {0}, {}, {"s"}, 7)]
  }

  lemma FirstSendStep(i: nat)
    requires i < 5
    ensures Moves(60000, ReopeningStates()[i], ReopeningEvents()[i], i, ReopeningStates()[i + 1])
  {
    var s, e, s' := ReopeningStates()[i], ReopeningEvents()[i], ReopeningStates()[i + 1];
    var n := Next(60000, s, e, i);
    assert n.sessions == s'.sessions;
    assert n.busy == s'.busy && n.tasks == s'.tasks;
    assert n.recorded == s'.recorded && n.outside == s'.outside && n.reopened == s'.reopened;
  }

  lemma SecondSendStep(i: nat)
    requires 5 <= i < 8
    ensures Moves(60000, ReopeningStates()[i], ReopeningEvents()[i], i, ReopeningStates()[i + 1])
  {
    var s, e, s' := ReopeningStates()[i], ReopeningEvents()[i], ReopeningStates()[i + 1];
    var n := Next(60000, s, e, i);
    assert n.sessions == s'.sessions;
    assert n.busy == s'.busy && n.tasks == s'.tasks;
    assert n.recorded == s'.recorded && n.outside == s'.outside && n.reopened == s'.reopened;
  }

  /** The exception is real: the two steps elsewhere are the two halves of one camera frame that shows no
      face, and the session it reopens is sent twice, the first time recorded. */
  lemma ReopenedIsSentAgain(cfg: FaceFlow.Config, f: FaceFlow.Frame)
    requires cfg.ttlMs == 60000 && f.face.None? && f.startedAt == 1 && f.answeredAt == 5
    ensures var ss := ReopeningStates();
            && IsRun(60000, ss, ReopeningEvents(), [0, 1, 2, 3, 4, 5, 6, 7])
            && ss[8].sends == ["s", "s"] && 0 in ss[8].recorded && ss[8].outside == {}
            && FaceFlow.BeginFrame(cfg, FaceFlow.Slice(Lookup(ss[1].sessions, "s"), None), f.startedAt)
                 == Some(FaceFlow.Slice(Lookup(ss[2].sessions, "s"), Some(FaceFlow.NEW_FLOW)))
            && FaceFlow.FinishFrame(cfg, FaceFlow.Slice(Lookup(ss[5].sessions, "s"), Some(FaceFlow.NEW_FLOW)), f).0
                 == FaceFlow.Slice(Lookup(ss[6].sessions, "s"), Some(FaceFlow.NEW_FLOW))
  {
    hide Next;
    forall i | 0 <= i < 8
      ensures Moves(60000, ReopeningStates()[i], ReopeningEvents()[i], i, ReopeningStates()[i + 1])
    {
      if i < 5 { FirstSendStep(i); } else { SecondSendStep(i); }
    }
  }
}
