/** All interleavings of opens, views, claims and settlements of onsite MFA sessions. */
module OnsiteMfaProtocol {
  import opened Common
  import opened OnsiteMfa

  datatype Config = Config(ttlMs: nat, retentionMs: nat)

  datatype Task =
    | AwaitSubmit(id: string)
    | Completed(id: string, result: Option<View>)

  datatype Opening = Opening(id: string, nonce: string, at: int)

  /** One successful claim, which is one submission to the authority. */
  datatype Submission = Submission(opening: Opening, at: int)

  datatype System = System(sessions: map<string, Session>, tasks: map<nat, Task>, clock: int,
                           opens: seq<Opening>, submissions: seq<Submission>)

  datatype Event =
    | Open(id: string, nonce: string)
    | LookAt(id: string)
    | ShowActive
    | Complete(task: nat, id: string)
    | SubmitSettled(task: nat, outcome: Outcome)

  predicate Init(s: System) {
    s.sessions == map[] && s.tasks == map[] && s.opens == [] && s.submissions == []
  }

  /** Session identifiers are drawn fresh; a submission is answered once. */
  ghost predicate Enabled(s: System, e: Event, now: int) {
    && s.clock <= now
    && match e
       case Open(id, _) => id !in s.sessions && forall o :: o in s.opens ==> o.id != id
       case Complete(t, _) => t !in s.tasks
       case SubmitSettled(t, _) => t in s.tasks && s.tasks[t].AwaitSubmit?
       case _ => true
  }

  ghost function Next(cfg: Config, s: System, e: Event, now: int): System
    requires Enabled(s, e, now)
  {
    match e
    case Open(id, nonce) =>
      var r := OpenResult(s.sessions, cfg.ttlMs, cfg.retentionMs, id, nonce, now);
      s.(clock := now, sessions := r.0, opens := if r.1.Ok? then s.opens + [Opening(id, nonce, now)] else s.opens)
    case LookAt(_) => s.(clock := now, sessions := Sweep(s.sessions, cfg.retentionMs, now))
    case ShowActive => s.(clock := now, sessions := Sweep(s.sessions, cfg.retentionMs, now))
    case Complete(t, id) =>
      if CanClaim(s.sessions, id, now) then
        var x := s.sessions[id];
        s.(clock := now, sessions := Claim(s.sessions, id, now), tasks := s.tasks[t := AwaitSubmit(id)],
           submissions := s.submissions + [Submission(Opening(id, x.nonce, x.expiresAt - cfg.ttlMs), now)])
      else s.(clock := now, tasks := s.tasks[t := Completed(id, None)])
    case SubmitSettled(t, outcome) =>
      var id := s.tasks[t].id;
      var settled := Settle(s.sessions, id, outcome);
      s.(clock := now, sessions := Sweep(settled, cfg.retentionMs, now),
         tasks := s.tasks[t := Completed(id, Observe(settled, cfg.retentionMs, id, now))])
  }

  // ---------- the invariant ----------

  ghost predicate OneActive(m: map<string, Session>, now: int) {
    forall a, b :: a in m && b in m && IsActive(m[a], now) && IsActive(m[b], now) ==> a == b
  }

  ghost predicate DistinctNonces(m: map<string, Session>) {
    forall a, b :: a in m && b in m && m[a].nonce == m[b].nonce ==> a == b
  }

  /** Every submission in flight has its own session, still marked as being submitted. */
  ghost predicate TasksOk(s: System) {
    && (forall t :: t in s.tasks && s.tasks[t].AwaitSubmit? ==>
          s.tasks[t].id in s.sessions && s.sessions[s.tasks[t].id].state.Submitting?)
    && (forall t, u :: t in s.tasks && u in s.tasks && s.tasks[t].AwaitSubmit? && s.tasks[u] == s.tasks[t] ==> t == u)
  }

  ghost predicate OpeningOk(cfg: Config, s: System, o: Opening) {
    && o.at <= s.clock
    && (if o.id in s.sessions
        then s.sessions[o.id].nonce == o.nonce && s.sessions[o.id].expiresAt == o.at + cfg.ttlMs
        else o.at + cfg.ttlMs + cfg.retentionMs <= s.clock)
  }

  /** Two opens of one nonce lie at least the lifetime plus the retention apart. */
  ghost predicate Apart(cfg: Config, o: Opening, p: Opening) {
    o.id != p.id && (o.nonce == p.nonce ==> o.at + cfg.ttlMs + cfg.retentionMs <= p.at)
  }

  ghost predicate OpensOk(cfg: Config, s: System) {
    && (forall o :: o in s.opens ==> OpeningOk(cfg, s, o))
    && (forall i, j :: 0 <= i < j < |s.opens| ==> Apart(cfg, s.opens[i], s.opens[j]))
    && (forall id :: id in s.sessions ==>
          Opening(id, s.sessions[id].nonce, s.sessions[id].expiresAt - cfg.ttlMs) in s.opens)
  }

  ghost predicate SubmissionsOk(cfg: Config, s: System) {
    && (forall x :: x in s.submissions ==>
          && x.opening in s.opens && x.opening.at <= x.at < x.opening.at + cfg.ttlMs && x.at <= s.clock
          && (x.opening.id in s.sessions ==> !s.sessions[x.opening.id].state.Waiting?))
    && (forall i, j :: 0 <= i < j < |s.submissions| ==>
          s.submissions[i].opening.id != s.submissions[j].opening.id && s.submissions[i].at <= s.submissions[j].at)
  }

  ghost predicate Inv(cfg: Config, s: System) {
    && OneActive(s.sessions, s.clock) && DistinctNonces(s.sessions)
    && TasksOk(s) && OpensOk(cfg, s) && SubmissionsOk(cfg, s)
  }

  lemma OneActiveStep(cfg: Config, s: System, e: Event, now: int)
    requires OneActive(s.sessions, s.clock) && DistinctNonces(s.sessions) && TasksOk(s) && Enabled(s, e, now)
    ensures OneActive(Next(cfg, s, e, now).sessions, now) && DistinctNonces(Next(cfg, s, e, now).sessions)
  {
    if e.Open? {
      OneActiveAfterOpen(cfg, s.sessions, e.id, e.nonce, s.clock, now);
    } else {
      OneActiveAfterOthers(cfg, s, e, now);
    }
  }

  lemma OneActiveAfterOpen(cfg: Config, m: map<string, Session>, id: string, nonce: string, before: int, now: int)
    requires OneActive(m, before) && DistinctNonces(m) && before <= now
    ensures var m' := OpenResult(m, cfg.ttlMs, cfg.retentionMs, id, nonce, now).0;
            OneActive(m', now) && DistinctNonces(m')
  {
  }

  lemma OneActiveAfterOthers(cfg: Config, s: System, e: Event, now: int)
    requires OneActive(s.sessions, s.clock) && DistinctNonces(s.sessions) && Enabled(s, e, now) && !e.Open?
    ensures OneActive(Next(cfg, s, e, now).sessions, now) && DistinctNonces(Next(cfg, s, e, now).sessions)
  {
    hide OpenResult;
    hide Observe;
  }

  lemma TasksStep(cfg: Config, s: System, e: Event, now: int)
    requires TasksOk(s) && Enabled(s, e, now)
    ensures TasksOk(Next(cfg, s, e, now))
  {
  }

  /** Sessions leave only by being swept; otherwise nonce and expiry are fixed and states only advance. */
  ghost predicate Ages(cfg: Config, m: map<string, Session>, m': map<string, Session>, now: int) {
    forall id :: id in m ==>
      if id in m' then
        && m'[id].nonce == m[id].nonce && m'[id].expiresAt == m[id].expiresAt
        && (m'[id].state.Waiting? ==> m[id] == m'[id])
      else m[id].expiresAt + cfg.retentionMs <= now
  }

  lemma SessionsAge(cfg: Config, s: System, e: Event, now: int)
    requires Enabled(s, e, now)
    ensures Ages(cfg, s.sessions, Next(cfg, s, e, now).sessions, now)
  {
  }

  /** A session appears only by an open, which is recorded. */
  lemma OpensTouched(cfg: Config, s: System, e: Event, now: int)
    requires Enabled(s, e, now)
    ensures var s' := Next(cfg, s, e, now);
            if s'.sessions.Keys <= s.sessions.Keys then s'.opens == s.opens
            else && e.Open? && s'.opens == s.opens + [Opening(e.id, e.nonce, now)]
                 && e.id in s'.sessions && s'.sessions[e.id] == Session(e.nonce, now + cfg.ttlMs, Waiting, None)
                 && !NonceKept(Sweep(s.sessions, cfg.retentionMs, now), e.nonce)
                 && s'.sessions.Keys == Sweep(s.sessions, cfg.retentionMs, now).Keys + {e.id}
  {
  }

  lemma NewOpeningApart(cfg: Config, s: System, e: Event, now: int, i: nat)
    requires OpensOk(cfg, s) && Enabled(s, e, now) && i < |s.opens|
    requires e.Open? && !NonceKept(Sweep(s.sessions, cfg.retentionMs, now), e.nonce)
    ensures Apart(cfg, s.opens[i], Opening(e.id, e.nonce, now))
  {
    var o, swept := s.opens[i], Sweep(s.sessions, cfg.retentionMs, now);
    assert o in s.opens && OpeningOk(cfg, s, o);
    if o.nonce == e.nonce { assert o.id !in swept; }
  }

  lemma OpensStep(cfg: Config, s: System, e: Event, now: int)
    requires OpensOk(cfg, s) && Enabled(s, e, now)
    ensures OpensOk(cfg, Next(cfg, s, e, now))
  {
    hide Next;
    var s' := Next(cfg, s, e, now);
    ClockMoves(cfg, s, e, now);
    SessionsAge(cfg, s, e, now);
    OpensTouched(cfg, s, e, now);
    forall o | o in s'.opens ensures OpeningOk(cfg, s', o) {
      if o in s.opens { assert OpeningOk(cfg, s, o); }
    }
    forall i, j | 0 <= i < j < |s'.opens| ensures Apart(cfg, s'.opens[i], s'.opens[j]) {
      if j == |s.opens| { NewOpeningApart(cfg, s, e, now, i); }
    }
  }

  lemma ClockMoves(cfg: Config, s: System, e: Event, now: int)
    requires Enabled(s, e, now)
    ensures Next(cfg, s, e, now).clock == now
  {
  }

  lemma SubmissionsTouched(cfg: Config, s: System, e: Event, now: int)
    requires Enabled(s, e, now)
    ensures var s' := Next(cfg, s, e, now);
            || s'.submissions == s.submissions
            || (e.Complete? && CanClaim(s.sessions, e.id, now)
                && s'.sessions == Claim(s.sessions, e.id, now) && s'.opens == s.opens
                && s'.submissions == s.submissions
                     + [Submission(Opening(e.id, s.sessions[e.id].nonce, s.sessions[e.id].expiresAt - cfg.ttlMs), now)])
  {
  }

  lemma SubmissionStays(cfg: Config, s: System, e: Event, now: int, x: Submission)
    requires OpensOk(cfg, s) && SubmissionsOk(cfg, s) && Enabled(s, e, now) && x in s.submissions
    ensures var s' := Next(cfg, s, e, now);
            && x.opening in s'.opens && x.at <= now
            && (x.opening.id in s'.sessions ==> !s'.sessions[x.opening.id].state.Waiting?)
  {
    hide Next;
    SessionsAge(cfg, s, e, now);
    OpensTouched(cfg, s, e, now);
  }

  lemma SubmissionsStep(cfg: Config, s: System, e: Event, now: int)
    requires OpensOk(cfg, s) && SubmissionsOk(cfg, s) && Enabled(s, e, now)
    ensures SubmissionsOk(cfg, Next(cfg, s, e, now))
  {
    hide Next;
    var s' := Next(cfg, s, e, now);
    ClockMoves(cfg, s, e, now);
    SubmissionsTouched(cfg, s, e, now);
    forall x | x in s.submissions
      ensures x.opening in s'.opens && x.at <= now
      ensures x.opening.id in s'.sessions ==> !s'.sessions[x.opening.id].state.Waiting?
    {
      SubmissionStays(cfg, s, e, now, x);
    }
    if s'.submissions != s.submissions {
      var o := Opening(e.id, s.sessions[e.id].nonce, s.sessions[e.id].expiresAt - cfg.ttlMs);
      assert OpeningOk(cfg, s, o);
      forall i | 0 <= i < |s.submissions| ensures s.submissions[i].opening.id != e.id && s.submissions[i].at <= now {
        assert s.submissions[i] in s.submissions;
      }
    }
  }

  lemma StepKeepsInv(cfg: Config, s: System, e: Event, now: int)
    requires Inv(cfg, s) && Enabled(s, e, now)
    ensures Inv(cfg, Next(cfg, s, e, now))
  {
    hide Next;
    ClockMoves(cfg, s, e, now);
    OneActiveStep(cfg, s, e, now);
    TasksStep(cfg, s, e, now);
    OpensStep(cfg, s, e, now);
    SubmissionsStep(cfg, s, e, now);
  }
}
