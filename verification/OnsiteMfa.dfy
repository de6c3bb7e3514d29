/** Onsite MFA sessions: the kiosk lock with expiry, claim, settlement, retention and replay
    detection, and the completion task that submits a claimed session once. */
module OnsiteMfa {
  import opened Common

  datatype InternalState = Waiting | Submitting | Submitted | Rejected

  datatype Session = Session(nonce: string, expiresAt: int, state: InternalState, error: Option<string>)

  datatype ViewState = ViewWaiting | ViewSubmitted | ViewRejected | ViewExpired

  datatype View = View(state: ViewState, error: Option<string>)

  datatype Outcome = Accepted | Refused(error: string)

  datatype OpenError = KioskBusy | NonceReused

  /** The kiosk lock is held by a session being submitted, or by one waiting and not expired. */
  predicate IsActive(s: Session, now: int) {
    s.state.Submitting? || (s.state.Waiting? && s.expiresAt > now)
  }

  predicate IsSwept(s: Session, retentionMs: nat, now: int) {
    !s.state.Submitting? && s.expiresAt + retentionMs <= now
  }

  function Sweep(m: map<string, Session>, retentionMs: nat, now: int): (r: map<string, Session>)
    ensures r.Keys <= m.Keys
  {
    map id | id in m && !IsSwept(m[id], retentionMs, now) :: m[id]
  }

  /** What a client sees of a stored session. */
  function ViewOf(s: Session, now: int): (r: View) {
    match s.state
    case Submitting => View(ViewWaiting, None)
    case Waiting => if s.expiresAt > now then View(ViewWaiting, None) else View(ViewExpired, None)
    case Submitted => View(ViewSubmitted, Shown(s.error))
    case Rejected => View(ViewRejected, Shown(s.error))
  }

  /** An empty error text is not reported. */
  function Shown(error: Option<string>): Option<string> {
    if error == Some("") then None else error
  }

  /** `view` sweeps first, so a session past its retention is already absent. */
  function Observe(m: map<string, Session>, retentionMs: nat, id: string, now: int): (r: Option<View>) {
    var swept := Sweep(m, retentionMs, now);
    if id in swept then Some(ViewOf(swept[id], now)) else None
  }

  predicate CanClaim(m: map<string, Session>, id: string, now: int) {
    id in m && m[id].state.Waiting? && m[id].expiresAt > now
  }

  function Claim(m: map<string, Session>, id: string, now: int): (r: map<string, Session>) {
    if CanClaim(m, id, now) then m[id := m[id].(state := Submitting)] else m
  }

  function Settle(m: map<string, Session>, id: string, outcome: Outcome): (r: map<string, Session>) {
    if id !in m || !m[id].state.Submitting? then m
    else match outcome
      case Accepted => m[id := m[id].(state := Submitted, error := None)]
      case Refused(error) => m[id := m[id].(state := Rejected, error := Some(error))]
  }

  /** The store itself. */
  class OnsiteMfaSessionStore {
    var sessions: map<string, Session>
    const ttlMs: nat
    const retentionMs: nat

    constructor (ttlMs: nat, retentionMs: nat)
      ensures sessions == map[] && this.ttlMs == ttlMs && this.retentionMs == retentionMs
    {
      this.ttlMs, this.retentionMs := ttlMs, retentionMs;
      sessions := map[];
    }

    method SweepExpired(now: int)
      modifies this
      ensures sessions == Sweep(old(sessions), retentionMs, now)
    {
      ghost var before := sessions;
      var todo := sessions.Keys;
      while todo != {}
        invariant todo <= before.Keys
        invariant sessions ==
                    map id | id in before && (id in todo || !IsSwept(before[id], retentionMs, now)) :: before[id]
      {
        var id :| id in todo;
        if !sessions[id].state.Submitting? && sessions[id].expiresAt + retentionMs <= now {
          sessions := Without(sessions, id);
        }
        todo := todo - {id};
      }
    }

    /** Some session that holds the kiosk lock, if there is one. */
    method Active(now: int) returns (r: Option<string>)
      modifies this
      ensures sessions == Sweep(old(sessions), retentionMs, now)
      ensures r.Some? ==> r.value in sessions && IsActive(sessions[r.value], now)
      ensures r.None? ==> !Busy(sessions, now)
    {
      SweepExpired(now);
      var todo := sessions.Keys;
      while todo != {}
        invariant todo <= sessions.Keys
        invariant forall id :: id in sessions && id !in todo ==> !IsActive(sessions[id], now)
      {
        var id :| id in todo;
        if sessions[id].state == Submitting { return Some(id); }
        if sessions[id].state == Waiting && sessions[id].expiresAt > now { return Some(id); }
        todo := todo - {id};
      }
      r := None;
    }

    method HasNonce(nonce: string, now: int) returns (r: bool)
      modifies this
      ensures sessions == Sweep(old(sessions), retentionMs, now)
      ensures r <==> exists id :: id in sessions && sessions[id].nonce == nonce
    {
      SweepExpired(now);
      var todo := sessions.Keys;
      while todo != {}
        invariant todo <= sessions.Keys
        invariant forall id :: id in sessions && id !in todo ==> sessions[id].nonce != nonce
      {
        var id :| id in todo;
        if sessions[id].nonce == nonce { return true; }
        todo := todo - {id};
      }
      r := false;
    }

    /** `id` is the fresh identifier drawn by the source. */
    method Create(id: string, nonce: string, now: int)
      modifies this
      ensures sessions == old(sessions)[id := Session(nonce, now + ttlMs, Waiting, None)]
    {
      sessions := sessions[id := Session(nonce, now + ttlMs, Waiting, None)];
    }

    method ViewSession(id: string, now: int) returns (r: Option<View>)
      modifies this
      ensures sessions == Sweep(old(sessions), retentionMs, now)
      ensures r == Observe(old(sessions), retentionMs, id, now)
    {
      SweepExpired(now);
      if id !in sessions { return None; }
      var s := sessions[id];
      if s.state == Submitting { return Some(View(ViewWaiting, None)); }
      if s.state == Waiting { return Some(View(if s.expiresAt > now then ViewWaiting else ViewExpired, None)); }
      r := Some(View(if s.state == Submitted then ViewSubmitted else ViewRejected,
                     if s.error.Some? && s.error.value != "" then s.error else None));
    }

    /** On success the nonce to sign. */
    method ClaimSession(id: string, now: int) returns (r: Option<string>)
      modifies this
      ensures sessions == Claim(old(sessions), id, now)
      ensures r == if CanClaim(old(sessions), id, now) then Some(old(sessions)[id].nonce) else None
    {
      if id !in sessions || sessions[id].state != Waiting || sessions[id].expiresAt <= now { return None; }
      sessions := sessions[id := sessions[id].(state := Submitting)];
      r := Some(sessions[id].nonce);
    }

    method SettleSession(id: string, outcome: Outcome)
      modifies this
      ensures sessions == Settle(old(sessions), id, outcome)
    {
      if id !in sessions || sessions[id].state != Submitting { return; }
      sessions := sessions[id := sessions[id].(
        state := if outcome.Accepted? then Submitted else Rejected,
        error := if outcome.Refused? then Some(outcome.error) else None)];
    }
  }

  /** Opens the one waiting session, or says why not. */
  method OpenOnsiteMfaSession(store: OnsiteMfaSessionStore, id: string, nonce: string, now: int)
    returns (r: Result<int, OpenError>)
    modifies store
    ensures (store.sessions, r) == OpenResult(old(store.sessions), store.ttlMs, store.retentionMs, id, nonce, now)
  {
    ghost var before := store.sessions;
    var reused := store.HasNonce(nonce, now);
    if reused { return Err(NonceReused); }
    assert store.sessions == Sweep(before, store.retentionMs, now);
    SweepTwice(before, store.retentionMs, now);
    var active := store.Active(now);
    if active.Some? { return Err(KioskBusy); }
    store.Create(id, nonce, now);
    r := Ok(now + store.ttlMs);
  }

  /** `completeOnsiteMfa` after the awaited submission: settle, then report what the client sees. */
  method FinishCompletion(store: OnsiteMfaSessionStore, id: string, outcome: Outcome, now: int)
    returns (view: Option<View>)
    modifies store
    ensures var settled := Settle(old(store.sessions), id, outcome);
            && store.sessions == Sweep(settled, store.retentionMs, now)
            && view == Observe(settled, store.retentionMs, id, now)
  {
    store.SettleSession(id, outcome);
    view := store.ViewSession(id, now);
  }

  lemma SweepTwice(m: map<string, Session>, retentionMs: nat, now: int)
    ensures Sweep(Sweep(m, retentionMs, now), retentionMs, now) == Sweep(m, retentionMs, now)
  {
  }

  ghost predicate NonceKept(m: map<string, Session>, nonce: string) {
    exists id :: id in m && m[id].nonce == nonce
  }

  ghost predicate Busy(m: map<string, Session>, now: int) {
    exists id :: id in m && IsActive(m[id], now)
  }

  ghost function OpenResult(m: map<string, Session>, ttlMs: nat, retentionMs: nat, id: string, nonce: string, now: int)
    : (r: (map<string, Session>, Result<int, OpenError>))
  {
    var swept := Sweep(m, retentionMs, now);
    if NonceKept(swept, nonce) then (swept, Err(NonceReused))
    else if Busy(swept, now) then (swept, Err(KioskBusy))
    else (swept[id := Session(nonce, now + ttlMs, Waiting, None)], Ok(now + ttlMs))
  }
}
