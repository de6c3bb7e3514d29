/** Short-lived kiosk sessions: a state and an expiry that accepted operations extend. */
module IdentitySessions {
  import opened Common

  datatype SessionState = Idle | Scanning | Challenging | Issued | Fallback

  datatype Means = NoMeans | Passkey | Face | FacePassive

  datatype Session = Session(expiresAt: int, state: SessionState, means: Means)

  /** One session as `get` leaves it: an expired session is removed. */
  function Live(s: Option<Session>, now: int): (r: Option<Session>) {
    if s.Some? && s.value.expiresAt <= now then None else s
  }

  function Touched(s: Option<Session>, ttlMs: nat, now: int): (r: Option<Session>) {
    if Live(s, now).None? then None else Some(s.value.(expiresAt := now + ttlMs))
  }

  /** A transition of a session that is gone does nothing. */
  function Moved(s: Option<Session>, ttlMs: nat, state: SessionState, means: Means, now: int): (r: Option<Session>) {
    if Live(s, now).None? then None
    else Some(Session(now + ttlMs, state, if means.NoMeans? then s.value.means else means))
  }

  function Lookup<V>(m: map<string, V>, id: string): (r: Option<V>) {
    if id in m then Some(m[id]) else None
  }

  /** `m` with the binding of `id` replaced by `v`. */
  function Store<V>(m: map<string, V>, id: string, v: Option<V>): (r: map<string, V>)
    ensures Lookup(r, id) == v
    ensures forall k :: k != id ==> Lookup(r, k) == Lookup(m, k)
  {
    if v.Some? then m[id := v.value] else Without(m, id)
  }

  class IdentitySessionStore {
    var sessions: map<string, Session>
    const ttlMs: nat

    constructor (ttlMs: nat)
      ensures this.ttlMs == ttlMs && sessions == map[]
    {
      this.ttlMs := ttlMs;
      sessions := map[];
    }

    /** `id` is the fresh identifier drawn by the source. */
    method Create(id: string, now: int)
      requires id !in sessions
      modifies this
      ensures Lookup(sessions, id) == Some(Session(now + ttlMs, Idle, NoMeans))
      ensures forall k :: k != id ==> Lookup(sessions, k) == Live(Lookup(old(sessions), k), now)
    {
      Sweep(now);
      sessions := sessions[id := Session(now + ttlMs, Idle, NoMeans)];
    }

    method Get(id: string, now: int) returns (r: Option<Session>)
      modifies this
      ensures r == Live(Lookup(old(sessions), id), now)
      ensures sessions == Store(old(sessions), id, r)
    {
      if id !in sessions { return None; }
      var session := sessions[id];
      if session.expiresAt <= now {
        sessions := Without(sessions, id);
        return None;
      }
      r := Some(session);
    }

    method Touch(id: string, now: int) returns (ok: bool)
      modifies this
      ensures sessions == Store(old(sessions), id, Touched(Lookup(old(sessions), id), ttlMs, now))
      ensures ok <==> Live(Lookup(old(sessions), id), now).Some?
    {
      var session := Get(id, now);
      if session.None? { return false; }
      sessions := sessions[id := session.value.(expiresAt := now + ttlMs)];
      ok := true;
    }

    method Issue(id: string, now: int) returns (ok: bool)
      modifies this
      ensures sessions == Store(old(sessions), id, Moved(Lookup(old(sessions), id), ttlMs, Issued, Passkey, now))
      ensures ok <==> Live(Lookup(old(sessions), id), now).Some?
    {
      ok := Transition(id, Issued, Passkey, now);
    }

    method Transition(id: string, state: SessionState, means: Means, now: int) returns (ok: bool)
      modifies this
      ensures sessions == Store(old(sessions), id, Moved(Lookup(old(sessions), id), ttlMs, state, means, now))
      ensures ok <==> Live(Lookup(old(sessions), id), now).Some?
    {
      var session := Get(id, now);
      if session.None? { return false; }
      sessions := sessions[id := Session(now + ttlMs, state, if means.NoMeans? then session.value.means else means)];
      ok := true;
    }

    method Sweep(now: int)
      modifies this
      ensures sessions.Keys <= old(sessions).Keys
      ensures forall k :: Lookup(sessions, k) == Live(Lookup(old(sessions), k), now)
    {
      ghost var before := sessions;
      var todo := sessions.Keys;
      while todo != {}
        invariant todo <= before.Keys
        invariant sessions == map k | k in before && (k in todo || before[k].expiresAt > now) :: before[k]
      {
        var k :| k in todo;
        if sessions[k].expiresAt <= now { sessions := Without(sessions, k); }
        todo := todo - {k};
      }
    }
  }
}
