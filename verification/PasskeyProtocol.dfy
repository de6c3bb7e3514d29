/** All interleavings of begin and finish on any number of services sharing one challenge store. */
module PasskeyProtocol {
  import opened Common
  import opened Passkey

  datatype Config = Config(ttlMs: nat, mfaService: nat)

  /** A challenge put into the store; puts by other routes have no service. */
  datatype PutRecord = PutRecord(service: Option<nat>, challenge: string, sessionId: Option<string>, at: int)

  /** An assertion that used up its challenge at `at`, on `service`. */
  datatype Attempt = Attempt(service: nat, taken: Taken, at: int)

  /** A passkey completion of an MFA session. */
  datatype Completion = Completion(mfaSession: string, attempt: Attempt)

  datatype System = System(
    expiries: map<string, int>,
    bindings: map<nat, map<string, Binding>>,
    puts: seq<PutRecord>,
    attempts: seq<Attempt>,
    settled: set<nat>,
    verified: seq<nat>,
    completions: seq<Completion>,
    clock: int)

  /** Attempts are numbered by their position in `attempts`. */
  datatype Event =
    | BeginStart(service: nat)
    | BeginSettled(service: nat, challenge: string, sessionId: Option<string>)
    | OtherPut(challenge: string)
    | FinishStart(service: nat, response: Response)
    | FinishSettled(attempt: nat, accepted: bool, mfaSession: string)

  function BindingsOf(s: System, service: nat): map<string, Binding> {
    if service in s.bindings then s.bindings[service] else map[]
  }

  predicate Init(s: System) {
    && s.expiries == map[] && s.bindings == map[] && s.puts == [] && s.attempts == []
    && s.settled == {} && s.verified == [] && s.completions == []
  }

  /** Challenges are random and never drawn twice; the verifier answers each attempt once. */
  ghost predicate Enabled(s: System, e: Event, now: int) {
    && s.clock <= now
    && match e
       case BeginSettled(_, challenge, _) => forall p :: p in s.puts ==> p.challenge != challenge
       case OtherPut(challenge) => forall p :: p in s.puts ==> p.challenge != challenge
       case FinishSettled(a, _, _) => a < |s.attempts| && a !in s.settled
       case _ => true
  }

  function Bound(sessionId: Option<string>): Option<string> {
    if sessionId == Some("") then None else sessionId
  }

  ghost function Next(cfg: Config, s: System, e: Event, now: int): System
    requires Enabled(s, e, now)
  {
    match e
    case BeginStart(v) =>
      s.(clock := now, expiries := SweepChallenges(s.expiries, now),
         bindings := s.bindings[v := SweepBindings(BindingsOf(s, v), now)])
    case BeginSettled(v, challenge, sessionId) =>
      s.(clock := now, expiries := s.expiries[challenge := now + cfg.ttlMs],
         bindings := s.bindings[v := Bind(BindingsOf(s, v), challenge, sessionId, now + cfg.ttlMs)],
         puts := s.puts + [PutRecord(Some(v), challenge, Bound(sessionId), now)])
    case OtherPut(challenge) =>
      s.(clock := now, expiries := s.expiries[challenge := now + cfg.ttlMs],
         puts := s.puts + [PutRecord(None, challenge, None, now)])
    case FinishStart(v, response) =>
      if !Examined(response) then s.(clock := now)
      else
        var c := response.challenge.value;
        var r := TakeResult(s.expiries, BindingsOf(s, v), response, now);
        s.(clock := now, expiries := Without(s.expiries, c),
           bindings := s.bindings[v := Without(BindingsOf(s, v), c)],
           attempts := if r.Ok? then s.attempts + [Attempt(v, r.value, now)] else s.attempts)
    case FinishSettled(a, accepted, mfaSession) =>
      var x := s.attempts[a];
      var completes := accepted && x.service == cfg.mfaService && x.taken.sessionId == Some(mfaSession);
      s.(clock := now, settled := s.settled + {a},
         verified := if accepted then s.verified + [a] else s.verified,
         completions := if completes then s.completions + [Completion(mfaSession, x)] else s.completions)
  }

  // ---------- the invariant ----------

  ghost predicate PutsOk(cfg: Config, s: System) {
    && (forall i, j :: 0 <= i < j < |s.puts| ==> s.puts[i].challenge != s.puts[j].challenge)
    && (forall p :: p in s.puts ==> p.at <= s.clock)
    && (forall c :: c in s.expiries ==> WasPut(cfg, s.puts, c, s.expiries[c]))
    && (forall v, c :: v in s.bindings && c in s.bindings[v] ==> WasBound(cfg, s.puts, v, c, s.bindings[v][c]))
  }

  ghost predicate WasPut(cfg: Config, puts: seq<PutRecord>, c: string, expiresAt: int) {
    exists p :: p in puts && p.challenge == c && expiresAt == p.at + cfg.ttlMs
  }

  ghost predicate WasBound(cfg: Config, puts: seq<PutRecord>, v: nat, c: string, b: Binding) {
    PutRecord(Some(v), c, Some(b.sessionId), b.expiresAt - cfg.ttlMs) in puts
  }

  /** The challenge of an attempt was put and not expired, and its session was bound by the same service. */
  ghost predicate AttemptOk(cfg: Config, s: System, x: Attempt) {
    && x.taken.challenge !in s.expiries
    && (exists p :: p in s.puts && p.challenge == x.taken.challenge && p.at <= x.at <= p.at + cfg.ttlMs)
    && (x.taken.sessionId.Some? ==>
          exists p :: p in s.puts && p.service == Some(x.service) && p.challenge == x.taken.challenge
            && p.sessionId == x.taken.sessionId && p.at <= x.at < p.at + cfg.ttlMs)
  }

  ghost predicate AttemptsOk(cfg: Config, s: System) {
    && (forall x :: x in s.attempts ==> AttemptOk(cfg, s, x))
    && (forall i, j :: 0 <= i < j < |s.attempts| ==> s.attempts[i].taken.challenge != s.attempts[j].taken.challenge)
  }

  ghost predicate ResultsOk(cfg: Config, s: System) {
    && (forall i :: 0 <= i < |s.verified| ==> s.verified[i] < |s.attempts| && s.verified[i] in s.settled)
    && (forall i, j :: 0 <= i < j < |s.verified| ==> s.verified[i] != s.verified[j])
    && (forall x :: x in s.completions ==>
          && x.attempt in s.attempts && x.attempt.service == cfg.mfaService
          && x.attempt.taken.sessionId == Some(x.mfaSession))
  }

  ghost predicate Inv(cfg: Config, s: System) {
    PutsOk(cfg, s) && AttemptsOk(cfg, s) && ResultsOk(cfg, s)
  }

  /** Records are only added, and a fresh one is the last. */
  lemma PutsGrow(cfg: Config, s: System, e: Event, now: int)
    requires Enabled(s, e, now)
    ensures var s' := Next(cfg, s, e, now);
            && s.puts <= s'.puts && s'.clock == now
            && (s'.puts == s.puts
                || ((e.BeginSettled? || e.OtherPut?) && |s'.puts| == |s.puts| + 1
                    && s'.puts[|s.puts|].challenge == e.challenge && s'.puts[|s.puts|].at == now))
  {
  }

  lemma ExpiriesStep(cfg: Config, s: System, e: Event, now: int, c: string)
    requires PutsOk(cfg, s) && Enabled(s, e, now) && c in Next(cfg, s, e, now).expiries
    ensures var s' := Next(cfg, s, e, now); WasPut(cfg, s'.puts, c, s'.expiries[c])
  {
    var s' := Next(cfg, s, e, now);
    if c in s.expiries && s'.expiries[c] == s.expiries[c] {
      var p :| p in s.puts && p.challenge == c && s.expiries[c] == p.at + cfg.ttlMs;
      assert p in s'.puts;
    } else {
      assert s'.puts[|s.puts|] in s'.puts;
    }
  }

  lemma BindingsStep(cfg: Config, s: System, e: Event, now: int, v: nat, c: string)
    requires PutsOk(cfg, s) && Enabled(s, e, now)
    requires var b' := Next(cfg, s, e, now).bindings; v in b' && c in b'[v]
    ensures var s' := Next(cfg, s, e, now); WasBound(cfg, s'.puts, v, c, s'.bindings[v][c])
  {
    var s' := Next(cfg, s, e, now);
    if v in s.bindings && c in s.bindings[v] && s'.bindings[v][c] == s.bindings[v][c] {
      assert WasBound(cfg, s.puts, v, c, s.bindings[v][c]);
    } else {
      assert s'.puts[|s.puts|] in s'.puts;
    }
  }

  lemma PutsStep(cfg: Config, s: System, e: Event, now: int)
    requires PutsOk(cfg, s) && Enabled(s, e, now)
    ensures PutsOk(cfg, Next(cfg, s, e, now))
  {
    hide Next;
    var s' := Next(cfg, s, e, now);
    PutsGrow(cfg, s, e, now);
    forall c | c in s'.expiries ensures WasPut(cfg, s'.puts, c, s'.expiries[c]) { ExpiriesStep(cfg, s, e, now, c); }
    forall v, c | v in s'.bindings && c in s'.bindings[v] ensures WasBound(cfg, s'.puts, v, c, s'.bindings[v][c]) {
      BindingsStep(cfg, s, e, now, v, c);
    }
  }

  lemma AttemptStays(cfg: Config, s: System, e: Event, now: int, x: Attempt)
    requires Enabled(s, e, now) && AttemptOk(cfg, s, x)
    ensures AttemptOk(cfg, Next(cfg, s, e, now), x)
  {
    var s' := Next(cfg, s, e, now);
    assert forall p :: p in s.puts ==> p in s'.puts;
  }

  /** A challenge that can be taken was put, and its binding, if it counts, was put with it. */
  lemma TakenWasPut(cfg: Config, s: System, service: nat, response: Response, now: int)
    requires PutsOk(cfg, s) && s.clock <= now && Examined(response)
    ensures var r := TakeResult(s.expiries, BindingsOf(s, service), response, now);
            r.Ok? ==>
              && r.value.challenge == response.challenge.value
              && (exists p :: p in s.puts && p.challenge == r.value.challenge && p.at <= now <= p.at + cfg.ttlMs)
              && (r.value.sessionId.Some? ==>
                    exists p :: p in s.puts && p.service == Some(service) && p.challenge == r.value.challenge
                      && p.sessionId == r.value.sessionId && p.at <= now < p.at + cfg.ttlMs)
  {
    var c := response.challenge.value;
    if c in s.expiries {
      var p :| p in s.puts && p.challenge == c && s.expiries[c] == p.at + cfg.ttlMs;
      var m := BindingsOf(s, service);
      if c in m {
        assert WasBound(cfg, s.puts, service, c, m[c]);
        assert PutRecord(Some(service), c, Some(m[c].sessionId), m[c].expiresAt - cfg.ttlMs) in s.puts;
      }
    }
  }

  lemma NewAttemptOk(cfg: Config, s: System, e: Event, now: int)
    requires PutsOk(cfg, s) && Enabled(s, e, now) && e.FinishStart? && Examined(e.response)
    ensures var r := TakeResult(s.expiries, BindingsOf(s, e.service), e.response, now);
            r.Ok? ==> AttemptOk(cfg, Next(cfg, s, e, now), Attempt(e.service, r.value, now))
  {
    TakenWasPut(cfg, s, e.service, e.response, now);
    hide TakeResult;
    hide PutsOk;
  }

  lemma AttemptsStep(cfg: Config, s: System, e: Event, now: int)
    requires PutsOk(cfg, s) && AttemptsOk(cfg, s) && Enabled(s, e, now)
    ensures AttemptsOk(cfg, Next(cfg, s, e, now))
  {
    var s' := Next(cfg, s, e, now);
    if e.FinishStart? && Examined(e.response) { NewAttemptOk(cfg, s, e, now); }
    forall x | x in s'.attempts ensures AttemptOk(cfg, s', x) {
      if x in s.attempts { AttemptStays(cfg, s, e, now, x); }
    }
    if s'.attempts != s.attempts {
      forall i | 0 <= i < |s.attempts|
        ensures s.attempts[i].taken.challenge != s'.attempts[|s.attempts|].taken.challenge
      {
        assert s.attempts[i] in s.attempts;
      }
    }
  }

  lemma ResultsStep(cfg: Config, s: System, e: Event, now: int)
    requires ResultsOk(cfg, s) && Enabled(s, e, now)
    ensures ResultsOk(cfg, Next(cfg, s, e, now))
  {
  }

  lemma StepKeepsInv(cfg: Config, s: System, e: Event, now: int)
    requires Inv(cfg, s) && Enabled(s, e, now)
    ensures Inv(cfg, Next(cfg, s, e, now))
  {
    PutsStep(cfg, s, e, now);
    AttemptsStep(cfg, s, e, now);
    ResultsStep(cfg, s, e, now);
  }

  // ---------- every run ----------

  ghost predicate Moves(cfg: Config, s: System, e: Event, now: int, s': System) {
    Enabled(s, e, now) && s' == Next(cfg, s, e, now)
  }

  ghost predicate IsRun(cfg: Config, ss: seq<System>, es: seq<Event>, ts: seq<int>) {
    && |ss| == |es| + 1 == |ts| + 1
    && Init(ss[0])
    && forall i :: 0 <= i < |es| ==> Moves(cfg, ss[i], es[i], ts[i], ss[i + 1])
  }

  lemma {:induction false} ReachableInv(cfg: Config, ss: seq<System>, es: seq<Event>, ts: seq<int>, i: nat)
    requires IsRun(cfg, ss, es, ts) && i < |ss|
    ensures Inv(cfg, ss[i])
  {
    hide Next;
    if 0 < i {
      ReachableInv(cfg, ss, es, ts, i - 1);
      assert Moves(cfg, ss[i - 1], es[i - 1], ts[i - 1], ss[i]);
      StepKeepsInv(cfg, ss[i - 1], es[i - 1], ts[i - 1]);
    }
  }

  /** Over all services together, a challenge is used for at most one verified assertion, by an attempt
      that took it no later than it expired. */
  lemma OneAssertionPerChallenge(cfg: Config, ss: seq<System>, es: seq<Event>, ts: seq<int>, i: nat, a: nat, b: nat)
    requires IsRun(cfg, ss, es, ts) && i < |ss| && a < b < |ss[i].verified|
    ensures ss[i].verified[a] < |ss[i].attempts| && ss[i].verified[b] < |ss[i].attempts|
    ensures ss[i].attempts[ss[i].verified[a]].taken.challenge != ss[i].attempts[ss[i].verified[b]].taken.challenge
  {
    ReachableInv(cfg, ss, es, ts, i);
  }

  lemma VerifiedChallengeWasFresh(cfg: Config, ss: seq<System>, es: seq<Event>, ts: seq<int>, i: nat, a: nat)
    requires IsRun(cfg, ss, es, ts) && i < |ss| && a < |ss[i].verified|
    ensures ss[i].verified[a] < |ss[i].attempts|
    ensures var x := ss[i].attempts[ss[i].verified[a]];
            exists p :: p in ss[i].puts && p.challenge == x.taken.challenge && p.at <= x.at <= p.at + cfg.ttlMs
  {
    ReachableInv(cfg, ss, es, ts, i);
    assert AttemptOk(cfg, ss[i], ss[i].attempts[ss[i].verified[a]]);
  }

  /** A passkey completion of an MFA session uses a challenge that the MFA service's own begin issued
      for that very session, not yet expired; and no other put ever had that challenge. */
  lemma CompletionUsesItsOwnChallenge(cfg: Config, ss: seq<System>, es: seq<Event>, ts: seq<int>, i: nat, x: Completion)
    requires IsRun(cfg, ss, es, ts) && i < |ss| && x in ss[i].completions
    ensures exists k :: 0 <= k < |ss[i].puts|
              && ss[i].puts[k].service == Some(cfg.mfaService)
              && ss[i].puts[k].sessionId == Some(x.mfaSession)
              && ss[i].puts[k].at <= x.attempt.at < ss[i].puts[k].at + cfg.ttlMs
              && forall m :: 0 <= m < |ss[i].puts| && ss[i].puts[m].challenge == x.attempt.taken.challenge ==> m == k
  {
    ReachableInv(cfg, ss, es, ts, i);
    assert AttemptOk(cfg, ss[i], x.attempt);
    var p :| p in ss[i].puts && p.service == Some(cfg.mfaService) && p.challenge == x.attempt.taken.challenge
               && p.sessionId == x.attempt.taken.sessionId && p.at <= x.attempt.at < p.at + cfg.ttlMs;
    var k :| 0 <= k < |ss[i].puts| && ss[i].puts[k] == p;
  }
}
