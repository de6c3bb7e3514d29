/** Passkey challenges: a one-shot challenge store shared by several services, each with its own
    binding of challenges to kiosk sessions.  Assertion verification (section 7.2 of Web
    Authentication Level 2) is an oracle. */
module Passkey {
  import opened Common
  import opened IdentitySessions
  import Base64Url

  datatype Binding = Binding(sessionId: string, expiresAt: int)

  function SweepChallenges(m: map<string, int>, now: int): (r: map<string, int>) {
    map c | c in m && m[c] >= now :: m[c]
  }

  function SweepBindings(m: map<string, Binding>, now: int): (r: map<string, Binding>) {
    map c | c in m && m[c].expiresAt > now :: m[c]
  }

  /** A challenge is good up to and including the instant it expires ... */
  predicate IsGood(m: map<string, int>, challenge: string, now: int) {
    challenge in m && now <= m[challenge]
  }

  /** ... but its session binding is not. */
  function BoundSession(m: map<string, Binding>, challenge: string, now: int): (r: Option<string>) {
    if challenge in m && m[challenge].expiresAt > now then Some(m[challenge].sessionId) else None
  }

  class ChallengeStore {
    var expiries: map<string, int>
    const ttlMs: nat

    constructor (ttlMs: nat)
      ensures this.ttlMs == ttlMs && expiries == map[]
    {
      this.ttlMs := ttlMs;
      expiries := map[];
    }

    method Put(challenge: string, now: int) returns (expiresAt: int)
      modifies this
      ensures expiresAt == now + ttlMs && expiries == old(expiries)[challenge := expiresAt]
    {
      expiresAt := now + ttlMs;
      expiries := expiries[challenge := expiresAt];
    }

    method Consume(challenge: string, now: int) returns (ok: bool)
      modifies this
      ensures ok == IsGood(old(expiries), challenge, now) && expiries == Without(old(expiries), challenge)
    {
      if challenge !in expiries {
        assert Without(expiries, challenge) == expiries;
        return false;
      }
      ok := expiries[challenge] >= now;
      expiries := Without(expiries, challenge);
    }

    method Sweep(now: int)
      modifies this
      ensures expiries == SweepChallenges(old(expiries), now)
    {
      ghost var before := expiries;
      var todo := expiries.Keys;
      while todo != {}
        invariant todo <= before.Keys
        invariant expiries == map c | c in before && (c in todo || before[c] >= now) :: before[c]
      {
        var c :| c in todo;
        if expiries[c] < now { expiries := Without(expiries, c); }
        todo := todo - {c};
      }
    }
  }

  /** What the request carries, as far as it is examined before the signature is checked. */
  datatype Response = Response(signature: string, knownUser: Option<string>, challenge: Option<string>)

  datatype Refusal = AssertionFailed | UnknownCredential | BadRequest | ChallengeExpired

  /** An assertion whose challenge has been used up, waiting for the verifier. */
  datatype Taken = Taken(userId: string, challenge: string, sessionId: Option<string>)

  class PasskeyCheckinService {
    const challenges: ChallengeStore
    var sessionByChallenge: map<string, Binding>

    constructor (challenges: ChallengeStore)
      ensures this.challenges == challenges && sessionByChallenge == map[]
    {
      this.challenges := challenges;
      sessionByChallenge := map[];
    }

    /** `begin` before its options are generated. */
    method BeginSweep(now: int)
      modifies this, challenges
      ensures challenges.expiries == SweepChallenges(old(challenges.expiries), now)
      ensures sessionByChallenge == SweepBindings(old(sessionByChallenge), now)
    {
      challenges.Sweep(now);
      ghost var before := sessionByChallenge;
      var todo := sessionByChallenge.Keys;
      while todo != {}
        invariant todo <= before.Keys
        invariant challenges.expiries == SweepChallenges(old(challenges.expiries), now)
        invariant sessionByChallenge == map c | c in before && (c in todo || before[c].expiresAt > now) :: before[c]
      {
        var c :| c in todo;
        if sessionByChallenge[c].expiresAt <= now { sessionByChallenge := Without(sessionByChallenge, c); }
        todo := todo - {c};
      }
    }

    /** `begin` after its options were generated; an empty session identifier binds nothing. */
    method BeginIssue(challenge: string, sessionId: Option<string>, now: int)
      modifies this, challenges
      ensures challenges.expiries == old(challenges.expiries)[challenge := now + challenges.ttlMs]
      ensures sessionByChallenge == Bind(old(sessionByChallenge), challenge, sessionId, now + challenges.ttlMs)
    {
      var expiresAt := challenges.Put(challenge, now);
      if sessionId.Some? && sessionId.value != "" {
        sessionByChallenge := sessionByChallenge[challenge := Binding(sessionId.value, expiresAt)];
      }
    }

    /** `verifyAssertion` up to the verifier: the binding and the challenge are used up in one segment. */
    method TakeAssertion(response: Response, now: int) returns (r: Result<Taken, Refusal>)
      modifies this, challenges
      ensures r == TakeResult(old(challenges.expiries), old(sessionByChallenge), response, now)
      ensures if Examined(response)
              then challenges.expiries == Without(old(challenges.expiries), response.challenge.value)
                   && sessionByChallenge == Without(old(sessionByChallenge), response.challenge.value)
              else challenges.expiries == old(challenges.expiries) && sessionByChallenge == old(sessionByChallenge)
    {
      if !Base64Url.IsCanonicalBase64Url(response.signature) { return Err(AssertionFailed); }
      if response.knownUser.None? { return Err(UnknownCredential); }
      if response.challenge.None? || response.challenge.value == "" { return Err(BadRequest); }
      var challenge := response.challenge.value;
      var sessionId := TakeSessionId(challenge, now);
      var good := challenges.Consume(challenge, now);
      if !good { return Err(ChallengeExpired); }
      r := Ok(Taken(response.knownUser.value, challenge, sessionId));
    }

    method TakeSessionId(challenge: string, now: int) returns (r: Option<string>)
      modifies this
      ensures r == BoundSession(old(sessionByChallenge), challenge, now)
      ensures sessionByChallenge == Without(old(sessionByChallenge), challenge)
    {
      r := None;
      if challenge in sessionByChallenge && sessionByChallenge[challenge].expiresAt > now {
        r := Some(sessionByChallenge[challenge].sessionId);
      }
      sessionByChallenge := Without(sessionByChallenge, challenge);
    }
  }

  function Bind(m: map<string, Binding>, challenge: string, sessionId: Option<string>, expiresAt: int): (r: map<string,
      Binding>)
  {
    if sessionId.Some? && sessionId.value != "" then m[challenge := Binding(sessionId.value, expiresAt)] else m
  }

  /** The request reaches the point where its challenge is used up. */
  predicate Examined(response: Response) {
    && Base64Url.IsCanonicalBase64Url(response.signature)
    && response.knownUser.Some?
    && response.challenge.Some? && response.challenge.value != ""
  }

  function TakeResult(expiries: map<string, int>, bindings: map<string, Binding>, response: Response, now: int)
    : (r: Result<Taken, Refusal>)
  {
    if !Base64Url.IsCanonicalBase64Url(response.signature) then Err(AssertionFailed)
    else if response.knownUser.None? then Err(UnknownCredential)
    else if response.challenge.None? || response.challenge.value == "" then Err(BadRequest)
    else if !IsGood(expiries, response.challenge.value, now) then Err(ChallengeExpired)
    else
      var challenge := response.challenge.value;
      Ok(Taken(response.knownUser.value, challenge, BoundSession(bindings, challenge, now)))
  }
}
