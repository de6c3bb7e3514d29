/** Whom an assertion identifies, when exactly its challenge is taken, and when a challenge is gone. */
module PasskeyExact {
  import opened Common
  import opened Passkey
  import opened PasskeyProtocol
  import Base64Url

  /** A canonical signature, a known credential and a challenge that is not empty. */
  predicate InOrder(response: Response) {
    && Base64Url.IsCanonicalBase64Url(response.signature)
    && response.knownUser.Some? && response.challenge.Some? && response.challenge.value != ""
  }

  /** What a request is refused for, in the order of the checks. */
  lemma RefusedIff(expiries: map<string, int>, bindings: map<string, Binding>, response: Response, now: int)
    ensures var r := TakeResult(expiries, bindings, response, now);
            var signed, known := Base64Url.IsCanonicalBase64Url(response.signature), response.knownUser.Some?;
            var named := response.challenge.Some? && response.challenge.value != "";
            && (r == Err(AssertionFailed) <==> !signed)
            && (r == Err(UnknownCredential) <==> signed && !known)
            && (r == Err(BadRequest) <==> signed && known && !named)
            && (r == Err(ChallengeExpired) <==>
                  signed && known && named
                  && (response.challenge.value in expiries ==> expiries[response.challenge.value] < now))
  {
  }

  /** The session that the begin of this service bound to the challenge, if that has not expired. */
  function SessionFor(s: System, service: nat, challenge: string, now: int): Option<string> {
    if service in s.bindings && challenge in s.bindings[service] && now < s.bindings[service][challenge].expiresAt
    then Some(s.bindings[service][challenge].sessionId) else None
  }

  /** In every run, a finish takes its challenge exactly if the request is in order and the challenge stored and
      not past its expiry.  The attempt is then for the owner of the credential and for that challenge. */
  lemma TakenIff(cfg: Config, ss: seq<System>, es: seq<Event>, ts: seq<int>, i: nat)
    requires IsRun(cfg, ss, es, ts) && i < |es| && es[i].FinishStart?
    ensures var s, v, response, now := ss[i], es[i].service, es[i].response, ts[i];
            ss[i + 1].attempts ==
              if InOrder(response) && response.challenge.value in s.expiries
                 && now <= s.expiries[response.challenge.value]
              then
                var user, c := response.knownUser.value, response.challenge.value;
                s.attempts + [Attempt(v, Taken(user, c, SessionFor(s, v, c, now)), now)]
              else s.attempts
  {
    assert Moves(cfg, ss[i], es[i], ts[i], ss[i + 1]);
  }

  /** A finish on this service whose request names this user and this challenge. */
  ghost predicate Requested(es: seq<Event>, ts: seq<int>, j: nat, x: Attempt) {
    && j < |es| && j < |ts| && ts[j] == x.at && es[j].FinishStart? && es[j].service == x.service
    && InOrder(es[j].response)
    && es[j].response.knownUser == Some(x.taken.userId) && es[j].response.challenge == Some(x.taken.challenge)
  }

  ghost predicate WasRequested(es: seq<Event>, ts: seq<int>, i: nat, x: Attempt) {
    exists j: nat :: j < i && Requested(es, ts, j, x)
  }

  /** In every run, every attempt comes from a request of its service that names its user and its challenge. */
  lemma {:induction false} AttemptWasRequested(cfg: Config, ss: seq<System>, es: seq<Event>, ts: seq<int>, i: nat,
                                               x: Attempt)
    requires IsRun(cfg, ss, es, ts) && i < |ss| && x in ss[i].attempts
    ensures WasRequested(es, ts, i, x)
  {
    if 0 < i {
      if x in ss[i - 1].attempts {
        AttemptWasRequested(cfg, ss, es, ts, i - 1, x);
      } else {
        assert Moves(cfg, ss[i - 1], es[i - 1], ts[i - 1], ss[i]);
        assert Requested(es, ts, i - 1, x);
      }
    }
  }

  /** In every run, every verified assertion and every completion identifies the user that an earlier request
      named, by the challenge that it named. */
  lemma VerifiedWasRequested(cfg: Config, ss: seq<System>, es: seq<Event>, ts: seq<int>, i: nat)
    requires IsRun(cfg, ss, es, ts) && i < |ss|
    ensures forall a :: 0 <= a < |ss[i].verified| ==>
              && ss[i].verified[a] < |ss[i].attempts|
              && WasRequested(es, ts, i, ss[i].attempts[ss[i].verified[a]])
    ensures forall x :: x in ss[i].completions ==> WasRequested(es, ts, i, x.attempt)
  {
    ReachableInv(cfg, ss, es, ts, i);
    forall x | x in ss[i].attempts ensures WasRequested(es, ts, i, x) {
      AttemptWasRequested(cfg, ss, es, ts, i, x);
    }
  }

  /** In every run, the verifier's answer decides: it verifies the attempt it is about, and completes an MFA session
      exactly if the attempt was made on the MFA service for that very session. */
  lemma CompletedIff(cfg: Config, ss: seq<System>, es: seq<Event>, ts: seq<int>, i: nat)
    requires IsRun(cfg, ss, es, ts) && i < |es| && es[i].FinishSettled?
    ensures es[i].attempt < |ss[i].attempts|
    ensures var s, s', x := ss[i], ss[i + 1], ss[i].attempts[es[i].attempt];
            && s'.verified == s.verified + (if es[i].accepted then [es[i].attempt] else [])
            && s'.completions == s.completions +
                 (if es[i].accepted && x.service == cfg.mfaService && x.taken.sessionId == Some(es[i].mfaSession)
                  then [Completion(es[i].mfaSession, x)] else [])
  {
    assert Moves(cfg, ss[i], es[i], ts[i], ss[i + 1]);
  }

  // ---------- how long a challenge lives ----------

  /** A finish that is in order uses up its challenge, whether or not it is still good. */
  ghost predicate UsesUp(e: Event, challenge: string) {
    e.FinishStart? && InOrder(e.response) && e.response.challenge == Some(challenge)
  }

  /** In every run, a challenge leaves the store exactly when it is used up, or at the begin of any service once it
      is past its expiry; the binding of a service leaves with it, or at the begin of that service when it expires. */
  lemma GoneIff(cfg: Config, ss: seq<System>, es: seq<Event>, ts: seq<int>, i: nat, challenge: string, v: nat)
    requires IsRun(cfg, ss, es, ts) && i < |es|
    ensures var s, s', e, now := ss[i], ss[i + 1], es[i], ts[i];
            && (challenge in s.expiries ==>
                  (challenge !in s'.expiries <==>
                     UsesUp(e, challenge) || (e.BeginStart? && s.expiries[challenge] < now)))
            && (challenge in BindingsOf(s, v) ==>
                  (challenge !in BindingsOf(s', v) <==>
                     (UsesUp(e, challenge) && e.service == v)
                     || (e.BeginStart? && e.service == v && BindingsOf(s, v)[challenge].expiresAt <= now)))
  {
    assert Moves(cfg, ss[i], es[i], ts[i], ss[i + 1]);
  }

  /** A challenge put by the begin of a service, with the session it was given unless that is empty. */
  lemma PutsWithSession(cfg: Config, ss: seq<System>, es: seq<Event>, ts: seq<int>, i: nat)
    requires IsRun(cfg, ss, es, ts) && i < |es| && es[i].BeginSettled?
    ensures var s', v, c, expiry := ss[i + 1], es[i].service, es[i].challenge, ts[i] + cfg.ttlMs;
            && c in s'.expiries && s'.expiries[c] == expiry
            && (es[i].sessionId.Some? && es[i].sessionId.value != "" ==>
                  c in BindingsOf(s', v) && BindingsOf(s', v)[c] == Binding(es[i].sessionId.value, expiry))
  {
    assert Moves(cfg, ss[i], es[i], ts[i], ss[i + 1]);
  }

  ghost predicate NotUsedUp(es: seq<Event>, i: nat, j: nat, challenge: string) {
    forall k :: i < k < j && k < |es| ==> !UsesUp(es[k], challenge)
  }

  lemma {:induction false} StaysGood(cfg: Config, ss: seq<System>, es: seq<Event>, ts: seq<int>, i: nat, j: nat)
    requires IsRun(cfg, ss, es, ts) && i < j < |ss| && es[i].BeginSettled? && NotUsedUp(es, i, j, es[i].challenge)
    requires ss[j].clock <= ts[i] + cfg.ttlMs
    ensures var s, v, c, expiry := ss[j], es[i].service, es[i].challenge, ts[i] + cfg.ttlMs;
            && c in s.expiries && s.expiries[c] == expiry
            && (es[i].sessionId.Some? && es[i].sessionId.value != "" && s.clock < expiry ==>
                  c in BindingsOf(s, v) && BindingsOf(s, v)[c] == Binding(es[i].sessionId.value, expiry))
            && (exists p :: p in s.puts && p.challenge == c)
    decreases j
  {
    if j == i + 1 {
      PutsWithSession(cfg, ss, es, ts, i);
      assert Moves(cfg, ss[i], es[i], ts[i], ss[i + 1]);
      var p := PutRecord(Some(es[i].service), es[i].challenge, Bound(es[i].sessionId), ts[i]);
      assert ss[j].puts == ss[i].puts + [p];
      assert p in ss[j].puts;
    } else {
      assert Moves(cfg, ss[j - 1], es[j - 1], ts[j - 1], ss[j]);
      StaysGood(cfg, ss, es, ts, i, j - 1);
      var p :| p in ss[j - 1].puts && p.challenge == es[i].challenge;
      PutsGrow(cfg, ss[j - 1], es[j - 1], ts[j - 1]);
      assert p in ss[j].puts;
      GoneIff(cfg, ss, es, ts, j - 1, es[i].challenge, es[i].service);
      KeepsItsPlace(cfg, ss[j - 1], es[j - 1], ts[j - 1], es[i].challenge, es[i].service);
    }
  }

  /** Challenges are never drawn twice, so what stays in the store stays as it was put. */
  lemma KeepsItsPlace(cfg: Config, s: System, e: Event, now: int, challenge: string, v: nat)
    requires Enabled(s, e, now) && exists p :: p in s.puts && p.challenge == challenge
    ensures var s' := Next(cfg, s, e, now);
            && (challenge in s.expiries && challenge in s'.expiries ==> s'.expiries[challenge] == s.expiries[challenge])
            && (challenge in BindingsOf(s, v) && challenge in BindingsOf(s', v) ==>
                  BindingsOf(s', v)[challenge] == BindingsOf(s, v)[challenge])
  {
  }

  /** In every run, the first finish in order with a challenge, no later than it expires, is an attempt for the owner
      of its credential, and before that, on the service of the begin, for the session of the begin. */
  lemma FreshChallengeIsTaken(cfg: Config, ss: seq<System>, es: seq<Event>, ts: seq<int>, i: nat, j: nat)
    requires IsRun(cfg, ss, es, ts) && i < j < |es| && es[i].BeginSettled? && NotUsedUp(es, i, j, es[i].challenge)
    requires UsesUp(es[j], es[i].challenge) && ts[j] <= ts[i] + cfg.ttlMs
    ensures |ss[j + 1].attempts| == |ss[j].attempts| + 1 && ss[j + 1].attempts[..|ss[j].attempts|] == ss[j].attempts
    ensures var x := ss[j + 1].attempts[|ss[j].attempts|];
            && x.service == es[j].service && x.at == ts[j]
            && x.taken.userId == es[j].response.knownUser.value && x.taken.challenge == es[i].challenge
            && (es[j].service == es[i].service && ts[j] < ts[i] + cfg.ttlMs
                && es[i].sessionId.Some? && es[i].sessionId.value != "" ==>
                  x.taken.sessionId == es[i].sessionId)
  {
    assert Moves(cfg, ss[j], es[j], ts[j], ss[j + 1]);
    StaysGood(cfg, ss, es, ts, i, j);
    TakenIff(cfg, ss, es, ts, j);
  }
}
