/** The fixed-window rate limiter of the LAN endpoints. */
module RateLimit {
  import opened Common

  datatype Policy = Policy(limit: int, windowMs: int)

  datatype Bucket = Bucket(windowStartedAt: int, count: int)

  datatype Answer = Answer(allowed: bool, retryAfterSec: int)

  predicate StaysInWindow(m: map<string, Bucket>, key: string, now: int, p: Policy) {
    key in m && m[key].windowStartedAt <= now < m[key].windowStartedAt + p.windowMs
  }

  /** The bucket after the hit: the current one counted up, or a new window starting now. */
  function Counted(m: map<string, Bucket>, key: string, now: int, p: Policy): (b: Bucket) {
    if StaysInWindow(m, key, now, p) then m[key].(count := m[key].count + 1) else Bucket(now, 1)
  }

  /** `Math.ceil(ms / 1000)`; Dafny's division rounds down for a positive divisor. */
  function CeilSeconds(ms: int): (s: int)
    ensures 1000 * (s - 1) < ms <= 1000 * s
  {
    -((-ms) / 1000)
  }

  function Max(a: int, b: int): int {
    if a < b then b else a
  }

  function AnswerOf(b: Bucket, now: int, p: Policy): (r: Answer) {
    if b.count <= p.limit then Answer(true, 0)
    else Answer(false, Max(1, CeilSeconds(b.windowStartedAt + p.windowMs - now)))
  }

  function Sweep(m: map<string, Bucket>, now: int, windowMs: int): (r: map<string, Bucket>) {
    map k | k in m && now - m[k].windowStartedAt < windowMs :: m[k]
  }

  /** The limiter behind the middleware: buckets, and a sweep at most once per window. */
  class RateLimiter {
    const policy: Policy
    var buckets: map<string, Bucket>
    var lastSweepAt: int

    constructor (policy: Policy)
      ensures this.policy == policy && Abs() == Limiter(map[], 0)
    {
      this.policy := policy;
      buckets, lastSweepAt := map[], 0;
    }

    ghost function Abs(): Limiter
      reads this
    {
      Limiter(buckets, lastSweepAt)
    }

    method HitRateLimit(key: string, now: int) returns (r: Answer)
      modifies this`buckets
      ensures buckets == old(buckets)[key := Counted(old(buckets), key, now, policy)]
      ensures r == AnswerOf(Counted(old(buckets), key, now, policy), now, policy)
    {
      if key !in buckets || now < buckets[key].windowStartedAt
         || now - buckets[key].windowStartedAt >= policy.windowMs
      {
        buckets := buckets[key := Bucket(now, 0)];
      }
      buckets := buckets[key := buckets[key].(count := buckets[key].count + 1)];
      var bucket := buckets[key];
      if bucket.count <= policy.limit { return Answer(true, 0); }
      var left := CeilSeconds(bucket.windowStartedAt + policy.windowMs - now);
      r := Answer(false, if left < 1 then 1 else left);
    }

    method SweepBuckets(now: int)
      modifies this`buckets
      ensures buckets == Sweep(old(buckets), now, policy.windowMs)
    {
      ghost var before := buckets;
      var todo := buckets.Keys;
      while todo != {}
        invariant todo <= before.Keys
        invariant buckets ==
                    map k | k in before && (k in todo || now - before[k].windowStartedAt < policy.windowMs) :: before[k]
      {
        var k :| k in todo;
        if now - buckets[k].windowStartedAt >= policy.windowMs { buckets := Without(buckets, k); }
        todo := todo - {k};
      }
    }

    /** One request that the limiter applies to; `None` is an address that could not be resolved. */
    method Handle(address: Option<string>, now: int) returns (r: Answer)
      modifies this
      ensures (Abs(), r) == HandleHit(policy, old(Abs()), KeyOf(address), now)
    {
      if now - lastSweepAt >= policy.windowMs {
        SweepBuckets(now);
        lastSweepAt := now;
      }
      r := HitRateLimit(KeyOf(address), now);
    }
  }

  function KeyOf(address: Option<string>): string {
    if address.Some? then address.value else "unknown"
  }

  datatype Limiter = Limiter(buckets: map<string, Bucket>, lastSweepAt: int)

  function HandleHit(p: Policy, l: Limiter, key: string, now: int): (r: (Limiter, Answer)) {
    var l' := if now - l.lastSweepAt >= p.windowMs then Limiter(Sweep(l.buckets, now, p.windowMs), now) else l;
    var b := Counted(l'.buckets, key, now, p);
    (l'.(buckets := l'.buckets[key := b]), AnswerOf(b, now, p))
  }

  // ---------- runs ----------

  datatype Hit = Hit(key: string, at: int)

  ghost predicate Chronological(hits: seq<Hit>) {
    forall i, j :: 0 <= i < j < |hits| ==> hits[i].at <= hits[j].at
  }

  /** The answers of the limiter to a sequence of hits. */
  function Answers(p: Policy, l: Limiter, hits: seq<Hit>): (r: seq<Answer>)
    ensures |r| == |hits|
    decreases |hits|
  {
    if hits == [] then []
    else
      var step := HandleHit(p, l, hits[0].key, hits[0].at);
      [step.1] + Answers(p, step.0, hits[1..])
  }

  /** The same without ever sweeping. */
  function UnsweptAnswers(p: Policy, m: map<string, Bucket>, hits: seq<Hit>): (r: seq<Answer>)
    ensures |r| == |hits|
    decreases |hits|
  {
    if hits == [] then []
    else
      var b := Counted(m, hits[0].key, hits[0].at, p);
      [AnswerOf(b, hits[0].at, p)] + UnsweptAnswers(p, m[hits[0].key := b], hits[1..])
  }

  /** `swept` lacks only buckets of windows that have ended by `now`. */
  ghost predicate LacksOnlyStale(p: Policy, swept: map<string, Bucket>, full: map<string, Bucket>, now: int) {
    forall k :: k in full || k in swept ==>
      && k in full
      && if k in swept then swept[k] == full[k] else full[k].windowStartedAt + p.windowMs <= now
  }

  lemma {:induction false} SweptAnswersFrom(p: Policy, l: Limiter, full: map<string, Bucket>, now: int, hits: seq<Hit>)
    requires LacksOnlyStale(p, l.buckets, full, now) && Chronological(hits)
    requires forall i :: 0 <= i < |hits| ==> now <= hits[i].at
    ensures Answers(p, l, hits) == UnsweptAnswers(p, full, hits)
    decreases |hits|
  {
    if hits != [] {
      var key, at := hits[0].key, hits[0].at;
      var step := HandleHit(p, l, key, at);
      var full' := full[key := Counted(full, key, at, p)];
      assert LacksOnlyStale(p, l.buckets, full, at);
      assert forall i :: 0 <= i < |hits[1..]| ==> hits[1..][i] == hits[i + 1];
      SweptAnswersFrom(p, step.0, full', at, hits[1..]);
    }
  }

  /** With a clock that does not go back, sweeping never changes an answer. */
  lemma SweepingIsInvisible(p: Policy, hits: seq<Hit>)
    requires Chronological(hits)
    ensures Answers(p, Limiter(map[], 0), hits) == UnsweptAnswers(p, map[], hits)
  {
    if hits != [] { SweptAnswersFrom(p, Limiter(map[], 0), map[], hits[0].at, hits); }
  }

  // ---------- the sliding-window bound ----------

  /** How many hits of `key` in the half-open interval [a, a + windowMs) are allowed. */
  function AllowedIn(p: Policy, hits: seq<Hit>, answers: seq<Answer>, key: string, a: int): (n: nat)
    requires |answers| == |hits|
  {
    if hits == [] then 0
    else
      (if hits[0].key == key && a <= hits[0].at < a + p.windowMs && answers[0].allowed then 1 else 0)
      + AllowedIn(p, hits[1..], answers[1..], key, a)
  }

  /** The same, when nothing is swept and the buckets are `m` at first. */
  function Allowed(p: Policy, m: map<string, Bucket>, hits: seq<Hit>, key: string, a: int): (n: nat) {
    AllowedIn(p, hits, UnsweptAnswers(p, m, hits), key, a)
  }

  lemma FirstHit(p: Policy, m: map<string, Bucket>, h: Hit, rest: seq<Hit>, key: string, a: int)
    ensures var b := Counted(m, h.key, h.at, p);
            Allowed(p, m, [h] + rest, key, a)
              == (if h.key == key && a <= h.at < a + p.windowMs && b.count <= p.limit then 1 else 0)
                 + Allowed(p, m[h.key := b], rest, key, a)
  {
    var hits, b := [h] + rest, Counted(m, h.key, h.at, p);
    assert hits[1..] == rest;
    assert UnsweptAnswers(p, m, hits)[1..] == UnsweptAnswers(p, m[h.key := b], rest);
  }

  /** What the bucket of a key still allows in [a, a + windowMs).  A window that starts before `a`
      has spent at least one hit outside; the window after one that starts at `a` or later is too late. */
  function Allowance(p: Policy, m: map<string, Bucket>, key: string, a: int): (n: int) {
    if key !in m || m[key].windowStartedAt + p.windowMs <= a then Max(0, 2 * p.limit - 1)
    else if m[key].windowStartedAt < a then Max(0, p.limit - m[key].count) + Max(0, p.limit)
    else if m[key].windowStartedAt < a + p.windowMs then Max(0, p.limit - m[key].count)
    else 0
  }

  lemma {:induction false} AllowedWithinAllowance(p: Policy, m: map<string, Bucket>, hits: seq<Hit>, key: string,
                                                  a: int)
    requires Chronological(hits) && (key in m ==> 1 <= m[key].count)
    requires key in m ==> forall i :: 0 <= i < |hits| ==> m[key].windowStartedAt <= hits[i].at
    ensures Allowed(p, m, hits, key, a) <= Allowance(p, m, key, a)
    decreases |hits|
  {
    if hits != [] {
      hide Allowed;
      var h, rest := hits[0], hits[1..];
      assert hits == [h] + rest;
      FirstHit(p, m, h, rest, key, a);
      assert forall i :: 0 <= i < |rest| ==> rest[i] == hits[i + 1];
      AllowedWithinAllowance(p, m[h.key := Counted(m, h.key, h.at, p)], rest, key, a);
    }
  }

  /** Any half-open interval of one window length holds at most 2 * limit - 1 allowed hits per key. */
  lemma AlmostTwiceTheLimit(p: Policy, hits: seq<Hit>, key: string, a: int)
    requires Chronological(hits)
    ensures AllowedIn(p, hits, Answers(p, Limiter(map[], 0), hits), key, a) <= Max(0, 2 * p.limit - 1)
  {
    SweepingIsInvisible(p, hits);
    AllowedWithinAllowance(p, map[], hits, key, a);
  }

  function Burst(key: string, at: int, n: nat): (r: seq<Hit>)
    ensures |r| == n && forall i :: 0 <= i < n ==> r[i] == Hit(key, at)
  {
    seq(n, i => Hit(key, at))
  }

  /** A burst inside the running window that stays within the limit is allowed hit by hit. */
  lemma {:induction false} BurstAllowed(p: Policy, m: map<string, Bucket>, key: string, at: int, n: nat, rest: seq<Hit>,
                                        a: int)
    requires n == 0 || (StaysInWindow(m, key, at, p) && m[key].count + n <= p.limit && a <= at < a + p.windowMs)
    ensures var m' := if n == 0 then m else m[key := m[key].(count := m[key].count + n)];
            Allowed(p, m, Burst(key, at, n) + rest, key, a) == n + Allowed(p, m', rest, key, a)
    decreases n
  {
    hide Allowed;
    if n == 0 {
      assert Burst(key, at, n) + rest == rest;
    } else {
      var next, more := m[key := Counted(m, key, at, p)], Burst(key, at, n - 1) + rest;
      assert Burst(key, at, n) + rest == [Hit(key, at)] + more;
      FirstHit(p, m, Hit(key, at), more, key, a);
      BurstAllowed(p, next, key, at, n - 1, rest, a);
      if 1 < n {
        assert next[key := next[key].(count := next[key].count + (n - 1))] ==
               m[key := m[key].(count := m[key].count + n)];
      }
    }
  }

  function LastBurst(p: Policy, key: string): seq<Hit>
    requires 1 <= p.limit
  {
    [Hit(key, p.windowMs)] + Burst(key, p.windowMs, p.limit - 1)
  }

  /** The hit that ends the first window opens the next one, which holds a whole limit. */
  lemma LastBurstAllowed(p: Policy, key: string)
    requires 1 <= p.limit && 2 <= p.windowMs
    ensures Allowed(p, map[key := Bucket(0, p.limit)], LastBurst(p, key), key, p.windowMs - 1) == p.limit
  {
    var w, tail := p.windowMs, Burst(key, p.windowMs, p.limit - 1);
    var m: map<string, Bucket> := map[key := Bucket(0, p.limit)];
    var next: map<string, Bucket> := map[key := Bucket(w, 1)];
    FirstHit(p, m, Hit(key, w), tail, key, w - 1);
    hide AllowedIn;
    assert m[key := Bucket(w, 1)] == next && tail + [] == tail;
    BurstAllowed(p, next, key, w, p.limit - 1, [], w - 1);
    NothingAllowed(p, if p.limit == 1 then next else next[key := Bucket(w, p.limit)], key, w - 1);
  }

  lemma NothingAllowed(p: Policy, m: map<string, Bucket>, key: string, a: int)
    ensures Allowed(p, m, [], key, a) == 0
  {
  }

  /** One hit opens a window and the rest of it comes at its last millisecond. */
  function SharpRun(p: Policy, key: string): seq<Hit>
    requires 1 <= p.limit
  {
    [Hit(key, 0)] + (Burst(key, p.windowMs - 1, p.limit - 1) + LastBurst(p, key))
  }

  lemma SharpRunAllowed(p: Policy, key: string)
    requires 1 <= p.limit && 2 <= p.windowMs
    ensures Allowed(p, map[], SharpRun(p, key), key, p.windowMs - 1) == 2 * p.limit - 1
  {
    hide Allowed;
    var w := p.windowMs;
    var first: map<string, Bucket> := map[key := Bucket(0, 1)];
    var full: map<string, Bucket> := map[key := Bucket(0, p.limit)];
    FirstHit(p, map[], Hit(key, 0), Burst(key, w - 1, p.limit - 1) + LastBurst(p, key), key, w - 1);
    BurstAllowed(p, first, key, w - 1, p.limit - 1, LastBurst(p, key), w - 1);
    assert (if p.limit == 1 then first else first[key := Bucket(0, p.limit)]) == full;
    LastBurstAllowed(p, key);
  }

  /** The bound is sharp for every positive limit. */
  lemma BoundIsSharp(p: Policy, key: string)
    requires 1 <= p.limit && 2 <= p.windowMs
    ensures exists hits, a :: Chronological(hits)
              && AllowedIn(p, hits, Answers(p, Limiter(map[], 0), hits), key, a) == 2 * p.limit - 1
  {
    hide AllowedIn;
    hide UnsweptAnswers;
    var hits := SharpRun(p, key);
    assert Chronological(hits);
    SweepingIsInvisible(p, hits);
    SharpRunAllowed(p, key);
  }

  // ---------- Retry-After ----------

  function BucketsAfter(p: Policy, m: map<string, Bucket>, hits: seq<Hit>): (r: map<string, Bucket>)
    decreases |hits|
  {
    if hits == [] then m else BucketsAfter(p, m[hits[0].key := Counted(m, hits[0].key, hits[0].at, p)], hits[1..])
  }

  /** A key's window is the same one as before, or one that starts after it ended. */
  lemma {:induction false} WindowsDoNotOverlap(p: Policy, m: map<string, Bucket>, hits: seq<Hit>, key: string)
    requires Chronological(hits) && key in m
    requires forall i :: 0 <= i < |hits| ==> m[key].windowStartedAt <= hits[i].at
    ensures var m' := BucketsAfter(p, m, hits);
            && key in m'
            && (m'[key].windowStartedAt == m[key].windowStartedAt
                || m[key].windowStartedAt + p.windowMs <= m'[key].windowStartedAt)
            && (hits != [] ==> m'[key].windowStartedAt <= hits[|hits| - 1].at)
            && ((forall i :: 0 <= i < |hits| ==> hits[i].key != key) ==> m'[key] == m[key])
    decreases |hits|
  {
    if hits != [] {
      var h := hits[0];
      var next := m[h.key := Counted(m, h.key, h.at, p)];
      assert forall i :: 0 <= i < |hits[1..]| ==> hits[1..][i] == hits[i + 1];
      if 1 < |hits| { assert hits[1..][|hits| - 2] == hits[|hits| - 1]; }
      assert h.key != key || next[key].windowStartedAt == m[key].windowStartedAt
             || m[key].windowStartedAt + p.windowMs <= next[key].windowStartedAt;
      WindowsDoNotOverlap(p, next, hits[1..], key);
    }
  }

  /** After a rejection, a hit at least `retryAfterSec` later belongs to a later window, whatever came
      in between; if nothing of that key came in between it is allowed. */
  lemma RetryAfterIsHonest(p: Policy, m: map<string, Bucket>, key: string, now: int, between: seq<Hit>, t: int)
    requires 0 <= p.windowMs && (key in m ==> m[key].windowStartedAt <= now)
    requires var b := Counted(m, key, now, p); !AnswerOf(b, now, p).allowed
    requires Chronological(between) && forall i :: 0 <= i < |between| ==> now <= between[i].at <= t
    requires now + 1000 * AnswerOf(Counted(m, key, now, p), now, p).retryAfterSec <= t
    ensures var b := Counted(m, key, now, p);
            var later := Counted(BucketsAfter(p, m[key := b], between), key, t, p);
            && b.windowStartedAt + p.windowMs <= later.windowStartedAt
            && (1 <= p.limit && (forall i :: 0 <= i < |between| ==> between[i].key != key) ==>
                  AnswerOf(later, t, p).allowed)
  {
    WindowsDoNotOverlap(p, m[key := Counted(m, key, now, p)], between, key);
  }
}
