/** Which hits of a run are allowed, told by the hits alone. */
module RateLimitExact {
  import opened Common
  import opened RateLimit

  /** Hit `i` opens a window: every earlier opening of its key lies a whole window back. */
  ghost predicate Opens(p: Policy, hits: seq<Hit>, i: nat)
    requires i < |hits|
  {
    forall j: nat :: j < i && hits[j].key == hits[i].key && Opens(p, hits, j) ==>
      hits[j].at + p.windowMs <= hits[i].at
  }

  /** The last opening of `key` among the first `n` hits, or -1. */
  ghost function Opener(p: Policy, hits: seq<Hit>, n: nat, key: string): (o: int)
    requires n <= |hits|
    ensures -1 <= o < n
    ensures 0 <= o ==> hits[o].key == key && Opens(p, hits, o)
    ensures forall j: nat :: o < j < n && hits[j].key == key ==> !Opens(p, hits, j)
  {
    if n == 0 then -1
    else if hits[n - 1].key == key && Opens(p, hits, n - 1) then n - 1
    else Opener(p, hits, n - 1, key)
  }

  /** The hits of `key` from position `from` on, among the first `n`. */
  function HitsOf(hits: seq<Hit>, key: string, from: nat, n: nat): (k: nat)
    requires n <= |hits|
  {
    if n <= from then 0 else HitsOf(hits, key, from, n - 1) + if hits[n - 1].key == key then 1 else 0
  }

  lemma {:induction false} BucketsOneMore(p: Policy, m: map<string, Bucket>, hits: seq<Hit>, h: Hit)
    ensures var m' := BucketsAfter(p, m, hits);
            BucketsAfter(p, m, hits + [h]) == m'[h.key := Counted(m', h.key, h.at, p)]
    decreases |hits|
  {
    if hits != [] {
      BucketsOneMore(p, m[hits[0].key := Counted(m, hits[0].key, hits[0].at, p)], hits[1..], h);
      assert (hits + [h])[1..] == hits[1..] + [h];
    }
  }

  /** Only the last opening counts. */
  lemma OpensAfterTheLast(p: Policy, hits: seq<Hit>, n: nat)
    requires Chronological(hits) && n < |hits|
    ensures var o := Opener(p, hits, n, hits[n].key);
            Opens(p, hits, n) <==> o == -1 || hits[o].at + p.windowMs <= hits[n].at
  {
    var o := Opener(p, hits, n, hits[n].key);
    forall j: nat | j < n && hits[j].key == hits[n].key && Opens(p, hits, j) ensures hits[j].at <= hits[o].at {
      assert j <= o;
    }
  }

  lemma OpenerStep(p: Policy, hits: seq<Hit>, n: nat, key: string)
    requires n < |hits|
    ensures Opener(p, hits, n + 1, key) ==
              if hits[n].key == key && Opens(p, hits, n) then n else Opener(p, hits, n, key)
  {
  }

  /** The bucket of a key: when its current window was opened, and how many hits there were since. */
  lemma {:induction false} BucketIsTheWindow(p: Policy, hits: seq<Hit>, n: nat, key: string)
    requires Chronological(hits) && n <= |hits|
    ensures var m, o := BucketsAfter(p, map[], hits[..n]), Opener(p, hits, n, key);
            if o == -1 then key !in m && forall j :: 0 <= j < n ==> hits[j].key != key
            else key in m && m[key] == Bucket(hits[o].at, HitsOf(hits, key, o, n))
  {
    if n != 0 {
      var k: nat := n - 1;
      var h, o := hits[k], Opener(p, hits, k, key);
      BucketIsTheWindow(p, hits, k, key);
      BucketsOneMore(p, map[], hits[..k], h);
      assert hits[..n] == hits[..k] + [h];
      OpenerStep(p, hits, k, key);
      OpensAfterTheLast(p, hits, k);
      hide BucketsAfter;
      hide Opens;
      hide Opener;
    }
  }

  lemma {:induction false} AnswerAt(p: Policy, m: map<string, Bucket>, hits: seq<Hit>, i: nat)
    requires i < |hits|
    ensures UnsweptAnswers(p, m, hits)[i] ==
              AnswerOf(Counted(BucketsAfter(p, m, hits[..i]), hits[i].key, hits[i].at, p), hits[i].at, p)
    decreases i
  {
    if i != 0 {
      AnswerAt(p, m[hits[0].key := Counted(m, hits[0].key, hits[0].at, p)], hits[1..], i - 1);
      assert hits[..i][1..] == hits[1..][..i - 1];
    }
  }

  /** The least number of whole seconds, and at least one, after which the window that began at `start` is over. */
  ghost predicate IsLeastWait(p: Policy, start: int, now: int, seconds: int) {
    && 1 <= seconds && start + p.windowMs <= now + 1000 * seconds
    && (seconds == 1 || now + 1000 * (seconds - 1) < start + p.windowMs)
  }

  /** In every run of hits, a hit is allowed exactly if its window, from the hit that opened it on, holds no more than
      the limit with it.  A rejected one is told the least wait until that window is over. */
  lemma AllowedIff(p: Policy, hits: seq<Hit>, i: nat)
    requires Chronological(hits) && i < |hits|
    ensures 0 <= Opener(p, hits, i + 1, hits[i].key)
    ensures var answer, o := Answers(p, Limiter(map[], 0), hits)[i], Opener(p, hits, i + 1, hits[i].key);
            && (answer.allowed <==> HitsOf(hits, hits[i].key, o, i + 1) <= p.limit)
            && (if answer.allowed then answer.retryAfterSec == 0
                else IsLeastWait(p, hits[o].at, hits[i].at, answer.retryAfterSec))
  {
    SweepingIsInvisible(p, hits);
    AnswerAt(p, map[], hits, i);
    BucketIsTheWindow(p, hits, i + 1, hits[i].key);
    BucketsOneMore(p, map[], hits[..i], hits[i]);
    assert hits[..i + 1] == hits[..i] + [hits[i]];
    hide BucketsAfter;
    hide Answers;
    hide Counted;
  }

  /** Requests are counted by their address; those without one are counted together. */
  lemma CountedByAddress(a: Option<string>, b: Option<string>)
    requires a != Some("unknown") && b != Some("unknown")
    ensures KeyOf(a) == KeyOf(b) <==> a == b
    ensures KeyOf(None) == "unknown"
  {
  }
}
