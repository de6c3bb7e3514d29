/** What the similarity of two vectors is, and whom the scan of a roster finds. */
module FaceMatcherExact {
  import opened Common
  import opened FaceMatcher

  // ---------- the inner product ----------

  /** All zeros except for a one at position `i`. */
  function Unit(i: nat): (v: Vector) {
    seq(i, _ => 0.0) + [1.0]
  }

  function Plus(v: Vector, w: Vector): (r: Vector)
    requires |v| == |w|
  {
    seq(|v|, i requires 0 <= i < |v| => v[i] + w[i])
  }

  function Times(a: real, v: Vector): (r: Vector) {
    seq(|v|, i requires 0 <= i < |v| => a * v[i])
  }

  /** Symmetric and linear in either argument. */
  lemma {:induction false} DotIsBilinear(u: Vector, v: Vector, w: Vector, a: real, n: nat)
    requires |v| == |w|
    ensures Dot(u, v, n) == Dot(v, u, n)
    ensures Dot(u, Plus(v, w), n) == Dot(u, v, n) + Dot(u, w, n)
    ensures Dot(u, Times(a, v), n) == a * Dot(u, v, n)
  {
    if n != 0 {
      DotIsBilinear(u, v, w, a, n - 1);
      var x, y, z := At(u, n - 1), At(v, n - 1), At(w, n - 1);
      assert At(Plus(v, w), n - 1) == y + z;
      assert At(Times(a, v), n - 1) == a * y;
      Distribute(x, y, z, a, Dot(u, v, n - 1));
    }
  }

  lemma Distribute(x: real, y: real, z: real, a: real, d: real)
    ensures x * (y + z) == x * y + x * z
    ensures a * d + x * (a * y) == a * (d + x * y)
  {
  }

  /** With a unit vector it gives one coordinate, so it is the inner product of the first `n` coordinates. */
  lemma {:induction false} DotWithUnit(v: Vector, i: nat, n: nat)
    ensures Dot(v, Unit(i), n) == if i < n && i < |v| then v[i] else 0.0
  {
    if n != 0 { DotWithUnit(v, i, n - 1); }
  }

  // ---------- the similarity ----------

  predicate Vanishes(v: Vector, n: nat) {
    forall i :: 0 <= i < |v| && i < n ==> v[i] == 0.0
  }

  lemma {:induction false} NormIsZeroIff(v: Vector, n: nat)
    ensures 0.0 <= Dot(v, v, n)
    ensures Dot(v, v, n) == 0.0 <==> Vanishes(v, n)
  {
    if n != 0 {
      NormIsZeroIff(v, n - 1);
      var d, x, e := Dot(v, v, n - 1), At(v, n - 1), Dot(v, v, n);
      DotGrows(v, v, n);
      hide Dot;
      AddSquare(d, x, e);
      if x == 0.0 {
        assert e == d;
        assert forall i :: 0 <= i < |v| && i < n ==> i < n - 1 || v[i] == 0.0;
      } else {
        assert d < e && v[n - 1] != 0.0;
      }
    }
  }

  lemma AddSquare(d: real, x: real, e: real)
    requires e == d + x * x
    ensures if x == 0.0 then e == d else d < e
  {
    if x < 0.0 {
      Positive(-x, -x);
      AddPositive(d, -x, -x, e);
    } else if 0.0 < x {
      Positive(x, x);
      AddPositive(d, x, x, e);
    }
  }

  lemma AddPositive(d: real, x: real, y: real, e: real)
    requires 0.0 < x * y && e == d + x * y
    ensures d < e
  {
  }

  /** The similarity of vectors that do not vanish has the sign of their inner product, and its square is the
      square of the inner product over the squared norms; with a vanishing vector it is zero. */
  lemma SimilarityIsTheCosine(sqrt: real -> real, left: Vector, right: Vector)
    requires IsSquareRoot(sqrt)
    ensures var s, n := Similarity(sqrt, left, right), |left|;
            var d, l, r := Dot(left, right, n), Dot(left, left, n), Dot(right, right, n);
            if Vanishes(left, n) || Vanishes(right, n) then s == 0.0
            else 0.0 < l && 0.0 < r && s * s * (l * r) == d * d
                 && (0.0 < s <==> 0.0 < d) && (s < 0.0 <==> d < 0.0)
  {
    var n := |left|;
    NormIsZeroIff(left, n);
    NormIsZeroIff(right, n);
    if !Vanishes(left, n) && !Vanishes(right, n) {
      RootIsPositive(sqrt, left, right);
      var root := sqrt(Norms(left, right));
      hide Dot;
      assert Norms(left, right) == Dot(left, left, n) * Dot(right, right, n);
      hide Norms;
      Quotient(Dot(left, right, n), root);
    }
  }

  lemma Quotient(d: real, root: real)
    requires 0.0 < root
    ensures var s := Divide(d, root);
            s * s * (root * root) == d * d && (0.0 < s <==> 0.0 < d) && (s < 0.0 <==> d < 0.0)
  {
    var s := d / root;
    assert s * root == d;
    assert s * s * (root * root) == (s * root) * (s * root);
    if 0.0 < s { Positive(s, root); }
    if s < 0.0 { Positive(-s, root); }
  }

  /** A vector that does not vanish has similarity one with itself, and with every multiple of itself by a
      positive factor. */
  lemma SimilarToItself(sqrt: real -> real, v: Vector, a: real)
    requires IsSquareRoot(sqrt) && !Vanishes(v, |v|) && 0.0 < a
    ensures Similarity(sqrt, v, Times(a, v)) == 1.0
  {
    var w, n := Times(a, v), |v|;
    NormIsZeroIff(v, n);
    DotIsBilinear(v, v, v, a, n);
    DotIsBilinear(w, v, v, a, n);
    var i :| 0 <= i < |v| && v[i] != 0.0;
    NonZeroProduct(a, v[i]);
    assert w[i] != 0.0;
    SimilarityIsTheCosine(sqrt, v, w);
    var s, l, r, d := Similarity(sqrt, v, w), Dot(v, v, n), Dot(w, w, n), Dot(v, w, n);
    hide Dot;
    hide Similarity;
    Positive(a, l);
    ProductOfNorms(l, r, d, a);
    Positive(d, d);
    OneFactor(s, l * r, d * d);
  }

  lemma NonZeroProduct(a: real, x: real)
    requires 0.0 < a && x != 0.0
    ensures a * x != 0.0
  {
    if x < 0.0 { Positive(a, -x); } else { Positive(a, x); }
  }

  lemma ProductOfNorms(l: real, r: real, d: real, a: real)
    requires d == a * l && r == a * d
    ensures l * r == d * d
  {
    assert l * (a * d) == (a * l) * d;
  }

  lemma OneFactor(s: real, k: real, m: real)
    requires 0.0 < s && 0.0 < m && s * s * k == m && k == m
    ensures s == 1.0
  {
    if s < 1.0 {
      Larger(s, 1.0);
      Positive(1.0 - s * s, m);
    }
    if 1.0 < s {
      Larger(1.0, s);
      Positive(s * s - 1.0, m);
    }
  }

  // ---------- the scan of a roster ----------

  /** Entry `i` names somebody. */
  predicate Named(roster: Roster, i: nat) {
    i < |roster.embeddings| && i < |roster.userIds| && roster.userIds[i] != ""
  }

  ghost function ScoreAt(sqrt: real -> real, embedding: Vector, roster: Roster, i: nat): real
    requires i < |roster.embeddings|
  {
    Similarity(sqrt, embedding, roster.embeddings[i])
  }

  /** The entry that gave the candidate at position `k`. */
  ghost function Source(roster: Roster, n: nat, k: nat): (i: nat)
    requires n <= |roster.embeddings| && k < |Entries(roster, n)|
    ensures i < n && Named(roster, i)
    ensures Entries(roster, n)[k] == Entry(roster.userIds[i], roster.embeddings[i])
  {
    if HasUser(roster, n - 1) && k == |Entries(roster, n)| - 1 then n - 1 else Source(roster, n - 1, k)
  }

  /** The position of the candidate that a named entry gives. */
  ghost function Position(roster: Roster, n: nat, i: nat): (k: nat)
    requires n <= |roster.embeddings| && i < n && Named(roster, i)
    ensures k < |Entries(roster, n)| && Source(roster, n, k) == i
  {
    if i == n - 1 then |Entries(roster, n)| - 1 else Position(roster, n - 1, i)
  }

  lemma {:induction false} SourceIsInjective(roster: Roster, n: nat, k: nat, k': nat)
    requires n <= |roster.embeddings| && k < k' < |Entries(roster, n)|
    ensures Source(roster, n, k) < Source(roster, n, k')
  {
    if HasUser(roster, n - 1) && k' == |Entries(roster, n)| - 1 {
      assert Source(roster, n - 1, k) < n - 1;
    } else {
      SourceIsInjective(roster, n - 1, k, k');
    }
  }

  /** Entry `k` is the first with the highest score, and the runner-up is the highest score of the other named
      entries, or -1 if there is no other. */
  ghost predicate Wins(sqrt: real -> real, embedding: Vector, roster: Roster, m: FaceMatch, k: nat) {
    && Named(roster, k) && m.userId == roster.userIds[k] && m.score == ScoreAt(sqrt, embedding, roster, k)
    && (forall i: nat :: Named(roster, i) ==> ScoreAt(sqrt, embedding, roster, i) <= m.score)
    && (forall i: nat :: i < k && Named(roster, i) ==> ScoreAt(sqrt, embedding, roster, i) < m.score)
    && (forall i: nat :: i != k && Named(roster, i) ==> ScoreAt(sqrt, embedding, roster, i) <= m.runnerUp)
    && (if exists i: nat :: i != k && Named(roster, i)
        then exists i: nat :: i != k && Named(roster, i) && ScoreAt(sqrt, embedding, roster, i) == m.runnerUp
        else m.runnerUp == -1.0)
  }

  /** The scan finds nobody exactly if no entry is named, and otherwise the winner. */
  lemma MatchWins(sqrt: real -> real, embedding: Vector, roster: Roster)
    requires IsSquareRoot(sqrt)
    ensures FindMatch(sqrt, embedding, roster).None? <==> forall i: nat :: !Named(roster, i)
    ensures FindMatch(sqrt, embedding, roster).Some? ==>
              exists k: nat :: Wins(sqrt, embedding, roster, FindMatch(sqrt, embedding, roster).value, k)
  {
    var n := |roster.embeddings|;
    var c, e := Candidates(sqrt, embedding, roster, n), Entries(roster, n);
    CandidatesAreScoredEntries(sqrt, embedding, roster, n);
    ScoresInUnitInterval(sqrt, embedding, roster, n);
    ScanIsBest(c);
    hide Candidates;
    hide Entries;
    hide Similarity;
    forall i: nat | Named(roster, i) ensures Position(roster, n, i) < |c| { }
    if c == [] {
    } else {
      var i := Source(roster, n, 0);
      var m := Scan(c).value;
      hide Scan;
      var p: nat :| IsBestAt(c, m, p);
      WinsAtSource(sqrt, embedding, roster, m, p);
    }
  }

  lemma WinsAtSource(sqrt: real -> real, embedding: Vector, roster: Roster, m: FaceMatch, p: nat)
    requires IsBestAt(Candidates(sqrt, embedding, roster, |roster.embeddings|), m, p)
    ensures p < |Entries(roster, |roster.embeddings|)|
    ensures Wins(sqrt, embedding, roster, m, Source(roster, |roster.embeddings|, p))
  {
    var n := |roster.embeddings|;
    var c := Candidates(sqrt, embedding, roster, n);
    CandidatesAreScoredEntries(sqrt, embedding, roster, n);
    hide Candidates;
    hide Entries;
    hide Similarity;
    var k := Source(roster, n, p);
    forall i: nat | Named(roster, i)
      ensures Position(roster, n, i) < |c| && c[Position(roster, n, i)].score == ScoreAt(sqrt, embedding, roster, i)
      ensures i < k ==> Position(roster, n, i) < p
      ensures i != k ==> Position(roster, n, i) != p
    {
      var q := Position(roster, n, i);
      if p < q { SourceIsInjective(roster, n, p, q); }
    }
    if j :| 0 <= j < |c| && j != p && c[j].score == m.runnerUp {
      var i := Source(roster, n, j);
      if j < p { SourceIsInjective(roster, n, j, p); } else { SourceIsInjective(roster, n, p, j); }
      assert i != k && Named(roster, i) && ScoreAt(sqrt, embedding, roster, i) == m.runnerUp;
    } else {
      assert |c| == 1;
    }
  }
}
