/** Cosine similarity, the best/runner-up scan of the roster and the consecutive vote, over reals. */
module FaceMatcher {
  import opened Common

  type Vector = seq<real>

  // ---------- similarity ----------

  /** `right[index] ?? 0`. */
  function At(v: Vector, i: nat): real {
    if i < |v| then v[i] else 0.0
  }

  /** Sum of `left[i] * right[i]` over the first `n` positions. */
  function Dot(left: Vector, right: Vector, n: nat): (d: real) {
    if n == 0 then 0.0 else Dot(left, right, n - 1) + At(left, n - 1) * At(right, n - 1)
  }

  /** `Math.sqrt` on the values it is applied to. */
  ghost predicate IsSquareRoot(sqrt: real -> real) {
    forall x: real :: 0.0 <= x ==> 0.0 <= sqrt(x) && sqrt(x) * sqrt(x) == x
  }

  /** The product of the squared norms on the compared positions. */
  function Norms(left: Vector, right: Vector): real {
    Dot(left, left, |left|) * Dot(right, right, |left|)
  }

  function Divide(d: real, root: real): real {
    if root == 0.0 then 0.0 else d / root
  }

  /** The value the source computes: zero if either vector vanishes on the compared positions. */
  function Similarity(sqrt: real -> real, left: Vector, right: Vector): (s: real) {
    if Dot(left, left, |left|) == 0.0 || Dot(right, right, |left|) == 0.0 then 0.0
    else Divide(Dot(left, right, |left|), sqrt(Norms(left, right)))
  }

  method CosineSimilarity(sqrt: real -> real, left: Vector, right: Vector) returns (s: real)
    requires IsSquareRoot(sqrt)
    ensures s == Similarity(sqrt, left, right) && -1.0 <= s <= 1.0
  {
    var dot, leftNorm, rightNorm := 0.0, 0.0, 0.0;
    var index := 0;
    while index < |left|
      invariant 0 <= index <= |left|
      invariant dot == Dot(left, right, index)
      invariant leftNorm == Dot(left, left, index) && rightNorm == Dot(right, right, index)
    {
      var a, b := At(left, index), At(right, index);
      dot, leftNorm, rightNorm := dot + a * b, leftNorm + a * a, rightNorm + b * b;
      index := index + 1;
    }
    SimilarityInUnitInterval(sqrt, left, right);
    if leftNorm == 0.0 || rightNorm == 0.0 { return 0.0; }
    assert leftNorm * rightNorm == Norms(left, right);
    RootIsPositive(sqrt, left, right);
    s := Divide(dot, sqrt(leftNorm * rightNorm));
  }

  lemma {:induction false} SquaresAddUp(v: Vector, n: nat)
    ensures 0.0 <= Dot(v, v, n)
  {
    if n != 0 {
      SquaresAddUp(v, n - 1);
      Square(At(v, n - 1));
    }
  }

  lemma Square(x: real)
    ensures 0.0 <= x * x
  {
  }

  lemma Product(x: real, y: real)
    requires 0.0 <= x && 0.0 <= y
    ensures 0.0 <= x * y
  {
  }

  lemma Positive(x: real, y: real)
    requires 0.0 < x && 0.0 < y
    ensures 0.0 < x * y
  {
  }

  lemma Larger(x: real, y: real)
    requires 0.0 <= x < y
    ensures x * x < y * y
  {
    assert y * y - x * x == (y - x) * (y + x);
    Positive(y - x, y + x);
  }

  lemma Arithmetic(x: real, y: real)
    ensures 4.0 * (x * y) <= (x + y) * (x + y)
  {
    Square(x - y);
    assert (x + y) * (x + y) - 4.0 * (x * y) == (x - y) * (x - y);
  }

  lemma Scaled(d: real, m: real, p: real)
    requires d * d <= m
    ensures (d * p) * (d * p) <= m * (p * p)
  {
    Square(p);
    Product(m - d * d, p * p);
    assert (m - d * d) * (p * p) == m * (p * p) - (d * p) * (d * p);
  }

  lemma Expansions(d: real, l: real, r: real, a: real, b: real)
    ensures (d + a * b) * (d + a * b) == d * d + 2.0 * (d * (a * b)) + (a * b) * (a * b)
    ensures (l + a * a) * (r + b * b) == l * r + (l * (b * b) + r * (a * a)) + (a * b) * (a * b)
    ensures (l * (b * b)) * (r * (a * a)) == (l * r) * ((a * b) * (a * b))
  {
  }

  lemma TwiceBelow(c: real, x: real, y: real)
    requires c * c <= x * y && 0.0 <= x && 0.0 <= y
    ensures 2.0 * c <= x + y
  {
    Arithmetic(x, y);
    assert (2.0 * c) * (2.0 * c) == 4.0 * (c * c);
    if x + y < 2.0 * c { Larger(x + y, 2.0 * c); }
  }

  /** One more pair of coordinates keeps d * d <= l * r. */
  lemma CauchySchwarzStep(d: real, l: real, r: real, a: real, b: real)
    requires d * d <= l * r && 0.0 <= l && 0.0 <= r
    ensures (d + a * b) * (d + a * b) <= (l + a * a) * (r + b * b)
  {
    var x, y, c := l * (b * b), r * (a * a), d * (a * b);
    Expansions(d, l, r, a, b);
    Scaled(d, l * r, a * b);
    Square(a);
    Square(b);
    Product(l, b * b);
    Product(r, a * a);
    TwiceBelow(c, x, y);
  }

  /** The Cauchy-Schwarz inequality, for vectors of any length. */
  lemma {:induction false} CauchySchwarz(left: Vector, right: Vector, n: nat)
    ensures Dot(left, right, n) * Dot(left, right, n) <= Dot(left, left, n) * Dot(right, right, n)
  {
    if n != 0 {
      CauchySchwarz(left, right, n - 1);
      SquaresAddUp(left, n - 1);
      SquaresAddUp(right, n - 1);
      var a, b := At(left, n - 1), At(right, n - 1);
      var d, l, r := Dot(left, right, n - 1), Dot(left, left, n - 1), Dot(right, right, n - 1);
      DotGrows(left, right, n);
      DotGrows(left, left, n);
      DotGrows(right, right, n);
      hide Dot;
      CauchySchwarzStep(d, l, r, a, b);
    }
  }

  lemma DotGrows(left: Vector, right: Vector, n: nat)
    requires n != 0
    ensures Dot(left, right, n) == Dot(left, right, n - 1) + At(left, n - 1) * At(right, n - 1)
  {
  }

  lemma RootIsPositive(sqrt: real -> real, left: Vector, right: Vector)
    requires IsSquareRoot(sqrt) && Dot(left, left, |left|) != 0.0 && Dot(right, right, |left|) != 0.0
    ensures 0.0 < sqrt(Norms(left, right)) && sqrt(Norms(left, right)) * sqrt(Norms(left, right)) == Norms(left, right)
  {
    SquaresAddUp(left, |left|);
    SquaresAddUp(right, |left|);
    Positive(Dot(left, left, |left|), Dot(right, right, |left|));
    assert 0.0 < Norms(left, right);
    NonZeroRoot(sqrt(Norms(left, right)), Norms(left, right));
  }

  lemma NonZeroRoot(root: real, x: real)
    requires 0.0 <= root && root * root == x && 0.0 < x
    ensures 0.0 < root
  {
    assert root == 0.0 ==> root * root == 0.0;
  }

  lemma QuotientInUnitInterval(d: real, root: real)
    requires 0.0 < root && d * d <= root * root
    ensures -1.0 <= Divide(d, root) <= 1.0
  {
    assert (-d) * (-d) == d * d;
    if root < d { Larger(root, d); }
    if root < -d { Larger(root, -d); }
    BoundedQuotient(d, root);
  }

  lemma BoundedQuotient(d: real, root: real)
    requires 0.0 < root && -root <= d <= root
    ensures -1.0 <= d / root <= 1.0
  {
  }

  /** Scores lie in [-1, 1], so the -1 with which the scan starts is a lower bound of every score. */
  lemma SimilarityInUnitInterval(sqrt: real -> real, left: Vector, right: Vector)
    requires IsSquareRoot(sqrt)
    ensures -1.0 <= Similarity(sqrt, left, right) <= 1.0
  {
    if Dot(left, left, |left|) != 0.0 && Dot(right, right, |left|) != 0.0 {
      CauchySchwarz(left, right, |left|);
      assert Dot(left, right, |left|) * Dot(left, right, |left|) <= Norms(left, right);
      hide Dot;
      hide Norms;
      hide Divide;
      RootIsPositive(sqrt, left, right);
      QuotientInUnitInterval(Dot(left, right, |left|), sqrt(Norms(left, right)));
    }
  }

  // ---------- the scan ----------

  datatype FaceMatch = FaceMatch(userId: string, score: real, runnerUp: real)

  datatype Roster = Roster(userIds: seq<string>, embeddings: seq<Vector>)

  /** An entry that the scan does not skip, with its score. */
  datatype Candidate = Candidate(userId: string, score: real)

  predicate HasUser(roster: Roster, i: nat) {
    i < |roster.userIds| && roster.userIds[i] != ""
  }

  /** The scored entries among the first `n`, in roster order. */
  function Candidates(sqrt: real -> real, embedding: Vector, roster: Roster, n: nat): (c: seq<Candidate>)
    requires n <= |roster.embeddings|
  {
    if n == 0 then []
    else
      var before := Candidates(sqrt, embedding, roster, n - 1);
      if HasUser(roster, n - 1)
      then before + [Candidate(roster.userIds[n - 1], Similarity(sqrt, embedding, roster.embeddings[n - 1]))]
      else before
  }

  /** One step of the scan. */
  function Consider(best: Option<FaceMatch>, c: Candidate): (r: FaceMatch) {
    if best.None? then FaceMatch(c.userId, c.score, -1.0)
    else if c.score > best.value.score then FaceMatch(c.userId, c.score, best.value.score)
    else if c.score > best.value.runnerUp then best.value.(runnerUp := c.score)
    else best.value
  }

  function Scan(c: seq<Candidate>): (r: Option<FaceMatch>) {
    if c == [] then None else Some(Consider(Scan(c[..|c| - 1]), c[|c| - 1]))
  }

  function FindMatch(sqrt: real -> real, embedding: Vector, roster: Roster): (r: Option<FaceMatch>) {
    Scan(Candidates(sqrt, embedding, roster, |roster.embeddings|))
  }

  method FindFaceMatch(sqrt: real -> real, embedding: Vector, roster: Roster) returns (best: Option<FaceMatch>)
    requires IsSquareRoot(sqrt)
    ensures best == FindMatch(sqrt, embedding, roster)
    ensures IsBest(Candidates(sqrt, embedding, roster, |roster.embeddings|), best)
  {
    best := None;
    var index := 0;
    while index < |roster.embeddings|
      invariant 0 <= index <= |roster.embeddings|
      invariant best == Scan(Candidates(sqrt, embedding, roster, index))
    {
      if HasUser(roster, index) {
        ghost var before := Candidates(sqrt, embedding, roster, index);
        var userId := roster.userIds[index];
        var score := CosineSimilarity(sqrt, embedding, roster.embeddings[index]);
        assert (before + [Candidate(userId, score)])[..|before|] == before;
        if best.None? {
          best := Some(FaceMatch(userId, score, -1.0));
        } else if score > best.value.score {
          best := Some(FaceMatch(userId, score, best.value.score));
        } else if score > best.value.runnerUp {
          best := Some(best.value.(runnerUp := score));
        }
      }
      index := index + 1;
    }
    ScoresInUnitInterval(sqrt, embedding, roster, |roster.embeddings|);
    ScanIsBest(Candidates(sqrt, embedding, roster, |roster.embeddings|));
  }

  lemma {:induction false} ScoresInUnitInterval(sqrt: real -> real, embedding: Vector, roster: Roster, n: nat)
    requires IsSquareRoot(sqrt) && n <= |roster.embeddings|
    ensures forall i :: 0 <= i < |Candidates(sqrt, embedding, roster, n)| ==>
              -1.0 <= Candidates(sqrt, embedding, roster, n)[i].score <= 1.0
  {
    if n != 0 {
      ScoresInUnitInterval(sqrt, embedding, roster, n - 1);
      SimilarityInUnitInterval(sqrt, embedding, roster.embeddings[n - 1]);
    }
  }

  /** Position `k` is the first maximum, and the runner-up is the best score at all other positions. */
  ghost predicate IsBestAt(c: seq<Candidate>, m: FaceMatch, k: nat) {
    && k < |c| && m.userId == c[k].userId && m.score == c[k].score
    && (forall i :: 0 <= i < |c| ==> c[i].score <= m.score)
    && (forall i :: 0 <= i < k ==> c[i].score < m.score)
    && (forall i :: 0 <= i < |c| && i != k ==> c[i].score <= m.runnerUp)
    && (if |c| == 1 then m.runnerUp == -1.0 else exists i :: 0 <= i < |c| && i != k && c[i].score == m.runnerUp)
  }

  ghost predicate IsBest(c: seq<Candidate>, best: Option<FaceMatch>) {
    if c == [] then best.None? else best.Some? && exists k: nat :: IsBestAt(c, best.value, k)
  }

  lemma NewBest(c: seq<Candidate>, m: FaceMatch, k: nat, x: Candidate)
    requires IsBestAt(c, m, k) && x.score > m.score
    ensures IsBestAt(c + [x], FaceMatch(x.userId, x.score, m.score), |c|)
  {
    assert (c + [x])[k].score == m.score;
  }

  lemma SameBest(c: seq<Candidate>, m: FaceMatch, k: nat, x: Candidate)
    requires IsBestAt(c, m, k) && -1.0 <= x.score <= m.score
    ensures IsBestAt(c + [x], if x.score > m.runnerUp then m.(runnerUp := x.score) else m, k)
  {
    var d := c + [x];
    assert d[|c|] == x;
    if |c| != 1 && x.score <= m.runnerUp {
      var i :| 0 <= i < |c| && i != k && c[i].score == m.runnerUp;
      assert d[i].score == m.runnerUp;
    }
  }

  /** The scan finds the first maximum and the exact best score of the others.  That scores are at
      least -1 is needed: the scan starts its runner-up there. */
  lemma {:induction false} ScanIsBest(c: seq<Candidate>)
    requires forall i :: 0 <= i < |c| ==> -1.0 <= c[i].score
    ensures IsBest(c, Scan(c))
  {
    if |c| == 1 {
      assert c[..0] == [];
      assert IsBestAt(c, Scan(c).value, 0);
    } else if 1 < |c| {
      var before, x := c[..|c| - 1], c[|c| - 1];
      ScanIsBest(before);
      hide IsBestAt;
      var m := Scan(before).value;
      var k: nat :| IsBestAt(before, m, k);
      assert c == before + [x];
      if x.score > m.score { NewBest(before, m, k, x); } else { SameBest(before, m, k, x); }
    }
  }

  // ---------- independence of the roster order ----------

  /** `m` read off a bag of candidates, without their order. */
  ghost predicate IsBestOf(bag: multiset<Candidate>, m: FaceMatch) {
    var x := Candidate(m.userId, m.score);
    && x in bag
    && (forall y :: y in bag ==> y.score <= m.score)
    && IsMaximum(bag - multiset{x}, m.runnerUp)
  }

  ghost predicate IsMaximum(bag: multiset<Candidate>, r: real) {
    && (forall y :: y in bag ==> y.score <= r)
    && (bag == multiset{} ==> r == -1.0)
    && (bag != multiset{} ==> exists y :: y in bag && y.score == r)
  }

  /** `c` without its element number `k`. */
  function WithoutAt<T>(c: seq<T>, k: nat): (r: seq<T>)
    requires k < |c|
    ensures |r| == |c| - 1
    ensures forall i :: 0 <= i < |r| ==> r[i] == c[if i < k then i else i + 1]
  {
    c[..k] + c[k + 1..]
  }

  lemma BagWithoutAt<T>(c: seq<T>, k: nat)
    requires k < |c|
    ensures multiset(WithoutAt(c, k)) == multiset(c) - multiset{c[k]}
    ensures multiset(c) == multiset(WithoutAt(c, k)) + multiset{c[k]}
  {
    BagOfParts(c[..k], c[k], c[k + 1..]);
    assert c == c[..k] + [c[k]] + c[k + 1..];
  }

  lemma BagOfParts<T>(a: seq<T>, x: T, b: seq<T>)
    ensures multiset(a + [x] + b) == multiset(a + b) + multiset{x}
  {
  }

  lemma ElsewhereIsOther(c: seq<Candidate>, k: nat, i: nat)
    requires k < |c| && i < |c| && i != k
    ensures c[i] in multiset(c) - multiset{c[k]}
  {
    BagWithoutAt(c, k);
    assert WithoutAt(c, k)[if i < k then i else i - 1] == c[i];
  }

  lemma OtherIsElsewhere(c: seq<Candidate>, k: nat, y: Candidate) returns (i: nat)
    requires k < |c| && y in multiset(c) - multiset{c[k]}
    ensures i < |c| && i != k && c[i] == y
  {
    BagWithoutAt(c, k);
    var others := WithoutAt(c, k);
    assert y in multiset(others);
    var j :| 0 <= j < |others| && others[j] == y;
    i := if j < k then j else j + 1;
  }

  /** The bag of the candidates other than number `k`. */
  lemma Others(c: seq<Candidate>, k: nat)
    requires k < |c|
    ensures var rest := multiset(c) - multiset{c[k]};
            && (forall y: Candidate :: y in rest ==> exists i :: 0 <= i < |c| && i != k && c[i] == y)
            && (forall i :: 0 <= i < |c| && i != k ==> c[i] in rest)
            && |rest| == |c| - 1
  {
    var rest := multiset(c) - multiset{c[k]};
    forall i | 0 <= i < |c| && i != k ensures c[i] in rest { ElsewhereIsOther(c, k, i); }
    forall y: Candidate | y in rest ensures exists i :: 0 <= i < |c| && i != k && c[i] == y {
      var i := OtherIsElsewhere(c, k, y);
    }
  }

  lemma BestAtIsBestOf(c: seq<Candidate>, m: FaceMatch, k: nat)
    requires IsBestAt(c, m, k)
    ensures IsBestOf(multiset(c), m)
  {
    Others(c, k);
    assert c[k] == Candidate(m.userId, m.score);
  }

  lemma MaximumIsUnique(bag: multiset<Candidate>, r: real, r': real)
    requires IsMaximum(bag, r) && IsMaximum(bag, r')
    ensures r == r'
  {
  }

  lemma BestOfIsUnique(bag: multiset<Candidate>, m: FaceMatch, m': FaceMatch)
    requires IsBestOf(bag, m) && IsBestOf(bag, m')
    ensures m.score == m'.score && m.runnerUp == m'.runnerUp
    ensures m.score > m.runnerUp ==> m == m'
  {
    var x, x' := Candidate(m.userId, m.score), Candidate(m'.userId, m'.score);
    assert m.score == m'.score;
    if x == x' {
      MaximumIsUnique(bag - multiset{x}, m.runnerUp, m'.runnerUp);
    } else {
      assert x' in bag - multiset{x} && x in bag - multiset{x'};
      AtMost(bag, x, m);
      AtMost(bag, x', m');
    }
  }

  lemma AtMost(bag: multiset<Candidate>, x: Candidate, m: FaceMatch)
    requires IsBestOf(bag, m)
    ensures m.runnerUp <= m.score || bag == multiset{Candidate(m.userId, m.score)}
  {
    var rest := bag - multiset{Candidate(m.userId, m.score)};
    if rest == multiset{} {
      assert bag == rest + multiset{Candidate(m.userId, m.score)};
    }
  }

  /** The winner, at position `k`, has a higher score than all others. */
  ghost predicate IsAhead(c: seq<Candidate>, m: FaceMatch, k: nat) {
    forall i :: 0 <= i < |c| && i != k ==> c[i].score < m.score
  }

  /** Every order of the same candidates gives the same best score and the same runner-up; if the
      winner is strictly ahead, it is the same user, and no other candidate has its score. */
  lemma OrderDoesNotMatter(c: seq<Candidate>, c': seq<Candidate>)
    requires multiset(c) == multiset(c') && c != []
    requires forall i :: 0 <= i < |c| ==> -1.0 <= c[i].score
    ensures Scan(c).Some? && Scan(c').Some?
    ensures var m, m' := Scan(c).value, Scan(c').value;
            && m.score == m'.score && m.runnerUp == m'.runnerUp
            && (m.score > m.runnerUp ==>
                  m == m' && exists k: nat :: IsBestAt(c, m, k) && IsAhead(c, m, k))
  {
    assert |multiset(c)| == |c| && |multiset(c')| == |c'|;
    forall i | 0 <= i < |c'| ensures -1.0 <= c'[i].score {
      assert c'[i] in multiset(c);
    }
    ScanIsBest(c);
    ScanIsBest(c');
    var k: nat :| IsBestAt(c, Scan(c).value, k);
    var k': nat :| IsBestAt(c', Scan(c').value, k');
    BestAtIsBestOf(c, Scan(c).value, k);
    BestAtIsBestOf(c', Scan(c').value, k');
    BestOfIsUnique(multiset(c), Scan(c).value, Scan(c').value);
  }

  /** An entry of a roster that the scan does not skip. */
  datatype Entry = Entry(userId: string, embedding: Vector)

  /** The valid entries among the first `n`, in roster order. */
  function Entries(roster: Roster, n: nat): (e: seq<Entry>)
    requires n <= |roster.embeddings|
  {
    if n == 0 then []
    else
      var before := Entries(roster, n - 1);
      if HasUser(roster, n - 1) then before + [Entry(roster.userIds[n - 1], roster.embeddings[n - 1])] else before
  }

  function Scored(sqrt: real -> real, embedding: Vector, e: Entry): Candidate {
    Candidate(e.userId, Similarity(sqrt, embedding, e.embedding))
  }

  lemma {:induction false} CandidatesAreScoredEntries(sqrt: real -> real, embedding: Vector, roster: Roster, n: nat)
    requires n <= |roster.embeddings|
    ensures var c, e := Candidates(sqrt, embedding, roster, n), Entries(roster, n);
            |c| == |e| && forall i :: 0 <= i < |c| ==> c[i] == Scored(sqrt, embedding, e[i])
  {
    hide Similarity;
    if n != 0 { CandidatesAreScoredEntries(sqrt, embedding, roster, n - 1); }
  }

  /** Scoring a permutation of the entries gives a permutation of the candidates. */
  lemma {:induction false} ScoresArePermuted(sqrt: real -> real, embedding: Vector, e: seq<Entry>, e': seq<Entry>,
                                             c: seq<Candidate>, c': seq<Candidate>)
    requires multiset(e) == multiset(e') && |c| == |e| && |c'| == |e'|
    requires forall i :: 0 <= i < |c| ==> c[i] == Scored(sqrt, embedding, e[i])
    requires forall i :: 0 <= i < |c'| ==> c'[i] == Scored(sqrt, embedding, e'[i])
    ensures multiset(c) == multiset(c')
    decreases |e|
  {
    hide Scored;
    assert |e| == |multiset(e)| == |multiset(e')| == |e'|;
    if e != [] {
      assert e[0] in multiset(e');
      var j :| 0 <= j < |e'| && e'[j] == e[0];
      BagWithoutAt(e, 0);
      BagWithoutAt(e', j);
      ScoresArePermuted(sqrt, embedding, WithoutAt(e, 0), WithoutAt(e', j), WithoutAt(c, 0), WithoutAt(c', j));
      BagWithoutAt(c, 0);
      BagWithoutAt(c', j);
    }
  }

  /** For rosters whose valid entries are a permutation of each other the scan finds somebody in both or in
      neither, with the same score and runner-up; a winner strictly ahead is the same person. */
  lemma MatchIsIndependentOfRosterOrder(sqrt: real -> real, embedding: Vector, roster: Roster, roster': Roster)
    requires IsSquareRoot(sqrt)
    requires multiset(Entries(roster, |roster.embeddings|)) == multiset(Entries(roster', |roster'.embeddings|))
    ensures FindMatch(sqrt, embedding, roster).Some? <==> FindMatch(sqrt, embedding, roster').Some?
    ensures FindMatch(sqrt, embedding, roster).Some? ==>
              var m, m' := FindMatch(sqrt, embedding, roster).value, FindMatch(sqrt, embedding, roster').value;
              m.score == m'.score && m.runnerUp == m'.runnerUp && (m.score > m.runnerUp ==> m.userId == m'.userId)
  {
    var n, n' := |roster.embeddings|, |roster'.embeddings|;
    var c, c' := Candidates(sqrt, embedding, roster, n), Candidates(sqrt, embedding, roster', n');
    CandidatesAreScoredEntries(sqrt, embedding, roster, n);
    CandidatesAreScoredEntries(sqrt, embedding, roster', n');
    ScoresArePermuted(sqrt, embedding, Entries(roster, n), Entries(roster', n'), c, c');
    ScoresInUnitInterval(sqrt, embedding, roster, n);
    hide Candidates;
    hide Entries;
    assert |c| == |multiset(c)| == |multiset(c')| == |c'|;
    if c != [] { OrderDoesNotMatter(c, c'); }
  }

  // ---------- the vote ----------

  datatype Vote = Vote(userId: Option<string>, count: nat)

  predicate Eligible(m: Option<FaceMatch>, threshold: real, margin: real) {
    m.Some? && m.value.score >= threshold && m.value.score - m.value.runnerUp >= margin
  }

  function CountVote(v: Vote, m: Option<FaceMatch>, threshold: real, margin: real): (v': Vote) {
    if !Eligible(m, threshold, margin) then Vote(None, 0)
    else Vote(Some(m.value.userId), if v.userId == Some(m.value.userId) then v.count + 1 else 1)
  }

  function Elected(v: Vote): Option<string> {
    if 3 <= v.count then v.userId else None
  }

  class ConsecutiveFaceVote {
    var userId: Option<string>
    var count: nat

    constructor ()
      ensures Abs() == Vote(None, 0)
    {
      userId, count := None, 0;
    }

    ghost function Abs(): Vote
      reads this
    {
      Vote(userId, count)
    }

    method Add(candidate: Option<FaceMatch>, threshold: real, margin: real) returns (elected: Option<string>)
      modifies this
      ensures Abs() == CountVote(old(Abs()), candidate, threshold, margin)
      ensures elected == if Eligible(candidate, threshold, margin) then Elected(Abs()) else None
    {
      if candidate.None? || candidate.value.score < threshold
         || candidate.value.score - candidate.value.runnerUp < margin
      {
        Reset();
        return None;
      }
      count := if userId == Some(candidate.value.userId) then count + 1 else 1;
      userId := Some(candidate.value.userId);
      elected := if 3 <= count then Some(candidate.value.userId) else None;
    }

    method Reset()
      modifies this
      ensures Abs() == Vote(None, 0)
    {
      userId, count := None, 0;
    }
  }
}
