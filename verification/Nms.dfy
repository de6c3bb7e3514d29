/** Greedy non-maximum suppression of the face detector, over reals. */
module Nms {

  const MAX_FACES := 5
  const MIN_SCORE := 0.5
  const MAX_OVERLAP := 0.4

  datatype Box = Box(x1: real, y1: real, x2: real, y2: real)

  function Max(a: real, b: real): real {
    if a < b then b else a
  }

  function Min(a: real, b: real): real {
    if b < a then b else a
  }

  function Area(b: Box): real {
    (b.x2 - b.x1) * (b.y2 - b.y1)
  }

  function Intersection(a: Box, b: Box): real {
    Max(0.0, Min(a.x2, b.x2) - Max(a.x1, b.x1)) * Max(0.0, Min(a.y2, b.y2) - Max(a.y1, b.y1))
  }

  /** Intersection over union, with the union kept away from zero. */
  function Overlap(a: Box, b: Box): real {
    Intersection(a, b) / Max(Area(a) + Area(b) - Intersection(a, b), 0.000001)
  }

  lemma OverlapIsSymmetric(a: Box, b: Box)
    ensures Overlap(a, b) == Overlap(b, a)
  {
    assert Intersection(a, b) == Intersection(b, a);
  }

  /** Indices once each, by descending score. */
  ghost predicate Descending(order: seq<nat>, scores: seq<real>) {
    && (forall i :: 0 <= i < |order| ==> order[i] < |scores|)
    && (forall i, j :: 0 <= i < j < |order| ==> order[i] != order[j] && scores[order[i]] >= scores[order[j]])
  }

  /** What `argsort()[::-1]` may return: all indices, ties in any order. */
  ghost predicate IsArgsort(order: seq<nat>, scores: seq<real>) {
    Descending(order, scores) && forall k :: 0 <= k < |scores| ==> k in order
  }

  predicate Apart(boxes: seq<Box>, a: nat, b: nat)
    requires a < |boxes| && b < |boxes|
  {
    Overlap(boxes[a], boxes[b]) < MAX_OVERLAP
  }

  /** The candidates that do not overlap box `index` too much, in the same order. */
  function FarFrom(boxes: seq<Box>, index: nat, rest: seq<nat>): (r: seq<nat>)
    requires index < |boxes| && forall i :: 0 <= i < |rest| ==> rest[i] < |boxes|
    ensures |r| <= |rest|
    ensures forall k :: k in r <==> k in rest && Apart(boxes, index, k)
  {
    if rest == [] then []
    else if Apart(boxes, index, rest[0]) then [rest[0]] + FarFrom(boxes, index, rest[1..])
    else FarFrom(boxes, index, rest[1..])
  }

  function Greedy(boxes: seq<Box>, scores: seq<real>, order: seq<nat>, room: nat): (kept: seq<nat>)
    requires |boxes| == |scores| && forall i :: 0 <= i < |order| ==> order[i] < |boxes|
    decreases room
  {
    if order == [] || room == 0 || scores[order[0]] < MIN_SCORE then []
    else
      var rest := FarFrom(boxes, order[0], order[1..]);
      assert forall i :: 0 <= i < |rest| ==> rest[i] in order[1..];
      [order[0]] + Greedy(boxes, scores, rest, room - 1)
  }

  lemma {:induction false} FarFromDescending(boxes: seq<Box>, scores: seq<real>, index: nat, rest: seq<nat>)
    requires |boxes| == |scores| && index < |boxes| && Descending(rest, scores)
    ensures Descending(FarFrom(boxes, index, rest), scores)
  {
    hide Apart;
    if rest != [] {
      var r := FarFrom(boxes, index, rest[1..]);
      FarFromDescending(boxes, scores, index, rest[1..]);
      forall i | 0 <= i < |r| ensures r[i] != rest[0] && scores[rest[0]] >= scores[r[i]] {
        assert r[i] in rest[1..];
      }
      DescendingWithFirst(scores, rest[0], r);
    }
  }

  lemma DescendingWithFirst(scores: seq<real>, first: nat, r: seq<nat>)
    requires first < |scores| && Descending(r, scores)
    requires forall i :: 0 <= i < |r| ==> r[i] != first && scores[first] >= scores[r[i]]
    ensures Descending([first] + r, scores)
  {
  }

  /** `k` loses to a kept box: one of no lower score that overlaps it too much. */
  ghost predicate Suppressed(boxes: seq<Box>, scores: seq<real>, kept: seq<nat>, k: nat)
    requires |boxes| == |scores| && k < |boxes|
  {
    exists i :: 0 <= i < |kept| && kept[i] < |boxes| && scores[kept[i]] >= scores[k] && !Apart(boxes, kept[i], k)
  }

  /** At most `room` boxes, good enough, by descending score and pairwise apart. */
  ghost predicate Independent(boxes: seq<Box>, scores: seq<real>, kept: seq<nat>, room: nat)
    requires |boxes| == |scores|
  {
    && |kept| <= room && Descending(kept, scores)
    && (forall i :: 0 <= i < |kept| ==> scores[kept[i]] >= MIN_SCORE)
    && (forall i, j :: 0 <= i < j < |kept| ==> Apart(boxes, kept[i], kept[j]))
  }

  /** Every good candidate is kept, suppressed by a kept box, or came after the room was used up. */
  ghost predicate Maximal(boxes: seq<Box>, scores: seq<real>, order: seq<nat>, kept: seq<nat>, room: nat)
    requires |boxes| == |scores|
  {
    forall k :: k in order && k < |scores| && scores[k] >= MIN_SCORE && k !in kept ==>
      || Suppressed(boxes, scores, kept, k)
      || (|kept| == room && forall i :: 0 <= i < |kept| && kept[i] < |scores| ==> scores[kept[i]] >= scores[k])
  }

  lemma {:induction false} GreedyIsCorrect(boxes: seq<Box>, scores: seq<real>, order: seq<nat>, room: nat)
    requires |boxes| == |scores| && Descending(order, scores)
    ensures var kept := Greedy(boxes, scores, order, room);
            && Independent(boxes, scores, kept, room)
            && Maximal(boxes, scores, order, kept, room)
            && (forall k :: k in kept ==> k in order)
    decreases room
  {
    hide Apart;
    hide FarFrom;
    if order == [] || room == 0 || scores[order[0]] < MIN_SCORE {
      NothingToKeep(boxes, scores, order, room);
    } else {
      var first, rest := order[0], FarFrom(boxes, order[0], order[1..]);
      RestRemains(boxes, scores, order);
      var tail := Greedy(boxes, scores, rest, room - 1);
      assert Greedy(boxes, scores, order, room) == [first] + tail;
      hide *;
      GreedyIsCorrect(boxes, scores, rest, room - 1);
      forall k | k in tail ensures k in rest { }
      KeepingIsIndependent(boxes, scores, order, rest, tail, room);
      KeepingIsMaximal(boxes, scores, order, rest, tail, room);
    }
  }

  lemma NothingToKeep(boxes: seq<Box>, scores: seq<real>, order: seq<nat>, room: nat)
    requires |boxes| == |scores| && Descending(order, scores)
    requires order == [] || room == 0 || scores[order[0]] < MIN_SCORE
    ensures Independent(boxes, scores, [], room) && Maximal(boxes, scores, order, [], room)
  {
    if room != 0 {
      forall k | k in order ensures scores[k] < MIN_SCORE {
        var i :| 0 <= i < |order| && order[i] == k;
      }
    }
  }

  lemma RestRemains(boxes: seq<Box>, scores: seq<real>, order: seq<nat>)
    requires |boxes| == |scores| && order != [] && Descending(order, scores)
    ensures var rest := FarFrom(boxes, order[0], order[1..]);
            Descending(rest, scores) && Remaining(boxes, scores, order, rest)
  {
    FarFromDescending(boxes, scores, order[0], order[1..]);
  }

  /** What filtering guarantees of the rest of the order. */
  ghost predicate Remaining(boxes: seq<Box>, scores: seq<real>, order: seq<nat>, rest: seq<nat>)
    requires |boxes| == |scores|
  {
    && order != [] && Descending(order, scores) && Descending(rest, scores)
    && (forall k :: k in rest <==> k in order[1..] && k < |boxes| && Apart(boxes, order[0], k))
  }

  lemma KeepingIsIndependent(boxes: seq<Box>, scores: seq<real>, order: seq<nat>, rest: seq<nat>, tail: seq<nat>,
                             room: nat)
    requires |boxes| == |scores| && Remaining(boxes, scores, order, rest)
    requires room != 0 && scores[order[0]] >= MIN_SCORE
    requires Independent(boxes, scores, tail, room - 1) && forall k :: k in tail ==> k in rest
    ensures Independent(boxes, scores, [order[0]] + tail, room) && forall k :: k in [order[0]] + tail ==> k in order
  {
    hide Apart;
    var first := order[0];
    forall i | 0 <= i < |tail|
      ensures tail[i] != first && scores[first] >= scores[tail[i]] && Apart(boxes, first, tail[i])
    {
      assert tail[i] in rest && tail[i] in order[1..];
    }
  }

  lemma KeepingIsMaximal(boxes: seq<Box>, scores: seq<real>, order: seq<nat>, rest: seq<nat>, tail: seq<nat>, room: nat)
    requires |boxes| == |scores| && Remaining(boxes, scores, order, rest) && room != 0
    requires Maximal(boxes, scores, rest, tail, room - 1)
    ensures Maximal(boxes, scores, order, [order[0]] + tail, room)
  {
    hide Apart;
    var first := order[0];
    var kept := [first] + tail;
    assert kept[0] == first;
    forall k | k in order && k < |scores| && scores[k] >= MIN_SCORE && k !in kept
      ensures Suppressed(boxes, scores, kept, k)
              || (|kept| == room && forall i :: 0 <= i < |kept| && kept[i] < |scores| ==> scores[kept[i]] >= scores[k])
    {
      assert k in order[1..];
      assert scores[first] >= scores[k];
      if Apart(boxes, first, k) && Suppressed(boxes, scores, tail, k) {
        var i :| 0 <= i < |tail| && tail[i] < |boxes| && scores[tail[i]] >= scores[k] && !Apart(boxes, tail[i], k);
        assert kept[i + 1] == tail[i];
      }
    }
  }

  /** Non-maximum suppression; `order` is the answer of numpy's sort. */
  method Suppress(boxes: seq<Box>, scores: seq<real>, order: seq<nat>) returns (kept: seq<nat>)
    requires |boxes| == |scores| && IsArgsort(order, scores)
    ensures kept == Greedy(boxes, scores, order, MAX_FACES)
    ensures Independent(boxes, scores, kept, MAX_FACES)
    ensures Maximal(boxes, scores, order, kept, MAX_FACES)
  {
    hide Apart;
    hide FarFrom;
    var rest: seq<nat> := order;
    kept := [];
    ghost var goal := Greedy(boxes, scores, order, MAX_FACES);
    while rest != [] && |kept| < MAX_FACES
      invariant |kept| <= MAX_FACES
      invariant forall i :: 0 <= i < |rest| ==> rest[i] < |boxes|
      invariant kept + Greedy(boxes, scores, rest, MAX_FACES - |kept|) == goal
      decreases |rest|
    {
      var index := rest[0];
      rest := rest[1..];
      if scores[index] < MIN_SCORE { break; }
      kept := kept + [index];
      assert rest == [] ==> FarFrom(boxes, index, rest) == [];
      if rest == [] { break; }
      ghost var candidates := rest;
      rest := FarFrom(boxes, index, rest);
      assert forall i :: 0 <= i < |rest| ==> rest[i] in candidates;
      assert forall t: seq<nat> :: kept + t == kept[..|kept| - 1] + ([index] + t);
    }
    assert kept == goal;
    GreedyIsCorrect(boxes, scores, order, MAX_FACES);
  }

  /** The outcome over all boxes: with fewer than five kept, every other good box overlaps a kept one. */
  lemma EveryGoodBoxIsAccountedFor(boxes: seq<Box>, scores: seq<real>, order: seq<nat>, k: nat)
    requires |boxes| == |scores| && IsArgsort(order, scores) && k < |scores| && scores[k] >= MIN_SCORE
    ensures var kept := Greedy(boxes, scores, order, MAX_FACES);
            k in kept || Suppressed(boxes, scores, kept, k)
            || (|kept| == MAX_FACES
                && forall i :: 0 <= i < |kept| && kept[i] < |scores| ==> scores[kept[i]] >= scores[k])
  {
    GreedyIsCorrect(boxes, scores, order, MAX_FACES);
  }
}

/** The overlap of two boxes, cross-multiplied, and what the bounds of the choice are. */
module NmsExact {
  import opened Nms

  /** `c` has the larger left and upper, and the smaller right and lower, of the sides of `a` and `b`. */
  predicate IsMeet(a: Box, b: Box, c: Box) {
    && a.x1 <= c.x1 && b.x1 <= c.x1 && (c.x1 == a.x1 || c.x1 == b.x1)
    && a.y1 <= c.y1 && b.y1 <= c.y1 && (c.y1 == a.y1 || c.y1 == b.y1)
    && c.x2 <= a.x2 && c.x2 <= b.x2 && (c.x2 == a.x2 || c.x2 == b.x2)
    && c.y2 <= a.y2 && c.y2 <= b.y2 && (c.y2 == a.y2 || c.y2 == b.y2)
  }

  /** The intersection is the area of the common box, and zero if there is none. */
  lemma IntersectionIs(a: Box, b: Box, c: Box)
    requires IsMeet(a, b, c)
    ensures Intersection(a, b) == if c.x1 < c.x2 && c.y1 < c.y2 then (c.x2 - c.x1) * (c.y2 - c.y1) else 0.0
  {
    assert Max(a.x1, b.x1) == c.x1 && Min(a.x2, b.x2) == c.x2;
    assert Max(a.y1, b.y1) == c.y1 && Min(a.y2, b.y2) == c.y2;
  }

  /** Two boxes are apart exactly if ten times their intersection is less than four times their union, and for a
      union of less than a millionth, if the intersection is less than four ten-millionths. */
  lemma ApartIff(boxes: seq<Box>, i: nat, j: nat)
    requires i < |boxes| && j < |boxes|
    ensures var a, b := boxes[i], boxes[j];
            var areas := (a.x2 - a.x1) * (a.y2 - a.y1) + (b.x2 - b.x1) * (b.y2 - b.y1);
            var shared := Intersection(a, b);
            Apart(boxes, i, j) <==>
              if 0.000001 <= areas - shared then 10.0 * shared < 4.0 * (areas - shared) else shared < 0.0000004
  {
    hide Intersection;
    var shared := Intersection(boxes[i], boxes[j]);
    var union := Area(boxes[i]) + Area(boxes[j]) - shared;
    QuotientBelow(shared, Max(union, 0.000001));
  }

  lemma QuotientBelow(x: real, y: real)
    requires 0.0 < y
    ensures x / y < 0.4 <==> 10.0 * x < 4.0 * y
  {
    assert x / y * y == x;
    if x / y < 0.4 { Scale(x / y, 0.4, y); } else if 0.4 < x / y { Scale(0.4, x / y, y); }
  }

  lemma Scale(a: real, b: real, y: real)
    requires a < b && 0.0 < y
    ensures a * y < b * y
  {
  }

  lemma LosesToKept(boxes: seq<Box>, scores: seq<real>, order: seq<nat>, kept: seq<nat>, k: nat)
    requires |boxes| == |scores| && Maximal(boxes, scores, order, kept, 5)
    requires forall i :: 0 <= i < |kept| ==> kept[i] < |scores|
    requires k in order && k < |scores| && 0.5 <= scores[k] && k !in kept
    ensures || (exists i :: 0 <= i < |kept| && scores[kept[i]] >= scores[k] && !Apart(boxes, kept[i], k))
            || (|kept| == 5 && forall i :: 0 <= i < 5 ==> scores[kept[i]] >= scores[k])
  {
    hide Apart;
  }

  /** Of the boxes with a score of at least a half, at most five are kept; every other one overlaps a kept box of
      no lower score too much, or there are five and none of them has a lower score. */
  lemma AtMostFiveGoodOnes(boxes: seq<Box>, scores: seq<real>, order: seq<nat>, k: nat)
    requires |boxes| == |scores| && IsArgsort(order, scores) && k < |scores|
    ensures var kept := Greedy(boxes, scores, order, 5);
            && |kept| <= 5
            && (forall i :: 0 <= i < |kept| ==> kept[i] < |scores|)
            && (forall i, j :: 0 <= i < j < |kept| ==> kept[i] != kept[j] && scores[kept[i]] >= scores[kept[j]]
                                                       && Apart(boxes, kept[i], kept[j]))
            && (k in kept ==> 0.5 <= scores[k])
            && (0.5 <= scores[k] && k !in kept ==>
                  || (exists i :: 0 <= i < |kept| && scores[kept[i]] >= scores[k] && !Apart(boxes, kept[i], k))
                  || (|kept| == 5 && forall i :: 0 <= i < 5 ==> scores[kept[i]] >= scores[k]))
  {
    hide Greedy;
    hide Apart;
    hide Maximal;
    GreedyIsCorrect(boxes, scores, order, 5);
    var kept := Greedy(boxes, scores, order, 5);
    if 0.5 <= scores[k] && k !in kept { LosesToKept(boxes, scores, order, kept, k); }
  }
}
