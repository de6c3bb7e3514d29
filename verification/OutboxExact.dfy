/** What exactly a sweep of the outbox sends, in what order, and what each answer leaves. */
module OutboxExact {
  import opened Common
  import opened Json
  import opened Outbox
  import opened OutboxProtocol

  /** 1, 2, 4 and 8 minutes, and 15 minutes from the fifth deferral on. */
  lemma DelayTable(n: nat)
    ensures Delay(1) == 60000 && Delay(2) == 120000 && Delay(3) == 240000 && Delay(4) == 480000
    ensures 5 <= n ==> Delay(n) == 900000
  {
    assert Pow2(1) == 2 && Pow2(2) == 4 && Pow2(3) == 8 && Pow2(4) == 16 && Pow2(5) == 32;
    if 5 <= n { Pow2Grows(5, n); }
  }

  /** The due rows, by ascending identifier, each once. */
  lemma {:induction false} DueInOrder(rows: map<nat, Row>, n: nat, now: int)
    requires forall id :: id in rows ==> rows[id].id == id
    ensures var due := Due(rows, n, now);
            && (forall i, j :: 0 <= i < j < |due| ==> due[i].id < due[j].id)
            && (forall r :: r in due <==> r.id < n && r.id in rows && rows[r.id] == r && r.nextAt <= now)
  {
    if n != 0 { DueInOrder(rows, n - 1, now); }
  }

  /** A payload to revoke a consent is sendable exactly if it is an object whose user identifier is a text that is
      not empty. */
  lemma SendableRevocationIff(payload: string)
    ensures Sendable("cernere:face-consent-revoke", payload) <==>
              exists members, u :: Parse(payload) == Some(JObject(members)) && u != ""
                                   && Property(members, "userId") == Some(JString(u))
  {
    match Parse(payload)
    case Some(JObject(members)) =>
      var userId := Property(members, "userId");
      if userId.Some? && userId.value.JString? { assert userId == Some(JString(userId.value.s)); }
    case _ =>
  }

  /** A row that a sweep for `target` sends. */
  predicate IsSent(target: string, r: Row) {
    r.target == target && Sendable(target, r.payload)
  }

  /** Advancing stops at the first row that the sweep sends, and drops exactly the rows of its target before it. */
  lemma {:induction false} AdvanceIsExact(target: string, rows: map<nat, Row>, todo: seq<Row>)
    ensures var (rows', rest) := Advance(target, rows, todo); var n := |todo| - |rest|;
            && 0 <= n && rest == todo[n..]
            && (forall k :: 0 <= k < n ==> !IsSent(target, todo[k]))
            && (rest != [] ==> IsSent(target, rest[0]))
            && rows' == map id | id in rows && !Dropped(target, todo, n, id) :: rows[id]
  {
    hide Sendable;
    if todo != [] && !IsSent(target, todo[0]) {
      var next := if todo[0].target != target then rows else Without(rows, todo[0].id);
      AdvanceIsExact(target, next, todo[1..]);
      var n := |todo| - |Advance(target, rows, todo).1|;
      forall id ensures Dropped(target, todo, n, id) <==>
        (todo[0].target == target && todo[0].id == id) || Dropped(target, todo[1..], n - 1, id)
      {
        if k: nat :| k < n && todo[k].target == target && todo[k].id == id && k != 0 {
          assert todo[1..][k - 1] == todo[k];
        }
        if k: nat :| k < n - 1 && todo[1..][k].target == target && todo[1..][k].id == id {
          assert todo[k + 1] == todo[1..][k];
        }
      }
    } else {
      assert forall id :: !Dropped(target, todo, 0, id);
    }
  }

  /** One of the first `n` rows is of the target and has this identifier. */
  predicate Dropped(target: string, todo: seq<Row>, n: nat, id: nat)
    requires n <= |todo|
  {
    exists k: nat :: k < n && todo[k].target == target && todo[k].id == id
  }

  /** If a listing is cut before the first row that is sent, every row that is sent is left. */
  lemma SentAreLeft(target: string, due: seq<Row>, n: nat)
    requires n <= |due| && forall k :: 0 <= k < n ==> !IsSent(target, due[k])
    ensures forall r :: r in due[n..] ==> r in due
    ensures forall r :: r in due && IsSent(target, r) ==> r in due[n..]
  {
    hide IsSent;
    forall r | r in due && IsSent(target, r) ensures r in due[n..] {
      var k :| 0 <= k < |due| && due[k] == r;
      assert due[n..][k - n] == r;
    }
  }

  lemma RestIsAscending(due: seq<Row>, n: nat)
    requires n <= |due| && forall j, k :: 0 <= j < k < |due| ==> due[j].id < due[k].id
    ensures forall j, k :: 0 <= j < k < |due| - n ==> due[n..][j].id < due[n..][k].id
  {
  }

  /** In every run, a sweep that starts has to send exactly the rows of its target that are due and sendable, the
      smallest identifier first. */
  lemma SweepListsTheDueRows(ss: seq<System>, es: seq<Event>, ts: seq<int>, i: nat)
    requires IsRun(ss, es, ts) && i < |es| && es[i].Start?
    ensures es[i].task in ss[i + 1].tasks && ss[i + 1].tasks[es[i].task].target == es[i].target
    ensures var s, target, todo := ss[i], es[i].target, ss[i + 1].tasks[es[i].task].todo;
            && (forall r :: r in todo && IsSent(target, r) <==>
                  IsSent(target, r) && r.id in s.rows && s.rows[r.id] == r && r.nextAt <= ts[i])
            && (forall j, k :: 0 <= j < k < |todo| ==> todo[j].id < todo[k].id)
            && (todo != [] ==> IsSent(target, todo[0]))
  {
    ReachableInv(ss, es, ts, i);
    assert Moves(ss[i], es[i], ts[i], ss[i + 1]);
    var s, target, now := ss[i], es[i].target, ts[i];
    DueInOrder(s.rows, s.nextId, now);
    var due := Due(s.rows, s.nextId, now);
    AdvanceIsExact(target, s.rows, due);
    hide Advance;
    hide Due;
    hide Sendable;
    hide IsSent;
    var todo := ss[i + 1].tasks[es[i].task].todo;
    SentAreLeft(target, due, |due| - |todo|);
    RestIsAscending(due, |due| - |todo|);
    forall id | id in s.rows ensures id < s.nextId { assert IsRowOf(s.enqueued, s.rows[id]); }
  }

  /** In every run, an answer to a sweep is posted for the row it sent, and the sweep goes on to the next row it
      sends, with every one that is left. */
  lemma SweepGoesOn(ss: seq<System>, es: seq<Event>, ts: seq<int>, i: nat)
    requires IsRun(ss, es, ts) && i < |es| && es[i].Answer?
    ensures es[i].task in ss[i].tasks && ss[i].tasks[es[i].task].todo != [] && es[i].task in ss[i + 1].tasks
    ensures var s, target, todo := ss[i], ss[i].tasks[es[i].task].target, ss[i].tasks[es[i].task].todo;
            var todo' := ss[i + 1].tasks[es[i].task].todo;
            && ss[i + 1].posts ==
                 s.posts + [Post(todo[0].id, Message(todo[0].target, todo[0].payload), es[i].ok)]
            && IsSent(target, todo[0])
            && |todo'| < |todo| && todo' == todo[|todo| - |todo'|..]
            && (forall k :: 1 <= k < |todo| - |todo'| ==> !IsSent(target, todo[k]))
            && (todo' != [] ==> IsSent(target, todo'[0]))
  {
    ReachableInv(ss, es, ts, i);
    assert Moves(ss[i], es[i], ts[i], ss[i + 1]);
    var w := ss[i].tasks[es[i].task];
    assert SweepOk(ss[i], w);
    var rows := Answered(ss[i].rows, w.todo[0], es[i].ok, ts[i]);
    AdvanceIsExact(w.target, rows, w.todo[1..]);
    hide Advance;
    hide Sendable;
    assert forall k :: 1 <= k < |w.todo| ==> w.todo[k] == w.todo[1..][k - 1];
  }

  /** In every run, a row that was accepted is gone; a row that failed stays with one attempt more than it was listed
      with; and every row that the sweep did not pass stays as it was. */
  lemma AnswerLeaves(ss: seq<System>, es: seq<Event>, ts: seq<int>, i: nat, id: nat)
    requires IsRun(ss, es, ts) && i < |es| && es[i].Answer? && id in ss[i].rows
    ensures es[i].task in ss[i].tasks && ss[i].tasks[es[i].task].todo != [] && es[i].task in ss[i + 1].tasks
    ensures var rows, rows', row := ss[i].rows, ss[i + 1].rows, ss[i].tasks[es[i].task].todo[0];
            && (id == row.id && es[i].ok ==> id !in rows')
            && (id == row.id && !es[i].ok ==>
                  id in rows' && rows'[id] == rows[id].(attempts := row.attempts + 1,
                                                        nextAt := ts[i] + Delay(row.attempts + 1)))
            && (id != row.id && IsSent(rows[id].target, rows[id]) ==> id in rows' && rows'[id] == rows[id])
  {
    ReachableInv(ss, es, ts, i);
    assert Moves(ss[i], es[i], ts[i], ss[i + 1]);
    var s, w := ss[i], ss[i].tasks[es[i].task];
    assert SweepOk(s, w) && IsRowOf(s.enqueued, s.rows[id]) && IsRowOf(s.enqueued, w.todo[0]);
    hide Sendable;
    hide Delay;
    var rows := Answered(s.rows, w.todo[0], es[i].ok, ts[i]);
    AdvanceDrops(w.target, rows, w.todo[1..]);
    hide Advance;
    assert forall r :: r in w.todo[1..] ==> IsRowOf(s.enqueued, r);
  }

  /** In every run, a message that is queued has a row of its own that is due at once. */
  lemma QueuedIsDue(ss: seq<System>, es: seq<Event>, ts: seq<int>, i: nat)
    requires IsRun(ss, es, ts) && i < |es| && es[i].Enqueued?
    ensures var s, m := ss[i], es[i].message;
            && s.nextId !in s.rows
            && ss[i + 1].rows == s.rows[s.nextId := Row(s.nextId, m.target, m.payload, 0, ts[i])]
            && ss[i + 1].enqueued == s.enqueued[s.nextId := m]
  {
    ReachableInv(ss, es, ts, i);
    assert Moves(ss[i], es[i], ts[i], ss[i + 1]);
    forall id | id in ss[i].rows ensures id < ss[i].nextId { assert IsRowOf(ss[i].enqueued, ss[i].rows[id]); }
  }
}
