/** The outbox: rows that wait for delivery, retried by sweeps that overlap. */
module Outbox {
  import opened Common
  import opened Json
  import JsonRoundTrip
  import Attestation

  const ATTESTATION_TARGET: string := "aedilis:attest"
  const CONSENT_REVOKE_TARGET: string := "cernere:face-consent-revoke"

  datatype Row = Row(id: nat, target: string, payload: string, attempts: nat, nextAt: int)

  datatype RevokeConsentInput = RevokeConsentInput(userId: string, consentId: Option<string>, revokedBy: string)

  function RevocationPayload(input: RevokeConsentInput): string {
    Stringify(JObject([
      Member("userId", JString(input.userId)),
      Member("consentId", if input.consentId.Some? then JString(input.consentId.value) else JNull),
      Member("revokedBy", JString(input.revokedBy))]))
  }

  function StringOf(v: Option<Json>): Option<string> {
    if v.Some? && v.value.JString? then Some(v.value.s) else None
  }

  function ParseRevocation(payload: string): Option<RevokeConsentInput> {
    match Parse(payload)
    case Some(JObject(members)) =>
      var userId, revokedBy := StringOf(Property(members, "userId")), StringOf(Property(members, "revokedBy"));
      if userId.None? || userId.value == "" then None
      else Some(RevokeConsentInput(userId.value, StringOf(Property(members, "consentId")),
                                   if revokedBy.Some? then revokedBy.value else ""))
    case _ => None
  }

  lemma ThreeProperties(a: Member, b: Member, c: Member)
    requires a.name != b.name && a.name != c.name && b.name != c.name
    ensures var m := [a, b, c];
            && Property(m, a.name) == Some(a.value)
            && Property(m, b.name) == Some(b.value)
            && Property(m, c.name) == Some(c.value)
  {
    assert [a, b, c][..2] == [a, b] && [a, b][..1] == [a];
    assert Property([a], a.name) == Some(a.value);
    assert Property([a, b], a.name) == Some(a.value) && Property([a, b], b.name) == Some(b.value);
  }

  /** Every revocation that names a user is read back as it was queued. */
  lemma RevocationReadsBack(input: RevokeConsentInput)
    requires input.userId != ""
    ensures ParseRevocation(RevocationPayload(input)) == Some(input)
  {
    var userId, revokedBy := Member("userId", JString(input.userId)), Member("revokedBy", JString(input.revokedBy));
    var consentId := Member("consentId", if input.consentId.Some? then JString(input.consentId.value) else JNull);
    JsonRoundTrip.ParseUndoesStringify(JObject([userId, consentId, revokedBy]));
    ThreeProperties(userId, consentId, revokedBy);
    hide Property;
    hide Stringify;
  }

  /** Whether a sweep for `target` sends a payload; it drops the others. */
  predicate Sendable(target: string, payload: string) {
    if target == ATTESTATION_TARGET then Attestation.IsAttendancePayload(payload) else ParseRevocation(payload).Some?
  }

  function Pow2(n: nat): nat {
    if n == 0 then 1 else 2 * Pow2(n - 1)
  }

  /** The delay that a row deferred for the `attempts`th time waits. */
  function Delay(attempts: nat): int {
    var d := 30000 * Pow2(attempts);
    if d < 900000 then d else 900000
  }

  lemma {:induction false} Pow2Grows(m: nat, n: nat)
    requires m <= n
    ensures 1 <= Pow2(m) <= Pow2(n)
  {
    if m < n { Pow2Grows(m, n - 1); } else if 0 < n { Pow2Grows(m - 1, n - 1); }
  }

  /** Every deferral waits at least a minute and at most fifteen, and never less than an earlier one. */
  lemma DelaysGrow(m: nat, n: nat)
    requires 1 <= m <= n
    ensures 60000 <= Delay(m) <= Delay(n) <= 900000
  {
    Pow2Grows(0, m - 1);
    Pow2Grows(m, n);
  }

  /** Rows due at `now` among the ids below `n`, by id. */
  function Due(rows: map<nat, Row>, n: nat, now: int): (due: seq<Row>) {
    if n == 0 then []
    else if n - 1 in rows && rows[n - 1].nextAt <= now then Due(rows, n - 1, now) + [rows[n - 1]]
    else Due(rows, n - 1, now)
  }

  lemma {:induction false} DueIsDue(rows: map<nat, Row>, n: nat, now: int)
    ensures forall r :: r in Due(rows, n, now) <==>
              exists id :: 0 <= id < n && id in rows && rows[id] == r && r.nextAt <= now
  {
    if n != 0 { DueIsDue(rows, n - 1, now); }
  }

  /** A listing names no row twice. */
  ghost predicate DistinctIds(todo: seq<Row>) {
    forall i, j :: 0 <= i < j < |todo| ==> todo[i].id != todo[j].id
  }

  lemma {:induction false} DueIsDistinct(rows: map<nat, Row>, n: nat, now: int)
    requires forall id :: id in rows ==> rows[id].id == id
    ensures DistinctIds(Due(rows, n, now)) && forall r :: r in Due(rows, n, now) ==> r.id < n
  {
    if n != 0 { DueIsDistinct(rows, n - 1, now); }
  }

  function Defer(rows: map<nat, Row>, row: Row, now: int): map<nat, Row> {
    if row.id in rows
    then rows[row.id := rows[row.id].(attempts := row.attempts + 1, nextAt := now + Delay(row.attempts + 1))]
    else rows
  }

  /** A sweep up to its next send: rows of the other target are passed over and unsendable ones dropped. */
  function Advance(target: string, rows: map<nat, Row>, todo: seq<Row>): (r: (map<nat, Row>, seq<Row>)) {
    if todo == [] then (rows, [])
    else if todo[0].target != target then Advance(target, rows, todo[1..])
    else if !Sendable(target, todo[0].payload) then Advance(target, Without(rows, todo[0].id), todo[1..])
    else (rows, todo)
  }

  /** What an answer does to the row that was sent. */
  function Answered(rows: map<nat, Row>, row: Row, ok: bool, now: int): map<nat, Row> {
    if ok then Without(rows, row.id) else Defer(rows, row, now)
  }

  ghost predicate IsDropped(target: string, todo: seq<Row>, id: nat) {
    exists r :: r in todo && r.id == id && r.target == target && !Sendable(target, r.payload)
  }

  /** Advancing keeps rows as they are and goes on to a sendable one of its target. */
  lemma {:induction false} AdvanceStops(target: string, rows: map<nat, Row>, todo: seq<Row>)
    ensures var r := Advance(target, rows, todo);
            && r.0.Keys <= rows.Keys
            && (forall id :: id in r.0 ==> r.0[id] == rows[id])
            && |r.1| <= |todo| && r.1 == todo[|todo| - |r.1|..]
            && (r.1 != [] ==> r.1[0].target == target && Sendable(target, r.1[0].payload))
  {
    hide Sendable;
    if todo != [] && !(todo[0].target == target && Sendable(target, todo[0].payload)) {
      AdvanceStops(target, if todo[0].target != target then rows else Without(rows, todo[0].id), todo[1..]);
    }
  }

  /** What advancing removes is an unsendable row of its target that it passed. */
  lemma {:induction false} AdvancePasses(target: string, rows: map<nat, Row>, todo: seq<Row>, id: nat)
    requires id in rows && id !in Advance(target, rows, todo).0
    ensures var n := |todo| - |Advance(target, rows, todo).1|;
            0 <= n <= |todo| && IsDropped(target, todo[..n], id)
  {
    hide Sendable;
    AdvanceStops(target, rows, todo);
    var rest := if todo[0].target != target then rows else Without(rows, todo[0].id);
    var passed := todo[..|todo| - |Advance(target, rows, todo).1|];
    assert passed == [todo[0]] + todo[1..][..|passed| - 1];
    if id in rest {
      AdvancePasses(target, rest, todo[1..], id);
      var r :| r in todo[1..][..|passed| - 1] && r.id == id && r.target == target && !Sendable(target, r.payload);
      assert r in passed;
    } else {
      assert todo[0] in passed;
    }
  }

  lemma DroppedWasListed(target: string, todo: seq<Row>, n: nat, id: nat)
    requires n <= |todo| && IsDropped(target, todo[..n], id)
    ensures IsDropped(target, todo, id)
  {
    var r :| r in todo[..n] && r.id == id && r.target == target && !Sendable(target, r.payload);
    assert r in todo;
  }

  /** Advancing removes only unsendable rows of its target, and stops at a sendable one. */
  lemma AdvanceDrops(target: string, rows: map<nat, Row>, todo: seq<Row>)
    ensures var r := Advance(target, rows, todo);
            && r.0.Keys <= rows.Keys
            && (forall id :: id in r.0 ==> r.0[id] == rows[id])
            && (forall id :: id in rows && id !in r.0 ==> IsDropped(target, todo, id))
            && |r.1| <= |todo| && r.1 == todo[|todo| - |r.1|..]
            && (r.1 != [] ==> r.1[0].target == target && Sendable(target, r.1[0].payload))
  {
    hide Sendable;
    hide Advance;
    AdvanceStops(target, rows, todo);
    var r := Advance(target, rows, todo);
    forall id | id in rows && id !in r.0 ensures IsDropped(target, todo, id) {
      AdvancePasses(target, rows, todo, id);
      DroppedWasListed(target, todo, |todo| - |r.1|, id);
    }
  }

  class OutboxTable {
    var rows: map<nat, Row>
    var nextId: nat

    constructor ()
      ensures rows == map[] && nextId == 1
    {
      rows := map[];
      nextId := 1;
    }

    method Enqueue(target: string, payload: string, now: int)
      modifies this
      ensures rows == old(rows)[old(nextId) := Row(old(nextId), target, payload, 0, now)] && nextId == old(nextId) + 1
    {
      rows := rows[nextId := Row(nextId, target, payload, 0, now)];
      nextId := nextId + 1;
    }

    /** `deliverAttestation`, given what came of sending; only a token for attendance is sent or queued. */
    method DeliverAttestation(token: string, recorded: bool, now: int) returns (ok: bool)
      modifies this
      ensures var own := Attestation.ForeignAttestationPurpose(token, "attendance").None?;
              && (ok <==> own && recorded)
              && (if own && !recorded
                  then
                    var row := Row(old(nextId), ATTESTATION_TARGET, Attestation.OutboxPayload(token), 0, now);
                    rows == old(rows)[row.id := row] && nextId == row.id + 1
                  else rows == old(rows) && nextId == old(nextId))
    {
      if Attestation.ForeignAttestationPurpose(token, "attendance").Some? { return false; }
      if recorded { return true; }
      Enqueue(ATTESTATION_TARGET, Attestation.OutboxPayload(token), now);
      ok := false;
    }

    method EnqueueConsentRevocation(input: RevokeConsentInput, now: int)
      modifies this
      ensures var row := Row(old(nextId), CONSENT_REVOKE_TARGET, RevocationPayload(input), 0, now);
              rows == old(rows)[row.id := row] && nextId == row.id + 1
    {
      Enqueue(CONSENT_REVOKE_TARGET, RevocationPayload(input), now);
    }

    method ListDue(now: int) returns (due: seq<Row>)
      ensures due == Due(rows, nextId, now)
    {
      due := [];
      for id := 0 to nextId
        invariant due == Due(rows, id, now)
      {
        if id in rows && rows[id].nextAt <= now { due := due + [rows[id]]; }
      }
    }

    method Acknowledge(id: nat)
      modifies this`rows
      ensures rows == Without(old(rows), id)
    {
      rows := Without(rows, id);
    }

    /** The attempts come from the row as it was listed. */
    method DeferRow(row: Row, now: int)
      modifies this`rows
      ensures rows == Defer(old(rows), row, now)
    {
      if row.id in rows {
        rows := rows[row.id := rows[row.id].(attempts := row.attempts + 1, nextAt := now + Delay(row.attempts + 1))];
      }
    }

    /** The start of a sweep; the first of the rest, if any, is sent. */
    method StartRetry(target: string, now: int) returns (rest: seq<Row>)
      modifies this`rows
      ensures (rows, rest) == Advance(target, old(rows), Due(old(rows), nextId, now))
    {
      var due := ListDue(now);
      rest := Continue(target, due);
    }

    /** The answer to the row just sent, and on to the next send. */
    method ResumeRetry(target: string, todo: seq<Row>, ok: bool, now: int) returns (rest: seq<Row>)
      requires todo != []
      modifies this`rows
      ensures (rows, rest) == Advance(target, Answered(old(rows), todo[0], ok, now), todo[1..])
    {
      if ok { Acknowledge(todo[0].id); } else { DeferRow(todo[0], now); }
      rest := Continue(target, todo[1..]);
    }

    method Continue(target: string, todo: seq<Row>) returns (rest: seq<Row>)
      modifies this`rows
      ensures (rows, rest) == Advance(target, old(rows), todo)
    {
      rest := todo;
      while rest != [] && (rest[0].target != target || !Sendable(target, rest[0].payload))
        invariant Advance(target, rows, rest) == Advance(target, old(rows), todo)
        decreases |rest|
      {
        if rest[0].target == target { Acknowledge(rest[0].id); }
        rest := rest[1..];
      }
    }
  }
}

/** Every overlap of sweeps for both targets and enqueues. */
module OutboxProtocol {
  import opened Common
  import opened Outbox
  import Attestation

  datatype Message = Message(target: string, payload: string)

  /** A request that was answered. */
  datatype Post = Post(id: nat, message: Message, ok: bool)

  /** A sweep in flight; the first row of `todo` is being sent. */
  datatype Sweep = Sweep(target: string, todo: seq<Row>)

  datatype System = System(
    rows: map<nat, Row>,
    nextId: nat,
    enqueued: map<nat, Message>,
    tasks: map<nat, Sweep>,
    posts: seq<Post>,
    clock: int)

  datatype Event = Enqueued(message: Message) | Start(task: nat, target: string) | Answer(task: nat, ok: bool)

  predicate Init(s: System) {
    s.rows == map[] && s.nextId == 1 && s.enqueued == map[] && s.tasks == map[] && s.posts == []
  }

  predicate Enabled(s: System, e: Event, now: int) {
    && s.clock <= now
    && match e
       case Enqueued(_) => true
       case Start(t, target) => t !in s.tasks && (target == ATTESTATION_TARGET || target == CONSENT_REVOKE_TARGET)
       case Answer(t, _) => t in s.tasks && s.tasks[t].todo != []
  }

  function Next(s: System, e: Event, now: int): System
    requires Enabled(s, e, now)
  {
    match e
    case Enqueued(m) =>
      s.(clock := now, rows := s.rows[s.nextId := Row(s.nextId, m.target, m.payload, 0, now)], nextId := s.nextId + 1,
         enqueued := s.enqueued[s.nextId := m])
    case Start(t, target) =>
      var r := Advance(target, s.rows, Due(s.rows, s.nextId, now));
      s.(clock := now, rows := r.0, tasks := s.tasks[t := Sweep(target, r.1)])
    case Answer(t, ok) =>
      var target, todo := s.tasks[t].target, s.tasks[t].todo;
      var r := Advance(target, Answered(s.rows, todo[0], ok, now), todo[1..]);
      s.(clock := now, rows := r.0, tasks := s.tasks[t := Sweep(target, r.1)],
         posts := s.posts + [Post(todo[0].id, Message(todo[0].target, todo[0].payload), ok)])
  }

  // ---------- the invariant ----------

  /** A listed row carries the message that was queued under its id. */
  predicate IsRowOf(enqueued: map<nat, Message>, r: Row) {
    r.id in enqueued && enqueued[r.id] == Message(r.target, r.payload)
  }

  ghost predicate RowsOk(s: System) {
    && (forall id :: id in s.rows ==> s.rows[id].id == id && IsRowOf(s.enqueued, s.rows[id]))
    && (forall id :: id in s.enqueued ==> id < s.nextId)
  }

  ghost predicate SweepOk(s: System, w: Sweep) {
    && (w.target == ATTESTATION_TARGET || w.target == CONSENT_REVOKE_TARGET)
    && (forall r :: r in w.todo ==> IsRowOf(s.enqueued, r))
    && (w.todo != [] ==> w.todo[0].target == w.target && Sendable(w.target, w.todo[0].payload))
  }

  ghost predicate SweepsOk(s: System) {
    forall t :: t in s.tasks ==> SweepOk(s, s.tasks[t])
  }

  ghost predicate IsAccepted(s: System, id: nat) {
    id in s.enqueued && Post(id, s.enqueued[id], true) in s.posts
  }

  /** Why a row may be gone: it was accepted, or it is one that its own sweep does not send. */
  ghost predicate MayBeGone(s: System, id: nat) {
    id in s.enqueued && var m := s.enqueued[id];
    && (m.target == ATTESTATION_TARGET || m.target == CONSENT_REVOKE_TARGET)
    && (IsAccepted(s, id) || !Sendable(m.target, m.payload))
  }

  ghost predicate GoneOk(s: System) {
    forall id :: id in s.enqueued && id !in s.rows ==> MayBeGone(s, id)
  }

  ghost predicate PostsOk(s: System) {
    forall p :: p in s.posts ==>
      p.id in s.enqueued && s.enqueued[p.id] == p.message && Sendable(p.message.target, p.message.payload)
  }

  ghost predicate Inv(s: System) {
    RowsOk(s) && SweepsOk(s) && GoneOk(s) && PostsOk(s)
  }

  /** Rows a step may remove or change are those of the sweep that takes it. */
  lemma RowsTouched(s: System, e: Event, now: int)
    requires RowsOk(s) && SweepsOk(s) && Enabled(s, e, now)
    ensures var s' := Next(s, e, now);
            && s'.clock == now
            && (forall id :: id in s.enqueued ==> id in s'.enqueued && s'.enqueued[id] == s.enqueued[id])
            && (forall id :: id in s'.rows && id in s.enqueued ==> id in s.rows)
            && (forall id :: id in s'.rows && id in s.rows ==>
                  s'.rows[id].(attempts := 0, nextAt := 0) == s.rows[id].(attempts := 0, nextAt := 0))
            && (forall id :: id in s'.rows && id !in s.rows ==>
                  e.Enqueued? && id == s.nextId && s'.rows[id].id == id && IsRowOf(s'.enqueued, s'.rows[id]))
  {
    hide Advance;
    hide Due;
    hide Sendable;
    match e
    case Enqueued(_) =>
    case Start(t, target) => AdvanceDrops(target, s.rows, Due(s.rows, s.nextId, now));
    case Answer(t, ok) =>
      var w := s.tasks[t];
      AdvanceDrops(w.target, Answered(s.rows, w.todo[0], ok, now), w.todo[1..]);
  }

  lemma RowsStep(s: System, e: Event, now: int)
    requires RowsOk(s) && SweepsOk(s) && Enabled(s, e, now)
    ensures RowsOk(Next(s, e, now))
  {
    RowsTouched(s, e, now);
    hide Advance;
    hide Due;
    var s' := Next(s, e, now);
    forall id | id in s'.rows ensures s'.rows[id].id == id && IsRowOf(s'.enqueued, s'.rows[id]) {
      if id in s.rows {
        assert IsRowOf(s.enqueued, s.rows[id]);
        assert s'.rows[id].(attempts := 0, nextAt := 0) == s.rows[id].(attempts := 0, nextAt := 0);
      }
    }
  }

  lemma SweepStays(s: System, e: Event, now: int, w: Sweep)
    requires RowsOk(s) && SweepsOk(s) && Enabled(s, e, now) && SweepOk(s, w)
    ensures SweepOk(Next(s, e, now), w)
  {
    RowsTouched(s, e, now);
    hide Next;
    hide Sendable;
    forall r | r in w.todo ensures IsRowOf(Next(s, e, now).enqueued, r) { assert IsRowOf(s.enqueued, r); }
  }

  /** The rows still to do after a step were listed before it or are due now. */
  lemma SweepMoves(s: System, e: Event, now: int)
    requires RowsOk(s) && SweepsOk(s) && Enabled(s, e, now) && !e.Enqueued?
    ensures SweepOk(s, Next(s, e, now).tasks[e.task])
  {
    hide Advance;
    hide Sendable;
    var todo := if e.Start? then Due(s.rows, s.nextId, now) else s.tasks[e.task].todo[1..];
    if e.Start? {
      DueIsDue(s.rows, s.nextId, now);
      hide Due;
      AdvanceDrops(e.target, s.rows, todo);
      assert forall r :: r in todo ==> IsRowOf(s.enqueued, r);
    } else {
      hide Due;
      assert SweepOk(s, s.tasks[e.task]);
      AdvanceDrops(s.tasks[e.task].target, Answered(s.rows, s.tasks[e.task].todo[0], e.ok, now), todo);
      assert forall r :: r in todo ==> IsRowOf(s.enqueued, r);
    }
  }

  lemma SweepsStep(s: System, e: Event, now: int)
    requires RowsOk(s) && SweepsOk(s) && Enabled(s, e, now)
    ensures SweepsOk(Next(s, e, now))
  {
    hide Advance;
    hide Due;
    hide SweepOk;
    hide RowsOk;
    var s' := Next(s, e, now);
    if !e.Enqueued? {
      SweepMoves(s, e, now);
      SweepStays(s, e, now, s'.tasks[e.task]);
    }
    forall t | t in s'.tasks ensures SweepOk(s', s'.tasks[t]) {
      if t in s.tasks { SweepStays(s, e, now, s.tasks[t]); }
    }
  }

  /** A row that a step removes was accepted in it, or is unsendable for the sweep that drops it. */
  lemma RowRemoved(s: System, e: Event, now: int, id: nat)
    requires RowsOk(s) && SweepsOk(s) && Enabled(s, e, now)
    requires id in s.rows && id !in Next(s, e, now).rows
    ensures !e.Enqueued? && MayBeGone(Next(s, e, now), id)
  {
    RowsTouched(s, e, now);
    hide Sendable;
    hide Advance;
    var s' := Next(s, e, now);
    assert IsRowOf(s.enqueued, s.rows[id]);
    if e.Start? {
      var todo := Due(s.rows, s.nextId, now);
      DueIsDue(s.rows, s.nextId, now);
      hide Due;
      AdvanceDrops(e.target, s.rows, todo);
      assert IsDropped(e.target, todo, id);
    } else if e.Answer? {
      hide Due;
      var w := s.tasks[e.task];
      assert SweepOk(s, w);
      var row := w.todo[0];
      assert IsRowOf(s.enqueued, row);
      if e.ok && row.id == id {
        assert s'.posts[|s.posts|] == Post(id, s.enqueued[id], true);
      } else {
        AdvanceDrops(w.target, Answered(s.rows, row, e.ok, now), w.todo[1..]);
        assert IsDropped(w.target, w.todo[1..], id);
        assert forall r :: r in w.todo[1..] ==> IsRowOf(s.enqueued, r);
      }
    }
  }

  lemma GoneStep(s: System, e: Event, now: int)
    requires Inv(s) && Enabled(s, e, now)
    ensures GoneOk(Next(s, e, now))
  {
    RowsTouched(s, e, now);
    PostsGrow(s, e, now);
    var s' := Next(s, e, now);
    forall id | id in s'.enqueued && id !in s'.rows ensures MayBeGone(s', id) {
      if id in s.rows {
        RowRemoved(s, e, now, id);
      } else if id in s.enqueued {
        hide Next;
        hide Sendable;
        assert MayBeGone(s, id);
      }
    }
  }

  lemma PostsGrow(s: System, e: Event, now: int)
    requires Enabled(s, e, now)
    ensures s.posts <= Next(s, e, now).posts
  {
  }

  lemma PostsStep(s: System, e: Event, now: int)
    requires Inv(s) && Enabled(s, e, now)
    ensures PostsOk(Next(s, e, now))
  {
    RowsTouched(s, e, now);
    hide Sendable;
    hide Advance;
    hide Due;
    if e.Answer? {
      assert SweepOk(s, s.tasks[e.task]);
      assert IsRowOf(s.enqueued, s.tasks[e.task].todo[0]);
    }
  }

  lemma StepKeepsInv(s: System, e: Event, now: int)
    requires Inv(s) && Enabled(s, e, now)
    ensures Inv(Next(s, e, now))
  {
    hide Next;
    RowsStep(s, e, now);
    SweepsStep(s, e, now);
    GoneStep(s, e, now);
    PostsStep(s, e, now);
  }

  // ---------- every run ----------

  ghost predicate Moves(s: System, e: Event, now: int, s': System) {
    Enabled(s, e, now) && s' == Next(s, e, now)
  }

  ghost predicate IsRun(ss: seq<System>, es: seq<Event>, ts: seq<int>) {
    && |ss| == |es| + 1 == |ts| + 1
    && Init(ss[0])
    && forall i :: 0 <= i < |es| ==> Moves(ss[i], es[i], ts[i], ss[i + 1])
  }

  lemma {:induction false} ReachableInv(ss: seq<System>, es: seq<Event>, ts: seq<int>, i: nat)
    requires IsRun(ss, es, ts) && i < |ss|
    ensures Inv(ss[i])
  {
    hide Next;
    if 0 < i {
      ReachableInv(ss, es, ts, i - 1);
      assert Moves(ss[i - 1], es[i - 1], ts[i - 1], ss[i]);
      StepKeepsInv(ss[i - 1], es[i - 1], ts[i - 1]);
    }
  }

  /** Under every overlap a queued message is still there unless it was accepted, or it is one that no
      sweep of its target sends; whatever was posted was such a message. */
  lemma LeavesOnlyWhenAccepted(ss: seq<System>, es: seq<Event>, ts: seq<int>, i: nat, id: nat)
    requires IsRun(ss, es, ts) && i < |ss| && id in ss[i].enqueued && id !in ss[i].rows
    ensures MayBeGone(ss[i], id)
    ensures forall p :: p in ss[i].posts ==>
              && p.id in ss[i].enqueued && p.message == ss[i].enqueued[p.id]
              && Sendable(p.message.target, p.message.payload)
  {
    ReachableInv(ss, es, ts, i);
  }

  /** An attendance that could not be recorded at once leaves the outbox only after it was accepted. */
  lemma AttendanceLeavesOnlyWhenAccepted(ss: seq<System>, es: seq<Event>, ts: seq<int>, i: nat, id: nat, token: string)
    requires IsRun(ss, es, ts) && i < |ss| && id in ss[i].enqueued && id !in ss[i].rows
    requires Attestation.ForeignAttestationPurpose(token, "attendance").None?
    requires ss[i].enqueued[id] == Message(ATTESTATION_TARGET, Attestation.OutboxPayload(token))
    ensures IsAccepted(ss[i], id)
  {
    ReachableInv(ss, es, ts, i);
    Attestation.OutboxPayloadReadsBack(token);
    hide Attestation.IsAttendancePayload;
    assert MayBeGone(ss[i], id);
  }

  /** A queued revocation of a consent leaves only after it was accepted. */
  lemma RevocationLeavesOnlyWhenAccepted(ss: seq<System>, es: seq<Event>, ts: seq<int>, i: nat, id: nat,
                                         input: RevokeConsentInput)
    requires IsRun(ss, es, ts) && i < |ss| && id in ss[i].enqueued && id !in ss[i].rows
    requires input.userId != "" && ss[i].enqueued[id] == Message(CONSENT_REVOKE_TARGET, RevocationPayload(input))
    ensures IsAccepted(ss[i], id)
  {
    ReachableInv(ss, es, ts, i);
    RevocationReadsBack(input);
    hide ParseRevocation;
    assert MayBeGone(ss[i], id);
  }

  /** A row that is gone never comes back, not even by a sweep that still has it listed. */
  lemma {:induction false} GoneStaysGone(ss: seq<System>, es: seq<Event>, ts: seq<int>, i: nat, j: nat, id: nat)
    requires IsRun(ss, es, ts) && i <= j < |ss| && id in ss[i].enqueued && id !in ss[i].rows
    ensures id in ss[j].enqueued && ss[j].enqueued[id] == ss[i].enqueued[id] && id !in ss[j].rows
  {
    hide Next;
    if i < j {
      GoneStaysGone(ss, es, ts, i, j - 1, id);
      ReachableInv(ss, es, ts, j - 1);
      assert Moves(ss[j - 1], es[j - 1], ts[j - 1], ss[j]);
      RowsTouched(ss[j - 1], es[j - 1], ts[j - 1]);
    }
  }

  /** A step of a sweep leaves the rows of every other target as they are. */
  lemma OtherTargetStays(s: System, e: Event, now: int, id: nat)
    requires RowsOk(s) && SweepsOk(s) && Enabled(s, e, now) && !e.Enqueued? && id in s.rows
    requires s.rows[id].target != Next(s, e, now).tasks[e.task].target
    ensures var s' := Next(s, e, now); id in s'.rows && s'.rows[id] == s.rows[id]
  {
    hide Sendable;
    hide Advance;
    assert IsRowOf(s.enqueued, s.rows[id]);
    if e.Start? {
      var todo := Due(s.rows, s.nextId, now);
      DueIsDue(s.rows, s.nextId, now);
      hide Due;
      AdvanceDrops(e.target, s.rows, todo);
    } else {
      hide Due;
      var w := s.tasks[e.task];
      assert SweepOk(s, w) && w.todo[0] in w.todo && forall r :: r in w.todo[1..] ==> r in w.todo;
      AdvanceDrops(w.target, Answered(s.rows, w.todo[0], e.ok, now), w.todo[1..]);
    }
  }

  /** In every run a sweep leaves the rows of every other target as they are. */
  lemma OtherTargetsUntouched(ss: seq<System>, es: seq<Event>, ts: seq<int>, i: nat, id: nat)
    requires IsRun(ss, es, ts) && i < |es| && !es[i].Enqueued? && id in ss[i].rows
    ensures es[i].task in ss[i + 1].tasks
    ensures ss[i].rows[id].target != ss[i + 1].tasks[es[i].task].target ==>
              id in ss[i + 1].rows && ss[i + 1].rows[id] == ss[i].rows[id]
  {
    ReachableInv(ss, es, ts, i);
    assert Moves(ss[i], es[i], ts[i], ss[i + 1]);
    if ss[i].rows[id].target != ss[i + 1].tasks[es[i].task].target { OtherTargetStays(ss[i], es[i], ts[i], id); }
  }

  /** A row whose request failed is kept and waits between one and fifteen minutes, by the number of
      attempts it was listed with. */
  lemma FailedRowsWait(ss: seq<System>, es: seq<Event>, ts: seq<int>, i: nat)
    requires IsRun(ss, es, ts) && i < |es| && es[i].Answer? && !es[i].ok
    ensures es[i].task in ss[i].tasks && ss[i].tasks[es[i].task].todo != []
    ensures var row := ss[i].tasks[es[i].task].todo[0]; var after := ss[i + 1].rows;
            row.id in ss[i].rows ==>
              row.id in after && after[row.id].attempts == row.attempts + 1
              && after[row.id].nextAt == ts[i] + Delay(row.attempts + 1) && 60000 <= Delay(row.attempts + 1) <= 900000
  {
    ReachableInv(ss, es, ts, i);
    var s, e, now := ss[i], es[i], ts[i];
    assert Moves(s, e, now, ss[i + 1]);
    hide Sendable;
    hide Advance;
    hide Delay;
    var w := s.tasks[e.task];
    assert SweepOk(s, w);
    var row := w.todo[0];
    DelaysGrow(row.attempts + 1, row.attempts + 1);
    AdvanceDrops(w.target, Answered(s.rows, row, false, now), w.todo[1..]);
    assert IsRowOf(s.enqueued, row) && forall r :: r in w.todo[1..] ==> IsRowOf(s.enqueued, r);
  }

  /** A failure lowers the attempts of its row exactly if others had raised them by more than one since
      the row was listed. */
  lemma AttemptsKeptIff(ss: seq<System>, es: seq<Event>, ts: seq<int>, i: nat)
    requires IsRun(ss, es, ts) && i < |es| && es[i].Answer? && !es[i].ok
    ensures es[i].task in ss[i].tasks && ss[i].tasks[es[i].task].todo != []
    ensures var row := ss[i].tasks[es[i].task].todo[0]; var id := row.id;
            id in ss[i].rows ==>
              && id in ss[i + 1].rows
              && var before, after := ss[i].rows[id].attempts, ss[i + 1].rows[id].attempts;
                 before <= after <==> before <= row.attempts + 1
  {
    FailedRowsWait(ss, es, ts, i);
  }

  // ---------- sweeps of one target that take turns ----------

  /** A sweep starts only when no other sweep of its target is under way. */
  ghost predicate TakeTurns(ss: seq<System>, es: seq<Event>) {
    |es| <= |ss| && forall i :: 0 <= i < |es| ==> StartsAlone(ss[i], es[i])
  }

  ghost predicate StartsAlone(s: System, e: Event) {
    e.Start? ==> forall t :: t in s.tasks && s.tasks[t].target == e.target ==> s.tasks[t].todo == []
  }

  /** What a sweep still has to do is listed as it stands. */
  ghost predicate IsCurrent(rows: map<nat, Row>, target: string, todo: seq<Row>) {
    DistinctIds(todo) && forall r :: r in todo && r.target == target ==> r.id in rows && rows[r.id] == r
  }

  ghost predicate TurnsOk(s: System) {
    && (forall t, u :: t in s.tasks && u in s.tasks && s.tasks[t].todo != [] && s.tasks[u].todo != [] ==>
          s.tasks[t].target == s.tasks[u].target ==> t == u)
    && (forall t :: t in s.tasks ==> IsCurrent(s.rows, s.tasks[t].target, s.tasks[t].todo))
  }

  /** Advancing keeps the rest of a listing current. */
  lemma AdvanceKeepsCurrent(target: string, rows: map<nat, Row>, todo: seq<Row>)
    requires IsCurrent(rows, target, todo)
    ensures var r := Advance(target, rows, todo); IsCurrent(r.0, target, r.1)
  {
    AdvanceStops(target, rows, todo);
    hide Advance;
    hide Sendable;
    var r := Advance(target, rows, todo);
    var n := |todo| - |r.1|;
    forall x | x in r.1 && x.target == target ensures x.id in r.0 && r.0[x.id] == x {
      var j :| 0 <= j < |r.1| && r.1[j] == x;
      assert todo[n + j] == x && x in todo;
      assert forall i :: 0 <= i < n ==> todo[i].id != x.id;
      if x.id !in r.0 { AdvancePasses(target, rows, todo, x.id); }
    }
  }

  /** A sweep of one target leaves the listings of every other target current. */
  lemma OthersStayCurrent(s: System, e: Event, now: int, w: Sweep)
    requires RowsOk(s) && SweepsOk(s) && SweepOk(s, w) && Enabled(s, e, now) && IsCurrent(s.rows, w.target, w.todo)
    requires e.Enqueued? || Next(s, e, now).tasks[e.task].target != w.target
    ensures IsCurrent(Next(s, e, now).rows, w.target, w.todo)
  {
    hide Advance;
    hide Sendable;
    hide Due;
    var rows' := Next(s, e, now).rows;
    forall r | r in w.todo && r.target == w.target ensures r.id in rows' && rows'[r.id] == r {
      assert r.id in s.rows && IsRowOf(s.enqueued, s.rows[r.id]);
      if !e.Enqueued? { OtherTargetStays(s, e, now, r.id); }
    }
  }

  lemma TurnsStep(s: System, e: Event, now: int)
    requires Inv(s) && TurnsOk(s) && Enabled(s, e, now) && StartsAlone(s, e)
    ensures TurnsOk(Next(s, e, now))
  {
    hide Advance;
    hide Due;
    hide Sendable;
    hide Answered;
    hide IsCurrent;
    var s' := Next(s, e, now);
    forall t | t in s'.tasks ensures IsCurrent(s'.rows, s'.tasks[t].target, s'.tasks[t].todo) {
      if !e.Enqueued? && t == e.task {
        OwnSweepIsCurrent(s, e, now);
      } else if e.Enqueued? || s'.tasks[e.task].target != s.tasks[t].target {
        OthersStayCurrent(s, e, now, s.tasks[t]);
      } else {
        assert s.tasks[t].todo == [];
        NothingIsCurrent(s'.rows, s.tasks[t].target);
      }
    }
  }

  lemma NothingIsCurrent(rows: map<nat, Row>, target: string)
    ensures IsCurrent(rows, target, [])
  {
  }

  lemma OwnSweepIsCurrent(s: System, e: Event, now: int)
    requires Inv(s) && TurnsOk(s) && Enabled(s, e, now) && !e.Enqueued?
    ensures var s' := Next(s, e, now); IsCurrent(s'.rows, s'.tasks[e.task].target, s'.tasks[e.task].todo)
  {
    hide Advance;
    hide Sendable;
    if e.Start? {
      DueIsDue(s.rows, s.nextId, now);
      DueIsDistinct(s.rows, s.nextId, now);
      hide Due;
      AdvanceKeepsCurrent(e.target, s.rows, Due(s.rows, s.nextId, now));
    } else {
      hide Due;
      var w := s.tasks[e.task];
      var rest, rows := w.todo[1..], Answered(s.rows, w.todo[0], e.ok, now);
      assert forall r :: r in rest ==> r in w.todo && r.id != w.todo[0].id;
      AdvanceKeepsCurrent(w.target, rows, rest);
    }
  }

  lemma {:induction false} TurnsThroughout(ss: seq<System>, es: seq<Event>, ts: seq<int>, i: nat)
    requires IsRun(ss, es, ts) && TakeTurns(ss, es) && i < |ss|
    ensures TurnsOk(ss[i])
  {
    hide Next;
    if 0 < i {
      TurnsThroughout(ss, es, ts, i - 1);
      ReachableInv(ss, es, ts, i - 1);
      assert Moves(ss[i - 1], es[i - 1], ts[i - 1], ss[i]) && StartsAlone(ss[i - 1], es[i - 1]);
      TurnsStep(ss[i - 1], es[i - 1], ts[i - 1]);
    }
  }

  /** If the sweeps of a target take turns, every failure raises the attempts of its row by exactly one,
      and the row waits no less than after the failure before. */
  lemma FailuresCountUp(ss: seq<System>, es: seq<Event>, ts: seq<int>, i: nat)
    requires IsRun(ss, es, ts) && TakeTurns(ss, es) && i < |es| && es[i].Answer? && !es[i].ok
    ensures es[i].task in ss[i].tasks && ss[i].tasks[es[i].task].todo != []
    ensures var id := ss[i].tasks[es[i].task].todo[0].id;
            && id in ss[i].rows && id in ss[i + 1].rows
            && ss[i + 1].rows[id].attempts == ss[i].rows[id].attempts + 1
            && ss[i + 1].rows[id].nextAt == ts[i] + Delay(ss[i].rows[id].attempts + 1)
            && (0 < ss[i].rows[id].attempts ==> Delay(ss[i].rows[id].attempts) <= Delay(ss[i + 1].rows[id].attempts))
  {
    FailedRowsWait(ss, es, ts, i);
    TurnsThroughout(ss, es, ts, i);
    ReachableInv(ss, es, ts, i);
    var s, t := ss[i], es[i].task;
    assert SweepOk(s, s.tasks[t]) && IsCurrent(s.rows, s.tasks[t].target, s.tasks[t].todo);
    var row := s.tasks[t].todo[0];
    if 0 < row.attempts { DelaysGrow(row.attempts, row.attempts + 1); }
  }

  // ---------- sweeps that do not take turns may bring a row forward ----------

  /** Sweeps start a minute apart, and the first one is still waiting for its answer. */
  function StaleEvents(m: Message): seq<Event> {
    [Enqueued(m), Start(0, m.target), Start(1, m.target), Answer(1, false), Start(2, m.target), Answer(2, false),
     Answer(0, false)]
  }

  const STALE_TIMES: seq<int> := [0, 0, 60000, 60000, 120000, 120000, 120000]

  function StaleStates(m: Message): seq<System> {
    var T, p, q := m.target, m.payload, Post(1, m, false);
    var first, second := Row(1, T, p, 0, 0), Row(1, T, p, 1, 120000);
    var listed, done := Sweep(T, [first]), Sweep(T, []);
    [System(map[], 1, map[], map[], [], 0),
     System(map[1 := first], 2, map[1 := m], map[], [], 0),
     System(map[1 := first], 2, map[1 := m], map[0 := listed], [], 0),
     System(map[1 := first], 2, map[1 := m], map[0 := listed, 1 := listed], [], 60000),
     System(map[1 := second], 2, map[1 := m], map[0 := listed, 1 := done], [q], 60000),
     System(map[1 := second], 2, map[1 := m], map[0 := listed, 1 := done, 2 := Sweep(T, [second])], [q], 120000),
     System(map[1 := Row(1, T, p, 2, 240000)], 2, map[1 := m], map[0 := listed, 1 := done, 2 := done], [q, q], 120000),
     System(map[1 := Row(1, T, p, 1, 180000)], 2, map[1 := m], map[0 := done, 1 := done, 2 := done], [q, q, q], 120000)]
  }

  lemma StartsWithItsRow(s: System, t: nat, row: Row, now: int)
    requires s.rows == map[1 := row] && s.nextId == 2 && s.clock <= now && row.nextAt <= now && t !in s.tasks
    requires row.target == CONSENT_REVOKE_TARGET && Sendable(row.target, row.payload)
    ensures Moves(s, Start(t, row.target), now, s.(clock := now, tasks := s.tasks[t := Sweep(row.target, [row])]))
  {
    hide Sendable;
    assert Due(s.rows, 0, now) == [];
    assert Due(s.rows, 1, now) == [];
    assert Due(s.rows, 2, now) == [row];
  }

  lemma DefersItsRow(s: System, t: nat, now: int)
    requires Enabled(s, Answer(t, false), now) && |s.tasks[t].todo| == 1
    requires var row := s.tasks[t].todo[0]; row.id in s.rows
    ensures var row := s.tasks[t].todo[0];
            Moves(s, Answer(t, false), now,
                  s.(clock := now, rows := Defer(s.rows, row, now), tasks := s.tasks[t := Sweep(s.tasks[t].target, [])],
                     posts := s.posts + [Post(row.id, Message(row.target, row.payload), false)]))
  {
    assert s.tasks[t].todo[1..] == [];
  }

  lemma StaleStart(m: Message, i: nat)
    requires m.target == CONSENT_REVOKE_TARGET && Sendable(m.target, m.payload)
    requires i == 0 || i == 1 || i == 2 || i == 4
    ensures Moves(StaleStates(m)[i], StaleEvents(m)[i], STALE_TIMES[i], StaleStates(m)[i + 1])
  {
    hide Sendable;
    var s, s' := StaleStates(m)[i], StaleStates(m)[i + 1];
    if i != 0 {
      hide Moves;
      var t, now := if i == 4 then 2 else i - 1, STALE_TIMES[i];
      StartsWithItsRow(s, t, s.rows[1], now);
      assert s' == s.(clock := now, tasks := s.tasks[t := Sweep(m.target, [s.rows[1]])]);
    }
  }

  lemma StaleAnswer(m: Message, i: nat)
    requires m.target == CONSENT_REVOKE_TARGET && (i == 3 || i == 5 || i == 6)
    ensures Moves(StaleStates(m)[i], StaleEvents(m)[i], STALE_TIMES[i], StaleStates(m)[i + 1])
  {
    var s, s', now := StaleStates(m)[i], StaleStates(m)[i + 1], STALE_TIMES[i];
    var t := if i == 3 then 1 else if i == 5 then 2 else 0;
    DefersItsRow(s, t, now);
    hide Moves;
    assert Delay(1) == 60000 && Delay(2) == 120000 by { assert Pow2(1) == 2 && Pow2(2) == 4; }
    hide Delay;
    assert s'.rows == Defer(s.rows, s.tasks[t].todo[0], now);
    assert s'.tasks == s.tasks[t := Sweep(m.target, [])];
  }

  /** Attempts count the listing, not the row: a slow sweep that fails last sets a row that was deferred
      twice back to one attempt, and makes it due earlier again. */
  lemma StaleDeferral(m: Message)
    requires m.target == CONSENT_REVOKE_TARGET && Sendable(m.target, m.payload)
    ensures var ss := StaleStates(m);
            && IsRun(ss, StaleEvents(m), STALE_TIMES)
            && ss[6].rows[1].attempts == 2 && ss[7].rows[1].attempts == 1 && ss[7].rows[1].nextAt < ss[6].rows[1].nextAt
  {
    hide Sendable;
    hide Moves;
    forall i | 0 <= i < 7 ensures Moves(StaleStates(m)[i], StaleEvents(m)[i], STALE_TIMES[i], StaleStates(m)[i + 1]) {
      if i == 3 || i == 5 || i == 6 { StaleAnswer(m, i); } else { StaleStart(m, i); }
    }
  }
}
