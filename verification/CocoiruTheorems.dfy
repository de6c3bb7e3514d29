/** What holds of every run of the Cocoiru session store. */
module CocoiruTheorems {
  import opened Common
  import opened CocoiruSegments
  import opened CocoiruProtocol

  /** `ss[i]` is the state before the event `es[i]`, which happens at the clock reading `ts[i]`. */
  ghost predicate IsRun(cfg: Config, ss: seq<System>, es: seq<Event>, ts: seq<int>) {
    && cfg.Valid()
    && |ss| == |es| + 1 == |ts| + 1
    && Init(ss[0])
    && forall i :: 0 <= i < |es| ==> Moves(cfg, ss[i], es[i], ts[i], ss[i + 1])
  }

  ghost predicate Moves(cfg: Config, s: System, e: Event, now: int, s': System) {
    WellFormed(s) && Enabled(s, e, now) && s' == Next(cfg, s, e, now)
  }

  lemma {:induction false} ReachableInv(cfg: Config, ss: seq<System>, es: seq<Event>, ts: seq<int>, i: nat)
    requires IsRun(cfg, ss, es, ts) && i < |ss|
    ensures Inv(cfg, ss[i])
  {
    hide Step;
    if i == 0 {
      assert PendingTasks(ss[0].creates) == {};
    } else {
      ReachableInv(cfg, ss, es, ts, i - 1);
      assert Moves(cfg, ss[i - 1], es[i - 1], ts[i - 1], ss[i]);
      StepKeepsInv(cfg, ss[i - 1], es[i - 1], ts[i - 1]);
    }
  }

  /** At every suspension point the store is within its bounds, `pending` counts exactly the creations
      in flight, and a closed store is empty. */
  lemma CapacityHolds(cfg: Config, ss: seq<System>, es: seq<Event>, ts: seq<int>, i: nat)
    requires IsRun(cfg, ss, es, ts) && i < |ss|
    ensures |ss[i].store.entries| + ss[i].store.pending <= cfg.capacity
    ensures ss[i].store.pending == |PendingTasks(ss[i].creates)| <= 32
    ensures ss[i].store.closed ==> ss[i].store.entries == map[]
  {
    hide Step;
    ReachableInv(cfg, ss, es, ts, i);
  }

  /** A grant obtained from bind is published or compensated by one remote revoke attempt, in the
      same segment, and never both. */
  lemma GrantPublishedOrRevokedOnce(cfg: Config, ss: seq<System>, es: seq<Event>, ts: seq<int>, i: nat, t: nat)
    requires IsRun(cfg, ss, es, ts) && i < |ss|
    ensures ss[i].granted[t] == ss[i].published[t] + ss[i].undone[t] <= 1
    ensures t in ss[i].creates && ss[i].creates[t].Published? <==> ss[i].published[t] == 1
  {
    hide Step;
    ReachableInv(cfg, ss, es, ts, i);
    assert GrantAccounted(ss[i], t);
  }

  /** No step remaps a key: it drops keys, or maps one free key of an open store to a new object. */
  lemma PublishingNeverOverwrites(cfg: Config, ss: seq<System>, es: seq<Event>, ts: seq<int>, i: nat, key: string)
    requires IsRun(cfg, ss, es, ts) && i < |es| && key in ss[i + 1].store.entries
    ensures var st, st' := ss[i].store, ss[i + 1].store;
            if key in st.entries then st'.entries[key] == st.entries[key]
            else st'.entries[key] == |st.cells| && !st.closed && |ss[i + 1].births| == |ss[i].births| + 1
  {
    hide Step;
    ReachableInv(cfg, ss, es, ts, i);
    assert Moves(cfg, ss[i], es[i], ts[i], ss[i + 1]);
    StoreStep(cfg, ss[i], es[i], ts[i]);
  }

  // ---------- identity and lifetime ----------

  /** From `i` to any later `j`: an entry keeps the identity it was published with and its expiry
      never grows; a run keeps the object it captured. */
  ghost predicate Later(s: System, s': System) {
    && s.births <= s'.births
    && |s.store.cells| == |s.births| && |s'.store.cells| == |s'.births|
    && (forall n :: 0 <= n < |s.births| ==> s'.store.cells[n].expiresAt <= s.store.cells[n].expiresAt)
    && TasksEvolve(s, s')
  }

  lemma {:induction false} LaterStates(cfg: Config, ss: seq<System>, es: seq<Event>, ts: seq<int>, i: nat, j: nat)
    requires IsRun(cfg, ss, es, ts) && i <= j < |ss|
    ensures Later(ss[i], ss[j])
    decreases j - i
  {
    hide Step;
    ReachableInv(cfg, ss, es, ts, i);
    if i < j {
      assert Moves(cfg, ss[i], es[i], ts[i], ss[i + 1]);
      StoreStep(cfg, ss[i], es[i], ts[i]);
      TasksStep(cfg, ss[i], es[i], ts[i]);
      ReachableInv(cfg, ss, es, ts, i + 1);
      LaterStates(cfg, ss, es, ts, i + 1, j);
      LaterIsTransitive(ss[i], ss[i + 1], ss[j]);
    }
  }

  lemma LaterIsTransitive(a: System, b: System, c: System)
    requires Later(a, b) && Later(b, c)
    ensures Later(a, c)
  {
    forall t | t in a.runs ensures t in c.runs && SameCapture(a.runs[t], c.runs[t]) {
      assert t in b.runs && SameCapture(a.runs[t], b.runs[t]);
    }
  }

  /** However often its grant is refreshed, a session keeps its user, role, project and binding, and
      its expiry at `j` is no later than at `i` and within 900 s of its publication. */
  lemma SessionIdentityIsFixed(cfg: Config, ss: seq<System>, es: seq<Event>, ts: seq<int>, i: nat, j: nat, entry: nat)
    requires IsRun(cfg, ss, es, ts) && i <= j < |ss| && entry < |ss[i].births|
    ensures |ss[i].store.cells| == |ss[i].births| && |ss[j].store.cells| == |ss[j].births| >= |ss[i].births|
    ensures var x, x' := ss[i].store.cells[entry], ss[j].store.cells[entry];
            && x'.grant == x.grant.(expiresAt := Some(x'.expiresAt))
            && x'.expiresAt <= x.expiresAt <= ss[i].births[entry].at + 900_000
  {
    hide Step;
    ReachableInv(cfg, ss, es, ts, i);
    ReachableInv(cfg, ss, es, ts, j);
    LaterStates(cfg, ss, es, ts, i, j);
    assert CellOk(cfg, ss[i].births[entry], ss[i].store.cells[entry], ss[i].clock);
    assert CellOk(cfg, ss[j].births[entry], ss[j].store.cells[entry], ss[j].clock);
  }

  /** Every execution was for the user the session was published with, less than 900 s after that. */
  lemma ExecutionsAreTimelyAndOwn(cfg: Config, ss: seq<System>, es: seq<Event>, ts: seq<int>, i: nat, x: Execution)
    requires IsRun(cfg, ss, es, ts) && i < |ss| && x in ss[i].executions
    ensures x.entry < |ss[i].births| && x.userId == ss[i].births[x.entry].userId
    ensures ss[i].births[x.entry].at <= x.at < ss[i].births[x.entry].at + 900_000
  {
    hide Step;
    ReachableInv(cfg, ss, es, ts, i);
  }

  // ---------- only while current ----------

  /** The captured object is still the one mapped under its key, unexpired, in an open store, for a
      request that is not aborted. */
  ghost predicate Current(s: System, key: string, entry: nat, signal: nat, now: int) {
    entry < |s.store.cells| && AssertEntry(s.store, key, entry, signal in s.aborted, now).None?
  }

  lemma NotCurrentStays(cfg: Config, s: System, s': System, key: string, entry: nat, signal: nat)
    requires s.store.Valid() && |s.births| == |s.store.cells|
    requires StoreEvolves(cfg, s, s') && s.aborted <= s'.aborted && s.clock <= s'.clock && entry < |s.births|
    requires !Current(s, key, entry, signal, s.clock)
    ensures !Current(s', key, entry, signal, s'.clock)
  {
  }

  /** No step, not even publishing the same fingerprint again, makes an ended session current. */
  lemma EndedStaysEnded(cfg: Config, s: System, e: Event, now: int, key: string, entry: nat, signal: nat)
    requires Inv(cfg, s) && Enabled(s, e, now) && entry < |s.births|
    requires !Current(s, key, entry, signal, s.clock)
    ensures !Current(Next(cfg, s, e, now), key, entry, signal, now)
  {
    hide Step;
    StoreStep(cfg, s, e, now);
    TasksStep(cfg, s, e, now);
    NotCurrentStays(cfg, s, Next(cfg, s, e, now), key, entry, signal);
  }

  lemma {:induction false} EndedForever(cfg: Config, ss: seq<System>, es: seq<Event>, ts: seq<int>,
                                        key: string, entry: nat, signal: nat, i: nat, j: nat)
    requires IsRun(cfg, ss, es, ts) && i <= j < |ss| && entry < |ss[i].births|
    requires !Current(ss[i], key, entry, signal, ss[i].clock)
    ensures !Current(ss[j], key, entry, signal, ss[j].clock)
    decreases j - i
  {
    hide Step;
    if i < j {
      ReachableInv(cfg, ss, es, ts, i);
      assert Moves(cfg, ss[i], es[i], ts[i], ss[i + 1]);
      EndedStaysEnded(cfg, ss[i], es[i], ts[i], key, entry, signal);
      LaterStates(cfg, ss, es, ts, i, i + 1);
      EndedForever(cfg, ss, es, ts, key, entry, signal, i + 1, j);
    }
  }

  /** Event `c` captures a session for run `t`. */
  ghost predicate Captures(ss: seq<System>, es: seq<Event>, c: nat, t: nat) {
    c < |es| < |ss| && es[c].RunStart? && es[c].task == t && t !in ss[c].runs && t in ss[c + 1].runs
  }

  /** Event `i` is a callback of run `t` that reaches the caller's own `execute`. */
  ghost predicate Executes(ss: seq<System>, es: seq<Event>, i: nat, t: nat) {
    i < |es| < |ss| && es[i].ExecuteCallback? && es[i].task == t && ss[i + 1].executions != ss[i].executions
  }

  lemma ExecuteMeansCurrent(cfg: Config, s: System, e: Event, now: int)
    requires Inv(cfg, s) && Enabled(s, e, now) && e.ExecuteCallback?
    requires Next(cfg, s, e, now).executions != s.executions
    ensures var r := s.runs[e.task];
            && e.allowed && Current(s, r.key, r.entry, r.signal, now)
            && Next(cfg, s, e, now).executions == s.executions + [Execution(e.task, r.entry, r.userId, now)]
  {
  }

  /** The caller's callback runs only if its owner check allows it, with the store open, the request alive
      and the captured session mapped and unexpired, and it was so in every state since it was captured. */
  lemma ExecutesOnlyOnAnUnbrokenSession(cfg: Config, ss: seq<System>, es: seq<Event>, ts: seq<int>, c: nat, i: nat,
                                        t: nat)
    requires IsRun(cfg, ss, es, ts) && c < i && Captures(ss, es, c, t) && Executes(ss, es, i, t)
    ensures var r := ss[c + 1].runs[t];
            && r.key == cfg.fingerprint(es[c].token) && r.entry < |ss[c + 1].births|
            && es[i].allowed && Current(ss[i], r.key, r.entry, r.signal, ts[i])
            && ss[i + 1].executions ==
                 ss[i].executions + [Execution(t, r.entry, ss[c + 1].births[r.entry].userId, ts[i])]
            && (forall j :: c < j <= i ==> Current(ss[j], r.key, r.entry, r.signal, ss[j].clock))
  {
    hide Step;
    var r := ss[c + 1].runs[t];
    ReachableInv(cfg, ss, es, ts, i);
    ReachableInv(cfg, ss, es, ts, c + 1);
    assert RunOk(ss[c + 1], r);
    assert Moves(cfg, ss[c], es[c], ts[c], ss[c + 1]);
    CapturedKey(cfg, ss[c], es[c], ts[c]);
    assert Moves(cfg, ss[i], es[i], ts[i], ss[i + 1]);
    ExecuteMeansCurrent(cfg, ss[i], es[i], ts[i]);
    LaterStates(cfg, ss, es, ts, c + 1, i);
    assert SameCapture(r, ss[i].runs[t]);
    assert RunOk(ss[i], ss[i].runs[t]);
    forall j | c < j <= i ensures Current(ss[j], r.key, r.entry, r.signal, ss[j].clock) {
      LaterStates(cfg, ss, es, ts, c + 1, j);
      if !Current(ss[j], r.key, r.entry, r.signal, ss[j].clock) {
        EndedForever(cfg, ss, es, ts, r.key, r.entry, r.signal, j, i);
      }
    }
  }

  lemma CapturedKey(cfg: Config, s: System, e: Event, now: int)
    requires WellFormed(s) && Enabled(s, e, now) && e.RunStart?
    ensures var s' := Next(cfg, s, e, now);
            e.task in s'.runs ==> s'.runs[e.task].key == cfg.fingerprint(e.token) && s'.runs[e.task].signal == e.signal
  {
  }

  /** The events that end the session mapped under `key`, or the request `signal`, whatever else happens:
      a revoke, an admitted creation that replaces it, a close, an abort, and any run's check of it that is
      denied or finds it changed. */
  ghost predicate Ends(cfg: Config, s: System, e: Event, now: int, key: string, signal: nat) {
    WellFormed(s) && match e
    case Revoke(token) => Opaque(token) && cfg.fingerprint(token) == key
    case CreateStart(_, code, verifier, other, previous) =>
      && previous.Some? && Opaque(previous.value) && cfg.fingerprint(previous.value) == key
      && CreateEnter(cfg, s.store, code, verifier, other, other in s.aborted, previous, now).1.AwaitPrevious?
    case CloseStore => true
    case Abort(other) => other == signal
    case OnCheck(t, check) =>
      && t in s.runs && s.runs[t].key == key
      && (check.Denied? || (check.Checked? && FindsChanged(cfg, s, s.runs[t], check.grant, now)))
    case OnRunSettled(t, denied) => t in s.runs && s.runs[t].key == key && denied
    case _ => false
  }

  /** A check of the entry that a run captured is taken to say that the session changed. */
  ghost predicate FindsChanged(cfg: Config, s: System, r: RunTask, checked: Grant, now: int)
    requires r.entry < |s.store.cells|
  {
    && AssertEntry(s.store, r.key, r.entry, r.signal in s.aborted, now).None?
    && !StillSame(cfg, s.store, r.entry, checked, now)
  }

  lemma EndingEnds(cfg: Config, s: System, e: Event, now: int, key: string, entry: nat, signal: nat)
    requires WellFormed(s) && Enabled(s, e, now) && Ends(cfg, s, e, now, key, signal)
    ensures !Current(Next(cfg, s, e, now), key, entry, signal, now)
  {
  }

  /** A logout, a replacing login, a shutdown, an aborted request, a denial or a change reported by the
      authority after the capture rules out every later execution, also when the same fingerprint is
      published again in between. */
  lemma NothingExecutesAfterTheEnd(cfg: Config, ss: seq<System>, es: seq<Event>, ts: seq<int>, c: nat, j: nat, i: nat,
                                   t: nat)
    requires IsRun(cfg, ss, es, ts) && c < j < i && Captures(ss, es, c, t) && i < |es|
    requires Ends(cfg, ss[j], es[j], ts[j], cfg.fingerprint(es[c].token), es[c].signal)
    ensures !Executes(ss, es, i, t)
  {
    hide Step;
    if Executes(ss, es, i, t) {
      ExecutesOnlyOnAnUnbrokenSession(cfg, ss, es, ts, c, i, t);
      var r := ss[c + 1].runs[t];
      assert Moves(cfg, ss[c], es[c], ts[c], ss[c + 1]);
      CapturedKey(cfg, ss[c], es[c], ts[c]);
      assert Moves(cfg, ss[j], es[j], ts[j], ss[j + 1]);
      assert Current(ss[j + 1], r.key, r.entry, r.signal, ss[j + 1].clock);
      EndingEnds(cfg, ss[j], es[j], ts[j], r.key, r.entry, r.signal);
    }
  }
}
