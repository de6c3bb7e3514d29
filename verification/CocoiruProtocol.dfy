/** All interleavings of `create`, `run`, `revoke`, `close` and request aborts over one store, with
    remote answers, clock readings and SDK callbacks chosen by the environment. */
module CocoiruProtocol {
  import opened Common
  import opened CocoiruSegments

  /** What was true of a session when it was published. */
  datatype Birth = Birth(key: string, userId: string, userRole: string, at: int)

  datatype Execution = Execution(task: nat, entry: nat, userId: string, at: int)

  /** `births` runs parallel to `store.cells`.  `granted`, `published` and `undone` count, per create
      task, the grants it got from bind, its publications, and its compensating remote revokes. */
  datatype System = System(
    store: Store,
    creates: map<nat, CreateTask>,
    runs: map<nat, RunTask>,
    aborted: set<nat>,
    clock: int,
    births: seq<Birth>,
    granted: multiset<nat>,
    published: multiset<nat>,
    undone: multiset<nat>,
    executions: seq<Execution>)

  datatype Event =
    | CreateStart(task: nat, code: string, verifier: string, signal: nat, previous: Option<string>)
    | OnPreviousRevoked(task: nat, ok: bool)
    | OnExchange(task: nat, exchanged: Option<Exchanged>, token: string)
    | OnBind(task: nat, grant: Option<Grant>)
    | OnUndo(task: nat, ok: bool)
    | RunStart(task: nat, token: string, signal: nat)
    | OnCheck(task: nat, check: CheckResult)
    | AuthorizeCallback(task: nat, allowed: bool)
    | ExecuteCallback(task: nat, allowed: bool)
    | OnRunSettled(task: nat, denied: bool)
    | Revoke(token: string)
    | CloseStore
    | Abort(signal: nat)

  ghost predicate Init(s: System) {
    && s.store == EMPTY_STORE && s.creates == map[] && s.runs == map[] && s.aborted == {}
    && s.births == [] && s.granted == s.published == s.undone == multiset{} && s.executions == []
  }

  /** A task identity is used once; a continuation runs only for a task that waits for it.  The SDK
      may call `authorizeResource` and `execute` of a permitted run at any time and any number of times. */
  ghost predicate Enabled(s: System, e: Event, now: int) {
    && s.clock <= now
    && match e
       case CreateStart(t, _, _, _, _) => t !in s.creates
       case OnPreviousRevoked(t, ok) =>
         && t in s.creates && s.creates[t].AwaitPrevious?
         && (s.creates[t].call.TokenRefused? ==> !ok) && (s.creates[t].call.NothingRemote? ==> ok)
       case OnExchange(t, _, _) => t in s.creates && s.creates[t].AwaitExchange?
       case OnBind(t, _) => t in s.creates && s.creates[t].AwaitBind?
       case OnUndo(t, _) => t in s.creates && s.creates[t].AwaitUndo?
       case RunStart(t, _, _) => t !in s.runs
       case OnCheck(t, _) => t in s.runs && s.runs[t].AwaitCheck?
       case AuthorizeCallback(t, _) => t in s.runs && s.runs[t].Permitted?
       case ExecuteCallback(t, _) => t in s.runs && s.runs[t].Permitted?
       case OnRunSettled(t, _) => t in s.runs && s.runs[t].Permitted? && !s.runs[t].settled
       case Revoke(_) => true
       case CloseStore => true
       case Abort(_) => true
  }

  /** References held by the store and by run tasks point to existing cells. */
  ghost predicate WellFormed(s: System) {
    s.store.Valid() && forall t :: t in s.runs ==> s.runs[t].entry < |s.store.cells|
  }

  function WithCreate(s: System, t: nat, r: (Store, CreateTask)): System {
    s.(store := r.0, creates := s.creates[t := r.1])
  }

  function WithRun(s: System, t: nat, r: (Store, RunTask)): System {
    s.(store := r.0, runs := s.runs[t := r.1])
  }

  ghost function Step(cfg: Config, s: System, e: Event, now: int): System
    requires WellFormed(s) && Enabled(s, e, now)
  {
    var st := s.store;
    match e
    case CreateStart(t, code, verifier, signal, previous) =>
      WithCreate(s, t, CreateEnter(cfg, st, code, verifier, signal, signal in s.aborted, previous, now))
    case OnPreviousRevoked(t, ok) =>
      var c := s.creates[t];
      WithCreate(s, t, StartExchange(st, c.signal, ok, c.call, c.signal in s.aborted))
    case OnExchange(t, exchanged, token) =>
      var c := s.creates[t];
      WithCreate(s, t, ExchangeSettled(cfg, st, c.signal, exchanged, token, c.signal in s.aborted))
    case OnBind(t, grant) =>
      var c := s.creates[t];
      var r := BindSettled(cfg, st, c.signal, c.exchanged, c.token, grant, c.signal in s.aborted, now);
      var s' := WithCreate(s, t, r).(granted := if grant.Some? then s.granted + multiset{t} else s.granted);
      if r.1.Published? then
        s'.(births := s.births + [Birth(cfg.fingerprint(c.token), grant.value.userId, grant.value.userRole, now)],
            published := s.published + multiset{t})
      else if r.1.AwaitUndo? then s'.(undone := s.undone + multiset{t})
      else s'
    case OnUndo(t, ok) =>
      WithCreate(s, t, UndoSettled(st, s.creates[t].grant, s.creates[t].cause, ok))
    case RunStart(t, token, signal) =>
      var r := RunEnter(cfg, st, token, signal, signal in s.aborted, now);
      if r.0.Some? then s.(runs := s.runs[t := r.0.value]) else s
    case OnCheck(t, check) =>
      var c := s.runs[t];
      WithRun(s, t, CheckSettled(cfg, st, c.key, c.entry, c.signal, check, c.signal in s.aborted, now))
    case AuthorizeCallback(t, allowed) => s
    case ExecuteCallback(t, allowed) =>
      var c := s.runs[t];
      var r := Execute(st, c.key, c.entry, c.userId, c.signal in s.aborted, allowed, now);
      if r.Executed? then s.(executions := s.executions + [Execution(t, c.entry, r.userId, now)]) else s
    case OnRunSettled(t, denied) =>
      var c := s.runs[t];
      s.(store := RunSettled(st, c.key, denied), runs := s.runs[t := c.(settled := true)])
    case Revoke(token) => s.(store := RevokeEnter(cfg, st, token, now).0)
    case CloseStore => s.(store := Close(st))
    case Abort(signal) => s.(aborted := s.aborted + {signal})
  }

  ghost function Next(cfg: Config, s: System, e: Event, now: int): System
    requires WellFormed(s) && Enabled(s, e, now)
  {
    Step(cfg, s, e, now).(clock := now)
  }

  // ---------- the invariant ----------

  function PendingTasks(creates: map<nat, CreateTask>): (r: set<nat>) {
    set t | t in creates && creates[t].Pending()
  }

  ghost predicate Bounded(cfg: Config, s: System) {
    && s.store.pending == |PendingTasks(s.creates)|
    && s.store.pending <= MAX_PENDING
    && |s.store.entries| + s.store.pending <= cfg.capacity
    && (s.store.closed ==> s.store.entries == map[])
  }

  /** Every entry object, mapped or not, still carries the identity it was published with. */
  ghost predicate Identified(cfg: Config, s: System) {
    && |s.births| == |s.store.cells|
    && s.store.Valid()
    && (forall k :: k in s.store.entries ==> s.births[s.store.entries[k]].key == k)
    && forall i :: 0 <= i < |s.births| ==> CellOk(cfg, s.births[i], s.store.cells[i], s.clock)
  }

  ghost predicate CellOk(cfg: Config, b: Birth, c: Cell, clock: int) {
    && c.grant == Grant(b.key, b.userId, b.userRole, cfg.projectKey, Some(c.expiresAt))
    && c.expiresAt <= b.at + MAX_LIFETIME_MS
    && b.at <= clock
  }

  ghost predicate RunOk(s: System, r: RunTask) {
    && r.entry < |s.births|
    && r.key == s.births[r.entry].key
    && (r.Permitted? ==> r.userId == s.births[r.entry].userId)
  }

  ghost predicate RunsOk(s: System) {
    forall t :: t in s.runs ==> RunOk(s, s.runs[t])
  }

  ghost predicate ExecutionsOk(s: System) {
    forall x :: x in s.executions ==>
      && x.entry < |s.births|
      && x.userId == s.births[x.entry].userId
      && s.births[x.entry].at <= x.at < s.births[x.entry].at + MAX_LIFETIME_MS
  }

  /** A create task that obtained a grant either published it or attempted exactly one remote revoke. */
  ghost predicate GrantsAccounted(s: System) {
    forall t: nat :: GrantAccounted(s, t)
  }

  ghost predicate GrantAccounted(s: System, t: nat) {
    && s.granted[t] == s.published[t] + s.undone[t]
    && s.published[t] == (if t in s.creates && s.creates[t].Published? then 1 else 0)
    && s.undone[t] == (if t in s.creates && (s.creates[t].AwaitUndo? || s.creates[t].RefusedAfterUndo?) then 1 else 0)
  }

  ghost predicate Inv(cfg: Config, s: System) {
    && cfg.Valid() && WellFormed(s) && Bounded(cfg, s) && Identified(cfg, s)
    && RunsOk(s) && ExecutionsOk(s) && GrantsAccounted(s)
  }

  // ---------- every step keeps it ----------

  /** Either sessions are only narrowed, or exactly one correctly bound session is published. */
  ghost predicate StoreEvolves(cfg: Config, s: System, s': System) {
    || (Narrows(s.store, s'.store) && s'.births == s.births)
    || (var n := |s.births|;
        && |s'.births| == n + 1 && s'.births[..n] == s.births && |s.store.cells| == n
        && Publishes(s.store, s'.store, s'.births[n].key)
        && CellOk(cfg, s'.births[n], s'.store.cells[n], s'.clock))
  }

  /** A run keeps what it captured, aborts are final, and the clock does not go back. */
  ghost predicate TasksEvolve(s: System, s': System) {
    && (forall t :: t in s.runs ==> t in s'.runs && SameCapture(s.runs[t], s'.runs[t]))
    && s.aborted <= s'.aborted
    && s.clock <= s'.clock
    && s.executions <= s'.executions
  }

  ghost predicate SameCapture(r: RunTask, r': RunTask) {
    && r'.key == r.key && r'.entry == r.entry && r'.signal == r.signal
    && (r.Permitted? ==> r'.Permitted? && r'.userId == r.userId)
  }

  lemma StoreStep(cfg: Config, s: System, e: Event, now: int)
    requires WellFormed(s) && Identified(cfg, s) && Enabled(s, e, now)
    ensures StoreEvolves(cfg, s, Next(cfg, s, e, now))
  {
    if e.OnBind? {
      BindStep(cfg, s, e, now);
    } else if e.CreateStart? || e.OnPreviousRevoked? || e.OnExchange? || e.OnUndo? {
      CreateStep(cfg, s, e, now);
    } else if e.OnCheck? {
      CheckStep(cfg, s, e, now);
    }
  }

  lemma CreateStep(cfg: Config, s: System, e: Event, now: int)
    requires WellFormed(s) && Enabled(s, e, now)
    requires e.CreateStart? || e.OnPreviousRevoked? || e.OnExchange? || e.OnUndo?
    ensures var s' := Next(cfg, s, e, now); Narrows(s.store, s'.store) && s'.births == s.births
  {
  }

  lemma CheckStep(cfg: Config, s: System, e: Event, now: int)
    requires WellFormed(s) && Identified(cfg, s) && Enabled(s, e, now) && e.OnCheck?
    ensures var s' := Next(cfg, s, e, now); Narrows(s.store, s'.store) && s'.births == s.births
  {
    assert forall i :: 0 <= i < |s.births| ==> CellOk(cfg, s.births[i], s.store.cells[i], s.clock);
  }

  lemma BindStep(cfg: Config, s: System, e: Event, now: int)
    requires WellFormed(s) && Identified(cfg, s) && Enabled(s, e, now) && e.OnBind?
    ensures StoreEvolves(cfg, s, Next(cfg, s, e, now))
  {
  }

  lemma TasksStep(cfg: Config, s: System, e: Event, now: int)
    requires WellFormed(s) && Enabled(s, e, now)
    ensures TasksEvolve(s, Next(cfg, s, e, now))
  {
    hide Step;
    RunsTouched(cfg, s, e, now);
    ExecutionsTouched(cfg, s, e, now);
    AbortsTouched(cfg, s, e, now);
  }

  lemma AbortsTouched(cfg: Config, s: System, e: Event, now: int)
    requires WellFormed(s) && Enabled(s, e, now)
    ensures s.aborted <= Next(cfg, s, e, now).aborted
  {
  }

  lemma StaysIdentified(cfg: Config, s: System, s': System)
    requires Identified(cfg, s) && StoreEvolves(cfg, s, s') && s.clock <= s'.clock
    ensures Identified(cfg, s')
  {
  }

  /** Only these three events touch the table of runs. */
  lemma RunsTouched(cfg: Config, s: System, e: Event, now: int)
    requires WellFormed(s) && Enabled(s, e, now)
    ensures var runs' := Next(cfg, s, e, now).runs;
            || runs' == s.runs
            || ((e.RunStart? || e.OnCheck? || e.OnRunSettled?)
                && e.task in runs' && runs' == s.runs[e.task := runs'[e.task]]
                && (e.RunStart? <==> e.task !in s.runs)
                && (e.task in s.runs ==> SameCapture(s.runs[e.task], runs'[e.task])))
  {
    hide CreateEnter;
    hide StartExchange;
    hide ExchangeSettled;
    hide BindSettled;
    hide UndoSettled;
    hide Execute;
  }

  lemma RunStaysOk(cfg: Config, s: System, s': System, r: RunTask)
    requires RunOk(s, r) && StoreEvolves(cfg, s, s')
    ensures RunOk(s', r)
  {
  }

  lemma TouchedRunOk(cfg: Config, s: System, e: Event, now: int)
    requires WellFormed(s) && Identified(cfg, s) && RunsOk(s) && Enabled(s, e, now)
    requires e.RunStart? || e.OnCheck? || e.OnRunSettled?
    ensures var s' := Next(cfg, s, e, now);
            e.task in s'.runs ==> RunOk(s', s'.runs[e.task])
  {
    if e.task in s.runs {
      assert RunOk(s, s.runs[e.task]);
      var entry := s.runs[e.task].entry;
      assert CellOk(cfg, s.births[entry], s.store.cells[entry], s.clock);
    }
  }

  lemma RunsStep(cfg: Config, s: System, e: Event, now: int)
    requires WellFormed(s) && Identified(cfg, s) && RunsOk(s) && Enabled(s, e, now)
    ensures RunsOk(Next(cfg, s, e, now))
  {
    hide Step;
    var s' := Next(cfg, s, e, now);
    StoreStep(cfg, s, e, now);
    RunsTouched(cfg, s, e, now);
    if e.RunStart? || e.OnCheck? || e.OnRunSettled? { TouchedRunOk(cfg, s, e, now); }
    forall t | t in s'.runs
      ensures RunOk(s', s'.runs[t])
    {
      if s'.runs == s.runs || t != e.task { RunStaysOk(cfg, s, s', s.runs[t]); }
    }
  }

  lemma ExecutionsStep(cfg: Config, s: System, e: Event, now: int)
    requires WellFormed(s) && Identified(cfg, s) && RunsOk(s) && ExecutionsOk(s) && Enabled(s, e, now)
    ensures ExecutionsOk(Next(cfg, s, e, now))
  {
    hide Step;
    StoreStep(cfg, s, e, now);
    ExecutionsTouched(cfg, s, e, now);
    if e.ExecuteCallback? {
      var r := s.runs[e.task];
      assert RunOk(s, r);
      assert CellOk(cfg, s.births[r.entry], s.store.cells[r.entry], s.clock);
    }
  }

  lemma ExecutionsTouched(cfg: Config, s: System, e: Event, now: int)
    requires WellFormed(s) && Enabled(s, e, now)
    ensures var xs' := Next(cfg, s, e, now).executions;
            || xs' == s.executions
            || (e.ExecuteCallback?
                && var r := s.runs[e.task];
                   && xs' == s.executions + [Execution(e.task, r.entry, r.userId, now)]
                   && AssertEntry(s.store, r.key, r.entry, r.signal in s.aborted, now).None?)
  {
  }

  lemma GrantsStep(cfg: Config, s: System, e: Event, now: int)
    requires WellFormed(s) && GrantsAccounted(s) && Enabled(s, e, now)
    ensures GrantsAccounted(Next(cfg, s, e, now))
  {
    hide Step;
    var s' := Next(cfg, s, e, now);
    CreatesTouched(cfg, s, e, now);
    GrantsTouched(cfg, s, e, now);
    forall t: nat ensures GrantAccounted(s', t) {
      assert GrantAccounted(s, t);
    }
  }

  /** Only the answer to a bind counts a grant, and it counts it once, as published or as undone. */
  lemma GrantsTouched(cfg: Config, s: System, e: Event, now: int)
    requires WellFormed(s) && Enabled(s, e, now)
    ensures var s' := Next(cfg, s, e, now);
            if e.OnBind? && e.grant.Some? then
              && e.task in s'.creates
              && (s'.creates[e.task].Published? || s'.creates[e.task].AwaitUndo?)
              && s'.granted == s.granted + multiset{e.task}
              && s'.published == (if s'.creates[e.task].Published? then s.published + multiset{e.task} else s.published)
              && s'.undone == (if s'.creates[e.task].Published? then s.undone else s.undone + multiset{e.task})
            else
              && s'.granted == s.granted && s'.published == s.published && s'.undone == s.undone
              && (s'.creates != s.creates ==>
                    && e.task in s'.creates && !s'.creates[e.task].Published? && !s'.creates[e.task].AwaitUndo?
                    && (s'.creates[e.task].RefusedAfterUndo? <==> e.OnUndo?))
  {
    hide Sweep;
    hide RevokeEnter;
    hide BindingOk;
    hide Opaque;
    hide IsVerifier;
    hide CheckSettled;
    hide RunEnter;
    hide Execute;
  }

  /** Moving task `t` to `c` changes the number of pending tasks by at most one. */
  lemma PendingAfter(creates: map<nat, CreateTask>, t: nat, c: CreateTask)
    ensures var before := t in creates && creates[t].Pending();
            |PendingTasks(creates[t := c])| ==
              |PendingTasks(creates)| - (if before then 1 else 0) + (if c.Pending() then 1 else 0)
  {
    var rest := PendingTasks(creates) - {t};
    assert PendingTasks(creates) == if t in creates && creates[t].Pending() then rest + {t} else rest;
    assert PendingTasks(creates[t := c]) == if c.Pending() then rest + {t} else rest;
  }

  /** Only create events touch the table of create tasks, and `pending` follows it. */
  lemma CreatesTouched(cfg: Config, s: System, e: Event, now: int)
    requires WellFormed(s) && Enabled(s, e, now)
    ensures var s' := Next(cfg, s, e, now);
            || (s'.creates == s.creates && s'.store.pending == s.store.pending)
            || ((e.CreateStart? || e.OnPreviousRevoked? || e.OnExchange? || e.OnBind? || e.OnUndo?)
                && e.task in s'.creates && s'.creates == s.creates[e.task := s'.creates[e.task]]
                && (e.CreateStart? <==> e.task !in s.creates)
                && (e.CreateStart? || s.creates[e.task].Pending())
                && s'.store.pending == s.store.pending
                   + (if s'.creates[e.task].Pending() then 1 else 0) - (if e.CreateStart? then 0 else 1))
  {
    if e.CreateStart? || e.OnPreviousRevoked? || e.OnExchange? || e.OnBind? || e.OnUndo? {
      CreateMoves(cfg, s, e, now);
      hide Next;
    }
  }

  lemma CreateMoves(cfg: Config, s: System, e: Event, now: int)
    requires WellFormed(s) && Enabled(s, e, now)
    requires e.CreateStart? || e.OnPreviousRevoked? || e.OnExchange? || e.OnBind? || e.OnUndo?
    ensures var s' := Next(cfg, s, e, now);
            && e.task in s'.creates && s'.creates == s.creates[e.task := s'.creates[e.task]]
            && s'.store.pending == s.store.pending
               + (if s'.creates[e.task].Pending() then 1 else 0) - (if e.CreateStart? then 0 else 1)
  {
    hide CreateEnter;
    hide StartExchange;
    hide ExchangeSettled;
    hide BindSettled;
    hide UndoSettled;
  }

  lemma AdmittedBound(cfg: Config, s: System, e: Event, now: int)
    requires WellFormed(s) && Enabled(s, e, now) && e.CreateStart?
    ensures var s' := Next(cfg, s, e, now);
            e.task in s'.creates
            && (s'.creates[e.task].Pending() ==>
                  s'.store.pending <= MAX_PENDING && |s'.store.entries| + s'.store.pending <= cfg.capacity)
  {
    hide CreateEnter;
    AdmittedWithinCapacity(cfg, s.store, e.code, e.verifier, e.signal, e.signal in s.aborted, e.previous, now);
  }

  /** Publishing trades a pending place for an entry. */
  lemma PublishTrades(cfg: Config, s: System, e: Event, now: int)
    requires WellFormed(s) && Enabled(s, e, now) && Identified(cfg, s)
    ensures var s' := Next(cfg, s, e, now);
            || Narrows(s.store, s'.store)
            || (e.OnBind? && e.task in s'.creates && !s'.creates[e.task].Pending()
                && s'.store.closed == s.store.closed == false
                && |s'.store.entries| == |s.store.entries| + 1)
  {
    if e.OnBind? { BindStep(cfg, s, e, now); } else { StoreStep(cfg, s, e, now); }
  }

  lemma BoundedStep(cfg: Config, s: System, e: Event, now: int)
    requires WellFormed(s) && Identified(cfg, s) && Bounded(cfg, s) && Enabled(s, e, now)
    ensures Bounded(cfg, Next(cfg, s, e, now))
  {
    hide Step;
    var s' := Next(cfg, s, e, now);
    CreatesTouched(cfg, s, e, now);
    PublishTrades(cfg, s, e, now);
    if Narrows(s.store, s'.store) { NarrowedSize(s.store, s'.store); }
    if s'.creates != s.creates || s'.store.pending != s.store.pending {
      PendingAfter(s.creates, e.task, s'.creates[e.task]);
      if e.CreateStart? { AdmittedBound(cfg, s, e, now); }
    }
  }

  lemma StepKeepsInv(cfg: Config, s: System, e: Event, now: int)
    requires Inv(cfg, s) && Enabled(s, e, now)
    ensures Inv(cfg, Next(cfg, s, e, now))
  {
    BoundedStep(cfg, s, e, now);
    StoreStep(cfg, s, e, now);
    StaysIdentified(cfg, s, Next(cfg, s, e, now));
    RunsStep(cfg, s, e, now);
    ExecutionsStep(cfg, s, e, now);
    GrantsStep(cfg, s, e, now);
  }
}
