/** Pulling revocations and consents into the face tables. */
module RevocationSync {
  import opened Common
  import opened FaceTables
  import opened FaceHistory

  const SINCE_OVERLAP_MS: int := 60000

  /** One item of a response as it was parsed; a field of another type is absent. */
  datatype RawRevocation = RawRevocation(userId: Option<string>, at: Option<int>)

  datatype RawConsent = RawConsent(
    userId: Option<string>,
    consentId: Option<string>,
    policyVersion: Option<string>,
    at: Option<int>,
    revokedAt: Option<int>)

  datatype Answer<T> = NotFound | HttpError | Unreachable | Body(items: seq<T>)

  datatype PullResult = PullResult(ok: bool, unsupported: bool, applied: nat)

  predicate IsListed(r: RawRevocation) {
    r.userId.Some? && r.userId.value != ""
  }

  function Listed(rs: seq<RawRevocation>): set<string> {
    set r | r in rs && IsListed(r) :: r.userId.value
  }

  function WithRows(t: Tables, users: set<string>): set<string> {
    set u | u in users && HasRows(t, u)
  }

  predicate IsConsent(r: RawConsent) {
    r.userId.Some? && r.userId.value != "" && r.consentId.Some? && r.consentId.value != ""
  }

  /** The write that one consent record leads to. */
  function ConsentEvent(r: RawConsent, now: int): Event
    requires IsConsent(r)
  {
    var consent := Consent(r.consentId.value, if r.policyVersion.Some? then r.policyVersion.value else "unknown",
                           if r.at.Some? then r.at.value else now, r.revokedAt);
    if IsRevoked(consent) then Purged(r.userId.value) else ConsentCopied(r.userId.value, consent)
  }

  function ConsentEvents(rs: seq<RawConsent>, now: int): seq<Event> {
    if rs == [] then []
    else
      var before := ConsentEvents(rs[..|rs| - 1], now);
      var r := rs[|rs| - 1];
      if IsConsent(r) then before + [ConsentEvent(r, now)] else before
  }

  function RevocationEvents(rs: seq<RawRevocation>): seq<Event> {
    if rs == [] then []
    else
      var before := RevocationEvents(rs[..|rs| - 1]);
      var r := rs[|rs| - 1];
      if IsListed(r) then before + [Purged(r.userId.value)] else before
  }

  /** Removes exactly the listed users from all three tables, whatever their order or number of
      mentions, and counts the distinct ones that had any row. */
  method ApplyFaceRevocations(db: FaceDatabase, revocations: seq<RawRevocation>) returns (applied: nat)
    modifies db
    ensures db.Rows() == PurgeAll(old(db.Rows()), Listed(revocations))
    ensures applied == |WithRows(old(db.Rows()), Listed(revocations))|
  {
    applied := 0;
    ghost var before := db.Rows();
    for k := 0 to |revocations|
      invariant db.Rows() == PurgeAll(before, Listed(revocations[..k]))
      invariant applied == |WithRows(before, Listed(revocations[..k]))|
    {
      ghost var gone := Listed(revocations[..k]);
      assert revocations[..k + 1] == revocations[..k] + [revocations[k]];
      if !IsListed(revocations[k]) {
        assert Listed(revocations[..k + 1]) == gone;
        continue;
      }
      var user := revocations[k].userId.value;
      assert Listed(revocations[..k + 1]) == gone + {user};
      PurgeOneMore(before, gone, user);
      var removed := db.PurgeFaceSubject(user);
      if removed.templates != 0 || removed.photos != 0 || removed.consents != 0 { applied := applied + 1; }
    }
    assert revocations[..|revocations|] == revocations;
  }

  lemma PurgeOneMore(t: Tables, gone: set<string>, user: string)
    ensures Purge(PurgeAll(t, gone), user) == PurgeAll(t, gone + {user})
    ensures |WithRows(t, gone + {user})| == |WithRows(t, gone)| + if HasRows(PurgeAll(t, gone), user) then 1 else 0
  {
    if HasRows(PurgeAll(t, gone), user) {
      assert WithRows(t, gone + {user}) == WithRows(t, gone) + {user};
    } else {
      assert WithRows(t, gone + {user}) == WithRows(t, gone);
    }
  }

  /** A pulled list of revocations is a history of deletions. */
  lemma {:induction false} RevocationsAreDeletions(t: Tables, rs: seq<RawRevocation>)
    ensures Replay(t, RevocationEvents(rs)) == PurgeAll(t, Listed(rs)) && AllValid(RevocationEvents(rs))
  {
    if rs != [] {
      var before, r := rs[..|rs| - 1], rs[|rs| - 1];
      RevocationsAreDeletions(t, before);
      ListedGrows(before, r);
      assert rs == before + [r];
      if IsListed(r) {
        var user := r.userId.value;
        hide PurgeAll;
        hide Listed;
        PurgeOneMore(t, Listed(before), user);
        ReplayOneMore(t, RevocationEvents(before), Purged(user));
      }
    }
  }

  lemma ListedGrows(before: seq<RawRevocation>, r: RawRevocation)
    ensures Listed(before + [r]) == if IsListed(r) then Listed(before) + {r.userId.value} else Listed(before)
  {
    assert forall x :: x in before + [r] <==> x in before || x == r;
  }

  lemma ReplayOneMore(t: Tables, es: seq<Event>, e: Event)
    ensures Replay(t, es + [e]) == Apply(Replay(t, es), e)
  {
    assert (es + [e])[..|es|] == es;
  }

  /** Repeating a list, or applying it in another order, changes nothing more. */
  lemma RevocationsRepeat(t: Tables, a: seq<RawRevocation>, b: seq<RawRevocation>)
    requires multiset(a) == multiset(b)
    ensures var once := PurgeAll(t, Listed(a)); PurgeAll(once, Listed(b)) == once && WithRows(once, Listed(b)) == {}
  {
    forall r | r in b ensures r in a {
      assert r in multiset(b);
      assert r in multiset(a);
    }
    assert Listed(b) <= Listed(a);
  }

  class FaceSync {
    const db: FaceDatabase
    var stored: Option<int>
    const lookbackMs: nat

    constructor (db: FaceDatabase, lookbackMs: nat)
      ensures this.db == db && this.lookbackMs == lookbackMs && stored == None
    {
      this.db := db;
      this.lookbackMs := lookbackMs;
      stored := None;
    }

    /** The synchronous start of a pull of revocations: where it asks from. */
    method StartRevocationPull(now: int) returns (since: int)
      ensures since == Since(stored, lookbackMs, now)
    {
      if stored.Some? && stored.value > 0 { return stored.value; }
      since := now - lookbackMs;
    }

    /** A pull of revocations that started at `now`, once its answer is there. */
    method FinishRevocationPull(now: int, answer: Answer<RawRevocation>) returns (r: PullResult)
      modifies this, db
      ensures r.ok <==> answer.Body?
      ensures r.unsupported <==> answer.NotFound?
      ensures r.ok ==>
                && stored == Some(now - SINCE_OVERLAP_MS)
                && db.Rows() == Replay(old(db.Rows()), RevocationEvents(answer.items))
                && db.Rows() == PurgeAll(old(db.Rows()), Listed(answer.items))
                && r.applied == |WithRows(old(db.Rows()), Listed(answer.items))|
      ensures !r.ok ==> stored == old(stored) && db.Rows() == old(db.Rows()) && r.applied == 0
    {
      if answer.NotFound? { return PullResult(false, true, 0); }
      if !answer.Body? { return PullResult(false, false, 0); }
      RevocationsAreDeletions(db.Rows(), answer.items);
      var applied := ApplyFaceRevocations(db, answer.items);
      stored := Some(now - SINCE_OVERLAP_MS);
      r := PullResult(true, false, applied);
    }

    /** A pull of all consents: every record is one write, in order. */
    method FinishConsentPull(now: int, answer: Answer<RawConsent>) returns (r: PullResult)
      modifies db
      ensures r.ok <==> answer.Body?
      ensures r.unsupported <==> answer.NotFound?
      ensures r.ok ==>
                && db.Rows() == Replay(old(db.Rows()), ConsentEvents(answer.items, now))
                && AllValid(ConsentEvents(answer.items, now))
                && r.applied == |ConsentEvents(answer.items, now)|
      ensures !r.ok ==> db.Rows() == old(db.Rows()) && r.applied == 0
    {
      if answer.NotFound? { return PullResult(false, true, 0); }
      if !answer.Body? { return PullResult(false, false, 0); }
      var applied := ApplyConsents(now, answer.items);
      r := PullResult(true, false, applied);
    }

    method ApplyConsents(now: int, items: seq<RawConsent>) returns (applied: nat)
      modifies db
      ensures db.Rows() == Replay(old(db.Rows()), ConsentEvents(items, now))
      ensures AllValid(ConsentEvents(items, now)) && applied == |ConsentEvents(items, now)|
    {
      applied := 0;
      ghost var before := db.Rows();
      for k := 0 to |items|
        invariant db.Rows() == Replay(before, ConsentEvents(items[..k], now))
        invariant AllValid(ConsentEvents(items[..k], now))
        invariant applied == |ConsentEvents(items[..k], now)|
      {
        hide Replay;
        hide Apply;
        hide ConsentEvents;
        ConsentEventsGrow(items, k, now, before);
        if IsConsent(items[k]) {
          ApplyConsent(items[k], now);
          applied := applied + 1;
        }
      }
      assert items[..|items|] == items;
    }

    /** One record of the pull: a copy, or a deletion if it is revoked. */
    method ApplyConsent(item: RawConsent, now: int)
      requires IsConsent(item)
      modifies db
      ensures db.Rows() == Apply(old(db.Rows()), ConsentEvent(item, now))
    {
      var policy := if item.policyVersion.Some? then item.policyVersion.value else "unknown";
      var at := if item.at.Some? then item.at.value else now;
      if item.revokedAt.Some? && item.revokedAt.value != 0 {
        var _ := db.PurgeFaceSubject(item.userId.value);
      } else {
        db.UpsertFaceConsentCopy(item.userId.value, Consent(item.consentId.value, policy, at, item.revokedAt));
      }
    }
  }

  /** What one more record adds to the writes. */
  lemma ConsentEventsGrow(items: seq<RawConsent>, k: nat, now: int, t: Tables)
    requires k < |items| && AllValid(ConsentEvents(items[..k], now))
    ensures var es, es' := ConsentEvents(items[..k], now), ConsentEvents(items[..k + 1], now);
            && AllValid(es')
            && (if IsConsent(items[k])
                then |es'| == |es| + 1 && Replay(t, es') == Apply(Replay(t, es), ConsentEvent(items[k], now))
                else es' == es)
  {
    hide Apply;
    hide Replay;
    assert items[..k + 1][..k] == items[..k];
    if IsConsent(items[k]) { ReplayOneMore(t, ConsentEvents(items[..k], now), ConsentEvent(items[k], now)); }
  }

  // ---------- a revocation at instant 0 ----------

  /** A record is stored as a copy exactly if it has no revocation, or one at instant 0. */
  lemma CopiedIff(r: RawConsent, now: int)
    requires IsConsent(r)
    ensures ConsentEvent(r, now).ConsentCopied? <==> r.revokedAt.None? || r.revokedAt == Some(0)
  {
  }

  /** A pull that ends with a revocation at instant 0 stores it as a copy that is still usable for a year,
      and leaves the templates as the records before it left them. */
  lemma ZeroRevocationIsUsable(t: Tables, before: seq<RawConsent>, r: RawConsent, now: int, enrolledAt: int, later: int)
    requires IsConsent(r) && r.revokedAt == Some(0) && r.at.Some?
    ensures var user := r.userId.value; var es := ConsentEvents(before + [r], now); var after := Replay(t, es);
            && ConsentOf(after, user).Some? && after.consents[user].revokedAt == Some(0)
            && (var lastDay := r.at.value + CONSENT_MAX_AGE_MS;
                IsFaceConsentUsable(ConsentOf(after, user), enrolledAt, later) <==> later <= lastDay)
            && after.templates == Replay(t, ConsentEvents(before, now)).templates
  {
    assert (before + [r])[..|before|] == before;
    ReplayOneMore(t, ConsentEvents(before, now), ConsentEvent(r, now));
  }

  /** A stored position that is not positive counts as none. */
  function Since(stored: Option<int>, lookbackMs: nat, now: int): int {
    if stored.Some? && stored.value > 0 then stored.value else now - lookbackMs
  }
}

/** Any overlap of pulls: what the stored position promises. */
module RevocationSyncProtocol {
  import opened Common
  import opened RevocationSync

  /** A revocation becomes visible to pulls less than `lagMs` after the instant it is stamped with. */
  datatype Config = Config(lookbackMs: nat, lagMs: nat)

  /** A pull in flight; `base` is where the unbroken coverage that it extends begins. */
  datatype Pull = Pull(since: int, now: int, base: int, isLookback: bool)

  /** A revocation stamped `at` that became visible at `seen`. */
  datatype Row = Row(user: string, at: int, seen: int)

  /** An applied pull and the users its answer listed. */
  datatype Window = Window(pull: Pull, users: set<string>)

  datatype System = System(
    stored: Option<int>,
    base: int,
    tasks: map<nat, Pull>,
    windows: seq<Window>,
    published: seq<Row>,
    clock: int)

  datatype Event = Start(task: nat) | Publish(user: string, at: int) | Settled(task: nat, users: Option<set<string>>)

  predicate Init(s: System) {
    s.stored.None? && s.tasks == map[] && s.windows == [] && s.published == []
  }

  /** The clock has passed the first minute.  An answer lists at least the revocations from its start on
      that were visible before the pull began; what appears later may be missing from it. */
  ghost predicate Enabled(cfg: Config, s: System, e: Event, now: int) {
    && s.clock <= now && SINCE_OVERLAP_MS < now
    && match e
       case Start(t) => t !in s.tasks
       case Publish(_, at) => at <= now < at + cfg.lagMs
       case Settled(t, users) => t in s.tasks && (users.Some? ==> ListsVisible(s.published, s.tasks[t], users.value))
  }

  ghost predicate ListsVisible(published: seq<Row>, p: Pull, users: set<string>) {
    forall r :: r in published && p.since <= r.at && r.seen < p.now ==> r.user in users
  }

  ghost function Next(cfg: Config, s: System, e: Event, now: int): System
    requires Enabled(cfg, s, e, now)
  {
    match e
    case Start(t) =>
      var since := Since(s.stored, cfg.lookbackMs, now);
      var goesOn := s.stored.Some? && s.stored.value > 0;
      var pull := if goesOn then Pull(since, now, s.base, false) else Pull(since, now, since, true);
      s.(clock := now, tasks := s.tasks[t := pull])
    case Publish(user, at) => s.(clock := now, published := s.published + [Row(user, at, now)])
    case Settled(t, users) =>
      var pull := s.tasks[t];
      if users.None? then s.(clock := now, tasks := Without(s.tasks, t))
      else s.(clock := now, tasks := Without(s.tasks, t), stored := Some(pull.now - SINCE_OVERLAP_MS),
              base := pull.base, windows := s.windows + [Window(pull, users.value)])
  }

  // ---------- the invariant ----------

  /** The stamps a pull accounts for: from its start to a minute before it began. */
  predicate Contains(w: Window, x: int) {
    w.pull.since <= x <= w.pull.now - SINCE_OVERLAP_MS
  }

  ghost predicate IsCovered(windows: seq<Window>, x: int) {
    exists w :: w in windows && Contains(w, x)
  }

  /** Every instant of [from, to) is accounted for. */
  ghost predicate Covered(windows: seq<Window>, from: int, to: int) {
    forall x :: from <= x < to ==> IsCovered(windows, x)
  }

  /** `base` is where a lookback began, that was applied. */
  ghost predicate IsLookbackStart(windows: seq<Window>, base: int) {
    exists w :: w in windows && w.pull.isLookback && w.pull.since == base
  }

  ghost predicate PullOk(cfg: Config, s: System, p: Pull) {
    && SINCE_OVERLAP_MS < p.now <= s.clock
    && (if p.isLookback then p.base == p.since == p.now - cfg.lookbackMs else IsLookbackStart(s.windows, p.base))
    && Covered(s.windows, p.base, p.since)
  }

  ghost predicate PullsOk(cfg: Config, s: System) {
    && (forall t :: t in s.tasks ==> PullOk(cfg, s, s.tasks[t]))
    && (forall w :: w in s.windows ==> PullOk(cfg, s, w.pull))
  }

  ghost predicate StoredOk(s: System) {
    s.stored.Some? ==> IsLookbackStart(s.windows, s.base) && Covered(s.windows, s.base, s.stored.value + 1)
  }

  ghost predicate RowsOk(cfg: Config, s: System) {
    && (forall r :: r in s.published ==> r.at <= r.seen < r.at + cfg.lagMs && r.seen <= s.clock)
    && (forall w :: w in s.windows ==> ListsVisible(s.published, w.pull, w.users))
  }

  ghost predicate Inv(cfg: Config, s: System) {
    PullsOk(cfg, s) && StoredOk(s) && RowsOk(cfg, s)
  }

  lemma WindowsGrow(cfg: Config, s: System, e: Event, now: int)
    requires Enabled(cfg, s, e, now)
    ensures var s' := Next(cfg, s, e, now);
            && s'.clock == now && (forall w :: w in s.windows ==> w in s'.windows)
            && (forall w :: w in s'.windows ==>
                  w in s.windows || (e.Settled? && e.users.Some? && w == Window(s.tasks[e.task], e.users.value)))
            && (forall r :: r in s'.published ==> r in s.published || (e.Publish? && r == Row(e.user, e.at, now)))
            && (e.Settled? ==> s'.published == s.published)
  {
  }

  lemma CoverageGrows(windows: seq<Window>, windows': seq<Window>, from: int, to: int)
    requires (forall w :: w in windows ==> w in windows') && Covered(windows, from, to)
    ensures Covered(windows', from, to)
  {
    forall x | from <= x < to ensures IsCovered(windows', x) { assert IsCovered(windows, x); }
  }

  /** The window of a pull joins on to the coverage it started from. */
  lemma WindowExtends(windows: seq<Window>, w: Window)
    requires w in windows && Covered(windows, w.pull.base, w.pull.since)
    ensures Covered(windows, w.pull.base, w.pull.now - SINCE_OVERLAP_MS + 1)
  {
    forall x | w.pull.base <= x < w.pull.now - SINCE_OVERLAP_MS + 1 ensures IsCovered(windows, x) {
      if w.pull.since <= x { assert Contains(w, x); }
    }
  }

  lemma PullStays(cfg: Config, s: System, e: Event, now: int, p: Pull)
    requires Enabled(cfg, s, e, now) && PullOk(cfg, s, p)
    ensures PullOk(cfg, Next(cfg, s, e, now), p)
  {
    WindowsGrow(cfg, s, e, now);
    CoverageGrows(s.windows, Next(cfg, s, e, now).windows, p.base, p.since);
  }

  lemma PullsStep(cfg: Config, s: System, e: Event, now: int)
    requires PullsOk(cfg, s) && StoredOk(s) && Enabled(cfg, s, e, now)
    ensures PullsOk(cfg, Next(cfg, s, e, now))
  {
    var s' := Next(cfg, s, e, now);
    forall t | t in s'.tasks ensures PullOk(cfg, s', s'.tasks[t]) {
      if t in s.tasks { PullStays(cfg, s, e, now, s.tasks[t]); }
    }
    forall w | w in s'.windows ensures PullOk(cfg, s', w.pull) {
      PullStays(cfg, s, e, now, w.pull);
    }
  }

  lemma StoredStep(cfg: Config, s: System, e: Event, now: int)
    requires PullsOk(cfg, s) && StoredOk(s) && Enabled(cfg, s, e, now)
    ensures StoredOk(Next(cfg, s, e, now))
  {
    var s' := Next(cfg, s, e, now);
    WindowsGrow(cfg, s, e, now);
    if e.Settled? && e.users.Some? {
      var w := Window(s.tasks[e.task], e.users.value);
      assert PullOk(cfg, s, w.pull);
      assert w == s'.windows[|s.windows|];
      CoverageGrows(s.windows, s'.windows, w.pull.base, w.pull.since);
      WindowExtends(s'.windows, w);
    } else if s.stored.Some? {
      CoverageGrows(s.windows, s'.windows, s.base, s.stored.value + 1);
    }
  }

  /** What becomes visible after a pull began was not visible before it. */
  lemma RowsStep(cfg: Config, s: System, e: Event, now: int)
    requires PullsOk(cfg, s) && RowsOk(cfg, s) && Enabled(cfg, s, e, now)
    ensures RowsOk(cfg, Next(cfg, s, e, now))
  {
    var s' := Next(cfg, s, e, now);
    WindowsGrow(cfg, s, e, now);
    forall w | w in s'.windows ensures ListsVisible(s'.published, w.pull, w.users) {
      assert w in s.windows ==> PullOk(cfg, s, w.pull) && ListsVisible(s.published, w.pull, w.users);
    }
  }

  lemma StepKeepsInv(cfg: Config, s: System, e: Event, now: int)
    requires Inv(cfg, s) && Enabled(cfg, s, e, now)
    ensures Inv(cfg, Next(cfg, s, e, now))
  {
    hide Next;
    PullsStep(cfg, s, e, now);
    StoredStep(cfg, s, e, now);
    RowsStep(cfg, s, e, now);
  }

  // ---------- every run ----------

  ghost predicate Moves(cfg: Config, s: System, e: Event, now: int, s': System) {
    Enabled(cfg, s, e, now) && s' == Next(cfg, s, e, now)
  }

  ghost predicate IsRun(cfg: Config, ss: seq<System>, es: seq<Event>, ts: seq<int>) {
    && |ss| == |es| + 1 == |ts| + 1
    && Init(ss[0])
    && forall i :: 0 <= i < |es| ==> Moves(cfg, ss[i], es[i], ts[i], ss[i + 1])
  }

  lemma {:induction false} ReachableInv(cfg: Config, ss: seq<System>, es: seq<Event>, ts: seq<int>, i: nat)
    requires IsRun(cfg, ss, es, ts) && i < |ss|
    ensures Inv(cfg, ss[i])
  {
    hide Next;
    if 0 < i {
      ReachableInv(cfg, ss, es, ts, i - 1);
      assert Moves(cfg, ss[i - 1], es[i - 1], ts[i - 1], ss[i]);
      StepKeepsInv(cfg, ss[i - 1], es[i - 1], ts[i - 1]);
    }
  }

  /** The answer of an applied pull that asked for the row's stamp, and began after the row was visible,
      listed its user. */
  ghost predicate WasListed(s: System, r: Row) {
    exists w :: w in s.windows && Contains(w, r.at) && r.seen < w.pull.now && r.user in w.users
  }

  /** Every instant from an applied lookback to the stored position is accounted for by an applied pull.
      If rows become visible within the minute by which positions lag behind, every row stamped in that
      time was in the answer of one, also the rows that appeared while a pull was in flight. */
  lemma NothingIsMissed(cfg: Config, ss: seq<System>, es: seq<Event>, ts: seq<int>, i: nat)
    requires IsRun(cfg, ss, es, ts) && i < |ss| && ss[i].stored.Some?
    ensures IsLookbackStart(ss[i].windows, ss[i].base)
    ensures Covered(ss[i].windows, ss[i].base, ss[i].stored.value + 1)
    ensures cfg.lagMs <= 60000 ==>
              forall r :: r in ss[i].published && ss[i].base <= r.at <= ss[i].stored.value ==> WasListed(ss[i], r)
  {
    ReachableInv(cfg, ss, es, ts, i);
    if cfg.lagMs <= SINCE_OVERLAP_MS {
      forall r | r in ss[i].published && ss[i].base <= r.at <= ss[i].stored.value ensures WasListed(ss[i], r) {
        ListedOnce(cfg, ss[i], r);
      }
    }
  }

  lemma ListedOnce(cfg: Config, s: System, r: Row)
    requires Inv(cfg, s) && cfg.lagMs <= SINCE_OVERLAP_MS
    requires s.stored.Some? && r in s.published && s.base <= r.at <= s.stored.value
    ensures WasListed(s, r)
  {
    assert IsCovered(s.windows, r.at);
    var w :| w in s.windows && Contains(w, r.at);
    assert ListsVisible(s.published, w.pull, w.users);
  }

  /** A pull at `t0` whose answer lacks a row stamped a minute earlier that appears while it is in flight. */
  function LateRow(cfg: Config, t0: int): seq<System> {
    var p := Pull(t0 - cfg.lookbackMs, t0, t0 - cfg.lookbackMs, true);
    var late := Row("u", t0 - SINCE_OVERLAP_MS, t0);
    [System(None, 0, map[], [], [], t0),
     System(None, 0, map[0 := p], [], [], t0),
     System(None, 0, map[0 := p], [], [late], t0),
     System(Some(t0 - SINCE_OVERLAP_MS), p.base, map[], [Window(p, {})], [late], t0)]
  }

  /** The minute is exactly enough: if rows may take any longer to appear, one in the covered time is in
      no answer. */
  lemma LateRowIsMissed(cfg: Config, t0: int)
    requires SINCE_OVERLAP_MS < t0 && SINCE_OVERLAP_MS <= cfg.lookbackMs && SINCE_OVERLAP_MS < cfg.lagMs
    ensures var ss := LateRow(cfg, t0); var last := ss[3];
            && IsRun(cfg, ss, [Start(0), Publish("u", t0 - SINCE_OVERLAP_MS), Settled(0, Some({}))], [t0, t0, t0])
            && last.base <= last.published[0].at <= last.stored.value && !WasListed(last, last.published[0])
  {
    var ss := LateRow(cfg, t0);
    assert Without(ss[2].tasks, 0) == ss[3].tasks;
  }

  /** The coverage reaches back to any applied lookback, if every applied lookback began no later than its
      own length, less the minute, after it. */
  lemma CoveredFromALookback(cfg: Config, ss: seq<System>, es: seq<Event>, ts: seq<int>, i: nat, first: Window)
    requires IsRun(cfg, ss, es, ts) && i < |ss| && ss[i].stored.Some?
    requires first in ss[i].windows && first.pull.isLookback
    requires forall w :: w in ss[i].windows && w.pull.isLookback ==>
               w.pull.now - cfg.lookbackMs <= first.pull.now - SINCE_OVERLAP_MS + 1
    ensures Covered(ss[i].windows, first.pull.since, ss[i].stored.value + 1)
  {
    ReachableInv(cfg, ss, es, ts, i);
    var s := ss[i];
    var last :| last in s.windows && last.pull.isLookback && last.pull.since == s.base;
    assert PullOk(cfg, s, last.pull) && PullOk(cfg, s, first.pull);
    forall x | first.pull.since <= x < s.stored.value + 1 ensures IsCovered(s.windows, x) {
      if x < s.base { assert Contains(first, x); }
    }
  }

  /** Two first pulls that overlap: one starts at `t0`, the other at `t1`, both before any was applied. */
  function TwoFirstPulls(cfg: Config, t0: int, t1: int): seq<System> {
    var l := cfg.lookbackMs;
    var a, b := Pull(t0 - l, t0, t0 - l, true), Pull(t1 - l, t1, t1 - l, true);
    [System(None, 0, map[], [], [], t0),
     System(None, 0, map[0 := a], [], [], t0),
     System(None, 0, map[0 := a, 1 := b], [], [], t1),
     System(Some(t0 - SINCE_OVERLAP_MS), a.base, map[1 := b], [Window(a, {})], [], t1),
     System(Some(t1 - SINCE_OVERLAP_MS), b.base, map[], [Window(a, {}), Window(b, {})], [], t1)]
  }

  /** The first instant that the pull at `t0` leaves open. */
  function FirstOpen(cfg: Config, t0: int): int {
    if cfg.lookbackMs < SINCE_OVERLAP_MS then t0 - cfg.lookbackMs else t0 - SINCE_OVERLAP_MS + 1
  }

  lemma TwoFirstPullsIsRun(cfg: Config, t0: int, t1: int)
    requires SINCE_OVERLAP_MS < t0 <= t1
    ensures IsRun(cfg, TwoFirstPulls(cfg, t0, t1),
                  [Start(0), Start(1), Settled(0, Some({})), Settled(1, Some({}))], [t0, t1, t1, t1])
  {
    var ss := TwoFirstPulls(cfg, t0, t1);
    assert Without(ss[2].tasks, 0) == ss[3].tasks && Without(ss[3].tasks, 1) == ss[4].tasks;
  }

  /** The bound is sharp: the coverage from the first pull is complete exactly if the second window begins
      no later than the first instant the first one leaves open, or the position is still before it. */
  lemma OverlappingFirstPulls(cfg: Config, t0: int, t1: int)
    requires SINCE_OVERLAP_MS < t0 <= t1
    ensures IsRun(cfg, TwoFirstPulls(cfg, t0, t1),
                  [Start(0), Start(1), Settled(0, Some({})), Settled(1, Some({}))], [t0, t1, t1, t1])
    ensures var last, open := TwoFirstPulls(cfg, t0, t1)[4], FirstOpen(cfg, t0);
            var complete := Covered(last.windows, t0 - cfg.lookbackMs, last.stored.value + 1);
            complete <==> t1 - cfg.lookbackMs <= open || t1 - SINCE_OVERLAP_MS < open
  {
    TwoFirstPullsIsRun(cfg, t0, t1);
    hide IsRun;
    var windows, l := TwoFirstPulls(cfg, t0, t1)[4].windows, cfg.lookbackMs;
    assert windows[0] in windows && windows[1] in windows;
    forall x
      ensures IsCovered(windows, x) <==> t0 - l <= x <= t0 - SINCE_OVERLAP_MS || t1 - l <= x <= t1 - SINCE_OVERLAP_MS
    {
      assert Contains(windows[0], x) <==> t0 - l <= x <= t0 - SINCE_OVERLAP_MS;
      assert Contains(windows[1], x) <==> t1 - l <= x <= t1 - SINCE_OVERLAP_MS;
    }
    var x := FirstOpen(cfg, t0);
    if x < t1 - l && x <= t1 - SINCE_OVERLAP_MS { assert !IsCovered(windows, x); }
  }

  /** Pulls that fail leave the position where it was. */
  lemma FailureKeepsThePosition(cfg: Config, ss: seq<System>, es: seq<Event>, ts: seq<int>, i: nat)
    requires IsRun(cfg, ss, es, ts) && i < |es| && ss[i].stored != ss[i + 1].stored
    ensures es[i].Settled? && es[i].users.Some?
  {
    assert Moves(cfg, ss[i], es[i], ts[i], ss[i + 1]);
  }
}
