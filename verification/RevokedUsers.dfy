/** Pulls of revocations together with the handlers that write face data: what covered revocations mean
    for the tables. */
module RevokedUsers {
  import opened Common
  import opened FaceTables
  import opened FaceHistory
  import opened FaceReview
  import opened RevocationSync
  import FaceProtocol
  import Sync = RevocationSyncProtocol

  datatype System = System(face: FaceProtocol.System, sync: Sync.System)

  /** A handler, a step of the pulls, or a successful answer, which is applied to the tables in the same
      segment. */
  datatype Event =
    | Handler(h: FaceProtocol.Event)
    | PullStep(p: Sync.Event)
    | Applied(task: nat, revocations: seq<RawRevocation>)

  ghost predicate Moves(host: Host, cfg: Sync.Config, s: System, e: Event, now: int, s': System) {
    match e
    case Handler(h) => !h.RevocationsPulled? && FaceProtocol.Moves(host, s.face, h, now, s'.face) && s'.sync == s.sync
    case PullStep(p) =>
      !(p.Settled? && p.users.Some?) && Sync.Moves(cfg, s.sync, p, now, s'.sync) && s'.face == s.face
    case Applied(t, revocations) =>
      && Sync.Moves(cfg, s.sync, Sync.Settled(t, Some(Listed(revocations))), now, s'.sync)
      && FaceProtocol.Moves(host, s.face, FaceProtocol.RevocationsPulled(revocations), now, s'.face)
  }

  ghost predicate IsRun(host: Host, cfg: Sync.Config, ss: seq<System>, es: seq<Event>, ts: seq<int>) {
    && |ss| == |es| + 1 == |ts| + 1
    && FaceProtocol.Init(ss[0].face) && Sync.Init(ss[0].sync)
    && (forall i, j :: 0 <= i <= j < |ts| ==> ts[i] <= ts[j])
    && forall i :: 0 <= i < |es| ==> Moves(host, cfg, ss[i], es[i], ts[i], ss[i + 1])
  }

  lemma {:induction false} ReachableInv(host: Host, cfg: Sync.Config, ss: seq<System>, es: seq<Event>, ts: seq<int>,
                                        i: nat)
    requires IsRun(host, cfg, ss, es, ts) && i < |ss|
    ensures FaceProtocol.Inv(ss[i].face) && Sync.Inv(cfg, ss[i].sync)
  {
    hide FaceProtocol.Next;
    hide Sync.Next;
    hide FaceProtocol.Inv;
    hide Sync.Inv;
    if i == 0 {
      InitialInv(cfg, ss[0]);
    } else {
      ReachableInv(host, cfg, ss, es, ts, i - 1);
      var s, e, now := ss[i - 1], es[i - 1], ts[i - 1];
      assert Moves(host, cfg, s, e, now, ss[i]);
      match e
      case Handler(h) => FaceProtocol.StepKeepsInv(host, s.face, h, now);
      case PullStep(p) => Sync.StepKeepsInv(cfg, s.sync, p, now);
      case Applied(t, revocations) =>
        FaceProtocol.StepKeepsInv(host, s.face, FaceProtocol.RevocationsPulled(revocations), now);
        Sync.StepKeepsInv(cfg, s.sync, Sync.Settled(t, Some(Listed(revocations))), now);
    }
  }

  lemma InitialInv(cfg: Sync.Config, s: System)
    requires FaceProtocol.Init(s.face) && Sync.Init(s.sync)
    ensures FaceProtocol.Inv(s.face) && Sync.Inv(cfg, s.sync)
  {
  }

  /** The applied pull `w` was applied by step `k`. */
  ghost predicate AppliedBy(ss: seq<System>, es: seq<Event>, ts: seq<int>, w: Sync.Window, k: nat) {
    && k < |es| && |es| < |ss| && |es| == |ts| && es[k].Applied?
    && es[k].task in ss[k].sync.tasks && w == Sync.Window(ss[k].sync.tasks[es[k].task], Listed(es[k].revocations))
    && w.pull.now <= ts[k]
  }

  lemma {:induction false} EveryWindowWasApplied(host: Host, cfg: Sync.Config, ss: seq<System>, es: seq<Event>,
                                                 ts: seq<int>,
                                                 i: nat, w: Sync.Window) returns (k: nat)
    requires IsRun(host, cfg, ss, es, ts) && i < |ss| && w in ss[i].sync.windows
    ensures k < i && AppliedBy(ss, es, ts, w, k)
  {
    if i != 0 {
      assert Moves(host, cfg, ss[i - 1], es[i - 1], ts[i - 1], ss[i]);
      if w in ss[i - 1].sync.windows {
        k := EveryWindowWasApplied(host, cfg, ss, es, ts, i - 1, w);
      } else {
        ReachableInv(host, cfg, ss, es, ts, i - 1);
        k := i - 1;
        assert Sync.PullOk(cfg, ss[k].sync, w.pull);
      }
    }
  }

  lemma {:induction false} HistoryGrows(host: Host, cfg: Sync.Config, ss: seq<System>, es: seq<Event>, ts: seq<int>,
                                        i: nat, j: nat)
    requires IsRun(host, cfg, ss, es, ts) && i <= j < |ss|
    ensures ss[i].face.history <= ss[j].face.history
  {
    hide FaceProtocol.Next;
    hide Sync.Next;
    if i < j {
      HistoryGrows(host, cfg, ss, es, ts, i, j - 1);
      var s, e, now := ss[j - 1], es[j - 1], ts[j - 1];
      assert Moves(host, cfg, s, e, now, ss[j]);
      if e.Handler? { FaceProtocol.LogsGrow(host, s.face, e.h, now); }
      if e.Applied? { FaceProtocol.LogsGrow(host, s.face, FaceProtocol.RevocationsPulled(e.revocations), now); }
    }
  }

  datatype Kind = TemplateRow | PhotoRow | ConsentRow

  predicate HasRow(t: Tables, kind: Kind, u: string) {
    match kind
    case TemplateRow => u in t.templates
    case PhotoRow => u in t.photos
    case ConsentRow => u in t.consents
  }

  /** The write puts a row of that kind for `u`. */
  predicate Puts(w: FaceHistory.Event, kind: Kind, u: string) {
    match kind
    case TemplateRow => Stores(w, u)
    case PhotoRow => w.PhotoTaken? && w.user == u
    case ConsentRow => w.ConsentCopied? && w.user == u
  }

  /** Every row of `u` that is there was put by write number `from` or a later one. */
  ghost predicate WrittenSince(u: string, t: Tables, history: seq<FaceHistory.Event>, from: nat) {
    forall kind :: HasRow(t, kind, u) ==> exists k :: from <= k < |history| && Puts(history[k], kind, u)
  }

  lemma {:induction false} RowWasPut(history: seq<FaceHistory.Event>, from: nat, kind: Kind, u: string)
    requires from <= |history| && HasRow(Replay(EMPTY, history), kind, u)
    requires !HasRow(Replay(EMPTY, history[..from]), kind, u)
    ensures exists k :: from <= k < |history| && Puts(history[k], kind, u)
  {
    assert history[..|history|] == history;
    if from < |history| {
      var n := |history| - 1;
      var before := history[..n];
      if Puts(history[n], kind, u) {
        assert from <= n;
      } else {
        assert before[..from] == history[..from];
        RowWasPut(before, from, kind, u);
        var k :| from <= k < |before| && Puts(before[k], kind, u);
        assert history[k] == before[k];
      }
    }
  }

  lemma RowsAreWritten(history: seq<FaceHistory.Event>, from: nat, u: string)
    requires from <= |history| && !HasRows(Replay(EMPTY, history[..from]), u)
    ensures WrittenSince(u, Replay(EMPTY, history), history, from)
  {
    forall kind | HasRow(Replay(EMPTY, history), kind, u)
      ensures exists k :: from <= k < |history| && Puts(history[k], kind, u)
    {
      RowWasPut(history, from, kind, u);
    }
  }

  /** The application of a pull leaves no row of a user it lists. */
  lemma ApplicationPurges(host: Host, cfg: Sync.Config, ss: seq<System>, es: seq<Event>, ts: seq<int>, k: nat,
                          u: string)
    requires IsRun(host, cfg, ss, es, ts) && k < |es| && es[k].Applied? && u in Listed(es[k].revocations)
    ensures !HasRows(ss[k + 1].face.tables, u) && |ss[k].face.history| <= |ss[k + 1].face.history|
  {
    assert Moves(host, cfg, ss[k], es[k], ts[k], ss[k + 1]);
    RevocationsAreDeletions(ss[k].face.tables, es[k].revocations);
    HistoryGrows(host, cfg, ss, es, ts, k, k + 1);
  }

  /** The row was dealt with by step `k`: a pull that asked for its stamp, and began after it was visible,
      was applied, listed the user and left no row of theirs. */
  ghost predicate DealtWith(ss: seq<System>, es: seq<Event>, ts: seq<int>, r: Sync.Row, k: nat) {
    && k < |es| < |ss| && |es| == |ts| && es[k].Applied? && r.user in Listed(es[k].revocations)
    && es[k].task in ss[k].sync.tasks && ss[k].sync.tasks[es[k].task].since <= r.at && r.seen < ts[k]
    && !HasRows(ss[k + 1].face.tables, r.user)
  }

  /** Every revocation stamped between an applied lookback and the stored position, if revocations appear
      within the minute, has been applied after it appeared: the user was then out of all three tables, and
      any row of theirs that is there now was written after that. */
  lemma RevokedUsersAreOut(host: Host, cfg: Sync.Config, ss: seq<System>, es: seq<Event>, ts: seq<int>, i: nat,
                           r: Sync.Row)
    returns (k: nat)
    requires IsRun(host, cfg, ss, es, ts) && i < |ss| && cfg.lagMs <= SINCE_OVERLAP_MS
    requires ss[i].sync.stored.Some? && r in ss[i].sync.published
    requires ss[i].sync.base <= r.at <= ss[i].sync.stored.value
    ensures k < i && DealtWith(ss, es, ts, r, k)
    ensures WrittenSince(r.user, ss[i].face.tables, ss[i].face.history, |ss[k + 1].face.history|)
  {
    ReachableInv(host, cfg, ss, es, ts, i);
    Sync.ListedOnce(cfg, ss[i].sync, r);
    var w :| w in ss[i].sync.windows && Sync.Contains(w, r.at) && r.seen < w.pull.now && r.user in w.users;
    k := EveryWindowWasApplied(host, cfg, ss, es, ts, i, w);
    ApplicationPurges(host, cfg, ss, es, ts, k, r.user);
    ReachableInv(host, cfg, ss, es, ts, k + 1);
    HistoryGrows(host, cfg, ss, es, ts, k + 1, i);
    var h, from := ss[i].face.history, |ss[k + 1].face.history|;
    assert h[..from] == ss[k + 1].face.history;
    RowsAreWritten(h, from, r.user);
  }
}
