/** Where a pull of revocations asks from, where it leaves the position, and whom its answer names. */
module RevocationSyncExact {
  import opened Common
  import opened FaceTables
  import opened RevocationSync
  import opened RevocationSyncProtocol

  type Event = RevocationSyncProtocol.Event

  /** In every run, a pull asks from the stored position if that is positive, and otherwise from one lookback before
      it starts. */
  lemma AsksFrom(cfg: Config, ss: seq<System>, es: seq<Event>, ts: seq<int>, i: nat)
    requires IsRun(cfg, ss, es, ts) && i < |es| && es[i].Start?
    ensures es[i].task in ss[i + 1].tasks && ss[i + 1].stored == ss[i].stored
    ensures var s, pull := ss[i], ss[i + 1].tasks[es[i].task];
            && pull.now == ts[i]
            && (if s.stored.Some? && 0 < s.stored.value then pull.since == s.stored.value && !pull.isLookback
                else pull.since == ts[i] - cfg.lookbackMs && pull.isLookback)
  {
    assert Moves(cfg, ss[i], es[i], ts[i], ss[i + 1]);
  }

  /** In every run, an answer leaves the position a minute before its pull started, and a failure leaves it where
      it was. */
  lemma LeavesThePosition(cfg: Config, ss: seq<System>, es: seq<Event>, ts: seq<int>, i: nat)
    requires IsRun(cfg, ss, es, ts) && i < |es| && es[i].Settled?
    ensures es[i].task in ss[i].tasks
    ensures var pull, answered := ss[i].tasks[es[i].task], es[i].users.Some?;
            && ss[i + 1].stored == (if answered then Some(pull.now - 60000) else ss[i].stored)
            && ss[i + 1].windows == ss[i].windows + (if answered then [Window(pull, es[i].users.value)] else [])
  {
    assert Moves(cfg, ss[i], es[i], ts[i], ss[i + 1]);
  }

  /** A user is listed exactly if some item of the answer names them, and counts exactly if they have a row. */
  lemma ListedIff(t: Tables, rs: seq<RawRevocation>, u: string)
    ensures u in Listed(rs) <==> u != "" && exists r :: r in rs && r.userId == Some(u)
    ensures u in WithRows(t, Listed(rs)) <==>
              u in Listed(rs) && (u in t.templates || u in t.photos || u in t.consents)
  {
    if r :| r in rs && r.userId == Some(u) && u != "" { assert IsListed(r); }
  }
}
