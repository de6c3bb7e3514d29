/** What holds of every run of the onsite MFA sessions. */
module OnsiteMfaTheorems {
  import opened Common
  import opened OnsiteMfa
  import opened OnsiteMfaProtocol

  ghost predicate Moves(cfg: Config, s: System, e: Event, now: int, s': System) {
    Enabled(s, e, now) && s' == Next(cfg, s, e, now)
  }

  ghost predicate IsRun(cfg: Config, ss: seq<System>, es: seq<Event>, ts: seq<int>) {
    && |ss| == |es| + 1 == |ts| + 1
    && Init(ss[0])
    && forall i :: 0 <= i < |es| ==> Moves(cfg, ss[i], es[i], ts[i], ss[i + 1])
  }

  lemma {:induction false} ReachableInv(cfg: Config, ss: seq<System>, es: seq<Event>, ts: seq<int>, i: nat)
    requires IsRun(cfg, ss, es, ts) && i < |ss|
    ensures Inv(cfg, ss[i])
  {
    hide Next;
    if 0 < i {
      ReachableInv(cfg, ss, es, ts, i - 1);
      assert Moves(cfg, ss[i - 1], es[i - 1], ts[i - 1], ss[i]);
      StepKeepsInv(cfg, ss[i - 1], es[i - 1], ts[i - 1]);
    }
  }

  /** At most one session holds the kiosk, and no nonce is stored twice. */
  lemma KioskIsExclusive(cfg: Config, ss: seq<System>, es: seq<Event>, ts: seq<int>, i: nat, a: string, b: string)
    requires IsRun(cfg, ss, es, ts) && i < |ss| && a in ss[i].sessions && b in ss[i].sessions
    ensures IsActive(ss[i].sessions[a], ss[i].clock) && IsActive(ss[i].sessions[b], ss[i].clock) ==> a == b
    ensures ss[i].sessions[a].nonce == ss[i].sessions[b].nonce ==> a == b
  {
    ReachableInv(cfg, ss, es, ts, i);
  }

  /** Two successful opens of one nonce are at least lifetime plus retention apart. */
  lemma ReopenedOnlyAfterRetention(cfg: Config, ss: seq<System>, es: seq<Event>, ts: seq<int>, i: nat, a: nat, b: nat)
    requires IsRun(cfg, ss, es, ts) && i < |ss| && a < b < |ss[i].opens|
    requires ss[i].opens[a].nonce == ss[i].opens[b].nonce
    ensures ss[i].opens[a].at + cfg.ttlMs + cfg.retentionMs <= ss[i].opens[b].at
  {
    ReachableInv(cfg, ss, es, ts, i);
    assert Apart(cfg, ss[i].opens[a], ss[i].opens[b]);
  }

  /** Over any run a session is submitted at most once, and two submissions of one nonce are more
      than the retention apart. */
  lemma SubmittedOnce(cfg: Config, ss: seq<System>, es: seq<Event>, ts: seq<int>, i: nat, a: nat, b: nat)
    requires IsRun(cfg, ss, es, ts) && i < |ss| && a < b < |ss[i].submissions|
    ensures ss[i].submissions[a].opening.id != ss[i].submissions[b].opening.id
    ensures ss[i].submissions[a].opening.nonce == ss[i].submissions[b].opening.nonce ==>
              ss[i].submissions[a].at + cfg.retentionMs < ss[i].submissions[b].at
  {
    ReachableInv(cfg, ss, es, ts, i);
    var x, y := ss[i].submissions[a], ss[i].submissions[b];
    assert x in ss[i].submissions && y in ss[i].submissions;
    var m :| 0 <= m < |ss[i].opens| && ss[i].opens[m] == x.opening;
    var n :| 0 <= n < |ss[i].opens| && ss[i].opens[n] == y.opening;
    if m < n { assert Apart(cfg, ss[i].opens[m], ss[i].opens[n]); }
    if n < m { assert Apart(cfg, ss[i].opens[n], ss[i].opens[m]); }
  }

  /** A submission in flight finds its session present and settles it; the view it then returns is
      absent exactly when the answer took until the lifetime plus the retention had passed. */
  lemma SettleFindsItsSession(cfg: Config, ss: seq<System>, es: seq<Event>, ts: seq<int>, i: nat)
    requires IsRun(cfg, ss, es, ts) && i < |es| && es[i].SubmitSettled?
    ensures var t, before := es[i].task, ss[i].sessions;
            && t in ss[i].tasks && ss[i].tasks[t].AwaitSubmit?
            && var id := ss[i].tasks[t].id;
               && id in before && before[id].state.Submitting?
               && t in ss[i + 1].tasks && ss[i + 1].tasks[t].Completed?
               && (ss[i + 1].tasks[t].result.None? <==> before[id].expiresAt + cfg.retentionMs <= ts[i])
               && (ss[i + 1].tasks[t].result.Some? ==>
                     ss[i + 1].tasks[t].result.value ==
                       match es[i].outcome
                       case Accepted => View(ViewSubmitted, None)
                       case Refused(error) => View(ViewRejected, Shown(Some(error))))
  {
    ReachableInv(cfg, ss, es, ts, i);
    assert Moves(cfg, ss[i], es[i], ts[i], ss[i + 1]);
  }

  /** A session that is opened and claimed at `t0` and answered at `t1`. */
  function SlowRun(cfg: Config, id: string, nonce: string, t0: int, t1: int): seq<System> {
    var opening := Opening(id, nonce, t0);
    var waiting := Session(nonce, t0 + cfg.ttlMs, Waiting, None);
    var submission := Submission(opening, t0);
    [System(map[], map[], t0, [], []),
     System(map[id := waiting], map[], t0, [opening], []),
     System(map[id := waiting.(state := Submitting)], map[0 := AwaitSubmit(id)], t0, [opening], [submission]),
     System(map[], map[0 := Completed(id, None)], t1, [opening], [submission])]
  }

  /** Such an answer, once lifetime and retention have passed, leaves no view, whatever it said. */
  lemma SlowAnswerHasNoView(cfg: Config, id: string, nonce: string, t0: int, t1: int, outcome: Outcome)
    requires 0 < cfg.ttlMs && t0 + cfg.ttlMs + cfg.retentionMs <= t1
    ensures IsRun(cfg, SlowRun(cfg, id, nonce, t0, t1),
                  [Open(id, nonce), Complete(0, id), SubmitSettled(0, outcome)], [t0, t0, t1])
    ensures SlowRun(cfg, id, nonce, t0, t1)[3].tasks[0] == Completed(id, None)
  {
    var ss := SlowRun(cfg, id, nonce, t0, t1);
    assert Next(cfg, ss[0], Open(id, nonce), t0).sessions == ss[1].sessions;
    assert Next(cfg, ss[1], Complete(0, id), t0).sessions == ss[2].sessions;
    assert Next(cfg, ss[2], SubmitSettled(0, outcome), t1).sessions == ss[3].sessions;
  }

  // ---------- what a client can observe ----------

  function Seen(cfg: Config, s: System, id: string): Option<View> {
    Observe(s.sessions, cfg.retentionMs, id, s.clock)
  }

  /** `waiting` may be followed by anything, a terminal view only by itself or by absence, absence by absence. */
  ghost predicate Follows(v: Option<View>, v': Option<View>) {
    v' == v || v == Some(View(ViewWaiting, None)) || (v.Some? && v'.None?)
  }

  lemma SeenAs(cfg: Config, s: System, id: string)
    ensures Seen(cfg, s, id) ==
              if id in s.sessions && !IsSwept(s.sessions[id], cfg.retentionMs, s.clock)
              then Some(ViewOf(s.sessions[id], s.clock)) else None
  {
  }

  lemma ViewStep(cfg: Config, s: System, e: Event, now: int, id: string)
    requires Inv(cfg, s) && Enabled(s, e, now) && exists o :: o in s.opens && o.id == id
    ensures Follows(Seen(cfg, s, id), Seen(cfg, Next(cfg, s, e, now), id))
  {
    hide Next;
    hide Seen;
    var s' := Next(cfg, s, e, now);
    ClockMoves(cfg, s, e, now);
    SeenAs(cfg, s, id);
    SeenAs(cfg, s', id);
    OpensTouched(cfg, s, e, now);
    if id in s.sessions {
      SessionsAge(cfg, s, e, now);
      TerminalIsKept(cfg, s, e, now, id);
    } else {
      assert id !in s'.sessions;
    }
  }

  ghost predicate Terminal(x: Session, now: int) {
    x.state.Submitted? || x.state.Rejected? || (x.state.Waiting? && x.expiresAt <= now)
  }

  /** A terminal session is not touched again until it is swept. */
  lemma TerminalIsKept(cfg: Config, s: System, e: Event, now: int, id: string)
    requires Enabled(s, e, now) && TasksOk(s)
    ensures id in s.sessions && Terminal(s.sessions[id], now) && id in Next(cfg, s, e, now).sessions ==>
              Next(cfg, s, e, now).sessions[id] == s.sessions[id]
  {
  }

  /** From its opening on, a session is seen as waiting, then as one fixed terminal view, then never again. */
  lemma {:induction false} ViewsOnlyAdvance(cfg: Config, ss: seq<System>, es: seq<Event>, ts: seq<int>, id: string,
                                            i: nat, j: nat)
    requires IsRun(cfg, ss, es, ts) && i <= j < |ss|
    requires exists o :: o in ss[i].opens && o.id == id
    ensures Follows(Seen(cfg, ss[i], id), Seen(cfg, ss[j], id))
    decreases j - i
  {
    hide Next;
    if i < j {
      ReachableInv(cfg, ss, es, ts, i);
      assert Moves(cfg, ss[i], es[i], ts[i], ss[i + 1]);
      ViewStep(cfg, ss[i], es[i], ts[i], id);
      OpensTouched(cfg, ss[i], es[i], ts[i]);
      var o :| o in ss[i].opens && o.id == id;
      assert o in ss[i + 1].opens;
      ViewsOnlyAdvance(cfg, ss, es, ts, id, i + 1, j);
    }
  }
}
