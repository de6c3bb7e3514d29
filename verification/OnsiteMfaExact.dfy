/** When exactly the kiosk opens, claims, shows and forgets a session. */
module OnsiteMfaExact {
  import opened Common
  import opened OnsiteMfa
  import opened OnsiteMfaProtocol
  import opened OnsiteMfaTheorems

  /** Being submitted, or not past its expiry by the retention. */
  predicate Kept(x: Session, retentionMs: nat, now: int) {
    x.state == Submitting || now < x.expiresAt + retentionMs
  }

  /** Being submitted, or waiting and not expired. */
  predicate Holding(x: Session, now: int) {
    x.state == Submitting || (x.state == Waiting && now < x.expiresAt)
  }

  /** In every run, an open succeeds exactly if no stored session holds the kiosk and no session of its nonce
      is kept: a kept session of another nonce does not block it. */
  lemma OpensIff(cfg: Config, ss: seq<System>, es: seq<Event>, ts: seq<int>, i: nat)
    requires IsRun(cfg, ss, es, ts) && i < |es| && es[i].Open?
    ensures var s, s', now, id, nonce := ss[i], ss[i + 1], ts[i], es[i].id, es[i].nonce;
            var free := forall k :: k in s.sessions ==>
                          && s.sessions[k].state != Submitting
                          && (s.sessions[k].state == Waiting ==> s.sessions[k].expiresAt <= now)
                          && (s.sessions[k].nonce == nonce ==> s.sessions[k].expiresAt + cfg.retentionMs <= now);
            && s'.opens == (if free then s.opens + [Opening(id, nonce, now)] else s.opens)
            && (free <==> id in s'.sessions)
            && (free ==> s'.sessions[id] == Session(nonce, now + cfg.ttlMs, Waiting, None))
  {
    var s, now, nonce := ss[i], ts[i], es[i].nonce;
    assert Moves(cfg, s, es[i], now, ss[i + 1]);
    var swept := Sweep(s.sessions, cfg.retentionMs, now);
    forall k | k in s.sessions && Kept(s.sessions[k], cfg.retentionMs, now) ensures k in swept { }
    forall k | k in s.sessions && Holding(s.sessions[k], now) ensures k in swept { }
  }

  /** A refused open names the nonce exactly if a session of it is kept, and a busy kiosk exactly if none is
      and a session holds the kiosk. */
  lemma OpenRefusals(m: map<string, Session>, ttlMs: nat, retentionMs: nat, id: string, nonce: string, now: int)
    ensures var answer := OpenResult(m, ttlMs, retentionMs, id, nonce, now).1;
            var reused := exists k :: k in m && m[k].nonce == nonce && Kept(m[k], retentionMs, now);
            var busy := exists k :: k in m && Holding(m[k], now);
            && (answer == Err(NonceReused) <==> reused)
            && (answer == Err(KioskBusy) <==> !reused && busy)
            && (answer == Ok(now + ttlMs) <==> !reused && !busy)
  {
    var swept := Sweep(m, retentionMs, now);
    forall k | k in m ensures k in swept <==> Kept(m[k], retentionMs, now) { }
    forall k | k in m && Holding(m[k], now) ensures k in swept && IsActive(swept[k], now) { }
  }

  /** In every run, a completion submits its session exactly if that waits and has not expired, and marks it
      as being submitted; any other completion ends at once without a view. */
  lemma SubmitsIff(cfg: Config, ss: seq<System>, es: seq<Event>, ts: seq<int>, i: nat)
    requires IsRun(cfg, ss, es, ts) && i < |es| && es[i].Complete?
    ensures var s, s', t, id := ss[i], ss[i + 1], es[i].task, es[i].id;
            var open := id in s.sessions && s.sessions[id].state == Waiting && ts[i] < s.sessions[id].expiresAt;
            && s'.submissions ==
                 (if !open then s.submissions
                  else
                    var x := s.sessions[id];
                    s.submissions + [Submission(Opening(id, x.nonce, x.expiresAt - cfg.ttlMs), ts[i])])
            && s'.tasks == s.tasks[t := if open then AwaitSubmit(id) else Completed(id, None)]
            && s'.sessions == (if open then s.sessions[id := s.sessions[id].(state := Submitting)] else s.sessions)
  {
    assert Moves(cfg, ss[i], es[i], ts[i], ss[i + 1]);
  }

  /** What a client sees of a session: a submission in progress looks like waiting, even past its expiry. */
  lemma SeenTable(cfg: Config, s: System, id: string)
    ensures var seen := Seen(cfg, s, id);
            if id !in s.sessions then seen == None
            else
              var x := s.sessions[id];
              var past := x.expiresAt + cfg.retentionMs <= s.clock;
              match x.state
              case Submitting => seen == Some(View(ViewWaiting, None))
              case Waiting =>
                seen == if past then None
                        else Some(View(if s.clock < x.expiresAt then ViewWaiting else ViewExpired, None))
              case Submitted =>
                seen == if past then None else Some(View(ViewSubmitted, if x.error == Some("") then None else x.error))
              case Rejected =>
                seen == if past then None else Some(View(ViewRejected, if x.error == Some("") then None else x.error))
  {
  }

  /** In every run, a session leaves the store exactly at the first open, look or answer once its retention is
      over; one that is being submitted leaves with its own answer at the earliest. */
  lemma ForgottenIff(cfg: Config, ss: seq<System>, es: seq<Event>, ts: seq<int>, i: nat, id: string)
    requires IsRun(cfg, ss, es, ts) && i < |es| && id in ss[i].sessions
    ensures var x, e := ss[i].sessions[id], es[i];
            var answered := e.SubmitSettled? && e.task in ss[i].tasks && ss[i].tasks[e.task].id == id;
            id !in ss[i + 1].sessions <==>
              !e.Complete? && x.expiresAt + cfg.retentionMs <= ts[i] && (x.state == Submitting ==> answered)
  {
    assert Moves(cfg, ss[i], es[i], ts[i], ss[i + 1]);
  }

  /** An answer is recorded on the session that was being submitted. */
  lemma AnswerIsRecorded(cfg: Config, ss: seq<System>, es: seq<Event>, ts: seq<int>, i: nat)
    requires IsRun(cfg, ss, es, ts) && i < |es| && es[i].SubmitSettled?
    ensures es[i].task in ss[i].tasks && ss[i].tasks[es[i].task].id in ss[i].sessions
    ensures var id := ss[i].tasks[es[i].task].id;
            id in ss[i + 1].sessions ==>
              ss[i + 1].sessions[id] ==
                match es[i].outcome
                case Accepted => ss[i].sessions[id].(state := Submitted, error := None)
                case Refused(error) => ss[i].sessions[id].(state := Rejected, error := Some(error))
  {
    ReachableInv(cfg, ss, es, ts, i);
    assert Moves(cfg, ss[i], es[i], ts[i], ss[i + 1]);
  }
}
