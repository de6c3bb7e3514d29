/** When exactly a request is let through, sends an attendance and issues its session. */
module KioskProximityExact {
  import opened Common
  import opened IdentitySessions
  import opened KioskProximity
  import opened KioskProximityProtocol

  /** There, unexpired and not issued. */
  predicate MayStill(s: System, id: string, now: int) {
    id in s.sessions && now < s.sessions[id].expiresAt && s.sessions[id].state != Issued
  }

  /** In every run, a request is let through exactly if its session may still be used, no other request of it is
      under way, and its action is known; it is then under way. */
  lemma LetThroughIff(ttlMs: nat, ss: seq<System>, es: seq<Event>, ts: seq<int>, i: nat)
    requires IsRun(ttlMs, ss, es, ts) && i < |es| && es[i].Enter?
    ensures var s, s', t, id := ss[i], ss[i + 1], es[i].task, es[i].id;
            var free := forall u :: u in s.tasks && !s.tasks[u].Ended? ==> s.tasks[u].id != id;
            && t in s'.tasks
            && s'.tasks[t] == (if !MayStill(s, id, ts[i]) || !free then Ended
                               else match es[i].action
                                 case BeginAction => Beginning(id)
                                 case FinishAction => Verifying(id)
                                 case OtherAction => Ended)
            && (id in s'.busy <==> !free || !s'.tasks[t].Ended?)
  {
    assert Moves(ttlMs, ss[i], es[i], ts[i], ss[i + 1]);
    ReachableInv(ttlMs, ss, es, ts, i);
    assert es[i].id in ss[i].busy <==> HasTask(ss[i], es[i].id);
    hide SendsOk;
    hide LatestOk;
    hide IssuedOk;
  }

  /** The answers to a request that is not let through, in the order of the checks. */
  lemma TurnedAwayWith(sessions: map<string, Session>, busy: set<string>, id: string, action: Action, now: int)
    ensures var a := Admit(sessions, busy, id, action, now);
            var usable := id in sessions && now < sessions[id].expiresAt && sessions[id].state != Issued;
            && (a == SessionClosed <==> !usable)
            && (a == SessionBusy <==> usable && id in busy)
            && (a == UnknownAction <==> usable && id !in busy && action == OtherAction)
  {
  }

  /** In every run, a verified request sends exactly if its challenge was bound to its own session and that may still
      be used; otherwise the session is free again. */
  lemma SendsIff(ttlMs: nat, ss: seq<System>, es: seq<Event>, ts: seq<int>, i: nat)
    requires IsRun(ttlMs, ss, es, ts) && i < |es| && es[i].VerifySettled?
    ensures es[i].task in ss[i].tasks && ss[i].tasks[es[i].task].Verifying?
    ensures var s, s', t, id := ss[i], ss[i + 1], es[i].task, ss[i].tasks[es[i].task].id;
            var sends := es[i].v == Verified(Some(id)) && MayStill(s, id, ts[i]);
            && s'.sends == (if sends then s.sends + [id] else s.sends)
            && s'.tasks == s.tasks[t := if sends then Delivering(id, |s.sends|) else Ended]
            && s'.busy == (if sends then s.busy else s.busy - {id})
  {
    assert Moves(ttlMs, ss[i], es[i], ts[i], ss[i + 1]);
  }

  /** In every run, a delivery issues its session, by passkey, exactly if it was recorded and the session has not
      expired in the meantime; no other delivery changes a session. */
  lemma IssuesIff(ttlMs: nat, ss: seq<System>, es: seq<Event>, ts: seq<int>, i: nat)
    requires IsRun(ttlMs, ss, es, ts) && i < |es| && es[i].DeliverySettled?
    ensures es[i].task in ss[i].tasks && ss[i].tasks[es[i].task].Delivering?
    ensures var s, s', id, now := ss[i], ss[i + 1], ss[i].tasks[es[i].task].id, ts[i];
            && s'.sessions ==
                 (if es[i].d != Recorded then s.sessions
                  else if id in s.sessions && now < s.sessions[id].expiresAt
                  then s.sessions[id := Session(now + ttlMs, Issued, Passkey)] else s.sessions - {id})
            && s'.busy == s.busy - {id} && s'.tasks == s.tasks[es[i].task := Ended]
            && s'.recorded == s.recorded + (if es[i].d == Recorded then {s.tasks[es[i].task].send} else {})
  {
    assert Moves(ttlMs, ss[i], es[i], ts[i], ss[i + 1]);
  }

  /** What other users of the store do to one session: only a live one is extended or moved, and an expired one is
      removed when it is asked for. */
  lemma ElsewhereIs(ttlMs: nat, ss: seq<System>, es: seq<Event>, ts: seq<int>, i: nat, id: string)
    requires IsRun(ttlMs, ss, es, ts) && i < |es|
    requires es[i].CreateElsewhere? || es[i].GetElsewhere? || es[i].TouchElsewhere? || es[i].MoveElsewhere?
    ensures var m, m', e, now := ss[i].sessions, ss[i + 1].sessions, es[i], ts[i];
            var live := id in m && now < m[id].expiresAt;
            Lookup(m', id) ==
              match e
              case CreateElsewhere(x) =>
                if id == x then Some(Session(now + ttlMs, Idle, NoMeans)) else if live then Some(m[id]) else None
              case GetElsewhere(x) => if id != x then Lookup(m, id) else if live then Some(m[id]) else None
              case TouchElsewhere(x) =>
                if id != x then Lookup(m, id)
                else if live then Some(m[id].(expiresAt := now + ttlMs)) else None
              case MoveElsewhere(x, state, means) =>
                if id != x then Lookup(m, id)
                else if live then Some(Session(now + ttlMs, state, if means == NoMeans then m[id].means else means))
                else None
              case _ => None
  {
    assert Moves(ttlMs, ss[i], es[i], ts[i], ss[i + 1]);
  }
}
