/** When exactly the Cocoiru session store admits, publishes, permits, executes and forgets. */
module CocoiruExact {
  import opened Common
  import opened CocoiruSegments
  import opened CocoiruProtocol
  import opened CocoiruTheorems
  import Base64Url

  /** Open store, request alive, this very object mapped under its key, and unexpired. */
  ghost predicate Holds(s: System, key: string, entry: nat, signal: nat, now: int) {
    && signal !in s.aborted && !s.store.closed
    && key in s.store.entries && s.store.entries[key] == entry
    && entry < |s.store.cells| && now < s.store.cells[entry].expiresAt
  }

  /** The entry test throws in exactly the other cases, an abort before anything else. */
  lemma CurrentIff(s: System, key: string, entry: nat, signal: nat, now: int)
    requires entry < |s.store.cells|
    ensures Current(s, key, entry, signal, now) <==> Holds(s, key, entry, signal, now)
    ensures !Holds(s, key, entry, signal, now) ==>
              AssertEntry(s.store, key, entry, signal in s.aborted, now) ==
                Some(EndOf(s, signal))
  {
  }

  /** Why a request goes no further: it was aborted, or the session or the store has ended. */
  function EndOf(s: System, signal: nat): Failure {
    if signal in s.aborted then SessionError(408, "native_request_ended") else SessionError(401, "native_session_ended")
  }

  // ---------- the callbacks ----------

  /** In every run, a call of `execute` runs the caller's callback exactly if the owner check allows it and
      the captured session holds. */
  lemma ExecutesIff(cfg: Config, ss: seq<System>, es: seq<Event>, ts: seq<int>, i: nat)
    requires IsRun(cfg, ss, es, ts) && i < |es| && es[i].ExecuteCallback?
    ensures es[i].task in ss[i].runs && ss[i].runs[es[i].task].Permitted?
    ensures var r := ss[i].runs[es[i].task];
            && (ss[i + 1].executions != ss[i].executions <==>
                  es[i].allowed && Holds(ss[i], r.key, r.entry, r.signal, ts[i]))
            && (ss[i + 1].executions != ss[i].executions ==>
                  ss[i + 1].executions == ss[i].executions + [Execution(es[i].task, r.entry, r.userId, ts[i])])
  {
    assert Moves(cfg, ss[i], es[i], ts[i], ss[i + 1]);
  }

  /** What the two callbacks answer: an ended session throws, otherwise the owner check decides. */
  lemma CallbackAnswers(s: System, key: string, entry: nat, signal: nat, userId: string, allowed: bool, now: int)
    requires entry < |s.store.cells|
    ensures var aborted, holds := signal in s.aborted, Holds(s, key, entry, signal, now);
            var said, done := AuthorizeResource(s.store, key, entry, aborted, allowed, now),
                              Execute(s.store, key, entry, userId, aborted, allowed, now);
            && (said == Said(true) <==> holds && allowed) && (said == Said(false) <==> holds && !allowed)
            && (done == Executed(userId) <==> holds && allowed)
            && (done == Threw(SessionError(401, "native_resource_owner_ended")) <==> holds && !allowed)
  {
  }

  // ---------- run ----------

  /** In every run, `run` captures a session exactly if its token is well formed and its session holds. */
  lemma CapturesIff(cfg: Config, ss: seq<System>, es: seq<Event>, ts: seq<int>, i: nat)
    requires IsRun(cfg, ss, es, ts) && i < |es| && es[i].RunStart?
    ensures var s, s', e := ss[i], ss[i + 1], es[i]; var key := cfg.fingerprint(e.token);
            && (e.task in s'.runs <==>
                  Opaque(e.token) && key in s.store.entries && Holds(s, key, s.store.entries[key], e.signal, ts[i]))
            && (e.task in s'.runs ==> s'.runs[e.task] == AwaitCheck(key, s.store.entries[key], e.signal))
  {
    assert Moves(cfg, ss[i], es[i], ts[i], ss[i + 1]);
  }

  /** Why `run` refuses a token: a malformed or unknown one is not a session at all. */
  lemma RunRefusals(cfg: Config, s: System, token: string, signal: nat, now: int)
    requires s.store.Valid()
    ensures var key := cfg.fingerprint(token);
            var failure := RunEnter(cfg, s.store, token, signal, signal in s.aborted, now).1;
            failure == if !Opaque(token) || key !in s.store.entries
                       then Some(SessionError(401, "native_session_required"))
                       else if Holds(s, key, s.store.entries[key], signal, now) then None
                       else Some(EndOf(s, signal))
  {
  }

  /** The remote check still describes the captured session: same project, user, role and binding, and an
      expiry in the future that does not grow. */
  ghost predicate SameSession(cfg: Config, c: Cell, checked: Grant, now: int) {
    && checked.projectKey == cfg.projectKey
    && checked.userId == c.grant.userId && checked.userRole == c.grant.userRole
    && checked.sessionBinding == c.grant.sessionBinding
    && checked.expiresAt.Some? && now < checked.expiresAt.value && checked.expiresAt.value <= c.expiresAt
  }

  /** In every run, a check permits a run exactly if its session still holds and is the same one; the
      session then has the expiry of the check. */
  lemma PermitsIff(cfg: Config, ss: seq<System>, es: seq<Event>, ts: seq<int>, i: nat)
    requires IsRun(cfg, ss, es, ts) && i < |es| && es[i].OnCheck?
    ensures es[i].task in ss[i].runs && es[i].task in ss[i + 1].runs
    ensures var r, r', check := ss[i].runs[es[i].task], ss[i + 1].runs[es[i].task], es[i].check;
            && r.entry < |ss[i].store.cells| == |ss[i + 1].store.cells|
            && (r'.Permitted? <==>
                  check.Checked? && Holds(ss[i], r.key, r.entry, r.signal, ts[i])
                  && SameSession(cfg, ss[i].store.cells[r.entry], check.grant, ts[i]))
            && ss[i + 1].store.cells ==
                 (if r'.Permitted? then ss[i].store.cells[r.entry := Cell(check.grant, check.grant.expiresAt.value)]
                  else ss[i].store.cells)
            && (r'.Permitted? ==> !r'.settled && r'.userId == check.grant.userId)
            && (!r'.Permitted? ==>
                  r' == RunRefused(r.key, r.entry, r.signal,
                                   if !check.Checked? then RemoteFailure
                                   else if !Holds(ss[i], r.key, r.entry, r.signal, ts[i]) then EndOf(ss[i], r.signal)
                                   else SessionError(401, "native_session_changed")))
  {
    assert Moves(cfg, ss[i], es[i], ts[i], ss[i + 1]);
  }

  // ---------- create ----------

  /** The request is in order and the store open. */
  ghost predicate InOrder(s: System, code: string, verifier: string, signal: nat) {
    signal !in s.aborted && !s.store.closed && Opaque(code) && IsVerifier(verifier)
  }

  function Unexpired(s: System, now: int): set<string>
    requires s.store.Valid()
  {
    set k | k in s.store.entries && now < s.store.cells[s.store.entries[k]].expiresAt
  }

  /** In every run, a creation is admitted exactly if its request is in order and there is room beside the
      unexpired sessions and the creations in flight, of which there may be 32. */
  lemma AdmittedIff(cfg: Config, ss: seq<System>, es: seq<Event>, ts: seq<int>, i: nat)
    requires IsRun(cfg, ss, es, ts) && i < |es| && es[i].CreateStart?
    ensures ss[i].store.Valid() && es[i].task in ss[i + 1].creates
    ensures var s, e, task := ss[i], es[i], ss[i + 1].creates[es[i].task];
            var ordered := InOrder(s, e.code, e.verifier, e.signal);
            var room := |Unexpired(s, ts[i])| + s.store.pending < cfg.capacity && s.store.pending < 32;
            && (task.Pending() <==> ordered && room)
            && (ordered && !room ==> task == Refused(SessionError(503, "native_session_capacity")))
            && (!ordered ==> task == Refused(
                  if e.signal in s.aborted || s.store.closed then EndOf(s, e.signal)
                  else SessionError(401, "invalid_native_exchange")))
            && (task.AwaitPrevious? <==> ordered && room && e.previous.Some? && e.previous.value != "")
  {
    assert Moves(cfg, ss[i], es[i], ts[i], ss[i + 1]);
    hide RevokeEnter;
    assert Sweep(ss[i].store, ts[i]).entries.Keys == Unexpired(ss[i], ts[i]);
  }

  /** In every run, an answered exchange goes on to bind exactly if it succeeded for a live request in an
      open store with a fresh, well-formed token. */
  lemma GoesOnToBindIff(cfg: Config, ss: seq<System>, es: seq<Event>, ts: seq<int>, i: nat)
    requires IsRun(cfg, ss, es, ts) && i < |es| && (es[i].OnPreviousRevoked? || es[i].OnExchange?)
    ensures es[i].task in ss[i].creates && es[i].task in ss[i + 1].creates
    ensures var s, e, c, c' := ss[i], es[i], ss[i].creates[es[i].task], ss[i + 1].creates[es[i].task];
            var live := c.signal !in s.aborted && !s.store.closed;
            && (e.OnPreviousRevoked? ==> (c' == AwaitExchange(c.signal) <==> e.ok && live))
            && (e.OnExchange? ==>
                  (c'.AwaitBind? <==>
                     e.exchanged.Some? && live && Opaque(e.token) && cfg.fingerprint(e.token) !in s.store.entries))
            && (c'.AwaitBind? ==> c' == AwaitBind(c.signal, e.exchanged.value, e.token))
            && (e.OnPreviousRevoked? && !c'.Pending() ==>
                  c' == Refused(if e.ok then EndOf(s, c.signal)
                                else if c.call == TokenRefused then SessionError(401, "native_session_required")
                                else RemoteFailure))
            && (e.OnExchange? && !c'.Pending() ==>
                  c' == Refused(if e.exchanged == None then RemoteFailure
                                else if !live then EndOf(s, c.signal) else EntropyCollision))
  {
    assert Moves(cfg, ss[i], es[i], ts[i], ss[i + 1]);
  }

  /** The grant is for this project, for the exchanged user in the exchanged role, bound to this token, and
      ends within 900 s from now. */
  ghost predicate GrantFits(cfg: Config, exchanged: Exchanged, token: string, grant: Grant, now: int) {
    && grant.projectKey == cfg.projectKey
    && grant.userId == exchanged.userId && grant.userRole == exchanged.userRole
    && grant.sessionBinding == cfg.fingerprint(token)
    && grant.expiresAt.Some? && now < grant.expiresAt.value && grant.expiresAt.value <= now + 900000
  }

  /** In every run, a bound grant is published exactly if it fits, its key is free, the request is alive and
      the store open; any other grant goes to the compensating revoke. */
  lemma PublishesIff(cfg: Config, ss: seq<System>, es: seq<Event>, ts: seq<int>, i: nat)
    requires IsRun(cfg, ss, es, ts) && i < |es| && es[i].OnBind?
    ensures es[i].task in ss[i].creates && ss[i].creates[es[i].task].AwaitBind? && es[i].task in ss[i + 1].creates
    ensures var s, e, c, c' := ss[i], es[i], ss[i].creates[es[i].task], ss[i + 1].creates[es[i].task];
            && (c'.Published? <==>
                  e.grant.Some? && c.signal !in s.aborted && !s.store.closed
                  && GrantFits(cfg, c.exchanged, c.token, e.grant.value, ts[i])
                  && cfg.fingerprint(c.token) !in s.store.entries)
            && (c'.Published? ==>
                  c'.token == c.token && |ss[i + 1].store.cells| == |s.store.cells| + 1
                  && ss[i + 1].store.cells[|s.store.cells|] == Cell(e.grant.value, e.grant.value.expiresAt.value)
                  && cfg.fingerprint(c.token) in ss[i + 1].store.entries)
            && (e.grant.Some? && !c'.Published? ==>
                  c' == AwaitUndo(c.signal, e.grant.value,
                                  if c.signal in s.aborted || s.store.closed then EndOf(s, c.signal)
                                  else SessionError(401, "invalid_native_session_binding")))
            && (e.grant.None? ==> c' == Refused(RemoteFailure))
  {
    assert Moves(cfg, ss[i], es[i], ts[i], ss[i + 1]);
  }

  /** A failed compensation is reported as such, otherwise the first failure is. */
  lemma UndoReports(cfg: Config, ss: seq<System>, es: seq<Event>, ts: seq<int>, i: nat)
    requires IsRun(cfg, ss, es, ts) && i < |es| && es[i].OnUndo?
    ensures es[i].task in ss[i].creates && ss[i].creates[es[i].task].AwaitUndo? && es[i].task in ss[i + 1].creates
    ensures var c := ss[i].creates[es[i].task];
            ss[i + 1].creates[es[i].task] == RefusedAfterUndo(
              c.grant, if es[i].ok then c.cause else SessionError(503, "native_exchange_revocation_unconfirmed"))
  {
    assert Moves(cfg, ss[i], es[i], ts[i], ss[i + 1]);
  }

  // ---------- what leaves the store ----------

  /** The events that remove the session under `key`. */
  ghost predicate Removes(cfg: Config, s: System, e: Event, now: int, key: string)
    requires WellFormed(s) && key in s.store.entries
  {
    var c := s.store.cells[s.store.entries[key]];
    match e
    case Revoke(token) => Opaque(token) && cfg.fingerprint(token) == key
    case CreateStart(_, code, verifier, signal, previous) =>
      InOrder(s, code, verifier, signal)
      && (c.expiresAt <= now
          || (|Unexpired(s, now)| + s.store.pending < cfg.capacity && s.store.pending < 32
              && previous.Some? && Opaque(previous.value) && cfg.fingerprint(previous.value) == key))
    case CloseStore => true
    case OnCheck(t, check) =>
      t in s.runs && s.runs[t].key == key
      && (check.Denied?
          || (check.Checked? && Holds(s, key, s.runs[t].entry, s.runs[t].signal, now)
              && !SameSession(cfg, c, check.grant, now)))
    case OnRunSettled(t, denied) => t in s.runs && s.runs[t].key == key && denied
    case _ => false
  }

  /** An admission drops what is expired, and then the session it replaces. */
  lemma CreationDrops(cfg: Config, s: System, code: string, verifier: string, signal: nat, previous: Option<string>,
                      now: int, key: string)
    requires s.store.Valid() && key in s.store.entries
    ensures var after := CreateEnter(cfg, s.store, code, verifier, signal, signal in s.aborted, previous, now).0;
            var room := |Unexpired(s, now)| + s.store.pending < cfg.capacity && s.store.pending < 32;
            key !in after.entries <==>
              InOrder(s, code, verifier, signal)
              && (key !in Unexpired(s, now)
                  || (room && previous.Some? && Opaque(previous.value) && cfg.fingerprint(previous.value) == key))
  {
    var swept := Sweep(s.store, now);
    assert swept.entries.Keys == Unexpired(s, now);
    assert |swept.entries| == |Unexpired(s, now)|;
    hide Sweep;
    hide IsVerifier;
    if previous.Some? && previous.value == "" { assert !Opaque(previous.value); }
    hide Opaque;
  }

  lemma CreationRemoves(cfg: Config, s: System, e: Event, now: int, key: string)
    requires WellFormed(s) && Enabled(s, e, now) && e.CreateStart? && key in s.store.entries
    ensures key !in Next(cfg, s, e, now).store.entries <==> Removes(cfg, s, e, now, key)
  {
    CreationDrops(cfg, s, e.code, e.verifier, e.signal, e.previous, now, key);
    hide CreateEnter;
    hide InOrder;
    hide Opaque;
  }

  lemma CheckDrops(cfg: Config, s: System, r: RunTask, check: CheckResult, now: int, key: string)
    requires s.store.Valid() && key in s.store.entries && r.entry < |s.store.cells|
    ensures var after := CheckSettled(cfg, s.store, r.key, r.entry, r.signal, check, r.signal in s.aborted, now).0;
            key !in after.entries <==>
              r.key == key
              && (check.Denied?
                  || (check.Checked? && Holds(s, key, r.entry, r.signal, now)
                      && !SameSession(cfg, s.store.cells[s.store.entries[key]], check.grant, now)))
  {
  }

  lemma RunRemoves(cfg: Config, s: System, e: Event, now: int, key: string)
    requires WellFormed(s) && Enabled(s, e, now) && (e.OnCheck? || e.OnRunSettled?) && key in s.store.entries
    ensures key !in Next(cfg, s, e, now).store.entries <==> Removes(cfg, s, e, now, key)
  {
    if e.OnCheck? { CheckDrops(cfg, s, s.runs[e.task], e.check, now, key); }
    hide CheckSettled;
    hide Holds;
    hide SameSession;
  }

  lemma NothingElseRemoves(cfg: Config, s: System, e: Event, now: int, key: string)
    requires WellFormed(s) && Enabled(s, e, now) && key in s.store.entries
    requires !e.CreateStart? && !e.OnCheck? && !e.OnRunSettled?
    ensures key !in Next(cfg, s, e, now).store.entries <==> Removes(cfg, s, e, now, key)
  {
    hide AssertEntry;
    hide AssertOpen;
    hide Opaque;
    hide BindingOk;
    hide IsVerifier;
    hide CreateEnter;
    hide CheckSettled;
  }

  /** In every run, a session leaves the store exactly by its revoke, by a creation that finds it expired or
      replaces it, by a close, by a denial, or by a check of it that finds it changed. */
  lemma LeavesIff(cfg: Config, ss: seq<System>, es: seq<Event>, ts: seq<int>, i: nat, key: string)
    requires IsRun(cfg, ss, es, ts) && i < |es| && key in ss[i].store.entries
    ensures WellFormed(ss[i])
    ensures key !in ss[i + 1].store.entries <==> Removes(cfg, ss[i], es[i], ts[i], key)
  {
    assert Moves(cfg, ss[i], es[i], ts[i], ss[i + 1]);
    hide Removes;
    hide Next;
    if es[i].CreateStart? {
      CreationRemoves(cfg, ss[i], es[i], ts[i], key);
    } else if es[i].OnCheck? || es[i].OnRunSettled? {
      RunRemoves(cfg, ss[i], es[i], ts[i], key);
    } else {
      NothingElseRemoves(cfg, ss[i], es[i], ts[i], key);
    }
  }

  /** The remote revoke is for the unexpired session of the token, and only for that. */
  lemma RevokesRemotelyIff(cfg: Config, s: System, token: string, now: int)
    requires s.store.Valid()
    ensures var call, key := RevokeEnter(cfg, s.store, token, now).1, cfg.fingerprint(token);
            && (call.TokenRefused? <==> !Opaque(token))
            && (call.RemoteRevoke? <==> Opaque(token) && key in Unexpired(s, now))
            && (call.RemoteRevoke? ==> call.grant == s.store.cells[s.store.entries[key]].grant)
  {
  }

  // ---------- tokens ----------

  /** Every 32 bytes, encoded, are a well-formed token. */
  lemma TokensAreOpaque(b: seq<Base64Url.byte>)
    requires |b| == 32
    ensures Opaque(Base64Url.B64UrlEncode(b))
  {
    Base64Url.EncodedLength(b);
    Base64Url.DecodeUndoesEncode(b);
  }

  /** A token has 43 characters of the URL alphabet; a verifier has 43 to 128 of those, the dot and the tilde. */
  lemma WellFormedTexts(text: string)
    ensures Opaque(text) <==> |text| == 43 && forall c :: c in text ==>
              'A' <= c <= 'Z' || 'a' <= c <= 'z' || '0' <= c <= '9' || c == '-' || c == '_'
    ensures IsVerifier(text) <==> 43 <= |text| && |text| <= 128 && forall c :: c in text ==>
              'A' <= c <= 'Z' || 'a' <= c <= 'z' || '0' <= c <= '9' || c == '-' || c == '_' || c == '.' || c == '~'
  {
    assert forall i :: 0 <= i < |text| ==> text[i] in text;
  }
}
