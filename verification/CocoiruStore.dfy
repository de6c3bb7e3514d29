/** The store itself: entry objects compared by identity, fields updated in place, one method per
    code segment between two suspensions. */
module CocoiruStore {
  import opened Common
  import opened CocoiruSegments

  class Entry {
    /** Position in the store's history of published objects. */
    ghost const id: nat
    var grant: Grant
    var expiresAt: int

    constructor (ghost id: nat, grant: Grant, expiresAt: int)
      ensures this.id == id && this.grant == grant && this.expiresAt == expiresAt
    {
      this.id := id;
      this.grant := grant;
      this.expiresAt := expiresAt;
    }
  }

  class CocoiruSessionStore {
    const projectKey: string
    const capacity: nat
    const fingerprint: string -> string
    var entries: map<string, Entry>
    var closed: bool
    var pending: int
    /** Every object ever published, in order. */
    ghost var objects: seq<Entry>

    ghost predicate Valid()
      reads this, objects
    {
      && (forall i :: 0 <= i < |objects| ==> objects[i].id == i)
      && (forall k :: k in entries ==> entries[k] in objects)
    }

    ghost function Cfg(): Config {
      Config(projectKey, capacity, fingerprint)
    }

    ghost function Mapping(): (m: map<string, nat>)
      reads this`entries
    {
      map k | k in entries :: entries[k].id
    }

    ghost function Cells(): (cells: seq<Cell>)
      reads this`objects, objects
    {
      CellsOf(objects)
    }

    static ghost function CellsOf(objects: seq<Entry>): (cells: seq<Cell>)
      reads objects
    {
      seq(|objects|, i requires 0 <= i < |objects| reads objects => Cell(objects[i].grant, objects[i].expiresAt))
    }

    ghost function Abs(): (st: Store)
      requires Valid()
      reads this, objects
      ensures st.Valid()
    {
      Store(Mapping(), Cells(), closed, pending)
    }

    constructor (projectKey: string, capacity: nat, fingerprint: string -> string)
      requires projectKey != "" && 1 <= capacity
      ensures Valid() && Cfg() == Config(projectKey, capacity, fingerprint) && Cfg().Valid()
      ensures Abs() == EMPTY_STORE
    {
      this.projectKey, this.capacity, this.fingerprint := projectKey, capacity, fingerprint;
      entries, closed, pending, objects := map[], false, 0, [];
    }

    method SweepExpired(now: int)
      requires Valid()
      modifies this`entries
      ensures Valid() && Abs() == Sweep(old(Abs()), now)
    {
      ghost var before := entries;
      DropExpired(now);
      SweptMapping(before, now);
    }

    method DropExpired(now: int)
      modifies this`entries
      ensures entries == map k | k in old(entries) && old(entries)[k].expiresAt > now :: old(entries)[k]
    {
      ghost var before := entries;
      var todo := entries.Keys;
      while todo != {}
        invariant todo <= before.Keys
        invariant entries == map k | k in before && (k in todo || before[k].expiresAt > now) :: before[k]
      {
        var k :| k in todo;
        if entries[k].expiresAt <= now { entries := Without(entries, k); }
        todo := todo - {k};
      }
    }

    lemma SweptMapping(before: map<string, Entry>, now: int)
      requires Valid() && forall k :: k in before ==> before[k] in objects
      requires entries == map k | k in before && before[k].expiresAt > now :: before[k]
      ensures Mapping() == Sweep(Store(map k | k in before :: before[k].id, Cells(), closed, pending), now).entries
    {
    }

    /** The synchronous part of `revoke`; `call` says which remote request it then awaits. */
    method BeginRevoke(token: string, now: int) returns (call: RevokeCall)
      requires Valid()
      modifies this`entries
      ensures Valid()
      ensures (Abs(), call) == RevokeEnter(Cfg(), old(Abs()), token, now)
    {
      if !Opaque(token) { return TokenRefused; }
      var key := fingerprint(token);
      call := NothingRemote;
      if key in entries && entries[key].expiresAt > now { call := RemoteRevoke(entries[key].grant); }
      Forget(key);
    }

    /** `entries.delete(key)`. */
    method Forget(key: string)
      requires Valid()
      modifies this`entries
      ensures Valid() && Abs() == Drop(old(Abs()), key)
    {
      entries := Without(entries, key);
      assert Mapping() == Without(old(Mapping()), key);
    }

    method BeginCreate(code: string, verifier: string, signal: nat, aborted: bool, previous: Option<string>, now: int)
      returns (task: CreateTask)
      requires Valid()
      modifies this`entries, this`pending
      ensures Valid()
      ensures (Abs(), task) == CreateEnter(Cfg(), old(Abs()), code, verifier, signal, aborted, previous, now)
    {
      hide Sweep;
      hide RevokeEnter;
      hide Opaque;
      hide IsVerifier;
      hide Mapping;
      hide Cells;
      hide Valid;
      var open := CheckOpen(aborted);
      if open.Some? { return Refused(open.value); }
      if !Opaque(code) || !IsVerifier(verifier) { return Refused(SessionError(401, "invalid_native_exchange")); }
      SweepExpired(now);
      SameSize();
      if |entries| + pending >= capacity || pending >= MAX_PENDING {
        return Refused(SessionError(503, "native_session_capacity"));
      }
      task := Admit(signal, previous, now);
    }

    /** A creation that has room: it is counted, and the previous session is revoked first. */
    method Admit(signal: nat, previous: Option<string>, now: int) returns (task: CreateTask)
      requires Valid()
      modifies this`entries, this`pending
      ensures Valid()
      ensures var counted := old(Abs()).(pending := old(pending) + 1);
              if previous.Some? && previous.value != "" then
                var r := RevokeEnter(Cfg(), counted, previous.value, now);
                Abs() == r.0 && task == AwaitPrevious(signal, r.1)
              else Abs() == counted && task == AwaitExchange(signal)
    {
      hide RevokeEnter;
      pending := pending + 1;
      if previous.Some? && previous.value != "" {
        var call := BeginRevoke(previous.value, now);
        return AwaitPrevious(signal, call);
      }
      task := AwaitExchange(signal);
    }

    lemma SameSize()
      requires Valid()
      ensures |Abs().entries| == |entries|
    {
      assert Abs().entries.Keys == entries.Keys;
    }

    method CheckOpen(aborted: bool) returns (r: Option<Failure>)
      requires Valid()
      ensures r == AssertOpen(Abs(), aborted)
    {
      if aborted { return Some(SessionError(408, "native_request_ended")); }
      if closed { return Some(SessionError(401, "native_session_ended")); }
      r := None;
    }

    /** Resumes `create` after the previous session was revoked. */
    method ResumeAfterPrevious(signal: nat, ok: bool, call: RevokeCall, aborted: bool) returns (task: CreateTask)
      requires Valid()
      modifies this`pending
      ensures Valid()
      ensures (Abs(), task) == StartExchange(old(Abs()), signal, ok, call, aborted)
    {
      if !ok {
        pending := pending - 1;
        return Refused(if call.TokenRefused? then SessionError(401, "native_session_required") else RemoteFailure);
      }
      var open := CheckOpen(aborted);
      if open.Some? {
        pending := pending - 1;
        return Refused(open.value);
      }
      task := AwaitExchange(signal);
    }

    method ResumeAfterExchange(signal: nat, result: Option<Exchanged>, token: string, aborted: bool)
      returns (task: CreateTask)
      requires Valid()
      modifies this`pending
      ensures Valid()
      ensures (Abs(), task) == ExchangeSettled(Cfg(), old(Abs()), signal, result, token, aborted)
    {
      task := Refused(RemoteFailure);
      if result.Some? {
        var open := CheckOpen(aborted);
        if open.Some? {
          task := Refused(open.value);
        } else if !Opaque(token) || fingerprint(token) in entries {
          task := Refused(EntropyCollision);
        } else {
          return AwaitBind(signal, result.value, token);
        }
      }
      pending := pending - 1;
    }

    /** Publishes the session, or hands the grant over to the compensating remote revoke. */
    method ResumeAfterBind(signal: nat, exchanged: Exchanged, token: string, result: Option<Grant>, aborted: bool,
                           now: int)
      returns (task: CreateTask)
      requires Valid()
      modifies this`entries, this`pending, this`objects
      ensures Valid() && old(objects) <= objects && fresh(objects[|old(objects)|..])
      ensures (Abs(), task) == BindSettled(Cfg(), old(Abs()), signal, exchanged, token, result, aborted, now)
    {
      if result.None? {
        pending := pending - 1;
        return Refused(RemoteFailure);
      }
      var grant, key := result.value, fingerprint(token);
      var open := CheckOpen(aborted);
      if open.Some? { return AwaitUndo(signal, grant, open.value); }
      if grant.projectKey != projectKey || grant.userId != exchanged.userId || grant.userRole != exchanged.userRole
         || grant.sessionBinding != key || grant.expiresAt.None? || grant.expiresAt.value <= now
         || grant.expiresAt.value > now + MAX_LIFETIME_MS || key in entries
      {
        return AwaitUndo(signal, grant, SessionError(401, "invalid_native_session_binding"));
      }
      Publish(key, grant);
      pending := pending - 1;
      task := Published(token);
    }

    /** `entries.set(key, ..)` with a new entry object. */
    method Publish(key: string, grant: Grant)
      requires Valid() && grant.expiresAt.Some?
      modifies this`entries, this`objects
      ensures Valid() && old(objects) <= objects && fresh(objects[|old(objects)|..])
      ensures var st := old(Abs());
              Abs() == st.(entries := st.entries[key := |st.cells|],
                           cells := st.cells + [Cell(grant, grant.expiresAt.value)])
    {
      var entry := new Entry(|objects|, grant, grant.expiresAt.value);
      entries := entries[key := entry];
      objects := objects + [entry];
      assert Mapping() == old(Mapping())[key := |old(objects)|];
      assert Cells() == old(Cells()) + [Cell(grant, grant.expiresAt.value)];
    }

    method ResumeAfterUndo(grant: Grant, cause: Failure, ok: bool) returns (task: CreateTask)
      requires Valid()
      modifies this`pending
      ensures Valid()
      ensures (Abs(), task) == UndoSettled(old(Abs()), grant, cause, ok)
    {
      pending := pending - 1;
      var failure := if ok then cause else SessionError(503, "native_exchange_revocation_unconfirmed");
      task := RefusedAfterUndo(grant, failure);
    }

    method CheckEntry(key: string, entry: Entry, aborted: bool, now: int) returns (r: Option<Failure>)
      requires Valid() && entry in objects
      ensures r == AssertEntry(Abs(), key, entry.id, aborted, now)
    {
      r := CheckOpen(aborted);
      if r.None? && (key !in entries || entries[key] != entry || entry.expiresAt <= now) {
        r := Some(SessionError(401, "native_session_ended"));
      }
    }

    /** Captures the entry object that the rest of `run` works with. */
    method BeginRun(token: string, signal: nat, aborted: bool, now: int)
      returns (entry: Entry?, failure: Option<Failure>)
      requires Valid()
      ensures entry != null ==> entry in objects
      ensures var r := RunEnter(Cfg(), Abs(), token, signal, aborted, now);
              && failure == r.1
              && (entry == null <==> r.0.None?)
              && (entry != null ==> r.0.value == AwaitCheck(fingerprint(token), entry.id, signal))
    {
      entry := null;
      if !Opaque(token) || fingerprint(token) !in entries {
        return null, Some(SessionError(401, "native_session_required"));
      }
      var found := entries[fingerprint(token)];
      failure := CheckEntry(fingerprint(token), found, aborted, now);
      if failure.None? { entry := found; }
    }

    /** Re-validates the captured entry after the remote check and refreshes it in place. */
    method ResumeAfterCheck(key: string, entry: Entry, signal: nat, result: CheckResult, aborted: bool, now: int)
      returns (r: Result<string, Failure>)
      requires Valid() && entry in objects
      modifies this`entries, entry
      ensures Valid()
      ensures var t := CheckSettled(Cfg(), old(Abs()), key, entry.id, signal, result, aborted, now);
              && Abs() == t.0
              && r == (if t.1.Permitted? then Ok(t.1.userId) else Err(t.1.cause))
    {
      match result {
        case CheckFailed => return Err(RemoteFailure);
        case Denied =>
          Forget(key);
          return Err(RemoteFailure);
        case Checked(checked) =>
          var failure := CheckEntry(key, entry, aborted, now);
          if failure.Some? { return Err(failure.value); }
          if checked.projectKey != projectKey
             || checked.userId != entry.grant.userId || checked.userRole != entry.grant.userRole
             || checked.sessionBinding != entry.grant.sessionBinding || checked.expiresAt.None?
             || checked.expiresAt.value > entry.expiresAt || checked.expiresAt.value <= now
          {
            Forget(key);
            return Err(SessionError(401, "native_session_changed"));
          }
          Refresh(entry, checked);
          r := Ok(checked.userId);
      }
    }

    /** The grant and expiry of an entry object are replaced in place. */
    method Refresh(entry: Entry, checked: Grant)
      requires Valid() && entry in objects && checked.expiresAt.Some?
      modifies entry
      ensures Valid()
      ensures Abs() == old(Abs()).(cells := old(Cells())[entry.id := Cell(checked, checked.expiresAt.value)])
    {
      entry.grant, entry.expiresAt := checked, checked.expiresAt.value;
      assert Cells() == old(Cells())[entry.id := Cell(checked, checked.expiresAt.value)];
    }

    method OnAuthorizeResource(key: string, entry: Entry, aborted: bool, allowed: bool, now: int) returns (r: Callback)
      requires Valid() && entry in objects
      ensures r == AuthorizeResource(Abs(), key, entry.id, aborted, allowed, now)
    {
      var failure := CheckEntry(key, entry, aborted, now);
      r := if failure.Some? then Threw(failure.value) else Said(allowed);
    }

    /** The test `current` that the execute callback is given: the same entry test, without throwing. */
    method IsCurrent(key: string, entry: Entry, aborted: bool, now: int) returns (r: bool)
      requires Valid() && entry in objects
      ensures r <==> AssertEntry(Abs(), key, entry.id, aborted, now).None?
    {
      r := !closed && !aborted && key in entries && entries[key] == entry && entry.expiresAt > now;
    }

    method OnExecute(key: string, entry: Entry, userId: string, aborted: bool, allowed: bool, now: int)
      returns (r: Callback)
      requires Valid() && entry in objects
      ensures r == Execute(Abs(), key, entry.id, userId, aborted, allowed, now)
    {
      var failure := CheckEntry(key, entry, aborted, now);
      if failure.Some? { return Threw(failure.value); }
      if !allowed { return Threw(SessionError(401, "native_resource_owner_ended")); }
      r := Executed(userId);
    }

    method Shutdown()
      requires Valid()
      modifies this`entries, this`closed
      ensures Valid() && Abs() == Close(old(Abs()))
    {
      closed, entries := true, map[];
    }
  }
}
