/** The shared state of the Cocoiru session store and the code segments between two suspensions
    of its `create`, `run` and `revoke` tasks, as functions on values.  A map entry refers to its
    cell by a number that is never used twice: it stands for the identity of the entry object. */
module CocoiruSegments {
  import opened Common

  const MAX_PENDING := 32
  const MAX_LIFETIME_MS := 900_000

  datatype Config = Config(projectKey: string, capacity: nat, fingerprint: string -> string) {
    ghost predicate Valid() {
      projectKey != "" && 1 <= capacity
    }
  }

  /** What the remote authority says about a session; an unparsable date is `None`. */
  datatype Grant = Grant(sessionBinding: string, userId: string, userRole: string, projectKey: string,
                         expiresAt: Option<int>)

  datatype Exchanged = Exchanged(userId: string, userRole: string)

  datatype Cell = Cell(grant: Grant, expiresAt: int)

  datatype Store = Store(entries: map<string, nat>, cells: seq<Cell>, closed: bool, pending: int) {
    ghost predicate Valid() {
      forall k :: k in entries ==> entries[k] < |cells|
    }
  }

  /** `c'` is `c` with an expiry that is the same or earlier. */
  ghost predicate Refreshes(c: Cell, c': Cell) {
    c' == c || (c'.grant == c.grant.(expiresAt := Some(c'.expiresAt)) && c'.expiresAt <= c.expiresAt)
  }

  /** Sessions are only ended or brought to an earlier expiry: nothing is mapped anew. */
  ghost predicate Narrows(st: Store, st': Store) {
    && |st'.cells| == |st.cells|
    && (forall i :: 0 <= i < |st.cells| ==> Refreshes(st.cells[i], st'.cells[i]))
    && (forall k :: k in st'.entries ==> k in st.entries && st'.entries[k] == st.entries[k])
    && (st.closed ==> st'.closed)
    && (st'.closed ==> st.closed || st'.entries == map[])
  }

  /** One new session appears under a key that was free, in an open store. */
  ghost predicate Publishes(st: Store, st': Store, key: string) {
    && |st'.cells| == |st.cells| + 1 && st'.cells[..|st.cells|] == st.cells
    && key !in st.entries
    && st'.entries == st.entries[key := |st.cells|]
    && !st.closed && !st'.closed
  }

  const EMPTY_STORE := Store(map[], [], false, 0)

  datatype Failure =
    | SessionError(status: nat, code: string)
    | EntropyCollision
    | RemoteFailure

  predicate Opaque(value: string) {
    |value| == 43 && forall i :: 0 <= i < |value| ==> IsBase64UrlChar(value[i])
  }

  predicate IsVerifier(value: string) {
    && 43 <= |value| <= 128
    && forall i :: 0 <= i < |value| ==> IsBase64UrlChar(value[i]) || value[i] == '.' || value[i] == '~'
  }

  function AssertOpen(st: Store, aborted: bool): (r: Option<Failure>) {
    if aborted then Some(SessionError(408, "native_request_ended"))
    else if st.closed then Some(SessionError(401, "native_session_ended"))
    else None
  }

  /** `AssertEntry(..).None?` is what the source calls "current". */
  function AssertEntry(st: Store, key: string, entry: nat, aborted: bool, now: int): (r: Option<Failure>)
    requires entry < |st.cells|
  {
    if AssertOpen(st, aborted).Some? then AssertOpen(st, aborted)
    else if key !in st.entries || st.entries[key] != entry || st.cells[entry].expiresAt <= now
    then Some(SessionError(401, "native_session_ended"))
    else None
  }

  function Sweep(st: Store, now: int): (r: Store)
    requires st.Valid()
    ensures r.Valid() && Narrows(st, r)
  {
    st.(entries := map k | k in st.entries && st.cells[st.entries[k]].expiresAt > now :: st.entries[k])
  }

  function Drop(st: Store, key: string): (r: Store)
    requires st.Valid()
    ensures r.Valid() && Narrows(st, r)
  {
    st.(entries := Without(st.entries, key))
  }

  // ---------- revoke ----------

  datatype RevokeCall =
    | TokenRefused
    | NothingRemote
    | RemoteRevoke(grant: Grant)

  /** The whole local effect of `revoke`: it is final before the remote call starts. */
  function RevokeEnter(cfg: Config, st: Store, token: string, now: int): (r: (Store, RevokeCall))
    requires st.Valid()
    ensures r.0.Valid() && Narrows(st, r.0)
    ensures r.0.pending == st.pending
  {
    if !Opaque(token) then (st, TokenRefused)
    else
      var key := cfg.fingerprint(token);
      var call := if key in st.entries && st.cells[st.entries[key]].expiresAt > now
                  then RemoteRevoke(st.cells[st.entries[key]].grant) else NothingRemote;
      (Drop(st, key), call)
  }

  // ---------- create ----------

  datatype CreateTask =
    | AwaitPrevious(signal: nat, call: RevokeCall)
    | AwaitExchange(signal: nat)
    | AwaitBind(signal: nat, exchanged: Exchanged, token: string)
    | AwaitUndo(signal: nat, grant: Grant, cause: Failure)
    | Published(token: string)
    | Refused(cause: Failure)
    | RefusedAfterUndo(grant: Grant, cause: Failure)
  {
    predicate Pending() {
      AwaitPrevious? || AwaitExchange? || AwaitBind? || AwaitUndo?
    }
  }

  function CreateEnter(cfg: Config, st: Store, code: string, verifier: string, signal: nat, aborted: bool,
                       previous: Option<string>, now: int): (r: (Store, CreateTask))
    requires st.Valid()
    ensures r.0.Valid() && Narrows(st, r.0)
    ensures r.0.pending == st.pending + (if r.1.Pending() then 1 else 0)
  {
    if AssertOpen(st, aborted).Some? then (st, Refused(AssertOpen(st, aborted).value))
    else if !Opaque(code) || !IsVerifier(verifier) then (st, Refused(SessionError(401, "invalid_native_exchange")))
    else
      var swept := Sweep(st, now);
      if |swept.entries| + swept.pending >= cfg.capacity || swept.pending >= MAX_PENDING
      then (swept, Refused(SessionError(503, "native_session_capacity")))
      else
        var counted := swept.(pending := swept.pending + 1);
        if previous.Some? && previous.value != "" then
          var (after, call) := RevokeEnter(cfg, counted, previous.value, now);
          (after, AwaitPrevious(signal, call))
        else (counted, AwaitExchange(signal))
  }

  lemma {:induction false} SubsetSize<T>(a: set<T>, b: set<T>)
    requires a <= b
    ensures |a| <= |b|
  {
    if a != {} {
      var x :| x in a;
      SubsetSize(a - {x}, b - {x});
    }
  }

  lemma NarrowedSize(st: Store, st': Store)
    requires Narrows(st, st')
    ensures |st'.entries| <= |st.entries|
  {
    SubsetSize(st'.entries.Keys, st.entries.Keys);
  }

  /** A creation is admitted only if room remains for the session it may publish. */
  lemma AdmittedWithinCapacity(cfg: Config, st: Store, code: string, verifier: string, signal: nat, aborted: bool,
                               previous: Option<string>, now: int)
    requires st.Valid()
    ensures var r := CreateEnter(cfg, st, code, verifier, signal, aborted, previous, now);
            r.1.Pending() ==> r.0.pending <= MAX_PENDING && |r.0.entries| + r.0.pending <= cfg.capacity
  {
    hide Sweep;
    hide RevokeEnter;
    if previous.Some? {
      var swept := Sweep(st, now);
      var counted := swept.(pending := swept.pending + 1);
      NarrowedSize(counted, RevokeEnter(cfg, counted, previous.value, now).0);
    }
  }

  /** The `finally` block of `create`. */
  function Leave(st: Store): (r: Store) {
    st.(pending := st.pending - 1)
  }

  /** Resumed after revoking the previous session, or straight after `CreateEnter`. */
  function StartExchange(st: Store, signal: nat, ok: bool, call: RevokeCall, aborted: bool): (r: (Store, CreateTask))
    requires st.Valid()
    ensures r.0.Valid() && Narrows(st, r.0)
    ensures r.0.pending == st.pending - (if r.1.Pending() then 0 else 1)
  {
    if !ok then
      (Leave(st), Refused(if call.TokenRefused? then SessionError(401, "native_session_required") else RemoteFailure))
    else if AssertOpen(st, aborted).Some? then (Leave(st), Refused(AssertOpen(st, aborted).value))
    else (st, AwaitExchange(signal))
  }

  function ExchangeSettled(cfg: Config, st: Store, signal: nat, result: Option<Exchanged>, token: string, aborted: bool)
    : (r: (Store, CreateTask))
    requires st.Valid()
    ensures r.0.Valid() && Narrows(st, r.0)
    ensures r.0.pending == st.pending - (if r.1.Pending() then 0 else 1)
  {
    if result.None? then (Leave(st), Refused(RemoteFailure))
    else if AssertOpen(st, aborted).Some? then (Leave(st), Refused(AssertOpen(st, aborted).value))
    else if !Opaque(token) || cfg.fingerprint(token) in st.entries then (Leave(st), Refused(EntropyCollision))
    else (st, AwaitBind(signal, result.value, token))
  }

  /** The binding checks of `create`: project, user, role, fingerprint and a lifetime in (0, 900 s]. */
  predicate BindingOk(cfg: Config, st: Store, exchanged: Exchanged, token: string, grant: Grant, now: int) {
    && grant.projectKey == cfg.projectKey
    && grant.userId == exchanged.userId && grant.userRole == exchanged.userRole
    && grant.sessionBinding == cfg.fingerprint(token)
    && grant.expiresAt.Some?
    && now < grant.expiresAt.value <= now + MAX_LIFETIME_MS
    && cfg.fingerprint(token) !in st.entries
  }

  function BindSettled(cfg: Config, st: Store, signal: nat, exchanged: Exchanged, token: string,
                       result: Option<Grant>, aborted: bool, now: int): (r: (Store, CreateTask))
    requires st.Valid()
    ensures r.0.Valid()
    ensures r.1.Published? ==> result.Some? && BindingOk(cfg, st, exchanged, token, result.value, now)
    ensures r.1.Published? ==> Publishes(st, r.0, cfg.fingerprint(token))
    ensures r.1.Published? ==> r.0.cells[|st.cells|] == Cell(result.value, result.value.expiresAt.value)
    ensures !r.1.Published? ==> Narrows(st, r.0)
    ensures r.0.pending == st.pending - (if r.1.Pending() then 0 else 1)
  {
    if result.None? then (Leave(st), Refused(RemoteFailure))
    else
      var grant := result.value;
      if AssertOpen(st, aborted).Some? then (st, AwaitUndo(signal, grant, AssertOpen(st, aborted).value))
      else if !BindingOk(cfg, st, exchanged, token, grant, now)
      then (st, AwaitUndo(signal, grant, SessionError(401, "invalid_native_session_binding")))
      else
        var entry := |st.cells|;
        (Leave(st.(entries := st.entries[cfg.fingerprint(token) := entry],
                   cells := st.cells + [Cell(grant, grant.expiresAt.value)])),
         Published(token))
  }

  function UndoSettled(st: Store, grant: Grant, cause: Failure, ok: bool): (r: (Store, CreateTask))
    requires st.Valid()
    ensures r.0.Valid() && Narrows(st, r.0)
    ensures r.0.pending == st.pending - (if r.1.Pending() then 0 else 1)
  {
    var failure := if ok then cause else SessionError(503, "native_exchange_revocation_unconfirmed");
    (Leave(st), RefusedAfterUndo(grant, failure))
  }

  // ---------- run ----------

  datatype RunTask =
    | AwaitCheck(key: string, entry: nat, signal: nat)
    | Permitted(key: string, entry: nat, signal: nat, userId: string, settled: bool)
    | RunRefused(key: string, entry: nat, signal: nat, cause: Failure)

  /** Captures the entry object for the rest of the run. */
  function RunEnter(cfg: Config, st: Store, token: string, signal: nat, aborted: bool, now: int)
    : (r: (Option<RunTask>, Option<Failure>))
    requires st.Valid()
    ensures r.0.Some? <==> r.1.None?
  {
    if !Opaque(token) then (None, Some(SessionError(401, "native_session_required")))
    else
      var key := cfg.fingerprint(token);
      if key !in st.entries then (None, Some(SessionError(401, "native_session_required")))
      else
        var failure := AssertEntry(st, key, st.entries[key], aborted, now);
        if failure.Some? then (None, failure) else (Some(AwaitCheck(key, st.entries[key], signal)), None)
  }

  /** `Denied` is a `CompositeAuthorityError` with status 401 or 403. */
  datatype CheckResult =
    | Checked(grant: Grant)
    | Denied
    | CheckFailed

  /** Only the same session with an expiry that does not grow is accepted. */
  predicate StillSame(cfg: Config, st: Store, entry: nat, checked: Grant, now: int)
    requires entry < |st.cells|
  {
    && checked.projectKey == cfg.projectKey
    && checked.userId == st.cells[entry].grant.userId
    && checked.userRole == st.cells[entry].grant.userRole
    && checked.sessionBinding == st.cells[entry].grant.sessionBinding
    && checked.expiresAt.Some?
    && now < checked.expiresAt.value <= st.cells[entry].expiresAt
  }

  function CheckSettled(cfg: Config, st: Store, key: string, entry: nat, signal: nat, result: CheckResult,
                        aborted: bool, now: int)
    : (r: (Store, RunTask))
    requires st.Valid() && entry < |st.cells|
    ensures r.0.Valid()
    ensures (forall i :: 0 <= i < |st.cells| ==> st.cells[i].grant.projectKey == cfg.projectKey) ==> Narrows(st, r.0)
    ensures r.1.Permitted? ==> r.1.userId == st.cells[entry].grant.userId
    ensures r.1.key == key && r.1.entry == entry && r.1.signal == signal
  {
    match result
    case CheckFailed => (st, RunRefused(key, entry, signal, RemoteFailure))
    case Denied => (Drop(st, key), RunRefused(key, entry, signal, RemoteFailure))
    case Checked(checked) =>
      if AssertEntry(st, key, entry, aborted, now).Some?
      then (st, RunRefused(key, entry, signal, AssertEntry(st, key, entry, aborted, now).value))
      else if !StillSame(cfg, st, entry, checked, now)
      then (Drop(st, key), RunRefused(key, entry, signal, SessionError(401, "native_session_changed")))
      else (st.(cells := st.cells[entry := Cell(checked, checked.expiresAt.value)]),
            Permitted(key, entry, signal, checked.userId, false))
  }

  datatype Callback =
    | Threw(failure: Failure)
    | Said(allowed: bool)
    | Executed(userId: string)

  /** `allowed` is the answer of the caller's own `authorize`, which does not touch the store. */
  function AuthorizeResource(st: Store, key: string, entry: nat, aborted: bool, allowed: bool, now: int): (r: Callback)
    requires entry < |st.cells|
  {
    if AssertEntry(st, key, entry, aborted, now).Some? then Threw(AssertEntry(st, key, entry, aborted, now).value)
    else Said(allowed)
  }

  function Execute(st: Store, key: string, entry: nat, userId: string, aborted: bool, allowed: bool,
                   now: int): (r: Callback)
    requires entry < |st.cells|
  {
    if AssertEntry(st, key, entry, aborted, now).Some? then Threw(AssertEntry(st, key, entry, aborted, now).value)
    else if !allowed then Threw(SessionError(401, "native_resource_owner_ended"))
    else Executed(userId)
  }

  function RunSettled(st: Store, key: string, denied: bool): (r: Store)
    requires st.Valid()
    ensures r.Valid() && Narrows(st, r)
  {
    if denied then Drop(st, key) else st
  }

  function Close(st: Store): (r: Store)
    ensures r.Valid() && Narrows(st, r)
  {
    st.(closed := true, entries := map[])
  }
}
