/**
 Login sessions, the OAuth callback endpoint, the expiry timer and provider-import drafts,
 as one state protected by the service lock. Each function gives the state after one critical
 section. The lifecycle lock, which a caller keeps across several critical sections, is the
 lifecycle field: it tells which multi-section operation is under way.

 Assumed of the identifier and state generators: a login identifier and a state value are
 never generated twice.
 */
module AuthSessions {
  import opened Collections
  import opened ImportDrafts
  import Text

  /** Instants count nanoseconds from the zero time, so 0 is the unset time. */
  type Instant = nat

  const MINUTE: nat := 60_000_000_000
  const LOGIN_TTL: nat := 10 * MINUTE
  const COMPLETED_TTL: nat := 15 * MINUTE
  const MAX_DRAFTS: nat := 32
  const MAX_DOCUMENT_BYTES: nat := 5 * 1024 * 1024
  const MAX_AGGREGATE_BYTES: nat := 32 * 1024 * 1024

  datatype PendingLogin = PendingLogin(loginID: string, state: string, expiresAt: Instant)

  datatype CompletedLogin = CompletedLogin(loginID: string, accountID: string, expiresAt: Instant)

  /** armedAt is the clock reading given when the timer was armed, and due is expressed in that clock. */
  datatype Timer = Timer(epoch: nat, armedAt: Instant, due: Instant)

  /** Idle: the lifecycle lock is free. Starting: a login start is between its two sections. Stopping: an endpoint stop is. */
  datatype Lifecycle = Idle | Starting | Stopping

  /**
   reserved maps each preview that holds a reservation to its raw bytes; issuedIDs and
   issuedStates are the identifiers of all logins so far, claimedStates those a callback
   claimed, and exchanging the claimed logins whose code exchange has not returned.
   */
  datatype State = State(
    byState: map<string, PendingLogin>,
    byLogin: map<string, PendingLogin>,
    completed: map<string, CompletedLogin>,
    imports: map<string, Draft>,
    slots: int,
    bytes: int,
    callbackActive: bool,
    timer: Option<Timer>,
    epoch: nat,
    shutdown: bool,
    lifecycle: Lifecycle,
    reserved: map<nat, nat>,
    issuedIDs: set<string>,
    issuedStates: set<string>,
    claimedStates: set<string>,
    exchanging: set<PendingLogin>)

  const INITIAL :=
    State(map[], map[], map[], map[], 0, 0, false, None, 0, false, Idle, map[], {}, {}, {}, {})

  datatype Error =
    | ServiceShutdown | CapacityExceeded | InconsistentAccounting | NoUniqueID | NotFound | DraftExpired
    | NotSealed | AlreadySealed | InProgress | NotClaimed | Rejected(seal: SealError) | Incomplete

  // ---- accounting ----

  ghost function Sizes(imports: map<string, Draft>): map<string, nat> {
    map id | id in imports :: imports[id].size
  }

  /** Bytes held by the staged drafts. */
  ghost function Held(imports: map<string, Draft>): nat {
    Total(Sizes(imports))
  }

  /** Slots and bytes count exactly the staged drafts and the outstanding reservations, within the limits. */
  ghost predicate Accounted(s: State) {
    && s.slots == |s.imports| + |s.reserved|
    && s.bytes == Held(s.imports) + Total(s.reserved)
    && s.slots <= MAX_DRAFTS
    && s.bytes <= MAX_AGGREGATE_BYTES
  }

  function FreeSlot(slots: int): int {
    if slots > 0 then slots - 1 else slots
  }

  function FreeBytes(bytes: int, freed: nat): int {
    if freed >= bytes then 0 else bytes - freed
  }

  function DeleteImport(s: State, id: string): State {
    if id !in s.imports then s
    else s.(imports := s.imports - {id}, slots := FreeSlot(s.slots), bytes := FreeBytes(s.bytes, s.imports[id].size))
  }

  lemma SizesRemove(imports: map<string, Draft>, id: string)
    requires id in imports
    ensures Sizes(imports - {id}) == Sizes(imports) - {id}
    ensures Held(imports) == imports[id].size + Held(imports - {id})
    ensures |imports - {id}| == |imports| - 1
  {
    TotalRemove(Sizes(imports), id);
    assert Sizes(imports - {id}) == Sizes(imports) - {id};
    assert (imports - {id}).Keys == imports.Keys - {id};
  }

  lemma SizesInsert(imports: map<string, Draft>, id: string, draft: Draft)
    requires id !in imports
    ensures Held(imports[id := draft]) == draft.size + Held(imports)
    ensures |imports[id := draft]| == |imports| + 1
  {
    var more := imports[id := draft];
    SizesRemove(more, id);
    assert more - {id} == imports;
  }

  lemma NothingHeld()
    ensures Held(map[]) == 0
  {
    assert Sizes(map[]) == map[];
  }

  /** The saturating branches never saturate: a deletion gives back one slot and exactly the draft's bytes. */
  lemma DeleteIsExact(s: State, id: string)
    requires Accounted(s) && id in s.imports
    ensures DeleteImport(s, id).slots == s.slots - 1
    ensures DeleteImport(s, id).bytes == s.bytes - s.imports[id].size
    ensures Accounted(DeleteImport(s, id))
  {
    SizesRemove(s.imports, id);
  }

  // ---- expiry ----

  /** When the pending logins, the completed logins and the unclaimed drafts expire. */
  ghost function ExpiryTimes(pending: map<string, PendingLogin>, completed: map<string, CompletedLogin>,
                             drafts: map<string, Draft>): set<Instant> {
    (set l <- pending :: pending[l].expiresAt) +
    (set l <- completed :: completed[l].expiresAt) +
    (set i <- drafts | !drafts[i].claimed :: drafts[i].expiresAt)
  }

  ghost function Expiries(s: State): set<Instant> {
    ExpiryTimes(s.byLogin, s.completed, s.imports)
  }

  ghost predicate IsLeast(m: Instant, xs: set<Instant>) {
    m in xs && forall x <- xs :: m <= x
  }

  lemma {:induction false} LeastExists(xs: set<Instant>)
    requires xs != {}
    ensures exists m :: IsLeast(m, xs)
    decreases xs
  {
    var m :| m in xs;
    if xs == {m} {
      assert IsLeast(m, xs);
    } else {
      LeastExists(xs - {m});
      var n :| IsLeast(n, xs - {m});
      var k := if n < m then n else m;
      forall x <- xs ensures k <= x { assert x == m || x in xs - {m}; }
      assert IsLeast(k, xs);
    }
  }

  ghost function Least(xs: set<Instant>): (m: Instant)
    requires xs != {}
    ensures IsLeast(m, xs)
  {
    LeastExists(xs);
    var m :| IsLeast(m, xs); m
  }

  /** Re-arms the timer for the earliest expiry, under a new epoch. */
  ghost function Sync(s: State, now: Instant): State {
    s.(epoch := s.epoch + 1,
       timer := if s.shutdown || Expiries(s) == {} then None
                else Some(Timer(s.epoch + 1, now, if Least(Expiries(s)) > now then Least(Expiries(s)) else now)))
  }

  function Unexpired(drafts: map<string, Draft>, now: Instant): map<string, Draft> {
    map i | i in drafts && (drafts[i].claimed || drafts[i].expiresAt > now) :: drafts[i]
  }

  ghost function PruneImports(s: State, now: Instant): State {
    var kept := Unexpired(s.imports, now);
    s.(imports := kept,
       slots := s.slots - (|s.imports| - |kept|),
       bytes := s.bytes - (Held(s.imports) - Held(kept)))
  }

  function ExpiredStates(s: State, now: Instant): set<string> {
    set l | l in s.byLogin && s.byLogin[l].expiresAt <= now :: s.byLogin[l].state
  }

  function PruneLogins(s: State, now: Instant): State {
    s.(byState := s.byState - ExpiredStates(s, now),
       byLogin := map l | l in s.byLogin && s.byLogin[l].expiresAt > now :: s.byLogin[l],
       completed := map l | l in s.completed && s.completed[l].expiresAt > now :: s.completed[l])
  }

  ghost function Prune(s: State, now: Instant): State {
    PruneImports(PruneLogins(s, now), now)
  }

  function DeletePending(s: State, login: PendingLogin): State {
    s.(byState := s.byState - {login.state}, byLogin := s.byLogin - {login.loginID})
  }

  predicate Stoppable(s: State) {
    s.callbackActive && s.byLogin == map[]
  }

  /** Keeps the lifecycle lock for an endpoint stop when the endpoint has no login left to serve. */
  function Idling(s: State): State {
    s.(lifecycle := if Stoppable(s) then Stopping else Idle)
  }

  // ---- the critical sections ----

  /** The first section of a login start: takes the lifecycle lock unless the service is shut down. */
  ghost function BeginCheck(s: State, now: Instant): State {
    if s.shutdown then s else Prune(s, now).(lifecycle := Starting)
  }

  function AdmitPending(s: State, login: PendingLogin): State {
    s.(callbackActive := true,
       byState := s.byState[login.state := login],
       byLogin := s.byLogin[login.loginID := login],
       issuedIDs := s.issuedIDs + {login.loginID},
       issuedStates := s.issuedStates + {login.state},
       lifecycle := Idle)
  }

  /** The second section, after the endpoint was started. */
  ghost function BeginStore(s: State, loginID: string, state: string, now: Instant): State {
    Sync(AdmitPending(s, PendingLogin(loginID, state, now + LOGIN_TTL)), now)
  }

  function BeginFails(s: State): State {
    s.(lifecycle := Idle)
  }

  function Disarmed(s: State): State {
    s.(timer := None)
  }

  ghost function Expire(s: State, epoch: nat, now: Instant): State {
    if s.shutdown || epoch != s.epoch then s
    else
      Sync(Idling(Prune(Disarmed(s), now)), now)
  }

  ghost function Reconcile(s: State, now: Instant): State {
    if s.shutdown then s
    else
      Sync(Idling(Prune(s, now)), now)
  }

  ghost function StopEndpoint(s: State, now: Instant): State {
    Sync(s.(callbackActive := false, lifecycle := Idle), now)
  }

  ghost function WithoutImports(s: State): State {
    s.(imports := map[], slots := s.slots - |s.imports|, bytes := s.bytes - Held(s.imports))
  }

  function WithoutLogins(s: State): State {
    s.(shutdown := true, epoch := s.epoch + 1, timer := None, byState := map[], byLogin := map[], completed := map[])
  }

  ghost function Cleared(s: State): State {
    WithoutImports(WithoutLogins(s))
  }

  ghost function Shutdown(s: State): State {
    if s.shutdown then s else Cleared(s).(lifecycle := if s.callbackActive then Stopping else Idle)
  }

  /** Reading a login's status or its credential. */
  ghost function Poll(s: State, now: Instant): State {
    Sync(Prune(s, now), now)
  }

  ghost function FinalizeLogin(s: State, loginID: string, now: Instant): State {
    var p := Poll(s, now);
    p.(completed := p.completed - {loginID})
  }

  /** A claimed login leaves the state index and keeps its place for status polling, with a new window. */
  function ClaimPending(s: State, state: string, now: Instant): State
    requires state in s.byState
  {
    var login := s.byState[state].(expiresAt := now + LOGIN_TTL);
    s.(byState := s.byState - {state},
       byLogin := s.byLogin[login.loginID := login],
       claimedStates := s.claimedStates + {state},
       exchanging := s.exchanging + {login})
  }

  ghost function ClaimLogin(s: State, state: string, now: Instant): State {
    var p := Prune(s, now);
    Sync(if state in p.byState then ClaimPending(p, state, now) else p, now)
  }

  function CancelPending(s: State, state: string): State {
    if state in s.byState then DeletePending(s, s.byState[state]) else s
  }

  ghost function CancelLogin(s: State, state: string, now: Instant): State {
    if state == "" then s else Sync(CancelPending(Prune(s, now), state), now)
  }

  function ForgetExchange(s: State, login: PendingLogin): State {
    DeletePending(s, login).(exchanging := s.exchanging - {login})
  }

  ghost function ExchangeFailed(s: State, login: PendingLogin, now: Instant): State {
    Sync(ForgetExchange(s, login), now)
  }

  function AdmitCompleted(s: State, login: CompletedLogin): State {
    s.(completed := s.completed[login.loginID := login])
  }

  ghost function ExchangeDone(s: State, login: PendingLogin, accountID: Option<string>, now: Instant): State {
    var d := ForgetExchange(s, login);
    if s.shutdown || Text.TrimSpace(login.loginID) == "" || accountID.None? then d
    else Sync(AdmitCompleted(Prune(d, now), CompletedLogin(login.loginID, accountID.value, now + COMPLETED_TTL)), now)
  }

  ghost function ReserveError(s: State, raw: nat, now: Instant): Option<Error> {
    if raw > MAX_DOCUMENT_BYTES then Some(CapacityExceeded)
    else if s.shutdown then Some(ServiceShutdown)
    else if PruneImports(s, now).slots >= MAX_DRAFTS then Some(CapacityExceeded)
    else if raw > MAX_AGGREGATE_BYTES - PruneImports(s, now).bytes then Some(CapacityExceeded)
    else None
  }

  function Reserved(s: State, ticket: nat, raw: nat): State {
    s.(slots := s.slots + 1, bytes := s.bytes + raw, reserved := s.reserved[ticket := raw])
  }

  ghost function Reserve(s: State, ticket: nat, raw: nat, now: Instant): State {
    if raw > MAX_DOCUMENT_BYTES || s.shutdown then s
    else
      var p := PruneImports(s, now);
      if ReserveError(s, raw, now).Some? then p
      else Sync(Reserved(p, ticket, raw), now)
  }

  function Unreserve(s: State, ticket: nat): State
    requires ticket in s.reserved
  {
    s.(slots := FreeSlot(s.slots), bytes := FreeBytes(s.bytes, s.reserved[ticket]), reserved := s.reserved - {ticket})
  }

  ghost function StageError(s: State, ticket: nat, id: Option<string>, draft: Draft, now: Instant): Option<Error>
    requires ticket in s.reserved
  {
    var p := Prune(s, now);
    if s.shutdown then Some(ServiceShutdown)
    else if id.None? || id.value in p.imports then Some(NoUniqueID)
    else if p.bytes - s.reserved[ticket] < 0 then Some(InconsistentAccounting)
    else if draft.size > MAX_AGGREGATE_BYTES - (p.bytes - s.reserved[ticket]) then Some(CapacityExceeded)
    else None
  }

  function StagedIn(s: State, ticket: nat, id: string, draft: Draft): State
    requires ticket in s.reserved
  {
    s.(bytes := s.bytes - s.reserved[ticket] + draft.size,
       imports := s.imports[id := draft],
       reserved := s.reserved - {ticket})
  }

  /** Turns a reservation into a staged draft; the reserved slot is handed over. */
  ghost function Stage(s: State, ticket: nat, id: Option<string>, draft: Draft, now: Instant): State
    requires ticket in s.reserved
  {
    var error := StageError(s, ticket, id, draft, now);
    if s.shutdown then s
    else if error.Some? then Prune(s, now)
    else Sync(StagedIn(Prune(s, now), ticket, id.value, draft), now)
  }

  /** The draft is idle and its review window has elapsed. */
  predicate Lapsed(s: State, id: string, now: Instant) {
    id in s.imports && !s.imports[id].claimed && s.imports[id].expiresAt <= now
  }

  function SealDraftError(s: State, id: string, ds: seq<Disposition>, now: Instant): Option<Error> {
    if Lapsed(s, id, now) then Some(DraftExpired)
    else if id !in s.imports then Some(NotFound)
    else if s.imports[id].isSealed then Some(AlreadySealed)
    else if |ds| != |s.imports[id].order| then Some(Rejected(InvalidCandidate))
    else
      var e := FirstError(s.imports[id].candidates, TrimAll(ds));
      if e.Some? then Some(Rejected(e.value)) else None
  }

  function Rewrite(s: State, id: string, draft: Draft): State {
    s.(imports := s.imports[id := draft])
  }

  function Decide(draft: Draft, ds: seq<Disposition>): Draft {
    draft.(candidates := Bound(draft.candidates, TrimAll(ds)), isSealed := true)
  }

  ghost function SealDraft(s: State, id: string, ds: seq<Disposition>, now: Instant): State {
    if Lapsed(s, id, now) then Sync(DeleteImport(s, id), now)
    else if SealDraftError(s, id, ds, now).Some? then s
    else Rewrite(s, id, Decide(s.imports[id], ds))
  }

  function ClaimError(s: State, id: string, now: Instant): Option<Error> {
    if Lapsed(s, id, now) then Some(DraftExpired)
    else if id !in s.imports then Some(NotFound)
    else if !s.imports[id].isSealed then Some(NotSealed)
    else if s.imports[id].claimed then Some(InProgress)
    else None
  }

  ghost function ClaimDraft(s: State, id: string, now: Instant): State {
    if Lapsed(s, id, now) then Sync(DeleteImport(s, id), now)
    else if ClaimError(s, id, now).Some? then s
    else Sync(Rewrite(s, id, s.imports[id].(claimed := true)), now)
  }

  ghost function ReleaseDraft(s: State, id: string, now: Instant): State {
    if id !in s.imports || !s.imports[id].claimed then s
    else
      Sync(if s.imports[id].expiresAt <= now then DeleteImport(s, id)
           else Rewrite(s, id, s.imports[id].(claimed := false)), now)
  }

  function FinalizeError(s: State, id: string, now: Instant): Option<Error> {
    if Lapsed(s, id, now) then Some(DraftExpired)
    else if id !in s.imports then Some(NotFound)
    else if !s.imports[id].claimed then Some(NotClaimed)
    else None
  }

  ghost function FinalizeDraft(s: State, id: string, now: Instant): State {
    if id in s.imports && (Lapsed(s, id, now) || s.imports[id].claimed) then Sync(DeleteImport(s, id), now) else s
  }

  ghost function CancelDraft(s: State, id: string, now: Instant): State {
    if id in s.imports && s.imports[id].claimed then s else Sync(DeleteImport(s, id), now)
  }

  // ---- invariants ----

  /** The two pending maps describe the same logins; only a claimed login is missing from the state index. */
  ghost predicate MapsAgree(s: State) {
    && (forall st <- s.byState :: s.byState[st].state == st && s.byState[st].loginID in s.byLogin &&
                                  s.byLogin[s.byState[st].loginID] == s.byState[st])
    && (forall l <- s.byLogin :: s.byLogin[l].loginID == l &&
                                 (s.byLogin[l].state in s.byState || s.byLogin[l].state in s.claimedStates))
    && (forall l, m :: l in s.byLogin && m in s.byLogin && s.byLogin[l].state == s.byLogin[m].state ==> l == m)
    && s.byState.Keys !! s.claimedStates
    && s.byState.Keys + s.claimedStates <= s.issuedStates
    && s.byLogin.Keys <= s.issuedIDs
    && (forall x <- s.exchanging :: x.state in s.claimedStates && x.loginID in s.issuedIDs &&
                                    (x.loginID in s.byLogin ==> s.byLogin[x.loginID].state == x.state))
  }

  ghost predicate EndpointInv(s: State) {
    && (s.byLogin != map[] ==> s.callbackActive)
    && (s.lifecycle.Stopping? ==> s.byLogin == map[])
    && (s.lifecycle.Starting? ==> !s.shutdown)
    && (s.shutdown ==> s.byState == map[] && s.byLogin == map[] && s.completed == map[] && s.imports == map[] && s.timer == None)
  }

  ghost predicate DraftsInv(s: State) {
    forall i <- s.imports :: WellFormed(s.imports[i])
  }

  /** No expiry is the unset time. */
  ghost predicate Dated(s: State) {
    && (forall l <- s.byLogin :: s.byLogin[l].expiresAt > 0)
    && (forall l <- s.completed :: s.completed[l].expiresAt > 0)
    && (forall i <- s.imports :: s.imports[i].expiresAt > 0)
  }

  ghost predicate Backed(imports: map<string, Draft>, slots: int, bytes: int) {
    slots >= |imports| && bytes >= Held(imports)
  }

  /** All that a single section relies on; every reachable state is usable (ReachableIsUsable). */
  ghost predicate Usable(s: State) {
    && (forall l <- s.byLogin :: s.byLogin[l].loginID == l)
    && Dated(s)
    && Backed(s.imports, s.slots, s.bytes)
  }

  ghost predicate Core(s: State) {
    MapsAgree(s) && EndpointInv(s) && DraftsInv(s) && Accounted(s) && Dated(s)
  }

  /**
   Unless shut down, every expiry is covered by a live timer of the current epoch, due no
   later than the expiry, or at once if the expiry had passed when the timer was armed.
   */
  ghost predicate Covered(s: State) {
    s.shutdown ||
    forall e <- Expiries(s) ::
      s.timer.Some? && s.timer.value.epoch == s.epoch &&
      (s.timer.value.due <= e || s.timer.value.due == s.timer.value.armedAt)
  }

  ghost predicate Inv(s: State) {
    Core(s) && Covered(s)
  }

  // ---- what pruning, syncing and deleting keep ----

  lemma UnexpiredIsSmaller(drafts: map<string, Draft>, now: Instant)
    ensures |Unexpired(drafts, now)| <= |drafts|
    ensures Held(Unexpired(drafts, now)) <= Held(drafts)
  {
    SubsetSize(Unexpired(drafts, now).Keys, drafts.Keys);
    TotalMonotone(Sizes(Unexpired(drafts, now)), Sizes(drafts));
  }

  /** Expiries lie after now. */
  ghost predicate AllAfter(s: State, now: Instant) {
    forall e <- Expiries(s) :: e > now
  }

  lemma PruneImportsKeepsCore(s: State, now: Instant)
    requires Core(s)
    ensures Core(PruneImports(s, now))
    ensures Expiries(PruneImports(s, now)) <= Expiries(s)
  {
    UnexpiredIsSmaller(s.imports, now);
    assert Expiries(PruneImports(s, now)) <= Expiries(s);
  }

  lemma PruneLoginsKeepsMapsAgree(s: State, now: Instant)
    requires MapsAgree(s)
    ensures MapsAgree(PruneLogins(s, now))
  {
    assert forall st <- s.byState :: st in ExpiredStates(s, now) <==> s.byState[st].expiresAt <= now;
  }

  lemma PruneLoginsKeepsCore(s: State, now: Instant)
    requires Core(s)
    ensures Core(PruneLogins(s, now))
    ensures Expiries(PruneLogins(s, now)) <= Expiries(s)
  {
    PruneLoginsKeepsMapsAgree(s, now);
    var q := PruneLogins(s, now);
    assert Expiries(q) <= Expiries(s);
    assert Accounted(q);
    assert EndpointInv(q);
  }

  lemma PruneKeepsCore(s: State, now: Instant)
    requires Core(s)
    ensures Core(Prune(s, now))
    ensures Expiries(Prune(s, now)) <= Expiries(s)
  {
    PruneLoginsKeepsCore(s, now);
    PruneImportsKeepsCore(PruneLogins(s, now), now);
  }

  lemma PruneLeavesNothingExpired(s: State, now: Instant)
    ensures AllAfter(Prune(s, now), now)
  {
  }

  lemma SyncKeepsInv(s: State, now: Instant)
    requires Core(s)
    ensures Inv(Sync(s, now))
    ensures Expiries(Sync(s, now)) == Expiries(s)
  {
    assert Expiries(Sync(s, now)) == Expiries(s);
  }

  /** Removing items needs no new timer. */
  lemma FewerKeepsCovered(s: State, s': State)
    requires Covered(s) && Expiries(s') <= Expiries(s)
    requires s'.timer == s.timer && s'.epoch == s.epoch && s'.shutdown == s.shutdown
    ensures Covered(s')
  {
  }

  /** Whatever is pending under the login's identifier or its state is that login. */
  ghost predicate Owned(s: State, login: PendingLogin) {
    && (login.loginID in s.byLogin ==> s.byLogin[login.loginID].state == login.state)
    && (login.state in s.byState ==> s.byState[login.state].loginID == login.loginID)
  }

  lemma DeletePendingKeepsMapsAgree(s: State, login: PendingLogin)
    requires MapsAgree(s) && Owned(s, login)
    ensures MapsAgree(DeletePending(s, login))
  {
  }

  lemma DeletePendingKeepsCore(s: State, login: PendingLogin)
    requires Core(s) && Owned(s, login)
    ensures Core(DeletePending(s, login))
    ensures Expiries(DeletePending(s, login)) <= Expiries(s)
  {
    DeletePendingKeepsMapsAgree(s, login);
    var d := DeletePending(s, login);
    assert Expiries(d) <= Expiries(s);
    assert Accounted(d);
    assert EndpointInv(d);
  }

  lemma DeleteImportKeepsCore(s: State, id: string)
    requires Core(s)
    ensures Core(DeleteImport(s, id))
    ensures Expiries(DeleteImport(s, id)) <= Expiries(s)
  {
    if id in s.imports { DeleteIsExact(s, id); }
    assert Expiries(DeleteImport(s, id)) <= Expiries(s);
  }

  // ---- runs ----

  datatype Event =
    | BeginCheckEvent(now: Instant)
    | BeginStoreEvent(loginID: string, state: string, now: Instant)
    | BeginFailsEvent
    | ExpireEvent(epoch: nat, now: Instant)
    | ReconcileEvent(now: Instant)
    | StopEndpointEvent(now: Instant)
    | ShutdownEvent
    | PollEvent(now: Instant)
    | FinalizeLoginEvent(loginID: string, now: Instant)
    | ClaimLoginEvent(state: string, now: Instant)
    | CancelLoginEvent(state: string, now: Instant)
    | ExchangeFailedEvent(login: PendingLogin, now: Instant)
    | ExchangeDoneEvent(login: PendingLogin, accountID: Option<string>, now: Instant)
    | ReserveEvent(ticket: nat, raw: nat, now: Instant)
    | UnreserveEvent(ticket: nat)
    | StageEvent(ticket: nat, generated: Option<string>, draft: Draft, now: Instant)
    | SealEvent(id: string, dispositions: seq<Disposition>, now: Instant)
    | ClaimDraftEvent(id: string, now: Instant)
    | ReleaseDraftEvent(id: string, now: Instant)
    | FinalizeDraftEvent(id: string, now: Instant)
    | CancelDraftEvent(id: string, now: Instant)

  /** What staging may be given: a fresh draft with unique candidates and its review window. */
  ghost predicate Stageable(draft: Draft) {
    WellFormed(draft) && !draft.isSealed && !draft.claimed && draft.expiresAt > 0
  }

  predicate OnDrafts(e: Event) {
    e.ReserveEvent? || e.UnreserveEvent? || e.StageEvent? || e.SealEvent? || e.ClaimDraftEvent? ||
    e.ReleaseDraftEvent? || e.FinalizeDraftEvent? || e.CancelDraftEvent?
  }

  /** Which sections can run: the lifecycle lock, generated identifiers and the caller's own progress decide. */
  ghost predicate Enabled(s: State, e: Event) {
    match e
    case BeginCheckEvent(_) => s.lifecycle.Idle?
    case BeginStoreEvent(l, st, _) => s.lifecycle.Starting? && l !in s.issuedIDs && st !in s.issuedStates
    case BeginFailsEvent => s.lifecycle.Starting?
    case ExpireEvent(_, _) => s.lifecycle.Idle?
    case ReconcileEvent(_) => s.lifecycle.Idle?
    case StopEndpointEvent(_) => s.lifecycle.Stopping?
    case ShutdownEvent => s.lifecycle.Idle?
    case ExchangeFailedEvent(login, _) => login in s.exchanging
    case ExchangeDoneEvent(login, _, _) => login in s.exchanging
    case ReserveEvent(t, _, _) => t !in s.reserved
    case UnreserveEvent(t) => t in s.reserved
    case StageEvent(t, _, draft, _) => t in s.reserved && Stageable(draft)
    case _ => true
  }

  ghost function LoginNext(s: State, e: Event): State
    requires Enabled(s, e) && !OnDrafts(e)
  {
    match e
    case BeginCheckEvent(now) => BeginCheck(s, now)
    case BeginStoreEvent(l, st, now) => BeginStore(s, l, st, now)
    case BeginFailsEvent => BeginFails(s)
    case ExpireEvent(epoch, now) => Expire(s, epoch, now)
    case ReconcileEvent(now) => Reconcile(s, now)
    case StopEndpointEvent(now) => StopEndpoint(s, now)
    case ShutdownEvent => Shutdown(s)
    case PollEvent(now) => Poll(s, now)
    case FinalizeLoginEvent(l, now) => FinalizeLogin(s, l, now)
    case ClaimLoginEvent(st, now) => ClaimLogin(s, st, now)
    case CancelLoginEvent(st, now) => CancelLogin(s, st, now)
    case ExchangeFailedEvent(login, now) => ExchangeFailed(s, login, now)
    case ExchangeDoneEvent(login, acc, now) => ExchangeDone(s, login, acc, now)
  }

  ghost function DraftNext(s: State, e: Event): State
    requires Enabled(s, e) && OnDrafts(e)
  {
    match e
    case ReserveEvent(t, raw, now) => Reserve(s, t, raw, now)
    case UnreserveEvent(t) => Unreserve(s, t)
    case StageEvent(t, id, draft, now) => Stage(s, t, id, draft, now)
    case SealEvent(id, ds, now) => SealDraft(s, id, ds, now)
    case ClaimDraftEvent(id, now) => ClaimDraft(s, id, now)
    case ReleaseDraftEvent(id, now) => ReleaseDraft(s, id, now)
    case FinalizeDraftEvent(id, now) => FinalizeDraft(s, id, now)
    case CancelDraftEvent(id, now) => CancelDraft(s, id, now)
  }

  ghost function Next(s: State, e: Event): State
    requires Enabled(s, e)
  {
    if OnDrafts(e) then DraftNext(s, e) else LoginNext(s, e)
  }

  ghost function After(run: seq<Event>): Option<State> {
    if run == [] then Some(INITIAL)
    else
      var before := After(run[..|run| - 1]);
      if before.Some? && Enabled(before.value, run[|run| - 1]) then Some(Next(before.value, run[|run| - 1]))
      else None
  }

  // Sections of the login flow.

  lemma AdmitPendingKeepsMapsAgree(s: State, login: PendingLogin)
    requires MapsAgree(s) && login.loginID !in s.issuedIDs && login.state !in s.issuedStates
    ensures MapsAgree(AdmitPending(s, login))
  {
  }

  lemma AdmitPendingKeepsRest(s: State, login: PendingLogin)
    requires Core(s) && s.lifecycle.Starting? && login.expiresAt > 0
    ensures var q := AdmitPending(s, login); EndpointInv(q) && DraftsInv(q) && Accounted(q) && Dated(q)
  {
  }

  lemma AdmitPendingKeepsCore(s: State, login: PendingLogin)
    requires Core(s) && s.lifecycle.Starting? && login.expiresAt > 0
    requires login.loginID !in s.issuedIDs && login.state !in s.issuedStates
    ensures Core(AdmitPending(s, login))
  {
    AdmitPendingKeepsMapsAgree(s, login);
    AdmitPendingKeepsRest(s, login);
  }

  lemma BeginStoreKeepsInv(s: State, loginID: string, state: string, now: Instant)
    requires Inv(s) && Enabled(s, BeginStoreEvent(loginID, state, now))
    ensures Inv(BeginStore(s, loginID, state, now))
  {
    var login := PendingLogin(loginID, state, now + LOGIN_TTL);
    AdmitPendingKeepsCore(s, login);
    SyncKeepsInv(AdmitPending(s, login), now);
  }

  lemma IdlingKeepsCore(s: State)
    requires Core(s) && s.lifecycle.Idle?
    ensures Core(Idling(s))
  {
  }

  lemma ReconcileKeepsInv(s: State, now: Instant)
    requires Inv(s) && s.lifecycle.Idle?
    ensures Inv(Reconcile(s, now))
  {
    PruneKeepsCore(s, now);
    IdlingKeepsCore(Prune(s, now));
    SyncKeepsInv(Idling(Prune(s, now)), now);
  }

  lemma ExpireKeepsInv(s: State, epoch: nat, now: Instant)
    requires Inv(s) && s.lifecycle.Idle?
    ensures Inv(Expire(s, epoch, now))
  {
    var q := Disarmed(s);
    assert Core(q);
    PruneKeepsCore(q, now);
    IdlingKeepsCore(Prune(q, now));
    SyncKeepsInv(Idling(Prune(q, now)), now);
  }

  lemma StopEndpointKeepsInv(s: State, now: Instant)
    requires Inv(s) && s.lifecycle.Stopping?
    ensures Inv(StopEndpoint(s, now))
  {
    var q := s.(callbackActive := false, lifecycle := Idle);
    assert Expiries(q) == Expiries(s);
    SyncKeepsInv(q, now);
  }

  lemma ClearedKeepsCore(s: State)
    requires Core(s)
    ensures MapsAgree(Cleared(s)) && Accounted(Cleared(s))
  {
    NothingHeld();
  }

  lemma ShutdownKeepsInv(s: State)
    requires Inv(s) && s.lifecycle.Idle?
    ensures Inv(Shutdown(s))
  {
    if !s.shutdown {
      ClearedKeepsCore(s);
      var q := Shutdown(s);
      assert EndpointInv(q) && DraftsInv(q) && Dated(q);
    }
  }

  lemma ClaimPendingKeepsMapsAgree(s: State, state: string, now: Instant)
    requires MapsAgree(s) && state in s.byState
    ensures MapsAgree(ClaimPending(s, state, now))
  {
  }

  lemma ClaimPendingKeepsCore(s: State, state: string, now: Instant)
    requires Core(s) && state in s.byState
    ensures Core(ClaimPending(s, state, now))
  {
    ClaimPendingKeepsMapsAgree(s, state, now);
    assert Accounted(ClaimPending(s, state, now));
  }

  lemma ClaimLoginKeepsInv(s: State, state: string, now: Instant)
    requires Inv(s)
    ensures Inv(ClaimLogin(s, state, now))
  {
    PruneKeepsCore(s, now);
    var p := Prune(s, now);
    if state in p.byState {
      ClaimPendingKeepsCore(p, state, now);
      SyncKeepsInv(ClaimPending(p, state, now), now);
    } else {
      SyncKeepsInv(p, now);
    }
  }

  lemma CancelPendingKeepsCore(s: State, state: string)
    requires Core(s)
    ensures Core(CancelPending(s, state))
  {
    if state in s.byState { DeletePendingKeepsCore(s, s.byState[state]); }
  }

  lemma CancelLoginKeepsInv(s: State, state: string, now: Instant)
    requires Inv(s)
    ensures Inv(CancelLogin(s, state, now))
  {
    PruneKeepsCore(s, now);
    CancelPendingKeepsCore(Prune(s, now), state);
    SyncKeepsInv(CancelPending(Prune(s, now), state), now);
  }

  lemma ForgetExchangeKeepsCore(s: State, login: PendingLogin)
    requires Core(s) && login in s.exchanging
    ensures Core(ForgetExchange(s, login))
    ensures Expiries(ForgetExchange(s, login)) <= Expiries(s)
  {
    DeletePendingKeepsCore(s, login);
    FewerExchangesKeepCore(DeletePending(s, login), login);
  }

  lemma FewerExchangesKeepCore(s: State, login: PendingLogin)
    requires Core(s)
    ensures Core(s.(exchanging := s.exchanging - {login}))
  {
    var q := s.(exchanging := s.exchanging - {login});
    assert MapsAgree(q);
    assert Accounted(q);
  }

  lemma AdmitCompletedKeepsCore(s: State, login: CompletedLogin)
    requires Core(s) && !s.shutdown && login.expiresAt > 0
    ensures Core(AdmitCompleted(s, login))
  {
    assert MapsAgree(AdmitCompleted(s, login));
  }

  lemma ExchangeFailedKeepsInv(s: State, login: PendingLogin, now: Instant)
    requires Inv(s) && login in s.exchanging
    ensures Inv(ExchangeFailed(s, login, now))
  {
    ForgetExchangeKeepsCore(s, login);
    SyncKeepsInv(ForgetExchange(s, login), now);
  }

  lemma ExchangeDoneKeepsInv(s: State, login: PendingLogin, accountID: Option<string>, now: Instant)
    requires Inv(s) && login in s.exchanging
    ensures Inv(ExchangeDone(s, login, accountID, now))
  {
    ForgetExchangeKeepsCore(s, login);
    var d := ForgetExchange(s, login);
    if s.shutdown || Text.TrimSpace(login.loginID) == "" || accountID.None? {
      FewerKeepsCovered(s, d);
    } else {
      PruneKeepsCore(d, now);
      var c := CompletedLogin(login.loginID, accountID.value, now + COMPLETED_TTL);
      AdmitCompletedKeepsCore(Prune(d, now), c);
      SyncKeepsInv(AdmitCompleted(Prune(d, now), c), now);
    }
  }

  lemma PollKeepsInv(s: State, loginID: string, now: Instant)
    requires Inv(s)
    ensures Inv(Poll(s, now)) && Inv(FinalizeLogin(s, loginID, now))
  {
    PruneKeepsCore(s, now);
    SyncKeepsInv(Prune(s, now), now);
    var p, f := Poll(s, now), FinalizeLogin(s, loginID, now);
    assert MapsAgree(f) && Accounted(f);
    assert Expiries(f) <= Expiries(p);
    FewerKeepsCovered(p, f);
  }

  lemma BeginCheckKeepsInv(s: State, now: Instant)
    requires Inv(s) && s.lifecycle.Idle?
    ensures Inv(BeginCheck(s, now))
  {
    PruneKeepsCore(s, now);
    var p, b := Prune(s, now), BeginCheck(s, now);
    if !s.shutdown {
      assert Expiries(b) == Expiries(p);
      FewerKeepsCovered(s, b);
    }
  }

  lemma BeginFailsKeepsInv(s: State)
    requires Inv(s) && s.lifecycle.Starting?
    ensures Inv(BeginFails(s))
  {
    assert Expiries(BeginFails(s)) == Expiries(s);
  }

  // Sections of the drafts.

  /** s' differs from s in its drafts and their accounting only. */
  ghost predicate SameLogins(s: State, s': State) {
    s' == s.(imports := s'.imports, slots := s'.slots, bytes := s'.bytes, reserved := s'.reserved)
  }

  lemma DraftChangeKeepsCore(s: State, s': State)
    requires Core(s) && SameLogins(s, s') && !s.shutdown
    requires Accounted(s') && forall i <- s'.imports :: WellFormed(s'.imports[i]) && s'.imports[i].expiresAt > 0
    ensures Core(s')
  {
  }

  lemma ReservationAdds(reserved: map<nat, nat>, ticket: nat, raw: nat)
    requires ticket !in reserved
    ensures Total(reserved[ticket := raw]) == Total(reserved) + raw
    ensures |reserved[ticket := raw]| == |reserved| + 1
  {
    TotalInsert(reserved, ticket, raw);
    assert reserved - {ticket} == reserved;
    assert reserved[ticket := raw].Keys == reserved.Keys + {ticket};
  }

  lemma ReservedIsAccounted(s: State, ticket: nat, raw: nat)
    requires Accounted(s) && ticket !in s.reserved && s.slots < MAX_DRAFTS && raw <= MAX_AGGREGATE_BYTES - s.bytes
    ensures Accounted(Reserved(s, ticket, raw))
  {
    ReservationAdds(s.reserved, ticket, raw);
  }

  lemma ReserveKeepsInv(s: State, ticket: nat, raw: nat, now: Instant)
    requires Inv(s) && ticket !in s.reserved
    ensures Inv(Reserve(s, ticket, raw, now))
  {
    PruneImportsKeepsCore(s, now);
    var p := PruneImports(s, now);
    if ReserveError(s, raw, now).None? {
      ReservedIsAccounted(p, ticket, raw);
      DraftChangeKeepsCore(p, Reserved(p, ticket, raw));
      SyncKeepsInv(Reserved(p, ticket, raw), now);
    } else {
      FewerKeepsCovered(s, p);
    }
  }

  lemma ReleaseIsAccounted(s: State, ticket: nat)
    requires Accounted(s) && ticket in s.reserved
    ensures Unreserve(s, ticket).slots == s.slots - 1
    ensures Unreserve(s, ticket).bytes == s.bytes - s.reserved[ticket]
    ensures Accounted(Unreserve(s, ticket))
  {
    TotalRemove(s.reserved, ticket);
    assert (s.reserved - {ticket}).Keys == s.reserved.Keys - {ticket};
  }

  /** Releasing a reservation, too, never saturates. */
  lemma UnreserveKeepsInv(s: State, ticket: nat)
    requires Inv(s) && ticket in s.reserved
    ensures Unreserve(s, ticket).slots == s.slots - 1
    ensures Unreserve(s, ticket).bytes == s.bytes - s.reserved[ticket]
    ensures Inv(Unreserve(s, ticket))
  {
    ReleaseIsAccounted(s, ticket);
    var u := Unreserve(s, ticket);
    assert Expiries(u) == Expiries(s);
  }

  lemma StagedIsAccounted(s: State, ticket: nat, id: string, draft: Draft)
    requires Accounted(s) && ticket in s.reserved && id !in s.imports
    requires draft.size <= MAX_AGGREGATE_BYTES - (s.bytes - s.reserved[ticket])
    ensures Accounted(StagedIn(s, ticket, id, draft))
  {
    SizesInsert(s.imports, id, draft);
    TotalRemove(s.reserved, ticket);
    assert (s.reserved - {ticket}).Keys == s.reserved.Keys - {ticket};
  }

  /** The accounting is never inconsistent, and staging overwrites no draft and keeps the slot count. */
  lemma StagingOverwritesNothing(s: State, ticket: nat, id: Option<string>, draft: Draft, now: Instant)
    requires Inv(s) && ticket in s.reserved
    ensures StageError(s, ticket, id, draft, now) != Some(InconsistentAccounting)
    ensures StageError(s, ticket, id, draft, now).None? ==>
              id.Some? && id.value !in Prune(s, now).imports && Stage(s, ticket, id, draft, now).slots == Prune(s, now).slots
  {
    PruneKeepsCore(s, now);
    TotalRemove(s.reserved, ticket);
    assert Prune(s, now).reserved == s.reserved;
  }

  lemma StagedKeepsCore(s: State, ticket: nat, id: string, draft: Draft)
    requires Core(s) && !s.shutdown && ticket in s.reserved && Stageable(draft) && id !in s.imports
    requires draft.size <= MAX_AGGREGATE_BYTES - (s.bytes - s.reserved[ticket])
    ensures Core(StagedIn(s, ticket, id, draft))
  {
    StagedIsAccounted(s, ticket, id, draft);
    DraftChangeKeepsCore(s, StagedIn(s, ticket, id, draft));
  }

  lemma StageKeepsInv(s: State, ticket: nat, id: Option<string>, draft: Draft, now: Instant)
    requires Inv(s) && ticket in s.reserved && Stageable(draft)
    ensures Inv(Stage(s, ticket, id, draft, now))
  {
    if !s.shutdown {
      PruneKeepsCore(s, now);
      var p := Prune(s, now);
      if StageError(s, ticket, id, draft, now).None? {
        StagedKeepsCore(p, ticket, id.value, draft);
        SyncKeepsInv(StagedIn(p, ticket, id.value, draft), now);
      } else {
        FewerKeepsCovered(s, p);
      }
    }
  }

  lemma RewriteIsAccounted(s: State, id: string, draft: Draft)
    requires Accounted(s) && id in s.imports && draft.size == s.imports[id].size
    ensures Accounted(Rewrite(s, id, draft))
  {
    assert Sizes(Rewrite(s, id, draft).imports) == Sizes(s.imports);
    assert Rewrite(s, id, draft).imports.Keys == s.imports.Keys;
  }

  lemma RewriteKeepsCore(s: State, id: string, draft: Draft)
    requires Core(s) && id in s.imports && WellFormed(draft)
    requires draft.size == s.imports[id].size && draft.expiresAt == s.imports[id].expiresAt
    ensures Core(Rewrite(s, id, draft))
  {
    RewriteIsAccounted(s, id, draft);
    DraftChangeKeepsCore(s, Rewrite(s, id, draft));
  }

  lemma RewriteKeepsExpiries(s: State, id: string, draft: Draft)
    requires id in s.imports && draft.expiresAt == s.imports[id].expiresAt && draft.claimed == s.imports[id].claimed
    ensures Expiries(Rewrite(s, id, draft)) == Expiries(s)
  {
    var r := Rewrite(s, id, draft);
    forall e <- Expiries(s) ensures e in Expiries(r) {
      if i: string :| i in s.imports && !s.imports[i].claimed && s.imports[i].expiresAt == e {
        assert r.imports[i].expiresAt == e;
      }
    }
  }

  lemma DeleteKeepsInv(s: State, id: string, now: Instant)
    requires Inv(s)
    ensures Inv(Sync(DeleteImport(s, id), now))
  {
    DeleteImportKeepsCore(s, id);
    SyncKeepsInv(DeleteImport(s, id), now);
  }

  lemma SealKeepsInv(s: State, id: string, ds: seq<Disposition>, now: Instant)
    requires Inv(s)
    ensures Inv(SealDraft(s, id, ds, now))
  {
    if Lapsed(s, id, now) {
      DeleteKeepsInv(s, id, now);
    } else if SealDraftError(s, id, ds, now).None? {
      var draft := Decide(s.imports[id], ds);
      SealingDecidesEveryCandidate(s.imports[id], TrimAll(ds));
      RewriteKeepsCore(s, id, draft);
      RewriteKeepsExpiries(s, id, draft);
      FewerKeepsCovered(s, Rewrite(s, id, draft));
    }
  }

  lemma ClaimDraftKeepsInv(s: State, id: string, now: Instant)
    requires Inv(s)
    ensures Inv(ClaimDraft(s, id, now))
  {
    if Lapsed(s, id, now) {
      DeleteKeepsInv(s, id, now);
    } else if ClaimError(s, id, now).None? {
      var draft := s.imports[id].(claimed := true);
      RewriteKeepsCore(s, id, draft);
      SyncKeepsInv(Rewrite(s, id, draft), now);
    }
  }

  lemma ReleaseDraftKeepsInv(s: State, id: string, now: Instant)
    requires Inv(s)
    ensures Inv(ReleaseDraft(s, id, now))
  {
    if id in s.imports && s.imports[id].claimed && s.imports[id].expiresAt <= now {
      DeleteKeepsInv(s, id, now);
    } else if id in s.imports && s.imports[id].claimed {
      var draft := s.imports[id].(claimed := false);
      RewriteKeepsCore(s, id, draft);
      SyncKeepsInv(Rewrite(s, id, draft), now);
    }
  }

  lemma DraftStepKeepsInv(s: State, e: Event)
    requires Inv(s) && Enabled(s, e) && OnDrafts(e)
    ensures Inv(DraftNext(s, e))
  {
    match e
    case ReserveEvent(t, raw, now) => ReserveKeepsInv(s, t, raw, now);
    case UnreserveEvent(t) => UnreserveKeepsInv(s, t);
    case StageEvent(t, id, draft, now) => StageKeepsInv(s, t, id, draft, now);
    case SealEvent(id, ds, now) => SealKeepsInv(s, id, ds, now);
    case ClaimDraftEvent(id, now) => ClaimDraftKeepsInv(s, id, now);
    case ReleaseDraftEvent(id, now) => ReleaseDraftKeepsInv(s, id, now);
    case FinalizeDraftEvent(id, now) => DeleteKeepsInv(s, id, now);
    case CancelDraftEvent(id, now) => DeleteKeepsInv(s, id, now);
  }

  lemma LoginStepKeepsInv(s: State, e: Event)
    requires Inv(s) && Enabled(s, e) && !OnDrafts(e)
    ensures Inv(LoginNext(s, e))
  {
    match e
    case BeginCheckEvent(now) => BeginCheckKeepsInv(s, now);
    case BeginStoreEvent(l, st, now) => BeginStoreKeepsInv(s, l, st, now);
    case BeginFailsEvent => BeginFailsKeepsInv(s);
    case ExpireEvent(epoch, now) => ExpireKeepsInv(s, epoch, now);
    case ReconcileEvent(now) => ReconcileKeepsInv(s, now);
    case StopEndpointEvent(now) => StopEndpointKeepsInv(s, now);
    case ShutdownEvent => ShutdownKeepsInv(s);
    case PollEvent(now) => PollKeepsInv(s, "", now);
    case FinalizeLoginEvent(l, now) => PollKeepsInv(s, l, now);
    case ClaimLoginEvent(st, now) => ClaimLoginKeepsInv(s, st, now);
    case CancelLoginEvent(st, now) => CancelLoginKeepsInv(s, st, now);
    case ExchangeFailedEvent(login, now) => ExchangeFailedKeepsInv(s, login, now);
    case ExchangeDoneEvent(login, acc, now) => ExchangeDoneKeepsInv(s, login, acc, now);
  }

  lemma InitialInv()
    ensures Inv(INITIAL)
  {
    NothingHeld();
    assert Expiries(INITIAL) == {};
  }

  lemma {:induction false} RunsKeepInv(run: seq<Event>)
    requires After(run).Some?
    ensures Inv(After(run).value)
  {
    if run == [] {
      InitialInv();
    } else {
      RunsKeepInv(run[..|run| - 1]);
      var before, e := After(run[..|run| - 1]).value, run[|run| - 1];
      if OnDrafts(e) { DraftStepKeepsInv(before, e); } else { LoginStepKeepsInv(before, e); }
    }
  }

  lemma ReachableIsUsable(run: seq<Event>)
    requires After(run).Some?
    ensures Usable(After(run).value)
  {
    RunsKeepInv(run);
  }

  // ---- what holds in every run ----

  /**
   Slots and bytes always equal the staged drafts plus the outstanding reservations and stay
   within 32 drafts and 32 MiB, shutdown during staging included.
   */
  lemma CapacityIsConserved(run: seq<Event>)
    requires After(run).Some?
    ensures var s := After(run).value;
            s.slots == |s.imports| + |s.reserved| <= MAX_DRAFTS &&
            s.bytes == Held(s.imports) + Total(s.reserved) <= MAX_AGGREGATE_BYTES
  {
    RunsKeepInv(run);
  }

  /** The pending maps agree, and a pending login always has an active endpoint. */
  lemma PendingLoginsAreServed(run: seq<Event>)
    requires After(run).Some?
    ensures MapsAgree(After(run).value)
    ensures After(run).value.byLogin != map[] ==> After(run).value.callbackActive
  {
    RunsKeepInv(run);
  }

  /** The section of a claim finds the state value. */
  ghost predicate Claims(s: State, state: string, now: Instant) {
    state in Prune(s, now).byState
  }

  /** Claimed states and the shutdown flag only ever grow. */
  ghost predicate Progresses(s: State, s': State) {
    && s.claimedStates <= s'.claimedStates
    && (s.shutdown ==> s'.shutdown)
  }

  ghost predicate SameClaims(s: State, s': State) {
    s'.claimedStates == s.claimedStates && s'.shutdown == s.shutdown
  }

  lemma ReserveKeepsClaims(s: State, ticket: nat, raw: nat, now: Instant)
    ensures SameClaims(s, Reserve(s, ticket, raw, now))
  {
  }

  lemma StageKeepsClaims(s: State, ticket: nat, id: Option<string>, draft: Draft, now: Instant)
    requires ticket in s.reserved
    ensures SameClaims(s, Stage(s, ticket, id, draft, now))
  {
  }

  lemma SealKeepsClaims(s: State, id: string, ds: seq<Disposition>, now: Instant)
    ensures SameClaims(s, SealDraft(s, id, ds, now))
  {
  }

  lemma ReviewKeepsClaims(s: State, id: string, now: Instant)
    ensures SameClaims(s, ClaimDraft(s, id, now)) && SameClaims(s, ReleaseDraft(s, id, now))
    ensures SameClaims(s, FinalizeDraft(s, id, now)) && SameClaims(s, CancelDraft(s, id, now))
  {
  }

  lemma DraftStepKeepsClaims(s: State, e: Event)
    requires Enabled(s, e) && OnDrafts(e)
    ensures SameClaims(s, DraftNext(s, e))
  {
    match e
    case ReserveEvent(t, raw, now) => ReserveKeepsClaims(s, t, raw, now);
    case UnreserveEvent(t) =>
    case StageEvent(t, id, draft, now) => StageKeepsClaims(s, t, id, draft, now);
    case SealEvent(id, ds, now) => SealKeepsClaims(s, id, ds, now);
    case ClaimDraftEvent(id, now) => ReviewKeepsClaims(s, id, now);
    case ReleaseDraftEvent(id, now) => ReviewKeepsClaims(s, id, now);
    case FinalizeDraftEvent(id, now) => ReviewKeepsClaims(s, id, now);
    case CancelDraftEvent(id, now) => ReviewKeepsClaims(s, id, now);
  }

  lemma EndpointKeepsClaims(s: State, e: Event)
    requires Enabled(s, e)
    requires e.BeginCheckEvent? || e.BeginStoreEvent? || e.BeginFailsEvent? || e.ExpireEvent? || e.ReconcileEvent? || e.StopEndpointEvent?
    ensures SameClaims(s, LoginNext(s, e))
  {
  }

  lemma PollKeepsClaims(s: State, now: Instant)
    ensures SameClaims(s, Poll(s, now))
  {
  }

  lemma FinalizeKeepsClaims(s: State, id: string, now: Instant)
    ensures SameClaims(s, FinalizeLogin(s, id, now))
  {
    PollKeepsClaims(s, now);
  }

  lemma CancelKeepsClaims(s: State, state: string, now: Instant)
    ensures SameClaims(s, CancelLogin(s, state, now))
  {
  }

  lemma ExchangeKeepsClaims(s: State, login: PendingLogin, accountID: Option<string>, now: Instant)
    ensures SameClaims(s, ExchangeFailed(s, login, now)) && SameClaims(s, ExchangeDone(s, login, accountID, now))
  {
  }

  lemma LoginKeepsClaims(s: State, e: Event)
    requires Enabled(s, e)
    requires e.PollEvent? || e.FinalizeLoginEvent? || e.CancelLoginEvent? || e.ExchangeFailedEvent? || e.ExchangeDoneEvent?
    ensures SameClaims(s, LoginNext(s, e))
  {
    match e
    case PollEvent(now) => PollKeepsClaims(s, now);
    case FinalizeLoginEvent(id, now) => FinalizeKeepsClaims(s, id, now);
    case CancelLoginEvent(st, now) => CancelKeepsClaims(s, st, now);
    case ExchangeFailedEvent(login, now) => ExchangeKeepsClaims(s, login, None, now);
    case ExchangeDoneEvent(login, acc, now) => ExchangeKeepsClaims(s, login, acc, now);
  }

  /** Only a callback claims a state, and only a shutdown shuts down. */
  lemma OtherLoginStepKeepsClaims(s: State, e: Event)
    requires Enabled(s, e) && !OnDrafts(e) && !e.ClaimLoginEvent? && !e.ShutdownEvent?
    ensures SameClaims(s, LoginNext(s, e))
  {
    if e.PollEvent? || e.FinalizeLoginEvent? || e.CancelLoginEvent? || e.ExchangeFailedEvent? || e.ExchangeDoneEvent? {
      LoginKeepsClaims(s, e);
    } else {
      EndpointKeepsClaims(s, e);
    }
  }

  lemma ShutdownKeepsClaimedStates(s: State)
    ensures Shutdown(s).claimedStates == s.claimedStates && Shutdown(s).shutdown
  {
  }

  lemma LoginStepProgresses(s: State, e: Event)
    requires Enabled(s, e) && !OnDrafts(e)
    ensures Progresses(s, LoginNext(s, e))
  {
    if e.ShutdownEvent? { ShutdownKeepsClaimedStates(s); }
    else if !e.ClaimLoginEvent? { OtherLoginStepKeepsClaims(s, e); }
  }

  lemma DraftStepProgresses(s: State, e: Event)
    requires Enabled(s, e) && OnDrafts(e)
    ensures Progresses(s, DraftNext(s, e))
  {
    DraftStepKeepsClaims(s, e);
  }

  /** A state value is claimed at most once: a successful claim finds it unclaimed and marks it for good. */
  lemma ClaimedAtMostOnce(run: seq<Event>, state: string, now: Instant)
    requires After(run).Some? && Claims(After(run).value, state, now)
    ensures state !in After(run).value.claimedStates
    ensures state in ClaimLogin(After(run).value, state, now).claimedStates
  {
    RunsKeepInv(run);
  }

  /** The step is a callback that claims the state value. */
  ghost predicate ClaimsState(s: State, e: Event, state: string) {
    e.ClaimLoginEvent? && e.state == state && Claims(s, state, e.now)
  }

  /** How often the run claims the state value. */
  ghost function ClaimCount(run: seq<Event>, state: string): nat
    requires After(run).Some?
  {
    if run == [] then 0
    else
      var front := run[..|run| - 1];
      ClaimCount(front, state) + if ClaimsState(After(front).value, run[|run| - 1], state) then 1 else 0
  }

  lemma LoginStepClaims(s: State, e: Event, state: string)
    requires Enabled(s, e) && !OnDrafts(e)
    ensures state in LoginNext(s, e).claimedStates <==> state in s.claimedStates || ClaimsState(s, e, state)
  {
    if e.ShutdownEvent? {
      ShutdownKeepsClaimedStates(s);
    } else if !e.ClaimLoginEvent? {
      OtherLoginStepKeepsClaims(s, e);
    } else {
      CallbackClaims(s, e.state, e.now);
    }
  }

  lemma CallbackClaims(s: State, state: string, now: Instant)
    ensures ClaimLogin(s, state, now).claimedStates ==
            if Claims(s, state, now) then s.claimedStates + {state} else s.claimedStates
  {
  }

  /** No run claims a state value twice. */
  lemma {:induction false} NoStateIsClaimedTwice(run: seq<Event>, state: string)
    requires After(run).Some?
    ensures ClaimCount(run, state) == if state in After(run).value.claimedStates then 1 else 0
  {
    if run != [] {
      var front, e := run[..|run| - 1], run[|run| - 1];
      NoStateIsClaimedTwice(front, state);
      var s := After(front).value;
      if OnDrafts(e) { DraftStepKeepsClaims(s, e); } else { LoginStepClaims(s, e, state); }
      if ClaimsState(s, e, state) { ClaimedAtMostOnce(front, state, e.now); }
    }
  }

  lemma ClaimsAreForGood(s: State, e: Event)
    requires Enabled(s, e)
    ensures s.claimedStates <= Next(s, e).claimedStates
  {
    if OnDrafts(e) { DraftStepProgresses(s, e); } else { LoginStepProgresses(s, e); }
  }

  /** In every run each expiry is covered by a timer of the current epoch. */
  lemma EveryExpiryIsCovered(run: seq<Event>)
    requires After(run).Some?
    ensures Covered(After(run).value)
  {
    RunsKeepInv(run);
  }

  /** A callback of an old epoch changes nothing; one of the current epoch leaves nothing expired. */
  lemma OnlyTheCurrentTimerExpires(s: State, epoch: nat, now: Instant)
    ensures epoch != s.epoch ==> Expire(s, epoch, now) == s
    ensures epoch == s.epoch && !s.shutdown ==> AllAfter(Expire(s, epoch, now), now)
  {
    PruneLeavesNothingExpired(Disarmed(s), now);
    var p := Idling(Prune(Disarmed(s), now));
    assert Expiries(p) == Expiries(Prune(Disarmed(s), now));
    assert Expiries(Sync(p, now)) == Expiries(p);
  }

  /** When the real clock reads armed, a timer armed with the reading armedAt fires after the delay due - armedAt. */
  function FiresAt(timer: Timer, armed: Instant): int {
    armed + (timer.due - timer.armedAt)
  }

  /**
   The earliest expiry e is met on time exactly when the clock reading used to arm the timer
   was current and e had not passed. A reading taken before the lock was obtained makes the
   timer late by its age.
   */
  lemma TimerIsOnTimeIffReadingIsCurrent(s: State, now: Instant, armed: Instant, e: Instant)
    requires !s.shutdown && IsLeast(e, Expiries(s)) && now <= armed
    ensures FiresAt(Sync(s, now).timer.value, armed) <= e <==> armed == now && now <= e
    ensures now <= e ==> FiresAt(Sync(s, now).timer.value, armed) == e + (armed - now)
  {
  }

  /** Once shut down, the service stays shut down and holds no login, credential or draft. */
  lemma NothingIsAdmittedAfterShutdown(run: seq<Event>, e: Event)
    requires After(run).Some? && After(run).value.shutdown && Enabled(After(run).value, e)
    ensures var s := Next(After(run).value, e);
            s.shutdown && s.byState == map[] && s.byLogin == map[] && s.completed == map[] && s.imports == map[]
  {
    RunsKeepInv(run);
    var before := After(run).value;
    if OnDrafts(e) {
      DraftStepKeepsInv(before, e);
      DraftStepProgresses(before, e);
    } else {
      LoginStepKeepsInv(before, e);
      LoginStepProgresses(before, e);
    }
  }

  ghost predicate Spares(s: State, s': State, id: string) {
    id in s.imports && id in s'.imports && s'.imports[id] == s.imports[id]
  }

  lemma PruneSparesClaimed(s: State, id: string, now: Instant)
    requires id in s.imports && s.imports[id].claimed
    ensures Spares(s, PruneImports(s, now), id) && Spares(s, Prune(s, now), id) && Spares(s, Prune(Disarmed(s), now), id)
  {
  }

  lemma LoginStepSparesClaimed(s: State, e: Event, id: string)
    requires Enabled(s, e) && !OnDrafts(e) && id in s.imports && s.imports[id].claimed && e != ShutdownEvent
    ensures Spares(s, LoginNext(s, e), id)
  {
    match e
    case BeginCheckEvent(now) => PruneSparesClaimed(s, id, now);
    case BeginStoreEvent(l, st, now) =>
    case BeginFailsEvent =>
    case ExpireEvent(epoch, now) => PruneSparesClaimed(s, id, now);
    case ReconcileEvent(now) => PruneSparesClaimed(s, id, now);
    case StopEndpointEvent(now) =>
    case PollEvent(now) => PruneSparesClaimed(s, id, now);
    case FinalizeLoginEvent(l, now) => PruneSparesClaimed(s, id, now);
    case ClaimLoginEvent(st, now) => PruneSparesClaimed(s, id, now);
    case CancelLoginEvent(st, now) => PruneSparesClaimed(s, id, now);
    case ExchangeFailedEvent(login, now) =>
    case ExchangeDoneEvent(login, acc, now) => PruneSparesClaimed(ForgetExchange(s, login), id, now);
  }

  lemma SealSparesSealed(s: State, i: string, ds: seq<Disposition>, now: Instant, id: string)
    requires id in s.imports && s.imports[id].claimed && s.imports[id].isSealed
    ensures Spares(s, SealDraft(s, i, ds, now), id)
  {
    if i == id {
      assert SealDraftError(s, i, ds, now) == Some(AlreadySealed);
    } else if i in s.imports {
      RewriteSpares(s, i, Decide(s.imports[i], ds), now, id);
    }
  }

  lemma StageSparesClaimed(s: State, t: nat, generated: Option<string>, draft: Draft, now: Instant, id: string)
    requires t in s.reserved && id in s.imports && s.imports[id].claimed
    ensures Spares(s, Stage(s, t, generated, draft, now), id)
  {
    PruneSparesClaimed(s, id, now);
  }

  lemma RewriteSpares(s: State, i: string, draft: Draft, now: Instant, id: string)
    requires id in s.imports && i != id
    ensures Spares(s, Rewrite(s, i, draft), id) && Spares(s, Sync(Rewrite(s, i, draft), now), id)
  {
  }

  lemma ClaimSparesClaimed(s: State, i: string, now: Instant, id: string)
    requires id in s.imports && s.imports[id].claimed
    ensures Spares(s, ClaimDraft(s, i, now), id)
  {
    if i != id && i in s.imports { RewriteSpares(s, i, s.imports[i].(claimed := true), now, id); }
  }

  lemma ReleaseSparesOthers(s: State, i: string, now: Instant, id: string)
    requires id in s.imports && i != id
    ensures Spares(s, ReleaseDraft(s, i, now), id)
  {
    if i in s.imports { RewriteSpares(s, i, s.imports[i].(claimed := false), now, id); }
  }

  lemma RemovalSparesClaimed(s: State, e: Event, id: string)
    requires Enabled(s, e) && id in s.imports && s.imports[id].claimed
    requires e.UnreserveEvent? || (e.FinalizeDraftEvent? && e.id != id) || e.CancelDraftEvent?
    ensures Spares(s, DraftNext(s, e), id)
  {
  }

  lemma DraftStepSparesClaimed(s: State, e: Event, id: string)
    requires Enabled(s, e) && OnDrafts(e) && id in s.imports && s.imports[id].claimed && s.imports[id].isSealed
    requires !(e.ReleaseDraftEvent? && e.id == id) && !(e.FinalizeDraftEvent? && e.id == id)
    ensures Spares(s, DraftNext(s, e), id)
  {
    match e
    case SealEvent(i, ds, now) => SealSparesSealed(s, i, ds, now, id);
    case StageEvent(t, generated, draft, now) => StageSparesClaimed(s, t, generated, draft, now, id);
    case ClaimDraftEvent(i, now) => ClaimSparesClaimed(s, i, now, id);
    case ReleaseDraftEvent(i, now) => ReleaseSparesOthers(s, i, now, id);
    case ReserveEvent(t, raw, now) => PruneSparesClaimed(s, id, now);
    case _ => RemovalSparesClaimed(s, e, id);
  }

  /** Only its own release or finalization, or a shutdown, changes a claimed draft: not expiry, pruning or cancellation. */
  lemma ClaimedDraftIsStable(run: seq<Event>, e: Event, id: string)
    requires After(run).Some? && Enabled(After(run).value, e) && e != ShutdownEvent
    requires id in After(run).value.imports && After(run).value.imports[id].claimed
    requires !(e.ReleaseDraftEvent? && e.id == id) && !(e.FinalizeDraftEvent? && e.id == id)
    ensures Spares(After(run).value, Next(After(run).value, e), id)
  {
    var s := After(run).value;
    assert WellFormed(s.imports[id]) by { RunsKeepInv(run); }
    if OnDrafts(e) { DraftStepSparesClaimed(s, e, id); } else { LoginStepSparesClaimed(s, e, id); }
  }

  /** While a draft is claimed, every further claim is refused. */
  lemma OneClaimantAtATime(s: State, id: string, now: Instant)
    requires id in s.imports && s.imports[id].claimed && s.imports[id].isSealed
    ensures ClaimError(s, id, now) == Some(InProgress)
  {
  }

  /** The step hands the draft to a claimant. */
  ghost predicate HandsOut(s: State, e: Event, id: string) {
    e.ClaimDraftEvent? && e.id == id && ClaimError(s, id, e.now).None?
  }

  /** The step may end a claim on the draft. */
  predicate EndsClaim(e: Event, id: string) {
    (e.ReleaseDraftEvent? && e.id == id) || (e.FinalizeDraftEvent? && e.id == id) || e == ShutdownEvent
  }

  lemma {:induction false} PrefixRuns(run: seq<Event>, i: nat)
    requires After(run).Some? && i <= |run|
    ensures After(run[..i]).Some?
  {
    if i == |run| {
      assert run[..i] == run;
    } else {
      assert run[..|run| - 1][..i] == run[..i];
      PrefixRuns(run[..|run| - 1], i);
    }
  }

  lemma LastStep(run: seq<Event>, e: Event)
    requires After(run + [e]).Some?
    ensures After(run).Some? && Enabled(After(run).value, e) && After(run + [e]) == Some(Next(After(run).value, e))
  {
    assert (run + [e])[..|run|] == run;
  }

  predicate IsClaimed(s: State, id: string) {
    id in s.imports && s.imports[id].claimed
  }

  lemma StepKeepsClaim(run: seq<Event>, e: Event, id: string)
    requires After(run).Some? && Enabled(After(run).value, e)
    requires IsClaimed(After(run).value, id) && !EndsClaim(e, id)
    ensures IsClaimed(Next(After(run).value, e), id)
  {
    ClaimedDraftIsStable(run, e, id);
  }

  lemma HandingOutClaims(s: State, e: Event, id: string)
    requires Enabled(s, e) && HandsOut(s, e, id)
    ensures IsClaimed(Next(s, e), id)
  {
  }

  ghost predicate ClaimedAt(run: seq<Event>, i: nat, id: string)
    requires i <= |run|
  {
    After(run[..i]).Some? && IsClaimed(After(run[..i]).value, id)
  }

  ghost predicate HandsOutAt(run: seq<Event>, i: nat, id: string)
    requires i < |run|
  {
    After(run[..i]).Some? && HandsOut(After(run[..i]).value, run[i], id)
  }

  lemma ClaimAdvances(run: seq<Event>, i: nat, id: string)
    requires After(run).Some? && i < |run|
    requires HandsOutAt(run, i, id) || (ClaimedAt(run, i, id) && !EndsClaim(run[i], id))
    ensures ClaimedAt(run, i + 1, id)
  {
    PrefixRuns(run, i + 1);
    assert run[..i + 1] == run[..i] + [run[i]];
    LastStep(run[..i], run[i]);
    if HandsOutAt(run, i, id) {
      HandingOutClaims(After(run[..i]).value, run[i], id);
    } else {
      StepKeepsClaim(run[..i], run[i], id);
    }
  }

  ghost predicate Unended(run: seq<Event>, i: nat, id: string) {
    forall k :: i <= k < |run| ==> !EndsClaim(run[k], id)
  }

  lemma {:induction false} ClaimLasts(run: seq<Event>, i: nat, id: string)
    requires After(run).Some? && i <= |run| && ClaimedAt(run, i, id) && Unended(run, i, id)
    ensures IsClaimed(After(run).value, id)
  {
    if i == |run| {
      assert run[..i] == run;
    } else {
      var front := run[..|run| - 1];
      assert front[..i] == run[..i];
      ClaimLasts(front, i, id);
      StepKeepsClaim(front, run[|run| - 1], id);
    }
  }

  lemma ClaimedIsNotHandedOut(s: State, e: Event, id: string)
    requires IsClaimed(s, id)
    ensures !HandsOut(s, e, id)
  {
    if e.ClaimDraftEvent? && e.id == id && s.imports[id].isSealed { OneClaimantAtATime(s, id, e.now); }
  }

  /**
   A draft handed out at step i is not handed out again by the next step of a run in which no
   step since then released or finalized it or shut the service down.
   */
  lemma ClaimsAreSeparated(run: seq<Event>, i: nat, next: Event, id: string)
    requires After(run).Some? && i < |run| && HandsOutAt(run, i, id) && Unended(run, i + 1, id)
    ensures !HandsOut(After(run).value, next, id)
  {
    ClaimAdvances(run, i, id);
    ClaimLasts(run, i + 1, id);
    ClaimedIsNotHandedOut(After(run).value, next, id);
  }

  /** A claim succeeds only on an unclaimed, sealed draft, and every candidate it hands out carries a valid disposition. */
  lemma ClaimHandsOutDecidedCandidates(run: seq<Event>, id: string, now: Instant)
    requires After(run).Some? && ClaimError(After(run).value, id, now).None?
    ensures var draft := After(run).value.imports[id];
            && !draft.claimed && draft.isSealed && Decided(draft)
            && (forall c <- draft.order :: c in draft.candidates)
            && ClaimDraft(After(run).value, id, now).imports[id] == draft.(claimed := true)
  {
    RunsKeepInv(run);
    var draft := After(run).value.imports[id];
    assert WellFormed(draft);
    forall c <- draft.order ensures c in draft.candidates {
      assert c in (set x | x in draft.order);
    }
  }
}
