/**
 The service object. Each method is one critical section of the service lock, written as the
 code performs it: loops over the maps, counters raised and lowered with saturation, and a
 timer re-armed for the earliest expiry. Each is proved to produce the state that the
 functions of AuthSessions give.
 */
module AuthService {
  import opened Collections
  import opened ImportDrafts
  import opened AuthSessions
  import Text

  // The three searches for the earliest expiry. The unset time, 0, stands for "none yet".

  method EarliestPending(logins: map<string, PendingLogin>) returns (earliest: Instant)
    requires forall l <- logins :: logins[l].expiresAt > 0
    ensures earliest == 0 <==> logins == map[]
    ensures earliest == 0 || exists l <- logins :: logins[l].expiresAt == earliest
    ensures forall l <- logins :: earliest <= logins[l].expiresAt
  {
    earliest := 0;
    var keys := logins.Keys;
    while keys != {}
      invariant keys <= logins.Keys
      invariant earliest == 0 ==> keys == logins.Keys
      invariant earliest == 0 || exists l <- logins :: logins[l].expiresAt == earliest
      invariant forall l <- logins.Keys - keys :: earliest <= logins[l].expiresAt
      decreases keys
    {
      var l :| l in keys;
      if earliest == 0 || logins[l].expiresAt < earliest {
        earliest := logins[l].expiresAt;
      }
      keys := keys - {l};
    }
  }

  method EarliestCompleted(logins: map<string, CompletedLogin>, start: Instant) returns (earliest: Instant)
    requires forall l <- logins :: logins[l].expiresAt > 0
    ensures earliest == 0 <==> start == 0 && logins == map[]
    ensures earliest == start || exists l <- logins :: logins[l].expiresAt == earliest
    ensures start != 0 ==> earliest <= start
    ensures forall l <- logins :: earliest <= logins[l].expiresAt
  {
    earliest := start;
    var keys := logins.Keys;
    while keys != {}
      invariant keys <= logins.Keys
      invariant earliest == 0 ==> start == 0 && keys == logins.Keys
      invariant earliest == start || exists l <- logins :: logins[l].expiresAt == earliest
      invariant start != 0 ==> earliest <= start
      invariant forall l <- logins.Keys - keys :: 0 < earliest <= logins[l].expiresAt
      decreases keys
    {
      var l :| l in keys;
      if earliest == 0 || logins[l].expiresAt < earliest {
        earliest := logins[l].expiresAt;
      }
      keys := keys - {l};
    }
  }

  method EarliestDraft(drafts: map<string, Draft>, start: Instant) returns (earliest: Instant)
    requires forall i <- drafts :: drafts[i].expiresAt > 0
    ensures earliest == 0 <==> start == 0 && forall i <- drafts :: drafts[i].claimed
    ensures earliest == start || exists i <- drafts :: !drafts[i].claimed && drafts[i].expiresAt == earliest
    ensures start != 0 ==> earliest <= start
    ensures forall i <- drafts :: drafts[i].claimed || earliest <= drafts[i].expiresAt
  {
    earliest := start;
    var keys := drafts.Keys;
    while keys != {}
      invariant keys <= drafts.Keys
      invariant earliest == 0 ==> start == 0 && forall i <- drafts.Keys - keys :: drafts[i].claimed
      invariant earliest == start || exists i <- drafts :: !drafts[i].claimed && drafts[i].expiresAt == earliest
      invariant start != 0 ==> earliest <= start
      invariant forall i <- drafts.Keys - keys :: drafts[i].claimed || 0 < earliest <= drafts[i].expiresAt
      decreases keys
    {
      var i :| i in keys;
      if !drafts[i].claimed && (earliest == 0 || drafts[i].expiresAt < earliest) {
        earliest := drafts[i].expiresAt;
      }
      keys := keys - {i};
    }
  }

  method EarliestExpiry(pending: map<string, PendingLogin>, completed: map<string, CompletedLogin>,
                        drafts: map<string, Draft>)
    returns (earliest: Instant)
    requires forall l <- pending :: pending[l].expiresAt > 0
    requires forall l <- completed :: completed[l].expiresAt > 0
    requires forall i <- drafts :: drafts[i].expiresAt > 0
    ensures earliest == 0 <==> ExpiryTimes(pending, completed, drafts) == {}
    ensures earliest != 0 ==> IsLeast(earliest, ExpiryTimes(pending, completed, drafts))
  {
    earliest := EarliestPending(pending);
    earliest := EarliestCompleted(completed, earliest);
    earliest := EarliestDraft(drafts, earliest);
    ghost var times := ExpiryTimes(pending, completed, drafts);
    if earliest != 0 {
      assert earliest in times;
    } else {
      assert times == {};
    }
  }

  /** A draft's candidates in document order. */
  method InOrder(draft: Draft) returns (candidates: seq<Candidate>)
    requires WellFormed(draft)
    ensures |candidates| == |draft.order|
    ensures forall k :: 0 <= k < |draft.order| ==>
              draft.order[k] in draft.candidates && candidates[k] == draft.candidates[draft.order[k]]
  {
    candidates := [];
    for i := 0 to |draft.order|
      invariant |candidates| == i
      invariant forall k :: 0 <= k < i ==>
                  draft.order[k] in draft.candidates && candidates[k] == draft.candidates[draft.order[k]]
    {
      assert draft.order[i] in (set x | x in draft.order);
      candidates := candidates + [draft.candidates[draft.order[i]]];
    }
  }

  class Service {
    var byState: map<string, PendingLogin>
    var byLogin: map<string, PendingLogin>
    var completed: map<string, CompletedLogin>
    var imports: map<string, Draft>
    var slots: int
    var bytes: int
    var callbackActive: bool
    var timer: Option<Timer>
    var epoch: nat
    var isShutdown: bool

    // The lifecycle lock's holder, the previews' reservations, and histories.
    ghost var lifecycle: Lifecycle
    ghost var reserved: map<nat, nat>
    ghost var issuedIDs: set<string>
    ghost var issuedStates: set<string>
    ghost var claimedStates: set<string>
    ghost var exchanging: set<PendingLogin>

    ghost function Now(): State
      reads this
    {
      State(byState, byLogin, completed, imports, slots, bytes, callbackActive, timer, epoch, isShutdown,
            lifecycle, reserved, issuedIDs, issuedStates, claimedStates, exchanging)
    }

    constructor ()
      ensures Now() == INITIAL
    {
      byState, byLogin, completed, imports := map[], map[], map[], map[];
      slots, bytes, callbackActive, timer, epoch, isShutdown := 0, 0, false, None, 0, false;
      lifecycle, reserved := Idle, map[];
      issuedIDs, issuedStates, claimedStates, exchanging := {}, {}, {}, {};
    }

    // ---- helpers that run under the lock ----

    method SyncTimer(now: Instant)
      requires Dated(Now())
      modifies this`epoch, this`timer
      ensures Now() == Sync(old(Now()), now)
    {
      epoch, timer := epoch + 1, None;
      if isShutdown {
        return;
      }
      var earliest := EarliestExpiry(byLogin, completed, imports);
      if earliest == 0 {
        return;
      }
      var delay := if earliest > now then earliest - now else 0;
      timer := Some(Timer(epoch, now, now + delay));
    }

    method DeletePendingLocked(login: PendingLogin)
      modifies this`byState, this`byLogin
      ensures Now() == DeletePending(old(Now()), login)
    {
      byState := byState - {login.state};
      byLogin := byLogin - {login.loginID};
    }

    /** Gives one slot and the bytes back, with saturation. */
    method FreeLocked(size: nat)
      modifies this`slots, this`bytes
      ensures slots == FreeSlot(old(slots)) && bytes == FreeBytes(old(bytes), size)
    {
      if slots > 0 {
        slots := slots - 1;
      }
      if size >= bytes {
        bytes := 0;
      } else {
        bytes := bytes - size;
      }
    }

    /** The saturating subtractions are exact. */
    method DeleteImportLocked(id: string)
      requires Backed(imports, slots, bytes)
      modifies this`imports, this`slots, this`bytes
      ensures Now() == DeleteImport(old(Now()), id)
      ensures Backed(imports, slots, bytes)
      ensures imports == old(imports) - {id}
      ensures slots - |imports| == old(slots - |imports|)
      ensures bytes - Held(imports) == old(bytes - Held(imports))
    {
      if id !in imports {
        assert imports == imports - {id};
        return;
      }
      SizesRemove(imports, id);
      var size := imports[id].size;
      imports := imports - {id};
      FreeLocked(size);
    }

    method PruneImportsLocked(now: Instant)
      requires Backed(imports, slots, bytes)
      modifies this`imports, this`slots, this`bytes
      ensures Now() == PruneImports(old(Now()), now)
      ensures Backed(imports, slots, bytes)
    {
      ghost var before := imports;
      var keys := imports.Keys;
      while keys != {}
        invariant keys <= imports.Keys <= before.Keys
        invariant forall i <- imports :: imports[i] == before[i]
        invariant forall i <- before :: i in imports <==> i in keys || before[i].claimed || before[i].expiresAt > now
        invariant Backed(imports, slots, bytes)
        invariant slots - |imports| == old(slots - |imports|)
        invariant bytes - Held(imports) == old(bytes - Held(imports))
        decreases keys
      {
        var i :| i in keys;
        if !imports[i].claimed && imports[i].expiresAt <= now {
          DeleteImportLocked(i);
        }
        keys := keys - {i};
      }
      assert imports == Unexpired(before, now);
      assert slots == old(slots) - (|before| - |imports|);
      assert bytes == old(bytes) - (Held(before) - Held(imports));
    }

    method PruneLoginsLocked(now: Instant)
      requires forall l <- byLogin :: byLogin[l].loginID == l
      modifies this`byState, this`byLogin, this`completed
      ensures Now() == PruneLogins(old(Now()), now)
    {
      PrunePendingLocked(now);
      PruneCompletedLocked(now);
    }

    method PrunePendingLocked(now: Instant)
      requires forall l <- byLogin :: byLogin[l].loginID == l
      modifies this`byState, this`byLogin
      ensures byState == PruneLogins(old(Now()), now).byState
      ensures byLogin == PruneLogins(old(Now()), now).byLogin
    {
      ghost var before := byLogin;
      var keys := byLogin.Keys;
      ghost var gone: set<string> := {};
      while keys != {}
        invariant keys <= byLogin.Keys
        invariant forall l <- byLogin :: l in before && byLogin[l] == before[l]
        invariant forall l <- before :: l in byLogin <==> l in keys || before[l].expiresAt > now
        invariant byState == old(byState) - gone
        invariant gone == set l <- before | l !in keys && before[l].expiresAt <= now :: before[l].state
        decreases keys
      {
        var l :| l in keys;
        if byLogin[l].expiresAt <= now {
          gone := gone + {before[l].state};
          var login := byLogin[l];
          byState := byState - {login.state};
          byLogin := byLogin - {login.loginID};
        }
        keys := keys - {l};
      }
      assert gone == ExpiredStates(old(Now()), now);
    }

    method PruneCompletedLocked(now: Instant)
      modifies this`completed
      ensures completed == PruneLogins(old(Now()), now).completed
    {
      ghost var before := completed;
      var keys := completed.Keys;
      while keys != {}
        invariant keys <= completed.Keys
        invariant forall l <- completed :: l in before && completed[l] == before[l]
        invariant forall l <- before :: l in completed <==> l in keys || before[l].expiresAt > now
        decreases keys
      {
        var l :| l in keys;
        if completed[l].expiresAt <= now {
          completed := completed - {l};
        }
        keys := keys - {l};
      }
    }

    method PruneSessionsLocked(now: Instant)
      requires Usable(Now())
      modifies this`byState, this`byLogin, this`completed, this`imports, this`slots, this`bytes
      ensures Now() == Prune(old(Now()), now)
      ensures Usable(Now())
    {
      PruneLoginsLocked(now);
      PruneImportsLocked(now);
    }

    // ---- login flow ----

    /** The first section of a login start; on success the caller goes on holding the lifecycle lock. */
    method BeginCheck(now: Instant) returns (error: Option<Error>)
      requires Usable(Now()) && lifecycle.Idle?
      modifies this`byState, this`byLogin, this`completed, this`imports, this`slots, this`bytes, this`lifecycle
      ensures Now() == AuthSessions.BeginCheck(old(Now()), now)
      ensures error == if old(isShutdown) then Some(ServiceShutdown) else None
    {
      if isShutdown {
        return Some(ServiceShutdown);
      }
      PruneSessionsLocked(now);
      lifecycle := Starting;
      return None;
    }

    method BeginStore(loginID: string, state: string, now: Instant)
      requires Usable(Now()) && lifecycle.Starting?
      modifies this`byState, this`byLogin, this`callbackActive, this`timer, this`epoch, this`lifecycle,
               this`issuedIDs, this`issuedStates
      ensures Now() == AuthSessions.BeginStore(old(Now()), loginID, state, now)
    {
      AdmitPendingLocked(PendingLogin(loginID, state, now + LOGIN_TTL));
      SyncTimer(now);
    }

    method AdmitPendingLocked(login: PendingLogin)
      requires Dated(Now()) && login.expiresAt > 0
      modifies this`byState, this`byLogin, this`callbackActive, this`lifecycle, this`issuedIDs, this`issuedStates
      ensures Now() == AdmitPending(old(Now()), login)
      ensures Dated(Now())
    {
      callbackActive := true;
      byState := byState[login.state := login];
      byLogin := byLogin[login.loginID := login];
      issuedIDs, issuedStates := issuedIDs + {login.loginID}, issuedStates + {login.state};
      lifecycle := Idle;
    }

    method BeginFails()
      requires lifecycle.Starting?
      modifies this`lifecycle
      ensures Now() == AuthSessions.BeginFails(old(Now()))
    {
      lifecycle := Idle;
    }

    /** Prunes and keeps the lifecycle lock for an endpoint stop when no login is left to serve. */
    method PruneAndSync(now: Instant) returns (shouldStop: bool)
      requires Usable(Now())
      modifies this`byState, this`byLogin, this`completed, this`imports, this`slots, this`bytes, this`timer, this`epoch,
               this`lifecycle
      ensures Now() == Sync(Idling(Prune(old(Now()), now)), now)
      ensures shouldStop <==> lifecycle.Stopping?
    {
      PruneSessionsLocked(now);
      shouldStop := callbackActive && byLogin == map[];
      lifecycle := if shouldStop then Stopping else Idle;
      SyncTimer(now);
    }

    /** What the timer runs. A stale epoch does nothing. */
    method Expire(armedEpoch: nat, now: Instant) returns (shouldStop: bool)
      requires Usable(Now()) && lifecycle.Idle?
      modifies this`byState, this`byLogin, this`completed, this`imports, this`slots, this`bytes, this`timer, this`epoch,
               this`lifecycle
      ensures Now() == AuthSessions.Expire(old(Now()), armedEpoch, now)
      ensures shouldStop <==> lifecycle.Stopping?
    {
      if isShutdown || armedEpoch != epoch {
        return false;
      }
      timer := None;
      shouldStop := PruneAndSync(now);
    }

    method Reconcile(now: Instant) returns (shouldStop: bool)
      requires Usable(Now()) && lifecycle.Idle?
      modifies this`byState, this`byLogin, this`completed, this`imports, this`slots, this`bytes, this`timer, this`epoch,
               this`lifecycle
      ensures Now() == AuthSessions.Reconcile(old(Now()), now)
      ensures shouldStop <==> lifecycle.Stopping?
    {
      if isShutdown {
        return false;
      }
      shouldStop := PruneAndSync(now);
    }

    method StopEndpoint(now: Instant)
      requires Usable(Now()) && lifecycle.Stopping?
      modifies this`callbackActive, this`timer, this`epoch, this`lifecycle
      ensures Now() == AuthSessions.StopEndpoint(old(Now()), now)
    {
      callbackActive := false;
      lifecycle := Idle;
      SyncTimer(now);
    }

    method DeleteAllImportsLocked()
      requires Backed(imports, slots, bytes)
      modifies this`imports, this`slots, this`bytes
      ensures Now() == WithoutImports(old(Now()))
    {
      while imports != map[]
        invariant Backed(imports, slots, bytes)
        invariant slots - |imports| == old(slots - |imports|)
        invariant bytes - Held(imports) == old(bytes - Held(imports))
        decreases imports.Keys
      {
        var i :| i in imports;
        DeleteImportLocked(i);
      }
      NothingHeld();
    }

    method Shutdown() returns (shouldStop: bool)
      requires Backed(imports, slots, bytes) && lifecycle.Idle?
      modifies this`byState, this`byLogin, this`completed, this`imports, this`slots, this`bytes, this`timer, this`epoch,
               this`lifecycle, this`isShutdown
      ensures Now() == AuthSessions.Shutdown(old(Now()))
      ensures shouldStop <==> lifecycle.Stopping?
    {
      if isShutdown {
        return false;
      }
      ClearLocked();
      shouldStop := callbackActive;
      lifecycle := if shouldStop then Stopping else Idle;
    }

    method ClearLocked()
      requires Backed(imports, slots, bytes)
      modifies this`byState, this`byLogin, this`completed, this`imports, this`slots, this`bytes, this`timer, this`epoch,
               this`isShutdown
      ensures Now() == Cleared(old(Now()))
    {
      isShutdown, epoch, timer := true, epoch + 1, None;
      byState, byLogin, completed := map[], map[], map[];
      assert Now() == WithoutLogins(old(Now()));
      DeleteAllImportsLocked();
    }

    /** Reads a login's status: completed before pending, and expired if it is neither. */
    method Poll(loginID: string, now: Instant)
      returns (login: Option<CompletedLogin>, pending: bool, shouldReconcile: bool)
      requires Usable(Now())
      modifies this`byState, this`byLogin, this`completed, this`imports, this`slots, this`bytes, this`timer, this`epoch
      ensures Now() == AuthSessions.Poll(old(Now()), now)
      ensures login == if loginID in completed then Some(completed[loginID]) else None
      ensures pending <==> loginID !in completed && loginID in byLogin
      ensures shouldReconcile <==> Stoppable(Now())
    {
      PruneSessionsLocked(now);
      SyncTimer(now);
      shouldReconcile := callbackActive && byLogin == map[];
      login := if loginID in completed then Some(completed[loginID]) else None;
      pending := loginID !in completed && loginID in byLogin;
    }

    method FinalizeLogin(loginID: string, now: Instant) returns (error: Option<Error>)
      requires Usable(Now())
      modifies this`byState, this`byLogin, this`completed, this`imports, this`slots, this`bytes, this`timer, this`epoch
      ensures Now() == AuthSessions.FinalizeLogin(old(Now()), loginID, now)
      ensures error == if loginID in AuthSessions.Poll(old(Now()), now).completed then None else Some(NotFound)
    {
      PruneSessionsLocked(now);
      SyncTimer(now);
      if loginID !in completed {
        assert completed - {loginID} == completed;
        return Some(NotFound);
      }
      completed := completed - {loginID};
      return None;
    }

    method ClaimLogin(state: string, now: Instant) returns (login: Option<PendingLogin>)
      requires Usable(Now())
      modifies this`byState, this`byLogin, this`completed, this`imports, this`slots, this`bytes, this`timer, this`epoch,
               this`claimedStates, this`exchanging
      ensures Now() == AuthSessions.ClaimLogin(old(Now()), state, now)
      ensures login.Some? <==> Claims(old(Now()), state, now)
      ensures login.Some? ==>
                state in old(byState) && login.value == old(byState)[state].(expiresAt := now + LOGIN_TTL) &&
                login.value in exchanging && state in claimedStates
    {
      PruneSessionsLocked(now);
      if state !in byState {
        SyncTimer(now);
        return None;
      }
      var claimed := ClaimPendingLocked(state, now);
      SyncTimer(now);
      return Some(claimed);
    }

    method ClaimPendingLocked(state: string, now: Instant) returns (login: PendingLogin)
      requires state in byState && Dated(Now())
      modifies this`byState, this`byLogin, this`claimedStates, this`exchanging
      ensures Now() == ClaimPending(old(Now()), state, now)
      ensures Dated(Now())
      ensures login == old(byState)[state].(expiresAt := now + LOGIN_TTL)
      ensures login in exchanging && state in claimedStates
    {
      login := byState[state].(expiresAt := now + LOGIN_TTL);
      byState := byState - {state};
      byLogin := byLogin[login.loginID := login];
      claimedStates, exchanging := claimedStates + {state}, exchanging + {login};
    }

    method CancelLogin(state: string, now: Instant)
      requires Usable(Now())
      modifies this`byState, this`byLogin, this`completed, this`imports, this`slots, this`bytes, this`timer, this`epoch
      ensures Now() == AuthSessions.CancelLogin(old(Now()), state, now)
    {
      if state == "" {
        return;
      }
      PruneSessionsLocked(now);
      if state in byState {
        DeletePendingLocked(byState[state]);
      }
      SyncTimer(now);
    }

    method ForgetExchangeLocked(login: PendingLogin)
      modifies this`byState, this`byLogin, this`exchanging
      ensures Now() == ForgetExchange(old(Now()), login)
    {
      DeletePendingLocked(login);
      exchanging := exchanging - {login};
    }

    method ExchangeFailed(login: PendingLogin, now: Instant)
      requires Usable(Now())
      modifies this`byState, this`byLogin, this`timer, this`epoch, this`exchanging
      ensures Now() == AuthSessions.ExchangeFailed(old(Now()), login, now)
    {
      ForgetExchangeLocked(login);
      SyncTimer(now);
    }

    method StoreCompletedLocked(login: CompletedLogin, now: Instant)
      requires Usable(Now()) && login.expiresAt > 0
      modifies this`byState, this`byLogin, this`completed, this`imports, this`slots, this`bytes, this`timer, this`epoch
      ensures Now() == Sync(AdmitCompleted(Prune(old(Now()), now), login), now)
    {
      PruneSessionsLocked(now);
      completed := completed[login.loginID := login];
      SyncTimer(now);
    }

    method ExchangeDone(login: PendingLogin, accountID: Option<string>, now: Instant) returns (error: Option<Error>)
      requires Usable(Now())
      modifies this`byState, this`byLogin, this`completed, this`imports, this`slots, this`bytes, this`timer, this`epoch,
               this`exchanging
      ensures Now() == AuthSessions.ExchangeDone(old(Now()), login, accountID, now)
      ensures error == if isShutdown then Some(ServiceShutdown)
                       else if Text.TrimSpace(login.loginID) == "" || accountID.None? then Some(Incomplete) else None
    {
      ForgetExchangeLocked(login);
      if isShutdown {
        return Some(ServiceShutdown);
      }
      if Text.TrimSpace(login.loginID) == "" || accountID.None? {
        return Some(Incomplete);
      }
      StoreCompletedLocked(CompletedLogin(login.loginID, accountID.value, now + COMPLETED_TTL), now);
      return None;
    }

    // ---- drafts ----

    /** Reserves a slot and raw bytes for a preview, which holds them under its ticket. */
    method Reserve(ghost ticket: nat, raw: nat, now: Instant) returns (error: Option<Error>)
      requires Usable(Now())
      modifies this`imports, this`slots, this`bytes, this`timer, this`epoch, this`reserved
      ensures Now() == AuthSessions.Reserve(old(Now()), ticket, raw, now)
      ensures error == ReserveError(old(Now()), raw, now)
    {
      if raw > MAX_DOCUMENT_BYTES {
        return Some(CapacityExceeded);
      }
      if isShutdown {
        return Some(ServiceShutdown);
      }
      PruneImportsLocked(now);
      if slots >= MAX_DRAFTS || raw > MAX_AGGREGATE_BYTES - bytes {
        return Some(CapacityExceeded);
      }
      ReserveLocked(ticket, raw);
      SyncTimer(now);
      return None;
    }

    method ReserveLocked(ghost ticket: nat, raw: nat)
      modifies this`slots, this`bytes, this`reserved
      ensures Now() == Reserved(old(Now()), ticket, raw)
    {
      slots := slots + 1;
      bytes := bytes + raw;
      reserved := reserved[ticket := raw];
    }

    method Unreserve(ghost ticket: nat, raw: nat)
      requires ticket in reserved && reserved[ticket] == raw
      modifies this`slots, this`bytes, this`reserved
      ensures Now() == AuthSessions.Unreserve(old(Now()), ticket)
    {
      FreeLocked(raw);
      reserved := reserved - {ticket};
    }

    /**
     Looks for an identifier no draft has, starting from the one generated before the section. It
     gives up only when eight generated identifiers in a row are blank, or when eight tries, at
     ever later positions, all found identifiers in use.
     */
    method UniqueID(first: string, generated: nat -> string, cursor: nat)
      returns (id: Option<string>, ghost tried: seq<nat>)
      ensures first !in imports ==> id == Some(first)
      ensures id.Some? ==> id.value == first || exists j :: cursor <= j && id.value == Text.TrimSpace(generated(j))
      ensures id.None? ==> exists start :: cursor <= start && Exhausts(generated, start, {})
      ensures id.Some? && id.value in imports ==> |tried| == MAX_ID_ATTEMPTS
      ensures forall k :: 0 <= k < |tried| - 1 ==> tried[k] < tried[k + 1] && Text.TrimSpace(generated(tried[k])) in imports
    {
      id, tried := Some(first), [];
      var next, attempt := cursor, 0;
      while attempt < MAX_ID_ATTEMPTS && id.value in imports
        invariant id.Some? && cursor <= next && attempt == |tried| <= MAX_ID_ATTEMPTS
        invariant first !in imports ==> id == Some(first)
        invariant tried == [] ==> id == Some(first)
        invariant tried != [] ==>
                    cursor <= tried[|tried| - 1] < next && id.value == Text.TrimSpace(generated(tried[|tried| - 1]))
        invariant forall k :: 0 <= k < |tried| - 1 ==> tried[k] < tried[k + 1] && Text.TrimSpace(generated(tried[k])) in imports
      {
        ghost var start := next;
        id, next := GenerateID(generated, next, {});
        if id.None? {
          assert Exhausts(generated, start, {});
          return;
        }
        tried := tried + [next - 1];
        attempt := attempt + 1;
      }
    }

    /** Stages a parsed document under an unused identifier and hands the reservation over to it. */
    method Stage(ghost ticket: nat, raw: nat, draft: Draft, first: string, generated: nat -> string, cursor: nat, now: Instant)
      returns (id: Option<string>, error: Option<Error>)
      requires Usable(Now()) && draft.expiresAt > 0
      requires ticket in reserved && reserved[ticket] == raw
      modifies this`byState, this`byLogin, this`completed, this`imports, this`slots, this`bytes, this`timer, this`epoch,
               this`reserved
      ensures Now() == AuthSessions.Stage(old(Now()), ticket, id, draft, now)
      ensures error == StageError(old(Now()), ticket, id, draft, now)
      ensures error.None? ==> id.value in imports && imports[id.value] == draft
      ensures error == Some(NoUniqueID) ==> first in Prune(old(Now()), now).imports
    {
      id := None;
      if isShutdown {
        return None, Some(ServiceShutdown);
      }
      PruneSessionsLocked(now);
      ghost var tried;
      id, tried := UniqueID(first, generated, cursor);
      if id.None? || id.value in imports {
        return id, Some(NoUniqueID);
      }
      var baseBytes := bytes - raw;
      if baseBytes < 0 {
        return id, Some(InconsistentAccounting);
      }
      if draft.size > MAX_AGGREGATE_BYTES - baseBytes {
        return id, Some(CapacityExceeded);
      }
      StageLocked(ticket, baseBytes, id.value, draft);
      SyncTimer(now);
      return id, None;
    }

    method StageLocked(ghost ticket: nat, baseBytes: int, id: string, draft: Draft)
      requires ticket in reserved && baseBytes == bytes - reserved[ticket]
      requires Dated(Now()) && draft.expiresAt > 0
      modifies this`imports, this`bytes, this`reserved
      ensures Now() == StagedIn(old(Now()), ticket, id, draft)
      ensures Dated(Now())
    {
      bytes := baseBytes + draft.size;
      imports := imports[id := draft];
      reserved := reserved - {ticket};
    }

    method DeleteAndSync(id: string, now: Instant)
      requires Usable(Now())
      modifies this`imports, this`slots, this`bytes, this`timer, this`epoch
      ensures Now() == Sync(DeleteImport(old(Now()), id), now)
    {
      DeleteImportLocked(id);
      SyncTimer(now);
    }

    method RewriteLocked(id: string, draft: Draft)
      requires Dated(Now()) && draft.expiresAt > 0
      modifies this`imports
      ensures Now() == Rewrite(old(Now()), id, draft) && Dated(Now())
    {
      imports := imports[id := draft];
    }

    /** Freezes one disposition on every candidate, or changes nothing. */
    method SealDraft(id: string, dispositions: seq<Disposition>, now: Instant) returns (error: Option<Error>)
      requires Usable(Now())
      modifies this`imports, this`slots, this`bytes, this`timer, this`epoch
      ensures Now() == AuthSessions.SealDraft(old(Now()), id, dispositions, now)
      ensures error == SealDraftError(old(Now()), id, dispositions, now)
    {
      if id in imports && !imports[id].claimed && imports[id].expiresAt <= now {
        DeleteAndSync(id, now);
        return Some(DraftExpired);
      }
      if id !in imports {
        return Some(NotFound);
      }
      if imports[id].isSealed {
        return Some(AlreadySealed);
      }
      if |dispositions| != |imports[id].order| {
        return Some(Rejected(InvalidCandidate));
      }
      var bound, rejected := BindDispositions(imports[id].candidates, dispositions);
      if rejected.Some? {
        return Some(Rejected(rejected.value));
      }
      RewriteLocked(id, imports[id].(candidates := bound, isSealed := true));
      return None;
    }

    /** Authorizes one commit attempt and hands out the candidates in document order. */
    method ClaimDraft(id: string, now: Instant) returns (candidates: seq<Candidate>, error: Option<Error>)
      requires Usable(Now())
      requires id in imports ==> WellFormed(imports[id])
      modifies this`imports, this`slots, this`bytes, this`timer, this`epoch
      ensures Now() == AuthSessions.ClaimDraft(old(Now()), id, now)
      ensures error == ClaimError(old(Now()), id, now)
      ensures error.None? ==>
                var draft := old(imports)[id];
                |candidates| == |draft.order| &&
                forall k :: 0 <= k < |draft.order| ==>
                  draft.order[k] in draft.candidates && candidates[k] == draft.candidates[draft.order[k]]
    {
      candidates := [];
      if id in imports && !imports[id].claimed && imports[id].expiresAt <= now {
        DeleteAndSync(id, now);
        return [], Some(DraftExpired);
      }
      if id !in imports {
        return [], Some(NotFound);
      }
      if !imports[id].isSealed {
        return [], Some(NotSealed);
      }
      if imports[id].claimed {
        return [], Some(InProgress);
      }
      candidates := InOrder(imports[id]);
      RewriteLocked(id, imports[id].(claimed := true));
      SyncTimer(now);
      return candidates, None;
    }

    method ReleaseDraft(id: string, now: Instant) returns (error: Option<Error>)
      requires Usable(Now())
      modifies this`imports, this`slots, this`bytes, this`timer, this`epoch
      ensures Now() == AuthSessions.ReleaseDraft(old(Now()), id, now)
      ensures error == if id in old(imports) then None else Some(NotFound)
    {
      if id !in imports {
        return Some(NotFound);
      }
      if !imports[id].claimed {
        return None;
      }
      if imports[id].expiresAt <= now {
        DeleteAndSync(id, now);
      } else {
        RewriteLocked(id, imports[id].(claimed := false));
        SyncTimer(now);
      }
      return None;
    }

    method FinalizeDraft(id: string, now: Instant) returns (error: Option<Error>)
      requires Usable(Now())
      modifies this`imports, this`slots, this`bytes, this`timer, this`epoch
      ensures Now() == AuthSessions.FinalizeDraft(old(Now()), id, now)
      ensures error == FinalizeError(old(Now()), id, now)
    {
      if id in imports && !imports[id].claimed && imports[id].expiresAt <= now {
        DeleteAndSync(id, now);
        return Some(DraftExpired);
      }
      if id !in imports {
        return Some(NotFound);
      }
      if !imports[id].claimed {
        return Some(NotClaimed);
      }
      DeleteAndSync(id, now);
      return None;
    }

    method CancelDraft(id: string, now: Instant) returns (error: Option<Error>)
      requires Usable(Now())
      modifies this`imports, this`slots, this`bytes, this`timer, this`epoch
      ensures Now() == AuthSessions.CancelDraft(old(Now()), id, now)
      ensures error == if id in old(imports) && old(imports)[id].claimed then Some(InProgress) else None
    {
      if id in imports && imports[id].claimed {
        return Some(InProgress);
      }
      DeleteAndSync(id, now);
      return None;
    }
  }
}
