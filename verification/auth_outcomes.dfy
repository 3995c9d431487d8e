/**
 What the sections of the service accomplish, over every run: a completed login is there to be
 read until something ends it, a finalized draft is gone for good, and drafts and logins leave
 only for a reason. All is said of the maps and counters themselves.
 */
module AuthOutcomes {
  import opened Collections
  import opened ImportDrafts
  import opened AuthSessions
  import Text

  /** The clock reading a step takes, if it takes one. */
  function Clock(e: Event): Option<Instant> {
    match e
    case BeginFailsEvent => None
    case ShutdownEvent => None
    case UnreserveEvent(_) => None
    case _ => Some(e.now)
  }

  /** The step reads the clock at or past the expiry. */
  predicate PastExpiry(e: Event, expiresAt: Instant) {
    Clock(e).Some? && Clock(e).value >= expiresAt
  }

  // ---- what pruning keeps, key by key ----

  lemma PrunedCompleted(s: State, now: Instant, id: string)
    ensures id in Prune(s, now).completed <==> id in s.completed && s.completed[id].expiresAt > now
    ensures id in Prune(s, now).completed ==> Prune(s, now).completed[id] == s.completed[id]
  {
  }

  lemma PrunedLogin(s: State, now: Instant, id: string)
    ensures id in Prune(s, now).byLogin <==> id in s.byLogin && s.byLogin[id].expiresAt > now
    ensures id in Prune(s, now).byLogin ==> Prune(s, now).byLogin[id] == s.byLogin[id]
  {
  }

  lemma UnexpiredStatesStay(s: State, state: string, now: Instant)
    requires MapsAgree(s)
    ensures state in Prune(s, now).byState <==> state in s.byState && s.byState[state].expiresAt > now
    ensures state in Prune(s, now).byState ==> Prune(s, now).byState[state] == s.byState[state]
  {
  }

  lemma PrunedDraft(s: State, now: Instant, id: string)
    ensures id in PruneImports(s, now).imports <==> id in s.imports && (s.imports[id].claimed || s.imports[id].expiresAt > now)
    ensures id in PruneImports(s, now).imports ==> PruneImports(s, now).imports[id] == s.imports[id]
    ensures Prune(s, now).imports == PruneImports(s, now).imports
  {
  }

  // ---- what the sections of the drafts do, key by key ----

  ghost predicate LoginsUntouched(s: State, s': State) {
    s'.byLogin == s.byLogin && s'.completed == s.completed
  }

  lemma ReserveLeavesLogins(s: State, ticket: nat, raw: nat, now: Instant)
    ensures Reserve(s, ticket, raw, now).byLogin == s.byLogin
    ensures Reserve(s, ticket, raw, now).completed == s.completed
  {
  }

  lemma ReserveOnlyPrunes(s: State, ticket: nat, raw: nat, now: Instant)
    ensures Reserve(s, ticket, raw, now).imports ==
            if raw > MAX_DOCUMENT_BYTES || s.shutdown then s.imports else PruneImports(s, now).imports
  {
  }

  lemma ReserveAt(s: State, ticket: nat, raw: nat, now: Instant, id: string)
    ensures LoginsUntouched(s, Reserve(s, ticket, raw, now))
    ensures var n := Reserve(s, ticket, raw, now);
            && (id in n.imports ==> id in s.imports)
            && (id in s.imports && (s.imports[id].claimed || s.imports[id].expiresAt > now) ==> Spares(s, n, id))
  {
    ReserveLeavesLogins(s, ticket, raw, now);
    ReserveOnlyPrunes(s, ticket, raw, now);
    PrunedDraft(s, now, id);
  }

  lemma UnreserveAt(s: State, ticket: nat)
    requires ticket in s.reserved
    ensures LoginsUntouched(s, Unreserve(s, ticket)) && Unreserve(s, ticket).imports == s.imports
  {
  }

  lemma StageAt(s: State, ticket: nat, generated: Option<string>, draft: Draft, now: Instant, id: string)
    requires ticket in s.reserved
    ensures var n := Stage(s, ticket, generated, draft, now);
            && (id in n.imports ==> id in s.imports || generated == Some(id))
            && (id in s.imports && (s.imports[id].claimed || s.imports[id].expiresAt > now) ==> Spares(s, n, id))
  {
    PrunedDraft(s, now, id);
  }

  lemma StageKeepsUnexpired(s: State, ticket: nat, generated: Option<string>, draft: Draft, now: Instant, id: string)
    requires ticket in s.reserved
    ensures var n := Stage(s, ticket, generated, draft, now);
            && (id in s.byLogin && s.byLogin[id].expiresAt > now ==> id in n.byLogin && n.byLogin[id] == s.byLogin[id])
            && (id in s.completed && s.completed[id].expiresAt > now ==> KeepsCompleted(s, n, id))
  {
    PrunedLogin(s, now, id);
    PrunedCompleted(s, now, id);
  }

  lemma SealAt(s: State, i: string, ds: seq<Disposition>, now: Instant, id: string)
    ensures LoginsUntouched(s, SealDraft(s, i, ds, now))
    ensures var n := SealDraft(s, i, ds, now);
            && (id in n.imports <==> id in s.imports && !(id == i && Lapsed(s, i, now)))
            && (id in s.imports && id != i ==> Spares(s, n, id))
  {
  }

  lemma ClaimDraftAt(s: State, i: string, now: Instant, id: string)
    ensures LoginsUntouched(s, ClaimDraft(s, i, now))
    ensures var n := ClaimDraft(s, i, now);
            && (id in n.imports <==> id in s.imports && !(id == i && Lapsed(s, i, now)))
            && (id in s.imports && id != i ==> Spares(s, n, id))
  {
  }

  lemma ReleaseLeavesLogins(s: State, i: string, now: Instant)
    ensures LoginsUntouched(s, ReleaseDraft(s, i, now))
  {
  }

  lemma ReleaseAt(s: State, i: string, now: Instant, id: string)
    ensures LoginsUntouched(s, ReleaseDraft(s, i, now))
    ensures var n := ReleaseDraft(s, i, now);
            && (id in n.imports <==> id in s.imports && !(id == i && s.imports[i].claimed && s.imports[i].expiresAt <= now))
            && (id in s.imports && id != i ==> Spares(s, n, id))
  {
    ReleaseLeavesLogins(s, i, now);
  }

  lemma FinalizeAt(s: State, i: string, now: Instant, id: string)
    ensures LoginsUntouched(s, FinalizeDraft(s, i, now))
    ensures var n := FinalizeDraft(s, i, now);
            && (id in n.imports <==> id in s.imports && !(id == i && (s.imports[i].claimed || s.imports[i].expiresAt <= now)))
            && (id in n.imports ==> Spares(s, n, id))
  {
  }

  lemma CancelAt(s: State, i: string, now: Instant, id: string)
    ensures LoginsUntouched(s, CancelDraft(s, i, now))
    ensures var n := CancelDraft(s, i, now);
            && (id in n.imports <==> id in s.imports && !(id == i && !s.imports[i].claimed))
            && (id in n.imports ==> Spares(s, n, id))
  {
  }

  predicate KeepsCompleted(s: State, s': State, id: string) {
    id in s.completed && id in s'.completed && s'.completed[id] == s.completed[id]
  }

  // ---- completed logins ----

  /** What can end a completed login: its expiry, its finalization, a new completion under its identifier, a shutdown. */
  predicate EndsCompleted(e: Event, id: string, expiresAt: Instant) {
    || PastExpiry(e, expiresAt)
    || (e.FinalizeLoginEvent? && e.loginID == id)
    || (e.ExchangeDoneEvent? && e.login.loginID == id)
    || e.ShutdownEvent?
  }

  lemma EndpointKeepsCompleted(s: State, e: Event, id: string)
    requires Enabled(s, e) && id in s.completed && !EndsCompleted(e, id, s.completed[id].expiresAt)
    requires e.BeginCheckEvent? || e.BeginStoreEvent? || e.BeginFailsEvent? || e.StopEndpointEvent? || e.ExpireEvent? || e.ReconcileEvent?
    ensures KeepsCompleted(s, LoginNext(s, e), id)
  {
    if Clock(e).Some? {
      PrunedCompleted(s, e.now, id);
      PrunedCompleted(Disarmed(s), e.now, id);
    }
  }

  lemma PollKeepsCompleted(s: State, now: Instant, id: string)
    requires id in s.completed && s.completed[id].expiresAt > now
    ensures KeepsCompleted(s, Poll(s, now), id)
    ensures forall other :: other != id ==> KeepsCompleted(s, FinalizeLogin(s, other, now), id)
  {
    PrunedCompleted(s, now, id);
  }

  lemma CallbackKeepsCompleted(s: State, state: string, now: Instant, id: string)
    requires id in s.completed && s.completed[id].expiresAt > now
    ensures KeepsCompleted(s, ClaimLogin(s, state, now), id)
    ensures KeepsCompleted(s, CancelLogin(s, state, now), id)
  {
    PrunedCompleted(s, now, id);
  }

  lemma ReadingKeepsCompleted(s: State, e: Event, id: string)
    requires Enabled(s, e) && id in s.completed && !EndsCompleted(e, id, s.completed[id].expiresAt)
    requires e.PollEvent? || e.FinalizeLoginEvent? || e.ClaimLoginEvent? || e.CancelLoginEvent?
    ensures KeepsCompleted(s, LoginNext(s, e), id)
  {
    if e.PollEvent? || e.FinalizeLoginEvent? { PollKeepsCompleted(s, e.now, id); } else { CallbackKeepsCompleted(s, e.state, e.now, id); }
  }

  /** Another login's completion is stored under its own identifier. */
  lemma ExchangeDoneKeepsCompleted(s: State, login: PendingLogin, account: Option<string>, now: Instant, id: string)
    requires id in s.completed && s.completed[id].expiresAt > now && login.loginID != id
    ensures KeepsCompleted(s, ExchangeDone(s, login, account, now), id)
  {
    var d := ForgetExchange(s, login);
    assert d.completed == s.completed;
    PrunedCompleted(d, now, id);
  }

  lemma ExchangeKeepsCompleted(s: State, e: Event, id: string)
    requires Enabled(s, e) && id in s.completed && !EndsCompleted(e, id, s.completed[id].expiresAt)
    requires e.ExchangeFailedEvent? || e.ExchangeDoneEvent?
    ensures KeepsCompleted(s, LoginNext(s, e), id)
  {
    if e.ExchangeDoneEvent? { ExchangeDoneKeepsCompleted(s, e.login, e.accountID, e.now, id); }
  }

  lemma DraftStepKeepsCompleted(s: State, e: Event, id: string)
    requires Enabled(s, e) && OnDrafts(e) && id in s.completed && !EndsCompleted(e, id, s.completed[id].expiresAt)
    ensures KeepsCompleted(s, DraftNext(s, e), id)
  {
    match e
    case ReserveEvent(t, raw, now) => ReserveAt(s, t, raw, now, id);
    case UnreserveEvent(t) => UnreserveAt(s, t);
    case StageEvent(t, generated, draft, now) => StageKeepsUnexpired(s, t, generated, draft, now, id);
    case SealEvent(i, ds, now) => SealAt(s, i, ds, now, id);
    case ClaimDraftEvent(i, now) => ClaimDraftAt(s, i, now, id);
    case ReleaseDraftEvent(i, now) => ReleaseAt(s, i, now, id);
    case FinalizeDraftEvent(i, now) => FinalizeAt(s, i, now, id);
    case CancelDraftEvent(i, now) => CancelAt(s, i, now, id);
  }

  lemma StepKeepsCompleted(s: State, e: Event, id: string)
    requires Enabled(s, e) && id in s.completed && !EndsCompleted(e, id, s.completed[id].expiresAt)
    ensures KeepsCompleted(s, Next(s, e), id)
  {
    if OnDrafts(e) { DraftStepKeepsCompleted(s, e, id); }
    else if e.PollEvent? || e.FinalizeLoginEvent? || e.ClaimLoginEvent? || e.CancelLoginEvent? { ReadingKeepsCompleted(s, e, id); }
    else if e.ExchangeFailedEvent? || e.ExchangeDoneEvent? { ExchangeKeepsCompleted(s, e, id); }
    else { EndpointKeepsCompleted(s, e, id); }
  }

  /** A finished code exchange stores the login's account, for the time to live, and forgets the exchange. */
  lemma ExchangeDoneStores(s: State, login: PendingLogin, account: string, now: Instant)
    requires !s.shutdown && Text.TrimSpace(login.loginID) != ""
    ensures var done := ExchangeDone(s, login, Some(account), now);
            && login.loginID in done.completed
            && done.completed[login.loginID].accountID == account
            && done.completed[login.loginID].expiresAt == now + COMPLETED_TTL
            && login.loginID !in done.byLogin && login !in done.exchanging
  {
  }

  ghost predicate CompletedAs(s: State, id: string, account: string, expiresAt: Instant) {
    id in s.completed && s.completed[id].accountID == account && s.completed[id].expiresAt == expiresAt
  }

  ghost predicate NothingEndsCompleted(run: seq<Event>, i: nat, id: string, expiresAt: Instant) {
    forall k :: i <= k < |run| ==> !EndsCompleted(run[k], id, expiresAt)
  }

  lemma {:induction false} CompletedStays(run: seq<Event>, i: nat, id: string, account: string, expiresAt: Instant)
    requires After(run).Some? && i <= |run|
    requires After(run[..i]).Some? && CompletedAs(After(run[..i]).value, id, account, expiresAt)
    requires NothingEndsCompleted(run, i, id, expiresAt)
    ensures CompletedAs(After(run).value, id, account, expiresAt)
  {
    if i == |run| {
      assert run[..i] == run;
    } else {
      var front := run[..|run| - 1];
      assert front[..i] == run[..i];
      CompletedStays(front, i, id, account, expiresAt);
      StepKeepsCompleted(After(front).value, run[|run| - 1], id);
    }
  }

  /**
   In every run, a login whose code exchange returned an account while the service was running
   is there to be polled: until its time to live has passed, it is finalized, another completion
   takes its identifier or the service shuts down, every poll finds that account.
   */
  lemma CompletedLoginsCanBePolled(run: seq<Event>, login: PendingLogin, account: string, t: Instant,
                                   later: seq<Event>, now: Instant)
    requires var done := run + [ExchangeDoneEvent(login, Some(account), t)];
             && After(done).Some? && After(done + later).Some?
             && !After(run).value.shutdown && Text.TrimSpace(login.loginID) != ""
             && NothingEndsCompleted(later, 0, login.loginID, t + COMPLETED_TTL)
    requires now < t + COMPLETED_TTL
    ensures var s := Poll(After(run + [ExchangeDoneEvent(login, Some(account), t)] + later).value, now);
            CompletedAs(s, login.loginID, account, t + COMPLETED_TTL)
  {
    var e := ExchangeDoneEvent(login, Some(account), t);
    var done := run + [e];
    var all := done + later;
    LastStep(run, e);
    ExchangeDoneStores(After(run).value, login, account, t);
    assert all[..|done|] == done;
    assert forall k :: |done| <= k < |all| ==> all[k] == later[k - |done|];
    CompletedStays(all, |done|, login.loginID, account, t + COMPLETED_TTL);
    PrunedCompleted(After(all).value, now, login.loginID);
  }

  /**
   A poll, and with it the finalization of a login, sees exactly the logins and credentials that
   have not expired at its reading.
   */
  lemma PollsSeeTheUnexpired(s: State, now: Instant, id: string)
    ensures id in Poll(s, now).completed <==> id in s.completed && s.completed[id].expiresAt > now
    ensures id in Poll(s, now).byLogin <==> id in s.byLogin && s.byLogin[id].expiresAt > now
    ensures id in Poll(s, now).completed ==> Poll(s, now).completed[id] == s.completed[id]
    ensures FinalizeLogin(s, id, now).completed == Poll(s, now).completed - {id}
  {
    PrunedCompleted(s, now, id);
    PrunedLogin(s, now, id);
  }

  // ---- pending logins ----

  /** What can end or renew a pending login: its expiry, its claim, its cancellation, the end of its code exchange, a shutdown. */
  predicate EndsLogin(e: Event, login: PendingLogin) {
    || PastExpiry(e, login.expiresAt)
    || (e.ClaimLoginEvent? && e.state == login.state)
    || (e.CancelLoginEvent? && e.state == login.state)
    || ((e.ExchangeFailedEvent? || e.ExchangeDoneEvent?) && e.login.loginID == login.loginID)
    || e.ShutdownEvent?
  }

  predicate IsPending(s: State, login: PendingLogin) {
    login.loginID in s.byLogin && s.byLogin[login.loginID] == login
  }

  lemma EndpointKeepsLogin(s: State, e: Event, login: PendingLogin)
    requires MapsAgree(s) && Enabled(s, e) && IsPending(s, login) && !EndsLogin(e, login)
    requires e.BeginCheckEvent? || e.BeginStoreEvent? || e.BeginFailsEvent? || e.StopEndpointEvent? || e.ExpireEvent? || e.ReconcileEvent?
    ensures IsPending(LoginNext(s, e), login)
  {
    if Clock(e).Some? {
      PrunedLogin(s, e.now, login.loginID);
      PrunedLogin(Disarmed(s), e.now, login.loginID);
    }
  }

  lemma ReadingKeepsLogin(s: State, e: Event, login: PendingLogin)
    requires Enabled(s, e) && IsPending(s, login) && !EndsLogin(e, login)
    requires e.PollEvent? || e.FinalizeLoginEvent?
    ensures IsPending(LoginNext(s, e), login)
  {
    PrunedLogin(s, e.now, login.loginID);
  }

  /** A callback for another state touches another login: no two pending logins share a state or an identifier. */
  lemma OtherStateOtherLogin(s: State, state: string, now: Instant, login: PendingLogin)
    requires MapsAgree(s) && IsPending(s, login) && login.expiresAt > now && state != login.state
    ensures IsPending(Prune(s, now), login)
    ensures state in Prune(s, now).byState ==>
              Prune(s, now).byState[state].state == state && Prune(s, now).byState[state].loginID != login.loginID
  {
    PrunedLogin(s, now, login.loginID);
    UnexpiredStatesStay(s, state, now);
  }

  lemma ClaimKeepsLogin(s: State, state: string, now: Instant, login: PendingLogin)
    requires MapsAgree(s) && IsPending(s, login) && login.expiresAt > now && state != login.state
    ensures IsPending(ClaimLogin(s, state, now), login)
  {
    OtherStateOtherLogin(s, state, now, login);
  }

  lemma CancelKeepsLogin(s: State, state: string, now: Instant, login: PendingLogin)
    requires MapsAgree(s) && IsPending(s, login) && login.expiresAt > now && state != login.state
    ensures IsPending(CancelLogin(s, state, now), login)
  {
    OtherStateOtherLogin(s, state, now, login);
    assert IsPending(CancelPending(Prune(s, now), state), login);
  }

  lemma CallbackKeepsLogin(s: State, e: Event, login: PendingLogin)
    requires MapsAgree(s) && Enabled(s, e) && IsPending(s, login) && !EndsLogin(e, login)
    requires e.ClaimLoginEvent? || e.CancelLoginEvent?
    ensures IsPending(LoginNext(s, e), login)
  {
    if e.ClaimLoginEvent? { ClaimKeepsLogin(s, e.state, e.now, login); } else { CancelKeepsLogin(s, e.state, e.now, login); }
  }

  lemma ExchangeKeepsLogin(s: State, e: Event, login: PendingLogin)
    requires Enabled(s, e) && IsPending(s, login) && !EndsLogin(e, login)
    requires e.ExchangeFailedEvent? || e.ExchangeDoneEvent?
    ensures IsPending(LoginNext(s, e), login)
  {
    PrunedLogin(ForgetExchange(s, e.login), e.now, login.loginID);
  }

  lemma DraftStepKeepsLogin(s: State, e: Event, login: PendingLogin)
    requires Enabled(s, e) && OnDrafts(e) && IsPending(s, login) && !EndsLogin(e, login)
    ensures IsPending(DraftNext(s, e), login)
  {
    match e
    case ReserveEvent(t, raw, now) => ReserveAt(s, t, raw, now, login.loginID);
    case UnreserveEvent(t) => UnreserveAt(s, t);
    case StageEvent(t, generated, draft, now) => StageKeepsUnexpired(s, t, generated, draft, now, login.loginID);
    case SealEvent(i, ds, now) => SealAt(s, i, ds, now, login.loginID);
    case ClaimDraftEvent(i, now) => ClaimDraftAt(s, i, now, login.loginID);
    case ReleaseDraftEvent(i, now) => ReleaseAt(s, i, now, login.loginID);
    case FinalizeDraftEvent(i, now) => FinalizeAt(s, i, now, login.loginID);
    case CancelDraftEvent(i, now) => CancelAt(s, i, now, login.loginID);
  }

  /** In every run a pending login, claimed or not, stays as it is until one of these ends or renews it. */
  lemma PendingLoginsStay(run: seq<Event>, e: Event, login: PendingLogin)
    requires After(run).Some? && Enabled(After(run).value, e)
    requires IsPending(After(run).value, login) && !EndsLogin(e, login)
    ensures IsPending(Next(After(run).value, e), login)
  {
    var s := After(run).value;
    assert MapsAgree(s) by { RunsKeepInv(run); }
    if OnDrafts(e) { DraftStepKeepsLogin(s, e, login); }
    else if e.PollEvent? || e.FinalizeLoginEvent? { ReadingKeepsLogin(s, e, login); }
    else if e.ClaimLoginEvent? || e.CancelLoginEvent? { CallbackKeepsLogin(s, e, login); }
    else if e.ExchangeFailedEvent? || e.ExchangeDoneEvent? { ExchangeKeepsLogin(s, e, login); }
    else { EndpointKeepsLogin(s, e, login); }
  }

  /** A started login is pending under its identifier and its state for the time to live, with the endpoint active. */
  lemma StartedLoginsArePending(s: State, loginID: string, state: string, now: Instant)
    ensures var started := BeginStore(s, loginID, state, now);
            && IsPending(started, PendingLogin(loginID, state, now + LOGIN_TTL))
            && state in started.byState && started.byState[state] == PendingLogin(loginID, state, now + LOGIN_TTL)
            && started.callbackActive
  {
  }

  /**
   A callback claims a state exactly while its login is pending and unexpired. The login keeps
   its identifier, gets a new time to live, and is the one to be exchanged.
   */
  lemma ClaimsRenewTheLogin(run: seq<Event>, state: string, now: Instant)
    requires After(run).Some?
    ensures var s := After(run).value;
            && (Claims(s, state, now) <==> state in s.byState && s.byState[state].expiresAt > now)
            && (Claims(s, state, now) ==>
                  var renewed := s.byState[state].(expiresAt := now + LOGIN_TTL);
                  var claimed := ClaimLogin(s, state, now);
                  IsPending(claimed, renewed) && renewed in claimed.exchanging && state !in claimed.byState)
  {
    RunsKeepInv(run);
    UnexpiredStatesStay(After(run).value, state, now);
  }

  /** A cancelled state, a failed exchange and a finished one leave no pending login behind. */
  lemma EndedLoginsAreGone(run: seq<Event>, login: PendingLogin, now: Instant)
    requires After(run).Some? && IsPending(After(run).value, login) && login.state != ""
    ensures var s := After(run).value;
            && (login.state in s.byState ==> login.loginID !in CancelLogin(s, login.state, now).byLogin)
            && login.loginID !in ExchangeFailed(s, login, now).byLogin
            && login.loginID !in ExchangeDone(s, login, None, now).byLogin
  {
    RunsKeepInv(run);
    UnexpiredStatesStay(After(run).value, login.state, now);
    PrunedLogin(After(run).value, now, login.loginID);
  }

  // ---- the endpoint ----

  /** The timer and a reconciliation go on to stop the endpoint exactly when it is active and no pending login is unexpired. */
  lemma IdleEndpointsAreStopped(s: State, now: Instant)
    requires !s.shutdown
    ensures Reconcile(s, now).lifecycle == Expire(s, s.epoch, now).lifecycle ==
            if s.callbackActive && forall l <- s.byLogin :: s.byLogin[l].expiresAt <= now then Stopping else Idle
    ensures !StopEndpoint(s, now).callbackActive && StopEndpoint(s, now).lifecycle == Idle
  {
    NoLoginLeft(s, now);
    NoLoginLeft(Disarmed(s), now);
  }

  /** After a shutdown the endpoint is stopped, or the lifecycle lock is kept until it is. */
  predicate StopsAfterShutdown(s: State) {
    s.shutdown && s.callbackActive ==> s.lifecycle.Stopping?
  }

  lemma LoginStepStops(s: State, e: Event)
    requires Enabled(s, e) && !OnDrafts(e) && EndpointInv(s) && StopsAfterShutdown(s)
    ensures StopsAfterShutdown(LoginNext(s, e))
  {
  }

  ghost predicate SameEndpoint(s: State, s': State) {
    s'.shutdown == s.shutdown && s'.callbackActive == s.callbackActive && s'.lifecycle == s.lifecycle
  }

  lemma ReserveLeavesEndpoint(s: State, ticket: nat, raw: nat, now: Instant)
    ensures SameEndpoint(s, Reserve(s, ticket, raw, now))
  {
  }

  lemma StageLeavesEndpoint(s: State, ticket: nat, generated: Option<string>, draft: Draft, now: Instant)
    requires ticket in s.reserved
    ensures SameEndpoint(s, Stage(s, ticket, generated, draft, now))
  {
  }

  lemma SealLeavesEndpoint(s: State, i: string, ds: seq<Disposition>, now: Instant)
    ensures SameEndpoint(s, SealDraft(s, i, ds, now))
  {
  }

  lemma ClaimLeavesEndpoint(s: State, i: string, now: Instant)
    ensures SameEndpoint(s, ClaimDraft(s, i, now))
  {
  }

  lemma ReleaseLeavesEndpoint(s: State, i: string, now: Instant)
    ensures SameEndpoint(s, ReleaseDraft(s, i, now))
  {
  }

  lemma FinalizeLeavesEndpoint(s: State, i: string, now: Instant)
    ensures SameEndpoint(s, FinalizeDraft(s, i, now))
  {
  }

  lemma CancelLeavesEndpoint(s: State, i: string, now: Instant)
    ensures SameEndpoint(s, CancelDraft(s, i, now))
  {
  }

  lemma DraftStepStops(s: State, e: Event)
    requires Enabled(s, e) && OnDrafts(e) && StopsAfterShutdown(s)
    ensures StopsAfterShutdown(DraftNext(s, e))
  {
    match e
    case ReserveEvent(t, raw, now) => ReserveLeavesEndpoint(s, t, raw, now);
    case UnreserveEvent(t) =>
    case StageEvent(t, generated, draft, now) => StageLeavesEndpoint(s, t, generated, draft, now);
    case SealEvent(i, ds, now) => SealLeavesEndpoint(s, i, ds, now);
    case ClaimDraftEvent(i, now) => ClaimLeavesEndpoint(s, i, now);
    case ReleaseDraftEvent(i, now) => ReleaseLeavesEndpoint(s, i, now);
    case FinalizeDraftEvent(i, now) => FinalizeLeavesEndpoint(s, i, now);
    case CancelDraftEvent(i, now) => CancelLeavesEndpoint(s, i, now);
  }

  /** In every run a shutdown leaves no endpoint behind: once the lock is free again, the endpoint is inactive for good. */
  lemma {:induction false} ShutdownStopsTheEndpoint(run: seq<Event>)
    requires After(run).Some?
    ensures StopsAfterShutdown(After(run).value)
  {
    if run != [] {
      var front, e := run[..|run| - 1], run[|run| - 1];
      ShutdownStopsTheEndpoint(front);
      RunsKeepInv(front);
      if OnDrafts(e) { DraftStepStops(After(front).value, e); } else { LoginStepStops(After(front).value, e); }
    }
  }

  lemma NoLoginLeft(s: State, now: Instant)
    ensures Prune(s, now).byLogin == map[] <==> forall l <- s.byLogin :: s.byLogin[l].expiresAt <= now
    ensures Prune(s, now).callbackActive == s.callbackActive
  {
    forall l ensures l in Prune(s, now).byLogin <==> l in s.byLogin && s.byLogin[l].expiresAt > now { PrunedLogin(s, now, l); }
  }

  // ---- drafts: what each operation does ----

  /** The draft is gone with its slot and its bytes, and every other draft is as it was. */
  ghost predicate Removed(s: State, s': State, id: string) {
    && id in s.imports && id !in s'.imports
    && (forall other <- s.imports :: other != id ==> other in s'.imports && s'.imports[other] == s.imports[other])
    && s'.imports.Keys <= s.imports.Keys
    && s'.slots == s.slots - 1
    && s'.bytes == s.bytes - s.imports[id].size
    && Held(s'.imports) == Held(s.imports) - s.imports[id].size
  }

  /** The draft has changed its claim or its dispositions only, and every other draft and the counters are as they were. */
  ghost predicate Changed(s: State, s': State, id: string, draft: Draft) {
    s'.imports == s.imports[id := draft] && s'.slots == s.slots && s'.bytes == s.bytes && s'.reserved == s.reserved
  }

  /** A refused operation changes nothing, except that it removes its own draft when that is idle and expired. */
  ghost predicate RefusedDraft(s: State, s': State, id: string, now: Instant) {
    if id in s.imports && !s.imports[id].claimed && s.imports[id].expiresAt <= now then Removed(s, s', id) else s' == s
  }

  /** What an error says of the draft. */
  predicate IsTrueOf(e: Error, s: State, id: string, ds: seq<Disposition>, now: Instant) {
    match e
    case NotFound => id !in s.imports
    case DraftExpired => id in s.imports && !s.imports[id].claimed && s.imports[id].expiresAt <= now
    case NotSealed => id in s.imports && !s.imports[id].isSealed
    case AlreadySealed => id in s.imports && s.imports[id].isSealed
    case InProgress => id in s.imports && s.imports[id].isSealed && s.imports[id].claimed
    case NotClaimed => id in s.imports && !s.imports[id].claimed && s.imports[id].expiresAt > now
    case Rejected(seal) =>
      && id in s.imports && !s.imports[id].isSealed
      && (seal.CandidateNotFound? ==> exists d <- ds :: d.Trimmed().candidateID !in s.imports[id].candidates)
    case _ => false
  }

  /** Sealing, claiming and finalizing report only what is true of the draft they were asked for. */
  lemma DraftErrorsAreTrue(s: State, id: string, ds: seq<Disposition>, now: Instant)
    ensures SealDraftError(s, id, ds, now).Some? ==> IsTrueOf(SealDraftError(s, id, ds, now).value, s, id, ds, now)
    ensures ClaimError(s, id, now).Some? ==> IsTrueOf(ClaimError(s, id, now).value, s, id, ds, now)
    ensures FinalizeError(s, id, now).Some? ==> IsTrueOf(FinalizeError(s, id, now).value, s, id, ds, now)
  {
    if id in s.imports && FirstError(s.imports[id].candidates, TrimAll(ds)) == Some(CandidateNotFound) {
      SomeUnknownCandidate(s.imports[id].candidates, TrimAll(ds));
      var given := TrimAll(ds);
      var i :| 0 <= i < |given| && given[i].candidateID !in s.imports[id].candidates;
      assert ds[i] in ds;
    }
  }

  lemma {:induction false} SomeUnknownCandidate(candidates: map<string, Candidate>, ds: seq<Disposition>)
    requires FirstError(candidates, ds) == Some(CandidateNotFound)
    ensures exists i :: 0 <= i < |ds| && ds[i].candidateID !in candidates
  {
    if FirstError(candidates, ds[..|ds| - 1]).Some? { SomeUnknownCandidate(candidates, ds[..|ds| - 1]); }
  }

  ghost predicate DraftsUntouched(s: State, s': State) {
    s'.imports == s.imports && s'.slots == s.slots && s'.bytes == s.bytes && s'.reserved == s.reserved
  }

  lemma DeletingRemoves(s: State, id: string, now: Instant)
    requires Accounted(s) && id in s.imports
    ensures Removed(s, Sync(DeleteImport(s, id), now), id)
  {
    DeleteIsExact(s, id);
    SizesRemove(s.imports, id);
  }

  /** Finalizing succeeds exactly on a claimed draft, whatever its age, and removes it. */
  lemma FinalizingRemoves(run: seq<Event>, id: string, now: Instant)
    requires After(run).Some?
    ensures var s := After(run).value;
            && (FinalizeError(s, id, now).None? <==> id in s.imports && s.imports[id].claimed)
            && (if FinalizeError(s, id, now).None? then Removed(s, FinalizeDraft(s, id, now), id)
                else RefusedDraft(s, FinalizeDraft(s, id, now), id, now))
  {
    RunsKeepInv(run);
    var s := After(run).value;
    if id in s.imports { DeletingRemoves(s, id, now); }
  }

  /** Releasing keeps the draft, idle again, exactly while its review window lasts, and removes it afterwards. */
  lemma ReleasingKeepsWhileTheWindowLasts(run: seq<Event>, id: string, now: Instant)
    requires After(run).Some?
    ensures var s := After(run).value;
            var released := ReleaseDraft(s, id, now);
            if id !in s.imports || !s.imports[id].claimed then released == s
            else if s.imports[id].expiresAt > now then Changed(s, released, id, s.imports[id].(claimed := false))
            else Removed(s, released, id)
  {
    RunsKeepInv(run);
    var s := After(run).value;
    if id in s.imports { DeletingRemoves(s, id, now); }
  }

  /** Cancelling removes exactly an idle draft. */
  lemma CancellingRemovesIdleDrafts(run: seq<Event>, id: string, now: Instant)
    requires After(run).Some?
    ensures var s := After(run).value;
            var cancelled := CancelDraft(s, id, now);
            if id in s.imports && !s.imports[id].claimed then Removed(s, cancelled, id) else DraftsUntouched(s, cancelled)
  {
    RunsKeepInv(run);
    var s := After(run).value;
    if id in s.imports { DeletingRemoves(s, id, now); }
  }

  /** Claiming succeeds exactly on a sealed, idle, unexpired draft and marks it; an expired idle draft is removed. */
  lemma ClaimingMarks(run: seq<Event>, id: string, now: Instant)
    requires After(run).Some?
    ensures var s := After(run).value;
            var claimed := ClaimDraft(s, id, now);
            && (ClaimError(s, id, now).None? <==>
                  id in s.imports && s.imports[id].isSealed && !s.imports[id].claimed && s.imports[id].expiresAt > now)
            && (if ClaimError(s, id, now).None? then Changed(s, claimed, id, s.imports[id].(claimed := true))
                else RefusedDraft(s, claimed, id, now))
  {
    RunsKeepInv(run);
    var s := After(run).value;
    if id in s.imports { DeletingRemoves(s, id, now); }
  }

  lemma SealChanges(s: State, id: string, ds: seq<Disposition>, now: Instant)
    requires DraftsInv(s) && SealDraftError(s, id, ds, now).None?
    ensures var draft := s.imports[id].(candidates := Bound(s.imports[id].candidates, TrimAll(ds)), isSealed := true);
            Changed(s, SealDraft(s, id, ds, now), id, draft) && Decided(draft)
  {
    SealingDecidesEveryCandidate(s.imports[id], TrimAll(ds));
  }

  /**
   Sealing succeeds exactly on an unsealed, unexpired draft whose candidates are named once
   each by valid dispositions; it then seals that draft with a disposition on every candidate.
   */
  lemma SealingSeals(run: seq<Event>, id: string, ds: seq<Disposition>, now: Instant)
    requires After(run).Some?
    ensures var s, given := After(run).value, TrimAll(ds);
            && (SealDraftError(s, id, ds, now).None? <==>
                  && id in s.imports && !s.imports[id].isSealed && s.imports[id].expiresAt > now
                  && |ds| == |s.imports[id].order|
                  && (forall i :: 0 <= i < |given| ==>
                        given[i].candidateID in s.imports[id].candidates &&
                        ValidDisposition(s.imports[id].candidates[given[i].candidateID], given[i]))
                  && (forall i, j :: 0 <= i < j < |given| ==> given[i].candidateID != given[j].candidateID))
            && (SealDraftError(s, id, ds, now).None? ==>
                  var draft := s.imports[id].(candidates := Bound(s.imports[id].candidates, given), isSealed := true);
                  Changed(s, SealDraft(s, id, ds, now), id, draft) && Decided(draft))
            && (SealDraftError(s, id, ds, now).Some? ==> RefusedDraft(s, SealDraft(s, id, ds, now), id, now))
  {
    RunsKeepInv(run);
    var s := After(run).value;
    if id in s.imports { AcceptedIffDistinctAndValid(s.imports[id].candidates, TrimAll(ds)); }
    if id in s.imports { DeletingRemoves(s, id, now); }
    if SealDraftError(s, id, ds, now).None? { SealChanges(s, id, ds, now); }
  }

  /** The drafts that are still there at the reading: claimed, or within their window. */
  ghost function Live(s: State, now: Instant): map<string, Draft> {
    map i | i in s.imports && (s.imports[i].claimed || s.imports[i].expiresAt > now) :: s.imports[i]
  }

  lemma UnexpiredIsLive(s: State, now: Instant)
    ensures Unexpired(s.imports, now) == Live(s, now)
  {
  }

  lemma PrunedCounts(s: State, now: Instant)
    requires Core(s)
    ensures var p := PruneImports(s, now);
            && p.imports == Unexpired(s.imports, now) && p.reserved == s.reserved
            && p.slots == |p.imports| + |p.reserved|
            && p.bytes == Held(p.imports) + Total(p.reserved)
  {
  }

  lemma PruningAllPrunesDrafts(s: State, now: Instant)
    ensures var p, q := Prune(s, now), PruneImports(s, now);
            p.imports == q.imports && p.bytes == q.bytes && p.reserved == q.reserved
  {
  }

  /** Pruning leaves exactly the live drafts, and the counters count them and the reservations. */
  lemma PrunedIsLive(run: seq<Event>, now: Instant)
    requires After(run).Some?
    ensures var s, p := After(run).value, PruneImports(After(run).value, now);
            && p.imports == Live(s, now) && p.reserved == s.reserved
            && p.slots == |Live(s, now)| + |s.reserved|
            && p.bytes == Held(Live(s, now)) + Total(s.reserved)
  {
    RunsKeepInv(run);
    PrunedCounts(After(run).value, now);
    UnexpiredIsLive(After(run).value, now);
  }

  lemma ReservingReserves(s: State, ticket: nat, raw: nat, now: Instant)
    ensures Reserve(s, ticket, raw, now).reserved ==
            if ReserveError(s, raw, now).None? then s.reserved[ticket := raw] else s.reserved
  {
  }

  /** A reservation is refused only for a large document, a shutdown, or a limit that live drafts and reservations fill. */
  lemma ReservingIsRefusedIff(run: seq<Event>, ticket: nat, raw: nat, now: Instant)
    requires After(run).Some? && ticket !in After(run).value.reserved
    ensures var s := After(run).value;
            var n := Reserve(s, ticket, raw, now);
            && (ReserveError(s, raw, now).None? <==>
                  && raw <= MAX_DOCUMENT_BYTES && !s.shutdown
                  && |Live(s, now)| + |s.reserved| < MAX_DRAFTS
                  && Held(Live(s, now)) + Total(s.reserved) + raw <= MAX_AGGREGATE_BYTES)
            && n.reserved == (if ReserveError(s, raw, now).None? then s.reserved[ticket := raw] else s.reserved)
            && n.imports == (if raw > MAX_DOCUMENT_BYTES || s.shutdown then s.imports else Live(s, now))
  {
    PrunedIsLive(run, now);
    ReserveOnlyPrunes(After(run).value, ticket, raw, now);
    ReservingReserves(After(run).value, ticket, raw, now);
  }

  /** Staging fails only for a shutdown, a colliding identifier or memory; it then adds the draft to the live ones. */
  lemma StagingAddsIff(run: seq<Event>, ticket: nat, id: string, draft: Draft, now: Instant)
    requires After(run).Some? && ticket in After(run).value.reserved
    ensures var s := After(run).value;
            var n := Stage(s, ticket, Some(id), draft, now);
            && (StageError(s, ticket, Some(id), draft, now).None? <==>
                  && !s.shutdown && id !in Live(s, now)
                  && Held(Live(s, now)) + Total(s.reserved - {ticket}) + draft.size <= MAX_AGGREGATE_BYTES)
            && (if StageError(s, ticket, Some(id), draft, now).None?
                then n.imports == Live(s, now)[id := draft] && n.reserved == s.reserved - {ticket}
                else n.imports == (if s.shutdown then s.imports else Live(s, now)) && n.reserved == s.reserved)
  {
    PrunedIsLive(run, now);
    PruningAllPrunesDrafts(After(run).value, now);
    TotalRemove(After(run).value.reserved, ticket);
  }

  // ---- drafts: how they leave and come back ----

  /** All drafts come from the old ones by pruning. */
  ghost predicate OnlyPruned(s: State, s': State, now: Instant, id: string) {
    && (id in s'.imports ==> id in s.imports)
    && (id in s.imports && (s.imports[id].claimed || s.imports[id].expiresAt > now) ==> Spares(s, s', id))
  }

  lemma BeginCheckOnlyPrunes(s: State, now: Instant, id: string)
    ensures OnlyPruned(s, BeginCheck(s, now), now, id)
    ensures OnlyPruned(s, Reconcile(s, now), now, id)
  {
    PrunedDraft(s, now, id);
  }

  lemma ExpireOnlyPrunes(s: State, epoch: nat, now: Instant, id: string)
    ensures OnlyPruned(s, Expire(s, epoch, now), now, id)
  {
    PrunedDraft(Disarmed(s), now, id);
  }

  lemma PollOnlyPrunes(s: State, loginID: string, now: Instant, id: string)
    ensures OnlyPruned(s, Poll(s, now), now, id)
    ensures OnlyPruned(s, FinalizeLogin(s, loginID, now), now, id)
  {
    PrunedDraft(s, now, id);
  }

  lemma ClaimOnlyPrunes(s: State, state: string, now: Instant, id: string)
    ensures OnlyPruned(s, ClaimLogin(s, state, now), now, id)
  {
    PrunedDraft(s, now, id);
    assert ClaimLogin(s, state, now).imports == Prune(s, now).imports;
  }

  lemma CancelOnlyPrunes(s: State, state: string, now: Instant, id: string)
    ensures OnlyPruned(s, CancelLogin(s, state, now), now, id)
  {
    PrunedDraft(s, now, id);
    assert CancelPending(Prune(s, now), state).imports == Prune(s, now).imports;
  }

  lemma ExchangeOnlyPrunes(s: State, login: PendingLogin, account: Option<string>, now: Instant, id: string)
    ensures OnlyPruned(s, ExchangeDone(s, login, account, now), now, id)
  {
    var d := ForgetExchange(s, login);
    assert d.imports == s.imports;
    PrunedDraft(d, now, id);
  }

  lemma LoginStepOnlyPrunes(s: State, e: Event, id: string)
    requires Enabled(s, e) && !OnDrafts(e) && !e.ShutdownEvent?
    ensures if Clock(e).Some? then OnlyPruned(s, LoginNext(s, e), Clock(e).value, id) else LoginNext(s, e).imports == s.imports
  {
    match e
    case BeginCheckEvent(now) => BeginCheckOnlyPrunes(s, now, id);
    case BeginStoreEvent(_, _, _) =>
    case BeginFailsEvent =>
    case ExpireEvent(epoch, now) => ExpireOnlyPrunes(s, epoch, now, id);
    case ReconcileEvent(now) => BeginCheckOnlyPrunes(s, now, id);
    case StopEndpointEvent(_) =>
    case PollEvent(now) => PollOnlyPrunes(s, "", now, id);
    case FinalizeLoginEvent(l, now) => PollOnlyPrunes(s, l, now, id);
    case ClaimLoginEvent(st, now) => ClaimOnlyPrunes(s, st, now, id);
    case CancelLoginEvent(st, now) => CancelOnlyPrunes(s, st, now, id);
    case ExchangeFailedEvent(_, _) =>
    case ExchangeDoneEvent(login, acc, now) => ExchangeOnlyPrunes(s, login, acc, now, id);
  }

  lemma LoginStepAddsNoDraft(s: State, e: Event, id: string)
    requires Enabled(s, e) && !OnDrafts(e) && id !in s.imports
    ensures id !in LoginNext(s, e).imports
  {
    if !e.ShutdownEvent? { LoginStepOnlyPrunes(s, e, id); }
  }

  lemma DraftStepAddsNoDraft(s: State, e: Event, id: string)
    requires Enabled(s, e) && OnDrafts(e) && id !in s.imports && !(e.StageEvent? && e.generated == Some(id))
    ensures id !in DraftNext(s, e).imports
  {
    match e
    case ReserveEvent(t, raw, now) => ReserveAt(s, t, raw, now, id);
    case UnreserveEvent(t) => UnreserveAt(s, t);
    case StageEvent(t, generated, draft, now) => StageAt(s, t, generated, draft, now, id);
    case SealEvent(i, ds, now) => SealAt(s, i, ds, now, id);
    case ClaimDraftEvent(i, now) => ClaimDraftAt(s, i, now, id);
    case ReleaseDraftEvent(i, now) => ReleaseAt(s, i, now, id);
    case FinalizeDraftEvent(i, now) => FinalizeAt(s, i, now, id);
    case CancelDraftEvent(i, now) => CancelAt(s, i, now, id);
  }

  ghost predicate NeverStaged(run: seq<Event>, i: nat, id: string) {
    forall k :: i <= k < |run| ==> !(run[k].StageEvent? && run[k].generated == Some(id))
  }

  lemma NeverStagedLater(front: seq<Event>, later: seq<Event>, id: string)
    requires NeverStaged(later, 0, id)
    ensures NeverStaged(front + later, |front|, id)
  {
    assert forall k :: |front| <= k < |front + later| ==> (front + later)[k] == later[k - |front|];
  }

  lemma {:induction false} AbsentStaysAbsent(run: seq<Event>, i: nat, id: string)
    requires After(run).Some? && i <= |run| && NeverStaged(run, i, id)
    requires After(run[..i]).Some? && id !in After(run[..i]).value.imports
    ensures id !in After(run).value.imports
  {
    if i == |run| {
      assert run[..i] == run;
    } else {
      var front, e := run[..|run| - 1], run[|run| - 1];
      assert front[..i] == run[..i];
      AbsentStaysAbsent(front, i, id);
      if OnDrafts(e) { DraftStepAddsNoDraft(After(front).value, e, id); } else { LoginStepAddsNoDraft(After(front).value, e, id); }
    }
  }

  /**
   In every run, once a draft was finalized successfully, no claim of its identifier succeeds
   unless a draft is staged under that identifier in between: its candidates are committed once.
   */
  lemma FinalizedDraftsAreNotClaimedAgain(run: seq<Event>, id: string, t: Instant, later: seq<Event>, now: Instant)
    requires var done := run + [FinalizeDraftEvent(id, t)]; After(done).Some? && After(done + later).Some?
    requires FinalizeError(After(run).value, id, t).None? && NeverStaged(later, 0, id)
    ensures ClaimError(After(run + [FinalizeDraftEvent(id, t)] + later).value, id, now) == Some(NotFound)
  {
    var e := FinalizeDraftEvent(id, t);
    var done := run + [e];
    var all := done + later;
    LastStep(run, e);
    FinalizeAt(After(run).value, id, t, id);
    assert all[..|done|] == done;
    NeverStagedLater(done, later, id);
    AbsentStaysAbsent(all, |done|, id);
  }

  /** Why a draft may leave: its window elapsed while idle or at its release, its cancellation while idle, its finalization while claimed, a shutdown. */
  predicate MayRemove(e: Event, id: string, draft: Draft) {
    || (PastExpiry(e, draft.expiresAt) && (!draft.claimed || (e.ReleaseDraftEvent? && e.id == id)))
    || (!draft.claimed && e.CancelDraftEvent? && e.id == id)
    || (draft.claimed && e.FinalizeDraftEvent? && e.id == id)
    || e.ShutdownEvent?
  }

  lemma LoginStepKeepsDraft(s: State, e: Event, id: string)
    requires Enabled(s, e) && !OnDrafts(e) && id in s.imports && !MayRemove(e, id, s.imports[id])
    ensures Spares(s, LoginNext(s, e), id)
  {
    LoginStepOnlyPrunes(s, e, id);
  }

  lemma DraftStepKeepsDraft(s: State, e: Event, id: string)
    requires Enabled(s, e) && OnDrafts(e) && id in s.imports && !MayRemove(e, id, s.imports[id])
    ensures id in DraftNext(s, e).imports
    ensures !((e.SealEvent? || e.ClaimDraftEvent? || e.ReleaseDraftEvent?) && e.id == id) ==> Spares(s, DraftNext(s, e), id)
  {
    match e
    case ReserveEvent(t, raw, now) => ReserveAt(s, t, raw, now, id);
    case UnreserveEvent(t) => UnreserveAt(s, t);
    case StageEvent(t, generated, draft, now) => StageAt(s, t, generated, draft, now, id);
    case SealEvent(i, ds, now) => SealAt(s, i, ds, now, id);
    case ClaimDraftEvent(i, now) => ClaimDraftAt(s, i, now, id);
    case ReleaseDraftEvent(i, now) => ReleaseAt(s, i, now, id);
    case FinalizeDraftEvent(i, now) => FinalizeAt(s, i, now, id);
    case CancelDraftEvent(i, now) => CancelAt(s, i, now, id);
  }

  /** In every run a draft leaves only for one of these reasons, and only its own seal, claim and release change it. */
  lemma DraftsLeaveOnlyForAReason(run: seq<Event>, e: Event, id: string)
    requires After(run).Some? && Enabled(After(run).value, e) && id in After(run).value.imports
    ensures !MayRemove(e, id, After(run).value.imports[id]) ==>
              id in Next(After(run).value, e).imports &&
              (!((e.SealEvent? || e.ClaimDraftEvent? || e.ReleaseDraftEvent?) && e.id == id) ==>
                 Spares(After(run).value, Next(After(run).value, e), id))
  {
    var s := After(run).value;
    if !MayRemove(e, id, s.imports[id]) {
      if OnDrafts(e) { DraftStepKeepsDraft(s, e, id); } else { LoginStepKeepsDraft(s, e, id); }
    }
  }
}
