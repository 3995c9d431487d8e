/**
 Every interleaving of callers that refresh one credential session. A caller is a
 thread; each critical section of the registry lock, each lease acquisition and
 release, each remote exchange and each store operation is one step. The remote
 exchange cannot be undone, and a store write may commit and still report an error.

 Assumed of the environment: the mutation lease is exclusive and every writer of the
 session holds it; a successful exchange returns material never exchanged before
 (RFC 6749, section 6); outside writers store only material never exchanged.
 */
module RefreshProtocol {
  import opened Collections
  import opened UsageObservation
  import opened RefreshRegistry
  import Text

  /** The stored session. */
  datatype Record = Record(
    version: nat,
    secret: Secret,
    subject: string,
    active: bool,
    planType: string,
    usage: Option<Usage>,
    lastRefresh: Instant,
    expiresAt: Instant)
  {
    function Decoded(): Credential {
      Credential(secret, subject, planType, usage, lastRefresh, expiresAt)
    }

    /** The generation the record holds. */
    function Generation(): Secret {
      Material(secret)
    }

    predicate Refreshable() {
      active && Decoded().Ready()
    }

    /** The record that storing a pending exchange over this one produces. */
    function Committing(p: PendingCommit): Record {
      var newer := UsageNewer(usage, p.credential.usage);
      Record(version + 1,
             Material(p.credential.secret),
             subject,
             true,
             if newer && usage.value.planType != "" then usage.value.planType else p.credential.planType,
             CommitUsage(usage, p.credential.usage),
             p.credential.lastRefresh,
             p.credential.expiresAt)
    }
  }

  datatype Outcome = Success(credential: Credential) | Failure | Cancelled

  /** A store write: applied, not applied, or applied although it reported an error. */
  datatype Write = Applied | Refused | AppliedWithError

  /**
   Why an exchange yields nothing: no client profile could be resolved, the endpoint refused or
   was not reached, or it consumed the generation but its answer was rejected here (it could not
   be decoded, or its tokens name another account).
   */
  datatype ExchangeFailure = NotAttempted | RefusedRemotely | RejectedLocally

  datatype UsageReply = UsageFetched(usage: Usage) | UsageAuthLost | UsageUnavailable

  datatype Role = Refresher(call: nat, force: bool) | UsageReader

  datatype Phase =
    | Waiting(call: nat)
    | Queued(role: Role)
    | Owning(role: Role)
    | Loaded(role: Role, snap: Record)
    | Resuming(role: Role, snap: Record, commit: PendingCommit)
    | Evicting(role: Role, snap: Record)
    | Committing(role: Role, snap: Record, commit: PendingCommit, resumed: bool)
    | Stored(role: Role, snap: Record, commit: PendingCommit, resumed: bool)
    | Remembered(role: Role, snap: Record, commit: PendingCommit, resumed: bool)
    | Deciding(role: Role, snap: Record, force: bool)
    | Exchanging(role: Role, snap: Record)
    | Exchanged(role: Role, snap: Record, commit: PendingCommit)
    | Failing(role: Role, snap: Record, terminal: bool)
    | Releasing(role: Role, outcome: Outcome)
    | Finishing(call: nat, outcome: Outcome)
    | Closed(call: nat, outcome: Outcome)
    | Returned(outcome: Outcome, joined: Option<nat>)
  {
    predicate HoldsLease() {
      !(Waiting? || Queued? || Finishing? || Closed? || Returned?)
    }

    /** The call this thread must still finish, if it leads one. */
    function Leads(): Option<nat> {
      match this
      case Waiting(_) => None
      case Returned(_, _) => None
      case Finishing(c, _) => Some(c)
      case Closed(c, _) => Some(c)
      case _ => if role.Refresher? then Some(role.call) else None
    }
  }

  datatype Event =
    | Start(t: nat, force: bool)
    | StartUsage(t: nat)
    | Acquire(t: nat)
    | AcquireFails(t: nat)
    | Reload(t: nat, ok: bool)
    | ReadPending(t: nat)
    | Compare(t: nat)
    | Evict(t: nat)
    | Cas(t: nat, write: Write)
    | Remember(t: nat, now: Instant)
    | Forget(t: nat)
    | Decide(t: nat, now: Instant)
    | Exchange(t: nat, result: Credential)
    | ExchangeFails(t: nat, failure: ExchangeFailure, terminal: bool)
    | RecordPending(t: nat)
    | FailureWrite(t: nat, write: Write)
    | ReadUsage(t: nat, reply: UsageReply, write: Write)
    | Release(t: nat)
    | CloseCall(t: nat)
    | Deregister(t: nat)
    | WaiterReturns(t: nat)
    | WaiterCancelled(t: nat)
    | Invalidate
    | PruneRecent(now: Instant)
    | Replace(record: Record)
    | Touch(active: bool)
    | Observe(observed: Usage, write: Write)

  /** An in-flight call: the thread that leads it and, once closed, its outcome. */
  datatype CallRecord = CallRecord(leader: nat, outcome: Option<Outcome>)

  datatype Fate = WasCommitted | WasSuperseded

  /**
   issued lists every successful exchange in order, fate says how each was resolved, and
   observed lists the fetch times of accepted observations; the three are histories.
   */
  datatype State = State(
    store: Record,
    slot: Slot<nat>,
    lease: Option<nat>,
    threads: map<nat, Phase>,
    calls: seq<CallRecord>,
    issued: seq<PendingCommit>,
    fate: map<nat, Fate>,
    observed: seq<Instant>)
  {
    function At(t: nat, p: Phase): State {
      this.(threads := threads[t := p])
    }

    ghost predicate WasExchanged(m: Secret) {
      exists i :: 0 <= i < |issued| && issued[i].source == m
    }

    /** The exchange result that is not stored yet: pending in the registry, or still in the lease holder's hand. */
    function Held(): Option<PendingCommit> {
      if slot.pending.Some? then slot.pending
      else if lease.Some? && lease.value in threads && threads[lease.value].Exchanged? then
        Some(threads[lease.value].commit)
      else None
    }
  }

  ghost predicate Initial(s: State) {
    s.slot == Slot(None, None, None) && s.lease == None && s.threads == map[] && s.calls == [] &&
    s.issued == [] && s.fate == map[] && s.observed == []
  }

  // Steps outside the lease: starting, the single-flight calls, and the environment.

  ghost predicate OutsideEnabled(s: State, e: Event) {
    match e
    case Start(t, _) => t !in s.threads
    case StartUsage(t) => t !in s.threads
    case AcquireFails(t) => t in s.threads && s.threads[t].Queued?
    case CloseCall(t) => t in s.threads && s.threads[t].Finishing? && s.threads[t].call < |s.calls|
    case Deregister(t) => t in s.threads && s.threads[t].Closed?
    case WaiterReturns(t) =>
      t in s.threads && s.threads[t].Waiting? && s.threads[t].call < |s.calls| &&
      s.calls[s.threads[t].call].outcome.Some?
    case WaiterCancelled(t) => t in s.threads && s.threads[t].Waiting?
    case Invalidate => true
    case PruneRecent(_) => true
    case Replace(r) => s.lease == None && r.version > s.store.version && !s.WasExchanged(r.Generation())
    case Touch(_) => s.lease == None
    case Observe(u, w) =>
      s.lease == None && (!w.Refused? ==> MergeObserved(s.store.usage, Some(u)).Merged?)
    case _ => false
  }

  function OutsideNext(s: State, e: Event): State
    requires OutsideEnabled(s, e)
  {
    match e
    case Start(t, force) =>
      var c := |s.calls|;
      if s.slot.inFlight.Some? then s.At(t, Waiting(s.slot.inFlight.value))
      else s.(slot := s.slot.Begun(c), calls := s.calls + [CallRecord(t, None)]).At(t, Queued(Refresher(c, force)))
    case StartUsage(t) => s.At(t, Queued(UsageReader))
    case AcquireFails(t) => s.At(t, Unleased(s.threads[t].role, Failure))
    case CloseCall(t) =>
      var p := s.threads[t];
      s.(calls := s.calls[p.call := s.calls[p.call].(outcome := Some(p.outcome))]).At(t, Closed(p.call, p.outcome))
    case Deregister(t) =>
      var p := s.threads[t];
      s.(slot := s.slot.Finished(p.call)).At(t, Returned(p.outcome, Some(p.call)))
    case WaiterReturns(t) =>
      var c := s.threads[t].call;
      s.At(t, Returned(s.calls[c].outcome.value, Some(c)))
    case WaiterCancelled(t) => s.At(t, Returned(Cancelled, Some(s.threads[t].call)))
    case Invalidate => s.(slot := s.slot.Invalidated())
    case PruneRecent(now) => s.(slot := s.slot.Pruned(now))
    case Replace(r) => s.(store := r)
    case Touch(active) => s.(store := s.store.(version := s.store.version + 1, active := active))
    case Observe(u, w) =>
      if w.Refused? then s
      else
        var merged := MergeObserved(s.store.usage, Some(u)).usage;
        s.(store := s.store.(version := s.store.version + 1, usage := Some(merged),
                             planType := if merged.planType != "" then merged.planType else s.store.planType),
           observed := s.observed + [u.fetchedAt.value])
  }

  // Steps of the lease holder that only read the store or the registry.

  predicate PreparingEnabled(s: State, e: Event) {
    match e
    case Acquire(t) => t in s.threads && s.threads[t].Queued? && s.lease == None
    case Reload(t, ok) => t in s.threads && s.threads[t].Owning? && (ok ==> s.store.Refreshable())
    case ReadPending(t) => t in s.threads && s.threads[t].Loaded?
    case Compare(t) => t in s.threads && s.threads[t].Resuming?
    case Evict(t) => t in s.threads && s.threads[t].Evicting?
    case Decide(t, _) => t in s.threads && s.threads[t].Deciding? && s.threads[t].role.Refresher?
    case Release(t) => t in s.threads && s.threads[t].Releasing?
    case _ => false
  }

  function PreparingNext(s: State, e: Event): State
    requires PreparingEnabled(s, e)
  {
    var p := s.threads[e.t];
    match e
    case Acquire(t) => s.(lease := Some(t)).At(t, Owning(p.role))
    case Reload(t, ok) => s.At(t, if ok then Loaded(p.role, s.store) else Releasing(p.role, Failure))
    case ReadPending(t) =>
      s.At(t, if s.slot.pending.Some? then Resuming(p.role, p.snap, s.slot.pending.value)
              else Deciding(p.role, p.snap, p.role.Refresher? && p.role.force))
    case Compare(t) =>
      if p.snap.version < p.commit.sourceVersion then s.At(t, Releasing(p.role, Failure))
      else if p.snap.Generation() != p.commit.source || p.snap.subject != p.commit.subject then
        s.(slot := s.slot.Forgotten(p.commit),
           fate := if p.commit.operation in s.fate then s.fate else s.fate[p.commit.operation := WasSuperseded])
         .At(t, Evicting(p.role, p.snap))
      else s.At(t, Phase.Committing(p.role, p.snap, p.commit, true))
    case Evict(t) => s.(slot := s.slot.(recent := None)).At(t, Deciding(p.role, p.snap, false))
    case Decide(t, now) =>
      s.At(t, if !p.force && p.snap.expiresAt > now + PROACTIVE_REFRESH_WINDOW
              then Releasing(p.role, Success(p.snap.Decoded())) else Exchanging(p.role, p.snap))
    case Release(t) => s.(lease := None).At(t, Unleased(p.role, p.outcome))
  }

  // Steps of the lease holder that exchange, write the store, or settle the pending result.

  ghost predicate WritingEnabled(s: State, e: Event) {
    match e
    case Cas(t, w) =>
      t in s.threads && s.threads[t].Committing? &&
      (!w.Refused? ==>
         s.threads[t].snap.version == s.store.version &&
         s.threads[t].snap.subject == Text.TrimSpace(s.threads[t].commit.credential.accountID))
    case Remember(t, _) => t in s.threads && s.threads[t].Stored?
    case Forget(t) => t in s.threads && s.threads[t].Remembered?
    case Exchange(t, r) =>
      t in s.threads && s.threads[t].Exchanging? &&
      !s.WasExchanged(Material(r.secret)) && Material(r.secret) != s.threads[t].snap.Generation()
    case ExchangeFails(t, _, _) => t in s.threads && s.threads[t].Exchanging?
    case RecordPending(t) => t in s.threads && s.threads[t].Exchanged?
    case FailureWrite(t, _) => t in s.threads && s.threads[t].Failing?
    case ReadUsage(t, _, _) => t in s.threads && s.threads[t].Deciding? && s.threads[t].role.UsageReader?
    case _ => false
  }

  function WritingNext(s: State, e: Event): State
    requires WritingEnabled(s, e)
  {
    var p := s.threads[e.t];
    match e
    case Cas(t, w) =>
      var written := p.snap.Committing(p.commit);
      if w.Refused? then s.At(t, Releasing(p.role, Failure))
      else s.(store := written, fate := s.fate[p.commit.operation := WasCommitted])
            .At(t, if w.Applied? then Stored(p.role, written, p.commit, p.resumed) else Releasing(p.role, Failure))
    case Remember(t, now) =>
      s.(slot := s.slot.Pruned(now).Stored(p.snap.Decoded(), now)).At(t, Remembered(p.role, p.snap, p.commit, p.resumed))
    case Forget(t) =>
      s.(slot := s.slot.Forgotten(p.commit))
       .At(t, if p.resumed then Deciding(p.role, p.snap, false) else Releasing(p.role, Success(p.snap.Decoded())))
    case Exchange(t, r) =>
      var commit := PendingCommit(|s.issued|, p.snap.version, p.snap.Generation(), p.snap.subject, r);
      s.(issued := s.issued + [commit]).At(t, Exchanged(p.role, p.snap, commit))
    case ExchangeFails(t, failure, terminal) =>
      s.At(t, if failure.NotAttempted? then Releasing(p.role, Failure) else Failing(p.role, p.snap, terminal))
    case RecordPending(t) =>
      s.(slot := s.slot.Recorded(p.commit)).At(t, Phase.Committing(p.role, p.snap, p.commit, false))
    case FailureWrite(t, w) =>
      var written := s.store.(version := s.store.version + 1, usage := p.snap.usage, planType := p.snap.planType,
                              active := p.snap.active && !p.terminal);
      s.(store := if w.Refused? then s.store else written).At(t, Releasing(p.role, Failure))
    case ReadUsage(t, reply, w) =>
      var written := s.store.(version := s.store.version + 1,
                              usage := if reply.UsageFetched? then Some(reply.usage) else p.snap.usage,
                              active := reply.UsageFetched?);
      s.(store := if w.Refused? || reply.UsageUnavailable? then s.store else written)
       .At(t, Releasing(p.role, if w.Applied? && reply.UsageFetched? then Success(p.snap.Decoded()) else Failure))
  }

  ghost predicate Enabled(s: State, e: Event) {
    OutsideEnabled(s, e) || PreparingEnabled(s, e) || WritingEnabled(s, e)
  }

  ghost function Next(s: State, e: Event): State
    requires Enabled(s, e)
  {
    if OutsideEnabled(s, e) then OutsideNext(s, e)
    else if PreparingEnabled(s, e) then PreparingNext(s, e)
    else WritingNext(s, e)
  }

  /** Where a thread goes once it no longer holds the lease. */
  function Unleased(role: Role, outcome: Outcome): Phase {
    match role
    case Refresher(c, _) => Finishing(c, outcome)
    case UsageReader => Returned(outcome, None)
  }

  /** The state after a run from s, or None where some event could not happen. */
  ghost function After(s: State, run: seq<Event>): Option<State> {
    if run == [] then Some(s)
    else
      var before := After(s, run[..|run| - 1]);
      if before.Some? && Enabled(before.value, run[|run| - 1]) then Some(Next(before.value, run[|run| - 1]))
      else None
  }

  // ---- exchanges ----

  ghost predicate LeaseInv(s: State) {
    && (forall t <- s.threads :: s.threads[t].HoldsLease() <==> s.lease == Some(t))
    && (s.lease.Some? ==> s.lease.value in s.threads)
  }

  /** What the lease holder knows: its snapshot is the stored record, and whether a result is pending. */
  ghost predicate HolderInv(s: State, p: Phase) {
    match p
    case Loaded(_, snap) => snap == s.store
    case Resuming(_, snap, commit) => snap == s.store && s.slot.pending == Some(commit)
    case Evicting(_, snap) => snap == s.store && s.slot.pending == None
    case Committing(_, snap, commit, _) =>
      snap == s.store && s.slot.pending == Some(commit) &&
      snap.Generation() == commit.source && snap.subject == commit.subject
    case Stored(_, snap, commit, _) =>
      snap == s.store && s.slot.pending == Some(commit) && commit.operation in s.fate &&
      snap.Generation() == Material(commit.credential.secret)
    case Remembered(_, snap, commit, _) =>
      snap == s.store && s.slot.pending == Some(commit) && commit.operation in s.fate &&
      snap.Generation() == Material(commit.credential.secret)
    case Deciding(_, snap, _) => snap == s.store && s.slot.pending == None
    case Exchanging(_, snap) => snap == s.store && s.slot.pending == None
    case Failing(_, snap, _) => snap == s.store && s.slot.pending == None
    case Exchanged(_, snap, commit) =>
      snap == s.store && s.slot.pending == None && snap.Generation() == commit.source && snap.subject == commit.subject
    case _ => true
  }

  /** A held result belongs to a real exchange, is not older than the store and has not been exchanged itself. */
  ghost predicate HeldInv(s: State) {
    var held := s.Held();
    held.Some? ==>
      held.value.operation < |s.issued| && s.issued[held.value.operation] == held.value &&
      held.value.sourceVersion <= s.store.version &&
      !s.WasExchanged(Material(held.value.credential.secret))
  }

  /** The stored generation was exchanged only if the result of exactly that exchange is still held. */
  ghost predicate KeyInv(s: State) {
    s.WasExchanged(s.store.Generation()) ==>
      s.Held().Some? && s.Held().value.source == s.store.Generation() && s.Held().value.subject == s.store.subject
  }

  /** No generation is exchanged twice. */
  ghost predicate ExchangedOnce(s: State) {
    forall i, j :: 0 <= i < j < |s.issued| ==> s.issued[i].source != s.issued[j].source
  }

  /** No exchange result is lost: each is held, was committed, or was superseded. */
  ghost predicate NothingLost(s: State) {
    forall i :: 0 <= i < |s.issued| ==>
      s.issued[i].operation == i && (i in s.fate || s.Held() == Some(s.issued[i]))
  }

  ghost predicate ExchangeInv(s: State) {
    && LeaseInv(s)
    && (s.lease.Some? ==> HolderInv(s, s.threads[s.lease.value]))
    && HeldInv(s)
    && KeyInv(s)
    && ExchangedOnce(s)
    && NothingLost(s)
  }

  /**
   What every step outside the lease amounts to: it leaves the exchange state and the lease
   holder alone, and rewrites the store only while the lease is free, either around the same
   generation or with one that was never exchanged.
   */
  ghost predicate Quiet(s: State, s': State) {
    && s'.issued == s.issued && s'.fate == s.fate && s'.lease == s.lease && s'.slot.pending == s.slot.pending
    && (forall t <- s'.threads :: s.lease != Some(t) ==> !s'.threads[t].HoldsLease())
    && (s.lease.Some? ==>
          s.lease.value in s.threads && s.lease.value in s'.threads &&
          s'.threads[s.lease.value] == s.threads[s.lease.value] && s'.store == s.store)
    && s'.store.version >= s.store.version
    && ((s'.store.Generation() == s.store.Generation() && s'.store.subject == s.store.subject) ||
        !s.WasExchanged(s'.store.Generation()))
  }

  lemma OutsideIsQuiet(s: State, e: Event)
    requires LeaseInv(s) && OutsideEnabled(s, e)
    ensures Quiet(s, OutsideNext(s, e))
  {
  }

  lemma QuietKeepsExchangeInv(s: State, s': State)
    requires ExchangeInv(s) && Quiet(s, s')
    ensures ExchangeInv(s')
  {
    assert s'.Held() == s.Held();
    assert forall m :: s'.WasExchanged(m) <==> s.WasExchanged(m);
  }

  /** Superseding is sound: the stored generation differs from the pending source, so it was never exchanged. */
  lemma CompareKeepsExchangeInv(s: State, e: Event)
    requires ExchangeInv(s) && PreparingEnabled(s, e) && e.Compare?
    ensures ExchangeInv(PreparingNext(s, e))
  {
    var s' := PreparingNext(s, e);
    assert LeaseInv(s');
    assert forall m :: s'.WasExchanged(m) <==> s.WasExchanged(m) by { assert s'.issued == s.issued; }
    assert s'.Held() == s'.slot.pending;
  }

  /** s' differs from s in the lease, its holder and the caches only, and the holder knows what is true. */
  ghost predicate Moves(s: State, s': State) {
    && s'.store == s.store && s'.issued == s.issued && s'.fate == s.fate && s'.Held() == s.Held()
    && LeaseInv(s')
    && (s'.lease.Some? ==> HolderInv(s', s'.threads[s'.lease.value]))
  }

  lemma MovesKeepExchangeInv(s: State, s': State)
    requires ExchangeInv(s) && Moves(s, s')
    ensures ExchangeInv(s')
  {
    assert forall m :: s'.WasExchanged(m) <==> s.WasExchanged(m);
  }

  lemma AcquireMoves(s: State, e: Event)
    requires ExchangeInv(s) && PreparingEnabled(s, e) && (e.Acquire? || e.Release?)
    ensures Moves(s, PreparingNext(s, e))
  {
    assert e.Acquire? || s.lease == Some(e.t);
  }

  lemma ReloadMoves(s: State, e: Event)
    requires ExchangeInv(s) && PreparingEnabled(s, e) && (e.Reload? || e.ReadPending?)
    ensures Moves(s, PreparingNext(s, e))
  {
    assert s.lease == Some(e.t);
  }

  lemma DecideMoves(s: State, e: Event)
    requires ExchangeInv(s) && PreparingEnabled(s, e) && (e.Evict? || e.Decide?)
    ensures Moves(s, PreparingNext(s, e))
  {
    assert s.lease == Some(e.t);
  }

  lemma PreparingKeepsExchangeInv(s: State, e: Event)
    requires ExchangeInv(s) && PreparingEnabled(s, e) && !e.Compare?
    ensures ExchangeInv(PreparingNext(s, e))
  {
    if e.Acquire? || e.Release? { AcquireMoves(s, e); }
    else if e.Reload? || e.ReadPending? { ReloadMoves(s, e); }
    else { DecideMoves(s, e); }
    MovesKeepExchangeInv(s, PreparingNext(s, e));
  }

  lemma ExchangeKeepsExchangeInv(s: State, e: Event)
    requires ExchangeInv(s) && WritingEnabled(s, e) && e.Exchange?
    ensures ExchangeInv(WritingNext(s, e))
  {
    var s' := WritingNext(s, e);
    assert LeaseInv(s');
    assert s'.issued[|s.issued|].source == s.store.Generation();
    assert forall i :: 0 <= i < |s.issued| ==> s'.issued[i] == s.issued[i];
    assert s.Held() == None;
    assert s'.Held() == Some(s'.issued[|s.issued|]);
  }

  /** Whatever the write reports, the stored generation is the pending source or its unexchanged result. */
  lemma CasKeepsExchangeInv(s: State, e: Event)
    requires ExchangeInv(s) && WritingEnabled(s, e) && e.Cas?
    ensures ExchangeInv(WritingNext(s, e))
  {
    var s' := WritingNext(s, e);
    assert LeaseInv(s');
    MaterialIdempotent(s.threads[e.t].commit.credential.secret);
    assert forall m :: s'.WasExchanged(m) <==> s.WasExchanged(m) by { assert s'.issued == s.issued; }
    assert s'.Held() == s.Held() == s.slot.pending;
  }

  lemma RememberMoves(s: State, e: Event)
    requires ExchangeInv(s) && WritingEnabled(s, e) && (e.Remember? || e.ExchangeFails?)
    ensures Moves(s, WritingNext(s, e))
  {
    assert s.lease == Some(e.t);
  }

  lemma RecordMoves(s: State, e: Event)
    requires ExchangeInv(s) && WritingEnabled(s, e) && e.RecordPending?
    ensures Moves(s, WritingNext(s, e))
  {
    assert s.lease == Some(e.t);
  }

  lemma ForgetKeepsExchangeInv(s: State, e: Event)
    requires ExchangeInv(s) && WritingEnabled(s, e) && e.Forget?
    ensures ExchangeInv(WritingNext(s, e))
  {
    var s' := WritingNext(s, e);
    assert s.lease == Some(e.t) && LeaseInv(s');
    assert forall m :: s'.WasExchanged(m) <==> s.WasExchanged(m) by { assert s'.issued == s.issued; }
    assert s'.Held() == None && s.Held() == s.slot.pending;
  }

  lemma SettlingKeepsExchangeInv(s: State, e: Event)
    requires ExchangeInv(s) && WritingEnabled(s, e) && (e.Remember? || e.Forget? || e.RecordPending? || e.ExchangeFails?)
    ensures ExchangeInv(WritingNext(s, e))
  {
    if e.Forget? {
      ForgetKeepsExchangeInv(s, e);
    } else {
      if e.RecordPending? { RecordMoves(s, e); } else { RememberMoves(s, e); }
      MovesKeepExchangeInv(s, WritingNext(s, e));
    }
  }

  /** The holder rewrites the record around the same generation and subject and then lets go. */
  ghost predicate Rewrites(s: State, s': State) {
    && s'.issued == s.issued && s'.fate == s.fate && s'.Held() == s.Held() == None
    && s'.store.Generation() == s.store.Generation() && s'.store.subject == s.store.subject
    && LeaseInv(s')
    && s'.lease.Some? && s'.threads[s'.lease.value].Releasing?
  }

  lemma AuthWriteRewrites(s: State, e: Event)
    requires ExchangeInv(s) && WritingEnabled(s, e) && (e.FailureWrite? || e.ReadUsage?)
    ensures Rewrites(s, WritingNext(s, e))
  {
    assert s.lease == Some(e.t);
  }

  lemma AuthWriteKeepsExchangeInv(s: State, e: Event)
    requires ExchangeInv(s) && WritingEnabled(s, e) && (e.FailureWrite? || e.ReadUsage?)
    ensures ExchangeInv(WritingNext(s, e))
  {
    AuthWriteRewrites(s, e);
    RewritingKeepsExchangeInv(s, WritingNext(s, e));
  }

  lemma RewritingKeepsExchangeInv(s: State, s': State)
    requires ExchangeInv(s) && Rewrites(s, s')
    ensures ExchangeInv(s')
  {
    assert forall m :: s'.WasExchanged(m) <==> s.WasExchanged(m);
  }

  lemma StepKeepsExchangeInv(s: State, e: Event)
    requires ExchangeInv(s) && Enabled(s, e)
    ensures ExchangeInv(Next(s, e))
  {
    if OutsideEnabled(s, e) {
      OutsideIsQuiet(s, e);
      QuietKeepsExchangeInv(s, OutsideNext(s, e));
    } else if PreparingEnabled(s, e) {
      if e.Compare? { CompareKeepsExchangeInv(s, e); } else { PreparingKeepsExchangeInv(s, e); }
    } else if e.Exchange? {
      ExchangeKeepsExchangeInv(s, e);
    } else if e.Cas? {
      CasKeepsExchangeInv(s, e);
    } else if e.FailureWrite? || e.ReadUsage? {
      AuthWriteKeepsExchangeInv(s, e);
    } else {
      SettlingKeepsExchangeInv(s, e);
    }
  }

  lemma {:induction false} RunsKeepExchangeInv(s: State, run: seq<Event>)
    requires Initial(s) && After(s, run).Some?
    ensures ExchangeInv(After(s, run).value)
  {
    if run != [] {
      RunsKeepExchangeInv(s, run[..|run| - 1]);
      StepKeepsExchangeInv(After(s, run[..|run| - 1]).value, run[|run| - 1]);
    }
  }

  /**
   In every run no generation is exchanged twice, and a thread about to send an exchange,
   whether or not it will succeed, holds the stored generation and that generation has not
   been exchanged.
   */
  lemma NoGenerationExchangedTwice(s: State, run: seq<Event>)
    requires Initial(s) && After(s, run).Some?
    ensures ExchangedOnce(After(s, run).value)
    ensures var now := After(s, run).value;
            forall t <- now.threads :: now.threads[t].Exchanging? ==>
              now.threads[t].snap == now.store && !now.WasExchanged(now.store.Generation())
  {
    RunsKeepExchangeInv(s, run);
    var now := After(s, run).value;
    forall t <- now.threads | now.threads[t].Exchanging?
      ensures now.threads[t].snap == now.store && !now.WasExchanged(now.store.Generation())
    {
      assert now.lease == Some(t);
    }
  }

  /**
   In every run each successful exchange is still held, or it was committed or superseded and
   its source is no longer what the store holds.
   */
  lemma NoExchangeResultIsLost(s: State, run: seq<Event>, i: nat)
    requires Initial(s) && After(s, run).Some? && i < |After(s, run).value.issued|
    ensures var now := After(s, run).value;
            now.Held() == Some(now.issued[i]) || (i in now.fate && now.store.Generation() != now.issued[i].source)
  {
    RunsKeepExchangeInv(s, run);
    HeldOrResolved(After(s, run).value, i);
  }

  lemma HeldOrResolved(s: State, i: nat)
    requires ExchangeInv(s) && i < |s.issued|
    ensures s.Held() == Some(s.issued[i]) || (i in s.fate && s.store.Generation() != s.issued[i].source)
  {
    assert s.WasExchanged(s.issued[i].source);
  }

  // ---- what was sent ----

  datatype Answer = Kept | Refused | Rejected

  /** One exchange request: the generation it presented, and what became of the answer. */
  datatype Sending = Sending(generation: Secret, answer: Answer)

  /** The request that the step amounts to, if it is one. */
  function Sends(s: State, e: Event): Option<Sending> {
    match e
    case Exchange(t, _) =>
      if t in s.threads && s.threads[t].Exchanging? then Some(Sending(s.threads[t].snap.Generation(), Answer.Kept)) else None
    case ExchangeFails(t, failure, _) =>
      if t !in s.threads || !s.threads[t].Exchanging? || failure.NotAttempted? then None
      else Some(Sending(s.threads[t].snap.Generation(), if failure.RejectedLocally? then Rejected else Answer.Refused))
    case _ => None
  }

  /** All requests of a run, in order. */
  ghost function Sent(s: State, run: seq<Event>): seq<Sending>
    requires After(s, run).Some?
  {
    if run == [] then []
    else
      var front := run[..|run| - 1];
      var sends := Sends(After(s, front).value, run[|run| - 1]);
      Sent(s, front) + if sends.Some? then [sends.value] else []
  }

  /** Every request presents the stored generation, which no kept exchange has consumed. */
  lemma SendsTheStoredGeneration(s: State, e: Event)
    requires ExchangeInv(s) && Enabled(s, e) && Sends(s, e).Some?
    ensures Sends(s, e).value.generation == s.store.Generation() && !s.WasExchanged(s.store.Generation())
  {
    assert s.lease == Some(e.t);
    assert HolderInv(s, s.threads[e.t]);
    assert s.Held() == None;
  }

  /** The history of exchanges grows by exactly the kept requests. */
  lemma IssuedGrowsByKept(s: State, e: Event)
    requires Enabled(s, e)
    ensures Next(s, e).issued ==
            s.issued + if e.Exchange? then [PendingCommit(|s.issued|, s.threads[e.t].snap.version,
                                                          s.threads[e.t].snap.Generation(), s.threads[e.t].snap.subject, e.result)]
                       else []
  {
    if OutsideEnabled(s, e) {
    } else if PreparingEnabled(s, e) {
    } else {
    }
  }

  lemma KeptIsExchanged(s: State, e: Event, m: Secret)
    requires Enabled(s, e)
    ensures s.WasExchanged(m) ==> Next(s, e).WasExchanged(m)
    ensures Sends(s, e) == Some(Sending(m, Answer.Kept)) ==> Next(s, e).WasExchanged(m)
  {
    IssuedGrowsByKept(s, e);
    var s' := Next(s, e);
    if i :| 0 <= i < |s.issued| && s.issued[i].source == m { assert s'.issued[i].source == m; }
    if Sends(s, e) == Some(Sending(m, Answer.Kept)) { assert s'.issued[|s.issued|].source == m; }
  }

  /**
   In every run a generation is sent again only if the earlier request was refused or its
   answer rejected: once an answer was kept, no later request presents the same generation.
   */
  lemma {:induction false} KeptGenerationsAreNeverSentAgain(s: State, run: seq<Event>)
    requires Initial(s) && After(s, run).Some?
    ensures forall i, j :: 0 <= i < j < |Sent(s, run)| && Sent(s, run)[i].generation == Sent(s, run)[j].generation ==>
                             !Sent(s, run)[i].answer.Kept?
    ensures forall i :: 0 <= i < |Sent(s, run)| && Sent(s, run)[i].answer.Kept? ==>
                          After(s, run).value.WasExchanged(Sent(s, run)[i].generation)
  {
    if run != [] {
      var front, e := run[..|run| - 1], run[|run| - 1];
      var before := After(s, front).value;
      KeptGenerationsAreNeverSentAgain(s, front);
      RunsKeepExchangeInv(s, front);
      forall i | 0 <= i < |Sent(s, run)| && Sent(s, run)[i].answer.Kept?
        ensures After(s, run).value.WasExchanged(Sent(s, run)[i].generation)
      {
        KeptIsExchanged(before, e, Sent(s, run)[i].generation);
      }
      if Sends(before, e).Some? { SendsTheStoredGeneration(before, e); }
    }
  }

  lemma Extend(s: State, run: seq<Event>, e: Event) returns (longer: seq<Event>)
    requires After(s, run).Some? && Enabled(After(s, run).value, e)
    ensures After(s, longer) == Some(Next(After(s, run).value, e))
    ensures Sent(s, longer) ==
            Sent(s, run) + var sends := Sends(After(s, run).value, e); if sends.Some? then [sends.value] else []
  {
    longer := run + [e];
    assert longer[..|run|] == run;
  }

  /** Nothing is under way for the session, which can be refreshed, and threads from t on have not started. */
  ghost predicate Resting(s: State, t: nat) {
    && s.lease == None && s.slot.inFlight == None && s.slot.pending == None && s.store.Refreshable()
    && forall u <- s.threads :: u < t
  }

  /** Thread t holds the lease and was the last to start. */
  ghost predicate Holds(s: State, t: nat) {
    && s.lease == Some(t) && s.slot.pending == None && s.store.Refreshable() && (forall u <- s.threads :: u <= t)
    && t in s.threads
  }

  /** Thread t starts a call of its own. */
  lemma ReachQueued(s: State, run: seq<Event>, t: nat) returns (longer: seq<Event>)
    requires After(s, run).Some? && Resting(After(s, run).value, t)
    ensures After(s, longer).Some? && Sent(s, longer) == Sent(s, run)
    ensures var before, now := After(s, run).value, After(s, longer).value;
            && now.store == before.store && now.lease == None && now.slot.pending == None
            && (forall u <- now.threads :: u <= t)
            && t in now.threads && now.threads[t].Queued? && now.threads[t].role.Refresher? && now.threads[t].role.force
  {
    longer := Extend(s, run, Start(t, true));
  }

  lemma ReachOwning(s: State, run: seq<Event>, t: nat) returns (longer: seq<Event>)
    requires After(s, run).Some?
    requires var now := After(s, run).value;
             && now.lease == None && now.slot.pending == None && now.store.Refreshable()
             && (forall u <- now.threads :: u <= t)
             && t in now.threads && now.threads[t].Queued? && now.threads[t].role.Refresher? && now.threads[t].role.force
    ensures After(s, longer).Some? && Sent(s, longer) == Sent(s, run)
    ensures var before, now := After(s, run).value, After(s, longer).value;
            && now.store == before.store && Holds(now, t)
            && now.threads[t].Owning? && now.threads[t].role.Refresher? && now.threads[t].role.force
  {
    longer := Extend(s, run, Acquire(t));
  }

  lemma ReachLoaded(s: State, run: seq<Event>, t: nat) returns (longer: seq<Event>)
    requires After(s, run).Some? && Holds(After(s, run).value, t)
    requires var p := After(s, run).value.threads[t]; p.Owning? && p.role.Refresher? && p.role.force
    ensures After(s, longer).Some? && Sent(s, longer) == Sent(s, run)
    ensures var before, now := After(s, run).value, After(s, longer).value;
            && now.store == before.store && Holds(now, t)
            && now.threads[t].Loaded? && now.threads[t].snap == now.store && now.threads[t].role.Refresher? && now.threads[t].role.force
  {
    longer := Extend(s, run, Reload(t, true));
  }

  /** Thread t gets as far as its exchange. */
  lemma ReachExchange(s: State, run: seq<Event>, t: nat) returns (longer: seq<Event>)
    requires After(s, run).Some? && Holds(After(s, run).value, t)
    requires var p := After(s, run).value.threads[t];
             p.Loaded? && p.snap == After(s, run).value.store && p.role.Refresher? && p.role.force
    ensures After(s, longer).Some? && Sent(s, longer) == Sent(s, run)
    ensures var before, now := After(s, run).value, After(s, longer).value;
            && now.store == before.store && Holds(now, t)
            && now.threads[t].Exchanging? && now.threads[t].snap == now.store && now.threads[t].role.Refresher?
  {
    longer := Extend(s, run, ReadPending(t));
    longer := Extend(s, longer, Decide(t, 0));
  }

  lemma Reject(s: State, run: seq<Event>, t: nat) returns (longer: seq<Event>)
    requires After(s, run).Some? && Holds(After(s, run).value, t)
    requires var p := After(s, run).value.threads[t];
             p.Exchanging? && p.snap == After(s, run).value.store && p.role.Refresher?
    ensures After(s, longer).Some? && Holds(After(s, longer).value, t)
    ensures After(s, longer).value.threads[t].Failing? && After(s, longer).value.threads[t].role.Refresher?
    ensures After(s, longer).value.store == After(s, run).value.store
    ensures Sent(s, longer) == Sent(s, run) + [Sending(After(s, run).value.store.Generation(), Rejected)]
  {
    longer := Extend(s, run, ExchangeFails(t, RejectedLocally, false));
  }

  lemma WriteFails(s: State, run: seq<Event>, t: nat) returns (longer: seq<Event>)
    requires After(s, run).Some? && Holds(After(s, run).value, t)
    requires After(s, run).value.threads[t].Failing? && After(s, run).value.threads[t].role.Refresher?
    ensures After(s, longer).Some? && Holds(After(s, longer).value, t)
    ensures After(s, longer).value.threads[t].Releasing? && After(s, longer).value.threads[t].role.Refresher?
    ensures After(s, longer).value.store == After(s, run).value.store
    ensures Sent(s, longer) == Sent(s, run)
  {
    longer := Extend(s, run, FailureWrite(t, Write.Refused));
  }

  lemma Rest(s: State, run: seq<Event>, t: nat) returns (longer: seq<Event>)
    requires After(s, run).Some? && Holds(After(s, run).value, t)
    requires After(s, run).value.threads[t].Releasing? && After(s, run).value.threads[t].role.Refresher?
    ensures After(s, longer).Some? && Resting(After(s, longer).value, t + 1)
    ensures After(s, longer).value.store == After(s, run).value.store
    ensures Sent(s, longer) == Sent(s, run)
  {
    longer := Extend(s, run, Release(t));
    longer := Extend(s, longer, Event.Invalidate);
  }

  lemma RejectedRound(s: State, run: seq<Event>, t: nat) returns (longer: seq<Event>)
    requires After(s, run).Some? && Resting(After(s, run).value, t)
    ensures After(s, longer).Some? && Resting(After(s, longer).value, t + 1)
    ensures After(s, longer).value.store == After(s, run).value.store
    ensures Sent(s, longer) == Sent(s, run) + [Sending(After(s, run).value.store.Generation(), Rejected)]
  {
    longer := ReachQueued(s, run, t);
    longer := ReachOwning(s, longer, t);
    longer := ReachLoaded(s, longer, t);
    longer := ReachExchange(s, longer, t);
    longer := Reject(s, longer, t);
    longer := WriteFails(s, longer, t);
    longer := Rest(s, longer, t);
  }

  /** The condition is needed: a generation whose answers are rejected can be sent any number of times. */
  lemma RejectedGenerationsCanBeSentAgain(s: State, n: nat) returns (run: seq<Event>)
    requires Initial(s) && s.store.Refreshable()
    ensures After(s, run).Some? && Resting(After(s, run).value, n) && After(s, run).value.store == s.store
    ensures |Sent(s, run)| == n
    ensures forall sending <- Sent(s, run) :: sending == Sending(s.store.Generation(), Rejected)
  {
    run := [];
    for t := 0 to n
      invariant After(s, run).Some? && Resting(After(s, run).value, t) && After(s, run).value.store == s.store
      invariant |Sent(s, run)| == t
      invariant forall sending <- Sent(s, run) :: sending == Sending(s.store.Generation(), Rejected)
    {
      run := RejectedRound(s, run, t);
    }
  }

  /** How a step of the lease holder may settle or resolve the exchange it knows about. */
  ghost predicate Resolves(s: State, s': State, e: Event) {
    && (forall i <- s'.fate :: i !in s.fate ==>
          s.Held().Some? && s.Held().value.operation == i &&
          if e.Cas? then s'.fate[i].WasCommitted? && s'.store.Generation() == Material(s.Held().value.credential.secret)
          else e.Compare? && s'.fate[i].WasSuperseded? && Superseded(s, s.Held().value))
    && (s.slot.pending.Some? && s'.slot.pending != s.slot.pending ==>
          s'.slot.pending == None && s.slot.pending.value.operation in s'.fate &&
          ((e.Forget? && s.store.Generation() == Material(s.slot.pending.value.credential.secret)) ||
           (e.Compare? && Superseded(s, s.slot.pending.value))))
  }

  ghost predicate Superseded(s: State, p: PendingCommit) {
    s.store.Generation() != p.source || s.store.subject != p.subject
  }

  lemma PreparingResolves(s: State, e: Event)
    requires ExchangeInv(s) && PreparingEnabled(s, e)
    ensures Resolves(s, PreparingNext(s, e), e)
  {
    assert e.Acquire? || s.lease == Some(e.t);
  }

  lemma WritingResolves(s: State, e: Event)
    requires ExchangeInv(s) && WritingEnabled(s, e) && !e.Cas?
    ensures Resolves(s, WritingNext(s, e), e)
    ensures e.RecordPending? ==> s.slot.pending == None
  {
    assert s.lease == Some(e.t);
  }

  lemma CasResolves(s: State, e: Event)
    requires ExchangeInv(s) && WritingEnabled(s, e) && e.Cas?
    ensures Resolves(s, WritingNext(s, e), e)
  {
    assert s.lease == Some(e.t);
    MaterialIdempotent(s.threads[e.t].commit.credential.secret);
  }

  /**
   A pending commit leaves the registry in two ways only: its credential is what the store
   holds, or a reload showed other material or another subject. Nothing else removes it, in
   particular not invalidation, and recording never replaces an unresolved one. An exchange
   counts as committed only by the write that stored its result.
   */
  lemma PendingLeavesOnlyResolved(s: State, e: Event)
    requires ExchangeInv(s) && Enabled(s, e)
    ensures Resolves(s, Next(s, e), e)
    ensures e.RecordPending? ==> s.slot.pending == None
  {
    if OutsideEnabled(s, e) {
      OutsideIsQuiet(s, e);
    } else if PreparingEnabled(s, e) {
      PreparingResolves(s, e);
    } else if e.Cas? {
      CasResolves(s, e);
    } else {
      WritingResolves(s, e);
    }
  }

  /** The branch for a stored version behind the pending source is unreachable. */
  lemma VersionNeverRegresses(s: State, run: seq<Event>, t: nat)
    requires Initial(s) && After(s, run).Some?
    requires t in After(s, run).value.threads && After(s, run).value.threads[t].Resuming?
    ensures var p := After(s, run).value.threads[t]; p.snap.version >= p.commit.sourceVersion
  {
    RunsKeepExchangeInv(s, run);
    assert After(s, run).value.lease == Some(t);
  }

  /** The comparison of subjects is redundant: when the material is still the pending source, so is the subject. */
  lemma SameSourceSameSubject(s: State, run: seq<Event>, t: nat)
    requires Initial(s) && After(s, run).Some?
    requires t in After(s, run).value.threads && After(s, run).value.threads[t].Resuming?
    ensures var p := After(s, run).value.threads[t];
            p.snap.Generation() == p.commit.source ==> p.snap.subject == p.commit.subject
  {
    RunsKeepExchangeInv(s, run);
    var now := After(s, run).value;
    assert now.lease == Some(t) && now.Held() == now.slot.pending;
    assert now.issued[now.threads[t].commit.operation] == now.threads[t].commit;
  }

  // ---- single flight ----

  ghost predicate FlightInv(s: State) {
    && (forall t <- s.threads :: s.threads[t].Leads().Some? ==>
          var c := s.threads[t].Leads().value;
          c < |s.calls| && s.calls[c].leader == t &&
          s.calls[c].outcome == if s.threads[t].Closed? then Some(s.threads[t].outcome) else None)
    && (forall c :: 0 <= c < |s.calls| && s.calls[c].outcome.None? ==> Led(s, c))
    && (s.slot.inFlight.Some? ==> s.slot.inFlight.value < |s.calls| && Led(s, s.slot.inFlight.value))
    && (forall t <- s.threads :: s.threads[t].Waiting? ==> s.threads[t].call < |s.calls|)
    && (forall t <- s.threads :: s.threads[t].Returned? && s.threads[t].joined.Some? ==>
          var c := s.threads[t].joined.value;
          c < |s.calls| && (s.threads[t].outcome.Cancelled? || s.calls[c].outcome == Some(s.threads[t].outcome)))
  }

  /** Call c still has its leader at work, so its waiters will be woken. */
  ghost predicate Led(s: State, c: nat)
    requires c < |s.calls|
  {
    var t := s.calls[c].leader;
    t in s.threads && s.threads[t].Leads() == Some(c)
  }

  /** A step of the lease holder does not change which call it leads until it releases the lease. */
  ghost predicate SameFlight(s: State, s': State, t: nat) {
    && s'.calls == s.calls && s'.slot.inFlight == s.slot.inFlight
    && t in s.threads && t in s'.threads && s'.threads == s.threads[t := s'.threads[t]]
    && s'.threads[t].Leads() == s.threads[t].Leads()
    && !s.threads[t].Closed? && !s'.threads[t].Closed? && !s'.threads[t].Waiting?
    && (s'.threads[t].Returned? ==> s'.threads[t].joined == None)
  }

  lemma PreparingKeepsFlight(s: State, e: Event)
    requires PreparingEnabled(s, e)
    ensures SameFlight(s, PreparingNext(s, e), e.t)
  {
  }

  lemma WritingKeepsFlight(s: State, e: Event)
    requires WritingEnabled(s, e)
    ensures SameFlight(s, WritingNext(s, e), e.t)
  {
  }

  lemma HolderKeepsFlight(s: State, e: Event)
    requires Enabled(s, e) && !OutsideEnabled(s, e)
    ensures SameFlight(s, Next(s, e), e.t)
  {
    if PreparingEnabled(s, e) { PreparingKeepsFlight(s, e); } else { WritingKeepsFlight(s, e); }
  }

  lemma SameFlightKeepsFlightInv(s: State, s': State, t: nat)
    requires FlightInv(s) && SameFlight(s, s', t)
    ensures FlightInv(s')
  {
  }

  lemma StartKeepsFlightInv(s: State, e: Event)
    requires FlightInv(s) && OutsideEnabled(s, e) && e.Start? && s.slot.inFlight.None?
    ensures FlightInv(OutsideNext(s, e))
  {
    assert forall c :: 0 <= c < |s.calls| ==> OutsideNext(s, e).calls[c] == s.calls[c];
  }

  /** Thread t writes its outcome into the call c that it leads, and changes nothing else. */
  ghost predicate Closes(s: State, s': State, t: nat, c: nat, outcome: Outcome) {
    && c < |s.calls| && t in s.threads && s.threads[t] == Finishing(c, outcome)
    && s'.threads == s.threads[t := Closed(c, outcome)]
    && s'.calls == s.calls[c := s.calls[c].(outcome := Some(outcome))]
    && s'.slot.inFlight == s.slot.inFlight
  }

  lemma ClosingKeepsFlightInv(s: State, s': State, t: nat, c: nat, outcome: Outcome)
    requires FlightInv(s) && Closes(s, s', t, c, outcome)
    ensures FlightInv(s')
  {
    assert forall d :: 0 <= d < |s.calls| ==> s'.calls[d].leader == s.calls[d].leader;
    assert s.threads[t].Leads() == Some(c) == s'.threads[t].Leads();
    forall d | 0 <= d < |s.calls| && Led(s, d) ensures Led(s', d) { }
  }

  lemma CloseKeepsFlightInv(s: State, e: Event)
    requires FlightInv(s) && OutsideEnabled(s, e) && e.CloseCall?
    ensures FlightInv(OutsideNext(s, e))
  {
    var p := s.threads[e.t];
    ClosingKeepsFlightInv(s, OutsideNext(s, e), e.t, p.call, p.outcome);
  }

  lemma DeregisterKeepsFlightInv(s: State, e: Event)
    requires FlightInv(s) && OutsideEnabled(s, e) && e.Deregister?
    ensures FlightInv(OutsideNext(s, e))
  {
    assert OutsideNext(s, e).calls == s.calls;
  }

  /** A thread that leads no call, before or after, moves on. */
  ghost predicate LeaderlessMove(s: State, s': State, t: nat) {
    && s'.calls == s.calls && s'.slot.inFlight == s.slot.inFlight
    && t in s'.threads && s'.threads == s.threads[t := s'.threads[t]]
    && (t in s.threads ==> s.threads[t].Leads() == None)
    && match s'.threads[t]
       case Waiting(c) => c < |s.calls|
       case Returned(o, Some(c)) => c < |s.calls| && (o.Cancelled? || s.calls[c].outcome == Some(o))
       case p => p.Leads() == None
  }

  lemma LeaderlessMoveKeepsFlightInv(s: State, s': State, t: nat)
    requires FlightInv(s) && LeaderlessMove(s, s', t)
    ensures FlightInv(s')
  {
  }

  lemma OutsideKeepsFlightInv(s: State, e: Event)
    requires FlightInv(s) && OutsideEnabled(s, e)
    ensures FlightInv(OutsideNext(s, e))
  {
    if e.Start? && s.slot.inFlight.None? {
      StartKeepsFlightInv(s, e);
    } else if e.Start? {
      LeaderlessMoveKeepsFlightInv(s, OutsideNext(s, e), e.t);
    } else if e.CloseCall? {
      CloseKeepsFlightInv(s, e);
    } else if e.Deregister? {
      DeregisterKeepsFlightInv(s, e);
    } else if e.WaiterReturns? || e.WaiterCancelled? || e.StartUsage? {
      LeaderlessMoveKeepsFlightInv(s, OutsideNext(s, e), e.t);
    } else if e.AcquireFails? {
      SameFlightKeepsFlightInv(s, OutsideNext(s, e), e.t);
    } else {
      UntouchedKeepsFlightInv(s, OutsideNext(s, e));
    }
  }

  lemma UntouchedKeepsFlightInv(s: State, s': State)
    requires FlightInv(s) && s'.calls == s.calls && s'.threads == s.threads
    requires s'.slot.inFlight == s.slot.inFlight || s'.slot.inFlight == None
    ensures FlightInv(s')
  {
  }

  lemma {:induction false} RunsKeepFlightInv(s: State, run: seq<Event>)
    requires Initial(s) && After(s, run).Some?
    ensures FlightInv(After(s, run).value)
  {
    if run != [] {
      var e, before := run[|run| - 1], After(s, run[..|run| - 1]).value;
      RunsKeepFlightInv(s, run[..|run| - 1]);
      if OutsideEnabled(before, e) {
        OutsideKeepsFlightInv(before, e);
      } else {
        HolderKeepsFlight(before, e);
        SameFlightKeepsFlightInv(before, Next(before, e), e.t);
      }
    }
  }

  /**
   In every run: a call that is registered or still open has its one leader at work, a leader
   closes only an open call, and a waiter that was not cancelled returned the outcome of the
   call it joined.
   */
  lemma WaitersShareTheirLeadersOutcome(s: State, run: seq<Event>)
    requires Initial(s) && After(s, run).Some?
    ensures var now := After(s, run).value;
            && (forall c :: 0 <= c < |now.calls| && (now.calls[c].outcome.None? || now.slot.inFlight == Some(c)) ==> Led(now, c))
            && (forall t, u :: t in now.threads && u in now.threads && t != u && now.threads[t].Leads().Some? ==>
                  now.threads[t].Leads() != now.threads[u].Leads())
            && (forall t <- now.threads :: now.threads[t].Finishing? ==>
                  now.threads[t].call < |now.calls| && now.calls[now.threads[t].call].outcome.None?)
            && (forall t <- now.threads :: now.threads[t].Returned? && now.threads[t].joined.Some? ==>
                  now.threads[t].outcome.Cancelled? ||
                  (now.threads[t].joined.value < |now.calls| &&
                   now.calls[now.threads[t].joined.value].outcome == Some(now.threads[t].outcome)))
  {
    RunsKeepFlightInv(s, run);
  }

  /** Outcomes are written once, and only its own leader or an invalidation unregisters a call. */
  lemma DetachedLeaderSparesReplacement(s: State, e: Event, c: nat)
    requires FlightInv(s) && Enabled(s, e) && c < |s.calls|
    ensures c < |Next(s, e).calls| && Next(s, e).calls[c].leader == s.calls[c].leader
    ensures s.calls[c].outcome.Some? ==> Next(s, e).calls[c] == s.calls[c]
    ensures s.slot.inFlight == Some(c) && Next(s, e).slot.inFlight != Some(c) ==>
              e.Invalidate? || e == Deregister(s.calls[c].leader)
  {
    if !OutsideEnabled(s, e) { HolderKeepsFlight(s, e); }
  }

  // ---- usage snapshots ----

  /** Steps that may store a snapshot without comparing times: another writer's, and the forced usage fetch. */
  predicate OverwritesUsage(e: Event) {
    e.Replace? || (e.ReadUsage? && e.reply.UsageFetched?)
  }

  lemma OutsideKeepsFetchTime(s: State, e: Event)
    requires OutsideEnabled(s, e) && !e.Replace?
    ensures NoEarlier(Fetched(s.store.usage), Fetched(OutsideNext(s, e).store.usage))
    ensures OutsideNext(s, e).observed == s.observed ||
            (e.Observe? && OutsideNext(s, e).observed == s.observed + [e.observed.fetchedAt.value] &&
             MergeObserved(s.store.usage, Some(e.observed)).Merged? &&
             Fetched(OutsideNext(s, e).store.usage) == e.observed.fetchedAt)
  {
  }

  lemma PreparingKeepsUsage(s: State, e: Event)
    requires PreparingEnabled(s, e)
    ensures PreparingNext(s, e).store == s.store && PreparingNext(s, e).observed == s.observed
  {
  }

  lemma WritingKeepsFetchTime(s: State, e: Event)
    requires ExchangeInv(s) && WritingEnabled(s, e) && !OverwritesUsage(e)
    ensures NoEarlier(Fetched(s.store.usage), Fetched(WritingNext(s, e).store.usage))
    ensures WritingNext(s, e).observed == s.observed
  {
    assert s.lease == Some(e.t);
    if e.Cas? { CommitKeepsNewest(s.threads[e.t].snap.usage, s.threads[e.t].commit.credential.usage); }
  }

  lemma HolderKeepsFetchTime(s: State, e: Event)
    requires ExchangeInv(s) && Enabled(s, e) && !OutsideEnabled(s, e) && !OverwritesUsage(e)
    ensures NoEarlier(Fetched(s.store.usage), Fetched(Next(s, e).store.usage))
    ensures Next(s, e).observed == s.observed
  {
    if PreparingEnabled(s, e) { PreparingKeepsUsage(s, e); } else { WritingKeepsFetchTime(s, e); }
  }

  /** Observations, refresh commits and failure writes never move the stored fetch time back. */
  lemma FetchTimeNeverDecreases(s: State, e: Event)
    requires ExchangeInv(s) && Enabled(s, e) && !OverwritesUsage(e)
    ensures NoEarlier(Fetched(s.store.usage), Fetched(Next(s, e).store.usage))
  {
    if OutsideEnabled(s, e) { OutsideKeepsFetchTime(s, e); } else { HolderKeepsFetchTime(s, e); }
  }

  /** The observations accepted from index n on are spaced, and the store is not behind the last of them. */
  ghost predicate SpacedFrom(s: State, n: nat) {
    && n <= |s.observed|
    && (forall i, j :: n <= i < j < |s.observed| ==> s.observed[j] >= s.observed[i] + MIN_INTERVAL)
    && (|s.observed| > n ==> NoEarlier(Some(s.observed[|s.observed| - 1]), Fetched(s.store.usage)))
  }

  ghost predicate Undisturbed(run: seq<Event>, a: nat) {
    forall k :: a <= k < |run| ==> !OverwritesUsage(run[k])
  }

  lemma StepKeepsSpacing(s: State, e: Event, n: nat)
    requires ExchangeInv(s) && Enabled(s, e) && !OverwritesUsage(e) && SpacedFrom(s, n)
    ensures SpacedFrom(Next(s, e), n)
  {
    if OutsideEnabled(s, e) {
      OutsideKeepsFetchTime(s, e);
      if e.Observe? { MergeAcceptsSpacedObservations(s.store.usage, Some(e.observed)); }
    } else {
      HolderKeepsFetchTime(s, e);
    }
  }

  /**
   In every run, from any point a after which no step overwrites the snapshot: the fetch time
   has not gone back since a, and the observations accepted since a are spaced. With a = 0 this
   covers runs without overwrites; between two overwrites it covers all the others.
   */
  lemma {:induction false} ObservationsAreSpacedBetweenOverwrites(s: State, run: seq<Event>, a: nat)
    requires Initial(s) && After(s, run).Some? && a <= |run| && Undisturbed(run, a)
    ensures After(s, run[..a]).Some?
    ensures var from := After(s, run[..a]).value;
            SpacedFrom(After(s, run).value, |from.observed|) &&
            NoEarlier(Fetched(from.store.usage), Fetched(After(s, run).value.store.usage))
  {
    if a == |run| {
      assert run[..a] == run;
    } else {
      var front, e := run[..|run| - 1], run[|run| - 1];
      assert front[..a] == run[..a];
      assert !OverwritesUsage(e);
      ObservationsAreSpacedBetweenOverwrites(s, front, a);
      RunsKeepExchangeInv(s, front);
      var before := After(s, front).value;
      StepKeepsSpacing(before, e, |After(s, run[..a]).value.observed|);
      FetchTimeNeverDecreases(before, e);
    }
  }
}
