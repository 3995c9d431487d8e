/**
 What a coordinated refresh answers, over every run. Each thread gets a history that is read
 off the events and the stored record alone: how the call was started, whether it found a
 pending commit, the record and the clock it decided on, the credential its exchange returned
 and the record that its write stored. The theorems say which credential an outcome carries
 and when an exchange is sent, in terms of these histories.
 */
module RefreshOutcomes {
  import opened Collections
  import opened UsageObservation
  import opened RefreshRegistry
  import opened RefreshProtocol
  import Text

  /** The stored record and the clock at the moment of the decision. */
  datatype Reading = Reading(now: Instant, record: Record)

  datatype History = History(
    force: bool,
    resumed: bool,
    reading: Option<Reading>,
    exchanged: Option<Credential>,
    committed: Option<Record>,
    failed: bool,
    terminal: bool)

  const FRESH := History(false, false, None, None, None, false, false)

  /** The environment lets the thread down: no lease, no usable session, no exchange, or an error from the store. */
  predicate LetsDown(e: Event) {
    e.AcquireFails? || (e.Reload? && !e.ok) || e.ExchangeFails? || (e.Cas? && !e.write.Applied?)
  }

  predicate Concerns(e: Event, t: nat) {
    match e
    case Invalidate => false
    case PruneRecent(_) => false
    case Replace(_) => false
    case Touch(_) => false
    case Observe(_, _) => false
    case _ => e.t == t
  }

  /** Thread t's history after one more event; store and slot are those before the event, stored the record after it. */
  function Noted(h: History, e: Event, t: nat, store: Record, pending: bool, stored: Record): History {
    if !Concerns(e, t) then h
    else
      var g := if LetsDown(e) then h.(failed := true) else h;
      match e
      case Start(_, force) => g.(force := force)
      case ReadPending(_) => g.(resumed := pending)
      case Decide(_, now) => g.(reading := Some(Reading(now, store)))
      case Exchange(_, credential) => g.(exchanged := Some(credential))
      case ExchangeFails(_, _, terminal) => g.(terminal := terminal)
      case Cas(_, write) => if g.exchanged.Some? && !write.Refused? then g.(committed := Some(stored)) else g
      case _ => g
  }

  ghost function HistoryOf(s: State, run: seq<Event>, t: nat): History
    requires After(s, run).Some?
  {
    if run == [] then FRESH
    else
      var front := run[..|run| - 1];
      var before := After(s, front).value;
      Noted(HistoryOf(s, front, t), run[|run| - 1], t, before.store, before.slot.pending.Some?, After(s, run).value.store)
  }

  /** The exchange was due: forced with nothing pending, or what was read does not outlive the window. */
  predicate Due(h: History) {
    && h.reading.Some?
    && ((h.force && !h.resumed) || h.reading.value.record.expiresAt <= h.reading.value.now + PROACTIVE_REFRESH_WINDOW)
  }

  /** The record holds the exchanged credential. */
  predicate Holding(r: Record, exchanged: Credential) {
    && r.secret == Material(exchanged.secret) && r.subject == Text.TrimSpace(exchanged.accountID) && r.active
    && r.lastRefresh == exchanged.lastRefresh && r.expiresAt == exchanged.expiresAt
    && NoEarlier(Fetched(exchanged.usage), Fetched(r.usage))
  }

  /**
   The credential is a right answer: either no exchange was sent, none was owed, and it is the
   stored one, which outlives the window at its reading; or an exchange was due and it is what
   this thread's own write stored of its own exchange.
   */
  predicate Justified(h: History, credential: Credential) {
    if h.exchanged.None? then
      && (!h.force || h.resumed)
      && h.reading.Some?
      && h.reading.value.record.expiresAt > h.reading.value.now + PROACTIVE_REFRESH_WINDOW
      && credential == h.reading.value.record.Decoded()
    else
      && Due(h)
      && h.committed.Some? && Holding(h.committed.value, h.exchanged.value)
      && credential == h.committed.value.Decoded()
  }

  predicate Told(h: History, outcome: Outcome) {
    match outcome
    case Success(credential) => !h.failed && Justified(h, credential)
    case Failure => h.failed
    case Cancelled => false
  }

  // ---- what each phase of a refresh remembers ----

  /** Nothing but the start, and perhaps a pending commit, has been noted. */
  predicate Undecided(h: History, force: bool) {
    h.force == force && h.reading == None && h.exchanged == None && h.committed == None && !h.failed
  }

  predicate Remembers(h: History, p: Phase)
    requires p.Leads().Some?
  {
    match p
    case Queued(role) => Undecided(h, role.force) && !h.resumed
    case Owning(role) => Undecided(h, role.force) && !h.resumed
    case Loaded(role, _) => Undecided(h, role.force) && !h.resumed
    case Resuming(role, _, _) => Undecided(h, role.force) && h.resumed
    case Evicting(role, _) => Undecided(h, role.force) && h.resumed
    case Deciding(role, _, force) => Undecided(h, role.force) && (force <==> h.force && !h.resumed)
    case Exchanging(role, snap) =>
      Due(h) && h.reading.value.record == snap && h.exchanged == None && h.committed == None && !h.failed
    case Exchanged(role, snap, commit) => Due(h) && h.exchanged == Some(commit.credential) && h.committed == None && !h.failed
    case Committing(role, snap, commit, resumed) =>
      if resumed then Undecided(h, role.force) && h.resumed
      else Due(h) && h.exchanged == Some(commit.credential) && h.committed == None && !h.failed
    case Stored(role, snap, commit, resumed) =>
      if resumed then Undecided(h, role.force) && h.resumed
      else Due(h) && h.exchanged == Some(commit.credential) && h.committed == Some(snap) && Holding(snap, commit.credential) && !h.failed
    case Remembered(role, snap, commit, resumed) =>
      if resumed then Undecided(h, role.force) && h.resumed
      else Due(h) && h.exchanged == Some(commit.credential) && h.committed == Some(snap) && Holding(snap, commit.credential) && !h.failed
    case Failing(_, _, terminal) => h.failed && h.terminal == terminal
    case Releasing(_, outcome) => Told(h, outcome)
    case Finishing(_, outcome) => Told(h, outcome)
    case Closed(_, outcome) => Told(h, outcome)
    case _ => true
  }

  /** The outcomes of the calls that t led are explained by its history. */
  ghost predicate Settled(s: State, h: History, t: nat) {
    forall c :: 0 <= c < |s.calls| && s.calls[c].leader == t && s.calls[c].outcome.Some? ==>
                  t in s.threads && (s.threads[t].Closed? || s.threads[t].Returned?) && Told(h, s.calls[c].outcome.value)
  }

  /** What t's history says of its phase; only a refresher exchanges. */
  ghost predicate RemembersOf(s: State, h: History, t: nat) {
    t in s.threads ==>
      (s.threads[t].Leads().Some? ==> Remembers(h, s.threads[t])) &&
      (s.threads[t].Exchanging? || s.threads[t].Failing? ==> s.threads[t].role.Refresher?)
  }

  ghost predicate Tracks(s: State, h: History, t: nat) {
    && (t !in s.threads ==> h == FRESH)
    && RemembersOf(s, h, t)
    && Settled(s, h, t)
  }

  ghost function NotedAt(s: State, e: Event, h: History, t: nat): History
    requires Enabled(s, e)
  {
    Noted(h, e, t, s.store, s.slot.pending.Some?, Next(s, e).store)
  }

  // ---- steps of other threads ----

  ghost predicate LeavesAlone(s: State, s': State, t: nat) {
    && (t in s.threads <==> t in s'.threads)
    && (t in s.threads ==> s'.threads[t] == s.threads[t])
    && (forall c :: 0 <= c < |s'.calls| && s'.calls[c].leader == t && s'.calls[c].outcome.Some? ==>
          c < |s.calls| && s'.calls[c] == s.calls[c])
  }

  lemma OutsideLeavesAlone(s: State, e: Event, t: nat)
    requires FlightInv(s) && OutsideEnabled(s, e) && !Concerns(e, t)
    ensures LeavesAlone(s, OutsideNext(s, e), t)
  {
  }

  lemma StepLeavesAlone(s: State, e: Event, t: nat)
    requires FlightInv(s) && Enabled(s, e) && !Concerns(e, t)
    ensures LeavesAlone(s, Next(s, e), t)
  {
    if OutsideEnabled(s, e) { OutsideLeavesAlone(s, e, t); } else { HolderKeepsFlight(s, e); }
  }

  // ---- the thread's own steps ----

  lemma OutsideRemembers(s: State, e: Event, h: History, t: nat)
    requires FlightInv(s) && OutsideEnabled(s, e) && Concerns(e, t) && Tracks(s, h, t)
    ensures Tracks(OutsideNext(s, e), NotedAt(s, e, h, t), t)
  {
  }

  lemma LoadingRemembers(s: State, e: Event, h: History, t: nat)
    requires ExchangeInv(s) && PreparingEnabled(s, e) && Concerns(e, t) && Tracks(s, h, t)
    requires e.Acquire? || e.Reload? || e.ReadPending? || e.Release?
    ensures RemembersOf(PreparingNext(s, e), NotedAt(s, e, h, t), t)
  {
    assert e.Acquire? || s.lease == Some(t);
  }

  lemma DecidingRemembers(s: State, e: Event, h: History, t: nat)
    requires ExchangeInv(s) && PreparingEnabled(s, e) && Concerns(e, t) && Tracks(s, h, t)
    requires e.Compare? || e.Evict? || e.Decide?
    ensures RemembersOf(PreparingNext(s, e), NotedAt(s, e, h, t), t)
  {
    assert s.lease == Some(t);
  }

  lemma CommitHolds(snap: Record, commit: PendingCommit)
    ensures snap.subject == Text.TrimSpace(commit.credential.accountID) ==> Holding(snap.Committing(commit), commit.credential)
  {
    CommitKeepsNewest(snap.usage, commit.credential.usage);
  }

  lemma CasRemembers(s: State, e: Event, h: History, t: nat)
    requires ExchangeInv(s) && WritingEnabled(s, e) && e.Cas? && e.t == t && Tracks(s, h, t)
    ensures RemembersOf(WritingNext(s, e), NotedAt(s, e, h, t), t)
  {
    assert s.lease == Some(t);
    CommitHolds(s.threads[t].snap, s.threads[t].commit);
  }

  lemma ExchangingRemembers(s: State, e: Event, h: History, t: nat)
    requires ExchangeInv(s) && WritingEnabled(s, e) && Concerns(e, t) && Tracks(s, h, t)
    requires e.Exchange? || e.ExchangeFails? || e.RecordPending?
    ensures RemembersOf(WritingNext(s, e), NotedAt(s, e, h, t), t)
  {
    assert s.lease == Some(t);
  }

  lemma WritingRemembers(s: State, e: Event, h: History, t: nat)
    requires ExchangeInv(s) && WritingEnabled(s, e) && Concerns(e, t) && Tracks(s, h, t)
    requires !e.Cas? && !(e.Exchange? || e.ExchangeFails? || e.RecordPending?)
    ensures RemembersOf(WritingNext(s, e), NotedAt(s, e, h, t), t)
  {
    assert s.lease == Some(t);
  }

  lemma NothingSettledYet(s: State, s': State, h: History, h': History, t: nat)
    requires SameFlight(s, s', t) && Settled(s, h, t) && !s.threads[t].Returned?
    ensures Settled(s', h', t)
  {
  }

  lemma HolderRemembers(s: State, e: Event, h: History, t: nat)
    requires ExchangeInv(s) && FlightInv(s) && Enabled(s, e) && !OutsideEnabled(s, e) && Concerns(e, t) && Tracks(s, h, t)
    ensures Tracks(Next(s, e), NotedAt(s, e, h, t), t)
  {
    HolderKeepsFlight(s, e);
    NothingSettledYet(s, Next(s, e), h, NotedAt(s, e, h, t), t);
    if e.Acquire? || e.Reload? || e.ReadPending? || e.Release? { LoadingRemembers(s, e, h, t); }
    else if PreparingEnabled(s, e) { DecidingRemembers(s, e, h, t); }
    else if e.Cas? { CasRemembers(s, e, h, t); }
    else if e.Exchange? || e.ExchangeFails? || e.RecordPending? { ExchangingRemembers(s, e, h, t); }
    else { WritingRemembers(s, e, h, t); }
  }

  lemma StepRemembers(s: State, e: Event, h: History, t: nat)
    requires ExchangeInv(s) && FlightInv(s) && Enabled(s, e) && Tracks(s, h, t)
    ensures Tracks(Next(s, e), NotedAt(s, e, h, t), t)
  {
    if !Concerns(e, t) { StepLeavesAlone(s, e, t); }
    else if OutsideEnabled(s, e) { OutsideRemembers(s, e, h, t); }
    else { HolderRemembers(s, e, h, t); }
  }

  lemma {:induction false} RunsAreTracked(s: State, run: seq<Event>, t: nat)
    requires Initial(s) && After(s, run).Some?
    ensures Tracks(After(s, run).value, HistoryOf(s, run, t), t)
  {
    if run != [] {
      var front := run[..|run| - 1];
      RunsAreTracked(s, front, t);
      RunsKeepExchangeInv(s, front);
      RunsKeepFlightInv(s, front);
      StepRemembers(After(s, front).value, run[|run| - 1], HistoryOf(s, front, t), t);
    }
  }

  // ---- the answers ----

  /**
   In every run, whoever joined a call and returns a credential got the one that the call's
   leader may answer with: the stored one, read under the lease and outliving the window, when no
   exchange was owed, or the one that the leader's own write stored of its own exchange, when one
   was due. It returns a failure only if the environment let the leader down.
   */
  lemma OutcomesAreJustified(s: State, run: seq<Event>, t: nat)
    requires Initial(s) && After(s, run).Some?
    requires t in After(s, run).value.threads && After(s, run).value.threads[t].Returned?
    ensures var now := After(s, run).value;
            var p := now.threads[t];
            p.joined.Some? && !p.outcome.Cancelled? ==>
              p.joined.value < |now.calls| && Told(HistoryOf(s, run, now.calls[p.joined.value].leader), p.outcome)
  {
    RunsKeepFlightInv(s, run);
    var now := After(s, run).value;
    var p := now.threads[t];
    if p.joined.Some? && !p.outcome.Cancelled? {
      RunsAreTracked(s, run, now.calls[p.joined.value].leader);
    }
  }

  /** A forced refresh that found nothing pending never succeeds without an exchange of its own. */
  lemma ForcedRefreshesExchange(s: State, run: seq<Event>, t: nat)
    requires Initial(s) && After(s, run).Some?
    requires t in After(s, run).value.threads && After(s, run).value.threads[t].Returned?
    ensures var now := After(s, run).value;
            var p := now.threads[t];
            p.joined.Some? && p.outcome.Success? ==>
              p.joined.value < |now.calls| &&
              var h := HistoryOf(s, run, now.calls[p.joined.value].leader);
              h.force && !h.resumed ==> h.exchanged.Some? && p.outcome.credential.secret == Material(h.exchanged.value.secret)
  {
    OutcomesAreJustified(s, run, t);
  }

  /**
   In every run an exchange is requested for the stored record, as it was read with the clock
   under this lease, and only when it is due: an unforced refresh, or one that resumed a pending
   commit, requests none for a credential that outlives the window.
   */
  lemma ExchangesAreDue(s: State, run: seq<Event>, e: Event)
    requires Initial(s) && After(s, run).Some? && Enabled(After(s, run).value, e) && Sends(After(s, run).value, e).Some?
    ensures var h := HistoryOf(s, run, e.t); Due(h) && h.reading.value.record == After(s, run).value.store
  {
    RunsAreTracked(s, run, e.t);
    RunsKeepExchangeInv(s, run);
    SendsTheStoredGeneration(After(s, run).value, e);
  }

  // ---- revoked sessions ----

  /** The step records that the session has lost its authorisation. */
  predicate Revokes(h: History, e: Event) {
    match e
    case FailureWrite(_, write) => h.terminal && !write.Refused?
    case ReadUsage(_, reply, write) => reply.UsageAuthLost? && !write.Refused?
    case _ => false
  }

  predicate Reactivates(e: Event) {
    (e.Replace? && e.record.active) || (e.Touch? && e.active)
  }

  /** The session is inactive, and nobody who saw it active still holds the lease. */
  ghost predicate Revoked(s: State) {
    && !s.store.active
    && (s.lease.Some? ==> s.lease.value in s.threads && (s.threads[s.lease.value].Owning? || s.threads[s.lease.value].Releasing?))
  }

  lemma RevokingRevokes(s: State, e: Event, h: History)
    requires ExchangeInv(s) && Enabled(s, e) && Revokes(h, e) && Tracks(s, h, e.t)
    ensures Revoked(Next(s, e)) && Sends(s, e) == None
  {
    assert s.lease == Some(e.t);
  }

  lemma OutsideStaysRevoked(s: State, e: Event)
    requires LeaseInv(s) && Revoked(s) && OutsideEnabled(s, e) && !Reactivates(e)
    ensures Revoked(OutsideNext(s, e))
  {
  }

  lemma HolderStaysRevoked(s: State, e: Event)
    requires LeaseInv(s) && Revoked(s) && Enabled(s, e) && !OutsideEnabled(s, e)
    ensures PreparingEnabled(s, e) && Revoked(PreparingNext(s, e)) && Sends(s, e) == None
  {
    assert e.Acquire? || s.lease == Some(e.t);
  }

  ghost predicate NothingReactivates(run: seq<Event>, a: nat) {
    forall k :: a <= k < |run| ==> !Reactivates(run[k])
  }

  lemma {:induction false} RevokedStaysRevoked(s: State, run: seq<Event>, a: nat)
    requires Initial(s) && After(s, run).Some? && a <= |run| && NothingReactivates(run, a)
    requires After(s, run[..a]).Some? && Revoked(After(s, run[..a]).value)
    ensures Revoked(After(s, run).value) && Sent(s, run) == Sent(s, run[..a])
  {
    if a == |run| {
      assert run[..a] == run;
    } else {
      var front, e := run[..|run| - 1], run[|run| - 1];
      assert front[..a] == run[..a];
      RevokedStaysRevoked(s, front, a);
      RunsKeepExchangeInv(s, front);
      var before := After(s, front).value;
      if OutsideEnabled(before, e) { OutsideStaysRevoked(before, e); } else { HolderStaysRevoked(before, e); }
    }
  }

  /**
   In every run, once a terminal refusal or a lost authorisation was recorded, the session stays
   inactive and no exchange is requested until another writer makes it active again.
   */
  lemma RevokedSessionsSendNothing(s: State, run: seq<Event>, t: nat, e: Event, later: seq<Event>)
    requires Initial(s) && After(s, run).Some? && Enabled(After(s, run).value, e) && After(s, run + [e] + later).Some?
    requires Concerns(e, t) && Revokes(HistoryOf(s, run, t), e) && NothingReactivates(later, 0)
    ensures !After(s, run + [e] + later).value.store.active
    ensures Sent(s, run + [e] + later) == Sent(s, run)
  {
    var revoked := run + [e];
    var all := revoked + later;
    assert revoked[..|run|] == run;
    RunsAreTracked(s, run, t);
    RunsKeepExchangeInv(s, run);
    RevokingRevokes(After(s, run).value, e, HistoryOf(s, run, t));
    assert all[..|revoked|] == revoked;
    assert forall k :: |revoked| <= k < |all| ==> all[k] == later[k - |revoked|];
    RevokedStaysRevoked(s, all, |revoked|);
  }

  // ---- the cache of recent credentials ----

  ghost predicate Caches(s: State, generation: Secret) {
    s.slot.recent.Some? && Material(s.slot.recent.value.credential.secret) == generation
  }

  /** The holder has yet to clear the cache, or the pending commit that makes some holder do so is still there. */
  ghost predicate WillRefill(s: State) {
    if s.lease.Some? && s.lease.value in s.threads && s.threads[s.lease.value].Evicting? then true
    else
      && s.slot.pending.Some? && s.store.Generation() != s.slot.pending.value.source
      && (s.lease.Some? && s.lease.value in s.threads ==> !s.threads[s.lease.value].Remembered?)
  }

  ghost predicate CacheInv(s: State) {
    s.slot.recent.Some? ==> Caches(s, s.store.Generation()) || WillRefill(s)
  }

  lemma OutsideKeepsCacheInv(s: State, e: Event)
    requires ExchangeInv(s) && CacheInv(s) && OutsideEnabled(s, e) && !e.Replace?
    ensures CacheInv(OutsideNext(s, e))
  {
    OutsideIsQuiet(s, e);
  }

  lemma PreparingKeepsCacheInv(s: State, e: Event)
    requires ExchangeInv(s) && CacheInv(s) && PreparingEnabled(s, e)
    ensures CacheInv(PreparingNext(s, e))
  {
    assert e.Acquire? || s.lease == Some(e.t);
  }

  /** A commit stores a generation other than the one that was exchanged for it. */
  lemma CommitReplacesItsSource(s: State, t: nat)
    requires ExchangeInv(s) && s.lease == Some(t) && s.threads[t].Committing?
    ensures var commit := s.threads[t].commit; Material(Material(commit.credential.secret)) != commit.source
  {
    var commit := s.threads[t].commit;
    MaterialIdempotent(commit.credential.secret);
    assert s.issued[commit.operation] == commit;
    assert s.WasExchanged(commit.source);
  }

  lemma CasKeepsCacheInv(s: State, e: Event)
    requires ExchangeInv(s) && CacheInv(s) && WritingEnabled(s, e) && e.Cas?
    ensures CacheInv(WritingNext(s, e))
  {
    assert s.lease == Some(e.t);
    CommitReplacesItsSource(s, e.t);
  }

  lemma WritingKeepsCacheInv(s: State, e: Event)
    requires ExchangeInv(s) && CacheInv(s) && WritingEnabled(s, e) && !e.Cas?
    ensures CacheInv(WritingNext(s, e))
  {
    assert s.lease == Some(e.t);
  }

  ghost predicate NobodyReplaces(run: seq<Event>, a: nat) {
    forall k :: a <= k < |run| ==> !run[k].Replace?
  }

  lemma {:induction false} RunsKeepCacheInv(s: State, run: seq<Event>, a: nat)
    requires Initial(s) && After(s, run).Some? && a <= |run| && NobodyReplaces(run, a)
    requires After(s, run[..a]).Some? && After(s, run[..a]).value.slot.recent == None
    ensures CacheInv(After(s, run).value)
  {
    if a == |run| {
      assert run[..a] == run;
    } else {
      var front, e := run[..|run| - 1], run[|run| - 1];
      assert front[..a] == run[..a];
      RunsKeepCacheInv(s, front, a);
      RunsKeepExchangeInv(s, front);
      var before := After(s, front).value;
      if OutsideEnabled(before, e) { OutsideKeepsCacheInv(before, e); }
      else if PreparingEnabled(before, e) { PreparingKeepsCacheInv(before, e); }
      else if e.Cas? { CasKeepsCacheInv(before, e); }
      else { WritingKeepsCacheInv(before, e); }
    }
  }

  /**
   In every run, from any point where the cache was empty and after which no other writer
   replaced the session: whenever the lease is free and no commit is pending, a cached credential
   holds the stored generation. In particular a commit whose write reported an error never leaves
   the credential it replaced in the cache.
   */
  lemma CachedCredentialsAreStored(s: State, run: seq<Event>, a: nat)
    requires Initial(s) && After(s, run).Some? && a <= |run| && NobodyReplaces(run, a)
    requires After(s, run[..a]).Some? && After(s, run[..a]).value.slot.recent == None
    requires After(s, run).value.lease == None && After(s, run).value.slot.pending == None
    ensures var now := After(s, run).value; now.slot.recent.Some? ==> Caches(now, now.store.Generation())
  {
    RunsKeepCacheInv(s, run, a);
  }
}
