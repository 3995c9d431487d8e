/**
 Quota snapshots of a credential session: the merge that decides whether an
 observation replaces the stored snapshot, and the per-session queue through which
 observations of concurrent responses reach that merge.
 */
module UsageObservation {
  import opened Collections
  import Text

  /** Instants are nanoseconds; ZERO_INSTANT is the unset time. */
  type Instant = int

  const ZERO_INSTANT: Instant := 0
  const MIN_INTERVAL := 30_000_000_000

  datatype UsageWindow = UsageWindow(usedPercent: real, windowSeconds: int, resetAt: Option<Instant>)

  datatype Usage = Usage(
    fetchedAt: Option<Instant>,
    planType: string,
    fiveHour: Option<UsageWindow>,
    oneWeek: Option<UsageWindow>)

  datatype Merge =
    | Skipped(reason: string)
    | Merged(usage: Usage)

  function Fetched(u: Option<Usage>): Option<Instant> {
    if u.Some? then u.value.fetchedAt else None
  }

  /** b was fetched no earlier than a; a missing time precedes every time. */
  predicate NoEarlier(a: Option<Instant>, b: Option<Instant>) {
    a.None? || (b.Some? && a.value <= b.value)
  }

  predicate Usable(observed: Option<Usage>) {
    Fetched(observed).Some? && Fetched(observed).value != ZERO_INSTANT
  }

  function MergeObserved(current: Option<Usage>, observed: Option<Usage>): Merge {
    if !Usable(observed) then Skipped("missing_observation_time")
    else if Fetched(current).Some? && observed.value.fetchedAt.value <= Fetched(current).value then
      Skipped("stale_observation")
    else if Fetched(current).Some? && observed.value.fetchedAt.value - Fetched(current).value < MIN_INTERVAL then
      Skipped("observation_interval")
    else
      var base := if current.Some? then current.value else Usage(None, "", None, None);
      var plan := Text.TrimSpace(observed.value.planType);
      Merged(Usage(
        observed.value.fetchedAt,
        if plan != "" then plan else base.planType,
        if observed.value.fiveHour.Some? then observed.value.fiveHour else base.fiveHour,
        if observed.value.oneWeek.Some? then observed.value.oneWeek else base.oneWeek))
  }

  /** An observation is accepted exactly when it carries a time at least MIN_INTERVAL past the stored one. */
  lemma MergeAcceptsSpacedObservations(current: Option<Usage>, observed: Option<Usage>)
    ensures MergeObserved(current, observed).Merged? <==>
            Usable(observed) &&
            (Fetched(current).Some? ==> observed.value.fetchedAt.value >= Fetched(current).value + MIN_INTERVAL)
    ensures MergeObserved(current, observed).Merged? ==>
            MergeObserved(current, observed).usage.fetchedAt == observed.value.fetchedAt
  {
  }

  /** The snapshot after merging observations in order, skipping those that are not accepted. */
  function MergeEach(current: Option<Usage>, observed: seq<Usage>): Option<Usage> {
    if observed == [] then current
    else
      var before := MergeEach(current, observed[..|observed| - 1]);
      var merge := MergeObserved(before, Some(observed[|observed| - 1]));
      if merge.Merged? then Some(merge.usage) else before
  }

  function FiveHourOf(u: Usage): Option<UsageWindow> {
    u.fiveHour
  }

  function OneWeekOf(u: Usage): Option<UsageWindow> {
    u.oneWeek
  }

  /** The plan that a snapshot names, if it names one. */
  function PlanOf(u: Usage): Option<string> {
    if Text.TrimSpace(u.planType) != "" then Some(Text.TrimSpace(u.planType)) else None
  }

  function Known<T>(u: Option<Usage>, partOf: Usage -> Option<T>): Option<T> {
    if u.Some? then partOf(u.value) else None
  }

  /** The part that each observation contributes: none if it was not accepted or carried none. */
  function Contributed<T>(current: Option<Usage>, observed: seq<Usage>, partOf: Usage -> Option<T>): seq<Option<T>> {
    if observed == [] then []
    else
      var front, last := observed[..|observed| - 1], observed[|observed| - 1];
      Contributed(current, front, partOf) +
      [if MergeObserved(MergeEach(current, front), Some(last)).Merged? then partOf(last) else None]
  }

  /** known is the last part in the list, or the first one when the list has none. */
  ghost predicate IsLatest<T(!new)>(first: Option<T>, list: seq<Option<T>>, known: Option<T>) {
    || (known == first && forall w <- list :: w.None?)
    || (exists i :: 0 <= i < |list| && list[i] == known && known.Some? && forall j :: i < j < |list| ==> list[j].None?)
  }

  lemma IsLatestNext<T(!new)>(first: Option<T>, list: seq<Option<T>>, known: Option<T>, next: Option<T>)
    requires IsLatest(first, list, known)
    ensures IsLatest(first, list + [next], if next.Some? then next else known)
  {
    var more := list + [next];
    if next.Some? {
      assert more[|list|] == next;
    } else if i :| 0 <= i < |list| && list[i] == known && known.Some? && forall j :: i < j < |list| ==> list[j].None? {
      assert more[i] == known;
    }
  }

  /** Partial observations never erase a window: over every sequence of observations the latest one of each is kept. */
  lemma {:induction false} MergingKeepsTheLatestWindows(current: Option<Usage>, observed: seq<Usage>)
    ensures IsLatest(Known(current, FiveHourOf), Contributed(current, observed, FiveHourOf),
                     Known(MergeEach(current, observed), FiveHourOf))
    ensures IsLatest(Known(current, OneWeekOf), Contributed(current, observed, OneWeekOf),
                     Known(MergeEach(current, observed), OneWeekOf))
  {
    if observed != [] {
      var n := |observed| - 1;
      var before := MergeEach(current, observed[..n]);
      var accepted := MergeObserved(before, Some(observed[n])).Merged?;
      MergingKeepsTheLatestWindows(current, observed[..n]);
      IsLatestNext(Known(current, FiveHourOf), Contributed(current, observed[..n], FiveHourOf), Known(before, FiveHourOf),
                   if accepted then FiveHourOf(observed[n]) else None);
      IsLatestNext(Known(current, OneWeekOf), Contributed(current, observed[..n], OneWeekOf), Known(before, OneWeekOf),
                   if accepted then OneWeekOf(observed[n]) else None);
    }
  }

  /** Likewise an observation that names no plan leaves the plan as the latest accepted one named it. */
  lemma {:induction false} MergingKeepsTheLatestPlan(current: Option<Usage>, observed: seq<Usage>)
    ensures IsLatest(Known(current, PlanOf), Contributed(current, observed, PlanOf), Known(MergeEach(current, observed), PlanOf))
  {
    if observed != [] {
      var n := |observed| - 1;
      var before := MergeEach(current, observed[..n]);
      var merge := MergeObserved(before, Some(observed[n]));
      MergingKeepsTheLatestPlan(current, observed[..n]);
      Text.TrimmedIffFixed(observed[n].planType);
      Text.TrimmedIffFixed(Text.TrimSpace(observed[n].planType));
      IsLatestNext(Known(current, PlanOf), Contributed(current, observed[..n], PlanOf), Known(before, PlanOf),
                   if merge.Merged? then PlanOf(observed[n]) else None);
    }
  }

  function UsageNewer(candidate: Option<Usage>, current: Option<Usage>): bool {
    Fetched(candidate).Some? &&
    (Fetched(current).None? || Fetched(candidate).value > Fetched(current).value)
  }

  /** The snapshot a refresh commit stores: the exchange's own unless the session's is newer. */
  function CommitUsage(stored: Option<Usage>, exchanged: Option<Usage>): Option<Usage> {
    if UsageNewer(stored, exchanged) then stored else exchanged
  }

  /** Committing an exchange never rolls the session back behind either snapshot. */
  lemma CommitKeepsNewest(stored: Option<Usage>, exchanged: Option<Usage>)
    ensures NoEarlier(Fetched(stored), Fetched(CommitUsage(stored, exchanged)))
    ensures NoEarlier(Fetched(exchanged), Fetched(CommitUsage(stored, exchanged)))
    ensures CommitUsage(stored, exchanged) in {stored, exchanged}
  {
  }

  /** The queue of one session as its lock protects it: absent, or present with at most one waiting snapshot. */
  type QueueSlot = Option<Option<Usage>>

  function Enqueue(slot: QueueSlot, u: Usage): QueueSlot {
    match slot
    case None => Some(None)
    case Some(latest) => if UsageNewer(Some(u), latest) then Some(Some(u)) else slot
  }

  function Dequeue(slot: QueueSlot): QueueSlot {
    match slot
    case Some(Some(_)) => Some(None)
    case _ => None
  }

  class ObservationQueue {
    var inFlight: map<string, Option<Usage>>

    constructor ()
      ensures inFlight == map[]
    {
      inFlight := map[];
    }

    function SlotAt(sessionID: string): QueueSlot
      reads this
    {
      if sessionID in inFlight then Some(inFlight[sessionID]) else None
    }

    method Begin(sessionID: string, snapshot: Usage) returns (owner: bool)
      modifies this
      ensures owner <==> old(SlotAt(sessionID)).None?
      ensures SlotAt(sessionID) == Enqueue(old(SlotAt(sessionID)), snapshot)
      ensures forall other :: other != sessionID ==> SlotAt(other) == old(SlotAt(other))
    {
      if sessionID in inFlight {
        if UsageNewer(Some(snapshot), inFlight[sessionID]) {
          inFlight := inFlight[sessionID := Some(snapshot)];
        }
        return false;
      }
      inFlight := inFlight[sessionID := None];
      return true;
    }

    method TakeQueued(sessionID: string) returns (next: Option<Usage>)
      modifies this
      ensures next == if old(SlotAt(sessionID)).Some? then old(SlotAt(sessionID)).value else None
      ensures SlotAt(sessionID) == Dequeue(old(SlotAt(sessionID)))
      ensures forall other :: other != sessionID ==> SlotAt(other) == old(SlotAt(other))
    {
      next := None;
      if sessionID in inFlight {
        next := inFlight[sessionID];
        if next.None? {
          inFlight := inFlight - {sessionID};
        } else {
          inFlight := inFlight[sessionID := None];
        }
      }
    }

    method Finish(sessionID: string)
      modifies this
      ensures SlotAt(sessionID) == None
      ensures forall other :: other != sessionID ==> SlotAt(other) == old(SlotAt(other))
    {
      inFlight := inFlight - {sessionID};
    }
  }
}

/**
 Every interleaving of callers observing one session. Each critical section of the
 queue lock is one step, and the persist call between two of them is another.
 */
module ObservationProtocol {
  import opened Collections
  import opened UsageObservation

  datatype Phase =
    | Persisting(hand: Usage)  // owns the entry; the persist call is under way
    | Taking                   // owns the entry; the persist call succeeded
    | Failing(hand: Usage)     // owns the entry; the persist call of its snapshot failed
    | Done

  datatype Event =
    | Observe(caller: nat, usage: Usage)
    | PersistOk(caller: nat)
    | PersistErr(caller: nat)
    | Take(caller: nat)
    | Finish(caller: nat)

  /** accepted and persisted are histories of the current queue entry: fetch times, not snapshots. */
  datatype State = State(
    slot: QueueSlot,
    callers: map<nat, Phase>,
    accepted: set<Instant>,
    persisted: set<Instant>)

  const INITIAL := State(None, map[], {}, {})

  predicate Owns(s: State, t: nat) {
    t in s.callers && !s.callers[t].Done?
  }

  predicate Enabled(s: State, e: Event) {
    match e
    case Observe(t, u) => t !in s.callers && Usable(Some(u))
    case PersistOk(t) => t in s.callers && s.callers[t].Persisting?
    case PersistErr(t) => t in s.callers && s.callers[t].Persisting?
    case Take(t) => t in s.callers && s.callers[t].Taking?
    case Finish(t) => t in s.callers && s.callers[t].Failing?
  }

  ghost function Next(s: State, e: Event): State
    requires Enabled(s, e)
  {
    match e
    case Observe(t, u) =>
      var leads := s.slot.None?;
      State(Enqueue(s.slot, u),
            s.callers[t := if leads then Persisting(u) else Done],
            (if leads then {} else s.accepted) + {u.fetchedAt.value},
            if leads then {} else s.persisted)
    case PersistOk(t) =>
      var hand := s.callers[t].hand;
      s.(callers := s.callers[t := Taking],
         persisted := s.persisted + if hand.fetchedAt.Some? then {hand.fetchedAt.value} else {})
    case PersistErr(t) => s.(callers := s.callers[t := Failing(s.callers[t].hand)])
    case Take(t) =>
      var next := if s.slot.Some? then s.slot.value else None;
      s.(slot := Dequeue(s.slot),
         callers := s.callers[t := if next.Some? then Persisting(next.value) else Done])
    case Finish(t) => s.(slot := None, callers := s.callers[t := Done])
  }

  /** The state after a run of events from the start, or None where some event could not happen. */
  ghost function After(run: seq<Event>): Option<State> {
    if run == [] then Some(INITIAL)
    else
      var before := After(run[..|run| - 1]);
      if before.Some? && Enabled(before.value, run[|run| - 1]) then Some(Next(before.value, run[|run| - 1]))
      else None
  }

  /** One owner: the entry exists exactly while one caller is draining it. */
  ghost predicate OneOwner(s: State) {
    && (s.slot.Some? <==> exists t :: Owns(s, t))
    && (forall t, u :: Owns(s, t) && Owns(s, u) ==> t == u)
  }

  ghost predicate Persisted(s: State, a: Instant) {
    exists p <- s.persisted :: a <= p
  }

  /** The caller holds a snapshot that is not known to be persisted. */
  predicate InHand(s: State, t: nat) {
    t in s.callers && (s.callers[t].Persisting? || s.callers[t].Failing?)
  }

  ghost predicate Held(s: State, a: Instant) {
    exists t :: InHand(s, t) && NoEarlier(Some(a), s.callers[t].hand.fetchedAt)
  }

  ghost predicate Queued(s: State, a: Instant) {
    s.slot.Some? && NoEarlier(Some(a), Fetched(s.slot.value))
  }

  /** While the entry exists, every accepted time is covered by a persisted, a held or a queued snapshot. */
  ghost predicate Covered(s: State) {
    s.slot.Some? ==> forall a <- s.accepted :: Persisted(s, a) || Held(s, a) || Queued(s, a)
  }

  /** Held and queued snapshots carry times that were accepted. */
  ghost predicate Genuine(s: State) {
    && (forall t <- s.callers :: InHand(s, t) ==> Usable(Some(s.callers[t].hand)) && s.callers[t].hand.fetchedAt.value in s.accepted)
    && (s.slot.Some? && s.slot.value.Some? ==> Usable(s.slot.value) && s.slot.value.value.fetchedAt.value in s.accepted)
  }

  ghost predicate Inv(s: State) {
    OneOwner(s) && Covered(s) && Genuine(s)
  }

  lemma StepKeepsOneOwner(s: State, e: Event)
    requires OneOwner(s) && Enabled(s, e)
    ensures OneOwner(Next(s, e))
  {
    var s', t := Next(s, e), e.caller;
    assert forall v :: v != t ==> (Owns(s', v) <==> Owns(s, v));
    if !e.Observe? {
      assert Owns(s, t);
      assert Owns(s', t) <==> s'.slot.Some?;
    } else if s.slot.None? {
      assert Owns(s', t);
    } else {
      var o :| Owns(s, o);
      assert Owns(s', o) && !Owns(s', t);
    }
  }

  lemma StepKeepsGenuine(s: State, e: Event)
    requires OneOwner(s) && Genuine(s) && Enabled(s, e)
    ensures Genuine(Next(s, e))
  {
    var s' := Next(s, e);
    forall u <- s'.callers | InHand(s', u)
      ensures Usable(Some(s'.callers[u].hand)) && s'.callers[u].hand.fetchedAt.value in s'.accepted
    {
      if u != e.caller {
        assert Owns(s, u) && InHand(s, u);
        assert !e.Observe? ==> Owns(s, e.caller);
      }
    }
  }

  lemma StepKeepsCovered(s: State, e: Event)
    requires Inv(s) && Enabled(s, e)
    ensures Covered(Next(s, e))
  {
    var s', t := Next(s, e), e.caller;
    if s'.slot.Some? {
      forall a <- s'.accepted ensures Persisted(s', a) || Held(s', a) || Queued(s', a) {
        if e.Observe? {
          ObserveCovers(s, e, a);
        } else {
          assert Owns(s, t);
          assert Persisted(s, a) || Held(s, a) || Queued(s, a);
          if Held(s, a) { OwnerHolds(s, t, a); }
          if e.PersistOk? { assert s.callers[t].hand.fetchedAt.value in s'.persisted; }
          if InHand(s', t) && NoEarlier(Some(a), s'.callers[t].hand.fetchedAt) { assert Held(s', a); }
          if Persisted(s, a) { assert Persisted(s', a); }
        }
      }
    }
  }

  lemma ObserveCovers(s: State, e: Event, a: Instant)
    requires Inv(s) && Enabled(s, e) && e.Observe? && a in Next(s, e).accepted
    ensures Persisted(Next(s, e), a) || Held(Next(s, e), a) || Queued(Next(s, e), a)
  {
    var s', t := Next(s, e), e.caller;
    if s.slot.None? {
      assert InHand(s', t);
    } else if a in s.accepted && Held(s, a) {
      var h :| InHand(s, h) && NoEarlier(Some(a), s.callers[h].hand.fetchedAt);
      assert InHand(s', h);
    } else if a in s.accepted && Persisted(s, a) {
      assert Persisted(s', a);
    }
  }

  /** What is held is held by the one owner. */
  lemma OwnerHolds(s: State, t: nat, a: Instant)
    requires OneOwner(s) && Owns(s, t) && Held(s, a)
    ensures InHand(s, t) && NoEarlier(Some(a), s.callers[t].hand.fetchedAt)
  {
    var h :| InHand(s, h) && NoEarlier(Some(a), s.callers[h].hand.fetchedAt);
    assert Owns(s, h);
  }

  lemma {:induction false} RunsKeepInv(run: seq<Event>)
    requires After(run).Some?
    ensures Inv(After(run).value)
  {
    if run != [] {
      RunsKeepInv(run[..|run| - 1]);
      var before := After(run[..|run| - 1]).value;
      StepKeepsOneOwner(before, run[|run| - 1]);
      StepKeepsCovered(before, run[|run| - 1]);
      StepKeepsGenuine(before, run[|run| - 1]);
    }
  }

  /** Between a persist call that succeeded and the next take, whatever is not yet persisted is in the queue. */
  lemma DrainedSoFar(s: State, t: nat)
    requires Inv(s) && t in s.callers && s.callers[t].Taking?
    ensures s.slot.Some?
    ensures forall a <- s.accepted :: Persisted(s, a) || Queued(s, a)
  {
    assert Owns(s, t);
    forall a <- s.accepted ensures Persisted(s, a) || Queued(s, a) {
      if Held(s, a) { OwnerHolds(s, t, a); }
    }
  }

  /**
   In every run: while the entry exists exactly one caller owns it, and when a take
   removes it, every observation accepted since its creation is covered by a successful
   persist call with an equal or later fetch time.
   */
  lemma DrainPersistsEveryObservation(run: seq<Event>, t: nat)
    requires After(run).Some?
    ensures OneOwner(After(run).value)
    ensures var s := After(run).value;
            Enabled(s, Take(t)) && Next(s, Take(t)).slot.None? ==> forall a <- s.accepted :: Persisted(s, a)
  {
    RunsKeepInv(run);
    if Enabled(After(run).value, Take(t)) { DrainedSoFar(After(run).value, t); }
  }

  /** The snapshot has a time that a successful persist call covers. */
  ghost predicate Saved(s: State, u: Usage) {
    u.fetchedAt.Some? && Persisted(s, u.fetchedAt.value)
  }

  /**
   When a failed persist call makes the owner remove the entry, nothing accepted is lost
   exactly if the snapshot that failed and the one waiting behind it, if any, were both covered
   by successful persist calls before.
   */
  lemma FailureLosesExactlyTheUnsaved(run: seq<Event>, t: nat)
    requires After(run).Some? && Enabled(After(run).value, Finish(t))
    ensures var s := After(run).value;
            s.slot.Some? &&
            ((forall a <- s.accepted :: Persisted(s, a)) <==>
               Saved(s, s.callers[t].hand) && (s.slot.value.Some? ==> Saved(s, s.slot.value.value)))
  {
    RunsKeepInv(run);
    var s := After(run).value;
    assert Owns(s, t) && InHand(s, t);
    if Saved(s, s.callers[t].hand) && (s.slot.value.Some? ==> Saved(s, s.slot.value.value)) {
      forall a <- s.accepted ensures Persisted(s, a) {
        if Held(s, a) { OwnerHolds(s, t, a); }
      }
    }
  }

  /** An instance: the first persist call fails while a later observation waits. */
  lemma FailureDropsTheQueue()
    ensures exists run ::
              After(run).Some? && Enabled(After(run).value, Finish(1)) &&
              exists a <- After(run).value.accepted :: !Persisted(After(run).value, a)
  {
    var early, late := Usage(Some(10), "", None, None), Usage(Some(50), "", None, None);
    var run := [Observe(1, early), Observe(2, late), PersistErr(1)];
    assert After(run[..0]) == Some(INITIAL);
    assert run[..1][..0] == run[..0] && run[..2][..1] == run[..1] && run[..3] == run && run[..3][..2] == run[..2];
    assert After(run[..1]).Some?;
    assert After(run[..2]).Some?;
    assert After(run).Some? && Enabled(After(run).value, Finish(1));
    assert 50 in After(run).value.accepted && !Persisted(After(run).value, 50);
  }
}
