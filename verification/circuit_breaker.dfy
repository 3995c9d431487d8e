/**
 The sliding-window circuit breaker. It keeps only the failures that some call has not yet
 pruned, and must answer as if it had kept every failure since the last reset.
 */
module CircuitBreaking {
  import opened Collections

  type Instant = int

  /** A call of the breaker, with the clock reading it takes. */
  datatype Op =
    | Record(provider: string, now: Instant, window: int, threshold: int)
    | Count(provider: string, now: Instant, window: int)
    | Cleanup(now: Instant, maxAge: int)
    | Reset(provider: string)

  datatype Answer = Tripped(yes: bool) | Counted(count: nat) | Done

  /** The failures later than the cutoff, in order. */
  function Recent(failures: seq<Instant>, cutoff: Instant): seq<Instant> {
    if failures == [] then []
    else
      var n := |failures| - 1;
      Recent(failures[..n], cutoff) + if failures[n] > cutoff then [failures[n]] else []
  }

  /** A provider without an entry reads as having no failures. */
  function Failures(all: map<string, seq<Instant>>, provider: string): seq<Instant> {
    if provider in all then all[provider] else []
  }

  function Recorded(all: map<string, seq<Instant>>, provider: string, now: Instant, cutoff: Instant)
    : map<string, seq<Instant>>
  {
    all[provider := Recent(Failures(all, provider), cutoff) + [now]]
  }

  function Cleaned(all: map<string, seq<Instant>>, cutoff: Instant): map<string, seq<Instant>> {
    map p | p in all && Recent(all[p], cutoff) != [] :: Recent(all[p], cutoff)
  }

  class CircuitBreaker {
    var failures: map<string, seq<Instant>>

    constructor ()
      ensures failures == map[]
    {
      failures := map[];
    }

    method RecordFailure(provider: string, now: Instant, window: int, threshold: int) returns (tripped: bool)
      modifies this
      ensures failures == Recorded(old(failures), provider, now, now - window)
      ensures tripped <==> |Recent(Failures(old(failures), provider), now - window)| + 1 >= threshold
    {
      var known := Failures(failures, provider);
      var inWindow := Surviving(known, now - window);
      inWindow := inWindow + [now];
      failures := failures[provider := inWindow];
      return |inWindow| >= threshold;
    }

    method GetFailureCount(provider: string, now: Instant, window: int) returns (count: nat)
      ensures count == |Recent(Failures(failures, provider), now - window)|
    {
      var known := Failures(failures, provider);
      count := 0;
      for i := 0 to |known|
        invariant count == |Recent(known[..i], now - window)|
      {
        assert known[..i + 1][..i] == known[..i];
        if known[i] > now - window {
          count := count + 1;
        }
      }
      assert known[..|known|] == known;
    }

    method ResetProvider(provider: string)
      modifies this
      ensures failures == old(failures) - {provider}
    {
      failures := failures - {provider};
    }

    method CleanUp(now: Instant, maxAge: int)
      modifies this
      ensures failures == Cleaned(old(failures), now - maxAge)
    {
      var before := failures;
      var keys := failures.Keys;
      while keys != {}
        invariant keys <= failures.Keys <= before.Keys
        invariant forall p <- keys :: failures[p] == before[p]
        invariant forall p <- before.Keys - keys :: p in failures <==> Recent(before[p], now - maxAge) != []
        invariant forall p <- failures.Keys - keys :: failures[p] == Recent(before[p], now - maxAge)
        decreases keys
      {
        var p :| p in keys;
        keys := keys - {p};
        var valid := Surviving(failures[p], now - maxAge);
        if |valid| == 0 {
          failures := failures - {p};
        } else {
          failures := failures[p := valid];
        }
      }
    }
  }

  /** The filtering loop of RecordFailure and CleanUp. */
  method Surviving(failures: seq<Instant>, cutoff: Instant) returns (kept: seq<Instant>)
    ensures kept == Recent(failures, cutoff)
  {
    kept := [];
    for i := 0 to |failures|
      invariant kept == Recent(failures[..i], cutoff)
    {
      assert failures[..i + 1][..i] == failures[..i];
      if failures[i] > cutoff {
        kept := kept + [failures[i]];
      }
    }
    assert failures[..|failures|] == failures;
  }

  // ---- runs of the breaker and of a breaker that forgets nothing ----

  function Cutoff(op: Op): Instant
    requires !op.Reset?
  {
    if op.Cleanup? then op.now - op.maxAge else op.now - op.window
  }

  function Next(all: map<string, seq<Instant>>, op: Op): map<string, seq<Instant>> {
    match op
    case Record(p, now, _, _) => Recorded(all, p, now, Cutoff(op))
    case Count(_, _, _) => all
    case Cleanup(_, _) => Cleaned(all, Cutoff(op))
    case Reset(p) => all - {p}
  }

  /** What a call returns when these are its provider's failures. */
  function AnswerFrom(failures: seq<Instant>, op: Op): Answer {
    match op
    case Record(_, _, _, threshold) => Tripped(|Recent(failures, Cutoff(op))| + 1 >= threshold)
    case Count(_, _, _) => Counted(|Recent(failures, Cutoff(op))|)
    case _ => Done
  }

  function Answered(all: map<string, seq<Instant>>, op: Op): Answer {
    AnswerFrom(if op.Record? || op.Count? then Failures(all, op.provider) else [], op)
  }

  function After(run: seq<Op>): map<string, seq<Instant>> {
    if run == [] then map[] else Next(After(run[..|run| - 1]), run[|run| - 1])
  }

  /** Every failure of the provider since its last reset. */
  function History(run: seq<Op>, provider: string): seq<Instant> {
    if run == [] then []
    else
      var before, op := History(run[..|run| - 1], provider), run[|run| - 1];
      if op.Record? && op.provider == provider then before + [op.now]
      else if op == Reset(provider) then []
      else before
  }

  /** The highest cutoff at which the provider's failures were pruned since its last reset. */
  function Floor(run: seq<Op>, provider: string): Option<Instant> {
    if run == [] then None
    else
      var before, op := Floor(run[..|run| - 1], provider), run[|run| - 1];
      if op == Reset(provider) then None
      else if op.Cleanup? || (op.Record? && op.provider == provider) then
        Some(if before.Some? && before.value > Cutoff(op) then before.value else Cutoff(op))
      else before
  }

  predicate AtLeastFloor(run: seq<Op>, provider: string, cutoff: Instant) {
    Floor(run, provider).None? || cutoff >= Floor(run, provider).value
  }

  lemma {:induction false} RecentTwice(failures: seq<Instant>, low: Instant, high: Instant)
    requires low <= high
    ensures Recent(Recent(failures, low), high) == Recent(failures, high)
    ensures Recent(Recent(failures, high), low) == Recent(failures, high)
  {
    if failures != [] {
      var n := |failures| - 1;
      var last, lows, highs := failures[n], Recent(failures[..n], low), Recent(failures[..n], high);
      RecentTwice(failures[..n], low, high);
      if last > low {
        assert Recent(failures, low) == lows + [last];
        RecentAppend(lows, last, high);
      } else {
        assert Recent(failures, low) == lows;
      }
      if last > high {
        assert Recent(failures, high) == highs + [last];
        RecentAppend(highs, last, low);
      } else {
        assert Recent(failures, high) == highs;
      }
    }
  }

  lemma RecentAppend(failures: seq<Instant>, last: Instant, cutoff: Instant)
    ensures Recent(failures + [last], cutoff) == Recent(failures, cutoff) + if last > cutoff then [last] else []
  {
    assert (failures + [last])[..|failures|] == failures;
  }

  lemma CleanedFailures(all: map<string, seq<Instant>>, provider: string, cutoff: Instant)
    ensures Failures(Cleaned(all, cutoff), provider) == Recent(Failures(all, provider), cutoff)
  {
  }

  /** In every run whatsoever, nothing later than the highest prune cutoff is lost. */
  lemma {:induction false} AgreesAboveFloor(run: seq<Op>, provider: string, cutoff: Instant)
    requires AtLeastFloor(run, provider, cutoff)
    ensures Recent(Failures(After(run), provider), cutoff) == Recent(History(run, provider), cutoff)
  {
    if run != [] {
      var before, op := run[..|run| - 1], run[|run| - 1];
      if op != Reset(provider) {
        AgreesAboveFloor(before, provider, cutoff);
        var kept := Failures(After(before), provider);
        if op.Cleanup? {
          CleanedFailures(After(before), provider, Cutoff(op));
          RecentTwice(kept, Cutoff(op), cutoff);
        } else if op.Record? && op.provider == provider {
          RecentTwice(kept, Cutoff(op), cutoff);
          RecentAppend(Recent(kept, Cutoff(op)), op.now, cutoff);
          RecentAppend(History(before, provider), op.now, cutoff);
        }
      }
    }
  }

  /** The answer of a breaker that forgets nothing but what a reset erased. */
  function FullAnswer(run: seq<Op>, op: Op): Answer {
    AnswerFrom(if op.Record? || op.Count? then History(run, op.provider) else [], op)
  }

  /** Whoever asks at or above the highest prune cutoff gets the right answer, for any clock and any windows. */
  lemma AnswersAboveFloor(run: seq<Op>, op: Op)
    requires op.Record? || op.Count? ==> AtLeastFloor(run, op.provider, Cutoff(op))
    ensures Answered(After(run), op) == FullAnswer(run, op)
  {
    if op.Record? || op.Count? { AgreesAboveFloor(run, op.provider, Cutoff(op)); }
  }

  /** Clock readings never go back. */
  ghost predicate Ordered(run: seq<Op>) {
    forall i, j :: 0 <= i < j < |run| && !run[i].Reset? && !run[j].Reset? ==> run[i].now <= run[j].now
  }

  /** Every failure is recorded and counted over one window, and no cleanup is shorter than it. */
  ghost predicate Windowed(run: seq<Op>, window: int) {
    forall op <- run :: match op
      case Record(_, _, w, _) => w == window
      case Count(_, _, w) => w == window
      case Cleanup(_, maxAge) => maxAge >= window
      case Reset(_) => true
  }

  lemma {:induction false} FloorIsACutoff(run: seq<Op>, provider: string)
    requires Floor(run, provider).Some?
    ensures exists i :: 0 <= i < |run| && (run[i].Cleanup? || run[i].Record?) && Floor(run, provider).value == Cutoff(run[i])
  {
    var n := |run| - 1;
    if Floor(run[..n], provider).Some? {
      FloorIsACutoff(run[..n], provider);
      var i :| 0 <= i < n && (run[i].Cleanup? || run[i].Record?) && Floor(run[..n], provider).value == Cutoff(run[i]);
      assert Floor(run, provider).value == Cutoff(run[i]) || Floor(run, provider).value == Cutoff(run[n]);
    } else {
      assert Floor(run, provider).value == Cutoff(run[n]);
    }
  }

  /**
   The pruned breaker refines the full history: with a clock that never goes back, one window,
   and cleanups no shorter than the window, every call answers as if nothing had been pruned.
   */
  lemma PruningIsInvisible(run: seq<Op>, op: Op, window: int)
    requires Ordered(run + [op]) && Windowed(run + [op], window)
    ensures Answered(After(run), op) == FullAnswer(run, op)
  {
    if (op.Record? || op.Count?) && Floor(run, op.provider).Some? {
      FloorIsACutoff(run, op.provider);
      var i :| 0 <= i < |run| && (run[i].Cleanup? || run[i].Record?) && Floor(run, op.provider).value == Cutoff(run[i]);
      var all := run + [op];
      assert all[i] == run[i] && all[|run|] == op;
      assert all[i] in all && op in all;
    }
    AnswersAboveFloor(run, op);
  }

  /** The failure that call i recorded was not erased by a later reset. */
  predicate Kept(run: seq<Op>, i: nat, provider: string) {
    forall k :: i < k < |run| ==> run[k] != Reset(provider)
  }

  /** The calls that recorded a failure of the provider later than the cutoff, not erased since. */
  ghost function FailuresAfter(run: seq<Op>, provider: string, cutoff: Instant): set<nat> {
    set i | 0 <= i < |run| && run[i].Record? && run[i].provider == provider && run[i].now > cutoff && Kept(run, i, provider)
  }

  lemma FailuresAfterNext(run: seq<Op>, op: Op, provider: string, cutoff: Instant)
    ensures FailuresAfter(run + [op], provider, cutoff) ==
            if op == Reset(provider) then {}
            else FailuresAfter(run, provider, cutoff) +
                 if op.Record? && op.provider == provider && op.now > cutoff then {|run|} else {}
  {
    var all := run + [op];
    assert all[|run|] == op && forall i :: 0 <= i < |run| ==> all[i] == run[i];
    if op != Reset(provider) {
      forall i | 0 <= i < |run| ensures Kept(all, i, provider) <==> Kept(run, i, provider) {
        if Kept(all, i, provider) {
          forall k | i < k < |run| ensures run[k] != Reset(provider) { assert all[k] != Reset(provider); }
        }
      }
    } else {
      forall i | 0 <= i < |run| ensures !Kept(all, i, provider) { assert all[|run|] == Reset(provider); }
    }
  }

  lemma {:induction false} HistoryCounts(run: seq<Op>, provider: string, cutoff: Instant)
    ensures |Recent(History(run, provider), cutoff)| == |FailuresAfter(run, provider, cutoff)|
  {
    if run == [] {
      assert FailuresAfter(run, provider, cutoff) == {};
    } else {
      var before, op := run[..|run| - 1], run[|run| - 1];
      assert run == before + [op];
      HistoryCounts(before, provider, cutoff);
      FailuresAfterNext(before, op, provider, cutoff);
      if op.Record? { RecentAppend(History(before, provider), op.now, cutoff); }
    }
  }

  /**
   What the answers mean, said of the calls alone: under the conditions of PruningIsInvisible the
   count is the number of failures recorded inside the window and not reset since, and a failure
   trips the breaker exactly when these and itself reach the threshold.
   */
  lemma AnswersCountTheWindow(run: seq<Op>, op: Op, window: int)
    requires Ordered(run + [op]) && Windowed(run + [op], window)
    ensures op.Count? ==> Answered(After(run), op) == Counted(|FailuresAfter(run, op.provider, op.now - window)|)
    ensures op.Record? ==>
              Answered(After(run), op) == Tripped(|FailuresAfter(run, op.provider, op.now - window)| + 1 >= op.threshold)
  {
    PruningIsInvisible(run, op, window);
    assert (run + [op])[|run|] == op;
    assert op in run + [op];
    if op.Count? || op.Record? { HistoryCounts(run, op.provider, op.now - window); }
  }

  /** Without these conditions a failure inside the window can be lost: here the window grows. */
  lemma GrowingWindowLosesAFailure()
    ensures var run := [Record("p", 0, 10, 5), Record("p", 20, 10, 5)];
            Ordered(run + [Count("p", 20, 30)]) &&
            Answered(After(run), Count("p", 20, 30)) == Counted(1) &&
            FullAnswer(run, Count("p", 20, 30)) == Counted(2)
  {
    var r1, r2 := Record("p", 0, 10, 5), Record("p", 20, 10, 5);
    Appended([], r1, "p");
    Appended([r1], r2, "p");
    assert [] + [r1] == [r1] && [r1] + [r2] == [r1, r2];
    RecentAppend([], 0, 10);
    assert Recent([0], 10) == [] by { assert [] + [0] == [0]; }
    assert Failures(After([r1, r2]), "p") == [20] && History([r1, r2], "p") == [0] + [20];
    RecentAppend([], 0, -10);
    RecentAppend([], 20, -10);
    RecentAppend([0], 20, -10);
    assert [] + [20] == [20] && [] + [0] == [0];
  }

  lemma Appended(run: seq<Op>, op: Op, provider: string)
    ensures After(run + [op]) == Next(After(run), op)
    ensures op.Record? && op.provider == provider ==> History(run + [op], provider) == History(run, provider) + [op.now]
  {
    assert (run + [op])[..|run|] == run;
  }

  /** Every window and every cleanup age is positive. */
  ghost predicate Positive(run: seq<Op>) {
    forall op <- run :: match op
      case Record(_, _, w, _) => w > 0
      case Count(_, _, w) => w > 0
      case Cleanup(_, maxAge) => maxAge > 0
      case Reset(_) => true
  }

  function AboveFloor(run: seq<Op>, provider: string): seq<Instant> {
    if Floor(run, provider).None? then History(run, provider)
    else Recent(History(run, provider), Floor(run, provider).value)
  }

  /** What is kept is exactly the history above the floor. */
  lemma {:induction false} KeepsWhatIsAboveFloor(run: seq<Op>, provider: string)
    requires Ordered(run) && Positive(run)
    ensures Failures(After(run), provider) == AboveFloor(run, provider)
  {
    if run != [] {
      var before := run[..|run| - 1];
      assert forall x <- before :: x in run;
      KeepsWhatIsAboveFloor(before, provider);
      if run[|run| - 1].Record? && run[|run| - 1].provider == provider { RecordedIsAboveFloor(run, provider); }
      StepKeepsWhatIsAboveFloor(before, run[|run| - 1], run, provider);
    }
  }

  lemma StepKeepsWhatIsAboveFloor(before: seq<Op>, op: Op, run: seq<Op>, provider: string)
    requires run != [] && before == run[..|run| - 1] && op == run[|run| - 1]
    requires Failures(After(before), provider) == AboveFloor(before, provider)
    requires op.Record? && op.provider == provider ==> op.now > Floor(run, provider).value
    ensures Failures(After(run), provider) == AboveFloor(run, provider)
  {
    if op.Cleanup? {
      CleanedFailures(After(before), provider, Cutoff(op));
      PruningRaisesTheFloor(before, provider, Cutoff(op));
    } else if op.Record? && op.provider == provider {
      PruningRaisesTheFloor(before, provider, Cutoff(op));
      RecentAppend(History(before, provider), op.now, Floor(run, provider).value);
    }
  }

  lemma RecordedIsAboveFloor(run: seq<Op>, provider: string)
    requires Ordered(run) && Positive(run) && run != []
    requires run[|run| - 1].Record? && run[|run| - 1].provider == provider
    ensures run[|run| - 1].now > Floor(run, provider).value
  {
    FloorIsACutoff(run, provider);
    var i :| 0 <= i < |run| && (run[i].Cleanup? || run[i].Record?) && Floor(run, provider).value == Cutoff(run[i]);
    assert run[i] in run;
  }

  /** The cutoff that a question at the given cutoff is really answered for. */
  function EffectiveCutoff(run: seq<Op>, provider: string, cutoff: Instant): Instant {
    if Floor(run, provider).Some? && Floor(run, provider).value > cutoff then Floor(run, provider).value else cutoff
  }

  lemma PruningRaisesTheFloor(run: seq<Op>, provider: string, cutoff: Instant)
    ensures Recent(AboveFloor(run, provider), cutoff) == Recent(History(run, provider), EffectiveCutoff(run, provider, cutoff))
  {
    if Floor(run, provider).Some? {
      var floor := Floor(run, provider).value;
      if floor <= cutoff { RecentTwice(History(run, provider), floor, cutoff); }
      else { RecentTwice(History(run, provider), cutoff, floor); }
    }
  }

  ghost predicate NoneBetween(failures: seq<Instant>, low: Instant, high: Instant) {
    forall t <- failures :: !(low < t <= high)
  }

  lemma {:induction false} RecentLengths(failures: seq<Instant>, low: Instant, high: Instant)
    requires low <= high
    ensures |Recent(failures, high)| <= |Recent(failures, low)|
    ensures |Recent(failures, high)| == |Recent(failures, low)| <==> NoneBetween(failures, low, high)
  {
    if failures != [] {
      var n := |failures| - 1;
      RecentLengths(failures[..n], low, high);
      assert failures == failures[..n] + [failures[n]];
      assert failures[n] in failures && forall t <- failures :: t in failures[..n] || t == failures[n];
      assert forall t <- failures[..n] :: t in failures;
    }
  }

  /** What is kept answers a question as the full history answers it at the effective cutoff. */
  lemma KeptAnswers(run: seq<Op>, provider: string, cutoff: Instant)
    requires Ordered(run) && Positive(run)
    ensures Recent(Failures(After(run), provider), cutoff) ==
            Recent(History(run, provider), EffectiveCutoff(run, provider, cutoff))
  {
    KeepsWhatIsAboveFloor(run, provider);
    PruningRaisesTheFloor(run, provider, cutoff);
  }

  function KeptCount(run: seq<Op>, provider: string, cutoff: Instant): nat {
    |Recent(Failures(After(run), provider), cutoff)|
  }

  function FullCount(run: seq<Op>, provider: string, cutoff: Instant): nat {
    |Recent(History(run, provider), cutoff)|
  }

  lemma Counts(run: seq<Op>, provider: string, cutoff: Instant)
    requires Ordered(run) && Positive(run)
    ensures KeptCount(run, provider, cutoff) == FullCount(run, provider, EffectiveCutoff(run, provider, cutoff))
    ensures KeptCount(run, provider, cutoff) <= FullCount(run, provider, cutoff)
    ensures KeptCount(run, provider, cutoff) == FullCount(run, provider, cutoff) <==>
            NoneBetween(History(run, provider), cutoff, EffectiveCutoff(run, provider, cutoff))
  {
    KeptAnswers(run, provider, cutoff);
    RecentLengths(History(run, provider), cutoff, EffectiveCutoff(run, provider, cutoff));
  }

  /** Two lists give the same count, or the same trip, exactly as their recent parts compare. */
  lemma AnswersCompare(kept: seq<Instant>, full: seq<Instant>, op: Op)
    requires op.Record? || op.Count?
    requires |Recent(kept, Cutoff(op))| <= |Recent(full, Cutoff(op))|
    ensures op.Count? ==>
              (AnswerFrom(kept, op) == AnswerFrom(full, op) <==> |Recent(kept, Cutoff(op))| == |Recent(full, Cutoff(op))|)
    ensures op.Record? ==>
              (AnswerFrom(kept, op) == AnswerFrom(full, op) <==>
                 !(|Recent(kept, Cutoff(op))| + 1 < op.threshold <= |Recent(full, Cutoff(op))| + 1))
  {
  }

  /**
   For changing windows, the count is right exactly when no failure since the last reset lies
   after the asked cutoff and at or before the highest prune cutoff.
   */
  lemma CountIsRightIffNothingPrunedIsAskedFor(run: seq<Op>, op: Op)
    requires Ordered(run) && Positive(run) && op.Count?
    ensures Answered(After(run), op) == FullAnswer(run, op) <==>
            NoneBetween(History(run, op.provider), Cutoff(op), EffectiveCutoff(run, op.provider, Cutoff(op)))
  {
    Counts(run, op.provider, Cutoff(op));
    AnswersCompare(Failures(After(run), op.provider), History(run, op.provider), op);
  }

  /** And a failure trips the breaker as it should exactly unless the threshold falls among the failures that were pruned. */
  lemma TripIsRightIffThresholdIsNotAmongThePruned(run: seq<Op>, op: Op)
    requires Ordered(run) && Positive(run) && op.Record?
    ensures Answered(After(run), op) == FullAnswer(run, op) <==>
            !(FullCount(run, op.provider, EffectiveCutoff(run, op.provider, Cutoff(op))) + 1 < op.threshold
              <= FullCount(run, op.provider, Cutoff(op)) + 1)
  {
    Counts(run, op.provider, Cutoff(op));
    AnswersCompare(Failures(After(run), op.provider), History(run, op.provider), op);
  }

  // ---- providers do not interfere ----

  predicate Concerns(op: Op, provider: string) {
    op.Cleanup? || op.provider == provider
  }

  /** The calls of the run that concern the provider. */
  function Only(run: seq<Op>, provider: string): seq<Op> {
    if run == [] then []
    else Only(run[..|run| - 1], provider) + if Concerns(run[|run| - 1], provider) then [run[|run| - 1]] else []
  }

  /** No call affects another provider: dropping all calls for other providers changes nothing for this one. */
  lemma {:induction false} ProvidersDoNotInterfere(run: seq<Op>, provider: string)
    ensures Failures(After(run), provider) == Failures(After(Only(run, provider)), provider)
  {
    if run != [] {
      var before, op := run[..|run| - 1], run[|run| - 1];
      ProvidersDoNotInterfere(before, provider);
      if Concerns(op, provider) {
        var only := Only(before, provider);
        assert Only(run, provider) == only + [op];
        Appended(only, op, provider);
        if op.Cleanup? {
          CleanedFailures(After(before), provider, Cutoff(op));
          CleanedFailures(After(only), provider, Cutoff(op));
        }
      } else {
        assert Only(run, provider) == Only(before, provider);
      }
    }
  }
}
