/**
 The retry ledger: counters of attempts and scheduled retries. A transition returns a new
 ledger and leaves the old one usable, so a rejected attempt is never charged. Counters are
 64-bit unsigned integers.
 */
module RetryLedger {
  import opened Collections
  import opened ErrorRules

  const MAX_UINT: nat := 0xFFFF_FFFF_FFFF_FFFF

  datatype Key = Key(providerID: string, ruleID: string)

  datatype Ledger = Ledger(logical: nat, attempts: map<string, nat>, legacy: map<string, nat>, ruleRetries: map<Key, nat>)

  const EMPTY := Ledger(0, map[], map[], map[])

  datatype LedgerError = InvalidProvider | InvalidRule | GlobalAttemptLimit | CounterOverflow

  datatype Result = Started(ledger: Ledger) | Refused(error: LedgerError)

  /** What is left of the global budget; None when it is unlimited. */
  function GlobalRemaining(l: Ledger, globalMax: nat): Option<nat> {
    if globalMax == 0 then None
    else if l.logical >= globalMax then Some(0)
    else Some(globalMax - l.logical)
  }

  predicate Exhausted(l: Ledger, globalMax: nat) {
    GlobalRemaining(l, globalMax) == Some(0)
  }

  function RuleRetriesRemaining(l: Ledger, key: Key, maxRetries: int): int {
    if maxRetries <= 0 then 0
    else if CountAt(l.ruleRetries, key) >= maxRetries then 0
    else maxRetries - CountAt(l.ruleRetries, key)
  }

  /** What one started attempt is charged to besides the provider. */
  datatype Charge = Plain | Legacy | ForRule(key: Key)

  function StartError(l: Ledger, providerID: string, globalMax: nat, charge: Charge): Option<LedgerError> {
    if charge.ForRule? && !IsUUIDv4(charge.key.ruleID) then Some(InvalidRule)
    else if !ValidProviderID(providerID) then Some(InvalidProvider)
    else if Exhausted(l, globalMax) then Some(GlobalAttemptLimit)
    else if l.logical == MAX_UINT || CountAt(l.attempts, providerID) == MAX_UINT then Some(CounterOverflow)
    else if charge.Legacy? && CountAt(l.legacy, providerID) == MAX_UINT then Some(CounterOverflow)
    else if charge.ForRule? && CountAt(l.ruleRetries, charge.key) == MAX_UINT then Some(CounterOverflow)
    else None
  }

  function Charged(l: Ledger, providerID: string, charge: Charge): Ledger {
    Ledger(l.logical + 1,
           Bumped(l.attempts, providerID),
           if charge.Legacy? then Bumped(l.legacy, providerID) else l.legacy,
           if charge.ForRule? then Bumped(l.ruleRetries, charge.key) else l.ruleRetries)
  }

  function Start(l: Ledger, providerID: string, globalMax: nat, charge: Charge): Result {
    var error := StartError(l, providerID, globalMax, charge);
    if error.Some? then Refused(error.value) else Started(Charged(l, providerID, charge))
  }

  // ---- the ledger as it is stored: a value that refers to mutable counter maps ----

  class Counters<K(==)> {
    var counts: map<K, nat>

    constructor ()
      ensures counts == map[]
    {
      counts := map[];
    }

    /** A copy that shares nothing with the original. */
    method Clone() returns (copy: Counters<K>)
      ensures fresh(copy) && copy.counts == counts
    {
      copy := new Counters();
      var keys := counts.Keys;
      while keys != {}
        invariant keys <= counts.Keys
        invariant fresh(copy) && copy.counts.Keys == counts.Keys - keys
        invariant forall k <- copy.counts :: copy.counts[k] == counts[k]
        decreases keys
      {
        var k :| k in keys;
        copy.counts := copy.counts[k := counts[k]];
        keys := keys - {k};
      }
    }

    method Increment(k: K)
      modifies this
      ensures counts == Bumped(old(counts), k)
    {
      counts := counts[k := CountAt(counts, k) + 1];
    }
  }

  datatype Stored = Stored(logical: nat, attempts: Counters<string>, legacy: Counters<string>, ruleRetries: Counters<Key>)
  {
    function View(): Ledger
      reads attempts, legacy, ruleRetries
    {
      Ledger(logical, attempts.counts, legacy.counts, ruleRetries.counts)
    }
  }

  /**
   Copy-on-write: a started attempt is charged to a ledger none of whose maps existed before,
   and the given ledger keeps all its counts, so a caller whose permit is rejected later can go
   on using it.
   */
  method StartStored(l: Stored, providerID: string, globalMax: nat, charge: Charge)
    returns (next: Option<Stored>, error: Option<LedgerError>)
    ensures l.View() == old(l.View())
    ensures error == StartError(l.View(), providerID, globalMax, charge)
    ensures next.Some? <==> error.None?
    ensures next.Some? ==>
              && fresh(next.value.attempts) && fresh(next.value.legacy) && fresh(next.value.ruleRetries)
              && next.value.attempts != next.value.legacy
              && next.value.View() == Charged(l.View(), providerID, charge)
  {
    if charge.ForRule? && !IsUUIDv4(charge.key.ruleID) {
      return None, Some(InvalidRule);
    }
    if !ValidProviderID(providerID) {
      return None, Some(InvalidProvider);
    }
    var remaining := GlobalRemaining(l.View(), globalMax);
    if remaining.Some? && remaining.value == 0 {
      return None, Some(GlobalAttemptLimit);
    }
    if l.logical == MAX_UINT || CountAt(l.attempts.counts, providerID) == MAX_UINT {
      return None, Some(CounterOverflow);
    }
    if charge.Legacy? && CountAt(l.legacy.counts, providerID) == MAX_UINT {
      return None, Some(CounterOverflow);
    }
    if charge.ForRule? && CountAt(l.ruleRetries.counts, charge.key) == MAX_UINT {
      return None, Some(CounterOverflow);
    }
    var attempts := l.attempts.Clone();
    var legacy := l.legacy.Clone();
    var ruleRetries := l.ruleRetries.Clone();
    attempts.Increment(providerID);
    if charge.Legacy? {
      legacy.Increment(providerID);
    }
    if charge.ForRule? {
      ruleRetries.Increment(charge.key);
    }
    return Some(Stored(l.logical + 1, attempts, legacy, ruleRetries)), None;
  }

  // ---- conservation ----

  ghost function CountsOn(retries: map<Key, nat>, providerID: string): map<string, nat> {
    map k | k in retries && k.providerID == providerID :: k.ruleID := retries[k]
  }

  /** The rule retries scheduled on one provider, by rule. */
  ghost function RuleCounts(l: Ledger, providerID: string): map<string, nat> {
    CountsOn(l.ruleRetries, providerID)
  }

  ghost predicate Within(l: Ledger, providerID: string) {
    CountAt(l.legacy, providerID) + Total(RuleCounts(l, providerID)) <= CountAt(l.attempts, providerID)
  }

  ghost predicate Conserved(l: Ledger) {
    && l.logical == Total(l.attempts)
    && l.logical <= MAX_UINT
    && (forall p :: Within(l, p))
  }

  lemma CountsOnMember(retries: map<Key, nat>, p: string, r: string)
    ensures r in CountsOn(retries, p) <==> Key(p, r) in retries
    ensures r in CountsOn(retries, p) ==> CountsOn(retries, p)[r] == retries[Key(p, r)]
  {
  }

  lemma RuleCountsAt(l: Ledger, key: Key)
    ensures CountAt(RuleCounts(l, key.providerID), key.ruleID) == CountAt(l.ruleRetries, key)
  {
    CountsOnMember(l.ruleRetries, key.providerID, key.ruleID);
  }

  lemma CountsOnBump(retries: map<Key, nat>, key: Key, p: string)
    ensures CountsOn(Bumped(retries, key), p) ==
            if p == key.providerID then Bumped(CountsOn(retries, p), key.ruleID) else CountsOn(retries, p)
  {
    var after := CountsOn(Bumped(retries, key), p);
    var want := if p == key.providerID then Bumped(CountsOn(retries, p), key.ruleID) else CountsOn(retries, p);
    CountsOnMember(retries, p, key.ruleID);
    forall r ensures (r in after <==> r in want) && (r in after ==> after[r] == want[r]) {
      CountsOnMember(Bumped(retries, key), p, r);
      CountsOnMember(retries, p, r);
    }
  }

  lemma ChargedRuleCounts(l: Ledger, providerID: string, charge: Charge, p: string)
    requires charge.ForRule? ==> charge.key.providerID == providerID
    ensures RuleCounts(Charged(l, providerID, charge), p) ==
            if charge.ForRule? && p == providerID
            then Bumped(RuleCounts(l, p), charge.key.ruleID)
            else RuleCounts(l, p)
  {
    if charge.ForRule? {
      CountsOnBump(l.ruleRetries, charge.key, p);
    }
  }

  /** A started attempt is counted once globally, once for its provider, and at most once as a retry. */
  lemma ChargedIsConserved(l: Ledger, providerID: string, charge: Charge)
    requires Conserved(l) && l.logical < MAX_UINT
    requires charge.ForRule? ==> charge.key.providerID == providerID
    ensures Conserved(Charged(l, providerID, charge))
  {
    TotalBump(l.attempts, providerID);
    forall p ensures Within(Charged(l, providerID, charge), p) {
      assert Within(l, p);
      ChargedRuleCounts(l, providerID, charge, p);
      if charge.ForRule? { TotalBump(RuleCounts(l, p), charge.key.ruleID); }
    }
  }

  lemma CountWithinTotal<K>(m: map<K, nat>, k: K)
    ensures CountAt(m, k) <= Total(m)
  {
    if k in m { TotalRemove(m, k); }
  }

  predicate ValidIDs(providerID: string, charge: Charge) {
    ValidProviderID(providerID) && (charge.ForRule? ==> IsUUIDv4(charge.key.ruleID))
  }

  /**
   Exactly when an attempt starts, and why it does not. In a conserved ledger the total overflows
   first, so the three other overflow checks are redundant.
   */
  lemma OverflowIffTotalIsFull(l: Ledger, providerID: string, globalMax: nat, charge: Charge)
    requires Conserved(l)
    requires charge.ForRule? ==> charge.key.providerID == providerID
    ensures Start(l, providerID, globalMax, charge).Started? <==>
            ValidIDs(providerID, charge) && (globalMax == 0 || l.logical < globalMax) && l.logical < MAX_UINT
    ensures Start(l, providerID, globalMax, charge) == Refused(CounterOverflow) <==>
            ValidIDs(providerID, charge) && (globalMax == 0 || l.logical < globalMax) && l.logical == MAX_UINT
    ensures Start(l, providerID, globalMax, charge) == Refused(GlobalAttemptLimit) <==>
            ValidIDs(providerID, charge) && 0 < globalMax <= l.logical
    ensures Start(l, providerID, globalMax, charge) == Refused(InvalidRule) <==>
            charge.ForRule? && !IsUUIDv4(charge.key.ruleID)
  {
    CountWithinTotal(l.attempts, providerID);
    assert Within(l, providerID);
    if charge.ForRule? {
      RuleCountsAt(l, charge.key);
      CountWithinTotal(RuleCounts(l, providerID), charge.key.ruleID);
    }
  }

  // ---- runs ----

  datatype Op = Op(providerID: string, globalMax: nat, charge: Charge)

  /** The ledger after a run; a refused start leaves it as it was. */
  function After(run: seq<Op>): Ledger {
    if run == [] then EMPTY
    else
      var before, op := After(run[..|run| - 1]), run[|run| - 1];
      var result := Start(before, op.providerID, op.globalMax, op.charge);
      if result.Started? then result.ledger else before
  }

  /** Rule retries are charged to the provider they retry. */
  ghost predicate Coherent(run: seq<Op>) {
    forall op <- run :: op.charge.ForRule? ==> op.charge.key.providerID == op.providerID
  }

  /** In every run the total is the sum over providers, and no provider has more retries than attempts. */
  lemma {:induction false} LedgersAreConserved(run: seq<Op>)
    requires Coherent(run)
    ensures Conserved(After(run))
  {
    if run == [] {
      assert forall p :: RuleCounts(EMPTY, p) == map[];
    } else {
      var n := |run| - 1;
      assert run[n] in run && forall op <- run[..n] :: op in run;
      LedgersAreConserved(run[..n]);
      var before, op := After(run[..n]), run[n];
      if Start(before, op.providerID, op.globalMax, op.charge).Started? {
        ChargedIsConserved(before, op.providerID, op.charge);
      }
    }
  }

  predicate IsStarted(run: seq<Op>, op: Op) {
    Start(After(run), op.providerID, op.globalMax, op.charge).Started?
  }

  /** How many attempts the run started that are of the given kind. */
  function Tally(run: seq<Op>, kind: Op -> bool): nat {
    if run == [] then 0
    else
      var before, op := run[..|run| - 1], run[|run| - 1];
      Tally(before, kind) + if IsStarted(before, op) && kind(op) then 1 else 0
  }

  function AnyAttempt(): Op -> bool {
    (op: Op) => true
  }

  function OnProvider(providerID: string): Op -> bool {
    (op: Op) => op.providerID == providerID
  }

  function LegacyOn(providerID: string): Op -> bool {
    (op: Op) => op.providerID == providerID && op.charge == Legacy
  }

  function RetryOf(key: Key): Op -> bool {
    (op: Op) => op.charge == ForRule(key)
  }

  /** In every run each counter is the number of attempts started of its kind; refused attempts are counted nowhere. */
  lemma {:induction false} CountersTallyTheRun(run: seq<Op>, providerID: string, key: Key)
    ensures After(run).logical == Tally(run, AnyAttempt())
    ensures CountAt(After(run).attempts, providerID) == Tally(run, OnProvider(providerID))
    ensures CountAt(After(run).legacy, providerID) == Tally(run, LegacyOn(providerID))
    ensures CountAt(After(run).ruleRetries, key) == Tally(run, RetryOf(key))
  {
    if run != [] { CountersTallyTheRun(run[..|run| - 1], providerID, key); }
  }

  /** Under one positive budget, no run starts more attempts than the budget. */
  lemma {:induction false} BudgetIsKept(run: seq<Op>, globalMax: nat)
    requires globalMax > 0 && forall op <- run :: op.globalMax == globalMax
    ensures After(run).logical <= globalMax
  {
    if run != [] {
      var n := |run| - 1;
      assert run[n] in run && forall op <- run[..n] :: op in run;
      BudgetIsKept(run[..n], globalMax);
    }
  }
}
