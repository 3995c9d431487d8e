/** What the gateway does about a matched internal error, and how that agrees with the ledger. */
module RetryDecisions {
  import opened Collections
  import opened ErrorRules
  import opened RetryLedger

  datatype Value = PassedThrough | ObserveOnly | CommitCurrent | RetrySame | SwitchProvider | AbortClient

  datatype Reason =
    | ActionPassthrough | RetryBudgetAvailable | RuleRetryBudgetExhausted | GlobalAttemptBudgetExhausted
    | ReservedSwitchAttempt | AlternateProviderUnavailable | AlternateReservationFailed
    | ProviderDeleted | ProviderDisabled | APIRemoved | TransportUnsupported | ClientPlatformExcluded
    | RoutingChanged | GroupDisabled | AuthUnavailable | ProviderLookupError
    | ResponseAlreadyVisible | ClientRetryRequested | ClientCancelled

  datatype SwitchReason = NoSwitch | RuleExhausted | ProviderUnavailable

  datatype Decision = Decision(value: Value, reason: Reason, switchReason: SwitchReason)

  datatype Eligibility = Eligibility(authorized: bool, rejection: Option<Reason>)

  predicate IsProviderRejection(r: Reason) {
    r.ProviderDeleted? || r.ProviderDisabled? || r.APIRemoved? || r.TransportUnsupported? || r.RoutingChanged? ||
    r.ClientPlatformExcluded? || r.GroupDisabled? || r.AuthUnavailable? || r.ProviderLookupError?
  }

  predicate ValidEligibility(e: Eligibility) {
    if e.authorized then e.rejection.None? else e.rejection.Some? && IsProviderRejection(e.rejection.value)
  }

  datatype Input = Input(
    action: Action,
    key: Key,
    ledger: Ledger,
    globalMax: nat,
    provider: Eligibility,
    visible: bool)

  predicate ValidInput(i: Input) {
    ValidAction(i.action) && ValidEligibility(i.provider) && ValidProviderID(i.key.providerID) && IsUUIDv4(i.key.ruleID)
  }

  function Switch(reason: Reason, why: SwitchReason): Decision {
    Decision(SwitchProvider, reason, why)
  }

  function Stay(value: Value, reason: Reason): Decision {
    Decision(value, reason, NoSwitch)
  }

  function UnavailableDecision(kind: ActionKind, reason: Reason): Decision {
    if kind == RetryThenSwitch then Switch(reason, ProviderUnavailable) else Stay(CommitCurrent, reason)
  }

  /** None is a rejected input. */
  function DecideRetry(i: Input): Option<Decision> {
    if !ValidInput(i) then None
    else if i.visible then Some(Stay(ObserveOnly, ResponseAlreadyVisible))
    else if i.action.kind == Passthrough then Some(Stay(PassedThrough, ActionPassthrough))
    else
      var remaining := GlobalRemaining(i.ledger, i.globalMax);
      if remaining == Some(0) then Some(Stay(CommitCurrent, GlobalAttemptBudgetExhausted))
      else if !i.provider.authorized then Some(UnavailableDecision(i.action.kind, i.provider.rejection.value))
      else
        var ruleRetriesRemain := RuleRetriesRemaining(i.ledger, i.key, i.action.maxRetries) > 0;
        match i.action.kind
        case RetryOnly =>
          if !ruleRetriesRemain then Some(Stay(CommitCurrent, RuleRetryBudgetExhausted))
          else Some(Stay(RetrySame, RetryBudgetAvailable))
        case RetryThenSwitch =>
          if remaining == Some(1) then Some(Switch(ReservedSwitchAttempt, RuleExhausted))
          else if !ruleRetriesRemain then Some(Switch(RuleRetryBudgetExhausted, RuleExhausted))
          else Some(Stay(RetrySame, RetryBudgetAvailable))
        case _ => None
  }

  function DecideVisibleResponse(action: Action): Option<Decision> {
    if !ValidAction(action) then None
    else if action.kind == Passthrough || action.visible == Commit then Some(Stay(ObserveOnly, ResponseAlreadyVisible))
    else Some(Stay(AbortClient, ClientRetryRequested))
  }

  datatype AlternateOutcome = AlternateReserved | AlternateUnavailable | AlternateFailed | AlternateCancelled | UnknownOutcome

  function ResolveAlternate(d: Decision, outcome: AlternateOutcome): Option<Decision> {
    if d.value != SwitchProvider then None
    else match outcome
      case AlternateReserved => Some(d)
      case AlternateUnavailable => Some(Stay(CommitCurrent, AlternateProviderUnavailable))
      case AlternateFailed => Some(Stay(CommitCurrent, AlternateReservationFailed))
      case AlternateCancelled => Some(Stay(ObserveOnly, ClientCancelled))
      case UnknownOutcome => None
  }

  predicate Decides(i: Input, value: Value) {
    DecideRetry(i).Some? && DecideRetry(i).value.value == value
  }

  /** The decision leaves room: attempts the global budget still allows. */
  predicate Affords(l: Ledger, globalMax: nat, starts: nat) {
    globalMax == 0 || l.logical + starts <= globalMax
  }

  /** Every action that is tried again, and every switch, comes from one of these situations and no other. */
  lemma RetrySameIff(i: Input)
    ensures Decides(i, RetrySame) <==>
            ValidInput(i) && !i.visible && i.action.kind != Passthrough && i.provider.authorized &&
            CountAt(i.ledger.ruleRetries, i.key) < i.action.maxRetries &&
            Affords(i.ledger, i.globalMax, if i.action.kind == RetryThenSwitch then 2 else 1)
  {
  }

  lemma SwitchIff(i: Input)
    ensures Decides(i, SwitchProvider) <==>
            ValidInput(i) && !i.visible && i.action.kind == RetryThenSwitch && Affords(i.ledger, i.globalMax, 1) &&
            !Decides(i, RetrySame)
  {
  }

  /** The remaining cases of a matched error that may still be hidden from the client, so the three are exhaustive. */
  lemma CommitIff(i: Input)
    ensures DecideRetry(i).None? <==> !ValidInput(i)
    ensures ValidInput(i) && !i.visible && i.action.kind != Passthrough ==>
              (Decides(i, CommitCurrent) <==>
                 Exhausted(i.ledger, i.globalMax) ||
                 (i.action.kind == RetryOnly &&
                  (!i.provider.authorized || CountAt(i.ledger.ruleRetries, i.key) >= i.action.maxRetries)))
    ensures ValidInput(i) && !i.visible && i.action.kind != Passthrough ==>
              Decides(i, CommitCurrent) || Decides(i, RetrySame) || Decides(i, SwitchProvider)
  {
    RetrySameIff(i);
    SwitchIff(i);
  }

  /** However a decided switch is resolved, the request ends up on another provider or is settled; it never retries. */
  lemma SwitchResolves(i: Input, outcome: AlternateOutcome)
    requires Decides(i, SwitchProvider)
    ensures var resolved := ResolveAlternate(DecideRetry(i).value, outcome);
            && (resolved.None? <==> outcome.UnknownOutcome?)
            && (resolved.Some? ==>
                  (outcome.AlternateReserved? ==> resolved == DecideRetry(i)) &&
                  (!outcome.AlternateReserved? ==> resolved.value.value in {CommitCurrent, ObserveOnly}) &&
                  (resolved.value.switchReason != NoSwitch <==> outcome.AlternateReserved?))
  {
    SwitchIff(i);
  }

  /** In these ledgers no counter can overflow before the global budget is used up. */
  predicate HasRoom(l: Ledger, globalMax: nat) {
    globalMax <= MAX_UINT && (globalMax == 0 ==> l.logical < MAX_UINT - 1)
  }

  /**
   A decided retry can be started. If the rule also switches, every attempt on another
   provider can still be started afterwards.
   */
  lemma RetryIsAffordable(i: Input, alternate: string)
    requires Conserved(i.ledger) && HasRoom(i.ledger, i.globalMax) && Decides(i, RetrySame) && ValidProviderID(alternate)
    ensures var result := Start(i.ledger, i.key.providerID, i.globalMax, ForRule(i.key));
            result.Started? &&
            (i.action.kind == RetryThenSwitch ==> Start(result.ledger, alternate, i.globalMax, Plain).Started?)
  {
    RetrySameIff(i);
    OverflowIffTotalIsFull(i.ledger, i.key.providerID, i.globalMax, ForRule(i.key));
    ChargedIsConserved(i.ledger, i.key.providerID, ForRule(i.key));
    OverflowIffTotalIsFull(Charged(i.ledger, i.key.providerID, ForRule(i.key)), alternate, i.globalMax, Plain);
  }

  lemma SwitchIsAffordable(i: Input, alternate: string)
    requires Conserved(i.ledger) && HasRoom(i.ledger, i.globalMax) && Decides(i, SwitchProvider) && ValidProviderID(alternate)
    ensures Start(i.ledger, alternate, i.globalMax, Plain).Started?
  {
    SwitchIff(i);
    OverflowIffTotalIsFull(i.ledger, alternate, i.globalMax, Plain);
  }

  /** The decision about a matched error once an alternate, if one was asked for, has been looked for. */
  function Settle(i: Input, outcome: AlternateOutcome): Option<Decision> {
    if Decides(i, SwitchProvider) then ResolveAlternate(DecideRetry(i).value, outcome) else DecideRetry(i)
  }

  /**
   Every valid matched error is settled, and the ledger can pay for what was settled: a retry
   on the same provider can be started, a switch has its alternate reserved and can be started
   on any provider, and nothing else starts an attempt.
   */
  lemma SettledDecisionsArePayable(i: Input, outcome: AlternateOutcome, alternate: string)
    requires Conserved(i.ledger) && HasRoom(i.ledger, i.globalMax) && ValidProviderID(alternate)
    requires ValidInput(i) && !outcome.UnknownOutcome?
    ensures Settle(i, outcome).Some?
    ensures match Settle(i, outcome).value.value
            case RetrySame => !i.visible && Start(i.ledger, i.key.providerID, i.globalMax, ForRule(i.key)).Started?
            case SwitchProvider =>
              !i.visible && outcome.AlternateReserved? && Start(i.ledger, alternate, i.globalMax, Plain).Started?
            case CommitCurrent =>
              !i.visible && i.action.kind != Passthrough &&
              (Decides(i, SwitchProvider) ==> outcome.AlternateUnavailable? || outcome.AlternateFailed?)
            case ObserveOnly => i.visible || outcome.AlternateCancelled?
            case PassedThrough => !i.visible && i.action.kind == Passthrough
            case AbortClient => false
  {
    CommitIff(i);
    if Decides(i, RetrySame) { RetryIsAffordable(i, alternate); }
    if Decides(i, SwitchProvider) {
      SwitchIff(i);
      SwitchResolves(i, outcome);
      SwitchIsAffordable(i, alternate);
    }
  }

  /** What a reason says of the matched error and of the search for an alternate. */
  predicate IsTrue(r: Reason, i: Input, outcome: AlternateOutcome) {
    match r
    case ResponseAlreadyVisible => i.visible
    case ActionPassthrough => i.action.kind == Passthrough
    case GlobalAttemptBudgetExhausted => 0 < i.globalMax <= i.ledger.logical
    case RetryBudgetAvailable => i.provider.authorized && CountAt(i.ledger.ruleRetries, i.key) < i.action.maxRetries
    case RuleRetryBudgetExhausted => i.provider.authorized && CountAt(i.ledger.ruleRetries, i.key) >= i.action.maxRetries
    case ReservedSwitchAttempt =>
      i.provider.authorized && i.action.kind == RetryThenSwitch && i.globalMax == i.ledger.logical + 1
    case AlternateProviderUnavailable => outcome.AlternateUnavailable?
    case AlternateReservationFailed => outcome.AlternateFailed?
    case ClientCancelled => outcome.AlternateCancelled?
    case ClientRetryRequested => false
    case rejection => i.provider.rejection == Some(rejection)
  }

  /**
   The reasons given are true, before and after an alternate was looked for, and a switch says
   whether the provider was unavailable or its rule was spent.
   */
  lemma ReasonsAreTrue(i: Input, outcome: AlternateOutcome)
    requires ValidInput(i) && !outcome.UnknownOutcome?
    ensures DecideRetry(i).Some? && IsTrue(DecideRetry(i).value.reason, i, outcome)
    ensures Settle(i, outcome).Some? && IsTrue(Settle(i, outcome).value.reason, i, outcome)
    ensures var d := Settle(i, outcome).value;
            d.switchReason == if d.value != SwitchProvider then NoSwitch
                              else if i.provider.authorized then RuleExhausted else ProviderUnavailable
  {
    CommitIff(i);
    if Decides(i, SwitchProvider) { SwitchResolves(i, outcome); }
  }

  /** Once the client has seen something, a valid action can only be observed, or abort where its policy says disconnect. */
  lemma VisibleResponsesAreNeverRetried(i: Input)
    requires ValidAction(i.action) && i.visible
    ensures !Decides(i, RetrySame) && !Decides(i, SwitchProvider)
    ensures DecideVisibleResponse(i.action).Some?
    ensures DecideVisibleResponse(i.action).value ==
            if i.action.kind in {RetryOnly, RetryThenSwitch} && i.action.visible == Disconnect
            then Stay(AbortClient, ClientRetryRequested) else Stay(ObserveOnly, ResponseAlreadyVisible)
  {
    RetrySameIff(i);
    SwitchIff(i);
  }

  // ---- runs driven by decisions ----

  /** An attempt, a retry of the older kind, or a decision about a matched rule and what follows from it. */
  datatype Step =
    | Attempt(providerID: string, globalMax: nat, isLegacy: bool)
    | Matched(key: Key, globalMax: nat, provider: Eligibility, visible: bool)

  /** A matched step asks for a retry under the rule's own action and gets it. */
  predicate Granted(policies: map<string, Action>, l: Ledger, step: Step) {
    && step.Matched?
    && step.key.ruleID in policies
    && Decides(Input(policies[step.key.ruleID], step.key, l, step.globalMax, step.provider, step.visible), RetrySame)
    && Start(l, step.key.providerID, step.globalMax, ForRule(step.key)).Started?
  }

  function Next(policies: map<string, Action>, l: Ledger, step: Step): Ledger {
    match step
    case Attempt(p, max, isLegacy) =>
      var result := Start(l, p, max, if isLegacy then Legacy else Plain);
      if result.Started? then result.ledger else l
    case Matched(key, _, _, _) =>
      if Granted(policies, l, step) then Charged(l, key.providerID, ForRule(key)) else l
  }

  function After(policies: map<string, Action>, run: seq<Step>): Ledger {
    if run == [] then EMPTY else Next(policies, After(policies, run[..|run| - 1]), run[|run| - 1])
  }

  /** How many rule retries the run granted on the provider. */
  function Retries(policies: map<string, Action>, run: seq<Step>, providerID: string): nat {
    if run == [] then 0
    else
      var before, step := run[..|run| - 1], run[|run| - 1];
      Retries(policies, before, providerID) +
      if Granted(policies, After(policies, before), step) && step.key.providerID == providerID then 1 else 0
  }

  ghost function Budgets(policies: map<string, Action>): map<string, nat> {
    map r | r in policies :: if policies[r].maxRetries > 0 then policies[r].maxRetries else 0
  }

  ghost predicate WithinBudgets(policies: map<string, Action>, counts: map<string, nat>) {
    forall r <- counts :: r in policies && counts[r] <= Budgets(policies)[r]
  }

  /** Each rule retry is recorded, and no rule exceeds its own budget on any provider. */
  lemma {:induction false} RetriesAreRecorded(policies: map<string, Action>, run: seq<Step>, providerID: string)
    ensures Conserved(After(policies, run))
    ensures Retries(policies, run, providerID) == Total(RuleCounts(After(policies, run), providerID))
    ensures WithinBudgets(policies, RuleCounts(After(policies, run), providerID))
  {
    if run == [] {
      assert forall p :: RuleCounts(EMPTY, p) == map[];
    } else {
      var before, step := After(policies, run[..|run| - 1]), run[|run| - 1];
      RetriesAreRecorded(policies, run[..|run| - 1], providerID);
      StepIsRecorded(policies, before, step, providerID);
    }
  }

  lemma StepIsRecorded(policies: map<string, Action>, l: Ledger, step: Step, providerID: string)
    requires Conserved(l) && WithinBudgets(policies, RuleCounts(l, providerID))
    ensures var next := Next(policies, l, step);
            && Conserved(next)
            && WithinBudgets(policies, RuleCounts(next, providerID))
            && Total(RuleCounts(next, providerID)) == Total(RuleCounts(l, providerID)) +
               if Granted(policies, l, step) && step.key.providerID == providerID then 1 else 0
  {
    match step
    case Attempt(p, max, isLegacy) => AttemptIsRecorded(l, p, if isLegacy then Legacy else Plain, max, providerID);
    case Matched(key, _, _, _) =>
      if Granted(policies, l, step) {
        GrantedHasBudget(policies, l, step);
        ChargedIsConserved(l, key.providerID, ForRule(key));
        RuleRetryIsRecorded(policies, l, key, providerID);
      }
  }

  lemma AttemptIsRecorded(l: Ledger, p: string, charge: Charge, max: nat, providerID: string)
    requires Conserved(l) && !charge.ForRule?
    ensures var result := Start(l, p, max, charge);
            result.Started? ==> Conserved(result.ledger) && RuleCounts(result.ledger, providerID) == RuleCounts(l, providerID)
  {
    if Start(l, p, max, charge).Started? {
      ChargedIsConserved(l, p, charge);
      ChargedRuleCounts(l, p, charge, providerID);
    }
  }

  lemma RuleRetryIsRecorded(policies: map<string, Action>, l: Ledger, key: Key, providerID: string)
    requires WithinBudgets(policies, RuleCounts(l, providerID))
    requires key.ruleID in policies && CountAt(RuleCounts(l, key.providerID), key.ruleID) < Budgets(policies)[key.ruleID]
    ensures var next := Charged(l, key.providerID, ForRule(key));
            && WithinBudgets(policies, RuleCounts(next, providerID))
            && Total(RuleCounts(next, providerID)) ==
               Total(RuleCounts(l, providerID)) + if key.providerID == providerID then 1 else 0
  {
    var counts := RuleCounts(l, providerID);
    ChargedRuleCounts(l, key.providerID, ForRule(key), providerID);
    if key.providerID == providerID {
      TotalBump(counts, key.ruleID);
      BudgetAdmitsOneMore(policies, counts, key.ruleID);
    }
  }

  lemma GrantedHasBudget(policies: map<string, Action>, l: Ledger, step: Step)
    requires Granted(policies, l, step) && l.logical <= MAX_UINT
    ensures l.logical < MAX_UINT
    ensures CountAt(RuleCounts(l, step.key.providerID), step.key.ruleID) < Budgets(policies)[step.key.ruleID]
  {
    RuleCountsAt(l, step.key);
    RetrySameIff(Input(policies[step.key.ruleID], step.key, l, step.globalMax, step.provider, step.visible));
  }

  lemma BudgetAdmitsOneMore(policies: map<string, Action>, counts: map<string, nat>, r: string)
    requires WithinBudgets(policies, counts) && r in policies && CountAt(counts, r) < Budgets(policies)[r]
    ensures WithinBudgets(policies, Bumped(counts, r))
  {
  }

  /**
   Even with an unlimited global budget, the retries granted on one provider number at most
   the sum of the retry budgets of all rules: no run retries forever.
   */
  lemma RetriesAreBounded(policies: map<string, Action>, run: seq<Step>, providerID: string)
    ensures Retries(policies, run, providerID) <= Total(Budgets(policies))
  {
    RetriesAreRecorded(policies, run, providerID);
    TotalMonotone(RuleCounts(After(policies, run), providerID), Budgets(policies));
  }
}
