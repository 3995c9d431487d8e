/**
 Failover chains. Two representations of the same state exist: the older FailoverContext, and
 the pair of a switch history and a continuity context. Vendor isolation and the switch budget
 are properties of whole chains of admitted hops.
 */
module Failover {
  import opened Collections

  datatype Scope = ScopeUnset | ScopeNone | ScopeVendor | ScopeAny | ScopeOther(name: string)

  datatype Provider = Provider(id: string, vendor: string, failoverScope: Scope, acceptFailover: Scope)

  const WILDCARD := "*"

  datatype Context = Context(origin: string, contaminated: seq<string>, strictest: Scope, chain: seq<string>, retries: nat)

  datatype History = History(origin: string, chain: seq<string>, switches: nat)

  datatype Continuity = Continuity(originID: string, originVendor: string, contaminated: seq<string>, strictest: Scope)

  // ---- scopes and vendors ----

  function ScopeOrder(s: Scope): int {
    match s
    case ScopeNone => 0
    case ScopeVendor => 1
    case _ => 2
  }

  function StricterScope(a: Scope, b: Scope): (s: Scope)
    ensures ScopeOrder(s) <= ScopeOrder(a) && ScopeOrder(s) <= ScopeOrder(b) && (s == a || s == b)
  {
    if ScopeOrder(a) < ScopeOrder(b) then a else b
  }

  /** An empty vendor matches nothing; the wildcard matches every other vendor. */
  predicate VendorMatch(a: string, b: string) {
    a != "" && b != "" && (a == WILDCARD || b == WILDCARD || a == b)
  }

  method AnyVendorMatch(contaminated: seq<string>, candidate: string) returns (yes: bool)
    ensures yes <==> MatchesSome(contaminated, candidate)
  {
    for i := 0 to |contaminated|
      invariant forall j :: 0 <= j < i ==> contaminated[j] == WILDCARD || !VendorMatch(contaminated[j], candidate)
    {
      if contaminated[i] == WILDCARD {
        continue;
      }
      if VendorMatch(contaminated[i], candidate) {
        return true;
      }
    }
    return false;
  }

  /** A wildcard vendor in the chain never admits a candidate by itself. */
  predicate MatchesSome(contaminated: seq<string>, candidate: string) {
    exists v <- contaminated :: v != WILDCARD && VendorMatch(v, candidate)
  }

  method AllVendorsMatch(contaminated: seq<string>, candidate: string) returns (yes: bool)
    ensures yes <==> MatchesEvery(contaminated, candidate)
  {
    if |contaminated| == 0 || candidate == "" {
      return false;
    }
    for i := 0 to |contaminated|
      invariant forall j :: 0 <= j < i ==> VendorMatch(contaminated[j], candidate)
    {
      if !VendorMatch(contaminated[i], candidate) {
        return false;
      }
    }
    return true;
  }

  predicate MatchesEvery(contaminated: seq<string>, candidate: string) {
    contaminated != [] && candidate != "" && forall v <- contaminated :: VendorMatch(v, candidate)
  }

  // ---- the three objects ----

  function Vendors(p: Provider): seq<string> {
    if p.vendor != "" then [p.vendor] else []
  }

  function NewContext(p: Provider): Context {
    Context(p.id, Vendors(p), p.failoverScope, [p.id], 0)
  }

  function Updated(c: Context, p: Provider): Context {
    Context(c.origin, c.contaminated + Vendors(p), StricterScope(c.strictest, p.failoverScope), c.chain + [p.id], c.retries + 1)
  }

  class FailoverContext {
    var originProviderID: string
    var contaminatedVendors: seq<string>
    var strictestScope: Scope
    var attemptChain: seq<string>
    var retryCount: nat

    function View(): Context
      reads this
    {
      Context(originProviderID, contaminatedVendors, strictestScope, attemptChain, retryCount)
    }

    constructor (p: Provider)
      ensures View() == NewContext(p)
    {
      originProviderID, strictestScope, attemptChain, retryCount := p.id, p.failoverScope, [p.id], 0;
      contaminatedVendors := if p.vendor != "" then [p.vendor] else [];
    }

    method Update(p: Provider)
      modifies this
      ensures View() == Updated(old(View()), p)
    {
      attemptChain := attemptChain + [p.id];
      if p.vendor != "" {
        contaminatedVendors := contaminatedVendors + [p.vendor];
      }
      strictestScope := StricterScope(strictestScope, p.failoverScope);
      retryCount := retryCount + 1;
    }
  }

  function NewHistory(provider: Option<Provider>): History {
    if provider.None? || provider.value.id == "" then History("", [], 0)
    else History(provider.value.id, [provider.value.id], 0)
  }

  /** Retries on the same provider and providers without an identifier are not switches. */
  function Recorded(h: History, provider: Option<Provider>): History {
    if provider.None? || provider.value.id == "" then h
    else
      var id := provider.value.id;
      if h.chain != [] && h.chain[|h.chain| - 1] == id then h
      else if h.origin == "" then History(id, h.chain + [id], h.switches)
      else History(h.origin, h.chain + [id], h.switches + 1)
  }

  class ProviderSwitchHistory {
    var originProviderID: string
    var attemptChain: seq<string>
    var providerSwitchCount: nat

    function View(): History
      reads this
    {
      History(originProviderID, attemptChain, providerSwitchCount)
    }

    constructor (provider: Option<Provider>)
      ensures View() == NewHistory(provider)
    {
      originProviderID, attemptChain, providerSwitchCount := "", [], 0;
      if provider.Some? && provider.value.id != "" {
        originProviderID := provider.value.id;
        attemptChain := [provider.value.id];
      }
    }

    method RecordProvider(provider: Option<Provider>)
      modifies this
      ensures View() == Recorded(old(View()), provider)
    {
      if provider.None? || provider.value.id == "" {
        return;
      }
      var id := provider.value.id;
      if |attemptChain| > 0 && attemptChain[|attemptChain| - 1] == id {
        return;
      }
      if originProviderID == "" {
        originProviderID := id;
        attemptChain := attemptChain + [id];
        return;
      }
      attemptChain := attemptChain + [id];
      providerSwitchCount := providerSwitchCount + 1;
    }
  }

  function NewContinuity(provider: Option<Provider>): Continuity {
    if provider.None? then Continuity("", "", [], ScopeAny)
    else Continuity(provider.value.id, provider.value.vendor, Vendors(provider.value), provider.value.failoverScope)
  }

  function Observed(c: Continuity, provider: Option<Provider>): Continuity {
    if provider.None? then c
    else
      var p := provider.value;
      Continuity(if c.originID == "" then p.id else c.originID,
                 if c.originVendor == "" then p.vendor else c.originVendor,
                 c.contaminated + Vendors(p),
                 StricterScope(c.strictest, p.failoverScope))
  }

  class ProviderContinuityContext {
    var visibleOriginProviderID: string
    var visibleOriginVendor: string
    var contaminatedVendors: seq<string>
    var strictestScope: Scope

    function View(): Continuity
      reads this
    {
      Continuity(visibleOriginProviderID, visibleOriginVendor, contaminatedVendors, strictestScope)
    }

    constructor (provider: Option<Provider>)
      ensures View() == NewContinuity(provider)
    {
      visibleOriginProviderID, visibleOriginVendor, contaminatedVendors, strictestScope := "", "", [], ScopeAny;
      if provider.Some? {
        visibleOriginProviderID, visibleOriginVendor := provider.value.id, provider.value.vendor;
        contaminatedVendors := if provider.value.vendor != "" then [provider.value.vendor] else [];
        strictestScope := provider.value.failoverScope;
      }
    }

    method ObserveProvider(provider: Option<Provider>)
      modifies this
      ensures View() == Observed(old(View()), provider)
    {
      if provider.None? {
        return;
      }
      var p := provider.value;
      if visibleOriginProviderID == "" {
        visibleOriginProviderID := p.id;
      }
      if visibleOriginVendor == "" {
        visibleOriginVendor := p.vendor;
      }
      if p.vendor != "" {
        contaminatedVendors := contaminatedVendors + [p.vendor];
      }
      strictestScope := StricterScope(strictestScope, p.failoverScope);
    }
  }

  // ---- admission ----

  function NormalizeMaxSwitches(max: int): nat {
    if max < 0 then 0 else max
  }

  predicate InChain(h: History, id: string) {
    id != "" && id in h.chain
  }

  predicate SwitchAllowed(candidate: Option<Provider>, history: Option<History>, max: int) {
    && candidate.Some?
    && (history.None? ||
        (!(NormalizeMaxSwitches(max) > 0 && history.value.switches >= NormalizeMaxSwitches(max)) &&
         !InChain(history.value, candidate.value.id)))
  }

  predicate VendorAllowed(candidate: Option<Provider>, continuity: Option<Continuity>) {
    && candidate.Some?
    && (continuity.None? ||
        (var c, p := continuity.value, candidate.value;
         && c.strictest != ScopeNone
         && (c.strictest == ScopeVendor ==> MatchesSome(c.contaminated, p.vendor))
         && p.acceptFailover != ScopeNone
         && (p.acceptFailover == ScopeVendor ==> MatchesEvery(c.contaminated, p.vendor))))
  }

  method IsFailoverVendorAllowed(candidate: Option<Provider>, continuity: Option<Continuity>) returns (yes: bool)
    ensures yes <==> VendorAllowed(candidate, continuity)
  {
    if candidate.None? {
      return false;
    }
    if continuity.None? {
      return true;
    }
    match continuity.value.strictest {
      case ScopeNone => return false;
      case ScopeVendor =>
        var any := AnyVendorMatch(continuity.value.contaminated, candidate.value.vendor);
        if !any {
          return false;
        }
      case _ =>
    }
    match candidate.value.acceptFailover {
      case ScopeNone => return false;
      case ScopeVendor => yes := AllVendorsMatch(continuity.value.contaminated, candidate.value.vendor);
      case _ => return true;
    }
  }

  function SwitchHistoryOf(c: Context): History {
    History(c.origin, c.chain, c.retries)
  }

  function ContinuityOf(c: Context): Continuity {
    Continuity(c.origin, if c.contaminated != [] then c.contaminated[0] else "", c.contaminated, c.strictest)
  }

  predicate FailoverAllowed(candidate: Provider, c: Context, max: int) {
    SwitchAllowed(Some(candidate), Some(SwitchHistoryOf(c)), max) && VendorAllowed(Some(candidate), Some(ContinuityOf(c)))
  }

  // ---- chains of providers, in both representations ----

  function ContextOf(providers: seq<Provider>): Context
    requires providers != []
  {
    var n := |providers| - 1;
    if n == 0 then NewContext(providers[0]) else Updated(ContextOf(providers[..n]), providers[n])
  }

  function HistoryOf(providers: seq<Provider>): History
    requires providers != []
  {
    var n := |providers| - 1;
    if n == 0 then NewHistory(Some(providers[0])) else Recorded(HistoryOf(providers[..n]), Some(providers[n]))
  }

  function ContinuityAlong(providers: seq<Provider>): Continuity
    requires providers != []
  {
    var n := |providers| - 1;
    if n == 0 then NewContinuity(Some(providers[0])) else Observed(ContinuityAlong(providers[..n]), Some(providers[n]))
  }

  /** Every provider has an identifier, and each differs from the one before it. */
  ghost predicate Moving(providers: seq<Provider>) {
    && (forall p <- providers :: p.id != "")
    && (forall i :: 0 < i < |providers| ==> providers[i - 1].id != providers[i].id)
  }

  lemma {:induction false} ContextShape(providers: seq<Provider>)
    requires providers != []
    ensures ContextOf(providers).origin == providers[0].id
    ensures |ContextOf(providers).chain| == |providers| == ContextOf(providers).retries + 1
    ensures forall i :: 0 <= i < |providers| ==> ContextOf(providers).chain[i] == providers[i].id
  {
    if |providers| > 1 { ContextShape(providers[..|providers| - 1]); }
  }

  lemma {:induction false} HistoryIsNoLonger(providers: seq<Provider>)
    requires providers != []
    ensures |HistoryOf(providers).chain| <= |providers|
    ensures HistoryOf(providers).origin == "" <==> HistoryOf(providers).chain == []
  {
    if |providers| > 1 { HistoryIsNoLonger(providers[..|providers| - 1]); }
  }

  /**
   The split history follows the older context exactly as long as every provider has an
   identifier and none is recorded twice in a row; otherwise the two differ for good.
   */
  lemma {:induction false} HistoriesAgreeIffMoving(providers: seq<Provider>)
    requires providers != []
    ensures HistoryOf(providers) == SwitchHistoryOf(ContextOf(providers)) <==> Moving(providers)
    ensures !Moving(providers) ==> |HistoryOf(providers).chain| < |ContextOf(providers).chain|
  {
    var n := |providers| - 1;
    ContextShape(providers);
    if n == 0 {
      assert providers[0] in providers;
      assert forall p <- providers :: p == providers[0];
    } else {
      var front := providers[..n];
      HistoriesAgreeIffMoving(front);
      ContextShape(front);
      HistoryIsNoLonger(front);
      assert providers == front + [providers[n]];
      MovingOneMore(front, providers[n]);
      if Moving(front) {
        assert front[0] in front;
        RecordingFollows(ContextOf(front), providers[n]);
      }
    }
  }

  /** Recording a provider follows the older context exactly when it has an identifier and is not a repeat. */
  lemma RecordingFollows(c: Context, p: Provider)
    requires c.origin != "" && c.chain != []
    ensures Recorded(SwitchHistoryOf(c), Some(p)) == SwitchHistoryOf(Updated(c, p)) <==>
            p.id != "" && p.id != c.chain[|c.chain| - 1]
    ensures !(p.id != "" && p.id != c.chain[|c.chain| - 1]) ==> Recorded(SwitchHistoryOf(c), Some(p)) == SwitchHistoryOf(c)
  {
  }

  lemma MovingOneMore(front: seq<Provider>, last: Provider)
    requires front != []
    ensures Moving(front + [last]) <==> Moving(front) && last.id != "" && last.id != front[|front| - 1].id
  {
    var all := front + [last];
    assert last in all && forall p <- front :: p in all;
    assert forall p <- all :: p in front || p == last;
    assert forall i :: 0 <= i < |front| ==> all[i] == front[i];
    if Moving(all) {
      forall i | 0 < i < |front| ensures front[i - 1].id != front[i].id { assert all[i - 1].id != all[i].id; }
      assert all[|front| - 1].id != all[|front|].id;
    }
  }

  lemma {:induction false} ContinuityShape(providers: seq<Provider>)
    requires providers != []
    ensures var c, k := ContextOf(providers), ContinuityAlong(providers);
            && k.contaminated == c.contaminated && k.strictest == c.strictest
            && k.originVendor == (if c.contaminated != [] then c.contaminated[0] else "")
            && (forall v <- c.contaminated :: v != "")
            && (providers[0].id != "" ==> k.originID == c.origin == providers[0].id)
  {
    var n := |providers| - 1;
    if n > 0 {
      ContinuityShape(providers[..n]);
      var before, vendors := ContextOf(providers[..n]).contaminated, Vendors(providers[n]);
      if before != [] { assert before[0] in before && (before + vendors)[0] == before[0]; } else { assert before + vendors == vendors; }
    }
  }

  /** The older object and the split pair decide alike along every chain of moves. */
  lemma RepresentationsStayInLockstep(providers: seq<Provider>, candidate: Provider, max: int)
    requires providers != [] && Moving(providers)
    ensures HistoryOf(providers) == SwitchHistoryOf(ContextOf(providers))
    ensures ContinuityAlong(providers) == ContinuityOf(ContextOf(providers))
    ensures FailoverAllowed(candidate, ContextOf(providers), max) <==>
            SwitchAllowed(Some(candidate), Some(HistoryOf(providers)), max) &&
            VendorAllowed(Some(candidate), Some(ContinuityAlong(providers)))
  {
    HistoriesAgreeIffMoving(providers);
    ContinuityShape(providers);
    assert providers[0] in providers;
  }

  // ---- admission in terms of the providers of the chain ----

  lemma {:induction false} StrictestMeaning(providers: seq<Provider>)
    requires providers != []
    ensures ContextOf(providers).strictest == ScopeNone <==> exists p <- providers :: p.failoverScope == ScopeNone
    ensures ContextOf(providers).strictest == ScopeVendor <==>
            (exists p <- providers :: p.failoverScope == ScopeVendor) && !(exists p <- providers :: p.failoverScope == ScopeNone)
  {
    var n := |providers| - 1;
    if n == 0 {
      assert forall p :: p in providers <==> p == providers[0];
    } else {
      StrictestMeaning(providers[..n]);
      FrontAndLast(providers);
    }
  }

  lemma FrontAndLast(providers: seq<Provider>)
    requires providers != []
    ensures forall p :: p in providers <==> p in providers[..|providers| - 1] || p == providers[|providers| - 1]
  {
    assert providers == providers[..|providers| - 1] + [providers[|providers| - 1]];
  }

  lemma {:induction false} ContaminatedMeaning(providers: seq<Provider>)
    requires providers != []
    ensures forall v :: v in ContextOf(providers).contaminated <==> v != "" && exists p <- providers :: p.vendor == v
  {
    var n := |providers| - 1;
    if n == 0 {
      assert forall p :: p in providers <==> p == providers[0];
    } else {
      ContaminatedMeaning(providers[..n]);
      FrontAndLast(providers);
    }
  }

  lemma {:induction false} ChainMeaning(providers: seq<Provider>)
    requires providers != []
    ensures ContextOf(providers).retries == |providers| - 1
    ensures forall id :: id in ContextOf(providers).chain <==> exists p <- providers :: p.id == id
  {
    var n := |providers| - 1;
    if n == 0 {
      assert forall p :: p in providers <==> p == providers[0];
    } else {
      ChainMeaning(providers[..n]);
      FrontAndLast(providers);
    }
  }

  /** What the chain lets out: nothing once a provider allows no failover; a known vendor once one insists on its own. */
  ghost predicate LetsOut(providers: seq<Provider>, candidate: Provider) {
    && (forall p <- providers :: p.failoverScope != ScopeNone)
    && ((exists p <- providers :: p.failoverScope == ScopeVendor) ==>
          candidate.vendor != "" &&
          exists p <- providers :: p.vendor != "" && p.vendor != "*" && (candidate.vendor == "*" || candidate.vendor == p.vendor))
  }

  /** What the candidate lets in: nothing, or only chains all of whose vendors are its own, or anything. */
  ghost predicate LetsIn(providers: seq<Provider>, candidate: Provider) {
    && candidate.acceptFailover != ScopeNone
    && (candidate.acceptFailover == ScopeVendor ==>
          && candidate.vendor != ""
          && (exists p <- providers :: p.vendor != "")
          && (forall p <- providers ::
                p.vendor == "" || p.vendor == "*" || candidate.vendor == "*" || p.vendor == candidate.vendor))
  }

  /** A candidate with an identifier is new to the chain, and the switch budget is not used up. */
  ghost predicate MayFollow(providers: seq<Provider>, candidate: Provider, max: int) {
    && (candidate.id == "" || forall p <- providers :: p.id != candidate.id)
    && (max > 0 ==> |providers| - 1 < max)
  }

  lemma LetsOutMeaning(providers: seq<Provider>, candidate: Provider)
    requires providers != []
    ensures var c := ContextOf(providers);
            c.strictest != ScopeNone && (c.strictest == ScopeVendor ==> MatchesSome(c.contaminated, candidate.vendor)) <==>
            LetsOut(providers, candidate)
  {
    StrictestMeaning(providers);
    ContaminatedMeaning(providers);
    var c := ContextOf(providers);
    if MatchesSome(c.contaminated, candidate.vendor) {
      var v :| v in c.contaminated && v != WILDCARD && VendorMatch(v, candidate.vendor);
      var p :| p in providers && p.vendor == v;
    }
    forall p <- providers |
      candidate.vendor != "" && p.vendor != "" && p.vendor != "*" && (candidate.vendor == "*" || candidate.vendor == p.vendor)
      ensures MatchesSome(c.contaminated, candidate.vendor)
    {
      assert p.vendor in c.contaminated;
    }
  }

  lemma LetsInMeaning(providers: seq<Provider>, candidate: Provider)
    requires providers != []
    ensures candidate.acceptFailover != ScopeNone &&
            (candidate.acceptFailover == ScopeVendor ==> MatchesEvery(ContextOf(providers).contaminated, candidate.vendor)) <==>
            LetsIn(providers, candidate)
  {
    ContaminatedMeaning(providers);
    var contaminated := ContextOf(providers).contaminated;
    if contaminated != [] { assert contaminated[0] in contaminated; }
    forall p <- providers | p.vendor != "" ensures p.vendor in contaminated { }
  }

  /** Exactly which candidates may continue a chain, said of its providers and vendors alone. */
  lemma FailoverAllowedIff(providers: seq<Provider>, candidate: Provider, max: int)
    requires providers != []
    ensures FailoverAllowed(candidate, ContextOf(providers), max) <==>
            MayFollow(providers, candidate, max) && LetsOut(providers, candidate) && LetsIn(providers, candidate)
  {
    ChainMeaning(providers);
    LetsOutMeaning(providers, candidate);
    LetsInMeaning(providers, candidate);
  }

  // ---- runs of admitted hops ----

  /** Provider i was admitted by the state that the ones before it left. */
  predicate HopAdmitted(providers: seq<Provider>, i: nat, max: int)
    requires 0 < i < |providers|
  {
    FailoverAllowed(providers[i], ContextOf(providers[..i]), max)
  }

  ghost predicate Admitted(providers: seq<Provider>, max: int) {
    providers != [] && forall i :: 0 < i < |providers| ==> HopAdmitted(providers, i, max)
  }

  /** A chain is a run of admitted hops exactly when each provider satisfies the conditions towards those before it. */
  lemma AdmittedIff(providers: seq<Provider>, max: int)
    ensures Admitted(providers, max) <==>
            providers != [] &&
            forall i :: 0 < i < |providers| ==>
              MayFollow(providers[..i], providers[i], max) && LetsOut(providers[..i], providers[i]) &&
              LetsIn(providers[..i], providers[i])
  {
    forall i | 0 < i < |providers|
      ensures HopAdmitted(providers, i, max) <==>
              MayFollow(providers[..i], providers[i], max) && LetsOut(providers[..i], providers[i]) &&
              LetsIn(providers[..i], providers[i])
    {
      FailoverAllowedIff(providers[..i], providers[i], max);
    }
  }

  lemma PrefixContext(providers: seq<Provider>, i: nat)
    requires 0 < i < |providers|
    ensures ContextOf(providers[..i + 1]) == Updated(ContextOf(providers[..i]), providers[i])
  {
    assert providers[..i + 1][..i] == providers[..i];
  }

  /** The strictest scope after the first i providers. */
  function ScopeAt(providers: seq<Provider>, i: nat): Scope
    requires 0 < i <= |providers|
  {
    ContextOf(providers[..i]).strictest
  }

  lemma ScopeStep(providers: seq<Provider>, k: nat)
    requires 0 < k < |providers|
    ensures ScopeOrder(ScopeAt(providers, k + 1)) <= ScopeOrder(ScopeAt(providers, k))
  {
    PrefixContext(providers, k);
  }

  /** The strictest scope only ever tightens along a chain. */
  lemma {:induction false} ScopeOnlyTightens(providers: seq<Provider>, i: nat, j: nat)
    requires 0 < i <= j <= |providers|
    ensures ScopeOrder(ScopeAt(providers, j)) <= ScopeOrder(ScopeAt(providers, i))
    decreases j
  {
    if i < j {
      var k := j - 1;
      assert k + 1 == j;
      ScopeOnlyTightens(providers, i, k);
      ScopeStep(providers, k);
    }
  }

  /** A chain whose scope has become none ends there: a further hop needs a wider scope. */
  lemma NoneEndsTheRun(providers: seq<Provider>, max: int, i: nat)
    requires Admitted(providers, max) && 0 < i < |providers|
    ensures ScopeAt(providers, i) != ScopeNone
  {
    assert HopAdmitted(providers, i, max);
  }

  /** The vendors that name somebody: neither empty nor the wildcard. */
  ghost function Concrete(vendors: seq<string>): set<string> {
    set v | v in vendors && v != "" && v != WILDCARD
  }

  /** The concrete vendors met by the first i providers. */
  ghost function VendorsMet(providers: seq<Provider>, i: nat): set<string>
    requires 0 < i <= |providers|
  {
    Concrete(ContextOf(providers[..i]).contaminated)
  }

  lemma AdmittedHopAddsNoVendor(providers: seq<Provider>, max: int, i: nat)
    requires Admitted(providers, max) && 0 < i < |providers| && ScopeOrder(ScopeAt(providers, i)) <= 1
    ensures VendorsMet(providers, i + 1) == VendorsMet(providers, i)
  {
    PrefixContext(providers, i);
    assert HopAdmitted(providers, i, max);
    HopAddsNoVendor(ContextOf(providers[..i]), providers[i], max);
  }

  /** Once the scope is vendor, no further hop brings in a new concrete vendor. */
  lemma {:induction false} VendorScopeFreezesVendors(providers: seq<Provider>, max: int, i: nat, j: nat)
    requires Admitted(providers, max) && 0 < i <= j <= |providers|
    requires ScopeAt(providers, i) == ScopeVendor
    ensures VendorsMet(providers, j) == VendorsMet(providers, i)
    decreases j
  {
    if i < j {
      var k := j - 1;
      assert k + 1 == j;
      VendorScopeFreezesVendors(providers, max, i, k);
      ScopeOnlyTightens(providers, i, k);
      AdmittedHopAddsNoVendor(providers, max, k);
    }
  }

  lemma HopAddsNoVendor(c: Context, p: Provider, max: int)
    requires FailoverAllowed(p, c, max) && ScopeOrder(c.strictest) <= 1
    ensures Concrete(Updated(c, p).contaminated) == Concrete(c.contaminated)
  {
    assert MatchesSome(c.contaminated, p.vendor);
    assert p.vendor == WILDCARD || p.vendor in c.contaminated;
  }

  /** In an admitted chain only a missing identifier can occur twice, and the switch budget is kept. */
  lemma AdmittedChains(providers: seq<Provider>, max: int)
    requires Admitted(providers, max)
    ensures ContextOf(providers).retries == |ContextOf(providers).chain| - 1
    ensures forall i, j :: 0 <= i < j < |providers| && providers[i].id == providers[j].id ==> providers[j].id == ""
    ensures max > 0 ==> ContextOf(providers).retries <= max
  {
    ContextShape(providers);
    forall i, j | 0 <= i < j < |providers| && providers[i].id == providers[j].id ensures providers[j].id == "" {
      assert HopAdmitted(providers, j, max);
      ContextShape(providers[..j]);
      assert ContextOf(providers[..j]).chain[i] == providers[..j][i].id;
    }
    if |providers| > 1 {
      var n := |providers| - 1;
      assert HopAdmitted(providers, n, max);
      ContextShape(providers[..n]);
    }
  }

  /** So over a finite pool of identified providers every run of failovers ends within the size of the pool. */
  lemma RunsEndOnAFinitePool(providers: seq<Provider>, max: int, pool: set<string>)
    requires Admitted(providers, max)
    requires forall p <- providers :: p.id in pool && p.id != ""
    ensures |providers| <= |pool|
    ensures Moving(providers)
  {
    AdmittedChains(providers, max);
    var ids := seq(|providers|, i requires 0 <= i < |providers| => providers[i].id);
    assert forall i :: 0 <= i < |providers| ==> providers[i] in providers;
    DistinctCardinality(ids);
    SubsetSize((set x | x in ids), pool);
  }

  /** A provider without an identifier can be admitted again and again when no switch budget is set. */
  lemma UnidentifiedProvidersRepeat(p: Provider, hops: nat, providers: seq<Provider>)
    requires p.id == "" && p.failoverScope == ScopeAny && p.acceptFailover == ScopeAny
    requires |providers| == hops + 1 && forall q <- providers :: q == p
    ensures Admitted(providers, 0)
  {
    forall i | 0 < i < |providers| ensures HopAdmitted(providers, i, 0) {
      assert forall q <- providers[..i] :: q in providers;
      StaysAny(p, providers[..i]);
      assert providers[i] in providers;
    }
  }

  lemma {:induction false} StaysAny(p: Provider, providers: seq<Provider>)
    requires p.failoverScope == ScopeAny && providers != [] && forall q <- providers :: q == p
    ensures ContextOf(providers).strictest == ScopeAny
  {
    var n := |providers| - 1;
    assert providers[n] in providers && providers[0] in providers;
    if n > 0 {
      assert forall q <- providers[..n] :: q in providers;
      StaysAny(p, providers[..n]);
    }
  }
}
