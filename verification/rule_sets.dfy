/** Compilation of rules into an immutable rule set, with dense positions and unique identities. */
module RuleSets {
  import opened Collections
  import opened ErrorRules
  import Ordering

  datatype CompiledRuleSet = CompiledRuleSet(revision: int, rules: seq<Rule>, enabled: seq<Rule>, matcherBytes: nat)

  ghost predicate ValidRule(r: Rule, count: nat) {
    IsUUIDv4(r.id) && r.generation != "" && 0 <= r.position < count && ValidTimes(r.createdAt, r.updatedAt) && ValidSpec(r.spec)
  }

  predicate Differ(a: Rule, b: Rule) {
    a.id != b.id && a.generation != b.generation && a.position != b.position
  }

  /** No two rules share an identifier, a generation or a position. */
  ghost predicate Apart(rules: seq<Rule>) {
    forall i, j :: 0 <= i < j < |rules| ==> Differ(rules[i], rules[j])
  }

  ghost predicate Acceptable(rules: seq<Rule>) {
    |rules| <= MAX_RULES && (forall r <- rules :: ValidRule(r, |rules|)) && Apart(rules)
  }

  /** Rule i is valid and differs from the rules before it. */
  ghost predicate Passes(rules: seq<Rule>, i: nat)
    requires i < |rules|
  {
    ValidRule(rules[i], |rules|) && forall j :: 0 <= j < i ==> Differ(rules[j], rules[i])
  }

  lemma AcceptableIffAllPass(rules: seq<Rule>)
    ensures Acceptable(rules) <==> |rules| <= MAX_RULES && forall i :: 0 <= i < |rules| ==> Passes(rules, i)
  {
    if |rules| <= MAX_RULES && forall i :: 0 <= i < |rules| ==> Passes(rules, i) {
      forall r <- rules ensures ValidRule(r, |rules|) {
        var i :| 0 <= i < |rules| && rules[i] == r;
        assert Passes(rules, i);
      }
      forall i, j | 0 <= i < j < |rules| ensures Differ(rules[i], rules[j]) { assert Passes(rules, j); }
    }
    if Acceptable(rules) {
      forall i | 0 <= i < |rules| ensures Passes(rules, i) { assert rules[i] in rules; }
    }
  }

  predicate ByPosition(a: Rule, b: Rule) {
    a.position < b.position
  }

  predicate IsEnabled(r: Rule) {
    r.spec.enabled
  }

  function EnabledOf(rules: seq<Rule>): seq<Rule> {
    Filter(rules, IsEnabled)
  }

  function MatcherBytes(rules: seq<Rule>): nat {
    if rules == [] then 0
    else
      var last := rules[|rules| - 1];
      MatcherBytes(rules[..|rules| - 1]) + if last.spec.enabled then Bytes(last.spec.keywords) else 0
  }

  function Compile(revision: int, rules: seq<Rule>): CompiledRuleSet {
    CompiledRuleSet(revision, Ordering.Sort(rules, ByPosition), EnabledOf(rules), MatcherBytes(rules))
  }

  /** What one more rule adds to the enabled rules and to the bytes. */
  lemma NextRule(rules: seq<Rule>, i: nat)
    requires i < |rules|
    ensures EnabledOf(rules[..i + 1]) == EnabledOf(rules[..i]) + if rules[i].spec.enabled then [rules[i]] else []
    ensures MatcherBytes(rules[..i + 1]) ==
            MatcherBytes(rules[..i]) + if rules[i].spec.enabled then Bytes(rules[i].spec.keywords) else 0
  {
    assert rules[..i + 1][..i] == rules[..i];
    assert rules[..i + 1] == rules[..i] + [rules[i]];
    FilterAppend(rules[..i], [rules[i]], IsEnabled);
  }

  /** positions, ids and generations are those of the first rules of the list. */
  ghost predicate Tracks(rules: seq<Rule>, i: nat, positions: seq<bool>, ids: set<string>, generations: set<string>)
    requires i <= |rules|
  {
    && |positions| == |rules|
    && (forall p :: 0 <= p < |rules| ==> (positions[p] <==> exists j :: 0 <= j < i && rules[j].position == p))
    && ids == (set j | 0 <= j < i :: rules[j].id)
    && generations == (set j | 0 <= j < i :: rules[j].generation)
  }

  method ValidateRule(ghost rules: seq<Rule>, ghost i: nat, rule: Rule, count: nat, positions: array<bool>,
                      ids: set<string>, generations: set<string>)
    returns (ok: bool, nextIDs: set<string>, nextGenerations: set<string>)
    requires i < |rules| == count && rule == rules[i]
    requires Tracks(rules, i, positions[..], ids, generations)
    modifies positions
    ensures ok <==> Passes(rules, i)
    ensures ok ==> Tracks(rules, i + 1, positions[..], nextIDs, nextGenerations)
  {
    nextIDs, nextGenerations := ids, generations;
    if !IsUUIDv4(rule.id) || rule.id in ids {
      return false, nextIDs, nextGenerations;
    }
    nextIDs := nextIDs + {rule.id};
    if rule.generation == "" || rule.generation in generations {
      return false, nextIDs, nextGenerations;
    }
    nextGenerations := nextGenerations + {rule.generation};
    if rule.position < 0 || rule.position >= count {
      return false, nextIDs, nextGenerations;
    }
    if positions[rule.position] {
      return false, nextIDs, nextGenerations;
    }
    positions[rule.position] := true;
    if !ValidTimes(rule.createdAt, rule.updatedAt) {
      return false, nextIDs, nextGenerations;
    }
    ok := ValidateSpec(rule.spec);
    ghost var next := positions[..];
    forall p | 0 <= p < count ensures next[p] <==> exists j :: 0 <= j < i + 1 && rules[j].position == p {
      assert rules[i].position == p || next[p] == old(positions[..])[p];
    }
  }

  /** Accepts exactly the acceptable lists; the limit on the matcher's bytes rejects none of them. */
  method CompileRuleSet(revision: int, rules: seq<Rule>) returns (compiled: Option<CompiledRuleSet>)
    ensures compiled.Some? <==> revision >= 0 && Acceptable(rules)
    ensures compiled.Some? ==> compiled.value == Compile(revision, rules)
  {
    AcceptableIffAllPass(rules);
    if revision < 0 || |rules| > MAX_RULES {
      return None;
    }
    var positions := new bool[|rules|](_ => false);
    var ids, generations: set<string> := {}, {};
    var enabled: seq<Rule> := [];
    var matcherBytes := 0;
    for i := 0 to |rules|
      invariant fresh(positions)
      invariant Tracks(rules, i, positions[..], ids, generations)
      invariant forall j :: 0 <= j < i ==> Passes(rules, j)
      invariant enabled == EnabledOf(rules[..i])
      invariant matcherBytes == MatcherBytes(rules[..i])
    {
      NextRule(rules, i);
      var rule := rules[i];
      var ok, nextIDs, nextGenerations := ValidateRule(rules, i, rule, |rules|, positions, ids, generations);
      if !ok {
        return None;
      }
      ids, generations := nextIDs, nextGenerations;
      if rule.spec.enabled {
        enabled := enabled + [rule];
        var bytes := KeywordBytes(rule.spec.keywords);
        matcherBytes := matcherBytes + bytes;
      }
    }
    assert rules[..|rules|] == rules;
    MatcherBytesFit(rules);
    if matcherBytes > MAX_MATCHER_BYTES {
      assert false;
    }
    return Some(CompiledRuleSet(revision, Ordering.Sort(rules, ByPosition), enabled, matcherBytes));
  }

  method KeywordBytes(keywords: seq<string>) returns (bytes: nat)
    ensures bytes == Bytes(keywords)
  {
    bytes := 0;
    for i := 0 to |keywords|
      invariant bytes == Bytes(keywords[..i])
    {
      assert keywords[..i + 1][..i] == keywords[..i];
      bytes := bytes + |keywords[i]|;
    }
    assert keywords[..|keywords|] == keywords;
  }

  lemma {:induction false} MatcherBytesBound(rules: seq<Rule>)
    requires forall r <- rules :: ValidSpec(r.spec)
    ensures MatcherBytes(rules) <= MAX_KEYWORD_BYTES_PER_RULE * |rules|
  {
    if rules != [] {
      var n := |rules| - 1;
      assert rules[n] in rules && forall r <- rules[..n] :: r in rules;
      MatcherBytesBound(rules[..n]);
      KeywordBytesFit(rules[n].spec.keywords);
    }
  }

  /** At most 256 rules of at most 2048 keyword bytes stay far below the 8 MiB the matcher may use. */
  lemma MatcherBytesFit(rules: seq<Rule>)
    requires Acceptable(rules)
    ensures MatcherBytes(rules) <= MAX_RULES * MAX_KEYWORD_BYTES_PER_RULE < MAX_MATCHER_BYTES
  {
    forall r <- rules ensures ValidSpec(r.spec) { assert ValidRule(r, |rules|); }
    MatcherBytesBound(rules);
  }

  lemma ApartIsDistinct(rules: seq<Rule>)
    requires Apart(rules)
    ensures Distinct(rules)
    ensures forall a, b :: a in rules && b in rules && a != b ==> a.position != b.position && a.id != b.id
  {
    forall a, b | a in rules && b in rules && a != b ensures a.position != b.position && a.id != b.id {
      var i :| 0 <= i < |rules| && rules[i] == a;
      var j :| 0 <= j < |rules| && rules[j] == b;
      assert i < j || j < i;
    }
  }

  lemma PositionsOrder(rules: seq<Rule>)
    requires Apart(rules)
    ensures Ordering.OrdersStrictly(ByPosition, rules)
  {
    ApartIsDistinct(rules);
  }

  lemma {:induction false} DenseAscending(rules: seq<Rule>, count: nat)
    requires Ordering.InOrder(rules, ByPosition) && |rules| == count
    requires forall r <- rules :: 0 <= r.position < count
    ensures forall i :: 0 <= i < count ==> rules[i].position == i
  {
    forall i | 0 <= i < count ensures rules[i].position >= i { AtLeastIndex(rules, i); }
    forall i | 0 <= i < count ensures rules[i].position <= i { AtMostIndex(rules, i); }
  }

  lemma {:induction false} AtLeastIndex(rules: seq<Rule>, i: nat)
    requires Ordering.InOrder(rules, ByPosition) && i < |rules| && forall r <- rules :: 0 <= r.position
    ensures rules[i].position >= i
  {
    if i > 0 {
      AtLeastIndex(rules, i - 1);
      assert ByPosition(rules[i - 1], rules[i]);
    }
  }

  lemma {:induction false} AtMostIndex(rules: seq<Rule>, i: nat)
    requires Ordering.InOrder(rules, ByPosition) && i < |rules| && forall r <- rules :: r.position < |rules|
    ensures rules[i].position <= i
    decreases |rules| - i
  {
    if i < |rules| - 1 {
      AtMostIndex(rules, i + 1);
      assert ByPosition(rules[i], rules[i + 1]);
    } else {
      assert rules[i] in rules;
    }
  }

  /** The positions of an acceptable list are a permutation: sorted, rule i has position i. */
  lemma CompiledPositionsAreDense(revision: int, rules: seq<Rule>)
    requires Acceptable(rules)
    ensures var sorted := Compile(revision, rules).rules;
            multiset(sorted) == multiset(rules) && |sorted| == |rules| &&
            forall i :: 0 <= i < |rules| ==> sorted[i].position == i
  {
    var sorted := Ordering.Sort(rules, ByPosition);
    PositionsOrder(rules);
    ApartIsDistinct(rules);
    Ordering.SortOrders(rules, ByPosition);
    Ordering.SortPermutes(rules, ByPosition);
    Ordering.SameMembers(sorted, rules);
    forall r <- sorted ensures 0 <= r.position < |rules| { assert ValidRule(r, |rules|); }
    DenseAscending(sorted, |rules|);
  }

  lemma {:induction false} MatcherBytesPermute(rules: seq<Rule>, permuted: seq<Rule>)
    requires multiset(rules) == multiset(permuted)
    ensures MatcherBytes(rules) == MatcherBytes(permuted)
    decreases |rules|
  {
    Ordering.SameMembers(rules, permuted);
    if rules != [] {
      var n := |rules| - 1;
      var last := rules[n];
      assert last in permuted;
      var i :| 0 <= i < |permuted| && permuted[i] == last;
      var rest := permuted[..i] + permuted[i + 1..];
      Ordering.RemovedAt(permuted, i);
      Ordering.RemovedAt(rules, n);
      assert rules[..n] + rules[n + 1..] == rules[..n];
      TakenOut(permuted, i);
      TakenOut(rules, n);
      MatcherBytesPermute(rules[..n], rest);
    }
  }

  lemma TakenOut(rules: seq<Rule>, i: nat)
    requires i < |rules|
    ensures MatcherBytes(rules) == MatcherBytes(rules[..i] + rules[i + 1..]) + MatcherBytes([rules[i]])
  {
    Ordering.CutAt(rules, i);
    SplitAround(rules[..i], [rules[i]], rules[i + 1..]);
  }

  lemma SplitAround(a: seq<Rule>, middle: seq<Rule>, b: seq<Rule>)
    ensures MatcherBytes(a + (middle + b)) == MatcherBytes(a + b) + MatcherBytes(middle)
  {
    MatcherBytesConcat(a, middle + b);
    MatcherBytesConcat(middle, b);
    MatcherBytesConcat(a, b);
  }

  lemma {:induction false} MatcherBytesConcat(a: seq<Rule>, b: seq<Rule>)
    ensures MatcherBytes(a + b) == MatcherBytes(a) + MatcherBytes(b)
  {
    if b == [] {
      assert a + b == a;
    } else {
      var n := |b| - 1;
      assert (a + b)[..|a + b| - 1] == a + b[..n];
      MatcherBytesConcat(a, b[..n]);
    }
  }

  /** Apart lists stay apart in every arrangement. */
  lemma ApartPermutes(rules: seq<Rule>, permuted: seq<Rule>)
    requires Apart(rules) && multiset(rules) == multiset(permuted)
    ensures Apart(permuted)
  {
    ApartIsDistinct(rules);
    Ordering.SameMembers(rules, permuted);
    forall i, j | 0 <= i < j < |permuted|
      ensures Differ(permuted[i], permuted[j])
    {
      assert permuted[i] in rules && permuted[j] in rules;
      var a :| 0 <= a < |rules| && rules[a] == permuted[i];
      var b :| 0 <= b < |rules| && rules[b] == permuted[j];
      OnceInDistinct(rules, permuted, i, j);
      assert Differ(rules[a], rules[b]) || Differ(rules[b], rules[a]);
    }
  }

  lemma OnceInDistinct(rules: seq<Rule>, permuted: seq<Rule>, i: nat, j: nat)
    requires Distinct(rules) && multiset(rules) == multiset(permuted) && i < j < |permuted|
    ensures permuted[i] != permuted[j]
  {
    var x := permuted[i];
    assert permuted == permuted[..j] + [permuted[j]] + permuted[j + 1..];
    assert x in permuted[..j];
    assert multiset(rules)[x] <= 1 by { DistinctCount(rules, x); }
  }

  lemma {:induction false} DistinctCount(rules: seq<Rule>, x: Rule)
    requires Distinct(rules)
    ensures multiset(rules)[x] <= 1
  {
    if rules != [] {
      assert rules == [rules[0]] + rules[1..];
      DistinctCount(rules[1..], x);
    }
  }

  /** Whatever order the rules arrive in, the compiled positions, the bytes and the verdict are the same. */
  lemma CompilationIgnoresOrder(revision: int, rules: seq<Rule>, permuted: seq<Rule>)
    requires Acceptable(rules) && multiset(rules) == multiset(permuted)
    ensures Acceptable(permuted)
    ensures Compile(revision, permuted).rules == Compile(revision, rules).rules
    ensures Compile(revision, permuted).matcherBytes == Compile(revision, rules).matcherBytes
    ensures multiset(Compile(revision, permuted).enabled) == multiset(Compile(revision, rules).enabled)
  {
    Ordering.SameMembers(rules, permuted);
    ApartPermutes(rules, permuted);
    MatcherBytesPermute(rules, permuted);
    FilterMultiset(rules, permuted, IsEnabled);
    SortIgnoresOrder(rules, permuted);
  }

  lemma SortIgnoresOrder(rules: seq<Rule>, permuted: seq<Rule>)
    requires Apart(rules) && Apart(permuted) && multiset(rules) == multiset(permuted)
    ensures Ordering.Sort(rules, ByPosition) == Ordering.Sort(permuted, ByPosition)
  {
    PositionsOrder(rules);
    PositionsOrder(permuted);
    ApartIsDistinct(rules);
    ApartIsDistinct(permuted);
    Ordering.SortOrders(rules, ByPosition);
    Ordering.SortOrders(permuted, ByPosition);
    Ordering.SortPermutes(rules, ByPosition);
    Ordering.SortPermutes(permuted, ByPosition);
    var sorted := Ordering.Sort(rules, ByPosition);
    PositionsOrderMembers(rules, sorted);
    Ordering.InOrderIsUnique(sorted, Ordering.Sort(permuted, ByPosition), ByPosition);
  }

  lemma PositionsOrderMembers(rules: seq<Rule>, sorted: seq<Rule>)
    requires Ordering.OrdersStrictly(ByPosition, rules) && multiset(rules) == multiset(sorted)
    ensures Ordering.OrdersStrictly(ByPosition, sorted)
  {
    Ordering.SameMembers(rules, sorted);
  }
}
