/** Which rules apply to a request, in what order they are consulted, and which of them match an error. */
module RuleMatching {
  import opened Collections
  import opened ErrorRules
  import opened RuleSets
  import opened RetryDecisions
  import ApiCatalog
  import Ordering
  import RetryLedger
  import Text

  datatype Scope = Scope(providerID: string, apiType: string)

  datatype Field = TypeField | CodeField | MessageField | ReasonField

  datatype SemanticFields = SemanticFields(errorType: string, code: string, message: string, reason: string)

  datatype RuleMatch = RuleMatch(rule: Rule, keywords: seq<string>, indexes: seq<nat>, fields: seq<Field>)

  datatype MatchResult = MatchResult(all: seq<RuleMatch>, winner: Option<RuleMatch>)

  /** The normalised field values, as matching sees them. */
  datatype Values = Values(errorType: string, code: string, message: string, reason: string)
  {
    function At(f: Field): string {
      match f
      case TypeField => errorType
      case CodeField => code
      case MessageField => message
      case ReasonField => reason
    }
  }

  const FIELDS := [TypeField, CodeField, MessageField, ReasonField]

  function NormalizeFields(f: SemanticFields): Values {
    Values(Text.Normalize(f.errorType), Text.Normalize(f.code), Text.Normalize(f.message), Text.Normalize(f.reason))
  }

  // ---- precedence ----

  predicate Applies(r: Rule, scope: Scope) {
    (r.spec.target.kind == ForProvider ==> r.spec.target.providerID == scope.providerID) &&
    (r.spec.apiType.None? || r.spec.apiType.value == scope.apiType)
  }

  function CompareText(a: string, b: string): int {
    if a == "" && b == "" then 0
    else if a == "" then -1
    else if b == "" then 1
    else if a[0] < b[0] then -1
    else if a[0] > b[0] then 1
    else CompareText(a[1..], b[1..])
  }

  /** Provider rules before global ones, rules for the exact API first, then by position, then by identifier. */
  function ComparePrecedence(left: Rule, right: Rule, scope: Scope): int {
    var leftProvider, rightProvider := left.spec.target.kind == ForProvider, right.spec.target.kind == ForProvider;
    if leftProvider != rightProvider then (if leftProvider then -1 else 1)
    else
      var leftExact, rightExact := left.spec.apiType == Some(scope.apiType), right.spec.apiType == Some(scope.apiType);
      if leftExact != rightExact then (if leftExact then -1 else 1)
      else if left.position < right.position then -1
      else if left.position > right.position then 1
      else CompareText(left.id, right.id)
  }

  function AppliesIn(scope: Scope): Rule -> bool {
    r => Applies(r, scope)
  }

  function PrecedesIn(scope: Scope): (Rule, Rule) -> bool {
    (a, b) => ComparePrecedence(a, b, scope) < 0
  }

  function Candidates(s: CompiledRuleSet, scope: Scope): seq<Rule> {
    if !ApiCatalog.IsBuiltIn(scope.apiType) then []
    else Ordering.Sort(Filter(s.enabled, AppliesIn(scope)), PrecedesIn(scope))
  }

  method CollectCandidates(s: CompiledRuleSet, scope: Scope) returns (candidates: seq<Rule>)
    ensures candidates == Candidates(s, scope)
  {
    if !ApiCatalog.IsBuiltIn(scope.apiType) {
      return [];
    }
    candidates := [];
    for i := 0 to |s.enabled|
      invariant candidates == Filter(s.enabled[..i], AppliesIn(scope))
    {
      assert s.enabled[..i + 1] == s.enabled[..i] + [s.enabled[i]];
      FilterAppend(s.enabled[..i], [s.enabled[i]], AppliesIn(scope));
      if Applies(s.enabled[i], scope) {
        candidates := candidates + [s.enabled[i]];
      }
    }
    assert s.enabled[..|s.enabled|] == s.enabled;
    candidates := Ordering.Sort(candidates, PrecedesIn(scope));
  }

  lemma {:induction false} CompareTextIsTotal(a: string, b: string)
    ensures CompareText(a, b) == 0 <==> a == b
    ensures CompareText(a, b) < 0 <==> CompareText(b, a) > 0
  {
    if a != "" && b != "" && a[0] == b[0] {
      CompareTextIsTotal(a[1..], b[1..]);
      assert a == [a[0]] + a[1..] && b == [b[0]] + b[1..];
    }
  }

  lemma {:induction false} CompareTextIsTransitive(a: string, b: string, c: string)
    requires CompareText(a, b) < 0 && CompareText(b, c) < 0
    ensures CompareText(a, c) < 0
  {
    if a != "" && b != "" && c != "" && a[0] == b[0] == c[0] {
      CompareTextIsTransitive(a[1..], b[1..], c[1..]);
    }
  }

  lemma PrecedenceIsTransitive(a: Rule, b: Rule, c: Rule, scope: Scope)
    requires ComparePrecedence(a, b, scope) < 0 && ComparePrecedence(b, c, scope) < 0
    ensures ComparePrecedence(a, c, scope) < 0
  {
    if a.position == b.position == c.position && CompareText(a.id, b.id) < 0 && CompareText(b.id, c.id) < 0 {
      CompareTextIsTransitive(a.id, b.id, c.id);
    }
  }

  /** Rules with distinct identifiers are strictly and totally ordered by precedence, in every scope. */
  lemma PrecedenceIsAStrictTotalOrder(rules: seq<Rule>, scope: Scope)
    requires forall a, b :: a in rules && b in rules && a != b ==> a.id != b.id
    ensures Ordering.OrdersStrictly(PrecedesIn(scope), rules)
  {
    var before := PrecedesIn(scope);
    forall x <- rules ensures !before(x, x) { CompareTextIsTotal(x.id, x.id); }
    forall x, y | x in rules && y in rules && x != y ensures before(x, y) || before(y, x) {
      CompareTextIsTotal(x.id, y.id);
      CompareTextIsTotal(y.id, x.id);
    }
    forall x, y, z | x in rules && y in rules && z in rules && before(x, y) && before(y, z) ensures before(x, z) {
      PrecedenceIsTransitive(x, y, z, scope);
    }
  }

  // ---- matching ----

  predicate OccursAt(s: string, sub: string, i: nat) {
    i + |sub| <= |s| && s[i..i + |sub|] == sub
  }

  predicate Contains(s: string, sub: string) {
    exists i :: 0 <= i <= |s| && OccursAt(s, sub, i)
  }

  predicate Hits(v: Values, f: Field, keyword: string) {
    v.At(f) != "" && Contains(v.At(f), keyword)
  }

  predicate HitsAny(v: Values, keyword: string) {
    exists f <- FIELDS :: Hits(v, f, keyword)
  }

  predicate FieldIsHit(v: Values, f: Field, keywords: seq<string>) {
    exists k <- keywords :: Hits(v, f, k)
  }

  function HitIndexes(v: Values, keywords: seq<string>): seq<nat> {
    if keywords == [] then []
    else
      var n := |keywords| - 1;
      HitIndexes(v, keywords[..n]) + if HitsAny(v, keywords[n]) then [n] else []
  }

  function HitKeywords(v: Values, keywords: seq<string>): seq<string> {
    if keywords == [] then []
    else
      var n := |keywords| - 1;
      HitKeywords(v, keywords[..n]) + if HitsAny(v, keywords[n]) then [keywords[n]] else []
  }

  function HitFields(v: Values, keywords: seq<string>, count: nat): seq<Field>
    requires count <= |FIELDS|
  {
    if count == 0 then []
    else HitFields(v, keywords, count - 1) + if FieldIsHit(v, FIELDS[count - 1], keywords) then [FIELDS[count - 1]] else []
  }

  function MatchOf(r: Rule, v: Values): Option<RuleMatch> {
    var hits := HitIndexes(v, r.spec.keywords);
    var matched := if r.spec.mode == All then |hits| == |r.spec.keywords| else |hits| > 0;
    if !matched then None
    else Some(RuleMatch(r, HitKeywords(v, r.spec.keywords), hits, HitFields(v, r.spec.keywords, |FIELDS|)))
  }

  method MatchRule(r: Rule, v: Values) returns (m: Option<RuleMatch>)
    ensures m == MatchOf(r, v)
  {
    var keywords := r.spec.keywords;
    var fieldHits: set<Field> := {};
    var matchedKeywords: seq<string> := [];
    var indexes: seq<nat> := [];
    for i := 0 to |keywords|
      invariant matchedKeywords == HitKeywords(v, keywords[..i])
      invariant indexes == HitIndexes(v, keywords[..i])
      invariant |indexes| == |matchedKeywords|
      invariant forall f :: f in fieldHits <==> FieldIsHit(v, f, keywords[..i])
    {
      assert keywords[..i + 1][..i] == keywords[..i];
      assert keywords[..i + 1] == keywords[..i] + [keywords[i]];
      var hit: bool;
      hit, fieldHits := KeywordLoop(v, keywords[i], fieldHits);
      if hit {
        matchedKeywords := matchedKeywords + [keywords[i]];
        indexes := indexes + [i];
      }
    }
    assert keywords[..|keywords|] == keywords;
    var matched := |matchedKeywords| > 0;
    if r.spec.mode == All {
      matched := |matchedKeywords| == |keywords|;
    }
    if !matched {
      return None;
    }
    var fields: seq<Field> := [];
    for i := 0 to |FIELDS|
      invariant fields == HitFields(v, keywords, i)
    {
      if FIELDS[i] in fieldHits {
        fields := fields + [FIELDS[i]];
      }
    }
    return Some(RuleMatch(r, matchedKeywords, indexes, fields));
  }

  /** Looks for one keyword in the four fields and adds the fields that hold it. */
  method KeywordLoop(v: Values, keyword: string, known: set<Field>) returns (hit: bool, fieldHits: set<Field>)
    ensures hit <==> HitsAny(v, keyword)
    ensures forall f :: f in fieldHits <==> f in known || Hits(v, f, keyword)
  {
    hit, fieldHits := false, known;
    for i := 0 to |FIELDS|
      invariant hit <==> exists j :: 0 <= j < i && Hits(v, FIELDS[j], keyword)
      invariant forall f :: f in fieldHits <==> f in known || (f in FIELDS[..i] && Hits(v, f, keyword))
    {
      assert FIELDS[..i + 1] == FIELDS[..i] + [FIELDS[i]];
      if v.At(FIELDS[i]) != "" && Contains(v.At(FIELDS[i]), keyword) {
        hit := true;
        fieldHits := fieldHits + {FIELDS[i]};
      }
    }
    AllFields();
  }

  lemma AllFields()
    ensures forall f: Field :: f in FIELDS
    ensures FIELDS[..|FIELDS|] == FIELDS
  {
    forall f: Field ensures f in FIELDS {
      match f
      case TypeField => assert FIELDS[0] == f;
      case CodeField => assert FIELDS[1] == f;
      case MessageField => assert FIELDS[2] == f;
      case ReasonField => assert FIELDS[3] == f;
    }
  }

  lemma {:induction false} HitIndexesMember(v: Values, keywords: seq<string>)
    ensures forall i :: i in HitIndexes(v, keywords) <==> 0 <= i < |keywords| && HitsAny(v, keywords[i])
  {
    if keywords != [] { HitIndexesMember(v, keywords[..|keywords| - 1]); }
  }

  lemma {:induction false} HitKeywordsAlign(v: Values, keywords: seq<string>)
    ensures |HitIndexes(v, keywords)| == |HitKeywords(v, keywords)| <= |keywords|
    ensures forall j :: 0 <= j < |HitIndexes(v, keywords)| ==>
              HitIndexes(v, keywords)[j] < |keywords| && HitKeywords(v, keywords)[j] == keywords[HitIndexes(v, keywords)[j]]
  {
    if keywords != [] { HitKeywordsAlign(v, keywords[..|keywords| - 1]); }
  }

  lemma {:induction false} HitIndexesAscend(v: Values, keywords: seq<string>)
    ensures forall j, k :: 0 <= j < k < |HitIndexes(v, keywords)| ==> HitIndexes(v, keywords)[j] < HitIndexes(v, keywords)[k]
  {
    if keywords != [] {
      HitIndexesAscend(v, keywords[..|keywords| - 1]);
      HitKeywordsAlign(v, keywords[..|keywords| - 1]);
    }
  }

  lemma {:induction false} AllHitCount(v: Values, keywords: seq<string>)
    ensures |HitIndexes(v, keywords)| <= |keywords|
    ensures |HitIndexes(v, keywords)| == |keywords| <==> forall k <- keywords :: HitsAny(v, k)
  {
    if keywords != [] {
      var n := |keywords| - 1;
      AllHitCount(v, keywords[..n]);
      assert forall k :: k in keywords <==> k in keywords[..n] || k == keywords[n] by { FrontAndLast(keywords); }
    }
  }

  lemma {:induction false} SomeHitCount(v: Values, keywords: seq<string>)
    ensures |HitIndexes(v, keywords)| > 0 <==> exists k <- keywords :: HitsAny(v, k)
  {
    if keywords != [] {
      var n := |keywords| - 1;
      SomeHitCount(v, keywords[..n]);
      assert forall k :: k in keywords <==> k in keywords[..n] || k == keywords[n] by { FrontAndLast(keywords); }
    }
  }

  lemma FrontAndLast(words: seq<string>)
    requires words != []
    ensures forall w :: w in words <==> w in words[..|words| - 1] || w == words[|words| - 1]
  {
    assert words == words[..|words| - 1] + [words[|words| - 1]];
  }

  lemma {:induction false} HitFieldsMeaning(v: Values, keywords: seq<string>, count: nat)
    requires count <= |FIELDS|
    ensures forall f :: f in HitFields(v, keywords, count) <==> f in FIELDS[..count] && FieldIsHit(v, f, keywords)
  {
    if count > 0 {
      HitFieldsMeaning(v, keywords, count - 1);
      assert FIELDS[..count] == FIELDS[..count - 1] + [FIELDS[count - 1]];
    }
  }

  /**
   A rule matches when all of its keywords, or in any other mode one of them, occur in some
   field; a match reports exactly the keywords found, in rule order, and the fields they are in.
   */
  lemma MatchMeaning(r: Rule, v: Values)
    ensures MatchOf(r, v).Some? <==>
            if r.spec.mode == All then forall k <- r.spec.keywords :: HitsAny(v, k)
            else exists k <- r.spec.keywords :: HitsAny(v, k)
    ensures MatchOf(r, v).Some? ==>
              var m := MatchOf(r, v).value;
              && m.rule == r && |m.indexes| == |m.keywords|
              && (forall i :: i in m.indexes <==> 0 <= i < |r.spec.keywords| && HitsAny(v, r.spec.keywords[i]))
              && (forall j :: 0 <= j < |m.indexes| ==>
                    m.indexes[j] < |r.spec.keywords| && m.keywords[j] == r.spec.keywords[m.indexes[j]])
              && (forall j, k :: 0 <= j < k < |m.indexes| ==> m.indexes[j] < m.indexes[k])
              && (forall f :: f in m.fields <==> FieldIsHit(v, f, r.spec.keywords))
  {
    HitIndexesMember(v, r.spec.keywords);
    HitKeywordsAlign(v, r.spec.keywords);
    HitIndexesAscend(v, r.spec.keywords);
    AllHitCount(v, r.spec.keywords);
    SomeHitCount(v, r.spec.keywords);
    HitFieldsMeaning(v, r.spec.keywords, |FIELDS|);
    AllFields();
  }

  // ---- matching, said of the fields as they arrive ----

  function TextOf(f: SemanticFields, x: Field): string {
    match x
    case TypeField => f.errorType
    case CodeField => f.code
    case MessageField => f.message
    case ReasonField => f.reason
  }

  /** The keyword occurs in the field, in any case of its letters. */
  predicate SaysIn(f: SemanticFields, x: Field, keyword: string) {
    Contains(Text.ToLower(TextOf(f, x)), keyword)
  }

  lemma OccurrenceSkipsHead(c: char, s: string, word: string)
    requires word != "" && word[0] != c
    ensures Contains([c] + s, word) <==> Contains(s, word)
  {
    var longer := [c] + s;
    if i :| 0 <= i <= |longer| && OccursAt(longer, word, i) {
      assert longer[i] == longer[i..i + |word|][0] == word[0];
      assert i > 0 && s[i - 1..i - 1 + |word|] == longer[i..i + |word|];
      assert OccursAt(s, word, i - 1);
    }
    if i :| 0 <= i <= |s| && OccursAt(s, word, i) {
      assert longer[i + 1..i + 1 + |word|] == s[i..i + |word|];
      assert OccursAt(longer, word, i + 1);
    }
  }

  lemma OccurrenceSkipsLast(s: string, c: char, word: string)
    requires word != "" && word[|word| - 1] != c
    ensures Contains(s + [c], word) <==> Contains(s, word)
  {
    var longer, n := s + [c], |word|;
    if i :| 0 <= i <= |longer| && OccursAt(longer, word, i) {
      assert longer[i + n - 1] == longer[i..i + n][n - 1] == word[n - 1];
      assert i + n <= |s| && s[i..i + n] == longer[i..i + n];
      assert OccursAt(s, word, i);
    }
    if i :| 0 <= i <= |s| && OccursAt(s, word, i) {
      assert longer[i..i + n] == s[i..i + n];
      assert OccursAt(longer, word, i);
    }
  }

  /** An occurrence of a trimmed keyword begins and ends outside surrounding space. */
  lemma LeadingSpaceHoldsNothing(s: string, keyword: string)
    requires s != "" && Text.IsSpace(s[0]) && keyword != "" && Text.IsTrimmed(keyword)
    ensures Contains(Text.ToLower(s), keyword) <==> Contains(Text.ToLower(s[1..]), keyword)
  {
    assert Text.ToLower(s) == [s[0]] + Text.ToLower(s[1..]);
    OccurrenceSkipsHead(s[0], Text.ToLower(s[1..]), keyword);
  }

  lemma TrailingSpaceHoldsNothing(s: string, keyword: string)
    requires s != "" && Text.IsSpace(s[|s| - 1]) && keyword != "" && Text.IsTrimmed(keyword)
    ensures Contains(Text.ToLower(s), keyword) <==> Contains(Text.ToLower(s[..|s| - 1]), keyword)
  {
    var n := |s| - 1;
    assert Text.ToLower(s) == Text.ToLower(s[..n]) + [s[n]];
    OccurrenceSkipsLast(Text.ToLower(s[..n]), s[n], keyword);
  }

  lemma {:induction false} TrimLeftKeepsOccurrences(s: string, keyword: string)
    requires keyword != "" && Text.IsTrimmed(keyword)
    ensures Contains(Text.ToLower(Text.TrimLeft(s)), keyword) <==> Contains(Text.ToLower(s), keyword)
  {
    if s != "" && Text.IsSpace(s[0]) {
      LeadingSpaceHoldsNothing(s, keyword);
      TrimLeftKeepsOccurrences(s[1..], keyword);
    }
  }

  lemma {:induction false} TrimRightKeepsOccurrences(s: string, keyword: string)
    requires keyword != "" && Text.IsTrimmed(keyword)
    ensures Contains(Text.ToLower(Text.TrimRight(s)), keyword) <==> Contains(Text.ToLower(s), keyword)
  {
    if s != "" && Text.IsSpace(s[|s| - 1]) {
      TrailingSpaceHoldsNothing(s, keyword);
      TrimRightKeepsOccurrences(s[..|s| - 1], keyword);
    }
  }

  lemma HitsSays(f: SemanticFields, x: Field, keyword: string)
    requires ValidKeyword(keyword)
    ensures Hits(NormalizeFields(f), x, keyword) <==> SaysIn(f, x, keyword)
  {
    Text.NormalFormMeaning(keyword);
    TrimLeftKeepsOccurrences(TextOf(f, x), keyword);
    TrimRightKeepsOccurrences(Text.TrimLeft(TextOf(f, x)), keyword);
    assert NormalizeFields(f).At(x) == Text.Normalize(TextOf(f, x));
  }

  /**
   A rule with valid keywords matches an error exactly when all of them, or in any other mode
   one of them, occur in some field of the error as it arrived, whatever the case of its letters
   and the space around it; the fields reported are those that hold one.
   */
  lemma MatchesTheTextAsItArrives(r: Rule, f: SemanticFields)
    requires ValidKeywords(r.spec.keywords)
    ensures var m := MatchOf(r, NormalizeFields(f));
            && (m.Some? <==>
                  if r.spec.mode == All then forall k <- r.spec.keywords :: exists x :: SaysIn(f, x, k)
                  else exists k <- r.spec.keywords :: exists x :: SaysIn(f, x, k))
            && (m.Some? ==> forall x :: x in m.value.fields <==> exists k <- r.spec.keywords :: SaysIn(f, x, k))
  {
    var v := NormalizeFields(f);
    MatchMeaning(r, v);
    AllFields();
    forall k, x | k in r.spec.keywords ensures Hits(v, x, k) <==> SaysIn(f, x, k) { HitsSays(f, x, k); }
    forall k <- r.spec.keywords ensures HitsAny(v, k) <==> exists x :: SaysIn(f, x, k) {
      if HitsAny(v, k) { var x :| x in FIELDS && Hits(v, x, k); assert SaysIn(f, x, k); }
    }
  }

  function Matches(candidates: seq<Rule>, v: Values): seq<RuleMatch> {
    if candidates == [] then []
    else
      var n := |candidates| - 1;
      var last := MatchOf(candidates[n], v);
      Matches(candidates[..n], v) + if last.Some? then [last.value] else []
  }

  function ResultOf(all: seq<RuleMatch>): MatchResult {
    MatchResult(all, if all == [] then None else Some(all[0]))
  }

  function Match(s: CompiledRuleSet, scope: Scope, fields: SemanticFields): MatchResult {
    ResultOf(Matches(Candidates(s, scope), NormalizeFields(fields)))
  }

  method RunMatch(s: CompiledRuleSet, scope: Scope, fields: SemanticFields) returns (result: MatchResult)
    ensures result == Match(s, scope, fields)
  {
    var candidates := CollectCandidates(s, scope);
    var v := NormalizeFields(fields);
    var all: seq<RuleMatch> := [];
    for i := 0 to |candidates|
      invariant all == Matches(candidates[..i], v)
    {
      assert candidates[..i + 1][..i] == candidates[..i];
      var m := MatchRule(candidates[i], v);
      if m.Some? {
        all := all + [m.value];
      }
    }
    assert candidates[..|candidates|] == candidates;
    result := MatchResult(all, None);
    if |all| > 0 {
      result := MatchResult(all, Some(all[0]));
    }
  }

  // ---- the order of the rules is irrelevant, and the winner is the first in precedence ----

  lemma CandidatesAreOrdered(revision: int, rules: seq<Rule>, scope: Scope)
    requires Acceptable(rules) && ApiCatalog.IsBuiltIn(scope.apiType)
    ensures var s := Compile(revision, rules);
            Ordering.InOrder(Candidates(s, scope), PrecedesIn(scope)) &&
            (forall r :: r in Candidates(s, scope) <==> r in rules && r.spec.enabled && Applies(r, scope)) &&
            Ordering.OrdersStrictly(PrecedesIn(scope), Candidates(s, scope))
  {
    var enabled := EnabledOf(rules);
    var chosen := Filter(enabled, AppliesIn(scope));
    ApartIsDistinct(rules);
    FilterMembers(rules, IsEnabled);
    FilterMembers(enabled, AppliesIn(scope));
    FilterIsDistinct(rules, IsEnabled);
    FilterIsDistinct(enabled, AppliesIn(scope));
    PrecedenceIsAStrictTotalOrder(chosen, scope);
    Ordering.SortOrders(chosen, PrecedesIn(scope));
    Ordering.SortPermutes(chosen, PrecedesIn(scope));
    Ordering.SameMembers(Candidates(Compile(revision, rules), scope), chosen);
  }

  lemma {:induction false} FilterIsDistinct(rules: seq<Rule>, keep: Rule -> bool)
    requires Distinct(rules)
    ensures Distinct(Filter(rules, keep))
  {
    if rules != [] {
      FilterIsDistinct(rules[1..], keep);
      FilterMembers(rules[1..], keep);
    }
  }

  /** Match gives the same list and the same winner whatever order the rules were compiled in. */
  lemma MatchIgnoresOrder(revision: int, rules: seq<Rule>, permuted: seq<Rule>, scope: Scope, fields: SemanticFields)
    requires Acceptable(rules) && multiset(rules) == multiset(permuted)
    ensures Candidates(Compile(revision, permuted), scope) == Candidates(Compile(revision, rules), scope)
    ensures Match(Compile(revision, permuted), scope, fields) == Match(Compile(revision, rules), scope, fields)
  {
    CompilationIgnoresOrder(revision, rules, permuted);
    if ApiCatalog.IsBuiltIn(scope.apiType) {
      CandidatesAreOrdered(revision, rules, scope);
      CandidatesAreOrdered(revision, permuted, scope);
      var a, b := EnabledOf(rules), EnabledOf(permuted);
      FilterMultiset(a, b, AppliesIn(scope));
      Ordering.SortPermutes(Filter(a, AppliesIn(scope)), PrecedesIn(scope));
      Ordering.SortPermutes(Filter(b, AppliesIn(scope)), PrecedesIn(scope));
      Ordering.InOrderIsUnique(Candidates(Compile(revision, rules), scope), Candidates(Compile(revision, permuted), scope),
                               PrecedesIn(scope));
    }
  }

  lemma {:induction false} MatchesMembers(candidates: seq<Rule>, v: Values)
    ensures forall m :: m in Matches(candidates, v) <==> m.rule in candidates && MatchOf(m.rule, v) == Some(m)
  {
    if candidates != [] {
      var n := |candidates| - 1;
      MatchesMembers(candidates[..n], v);
      assert candidates == candidates[..n] + [candidates[n]];
    }
  }

  lemma {:induction false} NoMatches(candidates: seq<Rule>, v: Values)
    requires Matches(candidates, v) == []
    ensures forall r <- candidates :: MatchOf(r, v).None?
  {
    if candidates != [] {
      var n := |candidates| - 1;
      NoMatches(candidates[..n], v);
      assert candidates == candidates[..n] + [candidates[n]];
    }
  }

  lemma {:induction false} FirstMatch(candidates: seq<Rule>, v: Values) returns (w: nat)
    requires Matches(candidates, v) != []
    ensures w < |candidates| && MatchOf(candidates[w], v) == Some(Matches(candidates, v)[0])
    ensures forall j :: 0 <= j < w ==> MatchOf(candidates[j], v).None?
  {
    var n := |candidates| - 1;
    if Matches(candidates[..n], v) != [] {
      w := FirstMatch(candidates[..n], v);
    } else {
      NoMatches(candidates[..n], v);
      assert forall j :: 0 <= j < n ==> candidates[..n][j] in candidates[..n];
      w := n;
    }
  }

  lemma FirstMatchIsFirst(candidates: seq<Rule>, v: Values, before: (Rule, Rule) -> bool)
    requires Ordering.InOrder(candidates, before) && Matches(candidates, v) != []
    ensures forall r <- candidates :: MatchOf(r, v).Some? && r != Matches(candidates, v)[0].rule ==>
                                        before(Matches(candidates, v)[0].rule, r)
  {
    var w := FirstMatch(candidates, v);
    forall j | 0 <= j < |candidates| && MatchOf(candidates[j], v).Some? && j != w
      ensures before(candidates[w], candidates[j])
    {
      assert w < j;
    }
  }

  /** Some rule wins exactly when an enabled, applicable rule matches; it then precedes every other such rule. */
  lemma WinnerIsFirstInPrecedence(revision: int, rules: seq<Rule>, scope: Scope, fields: SemanticFields)
    requires Acceptable(rules) && ApiCatalog.IsBuiltIn(scope.apiType)
    ensures var winner, v := Match(Compile(revision, rules), scope, fields).winner, NormalizeFields(fields);
            && (winner.Some? <==> exists r <- rules :: r.spec.enabled && Applies(r, scope) && MatchOf(r, v).Some?)
            && (winner.Some? ==>
                  var w := winner.value.rule;
                  w in rules && w.spec.enabled && Applies(w, scope) && MatchOf(w, v) == winner &&
                  forall r <- rules :: r.spec.enabled && Applies(r, scope) && MatchOf(r, v).Some? && r != w ==>
                                         ComparePrecedence(w, r, scope) < 0)
  {
    var candidates, v := Candidates(Compile(revision, rules), scope), NormalizeFields(fields);
    CandidatesAreOrdered(revision, rules, scope);
    MatchesMembers(candidates, v);
    var all := Matches(candidates, v);
    if all != [] {
      FirstMatchIsFirst(candidates, v, PrecedesIn(scope));
      assert all[0] in all;
    }
    forall r <- rules | r.spec.enabled && Applies(r, scope) && MatchOf(r, v).Some? ensures all != [] {
      assert MatchOf(r, v).value in all;
    }
  }

  // ---- the winner, said of targets, API types, positions and identifiers ----

  /** a comes before b in the dictionary: it is a proper prefix, or smaller where they first differ. */
  ghost predicate Before(a: string, b: string) {
    || a < b
    || exists i :: 0 <= i < |a| && i < |b| && a[..i] == b[..i] && a[i] < b[i]
  }

  lemma {:induction false} CompareTextMeaning(a: string, b: string)
    ensures CompareText(a, b) < 0 <==> Before(a, b)
  {
    forall i | 0 < i < |a| && i < |b| && a[..i] == b[..i] ensures a[0] == b[0] { SamePrefixSameHead(a, b, i); }
    if a != "" && b != "" && a[0] == b[0] {
      var x, y := a[1..], b[1..];
      CompareTextMeaning(x, y);
      assert a == [a[0]] + x && b == [b[0]] + y;
      if i :| 0 <= i < |x| && i < |y| && x[..i] == y[..i] && x[i] < y[i] {
        assert a[..i + 1] == [a[0]] + x[..i] && b[..i + 1] == [b[0]] + y[..i];
        assert a[i + 1] < b[i + 1];
      }
      if i :| 0 <= i < |a| && i < |b| && a[..i] == b[..i] && a[i] < b[i] {
        assert x[..i - 1] == a[..i][1..] && y[..i - 1] == b[..i][1..];
        assert x[i - 1] < y[i - 1];
      }
    } else if a != "" && b != "" && a[0] < b[0] {
      assert a[..0] == b[..0];
    }
  }

  lemma SamePrefixSameHead(a: string, b: string, i: nat)
    requires 0 < i < |a| && i < |b| && a[..i] == b[..i]
    ensures a[0] == b[0]
  {
    assert a[..i][0] == a[0] && b[..i][0] == b[0];
  }

  /** The rule is enabled, meant for the scope's provider or for all, for the scope's API or for all, and matches. */
  predicate Competes(r: Rule, scope: Scope, v: Values) {
    && r.spec.enabled
    && (r.spec.target.kind != ForProvider || r.spec.target.providerID == scope.providerID)
    && (r.spec.apiType == None || r.spec.apiType == Some(scope.apiType))
    && MatchOf(r, v).Some?
  }

  /**
   Who wins among the competing rules. A rule for the provider beats every other. Among rules
   alike in that, one for exactly this API type beats one for all. Among rules alike in both,
   the least position wins, and on equal positions the identifier that comes first.
   */
  ghost predicate Beats(w: Rule, r: Rule, scope: Scope) {
    && (w.spec.target.kind != ForProvider ==> r.spec.target.kind != ForProvider)
    && ((w.spec.target.kind == ForProvider <==> r.spec.target.kind == ForProvider) ==>
          && (w.spec.apiType != Some(scope.apiType) ==> r.spec.apiType != Some(scope.apiType))
          && ((w.spec.apiType == Some(scope.apiType) <==> r.spec.apiType == Some(scope.apiType)) ==>
                && w.position <= r.position
                && (w.position == r.position ==> Before(w.id, r.id))))
  }

  lemma PrecedingBeats(w: Rule, r: Rule, scope: Scope)
    requires ComparePrecedence(w, r, scope) < 0
    ensures Beats(w, r, scope)
  {
    CompareTextMeaning(w.id, r.id);
  }

  /** The winner is exactly the competing rule that beats all others; there is none exactly when no rule competes. */
  lemma WinnerBeatsAllOthers(revision: int, rules: seq<Rule>, scope: Scope, fields: SemanticFields)
    requires Acceptable(rules) && ApiCatalog.IsBuiltIn(scope.apiType)
    ensures var winner, v := Match(Compile(revision, rules), scope, fields).winner, NormalizeFields(fields);
            && (winner.None? <==> forall r <- rules :: !Competes(r, scope, v))
            && (winner.Some? ==>
                  winner.value.rule in rules && Competes(winner.value.rule, scope, v) &&
                  forall r <- rules :: Competes(r, scope, v) && r != winner.value.rule ==> Beats(winner.value.rule, r, scope))
  {
    WinnerIsFirstInPrecedence(revision, rules, scope, fields);
    var winner, v := Match(Compile(revision, rules), scope, fields).winner, NormalizeFields(fields);
    if winner.Some? {
      forall r <- rules | Competes(r, scope, v) && r != winner.value.rule ensures Beats(winner.value.rule, r, scope) {
        PrecedingBeats(winner.value.rule, r, scope);
      }
    }
  }

  function RulesOf(all: seq<RuleMatch>): seq<Rule> {
    seq(|all|, i requires 0 <= i < |all| => all[i].rule)
  }

  lemma OrderExtends(rules: seq<Rule>, last: Rule, before: (Rule, Rule) -> bool)
    requires Ordering.InOrder(rules, before) && forall r <- rules :: before(r, last)
    ensures Ordering.InOrder(rules + [last], before)
  {
  }

  lemma MatchesPrecedeTheLast(candidates: seq<Rule>, v: Values, before: (Rule, Rule) -> bool)
    requires Ordering.InOrder(candidates, before) && candidates != []
    ensures var n := |candidates| - 1; forall r <- RulesOf(Matches(candidates[..n], v)) :: before(r, candidates[n])
  {
    var n := |candidates| - 1;
    var front := Matches(candidates[..n], v);
    MatchesMembers(candidates[..n], v);
    forall r <- RulesOf(front) ensures before(r, candidates[n]) {
      var i :| 0 <= i < |front| && RulesOf(front)[i] == r;
      assert front[i] in front;
      var k :| 0 <= k < n && candidates[..n][k] == r;
      assert candidates[k] == r;
    }
  }

  /** The matches keep the candidates' order. */
  lemma {:induction false} MatchesInOrder(candidates: seq<Rule>, v: Values, before: (Rule, Rule) -> bool)
    requires Ordering.InOrder(candidates, before)
    ensures Ordering.InOrder(RulesOf(Matches(candidates, v)), before)
  {
    if candidates != [] {
      var n := |candidates| - 1;
      MatchesInOrder(candidates[..n], v, before);
      if MatchOf(candidates[n], v).Some? {
        var front := RulesOf(Matches(candidates[..n], v));
        MatchesPrecedeTheLast(candidates, v, before);
        OrderExtends(front, candidates[n], before);
        assert RulesOf(Matches(candidates, v)) == front + [candidates[n]];
      } else {
        assert Matches(candidates, v) == Matches(candidates[..n], v);
      }
    }
  }

  lemma MatchesAreThoseThatCompete(revision: int, rules: seq<Rule>, scope: Scope, v: Values)
    requires Acceptable(rules) && ApiCatalog.IsBuiltIn(scope.apiType)
    ensures forall m :: m in Matches(Candidates(Compile(revision, rules), scope), v) <==>
              m.rule in rules && Competes(m.rule, scope, v) && MatchOf(m.rule, v) == Some(m)
  {
    CandidatesAreOrdered(revision, rules, scope);
    MatchesMembers(Candidates(Compile(revision, rules), scope), v);
  }

  /** The list holds the match of every competing rule and nothing else, each before those that it beats. */
  lemma MatchesAreOrdered(revision: int, rules: seq<Rule>, scope: Scope, fields: SemanticFields)
    requires Acceptable(rules) && ApiCatalog.IsBuiltIn(scope.apiType)
    ensures var all, v := Match(Compile(revision, rules), scope, fields).all, NormalizeFields(fields);
            && (forall m :: m in all <==> m.rule in rules && Competes(m.rule, scope, v) && MatchOf(m.rule, v) == Some(m))
            && (forall i, j :: 0 <= i < j < |all| ==> Beats(all[i].rule, all[j].rule, scope))
  {
    var candidates, v := Candidates(Compile(revision, rules), scope), NormalizeFields(fields);
    MatchesAreThoseThatCompete(revision, rules, scope, v);
    assert Ordering.InOrder(candidates, PrecedesIn(scope)) by { CandidatesAreOrdered(revision, rules, scope); }
    MatchesInOrder(candidates, v, PrecedesIn(scope));
    var all := Matches(candidates, v);
    forall i, j | 0 <= i < j < |all| ensures Beats(all[i].rule, all[j].rule, scope) {
      assert PrecedesIn(scope)(RulesOf(all)[i], RulesOf(all)[j]);
      PrecedingBeats(all[i].rule, all[j].rule, scope);
    }
  }

  // ---- the detection plan ----

  datatype DetectionPlan = NoCandidate | ObservationOnly | Probe

  /** The planner's test of one action. */
  predicate CallsForProbe(a: Action) {
    a.kind == RetryThenSwitch || (a.kind == RetryOnly && (a.maxRetries > 0 || a.visible == Disconnect))
  }

  function Plan(s: CompiledRuleSet, scope: Scope): DetectionPlan {
    var candidates := Candidates(s, scope);
    if candidates == [] then NoCandidate
    else if exists r <- candidates :: CallsForProbe(r.spec.action) then Probe
    else ObservationOnly
  }

  method PlanDetection(s: CompiledRuleSet, scope: Scope) returns (plan: DetectionPlan)
    ensures plan == Plan(s, scope)
  {
    var candidates := CollectCandidates(s, scope);
    if |candidates| == 0 {
      return NoCandidate;
    }
    for i := 0 to |candidates|
      invariant forall j :: 0 <= j < i ==> !CallsForProbe(candidates[j].spec.action)
    {
      if CallsForProbe(candidates[i].spec.action) {
        return Probe;
      }
    }
    return ObservationOnly;
  }

  /** The action can make the gateway retry, switch or abort in some situation. */
  ghost predicate CanAct(a: Action) {
    || (exists i: Input :: i.action == a && (Decides(i, RetrySame) || Decides(i, SwitchProvider)))
    || (DecideVisibleResponse(a).Some? && DecideVisibleResponse(a).value.value == AbortClient)
  }

  /** A valid action can act exactly when the planner's test holds. */
  lemma ProbeTestIsExact(a: Action, key: RetryLedger.Key)
    requires ValidAction(a) && ValidProviderID(key.providerID) && IsUUIDv4(key.ruleID)
    ensures CallsForProbe(a) <==> CanAct(a)
  {
    if CallsForProbe(a) && (a.kind == RetryThenSwitch || a.maxRetries > 0) {
      var i := Input(a, key, RetryLedger.EMPTY, 0, Eligibility(true, None), false);
      assert Decides(i, RetrySame) || Decides(i, SwitchProvider);
    }
    if !CallsForProbe(a) {
      forall i: Input | i.action == a ensures !Decides(i, RetrySame) && !Decides(i, SwitchProvider) {
        RetrySameIff(i);
        SwitchIff(i);
      }
    }
  }

  /**
   no_candidate: exactly for APIs outside the table and scopes no enabled rule applies to; nothing
   ever matches. observe_only: no rule that matches, so no winner, can
   retry, switch or abort. probe: exactly when some candidate can.
   */
  lemma PlanIsSound(revision: int, rules: seq<Rule>, scope: Scope, key: RetryLedger.Key)
    requires Acceptable(rules) && ValidProviderID(key.providerID) && IsUUIDv4(key.ruleID)
    ensures var s := Compile(revision, rules);
            && (Plan(s, scope) == NoCandidate <==>
                  !ApiCatalog.IsBuiltIn(scope.apiType) || forall r <- rules :: !(r.spec.enabled && Applies(r, scope)))
            && (Plan(s, scope) == NoCandidate ==> forall f :: Match(s, scope, f) == MatchResult([], None))
            && (Plan(s, scope) == ObservationOnly ==>
                  forall f :: forall m <- Match(s, scope, f).all :: !CanAct(m.rule.spec.action))
            && (Plan(s, scope) == Probe <==> exists r <- Candidates(s, scope) :: CanAct(r.spec.action))
  {
    var s := Compile(revision, rules);
    var candidates := Candidates(s, scope);
    if ApiCatalog.IsBuiltIn(scope.apiType) { CandidatesAreOrdered(revision, rules, scope); }
    if ApiCatalog.IsBuiltIn(scope.apiType) && candidates == [] {
      forall r <- rules ensures !(r.spec.enabled && Applies(r, scope)) { assert r !in candidates; }
    }
    if candidates != [] { assert candidates[0] in candidates; }
    forall r <- candidates ensures CallsForProbe(r.spec.action) <==> CanAct(r.spec.action) {
      assert ValidRule(r, |rules|);
      ProbeTestIsExact(r.spec.action, key);
    }
    forall f, m | m in Match(s, scope, f).all ensures m.rule in candidates {
      MatchesMembers(candidates, NormalizeFields(f));
    }
  }
}
