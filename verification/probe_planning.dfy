/**
 When a planned probe can lead to anything. The planner looks at single candidates, but only
 the winner of a match acts, so a candidate that could act may always be shadowed by one that
 matches the same errors first. Whether it is can be read off the keywords.
 */
module ProbePlanning {
  import opened Collections
  import opened ErrorRules
  import opened RuleSets
  import opened RuleMatching
  import opened RetryDecisions
  import ApiCatalog
  import Ordering
  import RetryLedger
  import Text

  // ---- where keywords occur ----

  /** A control character, which no keyword holds. */
  const SEPARATOR := 1 as char

  function Joined(words: seq<string>): string
    requires words != []
  {
    if |words| == 1 then words[0] else words[0] + ([SEPARATOR] + Joined(words[1..]))
  }

  lemma ContainsTransitive(s: string, word: string, part: string)
    requires Contains(s, word) && Contains(word, part)
    ensures Contains(s, part)
  {
    var i :| 0 <= i <= |s| && OccursAt(s, word, i);
    var j :| 0 <= j <= |word| && OccursAt(word, part, j);
    forall x | 0 <= x < |part| ensures s[i + j + x] == part[x] {
      assert s[i + j + x] == s[i..i + |word|][j + x];
      assert word[j..j + |part|][x] == word[j + x];
    }
    assert OccursAt(s, part, i + j);
  }

  /** A word without the separator cannot reach across it. */
  lemma ContainsEitherSide(a: string, b: string, word: string)
    requires SEPARATOR !in word && word != ""
    ensures Contains(a + ([SEPARATOR] + b), word) <==> Contains(a, word) || Contains(b, word)
  {
    var s, m := a + ([SEPARATOR] + b), |a|;
    assert s[m] == SEPARATOR && s[..m] == a && s[m + 1..] == b;
    if i :| 0 <= i <= |s| && OccursAt(s, word, i) {
      forall x | i <= x < i + |word| ensures s[x] != SEPARATOR {
        assert s[x] == s[i..i + |word|][x - i] == word[x - i];
      }
      if i + |word| <= m {
        assert a[i..i + |word|] == s[i..i + |word|];
        assert OccursAt(a, word, i);
      } else {
        assert b[i - m - 1..i - m - 1 + |word|] == s[i..i + |word|];
        assert OccursAt(b, word, i - m - 1);
      }
    }
    if i :| 0 <= i <= |a| && OccursAt(a, word, i) {
      assert s[i..i + |word|] == a[i..i + |word|];
      assert OccursAt(s, word, i);
    }
    if i :| 0 <= i <= |b| && OccursAt(b, word, i) {
      assert s[i + m + 1..i + m + 1 + |word|] == b[i..i + |word|];
      assert OccursAt(s, word, i + m + 1);
    }
  }

  predicate OccursIn(words: seq<string>, keyword: string) {
    exists w <- words :: Contains(w, keyword)
  }

  lemma {:induction false} OccursInJoined(words: seq<string>, keyword: string)
    requires words != [] && SEPARATOR !in keyword && keyword != ""
    ensures Contains(Joined(words), keyword) <==> OccursIn(words, keyword)
  {
    if |words| == 1 {
      assert words[0] in words;
    } else {
      assert words == [words[0]] + words[1..];
      OccursInJoined(words[1..], keyword);
      ContainsEitherSide(words[0], Joined(words[1..]), keyword);
    }
  }

  lemma {:induction false} JoinedIsNormal(words: seq<string>)
    requires words != [] && forall w <- words :: NormalForm(w) && w != ""
    ensures Joined(words) != "" && Text.IsTrimmed(Joined(words)) && Text.IsLower(Joined(words))
  {
    assert words[0] in words;
    Text.NormalFormMeaning(words[0]);
    if |words| > 1 {
      assert forall w <- words[1..] :: w in words;
      JoinedIsNormal(words[1..]);
    }
  }

  // ---- errors that hold given words and nothing else ----

  function ErrorWith(words: seq<string>): SemanticFields
    requires words != []
  {
    SemanticFields("", "", Joined(words), "")
  }

  lemma ErrorWithHits(words: seq<string>, keyword: string)
    requires words != [] && (forall w <- words :: NormalForm(w) && w != "") && ValidKeyword(keyword)
    ensures HitsAny(NormalizeFields(ErrorWith(words)), keyword) <==> OccursIn(words, keyword)
  {
    var v := NormalizeFields(ErrorWith(words));
    JoinedIsNormal(words);
    Text.NormalFormMeaning(Joined(words));
    Text.NormalFormMeaning("");
    assert v == Values("", "", Joined(words), "");
    assert SEPARATOR !in keyword by {
      if SEPARATOR in keyword { assert IsControl(SEPARATOR); }
    }
    OccursInJoined(words, keyword);
    AllFields();
    assert forall f <- FIELDS :: Hits(v, f, keyword) ==> f == MessageField;
    assert MessageField in FIELDS && v.At(MessageField) == Joined(words);
  }

  /** An error that holds these words cannot but match the rule. */
  predicate Covers(words: seq<string>, r: Rule) {
    if r.spec.mode == All then forall k <- r.spec.keywords :: OccursIn(words, k)
    else exists k <- r.spec.keywords :: OccursIn(words, k)
  }

  lemma ErrorWithMatches(words: seq<string>, r: Rule)
    requires words != [] && (forall w <- words :: NormalForm(w) && w != "") && ValidKeywords(r.spec.keywords)
    ensures MatchOf(r, NormalizeFields(ErrorWith(words))).Some? <==> Covers(words, r)
  {
    MatchMeaning(r, NormalizeFields(ErrorWith(words)));
    forall k <- r.spec.keywords
      ensures HitsAny(NormalizeFields(ErrorWith(words)), k) <==> OccursIn(words, k)
    {
      assert ValidKeyword(k);
      ErrorWithHits(words, k);
    }
  }

  lemma CoveredIsMatched(v: Values, words: seq<string>, r: Rule)
    requires (forall w <- words :: HitsAny(v, w)) && Covers(words, r)
    ensures MatchOf(r, v).Some?
  {
    MatchMeaning(r, v);
    forall k | k in r.spec.keywords && OccursIn(words, k) ensures HitsAny(v, k) {
      var w :| w in words && Contains(w, k);
      var f :| f in FIELDS && Hits(v, f, w);
      ContainsTransitive(v.At(f), w, k);
      assert Hits(v, f, k);
    }
  }

  // ---- which candidates can win ----

  predicate NoneCovered(candidates: seq<Rule>, i: nat, words: seq<string>)
    requires i <= |candidates|
  {
    forall j :: 0 <= j < i ==> !Covers(words, candidates[j])
  }

  /**
   Candidate i can win: all of its keywords together, or in any other mode one of them alone,
   match no candidate before it.
   */
  predicate CanWin(candidates: seq<Rule>, i: nat)
    requires i < |candidates|
  {
    var keywords := candidates[i].spec.keywords;
    if candidates[i].spec.mode == All then NoneCovered(candidates, i, keywords)
    else exists k <- keywords :: NoneCovered(candidates, i, [k])
  }

  /** Candidate i is the first to match. */
  predicate WinsOn(candidates: seq<Rule>, i: nat, v: Values)
    requires i < |candidates|
  {
    MatchOf(candidates[i], v).Some? && forall j :: 0 <= j < i ==> MatchOf(candidates[j], v).None?
  }

  lemma WinnerCanWin(candidates: seq<Rule>, i: nat, v: Values)
    requires i < |candidates| && WinsOn(candidates, i, v)
    ensures CanWin(candidates, i)
  {
    var r := candidates[i];
    MatchMeaning(r, v);
    if r.spec.mode == All {
      forall j | 0 <= j < i ensures !Covers(r.spec.keywords, candidates[j]) {
        if Covers(r.spec.keywords, candidates[j]) { CoveredIsMatched(v, r.spec.keywords, candidates[j]); }
      }
    } else {
      var k :| k in r.spec.keywords && HitsAny(v, k);
      forall j | 0 <= j < i ensures !Covers([k], candidates[j]) {
        if Covers([k], candidates[j]) { CoveredIsMatched(v, [k], candidates[j]); }
      }
      assert NoneCovered(candidates, i, [k]);
    }
  }

  lemma Covered(r: Rule, words: seq<string>)
    requires ValidKeywords(r.spec.keywords)
    requires words == r.spec.keywords || (r.spec.mode != All && exists k <- r.spec.keywords :: words == [k])
    ensures Covers(words, r)
  {
    forall k | k in r.spec.keywords && k in words ensures OccursIn(words, k) {
      assert k[0..|k|] == k;
      assert OccursAt(k, k, 0);
    }
    assert r.spec.keywords[0] in r.spec.keywords;
  }

  /** The words that make candidate i match while none before it does. */
  lemma CanWinWins(candidates: seq<Rule>, i: nat) returns (f: SemanticFields)
    requires i < |candidates| && CanWin(candidates, i)
    requires forall r <- candidates :: ValidKeywords(r.spec.keywords)
    ensures WinsOn(candidates, i, NormalizeFields(f))
  {
    var r := candidates[i];
    assert r in candidates;
    var words := r.spec.keywords;
    if r.spec.mode != All {
      var k :| k in r.spec.keywords && NoneCovered(candidates, i, [k]);
      words := [k];
    }
    assert words != [] && NoneCovered(candidates, i, words);
    forall w <- words ensures NormalForm(w) && w != "" { assert ValidKeyword(w); }
    f := ErrorWith(words);
    Covered(r, words);
    ErrorWithMatches(words, r);
    forall j | 0 <= j < i ensures MatchOf(candidates[j], NormalizeFields(f)).None? {
      assert candidates[j] in candidates;
      ErrorWithMatches(words, candidates[j]);
    }
  }

  lemma FirstMatchWins(candidates: seq<Rule>, i: nat, v: Values)
    requires i < |candidates| && WinsOn(candidates, i, v)
    ensures Matches(candidates, v) != [] && Matches(candidates, v)[0].rule == candidates[i]
  {
    MatchesMembers(candidates, v);
    assert candidates[i] in candidates;
    assert MatchOf(candidates[i], v).value in Matches(candidates, v);
    var w := FirstMatch(candidates, v);
    assert w == i;
  }

  /** The action of some winner can make the gateway retry, switch or abort. */
  ghost predicate ProbeCanHelp(s: CompiledRuleSet, scope: Scope) {
    exists f :: Match(s, scope, f).winner.Some? && CanAct(Match(s, scope, f).winner.value.rule.spec.action)
  }

  /**
   For accepted rule sets, a probe can lead to something exactly when some candidate whose
   action calls for one can win, which its keywords and those of the candidates before it decide.
   */
  lemma ProbeCanHelpIffUnshadowed(revision: int, rules: seq<Rule>, scope: Scope, key: RetryLedger.Key)
    requires Acceptable(rules) && ValidProviderID(key.providerID) && IsUUIDv4(key.ruleID)
    ensures var s := Compile(revision, rules);
            var candidates := Candidates(s, scope);
            ProbeCanHelp(s, scope) <==>
            exists i :: 0 <= i < |candidates| && CallsForProbe(candidates[i].spec.action) && CanWin(candidates, i)
  {
    var s := Compile(revision, rules);
    var candidates := Candidates(s, scope);
    CandidatesAreValid(revision, rules, scope);
    if f :| Match(s, scope, f).winner.Some? && CanAct(Match(s, scope, f).winner.value.rule.spec.action) {
      var w := FirstMatch(candidates, NormalizeFields(f));
      assert candidates[w] == Match(s, scope, f).winner.value.rule && candidates[w] in candidates;
      ProbeTestIsExact(candidates[w].spec.action, key);
      WinnerCanWin(candidates, w, NormalizeFields(f));
    }
    if i :| 0 <= i < |candidates| && CallsForProbe(candidates[i].spec.action) && CanWin(candidates, i) {
      var f := CanWinWins(candidates, i);
      FirstMatchWins(candidates, i, NormalizeFields(f));
      assert candidates[i] in candidates;
      ProbeTestIsExact(candidates[i].spec.action, key);
      assert Match(s, scope, f).winner.value.rule == candidates[i];
    }
  }

  lemma CandidatesAreValid(revision: int, rules: seq<Rule>, scope: Scope)
    requires Acceptable(rules)
    ensures forall r <- Candidates(Compile(revision, rules), scope) :: ValidKeywords(r.spec.keywords) && ValidAction(r.spec.action)
  {
    if ApiCatalog.IsBuiltIn(scope.apiType) { CandidatesAreOrdered(revision, rules, scope); }
    forall r <- Candidates(Compile(revision, rules), scope)
      ensures ValidKeywords(r.spec.keywords) && ValidAction(r.spec.action)
    {
      assert ValidRule(r, |rules|);
    }
  }

  // ---- a rule set whose probe is in vain ----

  function ExampleID(last: char): string {
    seq(36, i => if i in {8, 13, 18, 23} then '-' else if i == 14 then '4' else if i == 35 then last else '0')
  }

  const ALWAYS := Time(1, 0)

  const KEEP := Action(Passthrough, 0, Backoff(0, 0, Finite(0.0)), Commit)

  const RETRY := Action(RetryOnly, 1, Backoff(0, 0, Finite(0.0)), Disconnect)

  function ExampleRule(last: char, position: int, action: Action): Rule {
    Rule(ExampleID(last), ExampleID(last), Spec("r", true, Target(Global, ""), None, ["k"], Any, action), position, ALWAYS, ALWAYS)
  }

  const SHADOWED := [ExampleRule('0', 0, KEEP), ExampleRule('1', 1, RETRY)]

  lemma ExampleIDs()
    ensures IsUUIDv4(ExampleID('0')) && IsUUIDv4(ExampleID('1')) && ExampleID('0') != ExampleID('1')
  {
    assert ExampleID('0')[35] != ExampleID('1')[35];
  }

  lemma ExampleSpec(action: Action)
    requires ValidAction(action)
    ensures ValidSpec(Spec("r", true, Target(Global, ""), None, ["k"], Any, action))
  {
    Text.TrimmedIffFixed("r");
    Text.NormalFormMeaning("k");
    assert Text.IsLower("k") && NormalForm("k");
    assert !HasControl("k") && !HasControl("r");
    assert ValidKeyword("k");
  }

  lemma ShadowedIsAcceptable()
    ensures Acceptable(SHADOWED)
  {
    ExampleIDs();
    ExampleSpec(KEEP);
    ExampleSpec(RETRY);
    assert ValidTimes(ALWAYS, ALWAYS);
    forall r <- SHADOWED ensures ValidRule(r, 2) {
      assert r == SHADOWED[0] || r == SHADOWED[1];
    }
  }

  lemma ShadowedArePermuted(revision: int, scope: Scope)
    requires ApiCatalog.IsBuiltIn(scope.apiType)
    ensures multiset(Candidates(Compile(revision, SHADOWED), scope)) == multiset(SHADOWED)
  {
    FilterKeepsAll(SHADOWED, IsEnabled);
    FilterKeepsAll(SHADOWED, AppliesIn(scope));
    Ordering.SortPermutes(SHADOWED, PrecedesIn(scope));
  }

  lemma ShadowedAreInOrder(scope: Scope)
    ensures Ordering.InOrder(SHADOWED, PrecedesIn(scope))
  {
  }

  lemma ShadowedCandidates(revision: int, scope: Scope)
    requires ApiCatalog.IsBuiltIn(scope.apiType)
    ensures Candidates(Compile(revision, SHADOWED), scope) == SHADOWED
  {
    ShadowedIsAcceptable();
    CandidatesAreOrdered(revision, SHADOWED, scope);
    ShadowedArePermuted(revision, scope);
    ShadowedAreInOrder(scope);
    Ordering.InOrderIsUnique(Candidates(Compile(revision, SHADOWED), scope), SHADOWED, PrecedesIn(scope));
  }

  lemma {:induction false} FilterKeepsAll(rules: seq<Rule>, keep: Rule -> bool)
    requires forall r <- rules :: keep(r)
    ensures Filter(rules, keep) == rules
  {
    if rules != [] {
      FilterKeepsAll(rules[1..], keep);
      assert rules == [rules[0]] + rules[1..];
    }
  }

  /** In this accepted rule set a probe is planned in every built-in scope, although no error can make a winner act. */
  lemma ProbeCanBeInVain(revision: int, scope: Scope)
    requires ApiCatalog.IsBuiltIn(scope.apiType)
    ensures Acceptable(SHADOWED)
    ensures Plan(Compile(revision, SHADOWED), scope) == Probe
    ensures !ProbeCanHelp(Compile(revision, SHADOWED), scope)
  {
    ShadowedIsAcceptable();
    ShadowedCandidates(revision, scope);
    ExampleIDs();
    Text.TrimmedIffFixed("p");
    ProbeCanHelpIffUnshadowed(revision, SHADOWED, scope, RetryLedger.Key("p", ExampleID('0')));
    assert SHADOWED[1] in SHADOWED;
    Covered(SHADOWED[0], ["k"]);
    assert !NoneCovered(SHADOWED, 1, ["k"]);
  }
}
