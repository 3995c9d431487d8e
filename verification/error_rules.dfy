/**
 Internal-error rules and their compilation into a rule set. Text is ASCII, so a character is
 a byte. Rule identifiers are distinct, generations are distinct, and positions are dense.
 */
module ErrorRules {
  import opened Collections
  import ApiCatalog
  import Text

  const MAX_RULES: nat := 256
  const MAX_NAME_BYTES: nat := 128
  const MAX_KEYWORDS: nat := 16
  const MAX_KEYWORD_BYTES: nat := 128
  const MAX_KEYWORD_BYTES_PER_RULE: nat := 2048
  const MAX_RULE_RETRIES: nat := 1000
  const MAX_MATCHER_BYTES: nat := 8 * 1024 * 1024

  datatype TargetKind = Global | ForProvider | UnknownTarget

  datatype Target = Target(kind: TargetKind, providerID: string)

  datatype Multiplier = Finite(factor: real) | NaN | Infinite

  datatype Backoff = Backoff(initialDelay: int, maxDelay: int, multiplier: Multiplier)

  datatype ActionKind = Passthrough | RetryOnly | RetryThenSwitch | UnknownAction

  datatype VisiblePolicy = Disconnect | Commit | UnknownPolicy

  datatype Action = Action(kind: ActionKind, maxRetries: int, backoff: Backoff, visible: VisiblePolicy)

  datatype MatchMode = Any | All | UnknownMode

  /** An instant counted from the zero time, with the offset of the zone it is written in. */
  datatype Time = Time(instant: int, offset: int)

  datatype Spec = Spec(
    name: string,
    enabled: bool,
    target: Target,
    apiType: Option<string>,
    keywords: seq<string>,
    mode: MatchMode,
    action: Action)

  datatype Rule = Rule(
    id: string,
    generation: string,
    spec: Spec,
    position: int,
    createdAt: Time,
    updatedAt: Time)

  // ---- validation of one rule ----

  predicate IsControl(c: char) {
    c < ' ' || c == 127 as char
  }

  predicate HasControl(s: string) {
    exists c <- s :: IsControl(c)
  }

  predicate IsLowerHex(c: char) {
    '0' <= c <= '9' || 'a' <= c <= 'f'
  }

  /** A canonical lower-case UUID of version 4. */
  predicate IsUUIDv4(s: string) {
    |s| == 36 && s[14] == '4' &&
    forall i :: 0 <= i < 36 ==> if i in {8, 13, 18, 23} then s[i] == '-' else IsLowerHex(s[i])
  }

  predicate ValidProviderID(id: string) {
    id != "" && Text.TrimSpace(id) == id
  }

  predicate ValidTarget(t: Target) {
    match t.kind
    case Global => t.providerID == ""
    case ForProvider => ValidProviderID(t.providerID)
    case UnknownTarget => false
  }

  predicate ValidBackoff(b: Backoff) {
    && b.multiplier.Finite?
    && b.initialDelay >= 0
    && (b.maxDelay > 0 ==> b.initialDelay <= b.maxDelay)
    && (b.multiplier.factor >= 1.0 || b.multiplier.factor == 0.0)
  }

  predicate ValidAction(a: Action) {
    match a.kind
    case Passthrough => a.maxRetries == 0 && a.backoff == Backoff(0, 0, Finite(0.0)) && a.visible == Commit
    case UnknownAction => false
    case _ => !a.visible.UnknownPolicy? && 0 <= a.maxRetries <= MAX_RULE_RETRIES && ValidBackoff(a.backoff)
  }

  /** An enabled rule may be limited only to a built-in contract whose errors are understood. */
  predicate ValidAPIType(s: Spec) {
    s.apiType.None? ||
    if ApiCatalog.IsBuiltIn(s.apiType.value) then s.enabled ==> ApiCatalog.SupportsSemanticErrors(s.apiType.value)
    else ApiCatalog.ParseCustomAPIType(s.apiType.value).Some? && !s.enabled
  }

  predicate NormalForm(keyword: string) {
    keyword == Text.Normalize(keyword)
  }

  predicate ValidKeyword(keyword: string) {
    NormalForm(keyword) && keyword != "" && |keyword| <= MAX_KEYWORD_BYTES && !HasControl(keyword)
  }

  ghost predicate ValidKeywords(keywords: seq<string>) {
    && 1 <= |keywords| <= MAX_KEYWORDS
    && (forall k <- keywords :: ValidKeyword(k))
    && Distinct(keywords)
  }

  function Bytes(keywords: seq<string>): nat {
    if keywords == [] then 0 else Bytes(keywords[..|keywords| - 1]) + |keywords[|keywords| - 1]|
  }

  /** The limit on the keyword bytes of one rule follows from the other limits, so its check never fails. */
  lemma {:induction false} KeywordBytesFit(keywords: seq<string>)
    requires forall k <- keywords :: ValidKeyword(k)
    ensures Bytes(keywords) <= MAX_KEYWORD_BYTES * |keywords|
    ensures |keywords| <= MAX_KEYWORDS ==> Bytes(keywords) <= MAX_KEYWORD_BYTES_PER_RULE
  {
    if keywords != [] {
      var n := |keywords| - 1;
      assert keywords[n] in keywords && forall k <- keywords[..n] :: k in keywords;
      KeywordBytesFit(keywords[..n]);
    }
  }

  /** The keyword loop: it accepts exactly the valid lists, whatever its byte total says. */
  method ValidateKeywords(keywords: seq<string>) returns (ok: bool)
    ensures ok <==> ValidKeywords(keywords)
  {
    if |keywords| == 0 || |keywords| > MAX_KEYWORDS {
      return false;
    }
    var seen: set<string> := {};
    var totalBytes := 0;
    for i := 0 to |keywords|
      invariant forall j :: 0 <= j < i ==> ValidKeyword(keywords[j])
      invariant forall j, k :: 0 <= j < k < i ==> keywords[j] != keywords[k]
      invariant seen == set j | 0 <= j < i :: keywords[j]
      invariant totalBytes == Bytes(keywords[..i])
    {
      assert keywords[..i + 1][..i] == keywords[..i];
      var keyword := keywords[i];
      if keyword != Text.Normalize(keyword) || keyword == "" || |keyword| > MAX_KEYWORD_BYTES || HasControl(keyword) {
        assert !ValidKeyword(keyword) && keyword in keywords;
        return false;
      }
      if keyword in seen {
        return false;
      }
      seen := seen + {keyword};
      totalBytes := totalBytes + |keyword|;
    }
    assert keywords[..|keywords|] == keywords;
    KeywordBytesFit(keywords);
    if totalBytes > MAX_KEYWORD_BYTES_PER_RULE {
      assert false;
    }
    return true;
  }

  ghost predicate ValidSpec(s: Spec) {
    && Text.TrimSpace(s.name) == s.name && 1 <= |s.name| <= MAX_NAME_BYTES && !HasControl(s.name)
    && ValidTarget(s.target)
    && ValidAPIType(s)
    && ValidKeywords(s.keywords)
    && !s.mode.UnknownMode?
    && ValidAction(s.action)
  }

  method ValidateSpec(s: Spec) returns (ok: bool)
    ensures ok <==> ValidSpec(s)
  {
    if Text.TrimSpace(s.name) != s.name || s.name == "" || |s.name| > MAX_NAME_BYTES || HasControl(s.name) {
      return false;
    }
    if !ValidTarget(s.target) || !ValidAPIType(s) {
      return false;
    }
    var keywordsOK := ValidateKeywords(s.keywords);
    return keywordsOK && !s.mode.UnknownMode? && ValidAction(s.action);
  }

  predicate ValidTimes(createdAt: Time, updatedAt: Time) {
    && createdAt.instant != 0 && updatedAt.instant != 0
    && createdAt.instant <= updatedAt.instant
    && createdAt.offset == 0 && updatedAt.offset == 0
  }

  // ---- normalisation of keywords ----

  /** Trimmed, lower-cased, and each kept at its first occurrence only. */
  function Normalized(keywords: seq<string>): seq<string> {
    if keywords == [] then []
    else
      var front, last := Normalized(keywords[..|keywords| - 1]), Text.Normalize(keywords[|keywords| - 1]);
      if last in front then front else front + [last]
  }

  method NormalizeKeywords(keywords: seq<string>) returns (normalized: seq<string>)
    ensures normalized == Normalized(keywords)
  {
    normalized := [];
    var seen: set<string> := {};
    for i := 0 to |keywords|
      invariant normalized == Normalized(keywords[..i])
      invariant seen == set k | k in normalized
    {
      assert keywords[..i + 1][..i] == keywords[..i];
      var keyword := Text.Normalize(keywords[i]);
      if keyword !in seen {
        seen := seen + {keyword};
        normalized := normalized + [keyword];
      }
    }
    assert keywords[..|keywords|] == keywords;
  }

  /** A normalised list holds exactly the normal forms of the given keywords, each once. */
  lemma {:induction false} NormalizedHoldsEachFormOnce(keywords: seq<string>)
    ensures Distinct(Normalized(keywords))
    ensures forall k <- Normalized(keywords) :: NormalForm(k)
    ensures forall i :: 0 <= i < |keywords| ==> Text.Normalize(keywords[i]) in Normalized(keywords)
    ensures forall k <- Normalized(keywords) :: exists i :: 0 <= i < |keywords| && k == Text.Normalize(keywords[i])
  {
    if keywords != [] {
      var n := |keywords| - 1;
      NormalizedHoldsEachFormOnce(keywords[..n]);
      Text.NormalizeIdempotent(keywords[n]);
      assert NormalForm(Text.Normalize(keywords[n]));
      forall i | 0 <= i < |keywords| ensures Text.Normalize(keywords[i]) in Normalized(keywords) {
        if i < n { assert keywords[..n][i] == keywords[i]; }
      }
      forall k <- Normalized(keywords) ensures exists i :: 0 <= i < |keywords| && k == Text.Normalize(keywords[i]) {
        if k in Normalized(keywords[..n]) {
          var i :| 0 <= i < n && k == Text.Normalize(keywords[..n][i]);
          assert k == Text.Normalize(keywords[i]);
        }
      }
    }
  }

  /** So normalising again changes nothing. */
  lemma NormalizedIsStable(keywords: seq<string>)
    ensures Normalized(Normalized(keywords)) == Normalized(keywords)
  {
    NormalizedHoldsEachFormOnce(keywords);
    NormalListIsFixed(Normalized(keywords));
  }

  lemma {:induction false} NormalListIsFixed(keywords: seq<string>)
    requires Distinct(keywords) && forall k <- keywords :: NormalForm(k)
    ensures Normalized(keywords) == keywords
  {
    if keywords != [] {
      var n := |keywords| - 1;
      assert keywords == keywords[..n] + [keywords[n]];
      NormalListIsFixed(keywords[..n]);
      assert NormalForm(keywords[n]);
    }
  }
}
