/**
 Which API contract owns a request, and which path its provider is sent. The code cuts the
 escaped path at its first slashes; the proofs show that it treats the path as the list of its
 decoded segments.
 */
module Routing {
  import opened Collections
  import opened ApiCatalog

  /** Decodes one segment, or fails. */
  type Decoder = string -> Option<string>

  datatype Outcome<T> = Found(value: T) | Missing | Failed

  datatype Cutting = Cutting(before: string, after: string, found: bool)

  /** Cuts at the first slash. */
  function Cut(s: string): (c: Cutting)
    ensures c.found ==> s == c.before + "/" + c.after
    ensures !c.found ==> c.before == s && c.after == ""
    ensures '/' !in c.before
  {
    if s == "" then Cutting("", "", false)
    else if s[0] == '/' then Cutting("", s[1..], true)
    else
      var c := Cut(s[1..]);
      Cutting([s[0]] + c.before, c.after, c.found)
  }

  function Split(s: string): (segments: seq<string>)
    ensures |segments| >= 1
    decreases |s|
  {
    var c := Cut(s);
    if c.found then [c.before] + Split(c.after) else [c.before]
  }

  function Join(segments: seq<string>): string {
    if segments == [] then ""
    else if |segments| == 1 then segments[0]
    else segments[0] + "/" + Join(segments[1..])
  }

  lemma {:induction false} JoinSplit(s: string)
    ensures Join(Split(s)) == s
    decreases |s|
  {
    var c := Cut(s);
    if c.found {
      JoinSplit(c.after);
      assert Split(s)[1..] == Split(c.after);
    }
  }

  lemma {:induction false} CutAtFirst(a: string, rest: string)
    requires '/' !in a
    ensures Cut(a) == Cutting(a, "", false)
    ensures Cut(a + "/" + rest) == Cutting(a, rest, true)
  {
    if a == "" {
      assert (a + "/" + rest)[1..] == rest;
    } else {
      CutAtFirst(a[1..], rest);
      assert (a + "/" + rest)[1..] == a[1..] + "/" + rest;
      assert a == [a[0]] + a[1..];
    }
  }

  lemma {:induction false} SplitJoin(segments: seq<string>)
    requires segments != [] && forall s <- segments :: '/' !in s
    ensures Split(Join(segments)) == segments
  {
    if |segments| == 1 {
      CutAtFirst(segments[0], "");
    } else {
      SplitJoin(segments[1..]);
      CutAtFirst(segments[0], Join(segments[1..]));
    }
  }

  function DecodeAll(raw: seq<string>, decode: Decoder): Option<seq<string>> {
    if raw == [] then Some([])
    else
      var n := |raw| - 1;
      var front, last := DecodeAll(raw[..n], decode), decode(raw[n]);
      if front.None? || last.None? then None else Some(front.value + [last.value])
  }

  /** The segments of a path that starts with a slash. */
  function Segments(path: string, decode: Decoder): Outcome<seq<string>> {
    if !("/" <= path) then Missing
    else
      var segments := DecodeAll(Split(path[1..]), decode);
      if segments.Some? then Found(segments.value) else Failed
  }

  method DecodePathSegments(path: string, decode: Decoder) returns (segments: Outcome<seq<string>>)
    ensures segments == Segments(path, decode)
  {
    if !("/" <= path) {
      return Missing;
    }
    var raw := Split(path[1..]);
    var decoded: seq<string> := [];
    for i := 0 to |raw|
      invariant DecodeAll(raw[..i], decode) == Some(decoded)
    {
      assert raw[..i + 1][..i] == raw[..i];
      var segment := decode(raw[i]);
      if segment.None? {
        DecodeStaysFailed(raw, i + 1, decode);
        return Failed;
      }
      decoded := decoded + [segment.value];
    }
    assert raw[..|raw|] == raw;
    return Found(decoded);
  }

  lemma {:induction false} DecodeStaysFailed(raw: seq<string>, i: nat, decode: Decoder)
    requires i <= |raw| && DecodeAll(raw[..i], decode).None?
    ensures DecodeAll(raw, decode).None?
    decreases |raw| - i
  {
    if i < |raw| {
      assert raw[..i + 1][..i] == raw[..i];
      DecodeStaysFailed(raw, i + 1, decode);
    } else {
      assert raw[..i] == raw;
    }
  }

  lemma {:induction false} DecodeAt(raw: seq<string>, decode: Decoder)
    ensures DecodeAll(raw, decode).Some? <==> forall i :: 0 <= i < |raw| ==> decode(raw[i]).Some?
    ensures DecodeAll(raw, decode).Some? ==>
              |DecodeAll(raw, decode).value| == |raw| &&
              forall i :: 0 <= i < |raw| ==> decode(raw[i]) == Some(DecodeAll(raw, decode).value[i])
  {
    if raw != [] {
      var n := |raw| - 1;
      DecodeAt(raw[..n], decode);
      assert forall i :: 0 <= i < n ==> raw[..n][i] == raw[i];
    }
  }

  function Plain(): Decoder {
    s => Some(s)
  }

  // ---- matching the route table ----

  predicate MethodMatches(route: Method, request: Method) {
    route == request || (route == Get && request == Head)
  }

  function Pattern(r: Route): string {
    "/" + Join(r.segments)
  }

  /** A pattern is a path: its segments hold no slash. */
  predicate Clean(r: Route) {
    r.segments != [] && forall s <- r.segments :: '/' !in s
  }

  /** Splitting a pattern gives back the segments it is written with. */
  lemma PatternSplits(r: Route)
    requires Clean(r)
    ensures Pattern(r)[1..] == Join(r.segments) && Split(Pattern(r)[1..]) == r.segments
  {
    SplitJoin(r.segments);
    assert Pattern(r)[1..] == Join(r.segments);
  }

  /** An exact route owns its own segments; a prefix route those with more after its last slash. */
  predicate SegmentsMatch(segments: seq<string>, pattern: seq<string>, isPrefix: bool)
    requires pattern != []
  {
    if isPrefix then |segments| >= |pattern| && segments[..|pattern| - 1] == pattern[..|pattern| - 1]
    else segments == pattern
  }

  /** None is a decoding failure. */
  function PathMatches(path: string, r: Route, decode: Decoder): Option<bool> {
    match Segments(path, decode)
    case Failed => None
    case Missing => Some(false)
    case Found(segments) =>
      if r.isPrefix && Pattern(r)[|Pattern(r)| - 1] != '/' then Some(false)
      else Some(SegmentsMatch(segments, Split(Pattern(r)[1..]), r.isPrefix))
  }

  method MatchPath(path: string, r: Route, decode: Decoder) returns (matched: Option<bool>)
    ensures matched == PathMatches(path, r, decode)
  {
    var segments := DecodePathSegments(path, decode);
    if segments.Failed? {
      return None;
    }
    if segments.Missing? {
      return Some(false);
    }
    var pattern := Split(Pattern(r)[1..]);
    var compared := |pattern|;
    if r.isPrefix {
      if Pattern(r)[|Pattern(r)| - 1] != '/' {
        return Some(false);
      }
      compared := compared - 1;
      if |segments.value| < |pattern| {
        return Some(false);
      }
    } else if |segments.value| != |pattern| {
      return Some(false);
    }
    for i := 0 to compared
      invariant forall j :: 0 <= j < i ==> segments.value[j] == pattern[j]
    {
      if segments.value[i] != pattern[i] {
        assert r.isPrefix ==> segments.value[..compared][i] != pattern[..compared][i];
        return Some(false);
      }
    }
    assert segments.value[..compared] == pattern[..compared];
    assert !r.isPrefix ==> segments.value == pattern;
    return Some(true);
  }

  function RouteMatches(r: Route, verb: Method, path: string, decode: Decoder): Option<bool> {
    if !MethodMatches(r.verb, verb) then Some(false) else PathMatches(path, r, decode)
  }

  function RoutesMatch(routes: seq<Route>, verb: Method, path: string, decode: Decoder): Option<bool> {
    if routes == [] then Some(false)
    else
      var first := RouteMatches(routes[0], verb, path, decode);
      if first == Some(false) then RoutesMatch(routes[1..], verb, path, decode) else first
  }

  function SearchTable(definitions: seq<Definition>, verb: Method, path: string, decode: Decoder): Outcome<string> {
    if definitions == [] then Missing
    else
      var first := RoutesMatch(definitions[0].routes, verb, path, decode);
      if first.None? then Failed
      else if first.value then Found(definitions[0].apiType)
      else SearchTable(definitions[1..], verb, path, decode)
  }

  function NamespaceIn(definitions: seq<Definition>, namespace: string): Option<string> {
    if definitions == [] then None
    else if definitions[0].namespace == namespace then Some(definitions[0].apiType)
    else NamespaceIn(definitions[1..], namespace)
  }

  /** The contract named by the first segment, and the path below it. */
  function SplitNamespace(path: string, decode: Decoder): Outcome<(string, string)> {
    if !("/" <= path) then Missing
    else
      var c := Cut(path[1..]);
      if !c.found then Missing
      else if decode(c.before).None? then Failed
      else
        var apiType := NamespaceIn(DEFINITIONS, decode(c.before).value);
        if apiType.Some? then Found((apiType.value, "/" + c.after)) else Missing
  }

  function ResolveCustom(path: string, decode: Decoder): Outcome<string> {
    if !("/" <= path) then Missing
    else
      var c := Cut(path[1..]);
      if !c.found then Missing
      else if decode(c.before).None? then Failed
      else if decode(c.before).value != "custom" then Missing
      else
        var tool := decode(Cut(c.after).before);
        if tool.None? then Failed
        else
          var apiType := CUSTOM_PREFIX + tool.value;
          if ParseCustomAPIType(apiType).Some? then Found(apiType) else Missing
  }

  function Resolve(verb: Method, path: string, decode: Decoder): Outcome<string> {
    var named := SplitNamespace(path, decode);
    if named.Failed? then Failed
    else if named.Found? then Found(named.value.0)
    else
      var bare := SearchTable(DEFINITIONS, verb, path, decode);
      if bare.Missing? then ResolveCustom(path, decode) else bare
  }

  method ResolveRequest(verb: Method, path: string, decode: Decoder) returns (apiType: Outcome<string>)
    ensures apiType == Resolve(verb, path, decode)
  {
    var named := SplitNamespace(path, decode);
    if named.Failed? {
      return Failed;
    }
    if named.Found? {
      return Found(named.value.0);
    }
    for i := 0 to |DEFINITIONS|
      invariant SearchTable(DEFINITIONS, verb, path, decode) == SearchTable(DEFINITIONS[i..], verb, path, decode)
    {
      var routes := DEFINITIONS[i].routes;
      for j := 0 to |routes|
        invariant RoutesMatch(routes, verb, path, decode) == RoutesMatch(routes[j..], verb, path, decode)
      {
        var matched := if MethodMatches(routes[j].verb, verb) then PathMatches(path, routes[j], decode) else Some(false);
        assert routes[j..][0] == routes[j] && routes[j..][1..] == routes[j + 1..];
        if matched.None? {
          return Failed;
        }
        if matched.value {
          return Found(DEFINITIONS[i].apiType);
        }
      }
      assert DEFINITIONS[i..][0] == DEFINITIONS[i] && DEFINITIONS[i..][1..] == DEFINITIONS[i + 1..];
    }
    return ResolveCustom(path, decode);
  }

  // ---- ownership as a property of the decoded segments ----

  predicate RouteOwns(r: Route, verb: Method, segments: seq<string>) {
    Clean(r) && MethodMatches(r.verb, verb) && SegmentsMatch(segments, r.segments, r.isPrefix)
  }

  /**
   A route of the table owns requests with its own method, or with HEAD where it is for GET. An
   exact route owns its own segments only; a prefix route exactly those that begin with its own
   up to its last slash and go on after it.
   */
  lemma RouteOwnsMeaning(d: Definition, r: Route, verb: Method, segments: seq<string>)
    requires d in DEFINITIONS && r in d.routes
    ensures r.segments != []
    ensures RouteOwns(r, verb, segments) <==>
            && (verb == r.verb || (verb == Head && r.verb == Get))
            && if r.isPrefix then r.segments[..|r.segments| - 1] < segments else segments == r.segments
  {
    TableFacts(d, r);
  }

  predicate NamespaceOwns(d: Definition, segments: seq<string>) {
    |segments| >= 2 && segments[0] == d.namespace
  }

  predicate CustomOwns(apiType: string, segments: seq<string>) {
    |segments| >= 2 && segments[0] == "custom" && ValidTool(segments[1]) && apiType == CUSTOM_PREFIX + segments[1]
  }

  /** The contract owns the request by its namespace, by a root-level route, or as a custom tool. */
  ghost predicate Owns(apiType: string, verb: Method, segments: seq<string>) {
    || (exists d <- DEFINITIONS :: d.apiType == apiType && NamespaceOwns(d, segments))
    || (exists d <- DEFINITIONS :: d.apiType == apiType && exists r <- d.routes :: RouteOwns(r, verb, segments))
    || CustomOwns(apiType, segments)
  }

  /** Who owns root-level paths, read off their first two segments. */
  function Family(segments: seq<string>): string {
    if segments == [] then ""
    else
      var s := if segments[0] == "v1" && |segments| > 1 then segments[1] else segments[0];
      if segments[0] == "v1" && (s == "messages" || s == "models") then "claude"
      else if s == "responses" || s == "alpha" then "codex"
      else if segments[0] == "v1beta" then "gemini"
      else if s == "chat" then "grok"
      else ""
  }

  /** A prefix route is one whose pattern ends in a slash, and it says enough to know its family. */
  predicate WellWritten(r: Route) {
    && Clean(r)
    && (r.isPrefix ==> r.segments[|r.segments| - 1] == "" && |r.segments| >= if r.segments[0] == "v1" then 3 else 2)
  }

  lemma CodexFacts(r: Route)
    requires r in CODEX.routes
    ensures WellWritten(r) && Family(r.segments) == "codex"
  {
  }

  lemma TableFacts(d: Definition, r: Route)
    requires d in DEFINITIONS && r in d.routes
    ensures WellWritten(r) && Family(r.segments) == d.apiType
  {
    if d == CODEX { CodexFacts(r); }
  }

  lemma MatchedHasPatternsFamily(segments: seq<string>, pattern: seq<string>, isPrefix: bool)
    requires pattern != [] && SegmentsMatch(segments, pattern, isPrefix)
    requires isPrefix ==> |pattern| >= if pattern[0] == "v1" then 3 else 2
    ensures Family(segments) == Family(pattern)
  {
    if isPrefix {
      var n := |pattern| - 1;
      assert segments[..n][0] == pattern[..n][0];
      if n > 1 { assert segments[..n][1] == pattern[..n][1]; }
    }
  }

  lemma RouteDecidesFamily(d: Definition, r: Route, verb: Method, segments: seq<string>)
    requires d in DEFINITIONS && r in d.routes && RouteOwns(r, verb, segments)
    ensures Family(segments) == d.apiType
  {
    TableFacts(d, r);
    MatchedHasPatternsFamily(segments, r.segments, r.isPrefix);
  }

  lemma NamespacesAreTypes(d: Definition)
    requires d in DEFINITIONS
    ensures d.namespace == d.apiType && d.namespace != "custom"
    ensures forall segments: seq<string> :: segments != [] && segments[0] == d.namespace ==> Family(segments) == ""
  {
    assert d == CLAUDE || d == DEEPSEEK_CLAUDE || d == CODEX || d == GEMINI || d == GROK || d == DEEPSEEK_OPENAI;
  }

  lemma {:induction false} NamespaceInMeaning(definitions: seq<Definition>, namespace: string)
    requires forall d <- definitions :: d.namespace == d.apiType
    ensures NamespaceIn(definitions, namespace) ==
            if exists d <- definitions :: d.namespace == namespace then Some(namespace) else None
  {
    if definitions != [] {
      NamespaceInMeaning(definitions[1..], namespace);
      assert definitions == [definitions[0]] + definitions[1..];
    }
  }

  predicate IsNamespace(s: string) {
    exists d <- DEFINITIONS :: d.namespace == s
  }

  predicate TableOwns(apiType: string, verb: Method, segments: seq<string>) {
    exists d <- DEFINITIONS :: d.apiType == apiType && exists r <- d.routes :: RouteOwns(r, verb, segments)
  }

  lemma NamespaceIsNoFamily(s: string, segments: seq<string>)
    requires IsNamespace(s) && segments != [] && segments[0] == s
    ensures s != "custom" && Family(segments) == ""
  {
    var d :| d in DEFINITIONS && d.namespace == s;
    NamespacesAreTypes(d);
  }

  /** Who owns the segments, if anyone does: the namespace, the custom tool, or the family. */
  function Candidate(segments: seq<string>): string {
    if |segments| >= 2 && IsNamespace(segments[0]) then segments[0]
    else if |segments| >= 2 && segments[0] == "custom" then CUSTOM_PREFIX + segments[1]
    else Family(segments)
  }

  lemma RouteOwnerIsCandidate(d: Definition, r: Route, verb: Method, segments: seq<string>)
    requires d in DEFINITIONS && r in d.routes && RouteOwns(r, verb, segments)
    ensures d.apiType == Candidate(segments) && d.apiType == Family(segments) != ""
  {
    RouteDecidesFamily(d, r, verb, segments);
    FamilyIsNamed(d, r);
    if |segments| >= 2 && IsNamespace(segments[0]) { NamespaceIsNoFamily(segments[0], segments); }
  }

  lemma FamilyIsNamed(d: Definition, r: Route)
    requires d in DEFINITIONS && r in d.routes
    ensures d.apiType != ""
  {
  }

  lemma NamespaceOwnerIsCandidate(d: Definition, segments: seq<string>)
    requires d in DEFINITIONS && NamespaceOwns(d, segments)
    ensures d.apiType == Candidate(segments) && IsNamespace(segments[0])
  {
    NamespacesAreTypes(d);
  }

  lemma CustomOwnerIsCandidate(apiType: string, segments: seq<string>)
    requires CustomOwns(apiType, segments)
    ensures apiType == Candidate(segments) && !IsNamespace(segments[0]) && Family(segments) == ""
  {
    if IsNamespace("custom") { NamespaceIsNoFamily("custom", segments); }
  }

  lemma OwnerIsCandidate(apiType: string, verb: Method, segments: seq<string>)
    requires Owns(apiType, verb, segments)
    ensures apiType == Candidate(segments)
  {
    if d :| d in DEFINITIONS && d.apiType == apiType && NamespaceOwns(d, segments) {
      NamespaceOwnerIsCandidate(d, segments);
    } else if TableOwns(apiType, verb, segments) {
      var d :| d in DEFINITIONS && d.apiType == apiType && exists r <- d.routes :: RouteOwns(r, verb, segments);
      var r :| r in d.routes && RouteOwns(r, verb, segments);
      RouteOwnerIsCandidate(d, r, verb, segments);
    } else {
      CustomOwnerIsCandidate(apiType, segments);
    }
  }

  /** At most one contract owns a request. */
  lemma OwnerIsUnique(a: string, b: string, verb: Method, segments: seq<string>)
    requires Owns(a, verb, segments) && Owns(b, verb, segments)
    ensures a == b
  {
    OwnerIsCandidate(a, verb, segments);
    OwnerIsCandidate(b, verb, segments);
  }

  // ---- resolution finds the owner ----

  /** What the first cuts of a path see of its segments. */
  lemma CutsAreSegments(s: string)
    ensures var raw := Split(s);
            && (Cut(s).found <==> |raw| >= 2)
            && Cut(s).before == raw[0]
            && (Cut(s).found ==> Split(Cut(s).after) == raw[1..] && Cut(s).after == Join(raw[1..]))
            && s == Join(raw)
  {
    JoinSplit(s);
    if Cut(s).found { JoinSplit(Cut(s).after); }
  }

  lemma {:induction false} RoutesMatchMeaning(routes: seq<Route>, verb: Method, path: string, decode: Decoder)
    requires Segments(path, decode).Found? && forall r <- routes :: WellWritten(r)
    ensures RoutesMatch(routes, verb, path, decode) ==
            Some(exists r <- routes :: RouteOwns(r, verb, Segments(path, decode).value))
  {
    if routes != [] {
      RoutesMatchMeaning(routes[1..], verb, path, decode);
      assert routes == [routes[0]] + routes[1..];
      RouteMatchMeaning(routes[0], verb, path, decode);
    }
  }

  lemma RouteMatchMeaning(r: Route, verb: Method, path: string, decode: Decoder)
    requires Segments(path, decode).Found? && WellWritten(r)
    ensures RouteMatches(r, verb, path, decode) == Some(RouteOwns(r, verb, Segments(path, decode).value))
  {
    PatternIsWhatItSays(r);
  }

  lemma PatternIsWhatItSays(r: Route)
    requires WellWritten(r)
    ensures Split(Pattern(r)[1..]) == r.segments
    ensures r.isPrefix ==> Pattern(r)[|Pattern(r)| - 1] == '/'
  {
    PatternSplits(r);
    if r.isPrefix {
      EndsInSlash(r.segments);
      var body, pattern := Join(r.segments), Pattern(r);
      assert pattern[|pattern| - 1] == body[|body| - 1] == '/';
    }
  }

  lemma {:induction false} EndsInSlash(segments: seq<string>)
    requires |segments| >= 2 && segments[|segments| - 1] == ""
    ensures Join(segments) != "" && Join(segments)[|Join(segments)| - 1] == '/'
  {
    if |segments| > 2 { EndsInSlash(segments[1..]); }
  }

  lemma {:induction false} SearchTableMeaning(definitions: seq<Definition>, verb: Method, path: string, decode: Decoder)
    requires Segments(path, decode).Found?
    requires forall d <- definitions :: forall r <- d.routes :: WellWritten(r)
    ensures var segments, found := Segments(path, decode).value, SearchTable(definitions, verb, path, decode);
            match found
            case Failed => false
            case Missing => forall d <- definitions :: !(exists r <- d.routes :: RouteOwns(r, verb, segments))
            case Found(a) => exists d <- definitions :: d.apiType == a && exists r <- d.routes :: RouteOwns(r, verb, segments)
  {
    if definitions != [] {
      var first := definitions[0];
      assert first in definitions;
      RoutesMatchMeaning(first.routes, verb, path, decode);
      assert definitions == [first] + definitions[1..];
      SearchTableMeaning(definitions[1..], verb, path, decode);
    }
  }

  lemma DecodedSegments(path: string, decode: Decoder)
    requires Segments(path, decode).Found?
    ensures "/" <= path
    ensures var raw, segments := Split(path[1..]), Segments(path, decode).value;
            |segments| == |raw| && forall i :: 0 <= i < |raw| ==> decode(raw[i]) == Some(segments[i])
  {
    DecodeAt(Split(path[1..]), decode);
  }

  lemma SplitNamespaceMeaning(path: string, decode: Decoder)
    requires Segments(path, decode).Found?
    ensures var segments := Segments(path, decode).value;
            SplitNamespace(path, decode) ==
            if |segments| >= 2 && IsNamespace(segments[0]) then Found((segments[0], "/" + Join(Split(path[1..])[1..])))
            else Missing
  {
    DecodedSegments(path, decode);
    CutsAreSegments(path[1..]);
    forall d <- DEFINITIONS ensures d.namespace == d.apiType { NamespacesAreTypes(d); }
    var segments := Segments(path, decode).value;
    NamespaceInMeaning(DEFINITIONS, segments[0]);
  }

  lemma ParseCustomMeaning(tool: string)
    ensures ParseCustomAPIType(CUSTOM_PREFIX + tool) == if ValidTool(tool) then Some(tool) else None
  {
    assert (CUSTOM_PREFIX + tool)[|CUSTOM_PREFIX|..] == tool;
  }

  lemma ResolveCustomMeaning(path: string, decode: Decoder)
    requires Segments(path, decode).Found?
    ensures var segments := Segments(path, decode).value;
            ResolveCustom(path, decode) ==
            if |segments| >= 2 && segments[0] == "custom" && ValidTool(segments[1]) then Found(CUSTOM_PREFIX + segments[1])
            else Missing
  {
    DecodedSegments(path, decode);
    CutsAreSegments(path[1..]);
    var c := Cut(path[1..]);
    if c.found {
      CutsAreSegments(c.after);
      ParseCustomMeaning(Segments(path, decode).value[1]);
    }
  }

  lemma TableSearchMeaning(verb: Method, path: string, decode: Decoder)
    requires Segments(path, decode).Found?
    ensures var segments, found := Segments(path, decode).value, SearchTable(DEFINITIONS, verb, path, decode);
            match found
            case Failed => false
            case Missing => forall a :: !TableOwns(a, verb, segments)
            case Found(a) => TableOwns(a, verb, segments)
  {
    forall d, r | d in DEFINITIONS && r in d.routes ensures WellWritten(r) { TableFacts(d, r); }
    SearchTableMeaning(DEFINITIONS, verb, path, decode);
  }

  ghost predicate NamespaceOwned(apiType: string, segments: seq<string>) {
    exists d <- DEFINITIONS :: d.apiType == apiType && NamespaceOwns(d, segments)
  }

  lemma NamespaceOwnedMeaning(apiType: string, segments: seq<string>)
    ensures NamespaceOwned(apiType, segments) <==> |segments| >= 2 && IsNamespace(segments[0]) && apiType == segments[0]
  {
    forall d <- DEFINITIONS ensures d.namespace == d.apiType { NamespacesAreTypes(d); }
  }

  /**
   For a path whose segments all decode, resolution never fails, and it finds an API exactly
   when that API owns the method and the decoded segments.
   */
  lemma ResolveFindsTheOwner(verb: Method, path: string, decode: Decoder, apiType: string)
    requires Segments(path, decode).Found?
    ensures !Resolve(verb, path, decode).Failed?
    ensures Resolve(verb, path, decode) == Found(apiType) <==> Owns(apiType, verb, Segments(path, decode).value)
  {
    var segments := Segments(path, decode).value;
    SplitNamespaceMeaning(path, decode);
    ResolveCustomMeaning(path, decode);
    TableSearchMeaning(verb, path, decode);
    NamespaceOwnedMeaning(apiType, segments);
    OwnsMeans(apiType, verb, segments);
    var found := Resolve(verb, path, decode);
    if found.Found? {
      NamespaceOwnedMeaning(found.value, segments);
      OwnsMeans(found.value, verb, segments);
      if Owns(apiType, verb, segments) { OwnerIsUnique(apiType, found.value, verb, segments); }
    }
  }

  lemma OwnsMeans(apiType: string, verb: Method, segments: seq<string>)
    ensures Owns(apiType, verb, segments) <==>
            NamespaceOwned(apiType, segments) || TableOwns(apiType, verb, segments) || CustomOwns(apiType, segments)
  {
  }

  /** Ownership depends only on the method and the decoded segments, however they were spelled or decoded. */
  lemma OwnershipDependsOnSegments(verb: Method, path: string, decode: Decoder, other: string, otherDecode: Decoder)
    requires Segments(path, decode).Found? && Segments(path, decode) == Segments(other, otherDecode)
    ensures Resolve(verb, path, decode) == Resolve(verb, other, otherDecode)
  {
    var a, b := Resolve(verb, path, decode), Resolve(verb, other, otherDecode);
    if a.Found? {
      ResolveFindsTheOwner(verb, path, decode, a.value);
      ResolveFindsTheOwner(verb, other, otherDecode, a.value);
    } else {
      ResolveFindsTheOwner(verb, path, decode, "");
      ResolveFindsTheOwner(verb, other, otherDecode, "");
      if b.Found? {
        ResolveFindsTheOwner(verb, path, decode, b.value);
        ResolveFindsTheOwner(verb, other, otherDecode, b.value);
      }
    }
  }

  // ---- rewriting for the provider ----

  /** None is a decoding failure; the flag tells whether the namespace was there. */
  function StripNamespace(path: string, namespace: string, decode: Decoder): Option<(string, bool)> {
    if !("/" <= path) then Some((path, false))
    else
      var c := Cut(path[1..]);
      if !c.found then Some((path, false))
      else if decode(c.before).None? then None
      else if decode(c.before).value != namespace then Some((path, false))
      else Some(("/" + c.after, true))
  }

  function StripCustom(path: string, tool: string, decode: Decoder): Option<(string, bool)> {
    if !("/" <= path) then Some((path, false))
    else
      var c := Cut(path[1..]);
      if !c.found then Some((path, false))
      else
        var t := Cut(c.after);
        if decode(c.before).None? || decode(t.before).None? then None
        else if decode(c.before).value != "custom" || decode(t.before).value != tool then Some((path, false))
        else if !t.found then Some(("/", true))
        else Some(("/" + t.after, true))
  }

  function TrimOptionalV1(path: string, decode: Decoder): Option<string> {
    if !("/" <= path) then Some(path)
    else
      var c := Cut(path[1..]);
      if decode(c.before).None? then None
      else if decode(c.before).value != "v1" then Some(path)
      else if !c.found then Some("/")
      else Some("/" + c.after)
  }

  function Rewrite(path: string, apiType: string, decode: Decoder): Option<string> {
    var d := Lookup(apiType);
    if d.Some? then
      var stripped := StripNamespace(path, d.value.namespace, decode);
      if stripped.None? then None
      else if d.value.policy == StripOptionalV1 then TrimOptionalV1(stripped.value.0, decode)
      else Some(stripped.value.0)
    else
      var tool := ParseCustomAPIType(apiType);
      if tool.None? then Some(path)
      else
        var stripped := StripCustom(path, tool.value, decode);
        if stripped.None? then None else Some(stripped.value.0)
  }

  datatype RequestRoute = RequestRoute(apiType: string, upstream: string, webSocket: bool)

  function ResolveURL(verb: Method, escapedPath: string, decode: Decoder): Option<RequestRoute> {
    var apiType := Resolve(verb, escapedPath, decode);
    if !apiType.Found? then None
    else
      var upstream := Rewrite(escapedPath, apiType.value, decode);
      if upstream.None? then None
      else
        var onlyWebSocket := PathMatches(upstream.value, Route(Get, ["responses"], false), decode);
        if onlyWebSocket.None? then None
        else Some(RequestRoute(apiType.value, upstream.value, verb == Get && apiType.value == "codex" && onlyWebSocket.value))
  }

  /** How many leading segments name the owner. */
  function NamespaceLength(apiType: string, segments: seq<string>): nat {
    if Lookup(apiType).Some? then
      if |segments| >= 2 && segments[0] == Lookup(apiType).value.namespace then 1 else 0
    else if |segments| >= 2 then 2 else 0
  }

  /** How many leading segments the provider is not sent: the owner's, and a v1 after them where the policy says so. */
  function DroppedLength(apiType: string, segments: seq<string>): (n: nat)
    ensures n <= |segments|
  {
    var n := NamespaceLength(apiType, segments);
    if Lookup(apiType).Some? && Lookup(apiType).value.policy == StripOptionalV1 && n < |segments| && segments[n] == "v1"
    then n + 1 else n
  }

  lemma StripNamespaceMeaning(path: string, namespace: string, decode: Decoder)
    requires Segments(path, decode).Found?
    ensures var raw, segments := Split(path[1..]), Segments(path, decode).value;
            StripNamespace(path, namespace, decode) ==
            if |segments| >= 2 && segments[0] == namespace then Some(("/" + Join(raw[1..]), true)) else Some((path, false))
  {
    DecodedSegments(path, decode);
    CutsAreSegments(path[1..]);
  }

  lemma TrimMeaning(raw: seq<string>, decode: Decoder)
    requires raw != [] && decode(raw[0]).Some? && Split(Join(raw)) == raw
    ensures TrimOptionalV1("/" + Join(raw), decode) ==
            Some("/" + Join(if decode(raw[0]).value == "v1" then raw[1..] else raw))
  {
    var path := "/" + Join(raw);
    assert path[1..] == Join(raw);
    CutsAreSegments(path[1..]);
    if |raw| == 1 { assert raw[1..] == [] && "/" + Join([]) == "/"; }
  }

  lemma StripCustomMeaning(path: string, tool: string, decode: Decoder)
    requires Segments(path, decode).Found?
    requires var segments := Segments(path, decode).value; |segments| >= 2 && segments[0] == "custom" && segments[1] == tool
    ensures |Split(path[1..])| >= 2
    ensures StripCustom(path, tool, decode) == Some(("/" + Join(Split(path[1..])[2..]), true))
  {
    DecodedSegments(path, decode);
    CutsAreSegments(path[1..]);
    var c := Cut(path[1..]);
    CutsAreSegments(c.after);
    assert Split(path[1..])[1..][1..] == Split(path[1..])[2..];
    if !Cut(c.after).found { assert Split(path[1..])[2..] == [] && "/" + Join([]) == "/"; }
  }

  /** Leaving off leading segments leaves the rest of the path byte for byte. */
  lemma {:induction false} SuffixSplits(s: string, k: nat)
    requires k < |Split(s)|
    ensures Split(Join(Split(s)[k..])) == Split(s)[k..]
    decreases |s|
  {
    CutsAreSegments(s);
    if k > 0 {
      var c := Cut(s);
      SuffixSplits(c.after, k - 1);
      assert Split(s)[1..][k - 1..] == Split(s)[k..];
    } else {
      assert Split(s)[0..] == Split(s);
    }
  }

  /** In the table a contract is found by its own name. */
  lemma LookupMeaning(apiType: string)
    ensures Lookup(apiType).Some? <==> IsNamespace(apiType)
    ensures Lookup(apiType).Some? ==> Lookup(apiType).value in DEFINITIONS && Lookup(apiType).value.apiType == apiType
    ensures Lookup(apiType).Some? ==> Lookup(apiType).value.namespace == apiType
  {
    LookupInMeaning(DEFINITIONS, apiType);
    forall d <- DEFINITIONS ensures d.namespace == d.apiType { NamespacesAreTypes(d); }
  }

  lemma {:induction false} LookupInMeaning(definitions: seq<Definition>, apiType: string)
    ensures LookupIn(definitions, apiType).Some? <==> exists d <- definitions :: d.apiType == apiType
    ensures LookupIn(definitions, apiType).Some? ==>
              LookupIn(definitions, apiType).value in definitions && LookupIn(definitions, apiType).value.apiType == apiType
  {
    if definitions != [] {
      LookupInMeaning(definitions[1..], apiType);
      assert definitions == [definitions[0]] + definitions[1..];
    }
  }

  /**
   The rewrite agrees with ownership: for its owner's API, a well-formed path loses exactly the
   owner's namespace segments and at most one v1 segment where the policy says so. The rest
   keeps its bytes.
   */
  lemma RewriteDropsTheOwnersSegments(verb: Method, path: string, decode: Decoder)
    requires Segments(path, decode).Found? && Resolve(verb, path, decode).Found?
    ensures var apiType, segments := Resolve(verb, path, decode).value, Segments(path, decode).value;
            |segments| == |Split(path[1..])| &&
            Rewrite(path, apiType, decode) == Some("/" + Join(Split(path[1..])[DroppedLength(apiType, segments)..]))
  {
    var apiType, segments := Resolve(verb, path, decode).value, Segments(path, decode).value;
    DecodedSegments(path, decode);
    ResolveFindsTheOwner(verb, path, decode, apiType);
    OwnsMeans(apiType, verb, segments);
    if Lookup(apiType).Some? {
      RewriteBuiltIn(path, apiType, decode);
    } else {
      LookupMeaning(apiType);
      OwnedElsewhere(apiType, verb, segments);
      var tool := segments[1];
      ParseCustomMeaning(tool);
      StripCustomMeaning(path, tool, decode);
    }
  }

  /** An owner outside the table owns by the custom namespace. */
  lemma OwnedElsewhere(apiType: string, verb: Method, segments: seq<string>)
    requires Owns(apiType, verb, segments) && !IsNamespace(apiType)
    ensures CustomOwns(apiType, segments)
  {
    forall d <- DEFINITIONS ensures d.apiType != apiType { NamespacesAreTypes(d); }
  }

  lemma RewriteBuiltIn(path: string, apiType: string, decode: Decoder)
    requires Segments(path, decode).Found? && Lookup(apiType).Some?
    ensures |Segments(path, decode).value| == |Split(path[1..])|
    ensures Rewrite(path, apiType, decode) ==
            Some("/" + Join(Split(path[1..])[DroppedLength(apiType, Segments(path, decode).value)..]))
  {
    var d, raw, segments := Lookup(apiType).value, Split(path[1..]), Segments(path, decode).value;
    DecodedSegments(path, decode);
    StripNamespaceMeaning(path, d.namespace, decode);
    CutsAreSegments(path[1..]);
    assert path == "/" + path[1..];
    assert raw[0..] == raw;
    var n := NamespaceLength(apiType, segments);
    assert StripNamespace(path, d.namespace, decode).value.0 == "/" + Join(raw[n..]);
    SuffixSplits(path[1..], n);
    TrimMeaning(raw[n..], decode);
    assert raw[n..][1..] == raw[n + 1..];
  }

  // ---- percent-encoding ----

  predicate IsHex(c: char) {
    '0' <= c <= '9' || 'a' <= c <= 'f' || 'A' <= c <= 'F'
  }

  function HexValue(c: char): nat
    requires IsHex(c)
  {
    if c <= '9' then (c - '0') as nat else if c <= 'F' then (c - 'A') as nat + 10 else (c - 'a') as nat + 10
  }

  /** Percent-decoding of one path segment, byte by byte; a malformed escape is a failure. */
  function PathUnescape(s: string): Option<string> {
    if s == "" then Some("")
    else if s[0] != '%' then
      var rest := PathUnescape(s[1..]);
      if rest.None? then None else Some([s[0]] + rest.value)
    else if |s| < 3 || !IsHex(s[1]) || !IsHex(s[2]) then None
    else
      var rest := PathUnescape(s[3..]);
      if rest.None? then None else Some([(16 * HexValue(s[1]) + HexValue(s[2])) as char] + rest.value)
  }

  lemma {:induction false} NothingToUnescape(s: string)
    requires '%' !in s
    ensures PathUnescape(s) == Some(s)
  {
    if s != "" {
      NothingToUnescape(s[1..]);
      assert s == [s[0]] + s[1..];
    }
  }

  lemma {:induction false} SegmentsComeFromThePath(s: string)
    requires '%' !in s
    ensures forall segment <- Split(s) :: '%' !in segment
    decreases |s|
  {
    var c := Cut(s);
    if c.found {
      assert forall x <- c.before :: x in s;
      assert forall x <- c.after :: x in s;
      SegmentsComeFromThePath(c.after);
    }
  }

  /** A path without escapes is routed by its raw segments, whether or not they are decoded. */
  lemma PlainPathsAreRoutedByTheirRawSegments(verb: Method, path: string)
    requires "/" <= path && '%' !in path
    ensures Segments(path, PathUnescape) == Segments(path, Plain()) == Found(Split(path[1..]))
    ensures Resolve(verb, path, PathUnescape) == Resolve(verb, path, Plain())
  {
    var raw := Split(path[1..]);
    SegmentsComeFromThePath(path[1..]);
    forall i | 0 <= i < |raw| ensures PathUnescape(raw[i]) == Some(raw[i]) {
      assert raw[i] in raw;
      NothingToUnescape(raw[i]);
    }
    DecodeIs(raw, raw, PathUnescape);
    DecodeIs(raw, raw, Plain());
    OwnershipDependsOnSegments(verb, path, PathUnescape, path, Plain());
  }

  /**
   The whole interpretation of a well-formed escaped path: it is routed exactly to its owner,
   the upstream path drops the owner's segments, and only the Codex responses endpoint, asked
   for with GET, demands a WebSocket.
   */
  lemma WellFormedPathsAreRoutedToTheirOwner(verb: Method, path: string, apiType: string)
    requires Segments(path, PathUnescape).Found?
    ensures var segments, route := Segments(path, PathUnescape).value, ResolveURL(verb, path, PathUnescape);
            && |segments| == |Split(path[1..])|
            && ((route.Some? && route.value.apiType == apiType) <==> Owns(apiType, verb, segments))
            && (Owns(apiType, verb, segments) ==>
                  var n := DroppedLength(apiType, segments);
                  && route.value.upstream == "/" + Join(Split(path[1..])[n..])
                  && (route.value.webSocket <==> verb == Get && apiType == "codex" && segments[n..] == ["responses"]))
  {
    DecodedSegments(path, PathUnescape);
    ResolveFindsTheOwner(verb, path, PathUnescape, apiType);
    if Resolve(verb, path, PathUnescape).Found? { RouteOfOwner(verb, path); }
  }

  lemma RouteOfOwner(verb: Method, path: string)
    requires Segments(path, PathUnescape).Found? && Resolve(verb, path, PathUnescape).Found?
    ensures |Segments(path, PathUnescape).value| == |Split(path[1..])|
    ensures var owner, segments := Resolve(verb, path, PathUnescape).value, Segments(path, PathUnescape).value;
            var n := DroppedLength(owner, segments);
            ResolveURL(verb, path, PathUnescape) ==
            Some(RequestRoute(owner, "/" + Join(Split(path[1..])[n..]),
                              verb == Get && owner == "codex" && segments[n..] == ["responses"]))
  {
    var owner, segments := Resolve(verb, path, PathUnescape).value, Segments(path, PathUnescape).value;
    var n := DroppedLength(owner, segments);
    RewriteDropsTheOwnersSegments(verb, path, PathUnescape);
    var upstream := "/" + Join(Split(path[1..])[n..]);
    SuffixSegments(path, n);
    EndpointMeaning(upstream);
    assert Rewrite(path, owner, PathUnescape) == Some(upstream);
  }

  /** The upstream path's own segments: what is left, or one empty segment when nothing is. */
  lemma SuffixSegments(path: string, n: nat)
    requires Segments(path, PathUnescape).Found? && n <= |Segments(path, PathUnescape).value| == |Split(path[1..])|
    ensures var rest := Segments(path, PathUnescape).value[n..];
            Segments("/" + Join(Split(path[1..])[n..]), PathUnescape) == Found(if rest == [] then [""] else rest)
  {
    var raw, segments := Split(path[1..]), Segments(path, PathUnescape).value;
    var upstream := "/" + Join(raw[n..]);
    DecodedSegments(path, PathUnescape);
    assert upstream[1..] == Join(raw[n..]);
    if n < |raw| {
      SuffixSplits(path[1..], n);
      DecodeIs(raw[n..], segments[n..], PathUnescape);
    } else {
      assert raw[n..] == [];
      DecodeIs([""], [""], PathUnescape);
    }
  }

  lemma {:induction false} DecodeIs(raw: seq<string>, segments: seq<string>, decode: Decoder)
    requires |raw| == |segments| && forall i :: 0 <= i < |raw| ==> decode(raw[i]) == Some(segments[i])
    ensures DecodeAll(raw, decode) == Some(segments)
  {
    if raw != [] {
      var n := |raw| - 1;
      DecodeIs(raw[..n], segments[..n], decode);
      assert segments == segments[..n] + [segments[n]];
    }
  }

  lemma EndpointMeaning(upstream: string)
    requires Segments(upstream, PathUnescape).Found?
    ensures PathMatches(upstream, Route(Get, ["responses"], false), PathUnescape) ==
            Some(Segments(upstream, PathUnescape).value == ["responses"])
  {
    PatternSplits(Route(Get, ["responses"], false));
  }
}
