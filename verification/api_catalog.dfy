/** The table of built-in request contracts and the syntax of custom ones. */
module ApiCatalog {
  import opened Collections

  datatype Method = Get | Head | Post | OtherMethod(name: string)

  /**
   A root-level route, its pattern written as segments: "/v1/models" is ["v1", "models"]. A
   prefix route's pattern ends in a slash, so its last segment is empty, and it owns the paths
   below it.
   */
  datatype Route = Route(verb: Method, segments: seq<string>, isPrefix: bool)

  datatype PathPolicy = Preserve | StripOptionalV1

  datatype Definition = Definition(
    apiType: string,
    semanticErrors: bool,
    policy: PathPolicy,
    namespace: string,
    routes: seq<Route>)

  const CLAUDE := Definition("claude", true, Preserve, "claude", [
      Route(Post, ["v1", "messages"], false),
      Route(Post, ["v1", "messages", "count_tokens"], false),
      Route(Get, ["v1", "models"], false)])

  const DEEPSEEK_CLAUDE := Definition("deepseek-claude", true, Preserve, "deepseek-claude", [])

  const CODEX := Definition("codex", true, StripOptionalV1, "codex", [
      Route(Get, ["responses"], false),
      Route(Post, ["responses"], false),
      Route(Get, ["v1", "responses"], false),
      Route(Post, ["v1", "responses"], false),
      Route(Post, ["responses", ""], true),
      Route(Post, ["v1", "responses", ""], true),
      Route(Post, ["alpha", "search"], false),
      Route(Post, ["v1", "alpha", "search"], false)])

  const GEMINI := Definition("gemini", true, Preserve, "gemini", [Route(Post, ["v1beta", ""], true)])

  const GROK := Definition("grok", true, StripOptionalV1, "grok", [
      Route(Post, ["chat", "completions"], false),
      Route(Post, ["v1", "chat", "completions"], false)])

  const DEEPSEEK_OPENAI := Definition("deepseek-openai", true, StripOptionalV1, "deepseek-openai", [])

  const DEFINITIONS := [CLAUDE, DEEPSEEK_CLAUDE, CODEX, GEMINI, GROK, DEEPSEEK_OPENAI]

  const CUSTOM_PREFIX := "custom:"

  function LookupIn(definitions: seq<Definition>, apiType: string): Option<Definition> {
    if definitions == [] then None
    else if definitions[0].apiType == apiType then Some(definitions[0])
    else LookupIn(definitions[1..], apiType)
  }

  function Lookup(apiType: string): Option<Definition> {
    LookupIn(DEFINITIONS, apiType)
  }

  predicate IsBuiltIn(apiType: string) {
    Lookup(apiType).Some?
  }

  predicate SupportsSemanticErrors(apiType: string) {
    Lookup(apiType).Some? && Lookup(apiType).value.semanticErrors
  }

  /** A tool identifier is one path segment and not a relative one. */
  predicate ValidTool(tool: string) {
    tool != "" && tool != "." && tool != ".." && '/' !in tool
  }

  function ParseCustomAPIType(apiType: string): Option<string> {
    if CUSTOM_PREFIX <= apiType && ValidTool(apiType[|CUSTOM_PREFIX|..]) then Some(apiType[|CUSTOM_PREFIX|..]) else None
  }
}
