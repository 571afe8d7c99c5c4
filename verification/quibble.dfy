/** The module-loader hooks of `lib/quibble.mjs`: `resolve`, `load` and
    `getStubsInfo`. The host's default resolver and loader, and WHATWG URL
    parsing, are parameters; the registry and generation are passed in as a
    `QuibbleState`. */
module Quibble {
  import opened Wrappers
  import opened JsStrings
  import opened StubRegistry
  import opened ModuleSource

  /** The parts of a parsed `URL` the hooks read: `href`, `pathname` and
      `searchParams.get('__quibble')`. */
  datatype Url = Url(href: string, pathname: string, quibbleParam: Option<string>)

  /** `new URL(input)` / `new URL(input, base)`; `None` when the constructor throws. */
  type UrlParser = (string, Option<string>) -> Option<Url>

  /** The resolve hook's context; only `parentURL` is read. */
  datatype ResolveContext = ResolveContext(parentURL: Option<string>, conditions: seq<string>)

  /** What a resolve hook returns: `{ url, format }`. */
  datatype ResolveResult = ResolveResult(url: string, format: Option<string>)

  /** The host's `defaultResolve`: a result or a thrown error's `code`. */
  type DefaultResolver = (string, ResolveContext) -> Result<ResolveResult, string>

  /** The outcome of the resolve hook: a result, the probe signal (an error
      whose `code` is `QUIBBLE_RESOLVED_PATH` carrying `resolvedPath`), or
      another thrown error's `code`. */
  datatype ResolveOutcome =
    | Resolved(result: ResolveResult)
    | ProbedPath(resolvedPath: string)
    | Thrown(code: string)

  /** The load hook's context. */
  datatype LoadContext = LoadContext(format: Option<string>, conditions: seq<string>)

  /** What a load hook returns: `{ format, source }`. */
  datatype LoadResult = LoadResult(format: string, source: string)

  /** The host's `defaultLoad`. */
  type DefaultLoader = (string, LoadContext) -> Result<LoadResult, string>

  const QuibbleFlag: string := "__quibble"
  const ResolvePathFlag: string := "__quibbleresolvepath"
  const OriginalFlag: string := "__quibbleoriginal"
  const ResolvePathMarker: string := "?__quibbleresolvepath"
  const OriginalMarker: string := "?__quibbleoriginal"
  const TagPrefix: string := "?__quibble="

  const ResolvedPathCode: string := "QUIBBLE_RESOLVED_PATH"
  const ModuleNotFoundCode: string := "ERR_MODULE_NOT_FOUND"
  /** The code of the TypeError `new URL` throws for an unparsable input. */
  const InvalidUrlCode: string := "ERR_INVALID_URL"

  /** The `code` a thrown outcome carries. */
  function ErrorCode(outcome: ResolveOutcome): Option<string> {
    match outcome
    case Resolved(_) => None
    case ProbedPath(_) => Some(ResolvedPathCode)
    case Thrown(code) => Some(code)
  }

  /** The specifier handed to `defaultResolve`: the first `?__quibbleresolvepath`
      and then the first `?__quibbleoriginal` removed, when it mentions `__quibble`. */
  function StripMarkers(specifier: string): (r: string)
    ensures |r| <= |specifier|
    ensures Contains(specifier, ResolvePathMarker) ==> |r| <= |specifier| - |ResolvePathMarker|
  {
    if Contains(specifier, QuibbleFlag) then
      ReplaceFirst(ReplaceFirst(specifier, ResolvePathMarker, ""), OriginalMarker, "")
    else
      assert Contains(specifier, ResolvePathMarker) ==> Contains(specifier, QuibbleFlag) by {
        if Contains(specifier, ResolvePathMarker) {
          ContainsSubstring(specifier, ResolvePathMarker, QuibbleFlag, 1);
        }
      }
      specifier
  }

  /** `${url}?__quibble=${generation}` */
  function Tag(url: string, generation: nat): string {
    url + TagPrefix + Decimal(generation)
  }

  /** `/^node(js){0,1}:/.test(url)` */
  predicate IsBuiltin(url: string) {
    StartsWith(url, "node:") || StartsWith(url, "nodejs:")
  }

  /** JavaScript truthiness of an optional string. */
  predicate IsSet(s: Option<string>) {
    s.Some? && s.value != ""
  }

  function Lift(call: Result<ResolveResult, string>): ResolveOutcome {
    match call
    case Success(result) => Resolved(result)
    case Failure(code) => Thrown(code)
  }

  /** `getStubsInfo(moduleUrl)`: the registry entry for the URL's pathname,
      consulted only when a registry exists and the URL carries a non-empty
      `__quibble` parameter. */
  function GetStubsInfo(quibbledModules: Option<Registry>, moduleUrl: Url): (r: Option<Entry>)
    ensures r.Some? <==> quibbledModules.Some? && IsSet(moduleUrl.quibbleParam)
                         && HasKey(quibbledModules.value, moduleUrl.pathname)
    ensures r.Some? ==> r.value.key == moduleUrl.pathname && r.value in quibbledModules.value
  {
    if quibbledModules.None? then None
    else if !IsSet(moduleUrl.quibbleParam) then None
    else Find(quibbledModules.value, moduleUrl.pathname)
  }

  /** The `catch` branch of `resolve` when the default resolver did not find
      the module: build the URL from the raw specifier, tagged only when the
      importer is known. */
  function NotFoundFallback(specifier: string, context: ResolveContext, generation: nat,
                            parseUrl: UrlParser): (r: ResolveOutcome)
    ensures r.Resolved? || r == Thrown(InvalidUrlCode)
    ensures r.Resolved? <==> parseUrl(specifier, if IsSet(context.parentURL) then context.parentURL else None).Some?
    ensures r.Resolved? ==> r.result.format.None?
    ensures r.Resolved? && IsSet(context.parentURL) ==>
              r.result.url == Tag(parseUrl(specifier, context.parentURL).value.href, generation)
    ensures r.Resolved? && !IsSet(context.parentURL) ==> r.result.url == parseUrl(specifier, None).value.href
  {
    if IsSet(context.parentURL) then
      match parseUrl(specifier, context.parentURL)
      case None => Thrown(InvalidUrlCode)
      case Some(u) => Resolved(ResolveResult(Tag(u.href, generation), None))
    else
      match parseUrl(specifier, None)
      case None => Thrown(InvalidUrlCode)
      case Some(u) => Resolved(ResolveResult(u.href, None))
  }

  /** `resolve(specifier, context, defaultResolve)` */
  function Resolve(specifier: string, context: ResolveContext, defaultResolve: DefaultResolver,
                   state: QuibbleState, parseUrl: UrlParser): (r: ResolveOutcome)
    ensures r.ProbedPath? ==> Contains(specifier, ResolvePathFlag)
    ensures Contains(specifier, ResolvePathFlag) ==> !r.Resolved?
  {
    var call := defaultResolve(StripMarkers(specifier), context);
    if Contains(specifier, ResolvePathFlag) then
      match call
      case Failure(code) => Thrown(code)
      case Success(result) =>
        match parseUrl(result.url, None)
        case None => Thrown(InvalidUrlCode)
        case Some(u) => ProbedPath(u.pathname)
    else if state.quibbledModules.None? then
      Lift(call)
    else if Contains(specifier, OriginalFlag) then
      Lift(call)
    else
      var generation := state.stubModuleGeneration;
      match call
      case Success(result) =>
        var quibbledUrl := Tag(result.url, generation);
        if IsBuiltin(result.url) then
          match parseUrl(quibbledUrl, None)
          case None => Thrown(InvalidUrlCode)
          case Some(u) =>
            if GetStubsInfo(state.quibbledModules, u).None? then Resolved(ResolveResult(result.url, None))
            else Resolved(ResolveResult(quibbledUrl, None))
        else
          Resolved(ResolveResult(quibbledUrl, None))
      case Failure(code) =>
        if code == ModuleNotFoundCode then NotFoundFallback(specifier, context, generation, parseUrl)
        else Thrown(code)
  }

  /** `load(url, context, defaultLoad)`; `stringify` is `JSON.stringify`. */
  function Load(url: string, context: LoadContext, defaultLoad: DefaultLoader, state: QuibbleState,
                parseUrl: UrlParser, stringify: string -> string): (r: Result<LoadResult, string>)
    ensures parseUrl(url, None).None? ==> r == Failure(InvalidUrlCode)
    ensures parseUrl(url, None).Some? && GetStubsInfo(state.quibbledModules, parseUrl(url, None).value).Some? ==>
              r == Success(LoadResult("module",
                     TransformModuleSource(GetStubsInfo(state.quibbledModules, parseUrl(url, None).value).value, stringify)))
    ensures parseUrl(url, None).Some? && GetStubsInfo(state.quibbledModules, parseUrl(url, None).value).None? ==>
              r == defaultLoad(url, context)
  {
    match parseUrl(url, None)
    case None => Failure(InvalidUrlCode)
    case Some(moduleUrl) =>
      match GetStubsInfo(state.quibbledModules, moduleUrl)
      case Some(entry) => Success(LoadResult("module", TransformModuleSource(entry, stringify)))
      case None => defaultLoad(url, context)
  }
}
