/** What the hooks of `lib/quibble.mjs` guarantee, one hook at a time and
    for a resolve followed by a load. */
module QuibbleProperties {
  import opened Wrappers
  import opened JsStrings
  import opened StubRegistry
  import opened ModuleSource
  import opened Quibble

  // ---------------------------------------------------------------------
  // Facts about URL parsing that the end-to-end properties rely on

  /** Appending `?__quibble=N` to a URL without a query keeps its pathname and
      makes `searchParams.get('__quibble')` return `N` (WHATWG URL Standard). */
  predicate TagReadable(parseUrl: UrlParser, url: string, generation: nat) {
    && parseUrl(url, None).Some?
    && parseUrl(Tag(url, generation), None).Some?
    && parseUrl(Tag(url, generation), None).value.pathname == parseUrl(url, None).value.pathname
    && parseUrl(Tag(url, generation), None).value.quibbleParam == Some(Decimal(generation))
  }

  // ---------------------------------------------------------------------
  // Markers

  lemma FlagsMentionQuibble(s: string)
    ensures Contains(s, ResolvePathFlag) ==> Contains(s, QuibbleFlag)
    ensures Contains(s, OriginalFlag) ==> Contains(s, QuibbleFlag)
    ensures Contains(s, ResolvePathMarker) ==> Contains(s, QuibbleFlag)
    ensures Contains(s, OriginalMarker) ==> Contains(s, QuibbleFlag)
  {
    assert ResolvePathMarker[1..10] == QuibbleFlag && OriginalMarker[1..10] == QuibbleFlag;
    assert OccursAt(ResolvePathMarker, QuibbleFlag, 1) && OccursAt(OriginalMarker, QuibbleFlag, 1);
    assert OccursAt(ResolvePathFlag, QuibbleFlag, 0) && OccursAt(OriginalFlag, QuibbleFlag, 0);
    if Contains(s, ResolvePathFlag) { ContainsSubstring(s, ResolvePathFlag, QuibbleFlag, 0); }
    if Contains(s, OriginalFlag) { ContainsSubstring(s, OriginalFlag, QuibbleFlag, 0); }
    if Contains(s, ResolvePathMarker) { ContainsSubstring(s, ResolvePathMarker, QuibbleFlag, 1); }
    if Contains(s, OriginalMarker) { ContainsSubstring(s, OriginalMarker, QuibbleFlag, 1); }
  }

  /** An occurrence of a marker that starts well inside `s` would put
      `__quibble` inside `s`. */
  lemma OccurrenceInside(s: string, t: string, marker: string, j: nat)
    requires |marker| >= 10 && marker[1..10] == QuibbleFlag
    requires j + 10 <= |s|
    ensures OccursAt(s + t, marker, j) ==> OccursAt(s, QuibbleFlag, j + 1)
  {
    if OccursAt(s + t, marker, j) {
      var u := s + t;
      forall m | 0 <= m < 9 ensures s[j + 1 + m] == QuibbleFlag[m] {
        assert u[j + 1 + m] == u[j..j + |marker|][1 + m];
        assert marker[1 + m] == marker[1..10][m];
      }
    }
  }

  /** An occurrence that starts at `j` sets the character at `j + k`. */
  lemma OccurrenceChar(u: string, marker: string, j: nat, k: nat)
    requires k < |marker|
    ensures OccursAt(u, marker, j) ==> u[j + k] == marker[k]
  {
    if OccursAt(u, marker, j) {
      assert u[j + k] == u[j..j + |marker|][k];
    }
  }

  /** When `s` does not mention `__quibble` and `t` starts with `?`, a marker
      cannot occur in `s + t` before `t`. */
  lemma {:induction false} NoMarkerBefore(s: string, t: string, marker: string)
    requires !Contains(s, QuibbleFlag)
    requires |t| > 0 && t[0] == '?'
    requires |marker| >= 10 && marker[1..10] == QuibbleFlag
    ensures forall j :: 0 <= j < |s| ==> !OccursAt(s + t, marker, j)
  {
    forall j | 0 <= j < |s|
      ensures !OccursAt(s + t, marker, j)
    {
      if j + 10 <= |s| {
        OccurrenceInside(s, t, marker, j);
        assert !OccursAt(s, QuibbleFlag, j + 1);
      } else {
        var k := |s| - j;
        OccurrenceChar(s + t, marker, j, k);
        assert (s + t)[j + k] == '?';
        assert marker[k] == marker[1..10][k - 1];
        assert marker[k] != '?';
      }
    }
  }

  lemma PlainHasNoMarkers(s: string)
    requires !Contains(s, QuibbleFlag)
    ensures !Contains(s, ResolvePathMarker) && !Contains(s, OriginalMarker)
    ensures !Contains(s, ResolvePathFlag) && !Contains(s, OriginalFlag)
  {
    FlagsMentionQuibble(s);
  }

  /** The marker protocol round-trips: appending either marker to a specifier
      that does not mention `__quibble` and stripping gives the specifier
      back, and a plain specifier is passed on unchanged. */
  lemma StripMarkersRoundTrip(s: string)
    requires !Contains(s, QuibbleFlag)
    ensures StripMarkers(s) == s
    ensures StripMarkers(s + ResolvePathMarker) == s
    ensures StripMarkers(s + OriginalMarker) == s
  {
    StripResolvePathMarker(s);
    StripOriginalMarker(s);
  }

  lemma MarkerLayout()
    ensures OccursAt(ResolvePathMarker, QuibbleFlag, 1) && OccursAt(OriginalMarker, QuibbleFlag, 1)
    ensures OccursAt(ResolvePathMarker, ResolvePathFlag, 1) && OccursAt(OriginalMarker, OriginalFlag, 1)
    ensures OccursAt(ResolvePathMarker, ResolvePathMarker, 0) && OccursAt(OriginalMarker, OriginalMarker, 0)
    ensures ResolvePathMarker[1..10] == QuibbleFlag && OriginalMarker[1..10] == QuibbleFlag
  {
  }

  lemma StripResolvePathMarker(s: string)
    requires !Contains(s, QuibbleFlag)
    ensures StripMarkers(s + ResolvePathMarker) == s
  {
    PlainHasNoMarkers(s);
    MarkerLayout();
    var p := s + ResolvePathMarker;
    OccursAfterPrefix(s, ResolvePathMarker, QuibbleFlag, 1);
    NoMarkerBefore(s, ResolvePathMarker, ResolvePathMarker);
    OccursAfterPrefix(s, ResolvePathMarker, ResolvePathMarker, 0);
    ReplaceFirstAtFirstOccurrence(p, ResolvePathMarker, "", |s|);
    assert p[..|s|] + "" + p[|s| + |ResolvePathMarker|..] == s;
  }

  lemma StripOriginalMarker(s: string)
    requires !Contains(s, QuibbleFlag)
    ensures StripMarkers(s + OriginalMarker) == s
  {
    PlainHasNoMarkers(s);
    MarkerLayout();
    var o := s + OriginalMarker;
    OccursAfterPrefix(s, OriginalMarker, QuibbleFlag, 1);
    NoMarkerBefore(s, OriginalMarker, ResolvePathMarker);
    assert !Contains(o, ResolvePathMarker);
    NoMarkerBefore(s, OriginalMarker, OriginalMarker);
    OccursAfterPrefix(s, OriginalMarker, OriginalMarker, 0);
    ReplaceFirstAtFirstOccurrence(o, OriginalMarker, "", |s|);
    assert o[..|s|] + "" + o[|s| + |OriginalMarker|..] == s;
  }

  lemma MarkedSpecifierFlags(s: string)
    ensures Contains(s + ResolvePathMarker, ResolvePathFlag)
    ensures Contains(s + OriginalMarker, OriginalFlag)
  {
    MarkerLayout();
    OccursAfterPrefix(s, ResolvePathMarker, ResolvePathFlag, 1);
    OccursAfterPrefix(s, OriginalMarker, OriginalFlag, 1);
  }

  /** A different generation gives a different tagged URL. */
  lemma TagInjective(url: string, g1: nat, g2: nat)
    ensures Tag(url, g1) == Tag(url, g2) ==> g1 == g2
  {
    var n := |url| + |TagPrefix|;
    assert Tag(url, g1)[n..] == Decimal(g1);
    assert Tag(url, g2)[n..] == Decimal(g2);
    DecimalInjective(g1, g2);
  }

  // ---------------------------------------------------------------------
  // resolve

  /** Probe mode (`__quibbleresolvepath`) always ends in the probe signal or an
      error, whatever the registry and generation: the signal carries the
      pathname of the default resolution of the stripped specifier. */
  lemma ProbeMode(specifier: string, context: ResolveContext, defaultResolve: DefaultResolver,
                  state: QuibbleState, other: QuibbleState, parseUrl: UrlParser)
    requires Contains(specifier, ResolvePathFlag)
    ensures var r := Resolve(specifier, context, defaultResolve, state, parseUrl);
            var call := defaultResolve(StripMarkers(specifier), context);
            && r == Resolve(specifier, context, defaultResolve, other, parseUrl)
            && !r.Resolved?
            && (r.ProbedPath? <==> call.Success? && parseUrl(call.value.url, None).Some?)
            && (r.ProbedPath? ==> r.resolvedPath == parseUrl(call.value.url, None).value.pathname
                                  && ErrorCode(r) == Some(ResolvedPathCode))
            && (r.Thrown? ==> if call.Failure? then r.code == call.error else r.code == InvalidUrlCode)
  {
  }

  /** The path probe used by the registration API: appending
      `?__quibbleresolvepath` to a plain specifier reports the pathname of
      that specifier's default resolution, even before any stub exists. */
  lemma ProbeOfPlainSpecifier(s: string, context: ResolveContext, defaultResolve: DefaultResolver,
                              state: QuibbleState, parseUrl: UrlParser, result: ResolveResult, u: Url)
    requires !Contains(s, QuibbleFlag)
    requires defaultResolve(s, context) == Success(result)
    requires parseUrl(result.url, None) == Some(u)
    ensures Resolve(s + ResolvePathMarker, context, defaultResolve, state, parseUrl) == ProbedPath(u.pathname)
  {
    StripMarkersRoundTrip(s);
    MarkedSpecifierFlags(s);
  }

  /** The default resolver is consulted with the stripped specifier and the
      unchanged context, and nowhere else. */
  lemma ResolverLocality(specifier: string, context: ResolveContext, dr1: DefaultResolver,
                         dr2: DefaultResolver, state: QuibbleState, parseUrl: UrlParser)
    requires dr1(StripMarkers(specifier), context) == dr2(StripMarkers(specifier), context)
    ensures Resolve(specifier, context, dr1, state, parseUrl) == Resolve(specifier, context, dr2, state, parseUrl)
  {
  }

  /** With no registry, or with `__quibbleoriginal`, resolve returns exactly
      what the default resolver returns (or throws). */
  lemma PassThrough(specifier: string, context: ResolveContext, defaultResolve: DefaultResolver,
                    state: QuibbleState, parseUrl: UrlParser)
    requires !Contains(specifier, ResolvePathFlag)
    requires state.quibbledModules.None? || Contains(specifier, OriginalFlag)
    ensures var r := Resolve(specifier, context, defaultResolve, state, parseUrl);
            match defaultResolve(StripMarkers(specifier), context)
            case Success(result) => r == Resolved(result)
            case Failure(code) => r == Thrown(code)
  {
  }

  /** `specifier + '?__quibbleoriginal'` resolves like the plain specifier
      would without quibble, registry or not. */
  lemma OriginalBypass(s: string, context: ResolveContext, defaultResolve: DefaultResolver,
                       state: QuibbleState, parseUrl: UrlParser)
    requires !Contains(s, QuibbleFlag)
    ensures var r := Resolve(s + OriginalMarker, context, defaultResolve, state, parseUrl);
            match defaultResolve(s, context)
            case Success(result) => r == Resolved(result)
            case Failure(code) => r == Thrown(code)
  {
    StripMarkersRoundTrip(s);
    MarkedSpecifierFlags(s);
    var o := s + OriginalMarker;
    forall i | 0 <= i <= |o| - |ResolvePathFlag|
      ensures !OccursAt(o, ResolvePathFlag, i)
    {
      NoFlagAround(s, i);
    }
  }

  /** `__quibbleresolvepath` does not occur in a plain specifier followed by
      `?__quibbleoriginal`. */
  lemma NoFlagAround(s: string, i: nat)
    requires !Contains(s, QuibbleFlag)
    ensures !OccursAt(s + OriginalMarker, ResolvePathFlag, i)
  {
    var o := s + OriginalMarker;
    if i + 9 <= |s| {
      FlagInside(s, i);
      assert !OccursAt(s, QuibbleFlag, i);
    } else if i < |s| {
      var k := |s| - i;
      OccurrenceChar(o, ResolvePathFlag, i, k);
      assert o[i + k] == '?';
      assert ResolvePathFlag[k] != '?';
    }
  }

  lemma FlagInside(s: string, i: nat)
    requires i + 9 <= |s|
    ensures OccursAt(s + OriginalMarker, ResolvePathFlag, i) ==> OccursAt(s, QuibbleFlag, i)
  {
    var o := s + OriginalMarker;
    if OccursAt(o, ResolvePathFlag, i) {
      forall m | 0 <= m < 9 ensures s[i + m] == QuibbleFlag[m] {
        assert o[i + m] == o[i..i + |ResolvePathFlag|][m];
      }
    }
  }

  /** Before any stub is registered, resolution of a plain specifier is the
      default resolution, untouched. */
  lemma InitialStateIsPassThrough(s: string, context: ResolveContext, defaultResolve: DefaultResolver,
                                  parseUrl: UrlParser)
    requires !Contains(s, QuibbleFlag)
    ensures var r := Resolve(s, context, defaultResolve, InitialState, parseUrl);
            match defaultResolve(s, context)
            case Success(result) => r == Resolved(result)
            case Failure(code) => r == Thrown(code)
  {
    StripMarkersRoundTrip(s);
    PlainHasNoMarkers(s);
  }

  /** With a registry, a successful default resolution to a non-builtin URL is
      always tagged with the generation, stubbed or not; the host's `format`
      is dropped. */
  lemma TaggedResolution(specifier: string, context: ResolveContext, defaultResolve: DefaultResolver,
                         state: QuibbleState, parseUrl: UrlParser, result: ResolveResult)
    requires state.quibbledModules.Some?
    requires !Contains(specifier, ResolvePathFlag) && !Contains(specifier, OriginalFlag)
    requires defaultResolve(StripMarkers(specifier), context) == Success(result)
    ensures var r := Resolve(specifier, context, defaultResolve, state, parseUrl);
            && (!IsBuiltin(result.url) ==>
                  r == Resolved(ResolveResult(Tag(result.url, state.stubModuleGeneration), None)))
            && (IsBuiltin(result.url) ==>
                  match parseUrl(Tag(result.url, state.stubModuleGeneration), None)
                  case None => r == Thrown(InvalidUrlCode)
                  case Some(u) =>
                    r == Resolved(ResolveResult(
                           if GetStubsInfo(state.quibbledModules, u).None? then result.url
                           else Tag(result.url, state.stubModuleGeneration), None)))
  {
  }

  /** A `node:` / `nodejs:` URL is tagged exactly when its pathname has a
      registry entry, and returned untagged otherwise. */
  lemma BuiltinTaggedIffStubbed(specifier: string, context: ResolveContext, defaultResolve: DefaultResolver,
                                state: QuibbleState, parseUrl: UrlParser, result: ResolveResult)
    requires state.quibbledModules.Some?
    requires !Contains(specifier, ResolvePathFlag) && !Contains(specifier, OriginalFlag)
    requires defaultResolve(StripMarkers(specifier), context) == Success(result)
    requires IsBuiltin(result.url)
    requires TagReadable(parseUrl, result.url, state.stubModuleGeneration)
    ensures var r := Resolve(specifier, context, defaultResolve, state, parseUrl);
            var path := parseUrl(result.url, None).value.pathname;
            r == Resolved(ResolveResult(
                   if HasKey(state.quibbledModules.value, path) then Tag(result.url, state.stubModuleGeneration)
                   else result.url, None))
  {
    var g := state.stubModuleGeneration;
    var u := parseUrl(Tag(result.url, g), None).value;
    assert IsSet(u.quibbleParam);
  }

  /** When the default resolver cannot find the module: with a truthy
      `parentURL` the URL built against it is tagged, without one the URL of
      the bare specifier is returned untagged; an unparsable URL throws. */
  lemma NotFoundResolution(specifier: string, context: ResolveContext, defaultResolve: DefaultResolver,
                           state: QuibbleState, parseUrl: UrlParser)
    requires state.quibbledModules.Some?
    requires !Contains(specifier, ResolvePathFlag) && !Contains(specifier, OriginalFlag)
    requires defaultResolve(StripMarkers(specifier), context) == Failure(ModuleNotFoundCode)
    ensures var r := Resolve(specifier, context, defaultResolve, state, parseUrl);
            var g := state.stubModuleGeneration;
            && (IsSet(context.parentURL) ==>
                  match parseUrl(specifier, context.parentURL)
                  case None => r == Thrown(InvalidUrlCode)
                  case Some(u) => r == Resolved(ResolveResult(Tag(u.href, g), None)))
            && (!IsSet(context.parentURL) ==>
                  match parseUrl(specifier, None)
                  case None => r == Thrown(InvalidUrlCode)
                  case Some(u) => r == Resolved(ResolveResult(u.href, None)))
  {
  }

  /** Any other resolution error is re-thrown unchanged. */
  lemma OtherErrorsPropagate(specifier: string, context: ResolveContext, defaultResolve: DefaultResolver,
                             state: QuibbleState, parseUrl: UrlParser, code: string)
    requires defaultResolve(StripMarkers(specifier), context) == Failure(code)
    requires code != ModuleNotFoundCode
    ensures Resolve(specifier, context, defaultResolve, state, parseUrl) == Thrown(code)
  {
  }

  // ---------------------------------------------------------------------
  // load

  /** A URL whose stubs are found gets the synthesized module and the default
      loader is never consulted. */
  lemma LoadServesStub(url: string, context: LoadContext, defaultLoad: DefaultLoader, otherLoad: DefaultLoader,
                       state: QuibbleState, parseUrl: UrlParser, stringify: string -> string, entry: Entry)
    requires parseUrl(url, None).Some?
    requires GetStubsInfo(state.quibbledModules, parseUrl(url, None).value) == Some(entry)
    ensures Load(url, context, defaultLoad, state, parseUrl, stringify)
            == Success(LoadResult("module", TransformModuleSource(entry, stringify)))
    ensures Load(url, context, defaultLoad, state, parseUrl, stringify)
            == Load(url, context, otherLoad, state, parseUrl, stringify)
  {
  }

  /** Any other URL is loaded by the default loader, unchanged. */
  lemma LoadDelegates(url: string, context: LoadContext, defaultLoad: DefaultLoader,
                      state: QuibbleState, parseUrl: UrlParser, stringify: string -> string)
    requires parseUrl(url, None).Some?
    requires GetStubsInfo(state.quibbledModules, parseUrl(url, None).value).None?
    ensures Load(url, context, defaultLoad, state, parseUrl, stringify) == defaultLoad(url, context)
  {
  }

  // ---------------------------------------------------------------------
  // resolve followed by load

  /** Importing a stubbed module: the URL is tagged with the generation and
      loading it yields the synthesized source for the module's registry
      entry, which exports exactly the stubbed names (and a default export
      when one is stubbed). */
  lemma StubbedImportLoadsStub(specifier: string, context: ResolveContext, defaultResolve: DefaultResolver,
                               state: QuibbleState, parseUrl: UrlParser, result: ResolveResult,
                               loadContext: LoadContext, defaultLoad: DefaultLoader, stringify: string -> string)
    requires state.quibbledModules.Some?
    requires !Contains(specifier, ResolvePathFlag) && !Contains(specifier, OriginalFlag)
    requires defaultResolve(StripMarkers(specifier), context) == Success(result)
    requires TagReadable(parseUrl, result.url, state.stubModuleGeneration)
    requires HasKey(state.quibbledModules.value, parseUrl(result.url, None).value.pathname)
    ensures var g := state.stubModuleGeneration;
            var path := parseUrl(result.url, None).value.pathname;
            var entry := Find(state.quibbledModules.value, path).value;
            && Resolve(specifier, context, defaultResolve, state, parseUrl)
               == Resolved(ResolveResult(Tag(result.url, g), None))
            && entry.key == path
            && Load(Tag(result.url, g), loadContext, defaultLoad, state, parseUrl, stringify)
               == Success(LoadResult("module", TransformModuleSource(entry, stringify)))
  {
    var g := state.stubModuleGeneration;
    var u := parseUrl(Tag(result.url, g), None).value;
    assert IsSet(u.quibbleParam);
    if IsBuiltin(result.url) {
      BuiltinTaggedIffStubbed(specifier, context, defaultResolve, state, parseUrl, result);
    }
  }

  /** A module that exists only as a stub: the default resolver does not find
      it, the fallback URL built against the importer is tagged, and loading
      it yields the synthesized source. */
  lemma VirtualModuleLoadsStub(specifier: string, context: ResolveContext, defaultResolve: DefaultResolver,
                               state: QuibbleState, parseUrl: UrlParser, v: Url,
                               loadContext: LoadContext, defaultLoad: DefaultLoader, stringify: string -> string)
    requires state.quibbledModules.Some?
    requires !Contains(specifier, ResolvePathFlag) && !Contains(specifier, OriginalFlag)
    requires defaultResolve(StripMarkers(specifier), context) == Failure(ModuleNotFoundCode)
    requires IsSet(context.parentURL) && parseUrl(specifier, context.parentURL) == Some(v)
    requires TagReadable(parseUrl, v.href, state.stubModuleGeneration)
    requires HasKey(state.quibbledModules.value, parseUrl(v.href, None).value.pathname)
    ensures var g := state.stubModuleGeneration;
            var entry := Find(state.quibbledModules.value, parseUrl(v.href, None).value.pathname).value;
            && Resolve(specifier, context, defaultResolve, state, parseUrl)
               == Resolved(ResolveResult(Tag(v.href, g), None))
            && Load(Tag(v.href, g), loadContext, defaultLoad, state, parseUrl, stringify)
               == Success(LoadResult("module", TransformModuleSource(entry, stringify)))
  {
    var u := parseUrl(Tag(v.href, state.stubModuleGeneration), None).value;
    assert IsSet(u.quibbleParam);
  }

  /** Importing a module that is not stubbed while a registry exists: the URL
      is still tagged, and the tagged URL is loaded by the default loader. */
  lemma UnstubbedImportUsesDefaultLoad(specifier: string, context: ResolveContext, defaultResolve: DefaultResolver,
                                       state: QuibbleState, parseUrl: UrlParser, result: ResolveResult,
                                       loadContext: LoadContext, defaultLoad: DefaultLoader, stringify: string -> string)
    requires state.quibbledModules.Some?
    requires !Contains(specifier, ResolvePathFlag) && !Contains(specifier, OriginalFlag)
    requires defaultResolve(StripMarkers(specifier), context) == Success(result)
    requires !IsBuiltin(result.url)
    requires TagReadable(parseUrl, result.url, state.stubModuleGeneration)
    requires !HasKey(state.quibbledModules.value, parseUrl(result.url, None).value.pathname)
    ensures var tagged := Tag(result.url, state.stubModuleGeneration);
            && Resolve(specifier, context, defaultResolve, state, parseUrl) == Resolved(ResolveResult(tagged, None))
            && Load(tagged, loadContext, defaultLoad, state, parseUrl, stringify) == defaultLoad(tagged, loadContext)
  {
  }

  /** Within one generation, every import whose default resolution is the
      same URL gets the same resolved URL, hence the same module instance. */
  lemma SameTargetSameUrl(s1: string, c1: ResolveContext, s2: string, c2: ResolveContext,
                          defaultResolve: DefaultResolver, state: QuibbleState, parseUrl: UrlParser)
    requires state.quibbledModules.Some?
    requires !Contains(s1, ResolvePathFlag) && !Contains(s1, OriginalFlag)
    requires !Contains(s2, ResolvePathFlag) && !Contains(s2, OriginalFlag)
    requires defaultResolve(StripMarkers(s1), c1).Success? && defaultResolve(StripMarkers(s2), c2).Success?
    requires defaultResolve(StripMarkers(s1), c1).value.url == defaultResolve(StripMarkers(s2), c2).value.url
    ensures Resolve(s1, c1, defaultResolve, state, parseUrl) == Resolve(s2, c2, defaultResolve, state, parseUrl)
  {
  }

  /** After a generation bump, a non-builtin module resolves to a URL it was
      never resolved to before, so the host evaluates a fresh instance. The
      registry may have changed along with the generation. */
  lemma NewGenerationNewUrl(specifier: string, context: ResolveContext, defaultResolve: DefaultResolver,
                            reg1: Registry, g1: nat, reg2: Registry, g2: nat, parseUrl: UrlParser,
                            result: ResolveResult)
    requires g1 != g2
    requires !Contains(specifier, ResolvePathFlag) && !Contains(specifier, OriginalFlag)
    requires defaultResolve(StripMarkers(specifier), context) == Success(result)
    requires !IsBuiltin(result.url)
    ensures var r1 := Resolve(specifier, context, defaultResolve, QuibbleState(Some(reg1), g1), parseUrl);
            var r2 := Resolve(specifier, context, defaultResolve, QuibbleState(Some(reg2), g2), parseUrl);
            r1.Resolved? && r2.Resolved? && r1.result.url != r2.result.url
  {
    TagInjective(result.url, g1, g2);
  }

  /** The path the probe reports is the key `load` looks up for the same
      specifier's normal resolution. */
  lemma ProbeMatchesLoadKey(s: string, context: ResolveContext, defaultResolve: DefaultResolver,
                            state: QuibbleState, parseUrl: UrlParser, result: ResolveResult)
    requires !Contains(s, QuibbleFlag)
    requires state.quibbledModules.Some?
    requires defaultResolve(s, context) == Success(result)
    requires TagReadable(parseUrl, result.url, state.stubModuleGeneration)
    ensures var probe := Resolve(s + ResolvePathMarker, context, defaultResolve, state, parseUrl);
            var normal := Resolve(s, context, defaultResolve, state, parseUrl);
            && probe.ProbedPath?
            && normal.Resolved?
            && parseUrl(normal.result.url, None).Some?
            && GetStubsInfo(state.quibbledModules, parseUrl(normal.result.url, None).value)
               == Find(state.quibbledModules.value, probe.resolvedPath)
  {
    ProbeOfPlainSpecifier(s, context, defaultResolve, state, parseUrl, result, parseUrl(result.url, None).value);
    StripMarkersRoundTrip(s);
    PlainHasNoMarkers(s);
    var u := parseUrl(Tag(result.url, state.stubModuleGeneration), None).value;
    assert IsSet(u.quibbleParam);
    if IsBuiltin(result.url) {
      BuiltinTaggedIffStubbed(s, context, defaultResolve, state, parseUrl, result);
    }
  }

  /** What a stubbed import exports: exactly the stubbed names, reassignable,
      and an immutable default export iff `defaultExportStub` is truthy. */
  lemma StubbedImportExports(url: string, context: LoadContext, defaultLoad: DefaultLoader,
                             state: QuibbleState, parseUrl: UrlParser, stringify: string -> string, entry: Entry)
    requires parseUrl(url, None).Some?
    requires GetStubsInfo(state.quibbledModules, parseUrl(url, None).value) == Some(entry)
    requires '\n' !in stringify(entry.key)
    requires IdentifierNames(ExportNames(entry.stubs))
    ensures var r := Load(url, context, defaultLoad, state, parseUrl, stringify);
            && r.Success? && r.value.format == "module"
            && ExportsOf(r.value.source)
               == LetExports(ExportNames(entry.stubs))
                  + (if Truthy(entry.stubs.defaultExportStub) then [DefaultExport] else [])
  {
    ExportsOfTransform(entry, stringify);
  }
}
