# quibble loader hooks, modelled in Dafny

quibble lets tests replace the exports of an on-disk ES module with stubs. It
does this from Node's module-loader hooks in `lib/quibble.mjs`:

- `resolve` turns an import specifier into a URL. While stubs are registered,
  it tags the URL with `?__quibble=<generation>`, so that Node treats each
  generation as a fresh module instance. It also answers the registration
  API's path probe (`?__quibbleresolvepath`) by throwing an error with code
  `QUIBBLE_RESOLVED_PATH` that carries the resolved pathname. It honours the
  `?__quibbleoriginal` bypass.
- `load` returns synthesized source for a tagged URL whose pathname has a
  registry entry. It throws `ERR_INVALID_URL` for a URL that does not parse.
  Any other URL goes to Node's default loader.
- `getStubsInfo` finds the registry entry for a URL.
- `transformModuleSource` writes the ES-module text. It has one `export let`
  per named stub and an `export default` when a default stub is set. Each
  export reads its value from `global.__quibble.quibbledModules` when the
  module is evaluated.

The hooks only read the process-wide state `global.__quibble`. The model
passes that state in as a `QuibbleState`, which holds the Map entries of
`quibbledModules` in insertion order (`None` before any stub exists) and
`stubModuleGeneration`. The host's collaborators are function parameters:

- `defaultResolve` and `defaultLoad`, which return a result or a thrown
  error's `code`;
- the `URL` constructor, which returns `None` where it throws (code
  `ERR_INVALID_URL`);
- `JSON.stringify`.

Files:

- `wrappers.dfy`: `Option` and `Result`.
- `js_strings.dfy`: the JavaScript string operations the hooks use. These are
  `includes`, `startsWith`, `replace` with a string pattern (first occurrence
  only), `join`, and the decimal rendering of an integer.
- `stub_registry.dfy`: stub specs, JavaScript truthiness, the registry and the
  initial state `{ stubModuleGeneration: 1 }`.
- `module_source.dfy`: `transformModuleSource`. It also has a small
  line-by-line reader of the generated text (`Lines`, `ExportsOf`), used to
  state what the generated module exports.
- `quibble.dfy`: `resolve`, `load` and `getStubsInfo`.
- `quibble_properties.dfy`: properties of each hook, and of a resolve followed
  by a load.

Three facts about `resolve` are easy to miss:

- Once a registry exists, every successful non-builtin resolution outside
  the `?__quibbleoriginal` bypass and the path probe is tagged with the
  generation, whether or not the module has a registry entry
  (lib/quibble.mjs:42-47). A specifier with `__quibbleoriginal` resolves to
  the default resolver's result untagged (lib/quibble.mjs:33-35,
  `OriginalBypass`), so the original module behind a stub is not
  re-evaluated when the generation changes. An unstubbed module that imports a stubbed one
  therefore gets a fresh instance after a generation bump, and sees the new
  stub (`NewGenerationNewUrl`). Within one generation, imports of the same
  target still share one instance (`SameTargetSameUrl`). The tagged URL of an
  unstubbed module is loaded by the default loader
  (`UnstubbedImportUsesDefaultLoad`).
- When the default resolver reports `ERR_MODULE_NOT_FOUND`, the fallback URL
  is tagged only when `parentURL` is truthy. Without one, `resolve` returns
  `new URL(specifier).href` untagged (lib/quibble.mjs:48-54,
  `NotFoundFallback`, `NotFoundResolution`).
- Results that `resolve` builds itself are `{ url }` only. So the `format`
  from the default resolver is kept on the pass-through paths (`PassThrough`)
  and dropped on the tagged and fallback paths (`TaggedResolution`,
  `NotFoundFallback`).

## Model

| member | source | states |
|---|---|---|
| `JsStrings.ReplaceFirst` | lib/quibble.mjs:14 | `replace` with a string pattern removes one occurrence's worth of characters when the pattern occurs, and changes nothing when it does not |
| `JsStrings.ReplaceFirstAtFirstOccurrence` | lib/quibble.mjs:14 | the replacement happens at the first occurrence of the pattern and leaves everything before and after it intact |
| `JsStrings.DecimalRoundTrip` | lib/quibble.mjs:42 | the generation numeral in `?__quibble=<generation>` reads back as the generation |
| `StubRegistry.Find` | lib/quibble.mjs:78 | `.find` over the Map entries returns an entry iff some key equals the path; the entry has that key and is the first such entry |
| `Quibble.StripMarkers` | lib/quibble.mjs:12-17 | the specifier given to the default resolver is never longer than the original, and is shorter by the whole marker when `?__quibbleresolvepath` occurs |
| `Quibble.GetStubsInfo` | lib/quibble.mjs:72-79 | an entry is returned iff a registry exists, the URL's `__quibble` parameter is non-empty and the registry has the URL's pathname as a key; the entry has that key and belongs to the registry |
| `Quibble.Resolve` | lib/quibble.mjs:11-57 | the probe signal is produced only for a specifier containing `__quibbleresolvepath`, and such a specifier never resolves normally |
| `ModuleSource.LinesOfTransform` | lib/quibble.mjs:81-99 | for export names without a line feed and a quoted key without one, the generated text, line by line: an empty line, one `;`-terminated `export let` line per named stub in key order (a lone `;` when there are none), the default-export line or an empty line, and a final empty line |
| `ModuleSource.ExportsOfTransform` | lib/quibble.mjs:81-99 | the generated module exports exactly one reassignable binding per `namedExportStubs` key, in key order, plus `export default` iff `defaultExportStub` is truthy; a missing `namedExportStubs` gives no named exports |
| `ModuleSource.ExportsReadOwnEntry` | lib/quibble.mjs:86-95 | every export line reads its value through `global.__quibble.quibbledModules.get(JSON.stringify(key))` for the module's own key, for any export names without a line feed |
| `ModuleSource.TransformModuleSource` | lib/quibble.mjs:81-99 | the generated text starts and ends with a line feed; its lines and exports are stated by `LinesOfTransform` and `ExportsOfTransform` |
| `Quibble.NotFoundFallback` | lib/quibble.mjs:48-54 | the fallback either resolves or throws `ERR_INVALID_URL`. It resolves iff `new URL(specifier, parentURL)` parses, using the parent only when `parentURL` is truthy. The result has no `format`, and it is tagged with the generation exactly when `parentURL` is truthy |
| `Quibble.Load` | lib/quibble.mjs:59-70 | an unparsable URL throws `ERR_INVALID_URL`; a URL for which `getStubsInfo` finds an entry loads as format `module` with `transformModuleSource(entry)`; any other URL gives exactly `defaultLoad(url, context)` (see also `LoadServesStub`, `LoadDelegates`) |
| `QuibbleProperties.FlagsMentionQuibble` | lib/quibble.mjs:13-19 | a specifier with either marker also contains `__quibble`, so markers are always stripped |
| `QuibbleProperties.StripMarkersRoundTrip` | lib/quibble.mjs:12-17 | a plain specifier reaches the default resolver unchanged, and the same specifier with `?__quibbleresolvepath` or `?__quibbleoriginal` appended reaches it with the marker removed |
| `QuibbleProperties.TagInjective` | lib/quibble.mjs:42 | two different generations give two different tagged URLs |
| `QuibbleProperties.ProbeMode` | lib/quibble.mjs:19-25 | in probe mode the outcome is the same for every registry and generation and is never a normal resolution; it is the probe signal (code `QUIBBLE_RESOLVED_PATH`) carrying the pathname of the default resolution of the stripped specifier iff that resolution succeeds and parses; otherwise it is the resolver's error or `ERR_INVALID_URL` |
| `QuibbleProperties.ProbeOfPlainSpecifier` | lib/quibble.mjs:12-25 | probing `specifier + '?__quibbleresolvepath'` reports the pathname of the default resolution of `specifier`, before or after stubs are registered |
| `QuibbleProperties.ResolverLocality` | lib/quibble.mjs:12-17 | the default resolver is consulted only with the stripped specifier and the unchanged context |
| `QuibbleProperties.PassThrough` | lib/quibble.mjs:27-35 | with no registry, or with `__quibbleoriginal`, the outcome is exactly the default resolver's result or its error |
| `QuibbleProperties.OriginalBypass` | lib/quibble.mjs:12-35 | `specifier + '?__quibbleoriginal'` resolves exactly as the default resolver resolves `specifier` |
| `QuibbleProperties.InitialStateIsPassThrough` | lib/quibble.mjs:9-29 | in the initial state `StubRegistry.InitialState`, that is `{ stubModuleGeneration: 1 }` with no registry, a plain specifier resolves exactly as the default resolver resolves it |
| `QuibbleProperties.TaggedResolution` | lib/quibble.mjs:40-47 | with a registry, a successful non-builtin resolution to `u` yields `u?__quibble=<generation>`; a `node:`/`nodejs:` URL stays `u` when `getStubsInfo` finds nothing for the tagged URL, is tagged otherwise, and an unparsable tagged URL throws `ERR_INVALID_URL` |
| `QuibbleProperties.BuiltinTaggedIffStubbed` | lib/quibble.mjs:44-47 | a builtin URL is tagged iff its pathname is a registry key, and returned untagged otherwise |
| `QuibbleProperties.NotFoundResolution` | lib/quibble.mjs:48-54 | on `ERR_MODULE_NOT_FOUND`, with a truthy `parentURL` the result is `new URL(specifier, parentURL).href` tagged with the generation; without one it is `new URL(specifier).href` untagged; an unparsable URL throws `ERR_INVALID_URL` |
| `QuibbleProperties.OtherErrorsPropagate` | lib/quibble.mjs:48-55 | any other error code from the default resolver is re-thrown unchanged, on every path |
| `QuibbleProperties.LoadServesStub` | lib/quibble.mjs:59-67 | when `getStubsInfo` finds an entry, `load` returns format `module` with `transformModuleSource(entry)` and the result does not depend on `defaultLoad` |
| `QuibbleProperties.LoadDelegates` | lib/quibble.mjs:59-70 | when no entry is found, `load` returns exactly `defaultLoad(url, context)` |
| `QuibbleProperties.StubbedImportLoadsStub` | lib/quibble.mjs:39-67 | importing a stubbed module, builtin or not, resolves to the tagged URL, and loading that URL yields the synthesized source of the module's registry entry |
| `QuibbleProperties.VirtualModuleLoadsStub` | lib/quibble.mjs:48-67 | a module with no file but with a registry entry, imported from a known parent, resolves to the tagged fallback URL, which loads as the synthesized source |
| `QuibbleProperties.UnstubbedImportUsesDefaultLoad` | lib/quibble.mjs:40-70 | an unstubbed non-builtin import is still tagged, and the tagged URL is loaded by the default loader |
| `QuibbleProperties.SameTargetSameUrl` | lib/quibble.mjs:40-47 | within one generation, imports whose default resolution is the same URL get the same outcome, hence the same module instance |
| `QuibbleProperties.NewGenerationNewUrl` | lib/quibble.mjs:42-47 | after the generation changes, a non-builtin module resolves to a different URL, so Node evaluates a fresh instance; the registry may differ between the two states, as it does after a reset or a new registration |
| `QuibbleProperties.ProbeMatchesLoadKey` | lib/quibble.mjs:11-79 | for builtin and non-builtin resolutions alike, the pathname the probe reports for a specifier is the key `getStubsInfo` looks up when that specifier's normally resolved URL is loaded |
| `QuibbleProperties.StubbedImportExports` | lib/quibble.mjs:59-99 | loading a stubbed URL gives an ES module exporting exactly the stubbed names as `let` bindings, plus a default export iff the default stub is truthy |

## Left out

- Lines 1-7 of lib/quibble.mjs re-export the public API of `lib/quibble.js`, which is not part of this model. Stub registration, `reset` and the generation bump live there, so the registry and generation are inputs here. The registration API's side of the path probe (catching the error) is left out for the same reason.
- WHATWG URL parsing and serialisation (`pathname`, `searchParams`, `href`) is a parameter. The end-to-end lemmas assume, through `TagReadable`, that appending `?__quibble=N` to the resolved URL keeps its pathname and makes the `__quibble` parameter read `N`. This holds for URLs without a query or fragment.
- `JSON.stringify` is a parameter. The export lemmas assume its result for the key contains no line feed, which holds for the real function because it escapes line feeds.
- `async`/`await`: the hooks are modelled as ordinary functions, since their logic is sequential.
- Evaluation of the generated text is left out. That covers the snapshot of registry values at evaluation time and the mutability of exported bindings. The model produces the text and characterises its export declarations.
- Filesystem access inside `defaultLoad` is left out. The default loader is a parameter.
- Thrown errors are reduced to their `code` string. Errors without a `code` are not distinguished.
- Context objects keep `parentURL`, `format` and `conditions`. Import attributes are left out.
- JavaScript values in stub specs are reduced to what truthiness needs. Numbers are integers, so NaN, -0 and fractions are left out. A truthy non-object `namedExportStubs` is not modelled, and the order of `namedExportStubs` keys is taken to be `Object.keys` order. The sequence of named stubs is not required to have distinct names, as `Object.keys` would; for a repeated name the export lemmas list two `let` exports for text that does not parse.
- `stubModuleGeneration` is a JavaScript number. The model takes it to be a `nat`, so it leaves out two things. Generations at or above 2^53 are not exact doubles. Numbers at or above 10^21 are written in exponent form (`1e+21`), not as the decimal numeral `Decimal` produces. `JsStrings.DecimalRoundTrip` and `QuibbleProperties.TagInjective` therefore describe the tag only for generations below 2^53. The generation starts at 1 and grows by one per reset.
- `ModuleSource.ExportsOfTransform`: stated only for a quoted key without a line feed and for export names that are ASCII JavaScript identifiers other than reserved words (`ReservedWords`). Non-ASCII identifiers such as `café` are valid export names but are left out to keep `IsIdentifier` simple. Only names that are not identifiers, and reserved words, break quibble's caller contract. The line reader recognises export declarations line by line and does not check that the whole text parses.
- `QuibbleProperties.StubbedImportExports`: stated under the same two assumptions as `ExportsOfTransform`.
