/** The process-wide state the hooks read from `global.__quibble`: the map of
    stubbed modules (keyed by absolute file path) and the stub-module
    generation counter. The hooks never change it. */
module StubRegistry {
  import opened Wrappers

  /** A JavaScript value held by the registry. The hooks only ever ask
      whether it is truthy; the value itself is read when the generated
      module is evaluated. */
  datatype JsValue =
    | Undefined
    | Null
    | Bool(b: bool)
    | Number(n: int)
    | Str(s: string)
    | Object(ref: nat)

  /** JavaScript truthiness (ECMA-262 ToBoolean). */
  predicate Truthy(v: JsValue) {
    match v
    case Undefined => false
    case Null => false
    case Bool(b) => b
    case Number(n) => n != 0
    case Str(s) => s != ""
    case Object(_) => true
  }

  /** One own property of `namedExportStubs`, in `Object.keys` order. */
  datatype NamedStub = NamedStub(name: string, value: JsValue)

  /** `{ namedExportStubs, defaultExportStub }`; a missing `namedExportStubs`
      is `None`, a missing `defaultExportStub` is `Undefined`. */
  datatype StubSpec = StubSpec(namedExportStubs: Option<seq<NamedStub>>, defaultExportStub: JsValue)

  /** One `[key, value]` pair of `quibbledModules.entries()`. */
  datatype Entry = Entry(key: string, stubs: StubSpec)

  /** The entries of the `quibbledModules` Map, in insertion order. */
  type Registry = seq<Entry>

  /** `global.__quibble`: `quibbledModules` is `None` until the first stub is
      registered. */
  datatype QuibbleState = QuibbleState(quibbledModules: Option<Registry>, stubModuleGeneration: nat)

  /** The value assigned when the module is first evaluated:
      `{ stubModuleGeneration: 1 }`. */
  const InitialState: QuibbleState := QuibbleState(None, 1)

  predicate HasKey(registry: Registry, key: string) {
    exists i :: 0 <= i < |registry| && registry[i].key == key
  }

  /** `[...registry].find(([m]) => m === key)`: the first entry whose key is
      `key`, if there is one. */
  function Find(registry: Registry, key: string): (r: Option<Entry>)
    ensures r.Some? <==> HasKey(registry, key)
    ensures r.Some? ==> r.value.key == key
    ensures r.Some? ==> exists i :: 0 <= i < |registry| && registry[i] == r.value
                                    && forall j :: 0 <= j < i ==> registry[j].key != key
    decreases |registry|
  {
    if |registry| == 0 then None
    else if registry[0].key == key then Some(registry[0])
    else
      var r := Find(registry[1..], key);
      assert HasKey(registry, key) ==> HasKey(registry[1..], key) by {
        if HasKey(registry, key) {
          var i :| 0 <= i < |registry| && registry[i].key == key;
          assert registry[1..][i - 1].key == key;
        }
      }
      assert r.Some? ==> exists i :: 0 <= i < |registry| && registry[i] == r.value
                                     && forall j :: 0 <= j < i ==> registry[j].key != key by {
        if r.Some? {
          var i :| 0 <= i < |registry[1..]| && registry[1..][i] == r.value
                   && forall j :: 0 <= j < i ==> registry[1..][j].key != key;
          assert registry[i + 1] == r.value;
          assert forall j :: 0 <= j < i + 1 ==> registry[j].key != key by {
            forall j | 0 <= j < i + 1 ensures registry[j].key != key {
              if j > 0 { assert registry[j] == registry[1..][j - 1]; }
            }
          }
        }
      }
      r
  }
}
