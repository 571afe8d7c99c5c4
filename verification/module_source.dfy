/** The source synthesizer (`transformModuleSource`): the ES-module text the
    load hook returns for a stubbed module, and a small reader of that text
    used to state what the generated module exports. */
module ModuleSource {
  import opened Wrappers
  import opened JsStrings
  import opened StubRegistry

  /** The expression that fetches a module's stub spec from the registry when
      the generated module is evaluated; `quotedKey` is `JSON.stringify(key)`. */
  function RegistryRead(quotedKey: string): string {
    "global.__quibble.quibbledModules.get(" + quotedKey + ")"
  }

  function NamedExportStatement(quotedKey: string, name: string): string {
    "export let " + name + " = " + RegistryRead(quotedKey) + ".namedExportStubs[\"" + name + "\"]"
  }

  function DefaultExportStatement(quotedKey: string): string {
    "export default " + RegistryRead(quotedKey) + ".defaultExportStub;"
  }

  /** `${stubs.defaultExportStub ? `export default ...` : ''}` */
  function DefaultExportLine(stubs: StubSpec, quotedKey: string): string {
    if Truthy(stubs.defaultExportStub) then DefaultExportStatement(quotedKey) else ""
  }

  function StubNames(stubs: seq<NamedStub>): seq<string> {
    if |stubs| == 0 then [] else [stubs[0].name] + StubNames(stubs[1..])
  }

  /** `Object.keys(stubs.namedExportStubs || {})` */
  function ExportNames(stubs: StubSpec): seq<string> {
    match stubs.namedExportStubs
    case None => []
    case Some(named) => StubNames(named)
  }

  /** `names.map(name => `export let ${name} = ...`)` */
  function NamedExportStatements(quotedKey: string, names: seq<string>): seq<string> {
    if |names| == 0 then [] else [NamedExportStatement(quotedKey, names[0])] + NamedExportStatements(quotedKey, names[1..])
  }

  /** `transformModuleSource([moduleKey, stubs])`; `stringify` is `JSON.stringify`. */
  function TransformModuleSource(entry: Entry, stringify: string -> string): (src: string)
    ensures StartsWith(src, "\n") && src[|src| - 1] == '\n'
  {
    var quotedKey := stringify(entry.key);
    "\n"
    + Join(NamedExportStatements(quotedKey, ExportNames(entry.stubs)), ";\n") + ";\n"
    + DefaultExportLine(entry.stubs, quotedKey)
    + "\n"
  }

  // ---------------------------------------------------------------------
  // Reading the generated text back

  /** `s.split("\n")` */
  function Lines(s: string): (ls: seq<string>)
    ensures |ls| >= 1
    decreases |s|
  {
    if |s| == 0 then [""]
    else if s[0] == '\n' then [""] + Lines(s[1..])
    else
      var rest := Lines(s[1..]);
      [[s[0]] + rest[0]] + rest[1..]
  }

  /** A binding a module exports: `export let name` is reassignable by its
      importers' module, `export default` is not. */
  datatype Export = LetExport(name: string) | DefaultExport

  /** The characters of `s` before its first space. */
  function LeadingWord(s: string): string
    decreases |s|
  {
    if |s| == 0 || s[0] == ' ' then "" else [s[0]] + LeadingWord(s[1..])
  }

  /** The export a single line declares. */
  function LineExports(line: string): seq<Export> {
    if StartsWith(line, "export let ") then [LetExport(LeadingWord(line[|"export let "|..]))]
    else if StartsWith(line, "export default ") then [DefaultExport]
    else []
  }

  function ExportsOfLines(lines: seq<string>): seq<Export>
    decreases |lines|
  {
    if |lines| == 0 then [] else LineExports(lines[0]) + ExportsOfLines(lines[1..])
  }

  /** The exports a generated module declares, line by line. */
  function ExportsOf(src: string): seq<Export> {
    ExportsOfLines(Lines(src))
  }

  function LetExports(names: seq<string>): seq<Export> {
    if |names| == 0 then [] else [LetExport(names[0])] + LetExports(names[1..])
  }

  predicate IdentifierStart(c: char) {
    ('a' <= c <= 'z') || ('A' <= c <= 'Z') || c == '_' || c == '$'
  }

  /** The words that cannot name a `let` binding in module code: the reserved
      words of ECMAScript, those reserved in strict mode, and `eval` and
      `arguments`. */
  const ReservedWords: set<string> := {
    "await", "break", "case", "catch", "class", "const", "continue", "debugger",
    "default", "delete", "do", "else", "enum", "export", "extends", "false",
    "finally", "for", "function", "if", "import", "in", "instanceof", "new",
    "null", "return", "super", "switch", "this", "throw", "true", "try",
    "typeof", "var", "void", "while", "with", "yield",
    "implements", "interface", "let", "package", "private", "protected",
    "public", "static", "eval", "arguments"
  }

  /** An ASCII JavaScript identifier that may name a `let` binding in module
      code: the export names callers are expected to use. */
  predicate IsIdentifier(name: string) {
    && name !in ReservedWords
    && |name| > 0
    && IdentifierStart(name[0])
    && forall i :: 0 <= i < |name| ==> IdentifierStart(name[i]) || ('0' <= name[i] <= '9')
  }

  predicate IdentifierNames(names: seq<string>) {
    forall i :: 0 <= i < |names| ==> IsIdentifier(names[i])
  }

  /** Names that each fit on one line. */
  predicate SingleLineNames(names: seq<string>) {
    forall i :: 0 <= i < |names| ==> '\n' !in names[i]
  }

  // ---------------------------------------------------------------------
  // Lemmas

  lemma {:induction false} LinesNoNewline(a: string)
    requires '\n' !in a
    ensures Lines(a) == [a]
    decreases |a|
  {
    if |a| > 0 {
      LinesNoNewline(a[1..]);
      assert [a[0]] + a[1..] == a;
    }
  }

  lemma {:induction false} LinesCons(a: string, b: string)
    requires '\n' !in a
    ensures Lines(a + "\n" + b) == [a] + Lines(b)
    decreases |a|
  {
    var s := a + "\n" + b;
    if |a| == 0 {
      assert s[1..] == b;
    } else {
      assert s[1..] == a[1..] + "\n" + b;
      LinesCons(a[1..], b);
      assert [a[0]] + a[1..] == a;
    }
  }

  function Terminated(stmts: seq<string>): seq<string> {
    if |stmts| == 0 then [] else [stmts[0] + ";"] + Terminated(stmts[1..])
  }

  /** Joining statements with `;\n` and closing with `;\n` leaves one line per statement. */
  lemma {:induction false} LinesOfJoin(stmts: seq<string>, rest: string)
    requires |stmts| > 0
    requires forall i :: 0 <= i < |stmts| ==> '\n' !in stmts[i]
    ensures Lines(Join(stmts, ";\n") + ";\n" + rest) == Terminated(stmts) + Lines(rest)
    decreases |stmts|
  {
    var x := stmts[0];
    assert '\n' !in x + ";" by { assert '\n' !in x; }
    if |stmts| == 1 {
      assert Join(stmts, ";\n") + ";\n" + rest == (x + ";") + "\n" + rest;
      LinesCons(x + ";", rest);
    } else {
      var tail := Join(stmts[1..], ";\n") + ";\n" + rest;
      assert Join(stmts, ";\n") + ";\n" + rest == (x + ";") + "\n" + tail;
      LinesCons(x + ";", tail);
      LinesOfJoin(stmts[1..], rest);
    }
  }

  lemma NamedStatementHasNoNewline(quotedKey: string, name: string)
    requires '\n' !in quotedKey && '\n' !in name
    ensures '\n' !in NamedExportStatement(quotedKey, name)
  {
    assert '\n' !in RegistryRead(quotedKey);
  }

  lemma DefaultStatementHasNoNewline(quotedKey: string)
    requires '\n' !in quotedKey
    ensures '\n' !in DefaultExportStatement(quotedKey)
  {
    assert '\n' !in RegistryRead(quotedKey);
  }

  lemma {:induction false} NamedStatementsHaveNoNewline(quotedKey: string, names: seq<string>)
    requires '\n' !in quotedKey && SingleLineNames(names)
    ensures |NamedExportStatements(quotedKey, names)| == |names|
    ensures forall i :: 0 <= i < |names| ==>
              NamedExportStatements(quotedKey, names)[i] == NamedExportStatement(quotedKey, names[i])
    ensures forall i :: 0 <= i < |names| ==> '\n' !in NamedExportStatements(quotedKey, names)[i]
    decreases |names|
  {
    if |names| > 0 {
      NamedStatementHasNoNewline(quotedKey, names[0]);
      NamedStatementsHaveNoNewline(quotedKey, names[1..]);
      forall i | 0 <= i < |names| ensures '\n' !in NamedExportStatement(quotedKey, names[i]) {
        NamedStatementHasNoNewline(quotedKey, names[i]);
      }
    }
  }

  /** The generated text, line by line: an empty line, one line per named
      export (or a lone `;` when there are none), the default-export line (or
      an empty one), and a final empty line. */
  lemma LinesOfTransform(entry: Entry, stringify: string -> string)
    requires '\n' !in stringify(entry.key)
    requires SingleLineNames(ExportNames(entry.stubs))
    ensures var q := stringify(entry.key);
            var named := NamedExportStatements(q, ExportNames(entry.stubs));
            Lines(TransformModuleSource(entry, stringify))
            == [""] + (if |named| == 0 then [";"] else Terminated(named)) + [DefaultExportLine(entry.stubs, q), ""]
  {
    var q := stringify(entry.key);
    var names := ExportNames(entry.stubs);
    var named := NamedExportStatements(q, names);
    var dflt := DefaultExportLine(entry.stubs, q);
    var last := dflt + "\n";
    var body := Join(named, ";\n") + ";\n" + last;
    TransformShape(Join(named, ";\n"), dflt);
    LinesCons("", body);
    DefaultLineHasNoNewline(entry.stubs, q);
    LastLine(dflt);
    NamedStatementsHaveNoNewline(q, names);
    if |named| == 0 {
      assert body == ";" + "\n" + last;
      LinesCons(";", last);
    } else {
      LinesOfJoin(named, last);
    }
  }

  lemma TransformShape(block: string, dflt: string)
    ensures "\n" + block + ";\n" + dflt + "\n" == "" + "\n" + (block + ";\n" + (dflt + "\n"))
  {
  }

  lemma LastLine(dflt: string)
    requires '\n' !in dflt
    ensures Lines(dflt + "\n") == [dflt, ""]
  {
    LinesCons(dflt, "");
    assert dflt + "\n" + "" == dflt + "\n";
  }

  lemma DefaultLineHasNoNewline(stubs: StubSpec, quotedKey: string)
    requires '\n' !in quotedKey
    ensures '\n' !in DefaultExportLine(stubs, quotedKey)
  {
    if Truthy(stubs.defaultExportStub) {
      DefaultStatementHasNoNewline(quotedKey);
    }
  }

  lemma {:induction false} ExportsOfLinesAppend(a: seq<string>, b: seq<string>)
    ensures ExportsOfLines(a + b) == ExportsOfLines(a) + ExportsOfLines(b)
    decreases |a|
  {
    if |a| > 0 {
      assert (a + b)[1..] == a[1..] + b;
      ExportsOfLinesAppend(a[1..], b);
    } else {
      assert a + b == b;
    }
  }

  lemma {:induction false} LeadingWordOfIdentifier(name: string, rest: string)
    requires forall i :: 0 <= i < |name| ==> name[i] != ' '
    ensures LeadingWord(name + " " + rest) == name
    decreases |name|
  {
    if |name| > 0 {
      assert (name + " " + rest)[1..] == name[1..] + " " + rest;
      LeadingWordOfIdentifier(name[1..], rest);
    }
  }

  lemma NamedLineExports(quotedKey: string, name: string)
    requires IsIdentifier(name)
    ensures LineExports(NamedExportStatement(quotedKey, name) + ";") == [LetExport(name)]
  {
    var line := NamedExportStatement(quotedKey, name) + ";";
    var rest := "= " + RegistryRead(quotedKey) + ".namedExportStubs[\"" + name + "\"];";
    assert line == "export let " + (name + " " + rest);
    assert StartsWith(line, "export let ");
    assert line[|"export let "|..] == name + " " + rest;
    LeadingWordOfIdentifier(name, rest);
  }

  lemma {:induction false} ExportsOfNamedLines(quotedKey: string, names: seq<string>)
    requires IdentifierNames(names)
    ensures ExportsOfLines(Terminated(NamedExportStatements(quotedKey, names))) == LetExports(names)
    decreases |names|
  {
    if |names| > 0 {
      NamedLineExports(quotedKey, names[0]);
      ExportsOfNamedLines(quotedKey, names[1..]);
    }
  }

  /** The generated module exports exactly one reassignable binding per named
      stub, in key order, and an immutable default export if and only if
      `defaultExportStub` is truthy; nothing else. */
  lemma ExportsOfTransform(entry: Entry, stringify: string -> string)
    requires '\n' !in stringify(entry.key)
    requires IdentifierNames(ExportNames(entry.stubs))
    ensures ExportsOf(TransformModuleSource(entry, stringify))
            == LetExports(ExportNames(entry.stubs))
               + (if Truthy(entry.stubs.defaultExportStub) then [DefaultExport] else [])
  {
    var q := stringify(entry.key);
    var names := ExportNames(entry.stubs);
    var named := NamedExportStatements(q, names);
    var middle := if |named| == 0 then [";"] else Terminated(named);
    LinesOfTransform(entry, stringify);
    ExportsOfLinesAppend([""] + middle, [DefaultExportLine(entry.stubs, q), ""]);
    FirstLinesExports(q, names);
    DefaultLineExports(entry.stubs, q);
  }

  lemma FirstLinesExports(quotedKey: string, names: seq<string>)
    requires IdentifierNames(names)
    ensures var named := NamedExportStatements(quotedKey, names);
            ExportsOfLines([""] + (if |named| == 0 then [";"] else Terminated(named))) == LetExports(names)
  {
    var named := NamedExportStatements(quotedKey, names);
    var middle := if |named| == 0 then [";"] else Terminated(named);
    ExportsOfLinesAppend([""], middle);
    assert ExportsOfLines([""]) == [];
    if |names| == 0 {
      assert ExportsOfLines(middle) == [];
    } else {
      ExportsOfNamedLines(quotedKey, names);
    }
  }

  lemma DefaultLineExports(stubs: StubSpec, quotedKey: string)
    ensures ExportsOfLines([DefaultExportLine(stubs, quotedKey), ""])
            == if Truthy(stubs.defaultExportStub) then [DefaultExport] else []
  {
    var dflt := DefaultExportLine(stubs, quotedKey);
    if Truthy(stubs.defaultExportStub) {
      assert StartsWith(dflt, "export default ");
      assert !StartsWith(dflt, "export let ") by {
        assert dflt[7] == 'd';
      }
    }
    assert ExportsOfLines([dflt, ""]) == LineExports(dflt) + ExportsOfLines([""]);
  }

  /** Every export line of the generated module reads its value from this
      module's own registry entry, `quibbledModules.get(JSON.stringify(key))`. */
  lemma ExportsReadOwnEntry(entry: Entry, stringify: string -> string)
    requires '\n' !in stringify(entry.key)
    requires SingleLineNames(ExportNames(entry.stubs))
    ensures forall line :: line in Lines(TransformModuleSource(entry, stringify)) && StartsWith(line, "export ")
              ==> Contains(line, RegistryRead(stringify(entry.key)))
  {
    var q := stringify(entry.key);
    var names := ExportNames(entry.stubs);
    var named := NamedExportStatements(q, names);
    var dflt := DefaultExportLine(entry.stubs, q);
    LinesOfTransform(entry, stringify);
    NamedStatementsHaveNoNewline(q, names);
    var read := RegistryRead(q);
    forall line | line in Lines(TransformModuleSource(entry, stringify)) && StartsWith(line, "export ")
      ensures Contains(line, read)
    {
      if line == dflt {
        DefaultLineReadsEntry(entry.stubs, q);
      } else {
        assert |named| > 0 && line in Terminated(named);
        var k := TerminatedMember(named, line);
        NamedLineReadsEntry(q, names[k]);
      }
    }
  }

  lemma NamedLineReadsEntry(quotedKey: string, name: string)
    ensures Contains(NamedExportStatement(quotedKey, name) + ";", RegistryRead(quotedKey))
  {
    var before := "export let " + name + " = ";
    var after := ".namedExportStubs[\"" + name + "\"]" + ";";
    assert NamedExportStatement(quotedKey, name) + ";" == before + RegistryRead(quotedKey) + after;
    OccursBetween(before, RegistryRead(quotedKey), after);
  }

  lemma DefaultLineReadsEntry(stubs: StubSpec, quotedKey: string)
    requires StartsWith(DefaultExportLine(stubs, quotedKey), "export ")
    ensures Contains(DefaultExportLine(stubs, quotedKey), RegistryRead(quotedKey))
  {
    OccursBetween("export default ", RegistryRead(quotedKey), ".defaultExportStub;");
  }

  lemma {:induction false} TerminatedMember(stmts: seq<string>, line: string) returns (k: nat)
    requires line in Terminated(stmts)
    ensures k < |stmts| && line == stmts[k] + ";"
    decreases |stmts|
  {
    if line == stmts[0] + ";" {
      k := 0;
    } else {
      var k' := TerminatedMember(stmts[1..], line);
      k := k' + 1;
    }
  }
}
