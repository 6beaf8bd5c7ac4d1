// The whole compiler on programs of sections: lower each definition, generate opcodes, emit
// WASM, and what the host sees when the module runs.
module CclCompiler {
  import opened Wrappers
  import opened CclAst
  import opened Codegen
  import opened Emit
  import opened MemoryLayout
  import opened Meaning
  import L = Lower
  import D = SyntaxData
  import M = Misreadings
  import R = Rewriting
  import T = TwoPass

  // A definition such as `organization "title" { ... }`; the title keeps its quotes.
  datatype Definition = Definition(kind: string, title: Option<string>, block: L.Block)

  function SectionOf(f: L.Front, d: Definition): Result<DslModule, L.LowerError> {
    var fields :- L.BlockOf(f, d.block);
    Success(Section(d.kind, L.Heading(d.title), fields.rules))
  }

  function SectionsOf(f: L.Front, ds: seq<Definition>, done: seq<DslModule>): Result<seq<DslModule>, L.LowerError>
    decreases ds
  {
    if ds == [] then Success(done)
    else
      var m :- SectionOf(f, ds[0]);
      SectionsOf(f, ds[1..], done + [m])
  }

  method LowerGenericSection(f: L.Front, d: Definition) returns (r: Result<DslModule, L.LowerError>)
    ensures r == SectionOf(f, d)
  {
    var heading := None;
    if d.title.Some? {
      heading := Some(L.TrimQuotes(d.title.value));
    }
    var fields :- L.LowerBlockCommonFields(f, d.block);
    r := Success(Section(d.kind, heading, fields.rules));
  }

  method LowerProgram(f: L.Front, ds: seq<Definition>) returns (r: Result<seq<DslModule>, L.LowerError>)
    ensures r == SectionsOf(f, ds, [])
  {
    var modules := [];
    var i := 0;
    while i < |ds|
      invariant i <= |ds|
      invariant SectionsOf(f, ds[i..], modules) == SectionsOf(f, ds, [])
    {
      assert ds[i..][1..] == ds[i + 1..];
      var m :- LowerGenericSection(f, ds[i]);
      modules := modules + [m];
      i := i + 1;
    }
    r := Success(modules);
  }

  method CompileToWasm(f: L.Front, enc: Encoding, ds: seq<Definition>) returns (r: Result<Layout, L.LowerError>)
    ensures r.Success? <==> forall d | d in ds :: D.ReadableBlock(f, d.block)
    ensures r.Success? ==> r.value == WasmOf(enc, DefinitionsOps(f, true, ds))
    ensures r.Success? && PlainDefinitions(f, ds) ==> r.value == WasmOf(enc, DefinitionsOps(f, false, ds))
  {
    DefinitionsLower(f, ds, []);
    var modules :- LowerProgram(f, ds);
    DefinitionsCode(f, ds, []);
    var generator := new WasmGenerator(f.text);
    var program := generator.Generate(modules);
    assert program == DefinitionsOps(f, true, ds);
    PlainDefinitionsOps(f, ds);
    var wasm := ProgramToWasm(enc, program);
    r := Success(wasm);
  }

  // ----- writing sections back as source -----

  predicate WritableSection(f: L.Front, m: DslModule) {
    m.Section? && R.WritableRules(f, m.rules) && (m.heading.Some? ==> R.Bare(m.heading.value))
  }

  function WriteSection(digits: Float -> string, m: DslModule): Definition {
    match m
    case Section(kind, heading, rules) =>
      Definition(kind, if heading.Some? then Some(R.Quoted(heading.value)) else None, R.WriteRules(digits, rules))
    case _ => Definition("", None, L.Block([]))
  }

  lemma SectionReadsBack(f: L.Front, digits: Float -> string, m: DslModule)
    requires R.Writes(f, digits) && WritableSection(f, m)
    ensures SectionOf(f, WriteSection(digits, m)) == Success(m)
  {
    R.BlockReadsBack(f, digits, m.rules);
    if m.heading.Some? {
      R.TrimBare(m.heading.value);
    }
  }

  function WriteProgram(digits: Float -> string, modules: seq<DslModule>): seq<Definition> {
    if modules == [] then [] else [WriteSection(digits, modules[0])] + WriteProgram(digits, modules[1..])
  }

  // A program of sections written back as source lowers to itself, in its own order.
  lemma {:induction false} ProgramReadsBack(f: L.Front, digits: Float -> string, modules: seq<DslModule>, done: seq<DslModule>)
    requires R.Writes(f, digits) && forall m | m in modules :: WritableSection(f, m)
    ensures SectionsOf(f, WriteProgram(digits, modules), done) == Success(done + modules)
    decreases modules
  {
    if modules == [] {
      assert done + modules == done;
    } else {
      assert modules[0] in modules;
      SectionReadsBack(f, digits, modules[0]);
      ProgramReadsBack(f, digits, modules[1..], done + [modules[0]]);
      assert done + [modules[0]] + modules[1..] == done + modules;
    }
  }

  // ----- the code of a program, read off its syntax -----

  function DefinitionOps(f: L.Front, quirks: bool, d: Definition): seq<Opcode> {
    [OpBeginSection(d.kind, L.Heading(d.title))] + T.BlockOps(f, quirks, d.block) + [OpEndSection]
  }

  function DefinitionsOps(f: L.Front, quirks: bool, ds: seq<Definition>): seq<Opcode> {
    if ds == [] then [] else DefinitionOps(f, quirks, ds[0]) + DefinitionsOps(f, quirks, ds[1..])
  }

  // Nothing in the program is taken for a call it is not.
  predicate PlainDefinitions(f: L.Front, ds: seq<Definition>) {
    forall d | d in ds :: T.PlainStatements(f, d.block.statements)
  }

  lemma {:induction false} ProgramCodePush(t: Text, modules: seq<DslModule>, m: DslModule)
    ensures ProgramCode(t, modules + [m]) == ProgramCode(t, modules) + ModuleCode(t, m)
    decreases modules
  {
    if modules == [] {
      assert [m][1..] == [];
      assert ProgramCode(t, [m]) == ModuleCode(t, m) + ProgramCode(t, []);
    } else {
      assert (modules + [m])[1..] == modules[1..] + [m];
      ProgramCodePush(t, modules[1..], m);
      Associative(ModuleCode(t, modules[0]), ProgramCode(t, modules[1..]), ModuleCode(t, m));
    }
  }

  lemma {:induction false} DefinitionsLower(f: L.Front, ds: seq<Definition>, done: seq<DslModule>)
    ensures SectionsOf(f, ds, done).Success? <==> forall d | d in ds :: D.ReadableBlock(f, d.block)
    decreases ds
  {
    if ds != [] {
      D.BlockLowers(f, ds[0].block);
      if SectionOf(f, ds[0]).Success? {
        DefinitionsLower(f, ds[1..], done + [SectionOf(f, ds[0]).value]);
      }
      assert forall d :: d in ds <==> d == ds[0] || d in ds[1..];
    }
  }

  lemma {:induction false} DefinitionsCode(f: L.Front, ds: seq<Definition>, done: seq<DslModule>)
    requires SectionsOf(f, ds, done).Success?
    ensures ProgramCode(f.text, SectionsOf(f, ds, done).value) == ProgramCode(f.text, done) + DefinitionsOps(f, true, ds)
    decreases ds
  {
    if ds != [] {
      var m := SectionOf(f, ds[0]).value;
      T.TwoPassComposition(f, ds[0].block);
      assert ModuleCode(f.text, m) == DefinitionOps(f, true, ds[0]);
      ProgramCodePush(f.text, done, m);
      DefinitionsCode(f, ds[1..], done + [m]);
      Associative(ProgramCode(f.text, done), ModuleCode(f.text, m), DefinitionsOps(f, true, ds[1..]));
    }
  }

  lemma {:induction false} PlainDefinitionsOps(f: L.Front, ds: seq<Definition>)
    ensures PlainDefinitions(f, ds) ==> DefinitionsOps(f, true, ds) == DefinitionsOps(f, false, ds)
    decreases ds
  {
    if ds != [] && PlainDefinitions(f, ds) {
      assert ds[0] in ds;
      assert forall d | d in ds[1..] :: d in ds;
      T.PlainStatementsOps(f, ds[0].block.statements);
      PlainDefinitionsOps(f, ds[1..]);
    }
  }

  predicate OneSidedDefinitions(f: L.Front, more: bool, ds: seq<Definition>) {
    forall d | d in ds :: M.OneSided(f, more, d.block.statements)
  }

  lemma {:induction false} DefinitionsAligned(f: L.Front, more: bool, ds: seq<Definition>)
    requires OneSidedDefinitions(f, more, ds)
    ensures M.Aligned(more, DefinitionsOps(f, true, ds), DefinitionsOps(f, false, ds))
    ensures DefinitionsOps(f, true, ds) == DefinitionsOps(f, false, ds) <==> forall d | d in ds :: M.Survives(f, d.block.statements)
    decreases ds
  {
    if ds != [] {
      var begin := OpBeginSection(ds[0].kind, L.Heading(ds[0].title));
      assert ds[0] in ds;
      assert forall d :: d in ds <==> d == ds[0] || d in ds[1..];
      M.StatementsAligned(f, more, ds[0].block.statements);
      M.SectionAligned(more, begin, T.BlockOps(f, true, ds[0].block), T.BlockOps(f, false, ds[0].block), OpEndSection);
      DefinitionsAligned(f, more, ds[1..]);
      M.ConcatAligned(more, DefinitionOps(f, true, ds[0]), DefinitionOps(f, false, ds[0]),
                      DefinitionsOps(f, true, ds[1..]), DefinitionsOps(f, false, ds[1..]));
    }
  }

  // Exactly when a whole program compiles to what it says, unless it holds both something
  // silent and something of several calls that are taken for calls: every statement survives.
  lemma {:induction false} ProgramSurvivesExactly(f: L.Front, ds: seq<Definition>)
    requires SectionsOf(f, ds, []).Success?
    requires OneSidedDefinitions(f, true, ds) || OneSidedDefinitions(f, false, ds)
    ensures ProgramCode(f.text, SectionsOf(f, ds, []).value) == DefinitionsOps(f, false, ds)
       <==> forall d | d in ds :: M.Survives(f, d.block.statements)
  {
    DefinitionsCode(f, ds, []);
    assert [] + DefinitionsOps(f, true, ds) == DefinitionsOps(f, true, ds);
    DefinitionsAligned(f, OneSidedDefinitions(f, true, ds), ds);
  }

  // ----- from syntax to host calls -----

  // A program that lowers instantiates and makes exactly the calls of its definitions, in
  // source order and with every argument read out of linear memory, if and only if its
  // strings take at most 65408 bytes; running them obeys the conditions as the tree does.
  lemma {:induction false} CompiledSourceRuns(f: L.Front, w: World, ds: seq<Definition>)
    requires w.text == f.text && SectionsOf(f, ds, []).Success?
    ensures var wasm, ops := WasmOf(w.enc, DefinitionsOps(f, true, ds)), DefinitionsOps(f, true, ds);
            && (Instantiate(wasm).Some? && Trace(Instantiate(wasm).value, wasm.body, []) == Some(CallsOf(w.enc, ops))
                <==> ProgramSize(w.enc, ops) <= 65408)
            && (ProgramSize(w.enc, ops) <= 65408 ==>
                  Exec(w, Machine([], []), Trace(Instantiate(wasm).value, wasm.body, []).value)
                  == Machine(RunModules(w, SectionsOf(f, ds, []).value, []), []))
    ensures PlainDefinitions(f, ds) ==> DefinitionsOps(f, true, ds) == DefinitionsOps(f, false, ds)
  {
    var ops := DefinitionsOps(f, true, ds);
    DefinitionsCode(f, ds, []);
    assert ProgramCode(f.text, SectionsOf(f, ds, []).value) == ops;
    HostReadsProgram(w.enc, ops);
    MeaningPreserved(w, SectionsOf(f, ds, []).value);
    PlainDefinitionsOps(f, ds);
  }
}
