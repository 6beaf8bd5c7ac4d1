// Meaning preservation: a host that runs the flat stream of calls, skipping the branch of
// a false `if` up to its own `else` or `endif`, performs exactly the calls that interpreting
// the DSL tree prescribes.
module Meaning {
  import opened Wrappers
  import opened CclAst
  import opened Codegen
  import opened Emit
  import opened MemoryLayout

  // `truth` decides a condition; it may depend on everything the host has done so far.
  datatype World = World(text: Text, enc: Encoding, truth: (seq<HostCall>, Bytes) -> bool)

  function Say0(fn: nat): HostCall {
    HostCall(fn, [])
  }

  function Say1(w: World, fn: nat, a: string): HostCall {
    HostCall(fn, [Payload(w.enc.utf8(a))])
  }

  function Say2(w: World, fn: nat, a: string, b: string): HostCall {
    HostCall(fn, [Payload(w.enc.utf8(a)), Payload(w.enc.utf8(b))])
  }

  // ----- interpreting the tree -----

  // The calls done after interpreting `rules`, when `done` were done before.
  function RunRules(w: World, rules: seq<Rule>, done: seq<HostCall>): seq<HostCall>
    decreases rules, 1
  {
    if rules == [] then done else RunRules(w, rules[1..], RunRule(w, rules[0], done))
  }

  function RunRule(w: World, r: Rule, done: seq<HostCall>): seq<HostCall>
    decreases r, 0
  {
    match r.value
    case If(x) => RunIf(w, x, done)
    case Range(g) =>
      var kind := "range_" + w.text.display(g.start) + "_" + w.text.display(g.end);
      RunRules(w, g.rules, done + [Say2(w, 0, kind, r.key)]) + [Say0(1)]
    case Map(entries) =>
      if IsFunctionCall(entries)
      then done + [Say2(w, 5, r.key, w.text.json(CallArgs(entries)))]
      else RunRules(w, entries, done)
    case _ => done + [Say2(w, 9, r.key, w.text.json(r.value))]
  }

  function RunIf(w: World, x: IfExpr, done: seq<HostCall>): seq<HostCall>
    decreases x, 0
  {
    var tested := done + [Say1(w, 6, x.conditionRaw)];
    if w.truth(done, w.enc.utf8(x.conditionRaw)) then RunRules(w, x.thenRules, tested)
    else if x.elseRules.Else? then RunRules(w, x.elseRules.rules, tested)
    else tested
  }

  function RunStep(w: World, step: ActionStep, done: seq<HostCall>): seq<HostCall> {
    var text := (s: string) => Payload(w.enc.utf8(s));
    match step
    case Metered(res, amount, to, data) =>
      var payload := if data.Some? then w.text.json(Map(data.value)) else "";
      done + [HostCall(3, [text(res), Word(amount), text(OrEmpty(to)), text(payload)])]
    case Anchor(ref, path) => done + [Say2(w, 4, OrEmpty(path), ref)]
    case PerformMeteredAction(ident, resource, amount) =>
      done + [HostCall(14, [text(ResourceName(resource)), Word(amount)]), Say1(w, 10, "Perform action: " + ident)]
    case TransferToken(token, amount, sender, to) =>
      done + [HostCall(15, [text(token), Word(amount), text(sender), text(to)])]
  }

  function RunSteps(w: World, steps: seq<ActionStep>, done: seq<HostCall>): seq<HostCall>
    decreases steps
  {
    if steps == [] then done else RunSteps(w, steps[1..], RunStep(w, steps[0], done))
  }

  function RunDescription(w: World, description: Option<string>, done: seq<HostCall>): seq<HostCall> {
    match description
    case None => done
    case Some(d) => done + [Say2(w, 9, "description", w.text.json(String(d)))]
  }

  function RunModule(w: World, m: DslModule, done: seq<HostCall>): seq<HostCall> {
    match m
    case Proposal(title, version, rules) => RunRules(w, rules, done + [Say2(w, 2, title, version)])
    case ActionHandler(event, steps) => RunSteps(w, steps, done + [Say1(w, 11, event)])
    case Section(kind, heading, rules) =>
      RunRules(w, rules, done + [Say2(w, 0, kind, OrEmpty(heading))]) + [Say0(1)]
    case Role(name, description, attributes) =>
      RunRules(w, attributes, RunDescription(w, description, done + [Say2(w, 0, "role", name)])) + [Say0(1)]
    case Unhandled(debug) => done + [Say1(w, 10, "Unhandled DslModule: " + debug)]
  }

  function RunModules(w: World, modules: seq<DslModule>, done: seq<HostCall>): seq<HostCall>
    decreases modules
  {
    if modules == [] then done else RunModules(w, modules[1..], RunModule(w, modules[0], done))
  }

  // ----- the bracket-stack machine -----

  // An open `if`: was the enclosing code live, did the condition hold, is this branch live.
  datatype Frame = Frame(outer: bool, holds: bool, live: bool)

  datatype Machine = Machine(done: seq<HostCall>, open: seq<Frame>)

  predicate Live(m: Machine) {
    m.open == [] || m.open[0].live
  }

  function Condition(c: HostCall): Bytes {
    if c.args != [] && c.args[0].Payload? then c.args[0].bytes else []
  }

  function Enter(w: World, m: Machine, test: HostCall): Machine {
    var holds := Live(m) && w.truth(m.done, Condition(test));
    Machine(if Live(m) then m.done + [test] else m.done, [Frame(Live(m), holds, holds)] + m.open)
  }

  function Turn(m: Machine): Machine {
    if m.open == [] then m
    else m.(open := [m.open[0].(live := m.open[0].outer && !m.open[0].holds)] + m.open[1..])
  }

  function Leave(m: Machine): Machine {
    if m.open == [] then m else m.(open := m.open[1..])
  }

  function Step(w: World, m: Machine, c: HostCall): Machine {
    if c.fn == 6 then Enter(w, m, c)
    else if c.fn == 7 then Turn(m)
    else if c.fn == 8 then Leave(m)
    else if Live(m) then m.(done := m.done + [c])
    else m
  }

  function Exec(w: World, m: Machine, calls: seq<HostCall>): Machine
    decreases calls
  {
    if calls == [] then m else Exec(w, Step(w, m, calls[0]), calls[1..])
  }

  function ExecOps(w: World, m: Machine, ops: seq<Opcode>): Machine {
    Exec(w, m, CallsOf(w.enc, ops))
  }

  // ----- the machine runs generated code as the tree prescribes -----

  // What the machine has done after code meant to produce `done`: all of it, or nothing when skipping.
  function After(m: Machine, done: seq<HostCall>): Machine {
    if Live(m) then m.(done := done) else m
  }

  lemma ExecNext(w: World, m: Machine, op: Opcode, rest: seq<Opcode>)
    ensures ExecOps(w, m, [op] + rest) == ExecOps(w, Step(w, m, CallOf(w.enc, op)), rest)
  {
    assert ([op] + rest)[1..] == rest;
    assert CallsOf(w.enc, [op] + rest)[1..] == CallsOf(w.enc, rest);
  }

  lemma ExecPlain(w: World, m: Machine, op: Opcode, rest: seq<Opcode>)
    requires !op.OpIf? && !op.OpElse? && !op.OpEndIf?
    ensures ExecOps(w, m, [op] + rest) == ExecOps(w, After(m, m.done + [CallOf(w.enc, op)]), rest)
  {
    ExecNext(w, m, op, rest);
  }

  lemma {:induction false} ExecRules(w: World, rules: seq<Rule>, rest: seq<Opcode>, m: Machine)
    ensures ExecOps(w, m, RulesCode(w.text, rules) + rest) == ExecOps(w, After(m, RunRules(w, rules, m.done)), rest)
    decreases rules, 1
  {
    if rules == [] {
      assert RulesCode(w.text, rules) + rest == rest;
    } else {
      var code, tail := RuleCode(w.text, rules[0]), RulesCode(w.text, rules[1..]);
      Associative(code, tail, rest);
      ExecRule(w, rules[0], tail + rest, m);
      ExecRules(w, rules[1..], rest, After(m, RunRule(w, rules[0], m.done)));
    }
  }

  lemma {:induction false} ExecRule(w: World, r: Rule, rest: seq<Opcode>, m: Machine)
    ensures ExecOps(w, m, RuleCode(w.text, r) + rest) == ExecOps(w, After(m, RunRule(w, r, m.done)), rest)
    decreases r, 0
  {
    match r.value {
      case If(x) =>
        ExecIf(w, x, rest, m);
      case Range(g) =>
        ExecSection(w, RangeKind(w.text, g.start, g.end), Some(r.key), g.rules, rest, m);
      case Map(entries) =>
        if IsFunctionCall(entries) {
          ExecPlain(w, m, RuleCode(w.text, r)[0], rest);
        } else {
          ExecRules(w, entries, rest, m);
        }
      case _ =>
        ExecPlain(w, m, RuleCode(w.text, r)[0], rest);
    }
  }

  lemma {:induction false} ExecSection(w: World, kind: string, heading: Option<string>, rules: seq<Rule>,
                                       rest: seq<Opcode>, m: Machine)
    ensures ExecOps(w, m, [OpBeginSection(kind, heading)] + RulesCode(w.text, rules) + [OpEndSection] + rest)
         == ExecOps(w, After(m, RunRules(w, rules, m.done + [Say2(w, 0, kind, OrEmpty(heading))]) + [Say0(1)]), rest)
    decreases rules, 3
  {
    var begin := OpBeginSection(kind, heading);
    SectionShape(begin, RulesCode(w.text, rules), rest);
    ExecPlain(w, m, begin, RulesCode(w.text, rules) + ([OpEndSection] + rest));
    ExecBody(w, rules, rest, After(m, m.done + [Say2(w, 0, kind, OrEmpty(heading))]));
  }

  // A section's rules and its end.
  lemma {:induction false} ExecBody(w: World, rules: seq<Rule>, rest: seq<Opcode>, m: Machine)
    ensures ExecOps(w, m, RulesCode(w.text, rules) + ([OpEndSection] + rest))
         == ExecOps(w, After(m, RunRules(w, rules, m.done) + [Say0(1)]), rest)
    decreases rules, 2
  {
    ExecRules(w, rules, [OpEndSection] + rest, m);
    ExecPlain(w, After(m, RunRules(w, rules, m.done)), OpEndSection, rest);
  }

  // The machine at the end of an `if`, in terms of what the tree prescribes.
  lemma IfOnMachine(w: World, x: IfExpr, m: Machine)
    ensures var entered := Enter(w, m, Say1(w, 6, x.conditionRaw));
            var ran := After(entered, RunRules(w, x.thenRules, entered.done));
            var left := if x.elseRules.Else? then After(Turn(ran), RunRules(w, x.elseRules.rules, Turn(ran).done)) else ran;
            Leave(left) == After(m, RunIf(w, x, m.done))
  {
    var entered := Enter(w, m, Say1(w, 6, x.conditionRaw));
    assert entered.open[1..] == m.open;
    var ran := After(entered, RunRules(w, x.thenRules, entered.done));
    assert ran.open == entered.open && Turn(ran).open[1..] == m.open;
  }

  lemma {:induction false} ExecElse(w: World, e: ElseRules, rest: seq<Opcode>, m: Machine)
    ensures var left := if e.Else? then After(Turn(m), RunRules(w, e.rules, Turn(m).done)) else m;
            ExecOps(w, m, ElseCode(w.text, e) + ([OpEndIf] + rest)) == ExecOps(w, Leave(left), rest)
    decreases e, 0
  {
    var close := [OpEndIf] + rest;
    match e {
      case NoElse =>
        assert [] + close == close;
        ExecNext(w, m, OpEndIf, rest);
      case Else(rules) =>
        Associative([OpElse], RulesCode(w.text, rules), close);
        ExecNext(w, m, OpElse, RulesCode(w.text, rules) + close);
        ExecRules(w, rules, close, Turn(m));
        ExecNext(w, After(Turn(m), RunRules(w, rules, Turn(m).done)), OpEndIf, rest);
    }
  }

  lemma {:induction false} ExecIf(w: World, x: IfExpr, rest: seq<Opcode>, m: Machine)
    ensures ExecOps(w, m, IfCode(w.text, x) + rest) == ExecOps(w, After(m, RunIf(w, x, m.done)), rest)
    decreases x, 0
  {
    var elsePart := ElseCode(w.text, x.elseRules) + ([OpEndIf] + rest);
    var entered := Enter(w, m, Say1(w, 6, x.conditionRaw));
    IfShape(w.text, x, rest);
    ExecNext(w, m, OpIf(x.conditionRaw), RulesCode(w.text, x.thenRules) + elsePart);
    ExecRules(w, x.thenRules, elsePart, entered);
    ExecElse(w, x.elseRules, rest, After(entered, RunRules(w, x.thenRules, entered.done)));
    IfOnMachine(w, x, m);
  }

  lemma {:induction false} ExecSteps(w: World, steps: seq<ActionStep>, rest: seq<Opcode>, m: Machine)
    ensures ExecOps(w, m, StepsCode(w.text, steps) + rest) == ExecOps(w, After(m, RunSteps(w, steps, m.done)), rest)
    decreases steps
  {
    if steps == [] {
      assert StepsCode(w.text, steps) + rest == rest;
    } else {
      var code, tail := StepCode(w.text, steps[0]), StepsCode(w.text, steps[1..]);
      Associative(code, tail, rest);
      ExecStep(w, steps[0], tail + rest, m);
      ExecSteps(w, steps[1..], rest, After(m, RunStep(w, steps[0], m.done)));
    }
  }

  lemma ExecStep(w: World, step: ActionStep, rest: seq<Opcode>, m: Machine)
    ensures ExecOps(w, m, StepCode(w.text, step) + rest) == ExecOps(w, After(m, RunStep(w, step, m.done)), rest)
  {
    var code := StepCode(w.text, step);
    if |code| == 2 {
      var next := Step(w, m, CallOf(w.enc, code[0]));
      assert code + rest == [code[0]] + ([code[1]] + rest);
      ExecPlain(w, m, code[0], [code[1]] + rest);
      ExecPlain(w, next, code[1], rest);
      assert m.done + [CallOf(w.enc, code[0])] + [CallOf(w.enc, code[1])]
          == m.done + [CallOf(w.enc, code[0]), CallOf(w.enc, code[1])];
    } else {
      ExecPlain(w, m, code[0], rest);
    }
  }

  lemma ExecModule(w: World, module_: DslModule, rest: seq<Opcode>, m: Machine)
    ensures ExecOps(w, m, ModuleCode(w.text, module_) + rest) == ExecOps(w, After(m, RunModule(w, module_, m.done)), rest)
  {
    var code := ModuleCode(w.text, module_);
    match module_ {
      case Proposal(title, version, rules) =>
        var begun := After(m, m.done + [Say2(w, 2, title, version)]);
        Associative([code[0]], RulesCode(w.text, rules), rest);
        ExecPlain(w, m, code[0], RulesCode(w.text, rules) + rest);
        ExecRules(w, rules, rest, begun);
      case ActionHandler(event, steps) =>
        var begun := After(m, m.done + [Say1(w, 11, event)]);
        Associative([code[0]], StepsCode(w.text, steps), rest);
        ExecPlain(w, m, code[0], StepsCode(w.text, steps) + rest);
        ExecSteps(w, steps, rest, begun);
      case Section(kind, heading, rules) =>
        ExecSection(w, kind, heading, rules, rest, m);
      case Role(name, description, attributes) =>
        ExecRole(w, name, description, attributes, rest, m);
      case Unhandled(debug) =>
        ExecPlain(w, m, code[0], rest);
    }
  }

  lemma ExecDescription(w: World, description: Option<string>, rest: seq<Opcode>, m: Machine)
    ensures ExecOps(w, m, DescriptionCode(w.text, description) + rest)
         == ExecOps(w, After(m, RunDescription(w, description, m.done)), rest)
  {
    if description.Some? {
      ExecPlain(w, m, DescriptionCode(w.text, description)[0], rest);
    } else {
      assert DescriptionCode(w.text, description) + rest == rest;
    }
  }

  lemma ExecRole(w: World, name: string, description: Option<string>, attributes: seq<Rule>, rest: seq<Opcode>, m: Machine)
    ensures var role := Role(name, description, attributes);
            ExecOps(w, m, ModuleCode(w.text, role) + rest) == ExecOps(w, After(m, RunModule(w, role, m.done)), rest)
  {
    var begin, about, code := OpBeginSection("role", Some(name)), DescriptionCode(w.text, description), RulesCode(w.text, attributes);
    var tail := code + ([OpEndSection] + rest);
    RoleShape(begin, about, code, rest);
    var begun := After(m, m.done + [Say2(w, 0, "role", name)]);
    ExecPlain(w, m, begin, about + tail);
    ExecDescription(w, description, tail, begun);
    ExecBody(w, attributes, rest, After(begun, RunDescription(w, description, begun.done)));
  }

  lemma {:induction false} ExecModules(w: World, modules: seq<DslModule>, m: Machine)
    ensures ExecOps(w, m, ProgramCode(w.text, modules)) == After(m, RunModules(w, modules, m.done))
    decreases modules
  {
    if modules != [] {
      ExecModule(w, modules[0], ProgramCode(w.text, modules[1..]), m);
      ExecModules(w, modules[1..], After(m, RunModule(w, modules[0], m.done)));
    }
  }

  // Running the generated opcodes performs exactly the calls the tree prescribes, for every
  // way the conditions may come out, and leaves no `if` open.
  lemma MeaningPreserved(w: World, modules: seq<DslModule>)
    ensures Exec(w, Machine([], []), CallsOf(w.enc, ProgramCode(w.text, modules)))
         == Machine(RunModules(w, modules, []), [])
  {
    ExecModules(w, modules, Machine([], []));
  }

  // The whole back end: generate, emit, instantiate in one page, let the host read each
  // argument out of linear memory, and run.
  lemma CompiledProgramMeansItsTree(w: World, modules: seq<DslModule>)
    requires ProgramSize(w.enc, ProgramCode(w.text, modules)) <= 65408
    ensures var wasm := WasmOf(w.enc, ProgramCode(w.text, modules));
            && Instantiate(wasm).Some?
            && Trace(Instantiate(wasm).value, wasm.body, []).Some?
            && Exec(w, Machine([], []), Trace(Instantiate(wasm).value, wasm.body, []).value)
            == Machine(RunModules(w, modules, []), [])
  {
    HostReadsProgram(w.enc, ProgramCode(w.text, modules));
    MeaningPreserved(w, modules);
  }

  // ----- executed sections balance -----

  // Sections still open after these calls; None once an end has no begin.
  function OpenSections(done: seq<HostCall>): Option<nat> {
    if done == [] then Some(0) else Opened(OpenSections(done[..|done| - 1]), done[|done| - 1].fn)
  }

  function Opened(open: Option<nat>, fn: nat): Option<nat> {
    if open.None? then None
    else if fn == 0 then Some(open.value + 1)
    else if fn == 1 then (if open.value == 0 then None else Some(open.value - 1))
    else open
  }

  lemma OpenSectionsNext(done: seq<HostCall>, c: HostCall)
    ensures OpenSections(done + [c]) == Opened(OpenSections(done), c.fn)
  {
    assert (done + [c])[..|done|] == done;
  }

  lemma NeutralCall(done: seq<HostCall>, c: HostCall)
    requires c.fn > 1
    ensures OpenSections(done + [c]) == OpenSections(done)
  {
    OpenSectionsNext(done, c);
  }

  lemma {:induction false} RulesBalance(w: World, rules: seq<Rule>, done: seq<HostCall>)
    ensures OpenSections(RunRules(w, rules, done)) == OpenSections(done)
    decreases rules, 1
  {
    if rules != [] {
      RuleBalances(w, rules[0], done);
      RulesBalance(w, rules[1..], RunRule(w, rules[0], done));
    }
  }

  lemma {:induction false} RuleBalances(w: World, r: Rule, done: seq<HostCall>)
    ensures OpenSections(RunRule(w, r, done)) == OpenSections(done)
    decreases r, 0
  {
    match r.value {
      case If(x) =>
        IfBalances(w, x, done);
      case Range(g) =>
        SectionBalances(w, Say2(w, 0, RangeKind(w.text, g.start, g.end), r.key), g.rules, done);
      case Map(entries) =>
        if IsFunctionCall(entries) {
          NeutralCall(done, Say2(w, 5, r.key, w.text.json(CallArgs(entries))));
        } else {
          RulesBalance(w, entries, done);
        }
      case _ =>
        NeutralCall(done, Say2(w, 9, r.key, w.text.json(r.value)));
    }
  }

  lemma {:induction false} IfBalances(w: World, x: IfExpr, done: seq<HostCall>)
    ensures OpenSections(RunIf(w, x, done)) == OpenSections(done)
    decreases x, 0
  {
    var test := Say1(w, 6, x.conditionRaw);
    NeutralCall(done, test);
    RulesBalance(w, x.thenRules, done + [test]);
    if x.elseRules.Else? {
      RulesBalance(w, x.elseRules.rules, done + [test]);
    }
  }

  lemma {:induction false} SectionBalances(w: World, begin: HostCall, rules: seq<Rule>, done: seq<HostCall>)
    requires begin.fn == 0
    ensures OpenSections(RunRules(w, rules, done + [begin]) + [Say0(1)]) == OpenSections(done)
    decreases rules, 2
  {
    OpenSectionsNext(done, begin);
    RulesBalance(w, rules, done + [begin]);
    OpenSectionsNext(RunRules(w, rules, done + [begin]), Say0(1));
  }

  lemma {:induction false} StepsBalance(w: World, steps: seq<ActionStep>, done: seq<HostCall>)
    ensures OpenSections(RunSteps(w, steps, done)) == OpenSections(done)
    decreases steps
  {
    if steps != [] {
      StepBalances(w, steps[0], done);
      StepsBalance(w, steps[1..], RunStep(w, steps[0], done));
    }
  }

  lemma StepBalances(w: World, step: ActionStep, done: seq<HostCall>)
    ensures OpenSections(RunStep(w, step, done)) == OpenSections(done)
  {
    var next := RunStep(w, step, done);
    var first := next[|done|];
    NeutralCall(done, first);
    if |next| == |done| + 2 {
      NeutralCall(done + [first], next[|done| + 1]);
      assert next == done + [first] + [next[|done| + 1]];
    }
  }

  lemma DescriptionBalances(w: World, description: Option<string>, done: seq<HostCall>)
    ensures OpenSections(RunDescription(w, description, done)) == OpenSections(done)
  {
    if description.Some? {
      NeutralCall(done, Say2(w, 9, "description", w.text.json(String(description.value))));
    }
  }

  lemma RoleBalances(w: World, name: string, description: Option<string>, attributes: seq<Rule>, done: seq<HostCall>)
    ensures var begun := done + [Say2(w, 0, "role", name)];
            OpenSections(RunRules(w, attributes, RunDescription(w, description, begun)) + [Say0(1)]) == OpenSections(done)
  {
    var begun := done + [Say2(w, 0, "role", name)];
    OpenSectionsNext(done, Say2(w, 0, "role", name));
    DescriptionBalances(w, description, begun);
    RulesBalance(w, attributes, RunDescription(w, description, begun));
    OpenSectionsNext(RunRules(w, attributes, RunDescription(w, description, begun)), Say0(1));
  }

  lemma ModuleBalances(w: World, m: DslModule, done: seq<HostCall>)
    ensures OpenSections(RunModule(w, m, done)) == OpenSections(done)
  {
    match m {
      case Proposal(title, version, rules) =>
        NeutralCall(done, Say2(w, 2, title, version));
        RulesBalance(w, rules, done + [Say2(w, 2, title, version)]);
      case ActionHandler(event, steps) =>
        NeutralCall(done, Say1(w, 11, event));
        StepsBalance(w, steps, done + [Say1(w, 11, event)]);
      case Section(kind, heading, rules) =>
        SectionBalances(w, Say2(w, 0, kind, OrEmpty(heading)), rules, done);
      case Role(name, description, attributes) =>
        RoleBalances(w, name, description, attributes, done);
      case Unhandled(debug) =>
        NeutralCall(done, Say1(w, 10, "Unhandled DslModule: " + debug));
    }
  }

  // Whichever branches are taken, the executed calls never end a section that is not open
  // and leave none open.
  lemma {:induction false} ExecutedSectionsBalance(w: World, modules: seq<DslModule>, done: seq<HostCall>)
    ensures OpenSections(RunModules(w, modules, done)) == OpenSections(done)
    decreases modules
  {
    if modules != [] {
      ModuleBalances(w, modules[0], done);
      ExecutedSectionsBalance(w, modules[1..], RunModule(w, modules[0], done));
    }
  }

  // The same of the flat program itself.
  lemma {:induction false} FlatSectionsBalance(w: World, modules: seq<DslModule>)
    ensures OpenSections(Exec(w, Machine([], []), CallsOf(w.enc, ProgramCode(w.text, modules))).done) == Some(0)
  {
    MeaningPreserved(w, modules);
    ExecutedSectionsBalance(w, modules, []);
  }
}
