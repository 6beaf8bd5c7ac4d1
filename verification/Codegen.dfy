// Flattening the rule tree into opcodes: the generator that pushes onto a mutable
// opcode vector, and the function of the tree that it computes.
module Codegen {
  import opened Wrappers
  import opened CclAst

  // ----- the code of a tree -----

  function RangeKind(t: Text, start: Float, end: Float): string {
    "range_" + t.display(start) + "_" + t.display(end)
  }

  predicate IsFunctionCall(entries: seq<Rule>) {
    entries != [] && entries[0].key == "function_name"
  }

  // The value of the first entry named "args", or an empty list.
  function CallArgs(entries: seq<Rule>): RuleValue {
    if entries == [] then List([])
    else if entries[0].key == "args" then entries[0].value
    else CallArgs(entries[1..])
  }

  function RulesCode(t: Text, rules: seq<Rule>): seq<Opcode> {
    if rules == [] then [] else RuleCode(t, rules[0]) + RulesCode(t, rules[1..])
  }

  function RuleCode(t: Text, r: Rule): seq<Opcode> {
    match r.value
    case If(x) => IfCode(t, x)
    case Range(g) =>
      [OpBeginSection(RangeKind(t, g.start, g.end), Some(r.key))] + RulesCode(t, g.rules) + [OpEndSection]
    case Map(entries) =>
      if IsFunctionCall(entries)
      then [OpCallHost(r.key, t.json(CallArgs(entries)))]
      else RulesCode(t, entries)
    case _ => [OpSetProperty(r.key, t.json(r.value))]
  }

  function IfCode(t: Text, x: IfExpr): seq<Opcode> {
    [OpIf(x.conditionRaw)] + RulesCode(t, x.thenRules) + ElseCode(t, x.elseRules) + [OpEndIf]
  }

  function ElseCode(t: Text, e: ElseRules): seq<Opcode> {
    match e
    case NoElse => []
    case Else(rules) => [OpElse] + RulesCode(t, rules)
  }

  function ResourceName(r: ResourceType): string {
    match r
    case Cpu => "Cpu"
    case Memory => "Memory"
    case Io => "Io"
    case Token => "Token"
  }

  lemma ResourceNames()
    ensures ResourceName(Cpu) == "Cpu" && ResourceName(Memory) == "Memory" && ResourceName(Io) == "Io" && ResourceName(Token) == "Token"
    ensures forall r, s :: ResourceName(r) == ResourceName(s) ==> r == s
  {
    assert "Cpu"[0] != "Memory"[0] && "Cpu"[0] != "Io"[0] && "Cpu"[0] != "Token"[0];
    assert "Memory"[0] != "Io"[0] && "Memory"[0] != "Token"[0] && "Io"[0] != "Token"[0];
  }

  function StepCode(t: Text, step: ActionStep): seq<Opcode> {
    match step
    case Metered(res, amount, to, data) =>
      [OpMintToken(res, amount, to, if data.Some? then Some(t.json(Map(data.value))) else None)]
    case Anchor(ref, path) => [OpAnchorData(path, ref)]
    case PerformMeteredAction(ident, resource, amount) =>
      [OpUseResource(ResourceName(resource), amount), OpTodo("Perform action: " + ident)]
    case TransferToken(token, amount, sender, recipient) =>
      [OpTransferToken(token, amount, Some(sender), recipient)]
  }

  function StepsCode(t: Text, steps: seq<ActionStep>): seq<Opcode> {
    if steps == [] then [] else StepCode(t, steps[0]) + StepsCode(t, steps[1..])
  }

  function DescriptionCode(t: Text, description: Option<string>): seq<Opcode> {
    match description
    case None => []
    case Some(d) => [OpSetProperty("description", t.json(String(d)))]
  }

  function ModuleCode(t: Text, m: DslModule): seq<Opcode> {
    match m
    case Proposal(title, version, rules) => [OpCreateProposal(title, Some(version))] + RulesCode(t, rules)
    case ActionHandler(event, steps) => [OpOnEvent(event)] + StepsCode(t, steps)
    case Section(kind, heading, rules) => [OpBeginSection(kind, heading)] + RulesCode(t, rules) + [OpEndSection]
    case Role(name, description, attributes) =>
      [OpBeginSection("role", Some(name))] + DescriptionCode(t, description) + RulesCode(t, attributes) + [OpEndSection]
    case Unhandled(debug) => [OpTodo("Unhandled DslModule: " + debug)]
  }

  function ProgramCode(t: Text, modules: seq<DslModule>): seq<Opcode> {
    if modules == [] then [] else ModuleCode(t, modules[0]) + ProgramCode(t, modules[1..])
  }

  lemma Associative<T>(a: seq<T>, b: seq<T>, c: seq<T>)
    ensures a + b + c == a + (b + c)
  {
  }

  lemma SectionShape(begin: Opcode, body: seq<Opcode>, rest: seq<Opcode>)
    ensures [begin] + body + [OpEndSection] + rest == [begin] + (body + ([OpEndSection] + rest))
  {
    Associative([begin] + body, [OpEndSection], rest);
    Associative([begin], body, [OpEndSection] + rest);
  }

  lemma RoleShape(begin: Opcode, about: seq<Opcode>, body: seq<Opcode>, rest: seq<Opcode>)
    ensures [begin] + about + body + [OpEndSection] + rest == [begin] + (about + (body + ([OpEndSection] + rest)))
  {
    Associative([begin], about, body);
    SectionShape(begin, about + body, rest);
    Associative(about, body, [OpEndSection] + rest);
  }

  lemma IfShape(t: Text, x: IfExpr, rest: seq<Opcode>)
    ensures IfCode(t, x) + rest
         == [OpIf(x.conditionRaw)] + (RulesCode(t, x.thenRules) + (ElseCode(t, x.elseRules) + ([OpEndIf] + rest)))
  {
    var test, body, other := [OpIf(x.conditionRaw)], RulesCode(t, x.thenRules), ElseCode(t, x.elseRules);
    Associative(test + body + other, [OpEndIf], rest);
    Associative(test + body, other, [OpEndIf] + rest);
    Associative(test, body, other + ([OpEndIf] + rest));
  }

  lemma ProgramCodeAt(t: Text, modules: seq<DslModule>, i: nat)
    requires i < |modules|
    ensures ProgramCode(t, modules[i..]) == ModuleCode(t, modules[i]) + ProgramCode(t, modules[i + 1..])
  {
    assert modules[i..][1..] == modules[i + 1..];
  }

  lemma StepsCodeAt(t: Text, steps: seq<ActionStep>, i: nat)
    requires i < |steps|
    ensures StepsCode(t, steps[i..]) == StepCode(t, steps[i]) + StepsCode(t, steps[i + 1..])
  {
    assert steps[i..][1..] == steps[i + 1..];
  }

  // ----- the generator -----

  class WasmGenerator {
    const text: Text
    var ops: seq<Opcode>

    constructor (text: Text)
      ensures this.text == text && ops == []
    {
      this.text := text;
      ops := [];
    }

    method Generate(modules: seq<DslModule>) returns (program: seq<Opcode>)
      modifies this`ops
      ensures program == ops == old(ops) + ProgramCode(text, modules)
    {
      ghost var code := [];
      var i := 0;
      while i < |modules|
        invariant i <= |modules|
        invariant ops == old(ops) + code
        invariant ProgramCode(text, modules) == code + ProgramCode(text, modules[i..])
      {
        ProgramCodeAt(text, modules, i);
        Associative(old(ops), code, ModuleCode(text, modules[i]));
        Associative(code, ModuleCode(text, modules[i]), ProgramCode(text, modules[i + 1..]));
        WalkModule(modules[i]);
        code := code + ModuleCode(text, modules[i]);
        i := i + 1;
      }
      program := ops;
    }

    method WalkModule(m: DslModule)
      modifies this`ops
      ensures ops == old(ops) + ModuleCode(text, m)
    {
      match m {
        case Proposal(title, version, rules) =>
          ops := ops + [OpCreateProposal(title, Some(version))];
          WalkRules(rules);
        case ActionHandler(event, steps) =>
          ops := ops + [OpOnEvent(event)];
          WalkSteps(steps);
        case Section(kind, heading, rules) =>
          ops := ops + [OpBeginSection(kind, heading)];
          WalkRules(rules);
          ops := ops + [OpEndSection];
        case Role(name, description, attributes) =>
          WalkRole(name, description, attributes);
        case Unhandled(debug) =>
          ops := ops + [OpTodo("Unhandled DslModule: " + debug)];
      }
    }

    method WalkRole(name: string, description: Option<string>, attributes: seq<Rule>)
      modifies this`ops
      ensures ops == old(ops) + ModuleCode(text, Role(name, description, attributes))
    {
      ghost var before, begin := ops, OpBeginSection("role", Some(name));
      ghost var about, code := DescriptionCode(text, description), RulesCode(text, attributes);
      ops := ops + [OpBeginSection("role", Some(name))];
      if description.Some? {
        ops := ops + [OpSetProperty("description", text.json(String(description.value)))];
      }
      assert ops == before + [begin] + about;
      WalkRules(attributes);
      ops := ops + [OpEndSection];
      Associative(before, [begin], about);
      Associative(before, [begin] + about, code);
      Associative(before, [begin] + about + code, [OpEndSection]);
    }

    method WalkSteps(steps: seq<ActionStep>)
      modifies this`ops
      ensures ops == old(ops) + StepsCode(text, steps)
    {
      ghost var code := [];
      var i := 0;
      while i < |steps|
        invariant i <= |steps|
        invariant ops == old(ops) + code
        invariant StepsCode(text, steps) == code + StepsCode(text, steps[i..])
      {
        StepsCodeAt(text, steps, i);
        Associative(old(ops), code, StepCode(text, steps[i]));
        Associative(code, StepCode(text, steps[i]), StepsCode(text, steps[i + 1..]));
        WalkStep(steps[i]);
        code := code + StepCode(text, steps[i]);
        i := i + 1;
      }
    }

    method WalkStep(step: ActionStep)
      modifies this`ops
      ensures ops == old(ops) + StepCode(text, step)
    {
      match step {
        case Metered(res, amount, to, data) =>
          var dataJson := if data.Some? then Some(text.json(Map(data.value))) else None;
          ops := ops + [OpMintToken(res, amount, to, dataJson)];
        case Anchor(ref, path) =>
          ops := ops + [OpAnchorData(path, ref)];
        case PerformMeteredAction(ident, resource, amount) =>
          ops := ops + [OpUseResource(ResourceName(resource), amount)];
          ops := ops + [OpTodo("Perform action: " + ident)];
        case TransferToken(token, amount, sender, recipient) =>
          ops := ops + [OpTransferToken(token, amount, Some(sender), recipient)];
      }
    }

    method WalkRules(rules: seq<Rule>)
      modifies this`ops
      ensures ops == old(ops) + RulesCode(text, rules)
      decreases rules, 1
    {
      var i := 0;
      while i < |rules|
        invariant i <= |rules|
        invariant ops + RulesCode(text, rules[i..]) == old(ops) + RulesCode(text, rules)
      {
        var r := rules[i];
        ghost var before := ops;
        assert rules[i..][1..] == rules[i + 1..];
        match r.value {
          case If(x) =>
            WalkIfExpr(x);
          case Range(g) =>
            ops := ops + [OpBeginSection(RangeKind(text, g.start, g.end), Some(r.key))];
            WalkRules(g.rules);
            ops := ops + [OpEndSection];
          case Map(entries) =>
            if IsFunctionCall(entries) {
              WalkFunctionCall(r.key, CallArgs(entries));
            } else {
              WalkRules(entries);
            }
          case _ =>
            ops := ops + [OpSetProperty(r.key, text.json(r.value))];
        }
        assert ops == before + RuleCode(text, r);
        i := i + 1;
      }
    }

    method WalkIfExpr(x: IfExpr)
      modifies this`ops
      ensures ops == old(ops) + IfCode(text, x)
      decreases x, 0
    {
      ops := ops + [OpIf(x.conditionRaw)];
      WalkRules(x.thenRules);
      if x.elseRules.Else? {
        ops := ops + [OpElse];
        WalkRules(x.elseRules.rules);
      }
      ops := ops + [OpEndIf];
    }

    method WalkFunctionCall(fnName: string, args: RuleValue)
      modifies this`ops
      ensures ops == old(ops) + [OpCallHost(fnName, text.json(args))]
    {
      ops := ops + [OpCallHost(fnName, text.json(args))];
    }
  }
}
