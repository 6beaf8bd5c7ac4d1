// Reading generated code back. A bracket-matching reader recovers, from the opcodes of
// any rule list, that list up to what the generator erases: the grouping of plain maps,
// the key of an `if`, and the difference between values with the same JSON text.
module Decode {
  import opened Wrappers
  import opened CclAst
  import opened Codegen

  datatype Tree =
    | Leaf(key: string, json: string)
    | Call(name: string, payload: string)
    | Interval(key: string, start: Float, end: Float, body: seq<Tree>)
    | Branch(condition: string, thenBody: seq<Tree>, elseBody: TreeElse)

  datatype TreeElse = NoTreeElse | TreeElse(body: seq<Tree>)

  // ----- what the generator keeps of a rule list -----

  function EraseRules(t: Text, rules: seq<Rule>): seq<Tree> {
    if rules == [] then [] else EraseRule(t, rules[0]) + EraseRules(t, rules[1..])
  }

  function EraseRule(t: Text, r: Rule): seq<Tree> {
    match r.value
    case If(x) => [Branch(x.conditionRaw, EraseRules(t, x.thenRules), EraseElse(t, x.elseRules))]
    case Range(g) => [Interval(r.key, g.start, g.end, EraseRules(t, g.rules))]
    case Map(entries) =>
      if IsFunctionCall(entries)
      then [Call(r.key, t.json(CallArgs(entries)))]
      else EraseRules(t, entries)
    case _ => [Leaf(r.key, t.json(r.value))]
  }

  function EraseElse(t: Text, e: ElseRules): TreeElse {
    match e
    case NoElse => NoTreeElse
    case Else(rules) => TreeElse(EraseRules(t, rules))
  }

  // ----- the reader -----

  // The two numbers printed in a range's section kind.
  ghost function ReadKind(t: Text, kind: string): Option<(Float, Float)> {
    if exists s, e :: RangeKind(t, s, e) == kind then
      var s, e :| RangeKind(t, s, e) == kind;
      Some((s, e))
    else
      None
  }

  predicate Closes(op: Opcode) {
    op.OpEndSection? || op.OpElse? || op.OpEndIf?
  }

  // Reads trees up to the end of the code or the first closing bracket that is not theirs.
  ghost function ReadTrees(t: Text, code: seq<Opcode>): (r: Option<(seq<Tree>, seq<Opcode>)>)
    ensures r.Some? ==> |r.value.1| <= |code|
    decreases |code|, 1
  {
    if code == [] || Closes(code[0]) then Some(([], code))
    else
      match ReadTree(t, code)
      case None => None
      case Some((tree, rest)) =>
        match ReadTrees(t, rest)
        case None => None
        case Some((trees, last)) => Some(([tree] + trees, last))
  }

  ghost function ReadTree(t: Text, code: seq<Opcode>): (r: Option<(Tree, seq<Opcode>)>)
    requires code != []
    ensures r.Some? ==> |r.value.1| < |code|
    decreases |code|, 0
  {
    match code[0]
    case OpSetProperty(key, json) => Some((Leaf(key, json), code[1..]))
    case OpCallHost(name, payload) => Some((Call(name, payload), code[1..]))
    case OpBeginSection(kind, heading) =>
      (match (ReadKind(t, kind), heading, ReadTrees(t, code[1..]))
       case (Some((s, e)), Some(key), Some((body, rest))) =>
         if rest != [] && rest[0].OpEndSection? then Some((Interval(key, s, e, body), rest[1..])) else None
       case _ => None)
    case OpIf(condition) =>
      (match ReadTrees(t, code[1..])
       case None => None
       case Some((body, rest)) =>
         if rest != [] && rest[0].OpEndIf? then Some((Branch(condition, body, NoTreeElse), rest[1..]))
         else if rest != [] && rest[0].OpElse? then
           (match ReadTrees(t, rest[1..])
            case None => None
            case Some((other, last)) =>
              if last != [] && last[0].OpEndIf?
              then Some((Branch(condition, body, TreeElse(other)), last[1..]))
              else None)
         else None)
    case _ => None
  }

  // ----- the printed range determines its numbers -----

  lemma {:induction false} SplitAtUnderscore(a: string, b: string, c: string, d: string)
    requires '_' !in a && '_' !in c
    requires a + ['_'] + b == c + ['_'] + d
    ensures a == c && b == d
  {
    var s := a + ['_'] + b;
    assert s[|a|] == '_' && s[|c|] == '_';
    assert forall i | 0 <= i < |a| :: s[i] == a[i] != '_';
    assert forall i | 0 <= i < |c| :: s[i] == c[i] != '_';
    assert a == s[..|a|] == c;
    assert b == s[|a| + 1..] == d;
  }

  lemma RangeKindInjective(t: Text, s1: Float, e1: Float, s2: Float, e2: Float)
    requires FaithfulDisplay(t.display)
    requires RangeKind(t, s1, e1) == RangeKind(t, s2, e2)
    ensures s1 == s2 && e1 == e2
  {
    var k1, k2 := RangeKind(t, s1, e1), RangeKind(t, s2, e2);
    assert k1[6..] == t.display(s1) + ['_'] + t.display(e1);
    assert k2[6..] == t.display(s2) + ['_'] + t.display(e2);
    SplitAtUnderscore(t.display(s1), t.display(e1), t.display(s2), t.display(e2));
  }

  lemma ReadKindOfRange(t: Text, s: Float, e: Float)
    requires FaithfulDisplay(t.display)
    ensures ReadKind(t, RangeKind(t, s, e)) == Some((s, e))
  {
    var r := ReadKind(t, RangeKind(t, s, e));
    assert r.Some?;
    RangeKindInjective(t, r.value.0, r.value.1, s, e);
  }

  // ----- the round trip -----

  // Reading generated code followed by anything continues from where the code ends.
  lemma {:induction false} ReadRules(t: Text, rules: seq<Rule>, rest: seq<Opcode>, trees: seq<Tree>, last: seq<Opcode>)
    requires FaithfulDisplay(t.display)
    requires ReadTrees(t, rest) == Some((trees, last))
    ensures ReadTrees(t, RulesCode(t, rules) + rest) == Some((EraseRules(t, rules) + trees, last))
    decreases rules, 1
  {
    if rules == [] {
      assert RulesCode(t, rules) + rest == rest;
      assert EraseRules(t, rules) + trees == trees;
    } else {
      var tail := RulesCode(t, rules[1..]) + rest;
      ReadRules(t, rules[1..], rest, trees, last);
      ReadRule(t, rules[0], tail, EraseRules(t, rules[1..]) + trees, last);
      assert RulesCode(t, rules) + rest == RuleCode(t, rules[0]) + tail;
      assert EraseRules(t, rules) + trees == EraseRule(t, rules[0]) + (EraseRules(t, rules[1..]) + trees);
    }
  }

  lemma {:induction false} ReadRule(t: Text, r: Rule, rest: seq<Opcode>, trees: seq<Tree>, last: seq<Opcode>)
    requires FaithfulDisplay(t.display)
    requires ReadTrees(t, rest) == Some((trees, last))
    ensures ReadTrees(t, RuleCode(t, r) + rest) == Some((EraseRule(t, r) + trees, last))
    decreases r, 0
  {
    match r.value {
      case If(x) =>
        ReadIf(t, x, rest);
        assert RuleCode(t, r) + rest != [];
      case Range(g) =>
        var begin, code := OpBeginSection(RangeKind(t, g.start, g.end), Some(r.key)), RulesCode(t, g.rules);
        SectionShape(begin, code, rest);
        ReadBody(t, g.rules, [OpEndSection] + rest);
        ReadInterval(t, r.key, g, code, EraseRules(t, g.rules), rest);
      case Map(entries) =>
        if IsFunctionCall(entries) {
          assert (RuleCode(t, r) + rest)[1..] == rest;
        } else {
          ReadRules(t, entries, rest, trees, last);
        }
      case _ =>
        assert (RuleCode(t, r) + rest)[1..] == rest;
    }
  }

  lemma {:induction false} ReadIf(t: Text, x: IfExpr, rest: seq<Opcode>)
    requires FaithfulDisplay(t.display)
    ensures IfCode(t, x) + rest != []
    ensures (IfCode(t, x) + rest)[0].OpIf?
    ensures ReadTree(t, IfCode(t, x) + rest)
         == Some((Branch(x.conditionRaw, EraseRules(t, x.thenRules), EraseElse(t, x.elseRules)), rest))
    decreases x, 0
  {
    var body, close := EraseRules(t, x.thenRules), [OpEndIf] + rest;
    IfShape(t, x, rest);
    ReadBody(t, x.thenRules, ElseCode(t, x.elseRules) + close);
    match x.elseRules {
      case NoElse =>
        assert ElseCode(t, x.elseRules) + close == close;
        ReadShortBranch(t, x.conditionRaw, RulesCode(t, x.thenRules), body, rest);
      case Else(rules) =>
        Associative([OpElse], RulesCode(t, rules), close);
        ReadBody(t, rules, close);
        ReadLongBranch(t, x.conditionRaw, RulesCode(t, x.thenRules), body,
                       RulesCode(t, rules), EraseRules(t, rules), rest);
    }
  }

  // A bracketed body reads back on its own, leaving its closing bracket.
  lemma {:induction false} ReadBody(t: Text, rules: seq<Rule>, close: seq<Opcode>)
    requires FaithfulDisplay(t.display)
    requires close != [] && Closes(close[0])
    ensures ReadTrees(t, RulesCode(t, rules) + close) == Some((EraseRules(t, rules), close))
    decreases rules, 2
  {
    ReadRules(t, rules, close, [], close);
    assert EraseRules(t, rules) + [] == EraseRules(t, rules);
  }

  lemma ReadShortBranch(t: Text, condition: string, code: seq<Opcode>, body: seq<Tree>, rest: seq<Opcode>)
    requires ReadTrees(t, code + ([OpEndIf] + rest)) == Some((body, [OpEndIf] + rest))
    ensures ReadTree(t, [OpIf(condition)] + (code + ([OpEndIf] + rest))) == Some((Branch(condition, body, NoTreeElse), rest))
  {
    assert ([OpIf(condition)] + (code + ([OpEndIf] + rest)))[1..] == code + ([OpEndIf] + rest);
    assert ([OpEndIf] + rest)[1..] == rest;
  }

  lemma ReadLongBranch(t: Text, condition: string, code: seq<Opcode>, body: seq<Tree>,
                       elseCode: seq<Opcode>, other: seq<Tree>, rest: seq<Opcode>)
    requires ReadTrees(t, code + ([OpElse] + (elseCode + ([OpEndIf] + rest))))
          == Some((body, [OpElse] + (elseCode + ([OpEndIf] + rest))))
    requires ReadTrees(t, elseCode + ([OpEndIf] + rest)) == Some((other, [OpEndIf] + rest))
    ensures ReadTree(t, [OpIf(condition)] + (code + ([OpElse] + (elseCode + ([OpEndIf] + rest)))))
         == Some((Branch(condition, body, TreeElse(other)), rest))
  {
    var close := [OpEndIf] + rest;
    var elsePart := [OpElse] + (elseCode + close);
    assert ([OpIf(condition)] + (code + elsePart))[1..] == code + elsePart;
    assert elsePart[1..] == elseCode + close;
    assert close[1..] == rest;
  }

  lemma ReadInterval(t: Text, key: string, g: RangeRule, code: seq<Opcode>, body: seq<Tree>, rest: seq<Opcode>)
    requires FaithfulDisplay(t.display)
    requires ReadTrees(t, code + ([OpEndSection] + rest)) == Some((body, [OpEndSection] + rest))
    ensures ReadTree(t, [OpBeginSection(RangeKind(t, g.start, g.end), Some(key))] + (code + ([OpEndSection] + rest)))
         == Some((Interval(key, g.start, g.end, body), rest))
  {
    ReadKindOfRange(t, g.start, g.end);
    var begin := OpBeginSection(RangeKind(t, g.start, g.end), Some(key));
    assert ([begin] + (code + ([OpEndSection] + rest)))[1..] == code + ([OpEndSection] + rest);
    assert ([OpEndSection] + rest)[1..] == rest;
  }

  // Decoding the opcodes of a rule list gives exactly what the generator keeps of it.
  lemma DecodeRoundTrip(t: Text, rules: seq<Rule>)
    requires FaithfulDisplay(t.display)
    ensures ReadTrees(t, RulesCode(t, rules)) == Some((EraseRules(t, rules), []))
  {
    ReadRules(t, rules, [], [], []);
    assert RulesCode(t, rules) + [] == RulesCode(t, rules);
    assert EraseRules(t, rules) + [] == EraseRules(t, rules);
  }

  // ----- nothing else is kept -----

  function Flatten(t: Text, trees: seq<Tree>): seq<Opcode> {
    if trees == [] then [] else FlattenTree(t, trees[0]) + Flatten(t, trees[1..])
  }

  function FlattenTree(t: Text, tree: Tree): seq<Opcode> {
    match tree
    case Leaf(key, json) => [OpSetProperty(key, json)]
    case Call(name, payload) => [OpCallHost(name, payload)]
    case Interval(key, s, e, body) => [OpBeginSection(RangeKind(t, s, e), Some(key))] + Flatten(t, body) + [OpEndSection]
    case Branch(condition, body, other) =>
      [OpIf(condition)] + Flatten(t, body) + FlattenElse(t, other) + [OpEndIf]
  }

  function FlattenElse(t: Text, e: TreeElse): seq<Opcode> {
    match e
    case NoTreeElse => []
    case TreeElse(body) => [OpElse] + Flatten(t, body)
  }

  lemma {:induction false} FlattenConcat(t: Text, a: seq<Tree>, b: seq<Tree>)
    ensures Flatten(t, a + b) == Flatten(t, a) + Flatten(t, b)
  {
    if a == [] {
      assert a + b == b;
    } else {
      FlattenConcat(t, a[1..], b);
      assert (a + b)[1..] == a[1..] + b;
      Associative(FlattenTree(t, a[0]), Flatten(t, a[1..]), Flatten(t, b));
    }
  }

  lemma FlattenOne(t: Text, tree: Tree)
    ensures Flatten(t, [tree]) == FlattenTree(t, tree)
  {
    assert FlattenTree(t, tree) + [] == FlattenTree(t, tree);
  }

  lemma {:induction false} FlattenErased(t: Text, rules: seq<Rule>)
    ensures Flatten(t, EraseRules(t, rules)) == RulesCode(t, rules)
    decreases rules, 1
  {
    if rules != [] {
      FlattenErasedRule(t, rules[0]);
      FlattenErased(t, rules[1..]);
      FlattenConcat(t, EraseRule(t, rules[0]), EraseRules(t, rules[1..]));
    }
  }

  lemma {:induction false} FlattenErasedRule(t: Text, r: Rule)
    ensures Flatten(t, EraseRule(t, r)) == RuleCode(t, r)
    decreases r, 0
  {
    match r.value {
      case If(x) =>
        FlattenErased(t, x.thenRules);
        if x.elseRules.Else? {
          FlattenErased(t, x.elseRules.rules);
        }
        var tree := Branch(x.conditionRaw, EraseRules(t, x.thenRules), EraseElse(t, x.elseRules));
        FlattenOne(t, tree);
        assert FlattenElse(t, tree.elseBody) == ElseCode(t, x.elseRules);
      case Range(g) =>
        FlattenErased(t, g.rules);
        FlattenOne(t, Interval(r.key, g.start, g.end, EraseRules(t, g.rules)));
      case Map(entries) =>
        if IsFunctionCall(entries) {
          FlattenOne(t, Call(r.key, t.json(CallArgs(entries))));
        } else {
          FlattenErased(t, entries);
        }
      case _ =>
        FlattenOne(t, Leaf(r.key, t.json(r.value)));
    }
  }

  // Generation is injective exactly up to the erased form.
  lemma GenerationInjective(t: Text, a: seq<Rule>, b: seq<Rule>)
    requires FaithfulDisplay(t.display)
    ensures RulesCode(t, a) == RulesCode(t, b) <==> EraseRules(t, a) == EraseRules(t, b)
  {
    DecodeRoundTrip(t, a);
    DecodeRoundTrip(t, b);
    FlattenErased(t, a);
    FlattenErased(t, b);
  }

  // ----- section and `if` brackets nest together, in whole programs -----

  datatype Bracket = InSection | InThen | InElse

  // The brackets still open after reading code, or None at the first mismatch.
  function Nesting(code: seq<Opcode>, open: seq<Bracket>): Option<seq<Bracket>> {
    if code == [] then Some(open)
    else
      match code[0]
      case OpBeginSection(_, _) => Nesting(code[1..], [InSection] + open)
      case OpIf(_) => Nesting(code[1..], [InThen] + open)
      case OpElse => if open != [] && open[0].InThen? then Nesting(code[1..], [InElse] + open[1..]) else None
      case OpEndIf => if open != [] && !open[0].InSection? then Nesting(code[1..], open[1..]) else None
      case OpEndSection => if open != [] && open[0].InSection? then Nesting(code[1..], open[1..]) else None
      case _ => Nesting(code[1..], open)
  }

  lemma NestingNext(op: Opcode, rest: seq<Opcode>, open: seq<Bracket>)
    ensures Nesting([op] + rest, open) ==
            match op
            case OpBeginSection(_, _) => Nesting(rest, [InSection] + open)
            case OpIf(_) => Nesting(rest, [InThen] + open)
            case OpElse => if open != [] && open[0].InThen? then Nesting(rest, [InElse] + open[1..]) else None
            case OpEndIf => if open != [] && !open[0].InSection? then Nesting(rest, open[1..]) else None
            case OpEndSection => if open != [] && open[0].InSection? then Nesting(rest, open[1..]) else None
            case _ => Nesting(rest, open)
  {
    assert ([op] + rest)[1..] == rest;
  }

  lemma {:induction false} RulesNest(t: Text, rules: seq<Rule>, rest: seq<Opcode>, open: seq<Bracket>)
    ensures Nesting(RulesCode(t, rules) + rest, open) == Nesting(rest, open)
    decreases rules, 1
  {
    if rules == [] {
      assert RulesCode(t, rules) + rest == rest;
    } else {
      var tail := RulesCode(t, rules[1..]) + rest;
      RulesNest(t, rules[1..], rest, open);
      RuleNests(t, rules[0], tail, open);
      assert RulesCode(t, rules) + rest == RuleCode(t, rules[0]) + tail;
    }
  }

  lemma {:induction false} RuleNests(t: Text, r: Rule, rest: seq<Opcode>, open: seq<Bracket>)
    ensures Nesting(RuleCode(t, r) + rest, open) == Nesting(rest, open)
    decreases r, 0
  {
    match r.value {
      case If(x) =>
        IfNests(t, x, rest, open);
      case Range(g) =>
        SectionNests(t, OpBeginSection(RangeKind(t, g.start, g.end), Some(r.key)), g.rules, rest, open);
      case Map(entries) =>
        if IsFunctionCall(entries) {
          NestingNext(RuleCode(t, r)[0], rest, open);
        } else {
          RulesNest(t, entries, rest, open);
        }
      case _ =>
        NestingNext(RuleCode(t, r)[0], rest, open);
    }
  }

  lemma {:induction false} SectionNests(t: Text, begin: Opcode, rules: seq<Rule>, rest: seq<Opcode>, open: seq<Bracket>)
    requires begin.OpBeginSection?
    ensures Nesting([begin] + RulesCode(t, rules) + [OpEndSection] + rest, open) == Nesting(rest, open)
    decreases rules, 2
  {
    var close := [OpEndSection] + rest;
    SectionShape(begin, RulesCode(t, rules), rest);
    NestingNext(begin, RulesCode(t, rules) + close, open);
    RulesNest(t, rules, close, [InSection] + open);
    NestingNext(OpEndSection, rest, [InSection] + open);
    assert ([InSection] + open)[1..] == open;
  }

  lemma {:induction false} IfNests(t: Text, x: IfExpr, rest: seq<Opcode>, open: seq<Bracket>)
    ensures Nesting(IfCode(t, x) + rest, open) == Nesting(rest, open)
    decreases x, 0
  {
    var close := [OpEndIf] + rest;
    var elsePart := ElseCode(t, x.elseRules) + close;
    IfShape(t, x, rest);
    NestingNext(OpIf(x.conditionRaw), RulesCode(t, x.thenRules) + elsePart, open);
    RulesNest(t, x.thenRules, elsePart, [InThen] + open);
    assert ([InThen] + open)[1..] == open;
    match x.elseRules {
      case NoElse =>
        assert elsePart == close;
        NestingNext(OpEndIf, rest, [InThen] + open);
      case Else(rules) =>
        Associative([OpElse], RulesCode(t, rules), close);
        NestingNext(OpElse, RulesCode(t, rules) + close, [InThen] + open);
        RulesNest(t, rules, close, [InElse] + open);
        NestingNext(OpEndIf, rest, [InElse] + open);
        assert ([InElse] + open)[1..] == open;
    }
  }

  lemma {:induction false} StepsNest(t: Text, steps: seq<ActionStep>, rest: seq<Opcode>, open: seq<Bracket>)
    ensures Nesting(StepsCode(t, steps) + rest, open) == Nesting(rest, open)
  {
    if steps == [] {
      assert StepsCode(t, steps) + rest == rest;
    } else {
      var tail := StepsCode(t, steps[1..]) + rest;
      StepsNest(t, steps[1..], rest, open);
      StepNests(t, steps[0], tail, open);
      Associative(StepCode(t, steps[0]), StepsCode(t, steps[1..]), rest);
    }
  }

  lemma StepNests(t: Text, step: ActionStep, rest: seq<Opcode>, open: seq<Bracket>)
    ensures Nesting(StepCode(t, step) + rest, open) == Nesting(rest, open)
  {
    var code := StepCode(t, step);
    if |code| == 2 {
      NestingNext(code[1], rest, open);
      NestingNext(code[0], [code[1]] + rest, open);
      assert code + rest == [code[0]] + ([code[1]] + rest);
    } else {
      NestingNext(code[0], rest, open);
    }
  }

  lemma ModuleNests(t: Text, m: DslModule, rest: seq<Opcode>, open: seq<Bracket>)
    ensures Nesting(ModuleCode(t, m) + rest, open) == Nesting(rest, open)
  {
    match m {
      case Proposal(title, version, rules) =>
        var head := OpCreateProposal(title, Some(version));
        Associative([head], RulesCode(t, rules), rest);
        NestingNext(head, RulesCode(t, rules) + rest, open);
        RulesNest(t, rules, rest, open);
      case ActionHandler(event, steps) =>
        Associative([OpOnEvent(event)], StepsCode(t, steps), rest);
        NestingNext(OpOnEvent(event), StepsCode(t, steps) + rest, open);
        StepsNest(t, steps, rest, open);
      case Section(kind, heading, rules) =>
        SectionNests(t, OpBeginSection(kind, heading), rules, rest, open);
      case Role(name, description, attributes) =>
        RoleNests(t, name, description, attributes, rest, open);
      case Unhandled(debug) =>
        NestingNext(ModuleCode(t, m)[0], rest, open);
    }
  }

  lemma RoleNests(t: Text, name: string, description: Option<string>, attributes: seq<Rule>,
                  rest: seq<Opcode>, open: seq<Bracket>)
    ensures Nesting(ModuleCode(t, Role(name, description, attributes)) + rest, open) == Nesting(rest, open)
  {
    var begin, about, code := OpBeginSection("role", Some(name)), DescriptionCode(t, description), RulesCode(t, attributes);
    var close := [OpEndSection] + rest;
    RoleShape(begin, about, code, rest);
    NestingNext(begin, about + (code + close), open);
    if description.Some? {
      NestingNext(about[0], code + close, [InSection] + open);
    } else {
      assert about + (code + close) == code + close;
    }
    RulesNest(t, attributes, close, [InSection] + open);
    NestingNext(OpEndSection, rest, [InSection] + open);
    assert ([InSection] + open)[1..] == open;
  }

  // Every generated program closes exactly the brackets it opens, in order.
  lemma {:induction false} ProgramNests(t: Text, modules: seq<DslModule>)
    ensures Nesting(ProgramCode(t, modules), []) == Some([])
  {
    if modules != [] {
      ProgramNests(t, modules[1..]);
      ModuleNests(t, modules[0], ProgramCode(t, modules[1..]), []);
    }
  }
}
