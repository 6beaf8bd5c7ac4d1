// Lowering followed by code generation, described without the rule tree in between: the
// opcodes each statement contributes, in source order.
module TwoPass {
  import opened Wrappers
  import opened CclAst
  import opened Codegen
  import opened Lower
  import opened SyntaxData

  // ----- one-pass code of the syntax -----
  //
  // With `quirks` the code is what the two passes emit. Without, it is what the statements
  // say: nested blocks inlined, calls made under their own name, a nested definition as a
  // section around its statements. The two differ because the generator takes any map whose
  // first key is `function_name` for a call and names every call after the key it was stored
  // under, and because the lowering drops whatever is defined inside a block.

  // The key of the first rule a block lowers to.
  function FirstKey(f: Front, ss: seq<Statement>): Option<string> {
    if ss == [] then None
    else
      match ss[0]
      case ValueField(key, _) => if IsDescription(ss[0]) then FirstKey(f, ss[1..]) else Some(TrimQuotes(key))
      case BlockField(key, _) => Some(TrimQuotes(key))
      case IdentifierField(key, _) => Some(TrimQuotes(key))
      case BareField(key) => Some(TrimQuotes(key))
      case RangeStatement(r) => Some(RangeKind(f.text, NumberOf(f, r.start), NumberOf(f, r.end)))
      case IfStatement(_, _, _) => Some("if_condition_" + f.decimal(0))
      case CallStatement(call) => Some(call.fn)
      case _ => FirstKey(f, ss[1..])
  }

  predicate BlockLooksLikeCall(f: Front, b: Block) {
    FirstKey(f, b.statements) == Some("function_name")
  }

  predicate PairsLookLikeCall(pairs: seq<Pair>) {
    pairs != [] && TrimQuotes(pairs[0].key) == "function_name"
  }

  function BlockOps(f: Front, quirks: bool, b: Block): seq<Opcode>
    decreases b, 0
  {
    StatementsOps(f, quirks, b.statements)
  }

  function StatementsOps(f: Front, quirks: bool, ss: seq<Statement>): seq<Opcode>
    decreases ss, 1
  {
    if ss == [] then [] else StatementOps(f, quirks, ss[0]) + StatementsOps(f, quirks, ss[1..])
  }

  function StatementOps(f: Front, quirks: bool, s: Statement): seq<Opcode>
    decreases s, 0
  {
    if IsDescription(s) then []
    else
      match s
      case ValueField(key, value) => ValueOps(f, quirks, TrimQuotes(key), value)
      case BlockField(key, block) =>
        if quirks && BlockLooksLikeCall(f, block)
        then [OpCallHost(TrimQuotes(key), f.text.json(CallArgs(BlockRules(f, block))))]
        else BlockOps(f, quirks, block)
      case IdentifierField(key, name) => [OpSetProperty(TrimQuotes(key), f.text.json(String(name)))]
      case BareField(key) => [OpSetProperty(TrimQuotes(key), f.text.json(Boolean(true)))]
      case RangeStatement(r) =>
        RangeOps(f, quirks, RangeKind(f.text, NumberOf(f, r.start), NumberOf(f, r.end)), r)
      case IfStatement(condition, thenBlock, elseBlock) =>
        [OpIf(condition)] + BlockOps(f, quirks, thenBlock) + ElseOps(f, quirks, elseBlock) + [OpEndIf]
      case CallStatement(call) => [OpCallHost(call.fn, f.text.json(Map(PairRules(f, call.args))))]
      case NestedDefinition(kind, title, block) =>
        if quirks then [] else [OpBeginSection(kind, Heading(title))] + BlockOps(f, false, block) + [OpEndSection]
      case NestedAction(ident, resource, units) =>
        if quirks then [] else StepCode(f.text, PerformMeteredAction(ident, resource, units))
  }

  function ElseOps(f: Front, quirks: bool, e: ElseBlock): seq<Opcode>
    decreases e, 0
  {
    match e
    case NoElseBlock => []
    case ElseBlock(block) => [OpElse] + BlockOps(f, quirks, block)
  }

  function RangeOps(f: Front, quirks: bool, key: string, r: RangeSyntax): seq<Opcode>
    decreases r, 0
  {
    [OpBeginSection(RangeKind(f.text, NumberOf(f, r.start), NumberOf(f, r.end)), Some(key))]
    + BlockOps(f, quirks, r.block) + [OpEndSection]
  }

  function ValueOps(f: Front, quirks: bool, key: string, v: Value): seq<Opcode>
    decreases v, 0
  {
    match v
    case Object(pairs) =>
      if quirks && PairsLookLikeCall(pairs)
      then [OpCallHost(key, f.text.json(CallArgs(PairRules(f, pairs))))]
      else PairsOps(f, quirks, pairs)
    case FunctionCall(call) => [OpCallHost(if quirks then key else call.fn, f.text.json(Map(PairRules(f, call.args))))]
    case RangeValue(r) => RangeOps(f, quirks, key, r)
    case _ => [OpSetProperty(key, f.text.json(Datum(f, v)))]
  }

  function PairsOps(f: Front, quirks: bool, pairs: seq<Pair>): seq<Opcode>
    decreases pairs, 1
  {
    if pairs == [] then []
    else ValueOps(f, quirks, TrimQuotes(pairs[0].key), pairs[0].value) + PairsOps(f, quirks, pairs[1..])
  }

  // ----- which rule comes first -----

  lemma FirstStatement(f: Front, s: Statement, done: Fields)
    requires StatementOf(f, s, done).Success?
    ensures var rules := StatementOf(f, s, done).value.rules;
            if IsDescription(s) || IsNested(s) then rules == done.rules
            else |rules| == |done.rules| + 1 && done.rules <= rules
                 && (done.rules == [] ==> FirstKey(f, [s]) == Some(rules[0].key))
  {
  }

  lemma {:induction false} FirstRule(f: Front, ss: seq<Statement>, done: Fields)
    requires StatementsOf(f, ss, done).Success?
    ensures var rules := StatementsOf(f, ss, done).value.rules;
            && done.rules <= rules
            && (done.rules == [] ==>
                  if FirstKey(f, ss).None? then rules == [] else rules != [] && rules[0].key == FirstKey(f, ss).value)
    decreases ss
  {
    if ss != [] {
      var next := StatementOf(f, ss[0], done).value;
      FirstRule(f, ss[1..], next);
      FirstStatement(f, ss[0], done);
    }
  }

  lemma {:induction false} FirstPair(f: Front, pairs: seq<Pair>, done: seq<Rule>)
    requires PairsOf(f, pairs, done).Success?
    ensures done <= PairsOf(f, pairs, done).value
    ensures pairs != [] ==>
              var rules := PairsOf(f, pairs, done).value;
              |done| < |rules| && rules[|done|].key == TrimQuotes(pairs[0].key)
    decreases pairs
  {
    if pairs != [] {
      var v := ValueOf(f, pairs[0].value).value;
      FirstPair(f, pairs[1..], done + [Rule(TrimQuotes(pairs[0].key), v)]);
    }
  }

  lemma CallShape(f: Front, b: Block)
    requires BlockOf(f, b).Success?
    ensures IsFunctionCall(BlockRules(f, b)) <==> BlockLooksLikeCall(f, b)
  {
    FirstRule(f, b.statements, Fields("", []));
    BlockData(f, b);
  }

  // ----- the two passes emit the one-pass code -----

  lemma {:induction false} RulesCodePush(t: Text, rules: seq<Rule>, r: Rule)
    ensures RulesCode(t, rules + [r]) == RulesCode(t, rules) + RuleCode(t, r)
    decreases rules
  {
    if rules == [] {
      assert [r][1..] == [];
      assert RulesCode(t, [r]) == RuleCode(t, r) + RulesCode(t, []);
    } else {
      assert (rules + [r])[1..] == rules[1..] + [r];
      RulesCodePush(t, rules[1..], r);
      Associative(RuleCode(t, rules[0]), RulesCode(t, rules[1..]), RuleCode(t, r));
    }
  }

  lemma {:induction false} StatementsCode(f: Front, ss: seq<Statement>, done: Fields)
    requires StatementsOf(f, ss, done).Success?
    ensures RulesCode(f.text, StatementsOf(f, ss, done).value.rules)
         == RulesCode(f.text, done.rules) + StatementsOps(f, true, ss)
    decreases ss, 1
  {
    if ss != [] {
      var next := StatementOf(f, ss[0], done).value;
      StatementCode(f, ss[0], done);
      StatementsCode(f, ss[1..], next);
      Associative(RulesCode(f.text, done.rules), StatementOps(f, true, ss[0]), StatementsOps(f, true, ss[1..]));
    }
  }

  lemma {:induction false} BlockCode(f: Front, b: Block)
    requires BlockOf(f, b).Success?
    ensures RulesCode(f.text, BlockRules(f, b)) == BlockOps(f, true, b)
    decreases b, 0
  {
    StatementsCode(f, b.statements, Fields("", []));
    BlockData(f, b);
    assert RulesCode(f.text, BlockRules(f, b)) == [] + BlockOps(f, true, b);
  }

  lemma {:induction false} StatementCode(f: Front, s: Statement, done: Fields)
    requires StatementOf(f, s, done).Success?
    ensures RulesCode(f.text, StatementOf(f, s, done).value.rules)
         == RulesCode(f.text, done.rules) + StatementOps(f, true, s)
    decreases s, 1
  {
    var next := StatementOf(f, s, done).value;
    if IsDescription(s) || IsNested(s) {
      assert next.rules == done.rules;
    } else {
      var r := next.rules[|done.rules|];
      assert next.rules == done.rules + [r];
      RulesCodePush(f.text, done.rules, r);
      PushedRuleCode(f, s, done, r);
    }
  }

  lemma {:induction false} PushedRuleCode(f: Front, s: Statement, done: Fields, r: Rule)
    requires !IsDescription(s) && !IsNested(s)
    requires StatementOf(f, s, done).Success?
    requires StatementOf(f, s, done).value.rules == done.rules + [r]
    ensures RuleCode(f.text, r) == StatementOps(f, true, s)
    decreases s, 0
  {
    assert r == (done.rules + [r])[|done.rules|];
    match s {
      case ValueField(key, value) =>
        ValueCode(f, TrimQuotes(key), value);
      case BlockField(key, block) =>
        BlockCode(f, block);
        BlockData(f, block);
        CallShape(f, block);
      case RangeStatement(range) =>
        RangeStatementCode(f, RangeKind(f.text, NumberOf(f, range.start), NumberOf(f, range.end)), range);
      case IfStatement(condition, thenBlock, elseBlock) =>
        assert IfOf(f, s).Success? && ElseOf(f, elseBlock).Success?;
        BlockCode(f, thenBlock);
        BlockData(f, thenBlock);
        if elseBlock.ElseBlock? {
          BlockCode(f, elseBlock.block);
          BlockData(f, elseBlock.block);
        }
        assert ElseCode(f.text, ElseOf(f, elseBlock).value) == ElseOps(f, true, elseBlock);
      case CallStatement(call) =>
        CallCode(f, call.fn, call);
      case _ =>
    }
  }

  lemma CallCode(f: Front, key: string, call: CallSyntax)
    requires CallOf(f, call).Success?
    ensures RuleCode(f.text, Rule(key, CallOf(f, call).value))
         == [OpCallHost(key, f.text.json(Map(PairRules(f, call.args))))]
  {
    var entries := CallOf(f, call).value.entries;
    ArgsData(f, call.args);
    assert entries[1..] == [Rule("args", Map(PairRules(f, call.args)))];
    assert |"function_name"| != |"args"|;
    assert CallArgs(entries) == CallArgs(entries[1..]);
  }

  lemma {:induction false} RangeStatementCode(f: Front, key: string, range: RangeSyntax)
    requires RangeOf(f, range).Success?
    ensures RuleCode(f.text, Rule(key, Range(RangeOf(f, range).value))) == RangeOps(f, true, key, range)
    ensures RangeOf(f, range).value.start == NumberOf(f, range.start)
    ensures RangeOf(f, range).value.end == NumberOf(f, range.end)
    decreases range, 0
  {
    BlockCode(f, range.block);
    BlockData(f, range.block);
  }

  lemma {:induction false} ValueCode(f: Front, key: string, v: Value)
    requires ValueOf(f, v).Success?
    ensures RuleCode(f.text, Rule(key, ValueOf(f, v).value)) == ValueOps(f, true, key, v)
    decreases v, 0
  {
    match v {
      case Object(pairs) =>
        FirstPair(f, pairs, []);
        PairsCode(f, pairs, []);
        ArgsData(f, pairs);
        assert [] + PairsOps(f, true, pairs) == PairsOps(f, true, pairs);
      case FunctionCall(call) =>
        CallCode(f, key, call);
      case RangeValue(range) =>
        RangeStatementCode(f, key, range);
      case _ =>
        ValueData(f, v);
    }
  }

  lemma {:induction false} PairsCode(f: Front, pairs: seq<Pair>, done: seq<Rule>)
    requires PairsOf(f, pairs, done).Success?
    ensures RulesCode(f.text, PairsOf(f, pairs, done).value) == RulesCode(f.text, done) + PairsOps(f, true, pairs)
    decreases pairs, 1
  {
    if pairs != [] {
      var r := Rule(TrimQuotes(pairs[0].key), ValueOf(f, pairs[0].value).value);
      ValueCode(f, r.key, pairs[0].value);
      RulesCodePush(f.text, done, r);
      PairsCode(f, pairs[1..], done + [r]);
      Associative(RulesCode(f.text, done), RuleCode(f.text, r), PairsOps(f, true, pairs[1..]));
    }
  }

  // ----- when the quirks do not show -----

  predicate PlainStatements(f: Front, ss: seq<Statement>)
    decreases ss, 1
  {
    ss == [] || (PlainStatement(f, ss[0]) && PlainStatements(f, ss[1..]))
  }

  // Nothing is defined inside the block, no nested block or object starts with the key
  // `function_name`, and calls with a key of their own are stored under the name of the
  // function they call.
  predicate PlainStatement(f: Front, s: Statement)
    decreases s, 0
  {
    match s
    case ValueField(key, value) => IsDescription(s) || PlainValue(f, TrimQuotes(key), value)
    case BlockField(_, block) => !BlockLooksLikeCall(f, block) && PlainStatements(f, block.statements)
    case RangeStatement(range) => PlainStatements(f, range.block.statements)
    case IfStatement(_, thenBlock, elseBlock) =>
      && PlainStatements(f, thenBlock.statements)
      && (elseBlock.ElseBlock? ==> PlainStatements(f, elseBlock.block.statements))
    case _ => !IsNested(s)
  }

  predicate PlainValue(f: Front, key: string, v: Value)
    decreases v, 0
  {
    match v
    case Object(pairs) => !PairsLookLikeCall(pairs) && PlainPairs(f, pairs)
    case FunctionCall(call) => key == call.fn
    case RangeValue(range) => PlainStatements(f, range.block.statements)
    case _ => true
  }

  predicate PlainPairs(f: Front, pairs: seq<Pair>)
    decreases pairs, 1
  {
    pairs == [] || (PlainValue(f, TrimQuotes(pairs[0].key), pairs[0].value) && PlainPairs(f, pairs[1..]))
  }

  lemma {:induction false} PlainStatementsOps(f: Front, ss: seq<Statement>)
    requires PlainStatements(f, ss)
    ensures StatementsOps(f, true, ss) == StatementsOps(f, false, ss)
    decreases ss, 1
  {
    if ss != [] {
      PlainStatementOps(f, ss[0]);
      PlainStatementsOps(f, ss[1..]);
    }
  }

  lemma {:induction false} PlainStatementOps(f: Front, s: Statement)
    requires PlainStatement(f, s)
    ensures StatementOps(f, true, s) == StatementOps(f, false, s)
    decreases s, 0
  {
    match s {
      case ValueField(key, value) =>
        if !IsDescription(s) {
          PlainValueOps(f, TrimQuotes(key), value);
        }
      case BlockField(_, block) =>
        PlainStatementsOps(f, block.statements);
      case RangeStatement(range) =>
        PlainStatementsOps(f, range.block.statements);
        assert BlockOps(f, true, range.block) == BlockOps(f, false, range.block);
      case IfStatement(_, thenBlock, elseBlock) =>
        PlainStatementsOps(f, thenBlock.statements);
        if elseBlock.ElseBlock? {
          PlainStatementsOps(f, elseBlock.block.statements);
        }
        assert ElseOps(f, true, elseBlock) == ElseOps(f, false, elseBlock);
      case _ =>
    }
  }

  lemma {:induction false} PlainValueOps(f: Front, key: string, v: Value)
    requires PlainValue(f, key, v)
    ensures ValueOps(f, true, key, v) == ValueOps(f, false, key, v)
    decreases v, 0
  {
    match v {
      case Object(pairs) =>
        PlainPairsOps(f, pairs);
      case RangeValue(range) =>
        PlainStatementsOps(f, range.block.statements);
        assert RangeOps(f, true, key, range) == RangeOps(f, false, key, range);
      case _ =>
    }
  }

  lemma {:induction false} PlainPairsOps(f: Front, pairs: seq<Pair>)
    requires PlainPairs(f, pairs)
    ensures PairsOps(f, true, pairs) == PairsOps(f, false, pairs)
    decreases pairs, 1
  {
    if pairs != [] {
      PlainValueOps(f, TrimQuotes(pairs[0].key), pairs[0].value);
      PlainPairsOps(f, pairs[1..]);
    }
  }

  // ----- the theorem -----

  // Whatever block lowers, the two passes emit its quirky one-pass code; if nothing in it
  // looks like a call it is not, they emit each statement's own code in source order.
  lemma TwoPassComposition(f: Front, b: Block)
    requires BlockOf(f, b).Success?
    ensures RulesCode(f.text, BlockOf(f, b).value.rules) == BlockOps(f, true, b)
    ensures PlainStatements(f, b.statements) ==> RulesCode(f.text, BlockOf(f, b).value.rules) == BlockOps(f, false, b)
  {
    BlockCode(f, b);
    BlockData(f, b);
    if PlainStatements(f, b.statements) {
      PlainStatementsOps(f, b.statements);
    }
  }

  lemma {:induction false} StatementsOpsConcat(f: Front, quirks: bool, a: seq<Statement>, b: seq<Statement>)
    ensures StatementsOps(f, quirks, a + b) == StatementsOps(f, quirks, a) + StatementsOps(f, quirks, b)
    decreases a
  {
    if a == [] {
      assert a + b == b;
    } else {
      StatementsOpsConcat(f, quirks, a[1..], b);
      assert (a + b)[1..] == a[1..] + b;
      Associative(StatementOps(f, quirks, a[0]), StatementsOps(f, quirks, a[1..]), StatementsOps(f, quirks, b));
    }
  }

  lemma {:induction false} StatementsOfConcat(f: Front, a: seq<Statement>, b: seq<Statement>, done: Fields)
    ensures StatementsOf(f, a + b, done)
         == var r := StatementsOf(f, a, done); if r.Failure? then r else StatementsOf(f, b, r.value)
    decreases a
  {
    if a == [] {
      assert a + b == b;
    } else {
      assert (a + b)[1..] == a[1..] + b;
      var next := StatementOf(f, a[0], done);
      if next.Success? {
        StatementsOfConcat(f, a[1..], b, next.value);
      }
    }
  }

  // A definition or action inside a block is lost, whatever it contains: the block lowers,
  // or fails to, exactly as without it.
  lemma NestedIsDropped(f: Front, a: seq<Statement>, s: Statement, b: seq<Statement>)
    requires IsNested(s)
    ensures BlockOf(f, Block(a + [s] + b)) == BlockOf(f, Block(a + b))
  {
    var start := Fields("", []);
    StatementsOfConcat(f, a + [s], b, start);
    StatementsOfConcat(f, a, [s], start);
    StatementsOfConcat(f, a, b, start);
    assert [s][1..] == [];
  }

  lemma {:induction false} ReadableConcat(f: Front, a: seq<Statement>, b: seq<Statement>)
    ensures ReadableStatements(f, a + b) <==> ReadableStatements(f, a) && ReadableStatements(f, b)
    decreases a
  {
    if a == [] {
      assert a + b == b;
    } else {
      ReadableConcat(f, a[1..], b);
      assert (a + b)[1..] == a[1..] + b;
    }
  }

  // A description given as a plain value leaves no trace in the code, wherever it stands.
  lemma DescriptionEmitsNothing(f: Front, a: seq<Statement>, s: Statement, b: seq<Statement>)
    requires IsDescription(s) && BlockOf(f, Block(a + [s] + b)).Success?
    ensures BlockOf(f, Block(a + b)).Success?
    ensures RulesCode(f.text, BlockOf(f, Block(a + [s] + b)).value.rules)
         == RulesCode(f.text, BlockOf(f, Block(a + b)).value.rules)
  {
    BlockLowers(f, Block(a + [s] + b));
    BlockLowers(f, Block(a + b));
    ReadableConcat(f, a + [s], b);
    ReadableConcat(f, a, [s]);
    ReadableConcat(f, a, b);
    BlockCode(f, Block(a + [s] + b));
    BlockCode(f, Block(a + b));
    BlockData(f, Block(a + [s] + b));
    BlockData(f, Block(a + b));
    StatementsOpsConcat(f, true, a + [s], b);
    StatementsOpsConcat(f, true, a, [s]);
    StatementsOpsConcat(f, true, a, b);
    assert [s][1..] == [];
  }
}
