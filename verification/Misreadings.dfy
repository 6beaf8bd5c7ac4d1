// What it costs that the generator takes every map starting with the key `function_name`
// for a call and names calls after the key they are stored under, and that the lowering drops
// definitions inside blocks: exactly when a block's code is still what its statements say.
module Misreadings {
  import opened Wrappers
  import opened CclAst
  import opened Codegen
  import opened Lower
  import opened SyntaxData
  import opened TwoPass

  // ----- what statements say, counted in calls -----

  function CallsSaid(ss: seq<Statement>): nat
    decreases ss, 1
  {
    if ss == [] then 0 else CallsSaidBy(ss[0]) + CallsSaid(ss[1..])
  }

  function CallsSaidBy(s: Statement): nat
    decreases s, 0
  {
    match s
    case ValueField(_, value) => if IsDescription(s) then 0 else CallsSaidByValue(value)
    case BlockField(_, block) => CallsSaid(block.statements)
    case RangeStatement(range) => CallsSaid(range.block.statements)
    case IfStatement(_, t, e) => CallsSaid(t.statements) + if e.ElseBlock? then CallsSaid(e.block.statements) else 0
    case CallStatement(_) => 1
    case NestedDefinition(_, _, block) => CallsSaid(block.statements)
    case _ => 0
  }

  // Calls inside an array are data, not calls.
  function CallsSaidByValue(v: Value): nat
    decreases v, 0
  {
    match v
    case Object(pairs) => CallsSaidByPairs(pairs)
    case FunctionCall(_) => 1
    case RangeValue(range) => CallsSaid(range.block.statements)
    case _ => 0
  }

  function CallsSaidByPairs(pairs: seq<Pair>): nat
    decreases pairs, 1
  {
    if pairs == [] then 0 else CallsSaidByValue(pairs[0].value) + CallsSaidByPairs(pairs[1..])
  }

  // Statements that say nothing but calls, if anything.
  predicate OnlyCalls(ss: seq<Statement>)
    decreases ss, 1
  {
    ss == [] || (OnlyCallsIn(ss[0]) && OnlyCalls(ss[1..]))
  }

  predicate OnlyCallsIn(s: Statement)
    decreases s, 0
  {
    match s
    case ValueField(_, value) => IsDescription(s) || OnlyCallsInValue(value)
    case BlockField(_, block) => OnlyCalls(block.statements)
    case CallStatement(_) => true
    case _ => false
  }

  predicate OnlyCallsInValue(v: Value)
    decreases v, 0
  {
    match v
    case Object(pairs) => OnlyCallsInPairs(pairs)
    case FunctionCall(_) => true
    case _ => false
  }

  predicate OnlyCallsInPairs(pairs: seq<Pair>)
    decreases pairs, 1
  {
    pairs == [] || (OnlyCallsInValue(pairs[0].value) && OnlyCallsInPairs(pairs[1..]))
  }

  // ----- opcodes, counted in calls -----

  function HostCalls(ops: seq<Opcode>): nat {
    if ops == [] then 0 else (if ops[0].OpCallHost? then 1 else 0) + HostCalls(ops[1..])
  }

  function Others(ops: seq<Opcode>): nat {
    if ops == [] then 0 else (if ops[0].OpCallHost? then 0 else 1) + Others(ops[1..])
  }

  lemma {:induction false} CountsConcat(a: seq<Opcode>, b: seq<Opcode>)
    ensures HostCalls(a + b) == HostCalls(a) + HostCalls(b)
    ensures Others(a + b) == Others(a) + Others(b)
    decreases a
  {
    if a == [] {
      assert a + b == b;
    } else {
      assert (a + b)[1..] == a[1..] + b;
      CountsConcat(a[1..], b);
    }
  }

  lemma {:induction false} CountsLength(ops: seq<Opcode>)
    ensures HostCalls(ops) + Others(ops) == |ops|
    decreases ops
  {
    if ops != [] {
      CountsLength(ops[1..]);
    }
  }

  lemma CountsOfOne(op: Opcode)
    ensures HostCalls([op]) == (if op.OpCallHost? then 1 else 0) && Others([op]) == 1 - HostCalls([op])
  {
    assert [op][1..] == [];
  }

  lemma CountsInBrackets(open: Opcode, a: seq<Opcode>, b: seq<Opcode>, close: Opcode)
    requires !open.OpCallHost? && !close.OpCallHost?
    ensures HostCalls([open] + a + b + [close]) == HostCalls(a) + HostCalls(b)
    ensures Others([open] + a + b + [close]) == Others(a) + Others(b) + 2
  {
    CountsConcat([open] + a + b, [close]);
    CountsConcat([open] + a, b);
    CountsConcat([open], a);
    CountsOfOne(open);
    CountsOfOne(close);
  }

  lemma CountsInSection(open: Opcode, a: seq<Opcode>, close: Opcode)
    requires !open.OpCallHost? && !close.OpCallHost?
    ensures HostCalls([open] + a + [close]) == HostCalls(a)
    ensures Others([open] + a + [close]) == Others(a) + 2
  {
    assert [open] + a + [] == [open] + a;
    CountsInBrackets(open, a, [], close);
  }

  lemma {:induction false} StatementsCounts(f: Front, ss: seq<Statement>)
    ensures HostCalls(StatementsOps(f, false, ss)) == CallsSaid(ss)
    ensures Others(StatementsOps(f, false, ss)) == 0 <==> OnlyCalls(ss)
    decreases ss, 1
  {
    if ss != [] {
      StatementCounts(f, ss[0]);
      StatementsCounts(f, ss[1..]);
      CountsConcat(StatementOps(f, false, ss[0]), StatementsOps(f, false, ss[1..]));
    }
  }

  lemma {:induction false} StatementCounts(f: Front, s: Statement)
    ensures HostCalls(StatementOps(f, false, s)) == CallsSaidBy(s)
    ensures Others(StatementOps(f, false, s)) == 0 <==> OnlyCallsIn(s)
    decreases s, 0
  {
    if !IsDescription(s) {
      match s {
        case ValueField(key, value) =>
          ValueCounts(f, TrimQuotes(key), value);
        case BlockField(_, block) =>
          StatementsCounts(f, block.statements);
        case RangeStatement(range) =>
          RangeCounts(f, RangeKind(f.text, NumberOf(f, range.start), NumberOf(f, range.end)), range);
        case IfStatement(condition, t, e) =>
          StatementsCounts(f, t.statements);
          if e.ElseBlock? {
            StatementsCounts(f, e.block.statements);
            CountsConcat([OpElse], BlockOps(f, false, e.block));
            CountsOfOne(OpElse);
          }
          CountsInBrackets(OpIf(condition), BlockOps(f, false, t), ElseOps(f, false, e), OpEndIf);
        case NestedDefinition(kind, title, block) =>
          StatementsCounts(f, block.statements);
          CountsInSection(OpBeginSection(kind, Heading(title)), BlockOps(f, false, block), OpEndSection);
        case NestedAction(_, _, _) =>
          CountsOfAction(StatementOps(f, false, s));
        case _ =>
          CountsOfOne(StatementOps(f, false, s)[0]);
      }
    }
  }

  lemma CountsOfAction(ops: seq<Opcode>)
    requires |ops| == 2 && !ops[0].OpCallHost? && !ops[1].OpCallHost?
    ensures HostCalls(ops) == 0 && Others(ops) == 2
  {
    CountsOfOne(ops[0]);
    CountsOfOne(ops[1]);
    CountsConcat([ops[0]], [ops[1]]);
    assert [ops[0]] + [ops[1]] == ops;
  }

  lemma {:induction false} RangeCounts(f: Front, key: string, range: RangeSyntax)
    ensures HostCalls(RangeOps(f, false, key, range)) == CallsSaid(range.block.statements)
    ensures Others(RangeOps(f, false, key, range)) > 0
    decreases range, 0
  {
    var begin := OpBeginSection(RangeKind(f.text, NumberOf(f, range.start), NumberOf(f, range.end)), Some(key));
    StatementsCounts(f, range.block.statements);
    CountsInSection(begin, BlockOps(f, false, range.block), OpEndSection);
  }

  lemma {:induction false} ValueCounts(f: Front, key: string, v: Value)
    ensures HostCalls(ValueOps(f, false, key, v)) == CallsSaidByValue(v)
    ensures Others(ValueOps(f, false, key, v)) == 0 <==> OnlyCallsInValue(v)
    decreases v, 0
  {
    match v {
      case Object(pairs) =>
        PairsCounts(f, pairs);
      case RangeValue(range) =>
        RangeCounts(f, key, range);
      case _ =>
        CountsOfOne(ValueOps(f, false, key, v)[0]);
    }
  }

  lemma {:induction false} PairsCounts(f: Front, pairs: seq<Pair>)
    ensures HostCalls(PairsOps(f, false, pairs)) == CallsSaidByPairs(pairs)
    ensures Others(PairsOps(f, false, pairs)) == 0 <==> OnlyCallsInPairs(pairs)
    decreases pairs, 1
  {
    if pairs != [] {
      ValueCounts(f, TrimQuotes(pairs[0].key), pairs[0].value);
      PairsCounts(f, pairs[1..]);
      CountsConcat(ValueOps(f, false, TrimQuotes(pairs[0].key), pairs[0].value), PairsOps(f, false, pairs[1..]));
    }
  }

  // ----- the guards -----

  // What is taken for a call becomes one call. With `more`, nothing taken for a call says two
  // or more calls and nothing else; without, nothing taken for a call says nothing at all.
  // Either way misreadings cannot make up for one another.
  predicate OneSided(f: Front, more: bool, ss: seq<Statement>)
    decreases ss, 1
  {
    ss == [] || (OneSidedIn(f, more, ss[0]) && OneSided(f, more, ss[1..]))
  }

  predicate OneSidedIn(f: Front, more: bool, s: Statement)
    decreases s, 0
  {
    match s
    case ValueField(_, value) => IsDescription(s) || OneSidedInValue(f, more, value)
    case BlockField(_, block) =>
      if BlockLooksLikeCall(f, block)
      then OnlyCalls(block.statements) ==> if more then CallsSaid(block.statements) <= 1 else CallsSaid(block.statements) >= 1
      else OneSided(f, more, block.statements)
    case RangeStatement(range) => OneSided(f, more, range.block.statements)
    case IfStatement(_, t, e) =>
      OneSided(f, more, t.statements) && (e.ElseBlock? ==> OneSided(f, more, e.block.statements))
    case _ => true
  }

  predicate OneSidedInValue(f: Front, more: bool, v: Value)
    decreases v, 0
  {
    match v
    case Object(pairs) =>
      if PairsLookLikeCall(pairs)
      then OnlyCallsInPairs(pairs) ==> if more then CallsSaidByPairs(pairs) <= 1 else CallsSaidByPairs(pairs) >= 1
      else OneSidedInPairs(f, more, pairs)
    case RangeValue(range) => OneSided(f, more, range.block.statements)
    case _ => true
  }

  predicate OneSidedInPairs(f: Front, more: bool, pairs: seq<Pair>)
    decreases pairs, 1
  {
    pairs == [] || (OneSidedInValue(f, more, pairs[0].value) && OneSidedInPairs(f, more, pairs[1..]))
  }

  // Nothing is lost or misread: nothing is defined inside, keyed calls keep their names, and
  // whatever is taken for a call says just that call.
  predicate Survives(f: Front, ss: seq<Statement>)
    decreases ss, 1
  {
    ss == [] || (StatementSurvives(f, ss[0]) && Survives(f, ss[1..]))
  }

  predicate StatementSurvives(f: Front, s: Statement)
    decreases s, 0
  {
    match s
    case ValueField(key, value) => IsDescription(s) || ValueSurvives(f, TrimQuotes(key), value)
    case BlockField(key, block) =>
      if BlockLooksLikeCall(f, block)
      then SaysCall(f, block.statements, TrimQuotes(key), f.text.json(CallArgs(BlockRules(f, block))))
      else Survives(f, block.statements)
    case RangeStatement(range) => Survives(f, range.block.statements)
    case IfStatement(_, t, e) => Survives(f, t.statements) && (e.ElseBlock? ==> Survives(f, e.block.statements))
    case _ => !IsNested(s)
  }

  predicate ValueSurvives(f: Front, key: string, v: Value)
    decreases v, 0
  {
    match v
    case Object(pairs) =>
      if PairsLookLikeCall(pairs)
      then PairsSayCall(f, pairs, key, f.text.json(CallArgs(PairRules(f, pairs))))
      else PairsSurvive(f, pairs)
    case FunctionCall(call) => key == call.fn
    case RangeValue(range) => Survives(f, range.block.statements)
    case _ => true
  }

  predicate PairsSurvive(f: Front, pairs: seq<Pair>)
    decreases pairs, 1
  {
    pairs == [] || (ValueSurvives(f, TrimQuotes(pairs[0].key), pairs[0].value) && PairsSurvive(f, pairs[1..]))
  }

  // ----- emitted code against the statements' own code -----

  // The emitted code has no more opcodes that are not calls, and if as many, its number of
  // calls errs on one side only.
  predicate Aligned(more: bool, emitted: seq<Opcode>, own: seq<Opcode>) {
    && Others(emitted) <= Others(own)
    && (Others(emitted) == Others(own) ==>
          if more then HostCalls(emitted) >= HostCalls(own) else HostCalls(emitted) <= HostCalls(own))
  }

  // Aligned pieces agree together exactly when they agree one by one.
  lemma ConcatAligned(more: bool, a: seq<Opcode>, own: seq<Opcode>, b: seq<Opcode>, own': seq<Opcode>)
    requires Aligned(more, a, own) && Aligned(more, b, own')
    ensures Aligned(more, a + b, own + own')
    ensures a + b == own + own' <==> a == own && b == own'
  {
    CountsConcat(a, b);
    CountsConcat(own, own');
    if a + b == own + own' {
      CountsLength(a);
      CountsLength(own);
      assert a == (a + b)[..|a|] && b == (a + b)[|a|..];
      assert own == (own + own')[..|own|] && own' == (own + own')[|own|..];
    }
  }

  lemma BracketsAligned(more: bool, open: Opcode, a: seq<Opcode>, own: seq<Opcode>, b: seq<Opcode>, own': seq<Opcode>, close: Opcode)
    requires Aligned(more, a, own) && Aligned(more, b, own')
    ensures Aligned(more, [open] + a + b + [close], [open] + own + own' + [close])
    ensures [open] + a + b + [close] == [open] + own + own' + [close] <==> a == own && b == own'
  {
    ConcatAligned(more, [open], [open], a, own);
    ConcatAligned(more, [open] + a, [open] + own, b, own');
    ConcatAligned(more, [open] + a + b, [open] + own + own', [close], [close]);
  }

  lemma {:induction false} StatementsAligned(f: Front, more: bool, ss: seq<Statement>)
    requires OneSided(f, more, ss)
    ensures Aligned(more, StatementsOps(f, true, ss), StatementsOps(f, false, ss))
    ensures StatementsOps(f, true, ss) == StatementsOps(f, false, ss) <==> Survives(f, ss)
    decreases ss, 1
  {
    if ss != [] {
      StatementAligned(f, more, ss[0]);
      StatementsAligned(f, more, ss[1..]);
      ConcatAligned(more, StatementOps(f, true, ss[0]), StatementOps(f, false, ss[0]),
                    StatementsOps(f, true, ss[1..]), StatementsOps(f, false, ss[1..]));
    }
  }

  lemma {:induction false} StatementAligned(f: Front, more: bool, s: Statement)
    requires OneSidedIn(f, more, s)
    ensures Aligned(more, StatementOps(f, true, s), StatementOps(f, false, s))
    ensures StatementOps(f, true, s) == StatementOps(f, false, s) <==> StatementSurvives(f, s)
    decreases s, 0
  {
    if IsNested(s) {
      StatementCounts(f, s);
      assert StatementOps(f, true, s) == [];
    } else if !IsDescription(s) {
      match s {
        case ValueField(key, value) =>
          ValueAligned(f, more, TrimQuotes(key), value);
        case BlockField(key, block) =>
          if BlockLooksLikeCall(f, block) {
            StatementsCounts(f, block.statements);
            CountsOfOne(StatementOps(f, true, s)[0]);
            SaysCallOps(f, block.statements, TrimQuotes(key), f.text.json(CallArgs(BlockRules(f, block))));
          } else {
            StatementsAligned(f, more, block.statements);
          }
        case RangeStatement(range) =>
          RangeAligned(f, more, RangeKind(f.text, NumberOf(f, range.start), NumberOf(f, range.end)), range);
        case IfStatement(condition, t, e) =>
          StatementsAligned(f, more, t.statements);
          ElseAligned(f, more, e);
          BracketsAligned(more, OpIf(condition), BlockOps(f, true, t), BlockOps(f, false, t), ElseOps(f, true, e), ElseOps(f, false, e), OpEndIf);
        case _ =>
      }
    }
  }

  lemma {:induction false} ElseAligned(f: Front, more: bool, e: ElseBlock)
    requires e.ElseBlock? ==> OneSided(f, more, e.block.statements)
    ensures Aligned(more, ElseOps(f, true, e), ElseOps(f, false, e))
    ensures ElseOps(f, true, e) == ElseOps(f, false, e) <==> (e.ElseBlock? ==> Survives(f, e.block.statements))
    decreases e, 0
  {
    if e.ElseBlock? {
      StatementsAligned(f, more, e.block.statements);
      ConcatAligned(more, [OpElse], [OpElse], BlockOps(f, true, e.block), BlockOps(f, false, e.block));
    }
  }

  lemma {:induction false} RangeAligned(f: Front, more: bool, key: string, range: RangeSyntax)
    requires OneSided(f, more, range.block.statements)
    ensures Aligned(more, RangeOps(f, true, key, range), RangeOps(f, false, key, range))
    ensures RangeOps(f, true, key, range) == RangeOps(f, false, key, range) <==> Survives(f, range.block.statements)
    decreases range, 0
  {
    var begin := OpBeginSection(RangeKind(f.text, NumberOf(f, range.start), NumberOf(f, range.end)), Some(key));
    StatementsAligned(f, more, range.block.statements);
    SectionAligned(more, begin, BlockOps(f, true, range.block), BlockOps(f, false, range.block), OpEndSection);
  }

  lemma SectionAligned(more: bool, open: Opcode, a: seq<Opcode>, own: seq<Opcode>, close: Opcode)
    requires Aligned(more, a, own)
    ensures Aligned(more, [open] + a + [close], [open] + own + [close])
    ensures [open] + a + [close] == [open] + own + [close] <==> a == own
  {
    ConcatAligned(more, [open], [open], a, own);
    ConcatAligned(more, [open] + a, [open] + own, [close], [close]);
  }

  lemma {:induction false} ValueAligned(f: Front, more: bool, key: string, v: Value)
    requires OneSidedInValue(f, more, v)
    ensures Aligned(more, ValueOps(f, true, key, v), ValueOps(f, false, key, v))
    ensures ValueOps(f, true, key, v) == ValueOps(f, false, key, v) <==> ValueSurvives(f, key, v)
    decreases v, 0
  {
    match v {
      case Object(pairs) =>
        if PairsLookLikeCall(pairs) {
          PairsCounts(f, pairs);
          CountsOfOne(ValueOps(f, true, key, v)[0]);
          PairsSayCallOps(f, pairs, key, f.text.json(CallArgs(PairRules(f, pairs))));
        } else {
          PairsAligned(f, more, pairs);
        }
      case FunctionCall(call) =>
        CountsOfOne(ValueOps(f, true, key, v)[0]);
        CountsOfOne(ValueOps(f, false, key, v)[0]);
      case RangeValue(range) =>
        RangeAligned(f, more, key, range);
      case _ =>
    }
  }

  lemma {:induction false} PairsAligned(f: Front, more: bool, pairs: seq<Pair>)
    requires OneSidedInPairs(f, more, pairs)
    ensures Aligned(more, PairsOps(f, true, pairs), PairsOps(f, false, pairs))
    ensures PairsOps(f, true, pairs) == PairsOps(f, false, pairs) <==> PairsSurvive(f, pairs)
    decreases pairs, 1
  {
    if pairs != [] {
      var key, v := TrimQuotes(pairs[0].key), pairs[0].value;
      ValueAligned(f, more, key, v);
      PairsAligned(f, more, pairs[1..]);
      ConcatAligned(more, ValueOps(f, true, key, v), ValueOps(f, false, key, v),
                    PairsOps(f, true, pairs[1..]), PairsOps(f, false, pairs[1..]));
    }
  }

  // Exactly when a block compiles to what its statements say, unless something taken for a
  // call says nothing and something else taken for a call says several calls: nothing is
  // defined inside, keyed calls keep their names, and whatever is taken for a call says just
  // that call.
  lemma MisreadingsShow(f: Front, b: Block)
    requires BlockOf(f, b).Success?
    requires OneSided(f, true, b.statements) || OneSided(f, false, b.statements)
    ensures RulesCode(f.text, BlockOf(f, b).value.rules) == BlockOps(f, false, b) <==> Survives(f, b.statements)
  {
    TwoPassComposition(f, b);
    StatementsAligned(f, OneSided(f, true, b.statements), b.statements);
  }

  // What is defined inside a block is lost: alone in a block it leaves no code at all, while
  // it says a section around its own statements.
  lemma NestedDefinitionLost(f: Front, kind: string, title: Option<string>, block: Block)
    ensures var b := Block([NestedDefinition(kind, title, block)]);
            && BlockOf(f, b) == Success(Fields("", []))
            && RulesCode(f.text, []) == []
            && BlockOps(f, false, b) == [OpBeginSection(kind, Heading(title))] + BlockOps(f, false, block) + [OpEndSection]
  {
    var s := NestedDefinition(kind, title, block);
    NestedIsDropped(f, [], s, []);
    assert [] + [s] + [] == [s] && [s][1..] == [];
    assert StatementsOps(f, false, [s]) == StatementOps(f, false, s) + [];
  }

  lemma OneField(f: Front, quirks: bool, key: string, block: Block)
    ensures BlockOps(f, quirks, Block([BlockField(key, block)])) == StatementOps(f, quirks, BlockField(key, block))
  {
    var ss := [BlockField(key, block)];
    assert ss[1..] == [];
    assert StatementsOps(f, quirks, ss) == StatementOps(f, quirks, ss[0]) + [];
  }

  // A block that starts with the key `function_name` is taken for a call: its statements
  // vanish and one host call named after the block's key comes out instead.
  lemma BlockTakenForCall(f: Front, key: string, block: Block)
    requires BlockOf(f, Block([BlockField(key, block)])).Success?
    requires BlockLooksLikeCall(f, block)
    ensures RulesCode(f.text, BlockOf(f, Block([BlockField(key, block)])).value.rules)
         == [OpCallHost(TrimQuotes(key), f.text.json(CallArgs(BlockRules(f, block))))]
  {
    TwoPassComposition(f, Block([BlockField(key, block)]));
    OneField(f, true, key, block);
  }

  // ----- one nested block, with calls inside -----

  // Statements that leave no code.
  predicate Silent(ss: seq<Statement>)
    decreases ss, 1
  {
    ss == [] || (SilentStatement(ss[0]) && Silent(ss[1..]))
  }

  predicate SilentStatement(s: Statement)
    decreases s, 0
  {
    match s
    case ValueField(_, value) => IsDescription(s) || SilentValue(value)
    case BlockField(_, block) => Silent(block.statements)
    case _ => false
  }

  predicate SilentValue(v: Value)
    decreases v, 0
  {
    v.Object? && SilentPairs(v.pairs)
  }

  predicate SilentPairs(pairs: seq<Pair>)
    decreases pairs, 1
  {
    pairs == [] || (SilentValue(pairs[0].value) && SilentPairs(pairs[1..]))
  }

  // Statements that say one call of `fn` with this payload and nothing else.
  predicate SaysCall(f: Front, ss: seq<Statement>, fn: string, payload: string)
    decreases ss, 1
  {
    ss != [] &&
    if SilentStatement(ss[0]) then SaysCall(f, ss[1..], fn, payload)
    else StatementSaysCall(f, ss[0], fn, payload) && Silent(ss[1..])
  }

  predicate StatementSaysCall(f: Front, s: Statement, fn: string, payload: string)
    decreases s, 0
  {
    match s
    case ValueField(_, value) => !IsDescription(s) && ValueSaysCall(f, value, fn, payload)
    case BlockField(_, block) => SaysCall(f, block.statements, fn, payload)
    case CallStatement(call) => call.fn == fn && f.text.json(Map(PairRules(f, call.args))) == payload
    case _ => false
  }

  predicate ValueSaysCall(f: Front, v: Value, fn: string, payload: string)
    decreases v, 0
  {
    match v
    case Object(pairs) => PairsSayCall(f, pairs, fn, payload)
    case FunctionCall(call) => call.fn == fn && f.text.json(Map(PairRules(f, call.args))) == payload
    case _ => false
  }

  predicate PairsSayCall(f: Front, pairs: seq<Pair>, fn: string, payload: string)
    decreases pairs, 1
  {
    pairs != [] &&
    if SilentValue(pairs[0].value) then PairsSayCall(f, pairs[1..], fn, payload)
    else ValueSaysCall(f, pairs[0].value, fn, payload) && SilentPairs(pairs[1..])
  }

  lemma {:induction false} SilentOps(f: Front, ss: seq<Statement>)
    ensures StatementsOps(f, false, ss) == [] <==> Silent(ss)
    decreases ss, 1
  {
    if ss != [] {
      SilentStatementOps(f, ss[0]);
      SilentOps(f, ss[1..]);
    }
  }

  lemma {:induction false} SilentStatementOps(f: Front, s: Statement)
    ensures StatementOps(f, false, s) == [] <==> SilentStatement(s)
    decreases s, 0
  {
    match s {
      case ValueField(key, value) =>
        SilentValueOps(f, TrimQuotes(key), value);
      case BlockField(_, block) =>
        SilentOps(f, block.statements);
      case _ =>
    }
  }

  lemma {:induction false} SilentValueOps(f: Front, key: string, v: Value)
    ensures ValueOps(f, false, key, v) == [] <==> SilentValue(v)
    decreases v, 0
  {
    if v.Object? {
      SilentPairsOps(f, v.pairs);
    }
  }

  lemma {:induction false} SilentPairsOps(f: Front, pairs: seq<Pair>)
    ensures PairsOps(f, false, pairs) == [] <==> SilentPairs(pairs)
    decreases pairs, 1
  {
    if pairs != [] {
      SilentValueOps(f, TrimQuotes(pairs[0].key), pairs[0].value);
      SilentPairsOps(f, pairs[1..]);
    }
  }

  lemma OneOfTwo(a: seq<Opcode>, b: seq<Opcode>, op: Opcode)
    ensures a + b == [op] <==> if a == [] then b == [op] else a == [op] && b == []
  {
    if a == [] {
      assert a + b == b;
    } else if a + b == [op] {
      assert a[0] == (a + b)[0] && |a + b| == 1;
    }
  }

  lemma {:induction false} SaysCallOps(f: Front, ss: seq<Statement>, fn: string, payload: string)
    ensures StatementsOps(f, false, ss) == [OpCallHost(fn, payload)] <==> SaysCall(f, ss, fn, payload)
    decreases ss, 1
  {
    if ss != [] {
      SilentStatementOps(f, ss[0]);
      SilentOps(f, ss[1..]);
      StatementSaysCallOps(f, ss[0], fn, payload);
      SaysCallOps(f, ss[1..], fn, payload);
      OneOfTwo(StatementOps(f, false, ss[0]), StatementsOps(f, false, ss[1..]), OpCallHost(fn, payload));
    }
  }

  lemma {:induction false} StatementSaysCallOps(f: Front, s: Statement, fn: string, payload: string)
    ensures StatementOps(f, false, s) == [OpCallHost(fn, payload)] <==> StatementSaysCall(f, s, fn, payload)
    decreases s, 0
  {
    match s {
      case ValueField(key, value) =>
        ValueSaysCallOps(f, TrimQuotes(key), value, fn, payload);
      case BlockField(_, block) =>
        SaysCallOps(f, block.statements, fn, payload);
      case _ =>
    }
  }

  lemma {:induction false} ValueSaysCallOps(f: Front, key: string, v: Value, fn: string, payload: string)
    ensures ValueOps(f, false, key, v) == [OpCallHost(fn, payload)] <==> ValueSaysCall(f, v, fn, payload)
    decreases v, 0
  {
    if v.Object? {
      PairsSayCallOps(f, v.pairs, fn, payload);
    }
  }

  lemma {:induction false} PairsSayCallOps(f: Front, pairs: seq<Pair>, fn: string, payload: string)
    ensures PairsOps(f, false, pairs) == [OpCallHost(fn, payload)] <==> PairsSayCall(f, pairs, fn, payload)
    decreases pairs, 1
  {
    if pairs != [] {
      var key, v := TrimQuotes(pairs[0].key), pairs[0].value;
      SilentValueOps(f, key, v);
      SilentPairsOps(f, pairs[1..]);
      ValueSaysCallOps(f, key, v, fn, payload);
      PairsSayCallOps(f, pairs[1..], fn, payload);
      OneOfTwo(ValueOps(f, false, key, v), PairsOps(f, false, pairs[1..]), OpCallHost(fn, payload));
    }
  }

  // For one nested block, exactly when its statements survive: it looks like a call and says
  // just that call, or it does not and its own contents survive.
  lemma BlockFieldExact(f: Front, key: string, block: Block)
    requires BlockOf(f, Block([BlockField(key, block)])).Success?
    requires BlockLooksLikeCall(f, block) || OneSided(f, true, block.statements) || OneSided(f, false, block.statements)
    ensures RulesCode(f.text, BlockOf(f, Block([BlockField(key, block)])).value.rules) == BlockOps(f, false, block)
       <==> if BlockLooksLikeCall(f, block)
            then SaysCall(f, block.statements, TrimQuotes(key), f.text.json(CallArgs(BlockRules(f, block))))
            else Survives(f, block.statements)
  {
    TwoPassComposition(f, Block([BlockField(key, block)]));
    OneField(f, true, key, block);
    if BlockLooksLikeCall(f, block) {
      SaysCallOps(f, block.statements, TrimQuotes(key), f.text.json(CallArgs(BlockRules(f, block))));
    } else {
      StatementsAligned(f, OneSided(f, true, block.statements), block.statements);
    }
  }

  // `b { function_name x; y; };` sets two properties, but compiles to one call of `b`.
  lemma DisguisedBlockMiscompiled(f: Front)
    ensures var block := Block([ValueField("function_name", GeneralIdentifier("x")), BareField("y")]);
            var b := Block([BlockField("b", block)]);
            && BlockOf(f, b).Success?
            && RulesCode(f.text, BlockOf(f, b).value.rules) == [OpCallHost("b", f.text.json(List([])))]
            && BlockOps(f, false, b)
            == [OpSetProperty("function_name", f.text.json(String("x"))), OpSetProperty("y", f.text.json(Boolean(true)))]
  {
    var first, second := ValueField("function_name", GeneralIdentifier("x")), BareField("y");
    var block := Block([first, second]);
    DisguisedRules(f, first, second);
    FieldLowers(f, "b", block);
    assert TrimQuotes("b") == "b";
    BlockTakenForCall(f, "b", block);
    DisguisedOps(f, first, second);
    OneField(f, false, "b", block);
  }

  lemma FieldLowers(f: Front, key: string, block: Block)
    ensures BlockOf(f, Block([BlockField(key, block)])).Success? <==> BlockOf(f, block).Success?
  {
    BlockLowers(f, block);
    BlockLowers(f, Block([BlockField(key, block)]));
    ReadableOne(f, BlockField(key, block));
  }

  lemma DisguisedOps(f: Front, first: Statement, second: Statement)
    requires first == ValueField("function_name", GeneralIdentifier("x")) && second == BareField("y")
    ensures StatementsOps(f, false, [first, second])
         == [OpSetProperty("function_name", f.text.json(String("x"))), OpSetProperty("y", f.text.json(Boolean(true)))]
  {
    assert TrimQuotes("function_name") == "function_name" && TrimQuotes("y") == "y";
    PairOps(f, false, first, second);
  }

  lemma DisguisedRules(f: Front, first: Statement, second: Statement)
    requires first == ValueField("function_name", GeneralIdentifier("x")) && second == BareField("y")
    ensures var b := Block([first, second]);
            BlockOf(f, b).Success? && BlockLooksLikeCall(f, b) && CallArgs(BlockRules(f, b)) == List([])
  {
    var x, y := Rule("function_name", String("x")), Rule("y", Boolean(true));
    assert TrimQuotes("function_name") == "function_name" && TrimQuotes("y") == "y";
    assert [first, second][1..] == [second] && [second][1..] == [];
    assert [] + [x] == [x] && [x] + [y] == [x, y];
    assert StatementOf(f, first, Fields("", [])) == Success(Fields("", [x]));
    assert StatementsOf(f, [second], Fields("", [x])) == StatementsOf(f, [], Fields("", [x, y]));
    assert BlockOf(f, Block([first, second])) == Success(Fields("", [x, y]));
    BlockData(f, Block([first, second]));
    assert [x, y][1..] == [y] && [y][1..] == [];
    assert |"function_name"| != |"args"| && |"y"| != |"args"|;
    assert CallArgs([x, y]) == CallArgs([y]) == CallArgs([]);
  }

  // A silent misreading and one of several calls can cancel: `a { function_name {}; };` says nothing and
  // `b { function_name {}; a(); b(); };` says two calls, each block compiles to one call, and
  // together they compile to what they say, though neither survives. So no condition on
  // single blocks is exact where both kinds occur; an empty list and an empty map have the
  // same JSON text.
  lemma MisreadingsCanCancel(f: Front)
    requires f.text.json(List([])) == f.text.json(Map([]))
    ensures var silent := ValueField("function_name", Object([]));
            var calls := [CallStatement(CallSyntax("a", [])), CallStatement(CallSyntax("b", []))];
            var b := Block([BlockField("a", Block([silent])), BlockField("b", Block([silent] + calls))]);
            && BlockOf(f, b).Success?
            && !StatementSurvives(f, b.statements[0]) && !StatementSurvives(f, b.statements[1])
            && RulesCode(f.text, BlockOf(f, b).value.rules) == BlockOps(f, false, b)
  {
    var silent := ValueField("function_name", Object([]));
    var calls := [CallStatement(CallSyntax("a", [])), CallStatement(CallSyntax("b", []))];
    var x, y := Block([silent]), Block([silent] + calls);
    var ss := [BlockField("a", x), BlockField("b", y)];
    assert TrimQuotes("function_name") == "function_name" && TrimQuotes("a") == "a" && TrimQuotes("b") == "b";
    CancelRules(f, silent, calls);
    CancelOps(f, silent, calls);
    BlockLowers(f, x);
    BlockLowers(f, y);
    BlockLowers(f, Block(ss));
    assert ss[1..] == [BlockField("b", y)] && ss[1..][1..] == [];
    assert ReadableStatements(f, ss[1..]) && ReadableStatements(f, ss);
    TwoPassComposition(f, Block(ss));
    PairOps(f, true, ss[0], ss[1]);
    PairOps(f, false, ss[0], ss[1]);
    SaysCallOps(f, x.statements, "a", f.text.json(List([])));
    SaysCallOps(f, y.statements, "b", f.text.json(List([])));
  }

  lemma PairOps(f: Front, quirks: bool, a: Statement, b: Statement)
    ensures StatementsOps(f, quirks, [a, b]) == StatementOps(f, quirks, a) + StatementOps(f, quirks, b)
  {
    assert [a, b][1..] == [b] && [b][1..] == [];
    assert StatementsOps(f, quirks, [b]) == StatementOps(f, quirks, b) + [];
  }

  lemma CancelRules(f: Front, silent: Statement, calls: seq<Statement>)
    requires silent == ValueField("function_name", Object([]))
    requires calls == [CallStatement(CallSyntax("a", [])), CallStatement(CallSyntax("b", []))]
    ensures BlockLooksLikeCall(f, Block([silent])) && BlockLooksLikeCall(f, Block([silent] + calls))
    ensures CallArgs(BlockRules(f, Block([silent]))) == CallArgs(BlockRules(f, Block([silent] + calls))) == List([])
  {
    assert TrimQuotes("function_name") == "function_name";
    var first := Rule("function_name", Map([]));
    var a, b := Rule("a", CallValue("a", [])), Rule("b", CallValue("b", []));
    assert [silent][1..] == [] && ([silent] + calls)[1..] == calls && calls[1..][1..] == [];
    assert StatementOf(f, silent, Fields("", [])) == Success(Fields("", [] + [first]));
    assert [] + [first] == [first];
    assert StatementsOf(f, [silent], Fields("", [])) == StatementsOf(f, [], Fields("", [first]));
    BlockData(f, Block([silent]));
    assert BlockRules(f, Block([silent])) == [first];
    assert StatementsOf(f, calls, Fields("", [first])) == StatementsOf(f, calls[1..], Fields("", [first] + [a]));
    assert StatementsOf(f, calls[1..], Fields("", [first] + [a])) == StatementsOf(f, [], Fields("", [first] + [a] + [b]));
    assert StatementsOf(f, [silent] + calls, Fields("", [])) == StatementsOf(f, calls, Fields("", [first]));
    BlockData(f, Block([silent] + calls));
    assert BlockRules(f, Block([silent] + calls)) == [first] + [a] + [b] == [first, a, b];
    CancelArgs(first, a, b);
  }

  lemma CancelArgs(first: Rule, a: Rule, b: Rule)
    requires first.key == "function_name" && a.key == "a" && b.key == "b"
    ensures CallArgs([first]) == CallArgs([first, a, b]) == List([])
  {
    assert [first][1..] == [];
    assert [first, a, b][1..] == [a, b] && [a, b][1..] == [b] && [b][1..] == [];
    assert |"function_name"| != |"args"| && |"a"| != |"args"| && |"b"| != |"args"|;
    assert CallArgs([first, a, b]) == CallArgs([a, b]) == CallArgs([b]);
  }

  lemma ReadableOne(f: Front, s: Statement)
    ensures ReadableStatements(f, [s]) <==> ReadableStatement(f, s)
  {
    assert [s][1..] == [];
  }

  lemma CancelOps(f: Front, silent: Statement, calls: seq<Statement>)
    requires silent == ValueField("function_name", Object([]))
    requires calls == [CallStatement(CallSyntax("a", [])), CallStatement(CallSyntax("b", []))]
    ensures StatementsOps(f, false, [silent]) == []
    ensures StatementsOps(f, false, [silent] + calls)
         == [OpCallHost("a", f.text.json(Map([]))), OpCallHost("b", f.text.json(Map([])))]
    ensures ReadableStatements(f, [silent]) && ReadableStatements(f, [silent] + calls)
  {
    assert Silent([silent][1..]);
    SilentOps(f, [silent]);
    StatementsOpsConcat(f, false, [silent], calls);
    assert PairRules(f, []) == [];
    PairOps(f, false, calls[0], calls[1]);
    ReadableOne(f, silent);
    ReadableOne(f, calls[0]);
    ReadableOne(f, calls[1]);
    ReadableConcat(f, [calls[0]], [calls[1]]);
    assert [calls[0]] + [calls[1]] == calls;
    ReadableConcat(f, [silent], calls);
  }
}
