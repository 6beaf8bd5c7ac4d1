// What blocks and values of the syntax say as data, read off the syntax alone, and that
// lowering computes exactly that or fails.
module SyntaxData {
  import opened Wrappers
  import opened CclAst
  import opened Codegen
  import opened Lower

  // ----- the data -----

  function NumberOf(f: Front, digits: string): Float {
    match f.parse(digits)
    case Some(x) => x
    case None => Float(0)
  }

  predicate IsDescription(s: Statement) {
    s.ValueField? && TrimQuotes(s.key) == "description"
  }

  predicate IsNested(s: Statement) {
    s.NestedDefinition? || s.NestedAction?
  }

  function Datum(f: Front, v: Value): RuleValue
    decreases v, 0
  {
    match v
    case StringLiteral(raw) => String(TrimQuotes(raw))
    case NumberLiteral(digits) => Number(NumberOf(f, digits))
    case BooleanLiteral(word) => Boolean(word == "true")
    case Duration(span) => String(span)
    case GeneralIdentifier(name) => String(name)
    case Array(elements) => List(seq(|elements|, i requires 0 <= i < |elements| => Datum(f, elements[i])))
    case Object(pairs) => Map(PairRules(f, pairs))
    case FunctionCall(call) => Map([Rule("function_name", String(call.fn)), Rule("args", Map(PairRules(f, call.args)))])
    case RangeValue(r) => Range(RangeDatum(f, r))
  }

  function PairRules(f: Front, pairs: seq<Pair>): seq<Rule>
    decreases pairs, 1
  {
    seq(|pairs|, i requires 0 <= i < |pairs| => Rule(TrimQuotes(pairs[i].key), Datum(f, pairs[i].value)))
  }

  function RangeDatum(f: Front, r: RangeSyntax): RangeRule
    decreases r, 0
  {
    RangeRule(NumberOf(f, r.start), NumberOf(f, r.end), BlockRules(f, r.block))
  }

  function BlockRules(f: Front, b: Block): seq<Rule>
    decreases b, 0
  {
    StatementsRules(f, b.statements)
  }

  // A conditional is keyed by the number of rules before it.
  function StatementsRules(f: Front, ss: seq<Statement>): seq<Rule>
    decreases ss, 1
  {
    if ss == [] then []
    else
      var earlier := StatementsRules(f, ss[..|ss| - 1]);
      earlier + StatementRules(f, ss[|ss| - 1], |earlier|)
  }

  function StatementRules(f: Front, s: Statement, index: nat): seq<Rule>
    decreases s, 0
  {
    if IsDescription(s) then []
    else
      match s
      case ValueField(key, value) => [Rule(TrimQuotes(key), Datum(f, value))]
      case BlockField(key, block) => [Rule(TrimQuotes(key), Map(BlockRules(f, block)))]
      case IdentifierField(key, name) => [Rule(TrimQuotes(key), String(name))]
      case BareField(key) => [Rule(TrimQuotes(key), Boolean(true))]
      case RangeStatement(r) =>
        [Rule("range_" + f.text.display(NumberOf(f, r.start)) + "_" + f.text.display(NumberOf(f, r.end)), Range(RangeDatum(f, r)))]
      case IfStatement(condition, thenBlock, elseBlock) =>
        [Rule("if_condition_" + f.decimal(index),
              If(IfExpr(condition, BlockRules(f, thenBlock), if elseBlock.ElseBlock? then Else(BlockRules(f, elseBlock.block)) else NoElse)))]
      case CallStatement(call) =>
        [Rule(call.fn, Map([Rule("function_name", String(call.fn)), Rule("args", Map(PairRules(f, call.args)))]))]
      case _ => []
  }

  // ----- lowering computes the data -----

  lemma {:induction false} ValueData(f: Front, v: Value)
    requires ValueOf(f, v).Success?
    ensures ValueOf(f, v).value == Datum(f, v)
    decreases v, 0
  {
    match v {
      case Array(elements) =>
        ValuesData(f, elements, []);
        assert [] + Datum(f, v).items == Datum(f, v).items;
      case Object(pairs) =>
        ArgsData(f, pairs);
      case FunctionCall(call) =>
        ArgsData(f, call.args);
      case RangeValue(range) =>
        RangeData(f, range);
      case _ =>
    }
  }

  lemma {:induction false} ValuesData(f: Front, vs: seq<Value>, done: seq<RuleValue>)
    requires ValuesOf(f, vs, done).Success?
    ensures ValuesOf(f, vs, done).value == done + seq(|vs|, i requires 0 <= i < |vs| => Datum(f, vs[i]))
    decreases vs, 1
  {
    if vs != [] {
      ValueData(f, vs[0]);
      ValuesData(f, vs[1..], done + [Datum(f, vs[0])]);
    }
  }

  lemma {:induction false} PairsData(f: Front, pairs: seq<Pair>, done: seq<Rule>)
    requires PairsOf(f, pairs, done).Success?
    ensures PairsOf(f, pairs, done).value == done + PairRules(f, pairs)
    decreases pairs, 1
  {
    if pairs != [] {
      var r := Rule(TrimQuotes(pairs[0].key), Datum(f, pairs[0].value));
      ValueData(f, pairs[0].value);
      PairsData(f, pairs[1..], done + [r]);
      assert PairRules(f, pairs) == [r] + PairRules(f, pairs[1..]);
    }
  }

  lemma {:induction false} ArgsData(f: Front, pairs: seq<Pair>)
    requires PairsOf(f, pairs, []).Success?
    ensures PairsOf(f, pairs, []).value == PairRules(f, pairs)
    decreases pairs, 2
  {
    PairsData(f, pairs, []);
    assert [] + PairRules(f, pairs) == PairRules(f, pairs);
  }

  lemma {:induction false} RangeData(f: Front, r: RangeSyntax)
    requires RangeOf(f, r).Success?
    ensures RangeOf(f, r).value == RangeDatum(f, r)
    decreases r, 0
  {
    BlockData(f, r.block);
  }

  lemma {:induction false} BlockData(f: Front, b: Block)
    requires BlockOf(f, b).Success?
    ensures BlockOf(f, b).value.rules == BlockRules(f, b)
    decreases b, 0
  {
    StatementsData(f, b.statements);
  }

  lemma {:induction false} StatementsData(f: Front, ss: seq<Statement>)
    requires StatementsOf(f, ss, Fields("", [])).Success?
    ensures StatementsOf(f, ss, Fields("", [])).value.rules == StatementsRules(f, ss)
    decreases ss, 1
  {
    if ss != [] {
      var earlier, s := ss[..|ss| - 1], ss[|ss| - 1];
      assert earlier + [s] == ss;
      StatementsOfAppend(f, earlier, s, Fields("", []));
      StatementsData(f, earlier);
      StatementData(f, s, StatementsOf(f, earlier, Fields("", [])).value);
    }
  }

  lemma {:induction false} StatementData(f: Front, s: Statement, done: Fields)
    requires StatementOf(f, s, done).Success?
    ensures StatementOf(f, s, done).value.rules == done.rules + StatementRules(f, s, |done.rules|)
    decreases s, 0
  {
    match s {
      case ValueField(key, value) =>
        ValueData(f, value);
      case BlockField(key, block) =>
        BlockData(f, block);
      case RangeStatement(range) =>
        RangeData(f, range);
      case IfStatement(condition, thenBlock, elseBlock) =>
        assert IfOf(f, s).Success? && ElseOf(f, elseBlock).Success?;
        BlockData(f, thenBlock);
        ElseData(f, elseBlock);
      case CallStatement(call) =>
        ArgsData(f, call.args);
      case _ =>
    }
  }

  lemma {:induction false} ElseData(f: Front, e: ElseBlock)
    requires ElseOf(f, e).Success?
    ensures ElseOf(f, e).value == if e.ElseBlock? then Else(BlockRules(f, e.block)) else NoElse
    decreases e, 0
  {
    if e.ElseBlock? {
      BlockData(f, e.block);
    }
  }

  // A block fails to lower on the first thing in it that cannot be read, and otherwise lowers
  // to its last description and the rules its syntax says.
  lemma LoweringExact(f: Front, b: Block)
    ensures BlockOf(f, b)
         == var faults := StatementsFaults(f, b.statements);
            if faults == [] then Success(Fields(LastDescription(f, b.statements), BlockRules(f, b))) else Failure(faults[0])
  {
    StatementsFail(f, b.statements, Fields("", []));
    if BlockOf(f, b).Success? {
      BlockData(f, b);
      DescriptionIsLast(f, b.statements);
    }
  }

  // ----- the description, and when a block lowers at all -----

  // The text of the last description that is a string.
  function LastDescription(f: Front, ss: seq<Statement>): string {
    if ss == [] then ""
    else
      var s := ss[|ss| - 1];
      if IsDescription(s) && Datum(f, s.value).String? then Datum(f, s.value).text
      else LastDescription(f, ss[..|ss| - 1])
  }

  lemma {:induction false} StatementsOfAppend(f: Front, ss: seq<Statement>, s: Statement, done: Fields)
    ensures StatementsOf(f, ss + [s], done)
         == var r := StatementsOf(f, ss, done); if r.Failure? then r else StatementOf(f, s, r.value)
    decreases ss
  {
    if ss == [] {
      assert ([s])[1..] == [] && [] + [s] == [s];
    } else {
      assert (ss + [s])[1..] == ss[1..] + [s];
      var next := StatementOf(f, ss[0], done);
      if next.Success? {
        StatementsOfAppend(f, ss[1..], s, next.value);
      }
    }
  }

  lemma {:induction false} DescriptionIsLast(f: Front, ss: seq<Statement>)
    requires StatementsOf(f, ss, Fields("", [])).Success?
    ensures StatementsOf(f, ss, Fields("", [])).value.description == LastDescription(f, ss)
    decreases |ss|
  {
    if ss != [] {
      var earlier, s := ss[..|ss| - 1], ss[|ss| - 1];
      assert earlier + [s] == ss;
      StatementsOfAppend(f, earlier, s, Fields("", []));
      DescriptionIsLast(f, earlier);
      if IsDescription(s) {
        ValueData(f, s.value);
      }
    }
  }

  predicate ReadableBlock(f: Front, b: Block)
    decreases b, 0
  {
    ReadableStatements(f, b.statements)
  }

  predicate ReadableStatements(f: Front, ss: seq<Statement>)
    decreases ss, 1
  {
    ss == [] || (ReadableStatement(f, ss[0]) && ReadableStatements(f, ss[1..]))
  }

  // Every number and boolean in it can be read.
  predicate ReadableStatement(f: Front, s: Statement)
    decreases s, 0
  {
    match s
    case ValueField(_, value) => ReadableValue(f, value)
    case BlockField(_, block) => ReadableBlock(f, block)
    case RangeStatement(range) => ReadableRange(f, range)
    case IfStatement(_, t, e) => ReadableBlock(f, t) && (e.ElseBlock? ==> ReadableBlock(f, e.block))
    case CallStatement(call) => ReadablePairs(f, call.args)
    case _ => true
  }

  predicate ReadableRange(f: Front, r: RangeSyntax)
    decreases r, 0
  {
    f.parse(r.start).Some? && f.parse(r.end).Some? && ReadableBlock(f, r.block)
  }

  predicate ReadableValue(f: Front, v: Value)
    decreases v, 0
  {
    match v
    case NumberLiteral(digits) => f.parse(digits).Some?
    case BooleanLiteral(word) => word == "true" || word == "false"
    case Array(elements) => ReadableValues(f, elements)
    case Object(pairs) => ReadablePairs(f, pairs)
    case FunctionCall(call) => ReadablePairs(f, call.args)
    case RangeValue(range) => ReadableRange(f, range)
    case _ => true
  }

  predicate ReadableValues(f: Front, vs: seq<Value>)
    decreases vs, 1
  {
    vs == [] || (ReadableValue(f, vs[0]) && ReadableValues(f, vs[1..]))
  }

  predicate ReadablePairs(f: Front, pairs: seq<Pair>)
    decreases pairs, 1
  {
    pairs == [] || (ReadableValue(f, pairs[0].value) && ReadablePairs(f, pairs[1..]))
  }

  // ----- what cannot be read, in source order -----

  function StatementsFaults(f: Front, ss: seq<Statement>): seq<LowerError>
    decreases ss, 1
  {
    if ss == [] then [] else StatementFaults(f, ss[0]) + StatementsFaults(f, ss[1..])
  }

  function StatementFaults(f: Front, s: Statement): seq<LowerError>
    decreases s, 0
  {
    match s
    case ValueField(_, value) => ValueFaults(f, value)
    case BlockField(_, block) => StatementsFaults(f, block.statements)
    case RangeStatement(range) => RangeFaults(f, range)
    case IfStatement(_, t, e) =>
      StatementsFaults(f, t.statements) + if e.ElseBlock? then StatementsFaults(f, e.block.statements) else []
    case CallStatement(call) => PairsFaults(f, call.args)
    case _ => []
  }

  function RangeFaults(f: Front, r: RangeSyntax): seq<LowerError>
    decreases r, 0
  {
    (if f.parse(r.start).None? then [BadRangeStart(r.start)] else [])
    + ((if f.parse(r.end).None? then [BadRangeEnd(r.end)] else []) + StatementsFaults(f, r.block.statements))
  }

  function ValueFaults(f: Front, v: Value): seq<LowerError>
    decreases v, 0
  {
    match v
    case NumberLiteral(digits) => if f.parse(digits).None? then [BadNumber(digits)] else []
    case BooleanLiteral(word) => if word != "true" && word != "false" then [BadBoolean(word)] else []
    case Array(elements) => ValuesFaults(f, elements)
    case Object(pairs) => PairsFaults(f, pairs)
    case FunctionCall(call) => PairsFaults(f, call.args)
    case RangeValue(range) => RangeFaults(f, range)
    case _ => []
  }

  function ValuesFaults(f: Front, vs: seq<Value>): seq<LowerError>
    decreases vs, 1
  {
    if vs == [] then [] else ValueFaults(f, vs[0]) + ValuesFaults(f, vs[1..])
  }

  function PairsFaults(f: Front, pairs: seq<Pair>): seq<LowerError>
    decreases pairs, 1
  {
    if pairs == [] then [] else ValueFaults(f, pairs[0].value) + PairsFaults(f, pairs[1..])
  }

  // A result fails with the first of the faults, if there are any.
  predicate FailsFirst<T>(r: Result<T, LowerError>, faults: seq<LowerError>) {
    if faults == [] then r.Success? else r == Failure(faults[0])
  }

  lemma FirstOfBoth(a: seq<LowerError>, b: seq<LowerError>)
    ensures a == [] ==> a + b == b
    ensures a != [] ==> a + b != [] && (a + b)[0] == a[0]
  {
  }

  lemma {:induction false} StatementsFail(f: Front, ss: seq<Statement>, done: Fields)
    ensures FailsFirst(StatementsOf(f, ss, done), StatementsFaults(f, ss))
    decreases ss, 1
  {
    if ss != [] {
      StatementFails(f, ss[0], done);
      FirstOfBoth(StatementFaults(f, ss[0]), StatementsFaults(f, ss[1..]));
      if StatementOf(f, ss[0], done).Success? {
        StatementsFail(f, ss[1..], StatementOf(f, ss[0], done).value);
      }
    }
  }

  lemma {:induction false} StatementFails(f: Front, s: Statement, done: Fields)
    ensures FailsFirst(StatementOf(f, s, done), StatementFaults(f, s))
    decreases s, 0
  {
    match s {
      case ValueField(_, value) =>
        ValueFails(f, value);
      case BlockField(_, block) =>
        StatementsFail(f, block.statements, Fields("", []));
      case RangeStatement(range) =>
        RangeFails(f, range);
      case IfStatement(_, t, e) =>
        StatementsFail(f, t.statements, Fields("", []));
        ElseFails(f, e);
        FirstOfBoth(StatementsFaults(f, t.statements), if e.ElseBlock? then StatementsFaults(f, e.block.statements) else []);
        assert FailsFirst(IfOf(f, s), StatementFaults(f, s));
      case CallStatement(call) =>
        PairsFail(f, call.args, []);
      case _ =>
    }
  }

  lemma {:induction false} ElseFails(f: Front, e: ElseBlock)
    ensures FailsFirst(ElseOf(f, e), if e.ElseBlock? then StatementsFaults(f, e.block.statements) else [])
    decreases e, 0
  {
    if e.ElseBlock? {
      StatementsFail(f, e.block.statements, Fields("", []));
    }
  }

  lemma {:induction false} RangeFails(f: Front, r: RangeSyntax)
    ensures FailsFirst(RangeOf(f, r), RangeFaults(f, r))
    decreases r, 0
  {
    var start: seq<LowerError> := if f.parse(r.start).None? then [BadRangeStart(r.start)] else [];
    var end: seq<LowerError> := if f.parse(r.end).None? then [BadRangeEnd(r.end)] else [];
    StatementsFail(f, r.block.statements, Fields("", []));
    FirstOfBoth(end, StatementsFaults(f, r.block.statements));
    FirstOfBoth(start, end + StatementsFaults(f, r.block.statements));
  }

  lemma {:induction false} ValueFails(f: Front, v: Value)
    ensures FailsFirst(ValueOf(f, v), ValueFaults(f, v))
    decreases v, 0
  {
    match v {
      case Array(elements) =>
        ValuesFail(f, elements, []);
      case Object(pairs) =>
        PairsFail(f, pairs, []);
      case FunctionCall(call) =>
        PairsFail(f, call.args, []);
      case RangeValue(range) =>
        RangeFails(f, range);
      case _ =>
    }
  }

  lemma {:induction false} ValuesFail(f: Front, vs: seq<Value>, done: seq<RuleValue>)
    ensures FailsFirst(ValuesOf(f, vs, done), ValuesFaults(f, vs))
    decreases vs, 1
  {
    if vs != [] {
      ValueFails(f, vs[0]);
      FirstOfBoth(ValueFaults(f, vs[0]), ValuesFaults(f, vs[1..]));
      if ValueOf(f, vs[0]).Success? {
        ValuesFail(f, vs[1..], done + [ValueOf(f, vs[0]).value]);
      }
    }
  }

  lemma {:induction false} PairsFail(f: Front, pairs: seq<Pair>, done: seq<Rule>)
    ensures FailsFirst(PairsOf(f, pairs, done), PairsFaults(f, pairs))
    decreases pairs, 1
  {
    if pairs != [] {
      ValueFails(f, pairs[0].value);
      FirstOfBoth(ValueFaults(f, pairs[0].value), PairsFaults(f, pairs[1..]));
      if ValueOf(f, pairs[0].value).Success? {
        PairsFail(f, pairs[1..], done + [Rule(TrimQuotes(pairs[0].key), ValueOf(f, pairs[0].value).value)]);
      }
    }
  }

  // ----- when a block lowers -----

  lemma {:induction false} StatementsLower(f: Front, ss: seq<Statement>, done: Fields)
    ensures StatementsOf(f, ss, done).Success? <==> ReadableStatements(f, ss)
    decreases ss, 1
  {
    if ss != [] {
      StatementLowers(f, ss[0], done);
      if ReadableStatement(f, ss[0]) {
        StatementsLower(f, ss[1..], StatementOf(f, ss[0], done).value);
      }
    }
  }

  // A block lowers without error exactly when everything in it can be read.
  lemma {:induction false} BlockLowers(f: Front, b: Block)
    ensures BlockOf(f, b).Success? <==> ReadableBlock(f, b)
    decreases b, 0
  {
    StatementsLower(f, b.statements, Fields("", []));
  }

  lemma {:induction false} StatementLowers(f: Front, s: Statement, done: Fields)
    ensures StatementOf(f, s, done).Success? <==> ReadableStatement(f, s)
    decreases s, 0
  {
    match s {
      case ValueField(_, value) =>
        ValueLowers(f, value);
      case BlockField(_, block) =>
        BlockLowers(f, block);
      case RangeStatement(range) =>
        RangeLowers(f, range);
      case IfStatement(_, t, e) =>
        BlockLowers(f, t);
        if e.ElseBlock? {
          BlockLowers(f, e.block);
        }
        assert ElseOf(f, e).Success? <==> (e.ElseBlock? ==> ReadableBlock(f, e.block));
      case CallStatement(call) =>
        PairsLower(f, call.args, []);
      case _ =>
    }
  }

  lemma {:induction false} RangeLowers(f: Front, r: RangeSyntax)
    ensures RangeOf(f, r).Success? <==> ReadableRange(f, r)
    decreases r, 0
  {
    BlockLowers(f, r.block);
  }

  lemma {:induction false} ValueLowers(f: Front, v: Value)
    ensures ValueOf(f, v).Success? <==> ReadableValue(f, v)
    decreases v, 0
  {
    match v {
      case Array(elements) =>
        ValuesLower(f, elements, []);
      case Object(pairs) =>
        PairsLower(f, pairs, []);
      case FunctionCall(call) =>
        PairsLower(f, call.args, []);
      case RangeValue(range) =>
        RangeLowers(f, range);
      case _ =>
    }
  }

  lemma {:induction false} ValuesLower(f: Front, vs: seq<Value>, done: seq<RuleValue>)
    ensures ValuesOf(f, vs, done).Success? <==> ReadableValues(f, vs)
    decreases vs, 1
  {
    if vs != [] {
      ValueLowers(f, vs[0]);
      if ReadableValue(f, vs[0]) {
        ValuesLower(f, vs[1..], done + [ValueOf(f, vs[0]).value]);
      }
    }
  }

  lemma {:induction false} PairsLower(f: Front, pairs: seq<Pair>, done: seq<Rule>)
    ensures PairsOf(f, pairs, done).Success? <==> ReadablePairs(f, pairs)
    decreases pairs, 1
  {
    if pairs != [] {
      ValueLowers(f, pairs[0].value);
      if ReadableValue(f, pairs[0].value) {
        PairsLower(f, pairs[1..], done + [Rule(TrimQuotes(pairs[0].key), ValueOf(f, pairs[0].value).value)]);
      }
    }
  }
}
