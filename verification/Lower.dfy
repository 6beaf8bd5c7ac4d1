// The front half of the compiler: syntax trees of blocks, statements and values lowered to
// rules, and the two passes taken together.
module Lower {
  import opened Wrappers
  import opened CclAst
  import opened Codegen

  // ----- syntax, as the parser delivers it -----

  datatype Block = Block(statements: seq<Statement>)

  // Definitions and metered actions may stand inside a block, where the lowering ignores them.
  // The grammar wraps a plain identifier in a value, so it never delivers an IdentifierField;
  // the lowering has an arm for one all the same.
  datatype Statement =
    | ValueField(key: string, value: Value)
    | BlockField(key: string, block: Block)
    | IdentifierField(key: string, name: string)
    | BareField(key: string)
    | RangeStatement(range: RangeSyntax)
    | IfStatement(condition: string, thenBlock: Block, elseBlock: ElseBlock)
    | CallStatement(call: CallSyntax)
    | NestedDefinition(kind: string, title: Option<string>, block: Block)
    | NestedAction(ident: string, resource: ResourceType, units: nat)

  datatype ElseBlock = NoElseBlock | ElseBlock(block: Block)

  datatype RangeSyntax = RangeSyntax(start: string, end: string, block: Block)

  datatype Value =
    | StringLiteral(raw: string)
    | NumberLiteral(digits: string)
    | BooleanLiteral(word: string)
    | Duration(span: string)
    | GeneralIdentifier(name: string)
    | Array(elements: seq<Value>)
    | Object(pairs: seq<Pair>)
    | FunctionCall(call: CallSyntax)
    | RangeValue(range: RangeSyntax)

  datatype CallSyntax = CallSyntax(fn: string, args: seq<Pair>)

  datatype Pair = Pair(key: string, value: Value)

  datatype LowerError = BadNumber(text: string) | BadBoolean(text: string) | BadRangeStart(text: string) | BadRangeEnd(text: string)

  // Library text conversions: reading a double, printing a count, and the formatting the generator uses.
  datatype Front = Front(text: Text, parse: string -> Option<Float>, decimal: nat -> string)

  // What a block lowers to: its description and its rules.
  datatype Fields = Fields(description: string, rules: seq<Rule>) {
    function Push(r: Rule): Fields {
      this.(rules := rules + [r])
    }
  }

  function TrimStart(s: string): string {
    if s != [] && s[0] == '"' then TrimStart(s[1..]) else s
  }

  function TrimEnd(s: string): string {
    if s != [] && s[|s| - 1] == '"' then TrimEnd(s[..|s| - 1]) else s
  }

  function TrimQuotes(s: string): string {
    TrimEnd(TrimStart(s))
  }

  // A title as sections carry it, without its quotes.
  function Heading(title: Option<string>): Option<string> {
    if title.Some? then Some(TrimQuotes(title.value)) else None
  }

  // ----- lowering as a function -----

  function ParseNumber(f: Front, digits: string, error: LowerError): Result<Float, LowerError> {
    match f.parse(digits)
    case Some(x) => Success(x)
    case None => Failure(error)
  }

  function ValueOf(f: Front, v: Value): Result<RuleValue, LowerError>
    decreases v, 0
  {
    match v
    case StringLiteral(raw) => Success(String(TrimQuotes(raw)))
    case NumberLiteral(digits) =>
      var x :- ParseNumber(f, digits, BadNumber(digits));
      Success(Number(x))
    case BooleanLiteral(word) =>
      if word == "true" then Success(Boolean(true))
      else if word == "false" then Success(Boolean(false))
      else Failure(BadBoolean(word))
    case Duration(span) => Success(String(span))
    case GeneralIdentifier(name) => Success(String(name))
    case Array(elements) =>
      var items :- ValuesOf(f, elements, []);
      Success(List(items))
    case Object(pairs) =>
      var rules :- PairsOf(f, pairs, []);
      Success(Map(rules))
    case FunctionCall(call) => CallOf(f, call)
    case RangeValue(range) =>
      var g :- RangeOf(f, range);
      Success(Range(g))
  }

  function CallOf(f: Front, call: CallSyntax): Result<RuleValue, LowerError>
    decreases call, 0
  {
    var rules :- PairsOf(f, call.args, []);
    Success(CallValue(call.fn, rules))
  }

  function CallValue(fn: string, args: seq<Rule>): RuleValue {
    Map([Rule("function_name", String(fn)), Rule("args", Map(args))])
  }

  function ValuesOf(f: Front, vs: seq<Value>, done: seq<RuleValue>): Result<seq<RuleValue>, LowerError>
    decreases vs, 1
  {
    if vs == [] then Success(done)
    else
      var v :- ValueOf(f, vs[0]);
      ValuesOf(f, vs[1..], done + [v])
  }

  function PairsOf(f: Front, pairs: seq<Pair>, done: seq<Rule>): Result<seq<Rule>, LowerError>
    decreases pairs, 1
  {
    if pairs == [] then Success(done)
    else
      var v :- ValueOf(f, pairs[0].value);
      PairsOf(f, pairs[1..], done + [Rule(TrimQuotes(pairs[0].key), v)])
  }

  function RangeOf(f: Front, r: RangeSyntax): Result<RangeRule, LowerError>
    decreases r, 0
  {
    var start :- ParseNumber(f, r.start, BadRangeStart(r.start));
    var end :- ParseNumber(f, r.end, BadRangeEnd(r.end));
    var fields :- BlockOf(f, r.block);
    Success(RangeRule(start, end, fields.rules))
  }

  function IfOf(f: Front, s: Statement): Result<IfExpr, LowerError>
    requires s.IfStatement?
    decreases s, 0
  {
    var t :- BlockOf(f, s.thenBlock);
    var e :- ElseOf(f, s.elseBlock);
    Success(IfExpr(s.condition, t.rules, e))
  }

  function ElseOf(f: Front, e: ElseBlock): Result<ElseRules, LowerError>
    decreases e, 0
  {
    match e
    case NoElseBlock => Success(NoElse)
    case ElseBlock(block) =>
      var fields :- BlockOf(f, block);
      Success(Else(fields.rules))
  }

  function BlockOf(f: Front, b: Block): Result<Fields, LowerError>
    decreases b, 0
  {
    StatementsOf(f, b.statements, Fields("", []))
  }

  function StatementsOf(f: Front, ss: seq<Statement>, done: Fields): Result<Fields, LowerError>
    decreases ss, 1
  {
    if ss == [] then Success(done)
    else
      var next :- StatementOf(f, ss[0], done);
      StatementsOf(f, ss[1..], next)
  }

  function StatementOf(f: Front, s: Statement, done: Fields): Result<Fields, LowerError>
    decreases s, 1
  {
    match s
    case ValueField(key, value) =>
      var v :- ValueOf(f, value);
      Success(if TrimQuotes(key) != "description" then done.Push(Rule(TrimQuotes(key), v))
              else if v.String? then done.(description := v.text)
              else done)
    case BlockField(key, block) =>
      var fields :- BlockOf(f, block);
      Success(done.Push(Rule(TrimQuotes(key), Map(fields.rules))))
    case IdentifierField(key, name) => Success(done.Push(Rule(TrimQuotes(key), String(name))))
    case BareField(key) => Success(done.Push(Rule(TrimQuotes(key), Boolean(true))))
    case RangeStatement(range) =>
      var g :- RangeOf(f, range);
      Success(done.Push(Rule(RangeKind(f.text, g.start, g.end), Range(g))))
    case IfStatement(_, _, _) =>
      var x :- IfOf(f, s);
      Success(done.Push(Rule("if_condition_" + f.decimal(|done.rules|), If(x))))
    case CallStatement(call) =>
      var v :- CallOf(f, call);
      Success(done.Push(Rule(call.fn, v)))
    case NestedDefinition(_, _, _) => Success(done)
    case NestedAction(_, _, _) => Success(done)
  }

  // ----- the lowering methods -----

  method LowerBlockCommonFields(f: Front, b: Block) returns (r: Result<Fields, LowerError>)
    ensures r == BlockOf(f, b)
    decreases b, 0
  {
    var done := Fields("", []);
    var i := 0;
    while i < |b.statements|
      invariant i <= |b.statements|
      invariant StatementsOf(f, b.statements[i..], done) == BlockOf(f, b)
    {
      var s := b.statements[i];
      assert b.statements[i..][1..] == b.statements[i + 1..];
      match s {
        case ValueField(key, value) =>
          var v :- LowerValueRule(f, value);
          if TrimQuotes(key) == "description" {
            if v.String? {
              done := done.(description := v.text);
            }
          } else {
            done := done.Push(Rule(TrimQuotes(key), v));
          }
        case BlockField(key, block) =>
          var nested :- LowerBlockCommonFields(f, block);
          done := done.Push(Rule(TrimQuotes(key), Map(nested.rules)));
        case IdentifierField(key, name) =>
          done := done.Push(Rule(TrimQuotes(key), String(name)));
        case BareField(key) =>
          done := done.Push(Rule(TrimQuotes(key), Boolean(true)));
        case RangeStatement(range) =>
          var g :- LowerRangeStatement(f, range);
          done := done.Push(Rule(RangeKind(f.text, g.start, g.end), Range(g)));
        case IfStatement(_, _, _) =>
          var x :- LowerIfStatement(f, s);
          done := done.Push(Rule("if_condition_" + f.decimal(|done.rules|), If(x)));
        case CallStatement(call) =>
          var v :- LowerCall(f, call);
          done := done.Push(Rule(call.fn, v));
        case NestedDefinition(_, _, _) =>
        case NestedAction(_, _, _) =>
      }
      i := i + 1;
    }
    r := Success(done);
  }

  method LowerValueRule(f: Front, v: Value) returns (r: Result<RuleValue, LowerError>)
    ensures r == ValueOf(f, v)
    decreases v, 1
  {
    match v {
      case Array(elements) =>
        var items := [];
        var i := 0;
        while i < |elements|
          invariant i <= |elements|
          invariant ValuesOf(f, elements[i..], items) == ValuesOf(f, elements, [])
        {
          assert elements[i..][1..] == elements[i + 1..];
          var item :- LowerValueRule(f, elements[i]);
          items := items + [item];
          i := i + 1;
        }
        r := Success(List(items));
      case Object(pairs) =>
        var rules :- LowerPairs(f, pairs);
        r := Success(Map(rules));
      case FunctionCall(call) =>
        r := LowerCall(f, call);
      case RangeValue(range) =>
        var g :- LowerRangeStatement(f, range);
        r := Success(Range(g));
      case _ =>
        r := ValueOf(f, v);
    }
  }

  method LowerPairs(f: Front, pairs: seq<Pair>) returns (r: Result<seq<Rule>, LowerError>)
    ensures r == PairsOf(f, pairs, [])
    decreases pairs, 0
  {
    var rules := [];
    var i := 0;
    while i < |pairs|
      invariant i <= |pairs|
      invariant PairsOf(f, pairs[i..], rules) == PairsOf(f, pairs, [])
    {
      assert pairs[i..][1..] == pairs[i + 1..];
      var v :- LowerValueRule(f, pairs[i].value);
      rules := rules + [Rule(TrimQuotes(pairs[i].key), v)];
      i := i + 1;
    }
    r := Success(rules);
  }

  method LowerCall(f: Front, call: CallSyntax) returns (r: Result<RuleValue, LowerError>)
    ensures r == CallOf(f, call)
    decreases call, 0
  {
    var rules :- LowerPairs(f, call.args);
    r := Success(CallValue(call.fn, rules));
  }

  method LowerRangeStatement(f: Front, range: RangeSyntax) returns (r: Result<RangeRule, LowerError>)
    ensures r == RangeOf(f, range)
    decreases range, 0
  {
    var start :- ParseNumber(f, range.start, BadRangeStart(range.start));
    var end :- ParseNumber(f, range.end, BadRangeEnd(range.end));
    var fields :- LowerBlockCommonFields(f, range.block);
    r := Success(RangeRule(start, end, fields.rules));
  }

  method LowerIfStatement(f: Front, s: Statement) returns (r: Result<IfExpr, LowerError>)
    requires s.IfStatement?
    ensures r == IfOf(f, s)
    decreases s, 0
  {
    var t :- LowerBlockCommonFields(f, s.thenBlock);
    var elseRules := NoElse;
    if s.elseBlock.ElseBlock? {
      var e :- LowerBlockCommonFields(f, s.elseBlock.block);
      elseRules := Else(e.rules);
    }
    r := Success(IfExpr(s.condition, t.rules, elseRules));
  }
}
