// Writing a rule tree back as source text and lowering it again: whatever can be written is
// read back as it was.
module Rewriting {
  import opened Wrappers
  import opened CclAst
  import opened Codegen
  import opened Lower

  // A front end together with a way to write the numbers it reads.
  ghost predicate Writes(f: Front, digits: Float -> string) {
    forall x :: f.parse(digits(x)) == Some(x)
  }

  function Quoted(s: string): string {
    ['"'] + s + ['"']
  }

  predicate Bare(s: string) {
    s == [] || (s[0] != '"' && s[|s| - 1] != '"')
  }

  lemma {:induction false} TrimStartExact(s: string)
    ensures TrimStart(s) == [] || TrimStart(s)[0] != '"'
    ensures |TrimStart(s)| <= |s| && TrimStart(s) == s[|s| - |TrimStart(s)|..]
    ensures forall i | 0 <= i < |s| - |TrimStart(s)| :: s[i] == '"'
    decreases s
  {
    if s != [] && s[0] == '"' {
      TrimStartExact(s[1..]);
    }
  }

  lemma {:induction false} TrimEndExact(s: string)
    ensures TrimEnd(s) == [] || TrimEnd(s)[|TrimEnd(s)| - 1] != '"'
    ensures |TrimEnd(s)| <= |s| && TrimEnd(s) == s[..|TrimEnd(s)|]
    ensures forall i | |TrimEnd(s)| <= i < |s| :: s[i] == '"'
    decreases |s|
  {
    if s != [] && s[|s| - 1] == '"' {
      TrimEndExact(s[..|s| - 1]);
    }
  }

  // Trimming takes away exactly the quotes at either end.
  lemma TrimQuotesExact(s: string)
    ensures Bare(TrimQuotes(s))
    ensures exists a, b :: 0 <= a <= b <= |s| && TrimQuotes(s) == s[a..b] && OnlyQuotes(s[..a]) && OnlyQuotes(s[b..])
  {
    var t, u := TrimStart(s), TrimQuotes(s);
    TrimStartExact(s);
    TrimEndExact(t);
    var a := |s| - |t|;
    assert u == s[a..a + |u|];
    assert OnlyQuotes(s[..a]) && OnlyQuotes(s[a + |u|..]) by {
      forall i | a + |u| <= i < |s| ensures s[i] == '"' {
        assert s[i] == t[i - a];
      }
    }
  }

  predicate OnlyQuotes(s: string) {
    forall c | c in s :: c == '"'
  }

  lemma TrimBare(s: string)
    requires Bare(s)
    ensures TrimQuotes(s) == s && TrimQuotes(Quoted(s)) == s
  {
    var t := s + ['"'];
    assert Quoted(s)[1..] == t;
    assert TrimStart(Quoted(s)) == TrimStart(t);
    if s == [] {
      assert t[1..] == [];
    } else {
      assert t[0] == s[0];
      assert t[..|t| - 1] == s;
      assert TrimEnd(t) == TrimEnd(s);
    }
  }

  // ----- what can be written -----

  predicate WritableValue(f: Front, r: RuleValue)
    decreases r, 0
  {
    match r
    case String(text) => Bare(text)
    case Number(_) => true
    case Boolean(_) => true
    case List(items) => forall i | 0 <= i < |items| :: WritableValue(f, items[i])
    case Map(entries) => forall i | 0 <= i < |entries| :: Bare(entries[i].key) && WritableValue(f, entries[i].value)
    case Range(g) => WritableRules(f, g.rules)
    case If(_) => false
  }

  // A conditional carries its position as key; other rules may have any key but that of the
  // block's description.
  predicate WritableRules(f: Front, rules: seq<Rule>)
    decreases rules, 1
  {
    forall i | 0 <= i < |rules| :: WritableRule(f, rules[i], i)
  }

  predicate WritableRule(f: Front, r: Rule, index: nat)
    decreases r, 0
  {
    if r.value.If? then
      && r.key == "if_condition_" + f.decimal(index)
      && WritableRules(f, r.value.expr.thenRules)
      && (r.value.expr.elseRules.Else? ==> WritableRules(f, r.value.expr.elseRules.rules))
    else Bare(r.key) && r.key != "description" && WritableValue(f, r.value)
  }

  // ----- writing -----

  function WriteValue(digits: Float -> string, r: RuleValue): Value
    decreases r, 0
  {
    match r
    case String(text) => StringLiteral(Quoted(text))
    case Number(x) => NumberLiteral(digits(x))
    case Boolean(flag) => BooleanLiteral(if flag then "true" else "false")
    case List(items) => Array(seq(|items|, i requires 0 <= i < |items| => WriteValue(digits, items[i])))
    case Map(entries) =>
      Object(seq(|entries|, i requires 0 <= i < |entries| => Pair(Quoted(entries[i].key), WriteValue(digits, entries[i].value))))
    case Range(g) => RangeValue(RangeSyntax(digits(g.start), digits(g.end), WriteRules(digits, g.rules)))
    case If(_) => StringLiteral("")
  }

  function WriteRules(digits: Float -> string, rules: seq<Rule>): Block
    decreases rules, 1
  {
    Block(seq(|rules|, i requires 0 <= i < |rules| => WriteRule(digits, rules[i])))
  }

  function WriteRule(digits: Float -> string, r: Rule): Statement
    decreases r, 0
  {
    if r.value.If? then
      var x := r.value.expr;
      IfStatement(x.conditionRaw, WriteRules(digits, x.thenRules),
                  if x.elseRules.Else? then ElseBlock(WriteRules(digits, x.elseRules.rules)) else NoElseBlock)
    else ValueField(Quoted(r.key), WriteValue(digits, r.value))
  }

  // ----- reading back -----

  lemma {:induction false} ValueReadsBack(f: Front, digits: Float -> string, r: RuleValue)
    requires Writes(f, digits) && WritableValue(f, r)
    ensures ValueOf(f, WriteValue(digits, r)) == Success(r)
    decreases r, 0
  {
    match r {
      case String(text) =>
        TrimBare(text);
      case List(items) =>
        ItemsReadBack(f, digits, items, 0);
        assert items[0..] == items && items[..0] == [];
        assert WriteValue(digits, r).elements[0..] == WriteValue(digits, r).elements;
      case Map(entries) =>
        EntriesReadBack(f, digits, entries, 0);
        assert entries[..0] == [];
        assert WriteValue(digits, r).pairs[0..] == WriteValue(digits, r).pairs;
      case Range(g) =>
        assert ParseNumber(f, digits(g.start), BadRangeStart(digits(g.start))) == Success(g.start);
        assert ParseNumber(f, digits(g.end), BadRangeEnd(digits(g.end))) == Success(g.end);
        RulesReadBack(f, digits, g.rules, 0);
        BlockReadsBack(f, digits, g.rules);
      case _ =>
    }
  }

  lemma {:induction false} ItemsReadBack(f: Front, digits: Float -> string, items: seq<RuleValue>, i: nat)
    requires Writes(f, digits) && WritableValue(f, List(items)) && i <= |items|
    ensures ValuesOf(f, WriteValue(digits, List(items)).elements[i..], items[..i]) == Success(items)
    decreases items, 1, |items| - i
  {
    var vs := WriteValue(digits, List(items)).elements;
    if i == |items| {
      assert items[..i] == items;
    } else {
      ValueReadsBack(f, digits, items[i]);
      ItemsReadBack(f, digits, items, i + 1);
      assert vs[i..][1..] == vs[i + 1..];
      assert items[..i] + [items[i]] == items[..i + 1];
    }
  }

  lemma {:induction false} EntriesReadBack(f: Front, digits: Float -> string, entries: seq<Rule>, i: nat)
    requires Writes(f, digits) && WritableValue(f, Map(entries)) && i <= |entries|
    ensures PairsOf(f, WriteValue(digits, Map(entries)).pairs[i..], entries[..i]) == Success(entries)
    decreases entries, 1, |entries| - i
  {
    var pairs := WriteValue(digits, Map(entries)).pairs;
    if i == |entries| {
      assert entries[..i] == entries;
    } else {
      ValueReadsBack(f, digits, entries[i].value);
      TrimBare(entries[i].key);
      EntriesReadBack(f, digits, entries, i + 1);
      assert pairs[i..][1..] == pairs[i + 1..];
      assert entries[..i] + [entries[i]] == entries[..i + 1];
    }
  }

  lemma {:induction false} RulesReadBack(f: Front, digits: Float -> string, rules: seq<Rule>, i: nat)
    requires Writes(f, digits) && WritableRules(f, rules) && i <= |rules|
    ensures StatementsOf(f, WriteRules(digits, rules).statements[i..], Fields("", rules[..i])) == Success(Fields("", rules))
    decreases rules, 1, |rules| - i
  {
    var ss := WriteRules(digits, rules).statements;
    if i == |rules| {
      assert rules[..i] == rules;
    } else {
      RuleReadsBack(f, digits, rules[i], rules[..i]);
      RulesReadBack(f, digits, rules, i + 1);
      assert ss[i..][1..] == ss[i + 1..];
      assert rules[..i] + [rules[i]] == rules[..i + 1];
    }
  }

  lemma {:induction false} RuleReadsBack(f: Front, digits: Float -> string, r: Rule, done: seq<Rule>)
    requires Writes(f, digits) && WritableRule(f, r, |done|)
    ensures StatementOf(f, WriteRule(digits, r), Fields("", done)) == Success(Fields("", done + [r]))
    decreases r, 0
  {
    if r.value.If? {
      var x := r.value.expr;
      BlockReadsBack(f, digits, x.thenRules);
      if x.elseRules.Else? {
        BlockReadsBack(f, digits, x.elseRules.rules);
      }
      var s := WriteRule(digits, r);
      assert ElseOf(f, s.elseBlock) == Success(x.elseRules);
      assert IfOf(f, s) == Success(x);
      assert r == Rule("if_condition_" + f.decimal(|done|), If(x));
    } else {
      TrimBare(r.key);
      ValueReadsBack(f, digits, r.value);
    }
  }

  // Lowering a written block gives back its rules: every kind of literal, keys, lists, maps
  // and conditionals in their order.
  lemma {:induction false} BlockReadsBack(f: Front, digits: Float -> string, rules: seq<Rule>)
    requires Writes(f, digits) && WritableRules(f, rules)
    ensures BlockOf(f, WriteRules(digits, rules)) == Success(Fields("", rules))
    decreases rules, 2
  {
    RulesReadBack(f, digits, rules, 0);
    assert rules[..0] == [];
    assert WriteRules(digits, rules).statements[0..] == WriteRules(digits, rules).statements;
  }

  // A written call becomes the map the generator recognizes, with its own name and arguments.
  lemma CallReadsBack(f: Front, digits: Float -> string, fn: string, args: seq<Rule>)
    requires Writes(f, digits) && WritableValue(f, Map(args))
    ensures var call := CallSyntax(fn, WriteValue(digits, Map(args)).pairs);
            && ValueOf(f, FunctionCall(call)) == Success(Map([Rule("function_name", String(fn)), Rule("args", Map(args))]))
            && BlockOf(f, Block([CallStatement(call)]))
            == Success(Fields("", [Rule(fn, Map([Rule("function_name", String(fn)), Rule("args", Map(args))]))]))
  {
    var call := CallSyntax(fn, WriteValue(digits, Map(args)).pairs);
    EntriesReadBack(f, digits, args, 0);
    assert args[..0] == [] && call.args[0..] == call.args;
    var rule := Rule(fn, CallValue(fn, args));
    assert CallOf(f, call) == Success(rule.value);
    assert StatementOf(f, CallStatement(call), Fields("", [])) == Success(Fields("", [] + [rule]));
    assert [] + [rule] == [rule];
    assert [CallStatement(call)][1..] == [];
    assert StatementsOf(f, [CallStatement(call)], Fields("", [])) == StatementsOf(f, [], Fields("", [rule]));
  }

  // The forms a written block does not use: nested blocks, keyed and bare fields, ranges.
  lemma OtherFormsReadBack(f: Front, digits: Float -> string, key: string, name: string, g: RangeRule)
    requires Writes(f, digits) && Bare(key) && WritableRules(f, g.rules)
    ensures var none := Fields("", []);
            && StatementOf(f, BlockField(Quoted(key), WriteRules(digits, g.rules)), none) == Success(Fields("", [Rule(key, Map(g.rules))]))
            && StatementOf(f, IdentifierField(Quoted(key), name), none) == Success(Fields("", [Rule(key, String(name))]))
            && StatementOf(f, BareField(Quoted(key)), none) == Success(Fields("", [Rule(key, Boolean(true))]))
            && StatementOf(f, RangeStatement(RangeSyntax(digits(g.start), digits(g.end), WriteRules(digits, g.rules))), none)
            == Success(Fields("", [Rule("range_" + f.text.display(g.start) + "_" + f.text.display(g.end), Range(g))]))
            && ValueOf(f, Duration(name)) == ValueOf(f, GeneralIdentifier(name)) == Success(String(name))
  {
    TrimBare(key);
    BlockReadsBack(f, digits, g.rules);
    assert ParseNumber(f, digits(g.start), BadRangeStart(digits(g.start))) == Success(g.start);
    assert ParseNumber(f, digits(g.end), BadRangeEnd(digits(g.end))) == Success(g.end);
    assert forall r: Rule :: [] + [r] == [r];
  }
}
