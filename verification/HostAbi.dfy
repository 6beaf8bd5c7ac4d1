// The host's side of the calls: the import table a call's number refers to, and a host that
// takes its arguments in the order of its own parameters.
module HostAbi {
  import opened Wrappers
  import opened CclAst
  import opened Emit
  import opened MemoryLayout
  import Codegen

  const HOST_FNS: seq<string> := [
    "begin_section", "end_section", "create_proposal", "mint_token", "anchor_data", "call_host",
    "log_if_condition", "log_else", "log_endif", "set_property", "log_todo", "on_event",
    "log_range_check", "range_check", "use_resource", "transfer_token", "host_submit_mesh_job"]

  function ImportOf(op: Opcode): string {
    match op
    case OpBeginSection(_, _) => "begin_section"
    case OpEndSection => "end_section"
    case OpCreateProposal(_, _) => "create_proposal"
    case OpMintToken(_, _, _, _) => "mint_token"
    case OpAnchorData(_, _) => "anchor_data"
    case OpCallHost(_, _) => "call_host"
    case OpIf(_) => "log_if_condition"
    case OpElse => "log_else"
    case OpEndIf => "log_endif"
    case OpSetProperty(_, _) => "set_property"
    case OpTodo(_) => "log_todo"
    case OpOnEvent(_) => "on_event"
    case OpRangeCheck(_, _) => "range_check"
    case OpUseResource(_, _) => "use_resource"
    case OpTransferToken(_, _, _, _) => "transfer_token"
    case OpSubmitJob(_) => "host_submit_mesh_job"
  }

  // Every opcode calls the import made for it.
  lemma ImportsMatch(op: Opcode)
    ensures HostFn(op) < |HOST_FNS| && HOST_FNS[HostFn(op)] == ImportOf(op)
  {
  }

  // What the host makes of the bytes it reads.
  datatype Reader = Reader(text: Bytes -> string, job: Bytes -> JobParams)

  ghost predicate Inverts(r: Reader, enc: Encoding) {
    && (forall s :: r.text(enc.utf8(s)) == s)
    && (forall p :: r.job(enc.cbor(p)) == p)
  }

  function Text(r: Reader, args: seq<Operand>, i: nat): string {
    if i < |args| && args[i].Payload? then r.text(args[i].bytes) else ""
  }

  function Amount(args: seq<Operand>, i: nat): nat {
    if i < |args| && args[i].Word? then args[i].value else 0
  }

  function Bound(args: seq<Operand>, i: nat): Float {
    if i < |args| && args[i].Double? then args[i].double else Float(0)
  }

  // A call as the host function of that number takes its arguments, in the order of its
  // parameters. Absent texts arrive as empty ones.
  function Understood(r: Reader, c: HostCall): Option<Opcode> {
    var a := c.args;
    match c.fn
    case 0 => Some(OpBeginSection(Text(r, a, 0), Some(Text(r, a, 1))))
    case 1 => Some(OpEndSection)
    case 2 => Some(OpCreateProposal(Text(r, a, 0), Some(Text(r, a, 1))))
    case 3 => Some(OpMintToken(Text(r, a, 0), Amount(a, 1), Some(Text(r, a, 2)), Some(Text(r, a, 3))))
    case 4 => Some(OpAnchorData(Some(Text(r, a, 0)), Text(r, a, 1)))
    case 5 => Some(OpCallHost(Text(r, a, 0), Text(r, a, 1)))
    case 6 => Some(OpIf(Text(r, a, 0)))
    case 7 => Some(OpElse)
    case 8 => Some(OpEndIf)
    case 9 => Some(OpSetProperty(Text(r, a, 0), Text(r, a, 1)))
    case 10 => Some(OpTodo(Text(r, a, 0)))
    case 11 => Some(OpOnEvent(Text(r, a, 0)))
    case 13 => Some(OpRangeCheck(Bound(a, 0), Bound(a, 1)))
    case 14 => Some(OpUseResource(Text(r, a, 0), Amount(a, 1)))
    case 15 => Some(OpTransferToken(Text(r, a, 0), Amount(a, 1), Some(Text(r, a, 2)), Text(r, a, 3)))
    case 16 => if |a| == 2 && a[0].Payload? && a[1] == Buffer(0, 128) then Some(OpSubmitJob(r.job(a[0].bytes))) else None
    case _ => None
  }

  function Given(s: Option<string>, default: string): Option<string> {
    if s.Some? then s else Some(default)
  }

  // An opcode with what stands for its absent parts.
  function Filled(op: Opcode): Opcode {
    match op
    case OpBeginSection(kind, heading) => OpBeginSection(kind, Given(heading, ""))
    case OpCreateProposal(title, version) => OpCreateProposal(title, Given(version, "0.0.0"))
    case OpMintToken(res, amount, to, data) => OpMintToken(res, amount, Given(to, ""), Given(data, ""))
    case OpAnchorData(path, ref) => OpAnchorData(Given(path, ""), ref)
    case OpTransferToken(token, amount, sender, to) => OpTransferToken(token, amount, Given(sender, ""), to)
    case _ => op
  }

  // The host understands each call as the opcode it was emitted for.
  lemma HostUnderstands(r: Reader, enc: Encoding, op: Opcode)
    requires Inverts(r, enc)
    ensures Understood(r, CallOf(enc, op)) == Some(Filled(op))
  {
    if op.OpMintToken? || op.OpTransferToken? || op.OpUseResource? || op.OpRangeCheck? || op.OpSubmitJob? {
      NumbersUnderstood(r, enc, op);
    } else {
      TextsUnderstood(r, enc, op);
    }
  }

  lemma NumbersUnderstood(r: Reader, enc: Encoding, op: Opcode)
    requires Inverts(r, enc)
    requires op.OpMintToken? || op.OpTransferToken? || op.OpUseResource? || op.OpRangeCheck? || op.OpSubmitJob?
    ensures Understood(r, CallOf(enc, op)) == Some(Filled(op))
  {
    match op {
      case OpMintToken(_, _, _, _) =>
      case OpTransferToken(_, _, _, _) =>
      case _ =>
    }
  }

  lemma TextsUnderstood(r: Reader, enc: Encoding, op: Opcode)
    requires Inverts(r, enc)
    requires !(op.OpMintToken? || op.OpTransferToken? || op.OpUseResource? || op.OpRangeCheck? || op.OpSubmitJob?)
    ensures Understood(r, CallOf(enc, op)) == Some(Filled(op))
  {
    match op {
      case OpBeginSection(_, _) =>
      case OpCreateProposal(_, _) =>
      case OpAnchorData(_, _) =>
      case _ =>
    }
  }

  // And so, once a module that fits has been read, the whole program.
  lemma {:induction false} ProgramUnderstood(r: Reader, enc: Encoding, ops: seq<Opcode>)
    requires Inverts(r, enc)
    ensures |CallsOf(enc, ops)| == |ops|
    ensures forall i | 0 <= i < |ops| :: Understood(r, CallsOf(enc, ops)[i]) == Some(Filled(ops[i]))
    decreases ops
  {
    if ops != [] {
      HostUnderstands(r, enc, ops[0]);
      ProgramUnderstood(r, enc, ops[1..]);
    }
  }

  // ----- what the module returns -----

  // The value on top of the stack, the one local, and the calls made so far; `answer` is what
  // the host returns from each call.
  datatype Frame = Frame(top: int, local: int, calls: nat)

  function Perform(answer: nat -> int, m: Frame, instr: Instr): Frame {
    match instr
    case I32Const(bits) => m.(top := bits)
    case I64Const(word) => m.(top := word)
    case F64Const(_) => m
    case Call(_) => m.(top := answer(m.calls), calls := m.calls + 1)
    case LocalSet => m.(local := m.top)
    case LocalGet => m.(top := m.local)
    case End => m
  }

  function Execute(answer: nat -> int, m: Frame, body: seq<Instr>): Frame
    decreases body
  {
    if body == [] then m else Execute(answer, Perform(answer, m, body[0]), body[1..])
  }

  lemma {:induction false} ExecuteConcat(answer: nat -> int, m: Frame, a: seq<Instr>, b: seq<Instr>)
    ensures Execute(answer, m, a + b) == Execute(answer, Execute(answer, m, a), b)
    decreases a
  {
    if a == [] {
      assert a + b == b;
    } else {
      assert (a + b)[1..] == a[1..] + b;
      ExecuteConcat(answer, Perform(answer, m, a[0]), a[1..], b);
    }
  }

  lemma {:induction false} ConstantsKeepLocal(answer: nat -> int, m: Frame, code: seq<Instr>)
    requires Constants(code)
    ensures var after := Execute(answer, m, code); after.local == m.local && after.calls == m.calls
    decreases code
  {
    if code != [] {
      assert code[0] in code;
      ConstantsKeepLocal(answer, Perform(answer, m, code[0]), code[1..]);
    }
  }

  // The host's answer to the last job submission from call number `from` on.
  function LastJob(answer: nat -> int, ops: seq<Opcode>, from: nat, before: int): int
    decreases ops
  {
    if ops == [] then before
    else LastJob(answer, ops[1..], from + 1, if ops[0].OpSubmitJob? then answer(from) else before)
  }

  // The instructions that one opcode, and a list of them, adds to the body.
  function OpcodeCode(enc: Encoding, l: Layout, op: Opcode): seq<Instr> {
    Pushed(l, Operands(enc, op)) + Trigger(op)
  }

  function OpcodesCode(enc: Encoding, l: Layout, ops: seq<Opcode>): seq<Instr>
    decreases ops
  {
    if ops == [] then [] else OpcodeCode(enc, l, ops[0]) + OpcodesCode(enc, EmitOp(enc, l, ops[0]), ops[1..])
  }

  lemma {:induction false} BodyIsCode(enc: Encoding, l: Layout, ops: seq<Opcode>)
    ensures EmitOps(enc, l, ops).body == l.body + OpcodesCode(enc, l, ops)
    decreases ops
  {
    if ops == [] {
      assert l.body + [] == l.body;
    } else {
      var l' := EmitOp(enc, l, ops[0]);
      PushedBody(l, Operands(enc, ops[0]));
      Codegen.Associative(l.body, Pushed(l, Operands(enc, ops[0])), Trigger(ops[0]));
      BodyIsCode(enc, l', ops[1..]);
      Codegen.Associative(l.body, OpcodeCode(enc, l, ops[0]), OpcodesCode(enc, l', ops[1..]));
    }
  }

  lemma ExecuteOpcode(answer: nat -> int, enc: Encoding, l: Layout, op: Opcode, m: Frame)
    ensures var after := Execute(answer, m, OpcodeCode(enc, l, op));
            after.calls == m.calls + 1 && after.local == if op.OpSubmitJob? then answer(m.calls) else m.local
  {
    var consts := Pushed(l, Operands(enc, op));
    PushedBody(l, Operands(enc, op));
    ExecuteConcat(answer, m, consts, Trigger(op));
    ConstantsKeepLocal(answer, m, consts);
    assert Trigger(op)[1..] == if op.OpSubmitJob? then [LocalSet] else [];
    assert [LocalSet][1..] == [];
  }

  lemma {:induction false} ExecuteOpcodes(answer: nat -> int, enc: Encoding, l: Layout, ops: seq<Opcode>, m: Frame)
    ensures Execute(answer, m, OpcodesCode(enc, l, ops)).local == LastJob(answer, ops, m.calls, m.local)
    decreases ops
  {
    if ops != [] {
      var l', first := EmitOp(enc, l, ops[0]), OpcodeCode(enc, l, ops[0]);
      ExecuteOpcode(answer, enc, l, ops[0], m);
      ExecuteConcat(answer, m, first, OpcodesCode(enc, l', ops[1..]));
      ExecuteOpcodes(answer, enc, l', ops[1..], Execute(answer, m, first));
    }
  }

  // The module returns the host's answer to its last job submission, or zero without one,
  // whatever its local holds at the start.
  lemma ReturnsLastJob(answer: nat -> int, enc: Encoding, ops: seq<Opcode>, m: Frame)
    requires m.calls == 0
    ensures Execute(answer, m, WasmOf(enc, ops).body).top == LastJob(answer, ops, 0, 0)
  {
    var l, code := Prologue(), OpcodesCode(enc, Prologue(), ops);
    BodyIsCode(enc, l, ops);
    ExecuteConcat(answer, m, l.body, code);
    ExecuteConcat(answer, m, l.body + code, [LocalGet, End]);
    assert l.body[1..] == [LocalSet] && [LocalSet][1..] == [];
    ExecuteOpcodes(answer, enc, l, ops, Execute(answer, m, l.body));
    assert [LocalGet, End][1..] == [End] && [End][1..] == [];
  }
}
