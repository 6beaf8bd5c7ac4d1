// Emitting opcodes as WASM: one instruction stream, one list of active data segments and
// one allocation cursor. Every string (and every serialized job) gets its own segment,
// laid out one after the other behind the 128-byte job-id buffer.
module Emit {
  import opened Wrappers
  import opened CclAst

  const JOB_ID_BUFFER_SIZE: nat := 128
  const PAGE: nat := 0x1_0000
  const U32: nat := 0x1_0000_0000
  const I32_MAX: nat := 0x7FFF_FFFF

  type Bytes = seq<bv8>

  // UTF-8 of a string and CBOR of a job submission, both left uninterpreted.
  datatype Encoding = Encoding(utf8: string -> Bytes, cbor: JobParams -> Bytes)

  // Constants carry the bit pattern of the operand, which is what a cast keeps.
  datatype Instr =
    | I32Const(bits: nat)
    | I64Const(word: nat)
    | F64Const(double: Float)
    | Call(fn: nat)
    | LocalSet
    | LocalGet
    | End

  datatype Segment = Segment(offset: nat, data: Bytes) {
    function Limit(): nat { offset + |data| }
  }

  datatype Layout = Layout(body: seq<Instr>, data: seq<Segment>, next: nat)

  // What a host function receives: bytes to read, a buffer to fill, or a number.
  datatype Operand =
    | Payload(bytes: Bytes)
    | Buffer(ptr: nat, len: nat)
    | Word(value: nat)
    | Double(double: Float)

  datatype HostCall = HostCall(fn: nat, args: seq<Operand>)

  // ----- what each opcode asks of the host -----

  function HostFn(op: Opcode): nat {
    match op
    case OpBeginSection(_, _) => 0
    case OpEndSection => 1
    case OpCreateProposal(_, _) => 2
    case OpMintToken(_, _, _, _) => 3
    case OpAnchorData(_, _) => 4
    case OpCallHost(_, _) => 5
    case OpIf(_) => 6
    case OpElse => 7
    case OpEndIf => 8
    case OpSetProperty(_, _) => 9
    case OpTodo(_) => 10
    case OpOnEvent(_) => 11
    case OpRangeCheck(_, _) => 13
    case OpUseResource(_, _) => 14
    case OpTransferToken(_, _, _, _) => 15
    case OpSubmitJob(_) => 16
  }

  function OrEmpty(s: Option<string>): string {
    if s.Some? then s.value else ""
  }

  function OrVersion(s: Option<string>): string {
    if s.Some? then s.value else "0.0.0"
  }

  function Operands(enc: Encoding, op: Opcode): seq<Operand> {
    match op
    case OpBeginSection(kind, heading) => [Payload(enc.utf8(kind)), Payload(enc.utf8(OrEmpty(heading)))]
    case OpEndSection => []
    case OpCreateProposal(title, version) => [Payload(enc.utf8(title)), Payload(enc.utf8(OrVersion(version)))]
    case OpMintToken(res, amount, to, data) =>
      [Payload(enc.utf8(res)), Word(amount), Payload(enc.utf8(OrEmpty(to))), Payload(enc.utf8(OrEmpty(data)))]
    case OpAnchorData(path, ref) => [Payload(enc.utf8(OrEmpty(path))), Payload(enc.utf8(ref))]
    case OpCallHost(name, payload) => [Payload(enc.utf8(name)), Payload(enc.utf8(payload))]
    case OpIf(condition) => [Payload(enc.utf8(condition))]
    case OpElse => []
    case OpEndIf => []
    case OpSetProperty(key, json) => [Payload(enc.utf8(key)), Payload(enc.utf8(json))]
    case OpTodo(message) => [Payload(enc.utf8(message))]
    case OpOnEvent(event) => [Payload(enc.utf8(event))]
    case OpRangeCheck(start, end) => [Double(start), Double(end)]
    case OpUseResource(res, amount) => [Payload(enc.utf8(res)), Word(amount)]
    case OpTransferToken(token, amount, sender, to) =>
      [Payload(enc.utf8(token)), Word(amount), Payload(enc.utf8(OrEmpty(sender))), Payload(enc.utf8(to))]
    case OpSubmitJob(params) => [Payload(enc.cbor(params)), Buffer(0, JOB_ID_BUFFER_SIZE)]
  }

  function CallOf(enc: Encoding, op: Opcode): HostCall {
    HostCall(HostFn(op), Operands(enc, op))
  }

  function CallsOf(enc: Encoding, ops: seq<Opcode>): seq<HostCall> {
    if ops == [] then [] else [CallOf(enc, ops[0])] + CallsOf(enc, ops[1..])
  }

  // ----- the layout of a program -----

  // Length and cursor are cast through 32-bit integers; only a positive length is stored.
  function PushBytes(l: Layout, bytes: Bytes): Layout {
    var len := |bytes| % U32;
    var stored :=
      if 0 < len <= I32_MAX
      then l.(data := l.data + [Segment(l.next, bytes)], next := (l.next + len) % U32)
      else l;
    stored.(body := l.body + [I32Const(l.next), I32Const(len)])
  }

  function PushOperand(l: Layout, o: Operand): Layout {
    match o
    case Payload(bytes) => PushBytes(l, bytes)
    case Buffer(ptr, len) => l.(body := l.body + [I32Const(ptr), I32Const(len)])
    case Word(value) => l.(body := l.body + [I64Const(value)])
    case Double(d) => l.(body := l.body + [F64Const(d)])
  }

  function PushOperands(l: Layout, os: seq<Operand>): Layout
    decreases os
  {
    if os == [] then l else PushOperands(PushOperand(l, os[0]), os[1..])
  }

  // The call, and for a job submission the store of its result.
  function Trigger(op: Opcode): seq<Instr> {
    [Call(HostFn(op))] + if op.OpSubmitJob? then [LocalSet] else []
  }

  function EmitOp(enc: Encoding, l: Layout, op: Opcode): Layout {
    var pushed := PushOperands(l, Operands(enc, op));
    pushed.(body := pushed.body + Trigger(op))
  }

  function EmitOps(enc: Encoding, l: Layout, ops: seq<Opcode>): Layout
    decreases ops
  {
    if ops == [] then l else EmitOps(enc, EmitOp(enc, l, ops[0]), ops[1..])
  }

  function JobIdBuffer(): Segment {
    Segment(0, seq(JOB_ID_BUFFER_SIZE, _ => 0))
  }

  function Prologue(): Layout {
    Layout([I32Const(0), LocalSet], [JobIdBuffer()], JOB_ID_BUFFER_SIZE)
  }

  function WasmOf(enc: Encoding, ops: seq<Opcode>): Layout {
    var l := EmitOps(enc, Prologue(), ops);
    l.(body := l.body + [LocalGet, End])
  }

  lemma PushOne(l: Layout, a: Operand)
    ensures PushOperands(l, [a]) == PushOperand(l, a)
  {
    assert [a][1..] == [];
  }

  lemma PushTwo(l: Layout, a: Operand, b: Operand)
    ensures PushOperands(l, [a, b]) == PushOperand(PushOperand(l, a), b)
  {
    var after := PushOperand(l, a);
    assert PushOperands(l, [a, b]) == PushOperands(after, [a, b][1..]);
    assert [a, b][1..] == [b] && [b][1..] == [];
  }

  lemma PushFour(l: Layout, a: Operand, b: Operand, c: Operand, d: Operand)
    ensures PushOperands(l, [a, b, c, d]) == PushOperand(PushOperand(PushOperand(PushOperand(l, a), b), c), d)
  {
    assert [a, b, c, d][1..] == [b, c, d];
    assert [b, c, d][1..] == [c, d];
    PushTwo(PushOperand(PushOperand(l, a), b), c, d);
  }

  // ----- the emitter -----

  class Emitter {
    const enc: Encoding
    var body: seq<Instr>
    var data: seq<Segment>
    var nextDataOffset: nat

    ghost function View(): Layout
      reads this
    {
      Layout(body, data, nextDataOffset)
    }

    constructor (enc: Encoding)
      ensures this.enc == enc
      ensures View() == Prologue()
    {
      this.enc := enc;
      body := [I32Const(0), LocalSet];
      data := [JobIdBuffer()];
      nextDataOffset := JOB_ID_BUFFER_SIZE;
    }

    method Emit(instr: Instr)
      modifies this`body
      ensures body == old(body) + [instr]
    {
      body := body + [instr];
    }

    // Shared by strings and serialized jobs: store the bytes, advance, push pointer and length.
    method EncodePushBytes(bytes: Bytes)
      modifies this
      ensures View() == PushBytes(old(View()), bytes)
    {
      var len := |bytes| % U32;
      var ptr := nextDataOffset;
      if 0 < len <= I32_MAX {
        data := data + [Segment(ptr, bytes)];
        nextDataOffset := (nextDataOffset + len) % U32;
      }
      body := body + [I32Const(ptr), I32Const(len)];
    }

    method EncodePushString(s: string)
      modifies this
      ensures View() == PushBytes(old(View()), enc.utf8(s))
    {
      EncodePushBytes(enc.utf8(s));
    }

    method CallWithString(s: string, fn: nat)
      modifies this
      ensures var l := PushOperands(old(View()), [Payload(enc.utf8(s))]);
              View() == l.(body := l.body + [Call(fn)])
    {
      PushOne(View(), Payload(enc.utf8(s)));
      EncodePushString(s);
      Emit(Call(fn));
    }

    method CallWithStrings(s: string, s': string, fn: nat)
      modifies this
      ensures var l := PushOperands(old(View()), [Payload(enc.utf8(s)), Payload(enc.utf8(s'))]);
              View() == l.(body := l.body + [Call(fn)])
    {
      PushTwo(View(), Payload(enc.utf8(s)), Payload(enc.utf8(s')));
      EncodePushString(s);
      EncodePushString(s');
      Emit(Call(fn));
    }

    method EmitOpcode(op: Opcode)
      modifies this
      ensures View() == EmitOp(enc, old(View()), op)
    {
      match op {
        case OpBeginSection(kind, heading) => CallWithStrings(kind, OrEmpty(heading), 0);
        case OpEndSection => Emit(Call(1));
        case OpCreateProposal(title, version) => CallWithStrings(title, OrVersion(version), 2);
        case OpMintToken(res, amount, to, more) => EmitMintToken(res, amount, to, more);
        case OpAnchorData(path, ref) => CallWithStrings(OrEmpty(path), ref, 4);
        case OpCallHost(name, payload) => CallWithStrings(name, payload, 5);
        case OpIf(condition) => CallWithString(condition, 6);
        case OpElse => Emit(Call(7));
        case OpEndIf => Emit(Call(8));
        case OpSetProperty(key, json) => CallWithStrings(key, json, 9);
        case OpTodo(message) => CallWithString(message, 10);
        case OpOnEvent(event) => CallWithString(event, 11);
        case OpRangeCheck(start, end) => EmitRangeCheck(start, end);
        case OpUseResource(res, amount) => EmitUseResource(res, amount);
        case OpTransferToken(token, amount, sender, to) => EmitTransferToken(token, amount, sender, to);
        case OpSubmitJob(params) => EmitSubmitJob(params);
      }
    }

    method EmitRangeCheck(start: Float, end: Float)
      modifies this
      ensures View() == EmitOp(enc, old(View()), OpRangeCheck(start, end))
    {
      PushTwo(View(), Double(start), Double(end));
      Emit(F64Const(start));
      Emit(F64Const(end));
      Emit(Call(13));
    }

    method EmitUseResource(res: string, amount: nat)
      modifies this
      ensures View() == EmitOp(enc, old(View()), OpUseResource(res, amount))
    {
      PushTwo(View(), Payload(enc.utf8(res)), Word(amount));
      EncodePushString(res);
      Emit(I64Const(amount));
      Emit(Call(14));
    }

    method EmitMintToken(res: string, amount: nat, to: Option<string>, more: Option<string>)
      modifies this
      ensures View() == EmitOp(enc, old(View()), OpMintToken(res, amount, to, more))
    {
      ghost var l := View();
      EncodePushString(res);
      Emit(I64Const(amount));
      EncodePushString(OrEmpty(to));
      EncodePushString(OrEmpty(more));
      PushFour(l, Payload(enc.utf8(res)), Word(amount), Payload(enc.utf8(OrEmpty(to))), Payload(enc.utf8(OrEmpty(more))));
      Emit(Call(3));
    }

    method EmitTransferToken(token: string, amount: nat, sender: Option<string>, to: string)
      modifies this
      ensures View() == EmitOp(enc, old(View()), OpTransferToken(token, amount, sender, to))
    {
      ghost var l := View();
      EncodePushString(token);
      Emit(I64Const(amount));
      EncodePushString(OrEmpty(sender));
      EncodePushString(to);
      PushFour(l, Payload(enc.utf8(token)), Word(amount), Payload(enc.utf8(OrEmpty(sender))), Payload(enc.utf8(to)));
      Emit(Call(15));
    }

    method EmitSubmitJob(params: JobParams)
      modifies this
      ensures View() == EmitOp(enc, old(View()), OpSubmitJob(params))
    {
      ghost var l := View();
      EncodePushBytes(enc.cbor(params));
      Emit(I32Const(0));
      Emit(I32Const(JOB_ID_BUFFER_SIZE));
      PushTwo(l, Payload(enc.cbor(params)), Buffer(0, JOB_ID_BUFFER_SIZE));
      Emit(Call(16));
      Emit(LocalSet);
    }
  }

  method ProgramToWasm(enc: Encoding, ops: seq<Opcode>) returns (wasm: Layout)
    ensures wasm == WasmOf(enc, ops)
  {
    var e := new Emitter(enc);
    var i := 0;
    while i < |ops|
      invariant i <= |ops|
      invariant e.enc == enc
      invariant EmitOps(enc, e.View(), ops[i..]) == EmitOps(enc, Prologue(), ops)
    {
      assert ops[i..][1..] == ops[i + 1..];
      e.EmitOpcode(ops[i]);
      i := i + 1;
    }
    e.Emit(LocalGet);
    e.Emit(End);
    wasm := Layout(e.body, e.data, e.nextDataOffset);
  }
}
