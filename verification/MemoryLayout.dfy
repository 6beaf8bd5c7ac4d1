// What the emitted module leaves in linear memory, and what the host reads back from it.
module MemoryLayout {
  import opened Wrappers
  import opened CclAst
  import opened Emit

  // ----- instantiation: active segments applied in order, all or nothing -----

  function Zeros(n: nat): Bytes {
    seq(n, _ => 0)
  }

  function Write(memory: Bytes, s: Segment): Bytes
    requires s.Limit() <= |memory|
  {
    memory[..s.offset] + s.data + memory[s.Limit()..]
  }

  function ApplySegments(memory: Bytes, data: seq<Segment>): Option<Bytes>
    decreases data
  {
    if data == [] then Some(memory)
    else if data[0].Limit() > |memory| then None
    else ApplySegments(Write(memory, data[0]), data[1..])
  }

  // One 64 KiB page, as the module declares it.
  function Instantiate(wasm: Layout): Option<Bytes> {
    ApplySegments(Zeros(PAGE), wasm.data)
  }

  // ----- sizes -----

  function OperandSize(o: Operand): nat {
    if o.Payload? then |o.bytes| else 0
  }

  function OperandsSize(os: seq<Operand>): nat {
    if os == [] then 0 else OperandSize(os[0]) + OperandsSize(os[1..])
  }

  function ProgramSize(enc: Encoding, ops: seq<Opcode>): nat {
    if ops == [] then 0 else OperandsSize(Operands(enc, ops[0])) + ProgramSize(enc, ops[1..])
  }

  // The bytes actually stored: an item whose length does not survive the cast to a positive
  // i32 gets no segment.
  function OperandStored(o: Operand): nat {
    if 0 < OperandSize(o) % U32 <= I32_MAX then OperandSize(o) else 0
  }

  function OperandsStored(os: seq<Operand>): nat {
    if os == [] then 0 else OperandStored(os[0]) + OperandsStored(os[1..])
  }

  function StoredSize(enc: Encoding, ops: seq<Opcode>): nat {
    if ops == [] then 0 else OperandsStored(Operands(enc, ops[0])) + StoredSize(enc, ops[1..])
  }

  predicate ShortOperands(os: seq<Operand>) {
    forall o | o in os :: OperandSize(o) <= PAGE
  }

  predicate ShortItems(enc: Encoding, ops: seq<Opcode>) {
    forall op | op in ops :: ShortOperands(Operands(enc, op))
  }

  lemma {:induction false} ShortOperandsStored(os: seq<Operand>)
    ensures OperandsSize(os) <= PAGE ==> ShortOperands(os)
    ensures ShortOperands(os) ==> OperandsStored(os) == OperandsSize(os)
    decreases os
  {
    if os != [] {
      ShortOperandsStored(os[1..]);
      assert forall o :: o in os <==> o == os[0] || o in os[1..];
    }
  }

  // A program small enough has only short items, and all its bytes are stored.
  lemma {:induction false} ShortProgramStored(enc: Encoding, ops: seq<Opcode>)
    ensures ProgramSize(enc, ops) <= PAGE ==> ShortItems(enc, ops)
    ensures ShortItems(enc, ops) ==> StoredSize(enc, ops) == ProgramSize(enc, ops)
    decreases ops
  {
    if ops != [] {
      ShortOperandsStored(Operands(enc, ops[0]));
      ShortProgramStored(enc, ops[1..]);
      assert forall op :: op in ops <==> op == ops[0] || op in ops[1..];
    }
  }

  // ----- the shape of the data section -----

  // Segments follow one another without gaps, starting with the job-id buffer.
  predicate Chained(data: seq<Segment>, end: nat) {
    && data != [] && data[0] == JobIdBuffer()
    && (forall i | 0 < i < |data| :: data[i].offset == data[i - 1].Limit())
    && data[|data| - 1].Limit() == end
  }

  predicate Fits(data: seq<Segment>) {
    forall s | s in data :: s.Limit() <= PAGE
  }

  // A layout that has stored `size` bytes: the cursor counts them in 32 bits, the segments
  // are chained while the bits last, and they fit a page exactly as long as the bytes do.
  predicate LaidOut(l: Layout, size: nat) {
    && l.next == (JOB_ID_BUFFER_SIZE + size) % U32
    && (JOB_ID_BUFFER_SIZE + size <= U32 ==> Chained(l.data, JOB_ID_BUFFER_SIZE + size))
    && (Fits(l.data) <==> JOB_ID_BUFFER_SIZE + size <= PAGE)
  }

  lemma CursorAdvances(start: nat, length: nat)
    ensures (start % U32 + length % U32) % U32 == (start + length) % U32
  {
  }

  lemma FitsAppend(data: seq<Segment>, s: Segment)
    ensures Fits(data + [s]) <==> Fits(data) && s.Limit() <= PAGE
  {
    assert (data + [s])[|data|] == s;
    assert forall t :: t in data + [s] <==> t in data || t == s;
  }

  lemma ChainedAppend(data: seq<Segment>, bytes: Bytes, end: nat)
    requires Chained(data, end)
    ensures Chained(data + [Segment(end, bytes)], end + |bytes|)
  {
  }

  lemma PushBytesLaysOut(l: Layout, bytes: Bytes, size: nat)
    requires LaidOut(l, size)
    ensures LaidOut(PushBytes(l, bytes), size + OperandStored(Payload(bytes)))
  {
    var l' := PushBytes(l, bytes);
    if 0 < |bytes| % U32 <= I32_MAX {
      CursorAdvances(JOB_ID_BUFFER_SIZE + size, |bytes|);
      FitsAppend(l.data, Segment(l.next, bytes));
      if JOB_ID_BUFFER_SIZE + size + |bytes| <= U32 {
        ChainedAppend(l.data, bytes, JOB_ID_BUFFER_SIZE + size);
      }
    }
  }

  lemma {:induction false} OperandsLayOut(l: Layout, os: seq<Operand>, size: nat)
    requires LaidOut(l, size)
    ensures LaidOut(PushOperands(l, os), size + OperandsStored(os))
    decreases os
  {
    if os != [] {
      if os[0].Payload? {
        PushBytesLaysOut(l, os[0].bytes, size);
      }
      OperandsLayOut(PushOperand(l, os[0]), os[1..], size + OperandStored(os[0]));
    }
  }

  lemma {:induction false} OpsLayOut(enc: Encoding, l: Layout, ops: seq<Opcode>, size: nat)
    requires LaidOut(l, size)
    ensures LaidOut(EmitOps(enc, l, ops), size + StoredSize(enc, ops))
    decreases ops
  {
    if ops != [] {
      OperandsLayOut(l, Operands(enc, ops[0]), size);
      OpsLayOut(enc, EmitOp(enc, l, ops[0]), ops[1..], size + OperandsStored(Operands(enc, ops[0])));
    }
  }

  lemma WasmLaidOut(enc: Encoding, ops: seq<Opcode>)
    ensures LaidOut(WasmOf(enc, ops), StoredSize(enc, ops))
  {
    assert Fits(Prologue().data);
    OpsLayOut(enc, Prologue(), ops, 0);
  }

  lemma {:induction false} ChainedInOrder(data: seq<Segment>, end: nat, i: nat, j: nat)
    requires Chained(data, end) && i < j < |data|
    ensures data[i].Limit() <= data[j].offset
    decreases j
  {
    if i < j - 1 {
      ChainedInOrder(data, end, i, j - 1);
    }
  }

  lemma ChainedBelowEnd(data: seq<Segment>, end: nat, i: nat)
    requires Chained(data, end) && i < |data|
    ensures data[i].Limit() <= end
  {
    if i < |data| - 1 {
      ChainedInOrder(data, end, i, |data| - 1);
    }
  }

  // The segments lie end to end from the job-id buffer on, inside the 32-bit address space.
  predicate Contiguous(data: seq<Segment>, size: nat) {
    Chained(data, JOB_ID_BUFFER_SIZE + size) && forall s | s in data :: s.Limit() <= U32
  }

  // For every program: the cursor ends at 128 plus everything stored, in 32 bits, and the
  // segments are contiguous exactly when that does not run past 2^32. They are then pairwise
  // disjoint and leave the job-id buffer alone.
  lemma {:induction false} SegmentsContiguous(enc: Encoding, ops: seq<Opcode>)
    ensures var wasm, size := WasmOf(enc, ops), StoredSize(enc, ops);
            && wasm.next == (JOB_ID_BUFFER_SIZE + size) % U32
            && (Contiguous(wasm.data, size) <==> JOB_ID_BUFFER_SIZE + size <= U32)
            && (Contiguous(wasm.data, size) ==>
                  && (forall i, j | 0 <= i < j < |wasm.data| :: wasm.data[i].Limit() <= wasm.data[j].offset)
                  && (forall i | 0 < i < |wasm.data| :: JOB_ID_BUFFER_SIZE <= wasm.data[i].offset))
  {
    WasmLaidOut(enc, ops);
    var wasm, end := WasmOf(enc, ops), JOB_ID_BUFFER_SIZE + StoredSize(enc, ops);
    if Chained(wasm.data, end) {
      ChainedIsOrdered(wasm.data, end);
      assert wasm.data[|wasm.data| - 1] in wasm.data;
    }
  }

  lemma ChainedIsOrdered(data: seq<Segment>, end: nat)
    requires Chained(data, end)
    ensures forall i, j | 0 <= i < j < |data| :: data[i].Limit() <= data[j].offset
    ensures forall i | 0 < i < |data| :: JOB_ID_BUFFER_SIZE <= data[i].offset
    ensures forall s | s in data :: s.Limit() <= end
  {
    forall i, j | 0 <= i < j < |data| ensures data[i].Limit() <= data[j].offset {
      ChainedInOrder(data, end, i, j);
    }
    assert data[0].Limit() == JOB_ID_BUFFER_SIZE;
    forall s | s in data ensures s.Limit() <= end {
      var i :| 0 <= i < |data| && data[i] == s;
      ChainedBelowEnd(data, end, i);
    }
  }

  // ----- which programs instantiate -----

  lemma {:induction false} ApplyIffInBounds(memory: Bytes, data: seq<Segment>)
    ensures ApplySegments(memory, data).Some? <==> forall s | s in data :: s.Limit() <= |memory|
    decreases data
  {
    if data != [] {
      assert data[0] in data;
      assert forall s :: s in data <==> s == data[0] || s in data[1..];
      if data[0].Limit() <= |memory| {
        ApplyIffInBounds(Write(memory, data[0]), data[1..]);
      }
    }
  }

  // One page holds the program exactly when it stores at most 65408 bytes.
  lemma FitsOnePage(enc: Encoding, ops: seq<Opcode>)
    ensures Instantiate(WasmOf(enc, ops)).Some? <==> StoredSize(enc, ops) <= 65408
  {
    WasmLaidOut(enc, ops);
    ApplyIffInBounds(Zeros(PAGE), WasmOf(enc, ops).data);
  }

  // ----- reading back -----

  predicate Holds(memory: Bytes, s: Segment) {
    s.Limit() <= |memory| && memory[s.offset..s.Limit()] == s.data
  }

  // Segments in address order all survive, and nothing below them changes.
  lemma {:induction false} OrderedSegmentsSurvive(memory: Bytes, data: seq<Segment>, floor: nat)
    requires forall s | s in data :: floor <= s.offset && s.Limit() <= |memory|
    requires forall i, j | 0 <= i < j < |data| :: data[i].Limit() <= data[j].offset
    requires floor <= |memory|
    ensures ApplySegments(memory, data).Some?
    ensures var m := ApplySegments(memory, data).value;
            |m| == |memory| && m[..floor] == memory[..floor] && forall s | s in data :: Holds(m, s)
    decreases data
  {
    if data != [] {
      var s := data[0];
      var written := Write(memory, s);
      assert s in data;
      assert written[s.offset..s.Limit()] == s.data;
      assert written[..floor] == memory[..floor];
      forall r | r in data[1..] ensures s.Limit() <= r.offset && r.Limit() <= |written| {
        var j :| 0 <= j < |data[1..]| && data[1..][j] == r;
        assert data[j + 1] == r;
      }
      OrderedSegmentsSurvive(written, data[1..], s.Limit());
      var m := ApplySegments(written, data[1..]).value;
      assert m[s.offset..s.Limit()] == m[..s.Limit()][s.offset..];
      assert written[s.offset..s.Limit()] == written[..s.Limit()][s.offset..];
      assert m[..floor] == m[..s.Limit()][..floor] == written[..s.Limit()][..floor] == written[..floor];
      forall r | r in data ensures Holds(m, r) {
        assert r == s || r in data[1..];
      }
    }
  }

  // How the host interprets the constants pushed before a call.
  datatype Kind = ReadsBytes | FillsBuffer | TakesWord | TakesDouble

  function Signature(fn: nat): seq<Kind> {
    match fn
    case 0 => [ReadsBytes, ReadsBytes]
    case 2 => [ReadsBytes, ReadsBytes]
    case 3 => [ReadsBytes, TakesWord, ReadsBytes, ReadsBytes]
    case 4 => [ReadsBytes, ReadsBytes]
    case 5 => [ReadsBytes, ReadsBytes]
    case 6 => [ReadsBytes]
    case 9 => [ReadsBytes, ReadsBytes]
    case 10 => [ReadsBytes]
    case 11 => [ReadsBytes]
    case 13 => [TakesDouble, TakesDouble]
    case 14 => [ReadsBytes, TakesWord]
    case 15 => [ReadsBytes, TakesWord, ReadsBytes, ReadsBytes]
    case 16 => [ReadsBytes, FillsBuffer]
    case _ => []
  }

  function ReadArgs(memory: Bytes, kinds: seq<Kind>, consts: seq<Instr>): Option<seq<Operand>> {
    if kinds == [] then (if consts == [] then Some([]) else None)
    else
      match kinds[0]
      case TakesWord =>
        if |consts| >= 1 && consts[0].I64Const?
        then Prepend(Word(consts[0].word), ReadArgs(memory, kinds[1..], consts[1..])) else None
      case TakesDouble =>
        if |consts| >= 1 && consts[0].F64Const?
        then Prepend(Double(consts[0].double), ReadArgs(memory, kinds[1..], consts[1..])) else None
      case FillsBuffer =>
        if |consts| >= 2 && consts[0].I32Const? && consts[1].I32Const?
        then Prepend(Buffer(consts[0].bits, consts[1].bits), ReadArgs(memory, kinds[1..], consts[2..])) else None
      case ReadsBytes =>
        if |consts| >= 2 && consts[0].I32Const? && consts[1].I32Const? && consts[0].bits + consts[1].bits <= |memory|
        then Prepend(Payload(memory[consts[0].bits..consts[0].bits + consts[1].bits]), ReadArgs(memory, kinds[1..], consts[2..]))
        else None
  }

  function Prepend(o: Operand, os: Option<seq<Operand>>): Option<seq<Operand>> {
    if os.None? then None else Some([o] + os.value)
  }

  // The host calls made by a function body: constants gather until a call consumes them.
  function Trace(memory: Bytes, body: seq<Instr>, pending: seq<Instr>): Option<seq<HostCall>>
    decreases body
  {
    if body == [] then Some([])
    else
      match body[0]
      case Call(fn) =>
        (match (ReadArgs(memory, Signature(fn), pending), Trace(memory, body[1..], []))
         case (Some(args), Some(calls)) => Some([HostCall(fn, args)] + calls)
         case _ => None)
      case LocalSet => Trace(memory, body[1..], [])
      case LocalGet => Trace(memory, body[1..], pending)
      case End => Trace(memory, body[1..], pending)
      case _ => Trace(memory, body[1..], pending + [body[0]])
  }

  predicate Constants(code: seq<Instr>) {
    forall i | i in code :: i.I32Const? || i.I64Const? || i.F64Const?
  }

  lemma {:induction false} TraceConstants(memory: Bytes, code: seq<Instr>, rest: seq<Instr>, pending: seq<Instr>)
    requires Constants(code)
    ensures Trace(memory, code + rest, pending) == Trace(memory, rest, pending + code)
    decreases code
  {
    if code == [] {
      assert code + rest == rest && pending + code == pending;
    } else {
      assert code[0] in code;
      TraceConstants(memory, code[1..], rest, pending + [code[0]]);
      assert (code + rest)[1..] == code[1..] + rest;
      assert pending + [code[0]] + code[1..] == pending + code;
    }
  }

  function KindOf(o: Operand): Kind {
    match o
    case Payload(_) => ReadsBytes
    case Buffer(_, _) => FillsBuffer
    case Word(_) => TakesWord
    case Double(_) => TakesDouble
  }

  function KindsOf(os: seq<Operand>): seq<Kind> {
    if os == [] then [] else [KindOf(os[0])] + KindsOf(os[1..])
  }

  // The constants that pushing operands adds to the body.
  function Constant(l: Layout, o: Operand): seq<Instr> {
    match o
    case Payload(bytes) => [I32Const(l.next), I32Const(|bytes| % U32)]
    case Buffer(ptr, len) => [I32Const(ptr), I32Const(len)]
    case Word(value) => [I64Const(value)]
    case Double(d) => [F64Const(d)]
  }

  function Pushed(l: Layout, os: seq<Operand>): seq<Instr>
    decreases os
  {
    if os == [] then [] else Constant(l, os[0]) + Pushed(PushOperand(l, os[0]), os[1..])
  }

  lemma {:induction false} PushedBody(l: Layout, os: seq<Operand>)
    ensures PushOperands(l, os).body == l.body + Pushed(l, os)
    ensures Constants(Pushed(l, os))
    ensures l.data <= PushOperands(l, os).data
    decreases os
  {
    if os != [] {
      PushedBody(PushOperand(l, os[0]), os[1..]);
    }
  }

  lemma OperandHeld(memory: Bytes, l: Layout, o: Operand)
    requires |memory| < I32_MAX && l.next + OperandSize(o) <= |memory|
    requires forall s | s in PushOperand(l, o).data :: Holds(memory, s)
    ensures PushOperand(l, o).next == l.next + OperandSize(o)
    ensures o.Payload? ==> memory[l.next..l.next + |o.bytes|] == o.bytes
  {
    if o.Payload? && o.bytes != [] {
      assert PushOperand(l, o).data[|l.data|] == Segment(l.next, o.bytes);
      assert Holds(memory, Segment(l.next, o.bytes));
    }
  }

  // Every pushed operand reads back as itself from any memory holding the segments.
  lemma {:induction false} OperandsReadBack(memory: Bytes, l: Layout, os: seq<Operand>)
    requires |memory| < I32_MAX && l.next + OperandsSize(os) <= |memory|
    requires forall s | s in PushOperands(l, os).data :: Holds(memory, s)
    ensures ReadArgs(memory, KindsOf(os), Pushed(l, os)) == Some(os)
    ensures PushOperands(l, os).next == l.next + OperandsSize(os)
    decreases os
  {
    if os != [] {
      var l' := PushOperand(l, os[0]);
      var rest := Pushed(l', os[1..]);
      PushedBody(l', os[1..]);
      OperandHeld(memory, l, os[0]);
      OperandsReadBack(memory, l', os[1..]);
      OperandReadsBack(memory, l, os[0], KindsOf(os[1..]), rest);
      assert [os[0]] + os[1..] == os;
    }
  }

  lemma OperandReadsBack(memory: Bytes, l: Layout, o: Operand, kinds: seq<Kind>, rest: seq<Instr>)
    requires o.Payload? ==>
               |o.bytes| < U32 && l.next + |o.bytes| <= |memory| && memory[l.next..l.next + |o.bytes|] == o.bytes
    ensures ReadArgs(memory, [KindOf(o)] + kinds, Constant(l, o) + rest) == Prepend(o, ReadArgs(memory, kinds, rest))
  {
    assert ([KindOf(o)] + kinds)[1..] == kinds;
    if |Constant(l, o)| == 2 {
      assert (Constant(l, o) + rest)[2..] == rest;
    } else {
      assert (Constant(l, o) + rest)[1..] == rest;
    }
  }

  lemma SignatureMatches(enc: Encoding, op: Opcode)
    ensures Signature(HostFn(op)) == KindsOf(Operands(enc, op))
  {
    var os := Operands(enc, op);
    if |os| == 4 {
      KindsOfPair(os[2], os[3]);
      assert os[1..][1..] == [os[2], os[3]];
      assert os[1..][0] == os[1];
    } else if |os| == 2 {
      KindsOfPair(os[0], os[1]);
    } else if |os| == 1 {
      assert os[1..] == [];
    }
  }

  lemma KindsOfPair(a: Operand, b: Operand)
    ensures KindsOf([a, b]) == [KindOf(a), KindOf(b)]
  {
    assert [a, b][1..] == [b] && [b][1..] == [];
    assert KindsOf([b]) == [KindOf(b)] + KindsOf([]);
  }

  lemma {:induction false} BodyAndDataGrow(enc: Encoding, l: Layout, ops: seq<Opcode>)
    ensures l.body <= EmitOps(enc, l, ops).body
    ensures l.data <= EmitOps(enc, l, ops).data
    decreases ops
  {
    if ops != [] {
      PushedBody(l, Operands(enc, ops[0]));
      BodyAndDataGrow(enc, EmitOp(enc, l, ops[0]), ops[1..]);
    }
  }

  // The code appended by emitting `ops`, followed by anything, makes exactly their calls.
  lemma {:induction false} OpsReadBack(enc: Encoding, memory: Bytes, l: Layout, ops: seq<Opcode>, last: seq<Instr>)
    requires |memory| < I32_MAX && l.next + ProgramSize(enc, ops) <= |memory|
    requires forall s | s in EmitOps(enc, l, ops).data :: Holds(memory, s)
    requires Trace(memory, last, []) == Some([])
    ensures l.body <= EmitOps(enc, l, ops).body
    ensures Trace(memory, EmitOps(enc, l, ops).body[|l.body|..] + last, []) == Some(CallsOf(enc, ops))
    decreases ops
  {
    BodyAndDataGrow(enc, l, ops);
    if ops == [] {
      assert EmitOps(enc, l, ops).body[|l.body|..] + last == last;
    } else {
      var op, l' := ops[0], EmitOp(enc, l, ops[0]);
      var os, consts := Operands(enc, op), Pushed(l, Operands(enc, op));
      PushedBody(l, os);
      BodyAndDataGrow(enc, l', ops[1..]);
      OperandsReadBack(memory, l, os);
      OpsReadBack(enc, memory, l', ops[1..], last);
      var final := EmitOps(enc, l, ops).body;
      SplitBody(final, l.body, consts, Trigger(op), last);
      TraceConstants(memory, consts, Trigger(op) + (final[|l'.body|..] + last), []);
      assert [] + consts == consts;
      TraceTrigger(enc, memory, op, consts, final[|l'.body|..] + last);
    }
  }

  lemma SplitBody(final: seq<Instr>, before: seq<Instr>, consts: seq<Instr>, trigger: seq<Instr>, last: seq<Instr>)
    requires before + consts + trigger <= final
    ensures final[|before|..] + last == consts + (trigger + (final[|before + consts + trigger|..] + last))
  {
    var all := before + consts + trigger;
    assert final == all + final[|all|..];
  }

  lemma TraceTrigger(enc: Encoding, memory: Bytes, op: Opcode, consts: seq<Instr>, tail: seq<Instr>)
    requires ReadArgs(memory, KindsOf(Operands(enc, op)), consts) == Some(Operands(enc, op))
    requires Trace(memory, tail, []).Some?
    ensures Trace(memory, Trigger(op) + tail, consts) == Some([CallOf(enc, op)] + Trace(memory, tail, []).value)
  {
    SignatureMatches(enc, op);
    var code := Trigger(op) + tail;
    if op.OpSubmitJob? {
      assert code[1..] == [LocalSet] + tail;
      assert ([LocalSet] + tail)[1..] == tail;
    } else {
      assert code[1..] == tail;
    }
  }

  lemma SegmentsHeld(enc: Encoding, ops: seq<Opcode>)
    requires StoredSize(enc, ops) <= 65408
    ensures Instantiate(WasmOf(enc, ops)).Some?
    ensures var memory := Instantiate(WasmOf(enc, ops)).value;
            |memory| == PAGE && forall s | s in WasmOf(enc, ops).data :: Holds(memory, s)
  {
    var wasm := WasmOf(enc, ops);
    WasmLaidOut(enc, ops);
    ChainedIsOrdered(wasm.data, JOB_ID_BUFFER_SIZE + StoredSize(enc, ops));
    OrderedSegmentsSurvive(Zeros(PAGE), wasm.data, 0);
  }

  lemma TraceFrame(memory: Bytes, code: seq<Instr>)
    ensures Trace(memory, [I32Const(0), LocalSet] + code, []) == Trace(memory, code, [])
    ensures Trace(memory, [LocalGet, End], []) == Some([])
  {
    var body := [I32Const(0), LocalSet] + code;
    assert body[1..] == [LocalSet] + code;
    assert body[1..][1..] == code;
    assert [LocalGet, End][1..] == [End] && [End][1..] == [];
  }

  lemma TraceOfWasm(enc: Encoding, memory: Bytes, ops: seq<Opcode>)
    requires |memory| == PAGE && ProgramSize(enc, ops) <= 65408
    requires forall s | s in WasmOf(enc, ops).data :: Holds(memory, s)
    ensures Trace(memory, WasmOf(enc, ops).body, []) == Some(CallsOf(enc, ops))
  {
    var l, body, last := Prologue(), EmitOps(enc, Prologue(), ops).body, [LocalGet, End];
    BodyAndDataGrow(enc, l, ops);
    TraceFrame(memory, body[2..] + last);
    OpsReadBack(enc, memory, l, ops, last);
    assert body[..2] == l.body;
    assert WasmOf(enc, ops).body == l.body + (body[2..] + last);
  }

  // ----- only bytes that fit can be read back -----

  predicate Readable(memory: Bytes, o: Operand) {
    OperandSize(o) <= |memory|
  }

  predicate ReadableCall(memory: Bytes, c: HostCall) {
    forall o | o in c.args :: Readable(memory, o)
  }

  lemma {:induction false} ArgsReadable(memory: Bytes, kinds: seq<Kind>, consts: seq<Instr>)
    ensures var args := ReadArgs(memory, kinds, consts);
            args.Some? ==> forall o | o in args.value :: Readable(memory, o)
    decreases kinds
  {
    if kinds != [] {
      if |consts| >= 1 {
        ArgsReadable(memory, kinds[1..], consts[1..]);
      }
      if |consts| >= 2 {
        ArgsReadable(memory, kinds[1..], consts[2..]);
      }
    }
  }

  lemma {:induction false} TraceReadable(memory: Bytes, body: seq<Instr>, pending: seq<Instr>)
    ensures var calls := Trace(memory, body, pending);
            calls.Some? ==> forall c | c in calls.value :: ReadableCall(memory, c)
    decreases body
  {
    if body != [] {
      match body[0] {
        case Call(fn) =>
          ArgsReadable(memory, Signature(fn), pending);
          TraceReadable(memory, body[1..], []);
        case LocalSet =>
          TraceReadable(memory, body[1..], []);
        case LocalGet =>
          TraceReadable(memory, body[1..], pending);
        case End =>
          TraceReadable(memory, body[1..], pending);
        case _ =>
          TraceReadable(memory, body[1..], pending + [body[0]]);
      }
    }
  }

  lemma {:induction false} CallsOfShort(enc: Encoding, memory: Bytes, ops: seq<Opcode>)
    requires |memory| == PAGE && forall c | c in CallsOf(enc, ops) :: ReadableCall(memory, c)
    ensures ShortItems(enc, ops)
    decreases ops
  {
    if ops != [] {
      assert CallsOf(enc, ops)[0] == CallOf(enc, ops[0]);
      assert ReadableCall(memory, CallOf(enc, ops[0]));
      assert forall c | c in CallsOf(enc, ops[1..]) :: c in CallsOf(enc, ops);
      CallsOfShort(enc, memory, ops[1..]);
      assert forall op | op in ops :: op == ops[0] || op in ops[1..];
      forall o | o in Operands(enc, ops[0]) ensures OperandSize(o) <= PAGE {
        assert o in CallOf(enc, ops[0]).args;
        assert Readable(memory, o);
      }
    }
  }

  // The module instantiates and its body makes exactly the program's own host calls, every
  // argument read back intact.
  predicate ReadsAsWritten(enc: Encoding, ops: seq<Opcode>) {
    var wasm := WasmOf(enc, ops);
    Instantiate(wasm).Some? && Trace(Instantiate(wasm).value, wasm.body, []) == Some(CallsOf(enc, ops))
  }

  // The host reads a program as written exactly when its strings and jobs are 65408 bytes or
  // fewer in all, and then finds the job-id buffer still zeroed.
  lemma HostReadsProgram(enc: Encoding, ops: seq<Opcode>)
    ensures ReadsAsWritten(enc, ops) <==> ProgramSize(enc, ops) <= 65408
    ensures ReadsAsWritten(enc, ops) ==>
              var memory := Instantiate(WasmOf(enc, ops)).value;
              |memory| == PAGE && memory[..JOB_ID_BUFFER_SIZE] == Zeros(JOB_ID_BUFFER_SIZE)
  {
    var wasm := WasmOf(enc, ops);
    ShortProgramStored(enc, ops);
    FitsOnePage(enc, ops);
    if Instantiate(wasm).Some? {
      var memory := Instantiate(wasm).value;
      SegmentsHeld(enc, ops);
      WasmLaidOut(enc, ops);
      assert Holds(memory, wasm.data[0]);
      assert memory[..JOB_ID_BUFFER_SIZE] == memory[0..JOB_ID_BUFFER_SIZE];
      if ProgramSize(enc, ops) <= 65408 {
        TraceOfWasm(enc, memory, ops);
      }
      if Trace(memory, wasm.body, []) == Some(CallsOf(enc, ops)) {
        TraceReadable(memory, wasm.body, []);
        CallsOfShort(enc, memory, ops);
      }
    }
  }

  // A module instantiates without being read as written exactly when the bytes it stores fit
  // one page and those it should store do not.
  lemma UnreadableExactly(enc: Encoding, ops: seq<Opcode>)
    ensures Instantiate(WasmOf(enc, ops)).Some? && !ReadsAsWritten(enc, ops)
       <==> StoredSize(enc, ops) <= 65408 < ProgramSize(enc, ops)
  {
    FitsOnePage(enc, ops);
    HostReadsProgram(enc, ops);
  }

  // One message of 2^31 bytes: its length turns negative, nothing is stored, and the host
  // cannot read it.
  lemma HugeMessageUnread(enc: Encoding, message: string)
    requires |enc.utf8(message)| == 0x8000_0000
    ensures Instantiate(WasmOf(enc, [OpTodo(message)])).Some? && !ReadsAsWritten(enc, [OpTodo(message)])
  {
    var ops := [OpTodo(message)];
    var os := Operands(enc, ops[0]);
    assert ops[1..] == [] && os == [Payload(enc.utf8(message))] && os[1..] == [];
    assert OperandsStored(os) == OperandStored(os[0]) + OperandsStored([]) == 0;
    assert OperandsSize(os) == OperandSize(os[0]) + OperandsSize([]) == 0x8000_0000;
    assert StoredSize(enc, ops) == OperandsStored(os) + StoredSize(enc, []) == 0;
    assert ProgramSize(enc, ops) == OperandsSize(os) + ProgramSize(enc, []) == 0x8000_0000;
    UnreadableExactly(enc, ops);
  }
}
