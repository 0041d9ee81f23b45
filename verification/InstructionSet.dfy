/** How the CPU reads instructions (simulatron-vm, cpu.rs): register references, opcodes and the
    operands fetched after each opcode. */
module InstructionSet {
  import opened Bytes
  import opened Wrappers

  datatype RegisterType = ByteReg | HalfReg | WordReg | FloatReg

  /** The bytes a value of the type takes up. */
  function SizeOf(t: RegisterType): nat {
    match t
    case ByteReg => 1
    case HalfReg => 2
    case WordReg => 4
    case FloatReg => 4
  }

  function RegRefType(r: Byte): Option<RegisterType> {
    if r < 0x08 then Some(WordReg)
    else if r < 0x10 then Some(HalfReg)
    else if r < 0x18 then Some(ByteReg)
    else if r < 0x20 then Some(FloatReg)
    else if r == 0x20 then Some(HalfReg)
    else if r < 0x24 then Some(WordReg)
    else if r == 0x24 then Some(HalfReg)
    else if r == 0x25 then Some(WordReg)
    else None
  }

  /** What the CPU demands of a fetched register reference. */
  datatype RegisterClass =
    | AnyRegister
    | NotFloat        // reject_float!
    | OfType(t: RegisterType)  // try_tv_into_v!
    | SameAsFirst     // check_same_type!
    | WordOrFloat
    | WordFloatOpposite

  /** One operand fetch. */
  datatype Fetch =
    | FetchRegister(class_: RegisterClass)
    | FetchByte
    | FetchWord
    | FetchSized  // as wide as the first register

  datatype Handler = Handler(name: string, fetches: seq<Fetch>)

  function Address(isRegister: bool): Fetch {
    if isRegister then FetchRegister(OfType(WordReg)) else FetchWord
  }

  function ByteOperand(isRegister: bool): Fetch {
    if isRegister then FetchRegister(OfType(ByteReg)) else FetchByte
  }

  function Source(isRegister: bool): Fetch {
    if isRegister then FetchRegister(SameAsFirst) else FetchSized
  }

  function Jump(name: string, opcode: Byte): Handler {
    Handler(name, [Address(opcode % 2 == 1)])
  }

  function Arithmetic(name: string, isRegister: bool): Handler {
    Handler(name, [FetchRegister(AnyRegister), Source(isRegister)])
  }

  function Integer(name: string, isRegister: bool): Handler {
    Handler(name, [FetchRegister(NotFloat), Source(isRegister)])
  }

  function Shift(name: string, isRegister: bool): Handler {
    Handler(name, [FetchRegister(NotFloat), ByteOperand(isRegister)])
  }

  /** Three operands, chosen by the low three bits of the opcode's distance from the first variant. */
  function Block(name: string, variant: nat, last: bool -> Fetch): Handler {
    Handler(name, [Address(Bit(variant, 4)), Address(Bit(variant, 2)), last(Bit(variant, 1))])
  }

  /** The opcode match of the fetch-decode-execute cycle. */
  function HandlerOf(opcode: Byte): Option<Handler> {
    if opcode <= 0x0F then DataHandler(opcode)
    else if opcode <= 0x1F then
      if opcode <= 0x17 then Some(Block("blockcopy", opcode - 0x10, Address))
      else Some(Block("blockset", opcode - 0x18, ByteOperand))
    else if opcode <= 0x33 then ArithmeticHandler(opcode)
    else if opcode <= 0x47 then BitwiseHandler(opcode)
    else BranchHandler(opcode)
  }

  function DataHandler(opcode: Byte): Option<Handler> {
    if opcode == 0x00 then Some(Handler("halt", []))
    else if opcode == 0x01 then Some(Handler("pause", []))
    else if opcode <= 0x03 then Some(Handler("timer", [Address(opcode == 0x03)]))
    else if opcode == 0x04 then Some(Handler("usermode", []))
    else if opcode == 0x05 then Some(Handler("ireturn", []))
    else if opcode <= 0x07 then Some(Handler("load", [FetchRegister(AnyRegister), Address(opcode == 0x07)]))
    else if opcode <= 0x09 then Some(Handler("store", [Address(opcode == 0x09), FetchRegister(AnyRegister)]))
    else if opcode <= 0x0B then Some(Arithmetic("copy", opcode == 0x0B))
    else if opcode <= 0x0D then Some(Handler("swap", [FetchRegister(AnyRegister), Address(opcode == 0x0D)]))
    else if opcode == 0x0E then Some(Handler("push", [FetchRegister(AnyRegister)]))
    else if opcode == 0x0F then Some(Handler("pop", [FetchRegister(AnyRegister)]))
    else None
  }

  function ArithmeticHandler(opcode: Byte): Option<Handler> {
    if opcode == 0x20 then Some(Handler("negate", [FetchRegister(AnyRegister)]))
    else if opcode == 0x33 then Some(Handler("not", [FetchRegister(NotFloat)]))
    else if opcode <= 0x22 then Some(Arithmetic("add", opcode == 0x22))
    else if opcode <= 0x24 then Some(Integer("addcarry", opcode == 0x24))
    else if opcode <= 0x26 then Some(Arithmetic("sub", opcode == 0x26))
    else if opcode <= 0x28 then Some(Integer("subborrow", opcode == 0x28))
    else if opcode <= 0x2A then Some(Arithmetic("mult", opcode == 0x2A))
    else if opcode <= 0x2C then Some(Arithmetic("sdiv", opcode == 0x2C))
    else if opcode <= 0x2E then Some(Integer("udiv", opcode == 0x2E))
    else if opcode <= 0x30 then Some(Arithmetic("srem", opcode == 0x30))
    else if opcode <= 0x32 then Some(Integer("urem", opcode == 0x32))
    else None
  }

  function BitwiseHandler(opcode: Byte): Option<Handler> {
    if opcode <= 0x35 then Some(Integer("and", opcode == 0x35))
    else if opcode <= 0x37 then Some(Integer("or", opcode == 0x37))
    else if opcode <= 0x39 then Some(Integer("xor", opcode == 0x39))
    else if opcode <= 0x3B then Some(Shift("lshift", opcode == 0x3B))
    else if opcode <= 0x3D then Some(Shift("srshift", opcode == 0x3D))
    else if opcode <= 0x3F then Some(Shift("urshift", opcode == 0x3F))
    else if opcode <= 0x41 then Some(Shift("lrot", opcode == 0x41))
    else if opcode <= 0x43 then Some(Shift("rrot", opcode == 0x43))
    else if opcode <= 0x45 then Some(Shift("lrotcarry", opcode == 0x45))
    else if opcode <= 0x47 then Some(Shift("rrotcarry", opcode == 0x47))
    else None
  }

  function BranchHandler(opcode: Byte): Option<Handler> {
    if opcode <= 0x49 then Some(Jump("jump", opcode))
    else if opcode <= 0x4B then Some(Arithmetic("compare", opcode == 0x4B))
    else if opcode <= 0x53 then if opcode < 0x4C then None else Some(Block("blockcmp", opcode - 0x4C, Address))
    else if opcode <= 0x55 then Some(Jump("jequal", opcode))
    else if opcode <= 0x57 then Some(Jump("jnotequal", opcode))
    else if opcode <= 0x59 then Some(Jump("sjgreater", opcode))
    else if opcode <= 0x5B then Some(Jump("sjgreatereq", opcode))
    else if opcode <= 0x5D then Some(Jump("ujgreater", opcode))
    else if opcode <= 0x5F then Some(Jump("ujgreatereq", opcode))
    else if opcode <= 0x61 then Some(Jump("sjlesser", opcode))
    else if opcode <= 0x63 then Some(Jump("sjlessereq", opcode))
    else if opcode <= 0x65 then Some(Jump("ujlesser", opcode))
    else if opcode <= 0x67 then Some(Jump("ujlessereq", opcode))
    else if opcode <= 0x69 then Some(Jump("call", opcode))
    else if opcode == 0x6A then Some(Handler("return", []))
    else if opcode == 0x6B then Some(Handler("syscall", []))
    else if opcode == 0x6C then Some(Handler("sconvert", [FetchRegister(WordOrFloat), FetchRegister(WordFloatOpposite)]))
    else if opcode == 0x6D then Some(Handler("uconvert", [FetchRegister(WordOrFloat), FetchRegister(WordFloatOpposite)]))
    else None
  }

  // ----- Decoding -----

  datatype Operand = Register(r: Byte) | Immediate(bytes: seq<Byte>)

  datatype Instruction = Instruction(name: string, operands: seq<Operand>)

  /** The type of the first operand, if it is a register. */
  function FirstType(operands: seq<Operand>): Option<RegisterType> {
    if operands != [] && operands[0].Register? then RegRefType(operands[0].r) else None
  }

  predicate ClassAccepts(class_: RegisterClass, t: RegisterType, first: Option<RegisterType>) {
    match class_
    case AnyRegister => true
    case NotFloat => t != FloatReg
    case OfType(wanted) => t == wanted
    case SameAsFirst => first == Some(t)
    case WordOrFloat => t == WordReg || t == FloatReg
    case WordFloatOpposite => (first == Some(WordReg) && t == FloatReg) || (first == Some(FloatReg) && t == WordReg)
  }

  /** Which registers each class takes. */
  lemma ClassesTake(t: RegisterType, wanted: RegisterType, first: Option<RegisterType>)
    ensures ClassAccepts(AnyRegister, t, first)
    ensures ClassAccepts(NotFloat, t, first) <==> t in {ByteReg, HalfReg, WordReg}
    ensures ClassAccepts(OfType(wanted), t, first) <==> t == wanted
    ensures ClassAccepts(SameAsFirst, t, first) <==> first.Some? && t == first.value
    ensures ClassAccepts(WordOrFloat, t, first) <==> t in {WordReg, FloatReg}
    ensures ClassAccepts(WordFloatOpposite, t, first) <==> first.Some? && {first.value, t} == {WordReg, FloatReg}
  {}

  /** The operand satisfies the fetch, given the operands before it. */
  predicate Accepts(fetch: Fetch, operand: Operand, before: seq<Operand>) {
    match fetch
    case FetchRegister(class_) =>
      operand.Register? && RegRefType(operand.r).Some?
      && ClassAccepts(class_, RegRefType(operand.r).value, FirstType(before))
    case FetchByte => operand.Immediate? && |operand.bytes| == 1
    case FetchWord => operand.Immediate? && |operand.bytes| == 4
    case FetchSized =>
      operand.Immediate? && FirstType(before).Some? && |operand.bytes| == SizeOf(FirstType(before).value)
  }

  /** How many bytes a fetch takes. */
  function Width(fetch: Fetch, before: seq<Operand>): Option<nat> {
    match fetch
    case FetchRegister(_) => Some(1)
    case FetchByte => Some(1)
    case FetchWord => Some(4)
    case FetchSized => if FirstType(before).Some? then Some(SizeOf(FirstType(before).value)) else None
  }

  datatype Fetched = Fetched(operand: Operand, next: nat)

  /** Fetch one operand; None is an illegal operation. */
  function FetchOperand(code: seq<Byte>, p: nat, fetch: Fetch, before: seq<Operand>): Option<Fetched> {
    var width := Width(fetch, before);
    if width.None? || p + width.value > |code| then None
    else
      var operand := if fetch.FetchRegister? then Register(code[p]) else Immediate(code[p..p + width.value]);
      if Accepts(fetch, operand, before) then Some(Fetched(operand, p + width.value)) else None
  }

  datatype Decoded = Decoded(operands: seq<Operand>, next: nat)

  /** Fetch the operands from number `|before|` on. */
  function FetchOperands(code: seq<Byte>, p: nat, fetches: seq<Fetch>, before: seq<Operand>): (d: Option<Decoded>)
    requires |before| <= |fetches|
    ensures d.Some? && p <= |code| ==> p <= d.value.next <= |code|
    decreases |fetches| - |before|
  {
    if |before| == |fetches| then Some(Decoded(before, p))
    else
      var fetched := FetchOperand(code, p, fetches[|before|], before);
      if fetched.None? then None
      else FetchOperands(code, fetched.value.next, fetches, before + [fetched.value.operand])
  }

  datatype Step = Step(instruction: Instruction, next: nat)

  /** The instruction at `p` and where the next one begins. */
  function DecodeAt(code: seq<Byte>, p: nat): (step: Option<Step>)
    ensures step.Some? ==> p < step.value.next <= |code|
  {
    if p >= |code| || HandlerOf(code[p]).None? then None
    else
      var handler := HandlerOf(code[p]).value;
      var decoded := FetchOperands(code, p + 1, handler.fetches, []);
      if decoded.None? then None
      else
        assert p + 1 <= decoded.value.next <= |code|;
        Some(Step(Instruction(handler.name, decoded.value.operands), decoded.value.next))
  }

  /** Decode from `p` to the end of the code. */
  function DecodeAll(code: seq<Byte>, p: nat): Option<seq<Instruction>>
    requires p <= |code|
    decreases |code| - p
  {
    if p == |code| then Some([])
    else
      var step := DecodeAt(code, p);
      if step.None? then None
      else
        var rest := DecodeAll(code, step.value.next);
        if rest.None? then None else Some([step.value.instruction] + rest.value)
  }

  /** `p` is where some instruction begins, or the end of the code, when decoding from `from`. */
  predicate IsBoundary(code: seq<Byte>, from: nat, p: nat)
    requires from <= |code|
    decreases |code| - from
  {
    from == p || (DecodeAt(code, from).Some? && IsBoundary(code, DecodeAt(code, from).value.next, p))
  }

  // ----- Encoded operands decode to themselves -----

  function OperandBytes(operand: Operand): seq<Byte> {
    match operand
    case Register(r) => [r]
    case Immediate(bytes) => bytes
  }

  /** The bytes of the operands from number `n` on. */
  function OperandsBytes(operands: seq<Operand>, n: nat): seq<Byte>
    requires n <= |operands|
    decreases |operands| - n
  {
    if n == |operands| then [] else OperandBytes(operands[n]) + OperandsBytes(operands, n + 1)
  }

  ghost predicate AllAccepted(fetches: seq<Fetch>, operands: seq<Operand>) {
    && |operands| == |fetches|
    && forall k {:trigger AcceptedAt(fetches, operands, k)} :: 0 <= k < |fetches| ==> AcceptedAt(fetches, operands, k)
  }

  ghost predicate AcceptedAt(fetches: seq<Fetch>, operands: seq<Operand>, k: nat)
    requires k < |fetches| && k < |operands|
  {
    Accepts(fetches[k], operands[k], operands[..k])
  }

  lemma FetchBack(code: seq<Byte>, p: nat, fetch: Fetch, operand: Operand, before: seq<Operand>)
    requires Accepts(fetch, operand, before) && p <= |code| && OperandBytes(operand) <= code[p..]
    ensures FetchOperand(code, p, fetch, before) == Some(Fetched(operand, p + |OperandBytes(operand)|))
  {
    var bytes := OperandBytes(operand);
    assert Width(fetch, before) == Some(|bytes|);
    assert bytes == code[p..][..|bytes|] == code[p..p + |bytes|];
    assert fetch.FetchRegister? ==> code[p] == bytes[0];
  }

  lemma {:induction false} FetchAllBack(code: seq<Byte>, p: nat, fetches: seq<Fetch>, operands: seq<Operand>, n: nat)
    requires AllAccepted(fetches, operands) && n <= |operands|
    requires p <= |code| && OperandsBytes(operands, n) <= code[p..]
    ensures FetchOperands(code, p, fetches, operands[..n])
         == Some(Decoded(operands, p + |OperandsBytes(operands, n)|))
    decreases |operands| - n
  {
    hide Accepts, FetchOperand, OperandBytes;
    if n == |operands| {
      assert operands[..n] == operands;
    } else {
      assert AcceptedAt(fetches, operands, n);
      var bytes := OperandBytes(operands[n]);
      SplitPrefix(code[p..], bytes, OperandsBytes(operands, n + 1));
      FetchBack(code, p, fetches[n], operands[n], operands[..n]);
      FetchStep(code, p, fetches, operands[..n], operands[n], p + |bytes|);
      assert operands[..n] + [operands[n]] == operands[..n + 1];
      assert code[p + |bytes|..] == code[p..][|bytes|..];
      FetchAllBack(code, p + |bytes|, fetches, operands, n + 1);
    }
  }

  lemma FetchStep(code: seq<Byte>, p: nat, fetches: seq<Fetch>, before: seq<Operand>, operand: Operand, next: nat)
    requires |before| < |fetches|
    requires FetchOperand(code, p, fetches[|before|], before) == Some(Fetched(operand, next))
    ensures FetchOperands(code, p, fetches, before) == FetchOperands(code, next, fetches, before + [operand])
  {}

  lemma SplitPrefix(code: seq<Byte>, first: seq<Byte>, rest: seq<Byte>)
    requires first + rest <= code
    ensures first <= code && rest <= code[|first|..]
  {
    assert first == (first + rest)[..|first|] == code[..|first|];
    assert rest == (first + rest)[|first|..];
  }

  /** An opcode followed by operands its handler accepts decodes to exactly those operands. */
  lemma DecodeBack(code: seq<Byte>, p: nat, opcode: Byte, operands: seq<Operand>)
    requires HandlerOf(opcode).Some? && AllAccepted(HandlerOf(opcode).value.fetches, operands)
    requires p <= |code| && [opcode] + OperandsBytes(operands, 0) <= code[p..]
    ensures DecodeAt(code, p)
         == Some(Step(Instruction(HandlerOf(opcode).value.name, operands), p + 1 + |OperandsBytes(operands, 0)|))
  {
    assert code[p] == code[p..][0] == opcode;
    assert OperandsBytes(operands, 0) == ([opcode] + OperandsBytes(operands, 0))[1..];
    assert code[p + 1..] == code[p..][1..];
    FetchAllBack(code, p + 1, HandlerOf(opcode).value.fetches, operands, 0);
    assert operands[..0] == [];
  }

  // ----- An instruction is decoded from its own bytes -----

  lemma OperandWithin(code: seq<Byte>, low: nat, high: nat, p: nat, fetch: Fetch, before: seq<Operand>)
    requires low <= p && FetchOperand(code, p, fetch, before).Some? && FetchOperand(code, p, fetch, before).value.next <= high <= |code|
    requires p < FetchOperand(code, p, fetch, before).value.next
    ensures FetchOperand(code[low..high], p - low, fetch, before)
         == Some(Fetched(FetchOperand(code, p, fetch, before).value.operand, FetchOperand(code, p, fetch, before).value.next - low))
  {
    hide Accepts;
    var next := FetchOperand(code, p, fetch, before).value.next;
    var part := code[low..high];
    forall k | 0 <= k < next - p ensures part[p - low..next - low][k] == code[p..next][k] {
      assert part[p - low + k] == code[p + k];
    }
    assert part[p - low..next - low] == code[p..next];
    assert code[low..high][p - low] == code[p];
  }

  lemma FetchedGrows(code: seq<Byte>, p: nat, fetch: Fetch, before: seq<Operand>)
    requires FetchOperand(code, p, fetch, before).Some?
    ensures p < FetchOperand(code, p, fetch, before).value.next <= |code|
  {
    hide Accepts;
  }

  lemma {:induction false} OperandsWithin(code: seq<Byte>, low: nat, high: nat, p: nat, fetches: seq<Fetch>, before: seq<Operand>)
    requires |before| <= |fetches| && low <= p <= |code| && FetchOperands(code, p, fetches, before).Some?
    requires FetchOperands(code, p, fetches, before).value.next <= high <= |code|
    ensures p <= high
    ensures FetchOperands(code[low..high], p - low, fetches, before)
         == Some(Decoded(FetchOperands(code, p, fetches, before).value.operands, FetchOperands(code, p, fetches, before).value.next - low))
    decreases |fetches| - |before|
  {
    hide FetchOperand;
    if |before| < |fetches| {
      var fetched := FetchOperand(code, p, fetches[|before|], before).value;
      FetchedGrows(code, p, fetches[|before|], before);
      OperandsWithin(code, low, high, fetched.next, fetches, before + [fetched.operand]);
      OperandWithin(code, low, high, p, fetches[|before|], before);
    }
  }

  /** Decoding depends only on the bytes from the opcode to the last operand. */
  lemma DecodeWithin(code: seq<Byte>, low: nat, high: nat, p: nat)
    requires low <= p && DecodeAt(code, p).Some? && DecodeAt(code, p).value.next <= high <= |code|
    ensures DecodeAt(code[low..high], p - low) == Some(Step(DecodeAt(code, p).value.instruction, DecodeAt(code, p).value.next - low))
  {
    hide HandlerOf, FetchOperands;
    OperandsWithin(code, low, high, p + 1, HandlerOf(code[p]).value.fetches, []);
    assert code[low..high][p - low] == code[p];
  }
}
