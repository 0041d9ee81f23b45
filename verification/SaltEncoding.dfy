/** What the assembler's addressing modes encode (simulatron-salt, codegen.rs and
    instruction_macros.rs): one table of operand kinds per mode. */
module SaltEncoding {
  import opened Bytes
  import opened Wrappers
  import opened InstructionSet

  datatype Literal = Lit(value: Word, minType: RegisterType) | Sizeof(ident: string)

  /** What names stand for while instructions are generated. */
  datatype Environment = Environment(constants: map<string, Literal>, sizes: map<string, Word>)

  datatype OperandValue = Ident(name: string) | Constant(literal: Literal) | Malformed

  datatype Resolved =
    | RegRef(r: Byte, t: RegisterType)
    | LiteralValue(literal: Literal)
    | SymbolReference(name: string)

  datatype CodegenError =
    | UnrecognisedOpcode
    | WrongOperandCount
    | LiteralNotAllowed
    | SymbolNotAllowed
    | WrongRegister
    | LiteralTooBig
    | OutOfRange
    | UnknownSizeof  // the source unwraps a missing value and panics

  // ----- Registers -----

  function GetRegRef(name: string): (r: Option<(Byte, RegisterType)>)
    ensures r.Some? ==> RegRefType(r.value.0) == Some(r.value.1)
  {
    if name == "r0" then Some((0x00, WordReg))
    else if name == "r1" then Some((0x01, WordReg))
    else if name == "r2" then Some((0x02, WordReg))
    else if name == "r3" then Some((0x03, WordReg))
    else if name == "r4" then Some((0x04, WordReg))
    else if name == "r5" then Some((0x05, WordReg))
    else if name == "r6" then Some((0x06, WordReg))
    else if name == "r7" then Some((0x07, WordReg))
    else if name == "r0h" then Some((0x08, HalfReg))
    else if name == "r1h" then Some((0x09, HalfReg))
    else if name == "r2h" then Some((0x0A, HalfReg))
    else if name == "r3h" then Some((0x0B, HalfReg))
    else if name == "r4h" then Some((0x0C, HalfReg))
    else if name == "r5h" then Some((0x0D, HalfReg))
    else if name == "r6h" then Some((0x0E, HalfReg))
    else if name == "r7h" then Some((0x0F, HalfReg))
    else if name == "r0b" then Some((0x10, ByteReg))
    else if name == "r1b" then Some((0x11, ByteReg))
    else if name == "r2b" then Some((0x12, ByteReg))
    else if name == "r3b" then Some((0x13, ByteReg))
    else if name == "r4b" then Some((0x14, ByteReg))
    else if name == "r5b" then Some((0x15, ByteReg))
    else if name == "r6b" then Some((0x16, ByteReg))
    else if name == "r7b" then Some((0x17, ByteReg))
    else if name == "f0" then Some((0x18, FloatReg))
    else if name == "f1" then Some((0x19, FloatReg))
    else if name == "f2" then Some((0x1A, FloatReg))
    else if name == "f3" then Some((0x1B, FloatReg))
    else if name == "f4" then Some((0x1C, FloatReg))
    else if name == "f5" then Some((0x1D, FloatReg))
    else if name == "f6" then Some((0x1E, FloatReg))
    else if name == "f7" then Some((0x1F, FloatReg))
    else if name == "flags" then Some((0x20, HalfReg))
    else if name == "uspr" then Some((0x21, WordReg))
    else if name == "kspr" then Some((0x22, WordReg))
    else if name == "pdpr" then Some((0x23, WordReg))
    else if name == "imr" then Some((0x24, HalfReg))
    else if name == "pfsr" then Some((0x25, WordReg))
    else None
  }

  // ----- Operands -----

  function Resolve(operand: OperandValue, env: Environment): Result<Resolved, CodegenError> {
    match operand
    case Malformed => Err(OutOfRange)
    case Constant(literal) => Ok(LiteralValue(literal))
    case Ident(name) =>
      var register := GetRegRef(name);
      if register.Some? then Ok(RegRef(register.value.0, register.value.1))
      else if name in env.constants then Ok(LiteralValue(env.constants[name]))
      else Ok(SymbolReference(name))
  }

  /** The smallest register an integer of the combined range of i32 and u32 fits in. */
  function MinimumRegType(value: int): RegisterType
    requires -0x8000_0000 <= value < WORD_LIMIT
  {
    if value < -0x8000 then WordReg
    else if value < -0x80 then HalfReg
    else if value < 0x100 then ByteReg
    else if value < 0x1_0000 then HalfReg
    else WordReg
  }

  function ResolveLiteral(literal: Literal, env: Environment): Option<(Word, RegisterType)> {
    match literal
    case Lit(value, minType) => Some((value, minType))
    case Sizeof(ident) =>
      if ident in env.sizes then Some((env.sizes[ident], MinimumRegType(env.sizes[ident]))) else None
  }

  /** A literal as the immediate operand of a register type. */
  function LiteralBytes(literal: Literal, t: RegisterType, env: Environment): Option<seq<Byte>> {
    var resolved := ResolveLiteral(literal, env);
    if resolved.None? then None
    else
      var (value, minType) := resolved.value;
      ValueBytes(value, minType, t)
  }

  /** A value as the immediate operand of a register type, if it fits; words and floats always do. */
  function ValueBytes(value: Word, minType: RegisterType, t: RegisterType): Option<seq<Byte>> {
    match t
    case ByteReg => if minType == ByteReg then Some([value % 0x100]) else None
    case HalfReg => if minType == ByteReg || minType == HalfReg then Some(Be16(value % 0x1_0000)) else None
    case WordReg => Some(Be32(value))
    case FloatReg => Some(Be32(value))
  }

  const PLACEHOLDER: seq<Byte> := [0, 0, 0, 0]

  /** Operand kinds of the addressing modes; the weight is added to the opcode for a register. */
  datatype Kind =
    | AnyRegisterKind
    | IntegerRegisterKind
    | WordKind(weight: nat)
    | SourceKind
    | ByteKind
    | WordOrFloatKind
    | OppositeKind

  function EncodeOperand(kind: Kind, resolved: Resolved, env: Environment, before: seq<Operand>)
    : Result<Operand, CodegenError>
  {
    match kind
    case AnyRegisterKind => EncodeRegister(resolved, AnyRegister, before)
    case IntegerRegisterKind => EncodeRegister(resolved, NotFloat, before)
    case WordOrFloatKind => EncodeRegister(resolved, WordOrFloat, before)
    case OppositeKind => EncodeRegister(resolved, WordFloatOpposite, before)
    case WordKind(_) =>
      (match resolved
       case RegRef(r, t) => if t == WordReg then Ok(Register(r)) else Err(WrongRegister)
       case SymbolReference(_) => Ok(Immediate(PLACEHOLDER))
       case LiteralValue(literal) =>
         var bytes := LiteralBytes(literal, WordReg, env);
         if bytes.None? then Err(UnknownSizeof) else Ok(Immediate(bytes.value)))
    case ByteKind =>
      (match resolved
       case RegRef(r, t) => if t == ByteReg then Ok(Register(r)) else Err(WrongRegister)
       case SymbolReference(_) => Err(SymbolNotAllowed)
       case LiteralValue(literal) =>
         var bytes := LiteralBytes(literal, ByteReg, env);
         if bytes.None? then Err(LiteralTooBig) else Ok(Immediate(bytes.value)))
    case SourceKind =>
      var first := FirstType(before);
      if first.None? then Err(WrongRegister) else
      match resolved
      case RegRef(r, t) => if t == first.value then Ok(Register(r)) else Err(WrongRegister)
      case SymbolReference(_) => if first.value == WordReg then Ok(Immediate(PLACEHOLDER)) else Err(SymbolNotAllowed)
      case LiteralValue(literal) =>
        var bytes := LiteralBytes(literal, first.value, env);
        if bytes.None? then Err(LiteralTooBig) else Ok(Immediate(bytes.value))
  }

  function EncodeRegister(resolved: Resolved, class_: RegisterClass, before: seq<Operand>): Result<Operand, CodegenError> {
    match resolved
    case LiteralValue(_) => Err(LiteralNotAllowed)
    case SymbolReference(_) => Err(SymbolNotAllowed)
    case RegRef(r, t) => if ClassAccepts(class_, t, FirstType(before)) then Ok(Register(r)) else Err(WrongRegister)
  }

  /** The first `n` operands. */
  function EncodeOperands(kinds: seq<Kind>, operands: seq<OperandValue>, env: Environment, n: nat)
    : (r: Result<seq<Operand>, CodegenError>)
    requires n <= |kinds| == |operands|
    ensures r.Ok? ==> |r.value| == n
  {
    if n == 0 then Ok([])
    else
      var before :- EncodeOperands(kinds, operands, env, n - 1);
      var resolved :- Resolve(operands[n - 1], env);
      var operand :- EncodeOperand(kinds[n - 1], resolved, env, before);
      Ok(before + [operand])
  }

  // ----- Instructions -----

  function Weight(kind: Kind, operand: Operand): nat {
    if operand.Immediate? then 0
    else
      match kind
      case WordKind(weight) => weight
      case SourceKind => 1
      case ByteKind => 1
      case _ => 0
  }

  /** How far the opcode lies from the first variant of its mnemonic. */
  function Variant(kinds: seq<Kind>, operands: seq<Operand>, n: nat): nat
    requires n <= |operands| && n <= |kinds|
  {
    if n == 0 then 0 else Variant(kinds, operands, n - 1) + Weight(kinds[n - 1], operands[n - 1])
  }

  /** An addressing mode with the first of its opcodes. `opcodeLast` marks the mode that resolves its
      operand, and with it writes a symbol's placeholder, before pushing the opcode. */
  datatype Mode = Mode(form: Form, kinds: seq<Kind>, opcode: Byte, opcodeLast: bool)

  datatype Form =
    | FormNone | FormW | FormBhwfA | FormABhwf | FormBhwfSource | FormBhwf | FormWAA | FormWAB | FormWfWf
    | FormBhwSource | FormBhw | FormBhwB | FormA

  function INone(opcode: Byte): Mode { Mode(FormNone, [], opcode, false) }
  function IW(opcode: Byte): Mode { Mode(FormW, [WordKind(1)], opcode, true) }
  function IBhwfA(opcode: Byte): Mode { Mode(FormBhwfA, [AnyRegisterKind, WordKind(1)], opcode, false) }
  function IABhwf(opcode: Byte): Mode { Mode(FormABhwf, [WordKind(1), AnyRegisterKind], opcode, false) }
  function IBhwfSource(opcode: Byte): Mode { Mode(FormBhwfSource, [AnyRegisterKind, SourceKind], opcode, false) }
  function IBhwf(opcode: Byte): Mode { Mode(FormBhwf, [AnyRegisterKind], opcode, false) }
  function IWAA(opcode: Byte): Mode { Mode(FormWAA, [WordKind(4), WordKind(2), WordKind(1)], opcode, false) }
  function IWAB(opcode: Byte): Mode { Mode(FormWAB, [WordKind(4), WordKind(2), ByteKind], opcode, false) }
  function IWfWf(opcode: Byte): Mode { Mode(FormWfWf, [WordOrFloatKind, OppositeKind], opcode, false) }
  function IBhwSource(opcode: Byte): Mode { Mode(FormBhwSource, [IntegerRegisterKind, SourceKind], opcode, false) }
  function IBhw(opcode: Byte): Mode { Mode(FormBhw, [IntegerRegisterKind], opcode, false) }
  function IBhwB(opcode: Byte): Mode { Mode(FormBhwB, [IntegerRegisterKind, ByteKind], opcode, false) }
  function IA(opcode: Byte): Mode { Mode(FormA, [WordKind(1)], opcode, false) }

  function ModeWith(form: Form, opcode: Byte): Mode {
    match form
    case FormNone => INone(opcode)
    case FormW => IW(opcode)
    case FormBhwfA => IBhwfA(opcode)
    case FormABhwf => IABhwf(opcode)
    case FormBhwfSource => IBhwfSource(opcode)
    case FormBhwf => IBhwf(opcode)
    case FormWAA => IWAA(opcode)
    case FormWAB => IWAB(opcode)
    case FormWfWf => IWfWf(opcode)
    case FormBhwSource => IBhwSource(opcode)
    case FormBhw => IBhw(opcode)
    case FormBhwB => IBhwB(opcode)
    case FormA => IA(opcode)
  }

  /** The mode has one of the thirteen forms, and room for its variants. */
  predicate Known(mode: Mode) {
    mode == ModeWith(mode.form, mode.opcode) && mode.opcode + 7 < 0x100
  }

  /** The mnemonic match of `codegen_instruction`. */
  function ModeOf(mnemonic: string): (mode: Option<Mode>)
    ensures mode.Some? ==> Known(mode.value)
  {
    if PrivilegedMode(mnemonic).Some? then PrivilegedMode(mnemonic)
    else if BlockMode(mnemonic).Some? then BlockMode(mnemonic)
    else if DataMode(mnemonic).Some? then DataMode(mnemonic)
    else if ArithmeticMode(mnemonic).Some? then ArithmeticMode(mnemonic)
    else if BitwiseMode(mnemonic).Some? then BitwiseMode(mnemonic)
    else if BranchMode(mnemonic).Some? then BranchMode(mnemonic)
    else ConditionalMode(mnemonic)
  }

  function PrivilegedMode(mnemonic: string): (mode: Option<Mode>)
    ensures mode.Some? ==> Known(mode.value)
  {
    if mnemonic == "halt" then Some(INone(0x00))
    else if mnemonic == "pause" then Some(INone(0x01))
    else if mnemonic == "timer" then Some(IW(0x02))
    else if mnemonic == "usermode" then Some(INone(0x04))
    else if mnemonic == "ireturn" then Some(INone(0x05))
    else None
  }

  function BlockMode(mnemonic: string): (mode: Option<Mode>)
    ensures mode.Some? ==> Known(mode.value)
  {
    if mnemonic == "blockcopy" then Some(IWAA(0x10))
    else if mnemonic == "blockset" then Some(IWAB(0x18))
    else if mnemonic == "blockcmp" then Some(IWAA(0x4C))
    else None
  }

  function DataMode(mnemonic: string): (mode: Option<Mode>)
    ensures mode.Some? ==> Known(mode.value)
  {
    if mnemonic == "load" then Some(IBhwfA(0x06))
    else if mnemonic == "store" then Some(IABhwf(0x08))
    else if mnemonic == "copy" then Some(IBhwfSource(0x0A))
    else if mnemonic == "swap" then Some(IBhwfA(0x0C))
    else if mnemonic == "push" then Some(IBhwf(0x0E))
    else if mnemonic == "pop" then Some(IBhwf(0x0F))
    else None
  }

  function ArithmeticMode(mnemonic: string): (mode: Option<Mode>)
    ensures mode.Some? ==> Known(mode.value)
  {
    if mnemonic == "negate" then Some(IBhwf(0x20))
    else if mnemonic == "add" then Some(IBhwfSource(0x21))
    else if mnemonic == "addcarry" then Some(IBhwSource(0x23))
    else if mnemonic == "sub" then Some(IBhwfSource(0x25))
    else if mnemonic == "subborrow" then Some(IBhwSource(0x27))
    else if mnemonic == "mult" then Some(IBhwfSource(0x29))
    else if mnemonic == "sdiv" then Some(IBhwfSource(0x2B))
    else if mnemonic == "udiv" then Some(IBhwSource(0x2D))
    else if mnemonic == "srem" then Some(IBhwfSource(0x2F))
    else if mnemonic == "urem" then Some(IBhwSource(0x31))
    else if mnemonic == "not" then Some(IBhw(0x33))
    else None
  }

  function BitwiseMode(mnemonic: string): (mode: Option<Mode>)
    ensures mode.Some? ==> Known(mode.value)
  {
    if mnemonic == "and" then Some(IBhwSource(0x34))
    else if mnemonic == "or" then Some(IBhwSource(0x36))
    else if mnemonic == "xor" then Some(IBhwSource(0x38))
    else if mnemonic == "lshift" then Some(IBhwB(0x3A))
    else if mnemonic == "srshift" then Some(IBhwB(0x3C))
    else if mnemonic == "urshift" then Some(IBhwB(0x3E))
    else if mnemonic == "lrot" then Some(IBhwB(0x40))
    else if mnemonic == "rrot" then Some(IBhwB(0x42))
    else if mnemonic == "lrotcarry" then Some(IBhwB(0x44))
    else if mnemonic == "rrotcarry" then Some(IBhwB(0x46))
    else None
  }

  function BranchMode(mnemonic: string): (mode: Option<Mode>)
    ensures mode.Some? ==> Known(mode.value)
  {
    if mnemonic == "jump" then Some(IA(0x48))
    else if mnemonic == "compare" then Some(IBhwfSource(0x4A))
    else if mnemonic == "jequal" then Some(IA(0x54))
    else if mnemonic == "jnotequal" then Some(IA(0x56))
    else if mnemonic == "call" then Some(IA(0x68))
    else if mnemonic == "return" then Some(INone(0x6A))
    else if mnemonic == "syscall" then Some(INone(0x6B))
    else if mnemonic == "sconvert" then Some(IWfWf(0x6C))
    else if mnemonic == "uconvert" then Some(IWfWf(0x6D))
    else None
  }

  function ConditionalMode(mnemonic: string): (mode: Option<Mode>)
    ensures mode.Some? ==> Known(mode.value)
  {
    if mnemonic == "sjgreater" then Some(IA(0x58))
    else if mnemonic == "sjgreatereq" then Some(IA(0x5A))
    else if mnemonic == "ujgreater" then Some(IA(0x5C))
    else if mnemonic == "ujgreatereq" then Some(IA(0x5E))
    else if mnemonic == "sjlesser" then Some(IA(0x60))
    else if mnemonic == "sjlessereq" then Some(IA(0x62))
    else if mnemonic == "ujlesser" then Some(IA(0x64))
    else if mnemonic == "ujlessereq" then Some(IA(0x66))
    else None
  }

  // ----- The encoder's table against the CPU's -----

  function FetchOf(kind: Kind, isRegister: bool): Fetch {
    match kind
    case AnyRegisterKind => FetchRegister(AnyRegister)
    case IntegerRegisterKind => FetchRegister(NotFloat)
    case WordKind(_) => Address(isRegister)
    case SourceKind => Source(isRegister)
    case ByteKind => ByteOperand(isRegister)
    case WordOrFloatKind => FetchRegister(WordOrFloat)
    case OppositeKind => FetchRegister(WordFloatOpposite)
  }

  /** An encoded operand is one the CPU accepts for its kind. */
  lemma EncodedIsAccepted(kind: Kind, operand: OperandValue, env: Environment, before: seq<Operand>, encoded: Operand)
    requires Resolve(operand, env).Ok?
    requires EncodeOperand(kind, Resolve(operand, env).value, env, before) == Ok(encoded)
    ensures Accepts(FetchOf(kind, encoded.Register?), encoded, before)
  {}

  lemma VariantsOfOne(kinds: seq<Kind>, operands: seq<Operand>)
    requires |operands| == |kinds| == 1
    ensures Variant(kinds, operands, 1) == Weight(kinds[0], operands[0])
  {}

  lemma VariantsOfTwo(kinds: seq<Kind>, operands: seq<Operand>)
    requires |operands| == |kinds| == 2
    ensures Variant(kinds, operands, 2) == Weight(kinds[0], operands[0]) + Weight(kinds[1], operands[1])
  {
    assert Variant(kinds, operands, 1) == Weight(kinds[0], operands[0]);
  }

  lemma VariantsOfThree(kinds: seq<Kind>, operands: seq<Operand>)
    requires |operands| == |kinds| == 3
    ensures Variant(kinds, operands, 3)
         == Weight(kinds[0], operands[0]) + Weight(kinds[1], operands[1]) + Weight(kinds[2], operands[2])
  {
    assert Variant(kinds, operands, 1) == Weight(kinds[0], operands[0]);
    assert Variant(kinds, operands, 2) == Variant(kinds, operands, 1) + Weight(kinds[1], operands[1]);
  }

  /** The CPU's handler for the chosen opcode belongs to `mnemonic` and fetches the operands of the mode. */
  ghost predicate Matches(mnemonic: string, mode: Mode, operands: seq<Operand>)
    requires |operands| == |mode.kinds|
  {
    match HandlerOf(OpcodeFor(mode, operands))
    case Some(handler) => FetchesKinds(mnemonic, handler, mode.kinds, operands)
    case None => false
  }

  /** The variant of the mode's opcode that the operands select; the source lists the variants. */
  function OpcodeFor(mode: Mode, operands: seq<Operand>): Byte
    requires |operands| == |mode.kinds|
  {
    var opcode := mode.opcode + Variant(mode.kinds, operands, |operands|);
    if opcode < 0x100 then opcode else mode.opcode
  }

  ghost predicate FetchesKinds(mnemonic: string, handler: Handler, kinds: seq<Kind>, operands: seq<Operand>)
    requires |operands| == |kinds|
  {
    && handler.name == mnemonic && |handler.fetches| == |operands|
    && forall k :: 0 <= k < |operands| ==> handler.fetches[k] == FetchOf(kinds[k], operands[k].Register?)
  }

  lemma Variants(kinds: seq<Kind>, operands: seq<Operand>)
    requires |operands| == |kinds| <= 3
    ensures Variant(kinds, operands, |kinds|)
         == (if |kinds| > 0 then Weight(kinds[0], operands[0]) else 0)
          + (if |kinds| > 1 then Weight(kinds[1], operands[1]) else 0)
          + (if |kinds| > 2 then Weight(kinds[2], operands[2]) else 0)
  {
    if |kinds| == 1 {
      VariantsOfOne(kinds, operands);
    } else if |kinds| == 2 {
      VariantsOfTwo(kinds, operands);
    } else if |kinds| == 3 {
      VariantsOfThree(kinds, operands);
    }
  }

  lemma PrivilegedModeMatches(mnemonic: string, operands: seq<Operand>)
    requires PrivilegedMode(mnemonic).Some? && |operands| == |PrivilegedMode(mnemonic).value.kinds|
    ensures Matches(mnemonic, PrivilegedMode(mnemonic).value, operands)
  {
    Variants(PrivilegedMode(mnemonic).value.kinds, operands);
  }

  lemma VariantBits(a: bool, b: bool, c: bool)
    ensures var v := (if a then 4 else 0) + (if b then 2 else 0) + (if c then 1 else 0);
      v <= 7 && Bit(v, 4) == a && Bit(v, 2) == b && Bit(v, 1) == c
  {}

  lemma BlockHandlers(variant: nat)
    requires variant <= 7
    ensures HandlerOf(0x10 + variant) == Some(Block("blockcopy", variant, Address))
    ensures HandlerOf(0x18 + variant) == Some(Block("blockset", variant, ByteOperand))
    ensures HandlerOf(0x4C + variant) == Some(Block("blockcmp", variant, Address))
  {}

  lemma BlockModeMatches(mnemonic: string, operands: seq<Operand>)
    requires BlockMode(mnemonic).Some? && |operands| == |BlockMode(mnemonic).value.kinds|
    ensures Matches(mnemonic, BlockMode(mnemonic).value, operands)
  {
    hide HandlerOf;
    Variants(BlockMode(mnemonic).value.kinds, operands);
    BlockHandlers(Variant(BlockMode(mnemonic).value.kinds, operands, 3));
    VariantBits(operands[0].Register?, operands[1].Register?, operands[2].Register?);
  }

  lemma DataModeMatches(mnemonic: string, operands: seq<Operand>)
    requires DataMode(mnemonic).Some? && |operands| == |DataMode(mnemonic).value.kinds|
    ensures Matches(mnemonic, DataMode(mnemonic).value, operands)
  {
    hide ArithmeticHandler, BitwiseHandler, BranchHandler, Bit;
    Variants(DataMode(mnemonic).value.kinds, operands);
  }

  lemma ArithmeticModeMatches(mnemonic: string, operands: seq<Operand>)
    requires ArithmeticMode(mnemonic).Some? && |operands| == |ArithmeticMode(mnemonic).value.kinds|
    ensures Matches(mnemonic, ArithmeticMode(mnemonic).value, operands)
  {
    hide DataHandler, BitwiseHandler, BranchHandler, Bit;
    Variants(ArithmeticMode(mnemonic).value.kinds, operands);
  }

  lemma BitwiseModeMatches(mnemonic: string, operands: seq<Operand>)
    requires BitwiseMode(mnemonic).Some? && |operands| == |BitwiseMode(mnemonic).value.kinds|
    ensures Matches(mnemonic, BitwiseMode(mnemonic).value, operands)
  {
    hide DataHandler, ArithmeticHandler, BranchHandler, Bit;
    Variants(BitwiseMode(mnemonic).value.kinds, operands);
  }

  lemma BranchModeMatches(mnemonic: string, operands: seq<Operand>)
    requires BranchMode(mnemonic).Some? && |operands| == |BranchMode(mnemonic).value.kinds|
    ensures Matches(mnemonic, BranchMode(mnemonic).value, operands)
  {
    hide DataHandler, ArithmeticHandler, BitwiseHandler, Bit;
    Variants(BranchMode(mnemonic).value.kinds, operands);
  }

  lemma ConditionalModeMatches(mnemonic: string, operands: seq<Operand>)
    requires ConditionalMode(mnemonic).Some? && |operands| == |ConditionalMode(mnemonic).value.kinds|
    ensures Matches(mnemonic, ConditionalMode(mnemonic).value, operands)
  {
    hide DataHandler, ArithmeticHandler, BitwiseHandler, Bit;
    Variants(ConditionalMode(mnemonic).value.kinds, operands);
  }

  /** The assembler's opcode table and the CPU's agree, in every variant of every mnemonic. */
  lemma HandlerMatchesMode(mnemonic: string, operands: seq<Operand>)
    requires ModeOf(mnemonic).Some? && |operands| == |ModeOf(mnemonic).value.kinds|
    ensures Matches(mnemonic, ModeOf(mnemonic).value, operands)
  {
    if PrivilegedMode(mnemonic).Some? {
      PrivilegedModeMatches(mnemonic, operands);
    } else if BlockMode(mnemonic).Some? {
      BlockModeMatches(mnemonic, operands);
    } else if DataMode(mnemonic).Some? {
      DataModeMatches(mnemonic, operands);
    } else if ArithmeticMode(mnemonic).Some? {
      ArithmeticModeMatches(mnemonic, operands);
    } else if BitwiseMode(mnemonic).Some? {
      BitwiseModeMatches(mnemonic, operands);
    } else if BranchMode(mnemonic).Some? {
      BranchModeMatches(mnemonic, operands);
    } else {
      ConditionalModeMatches(mnemonic, operands);
    }
  }

  // ----- Whole instructions -----

  /** The encoded form; `opcodeLast` if a symbol's placeholder comes before the opcode. */
  datatype Encoding = Encoding(opcode: Byte, operands: seq<Operand>, opcodeLast: bool)

  function EncodingBytes(e: Encoding): seq<Byte> {
    match e case Encoding(opcode, operands, opcodeLast) =>
      if opcodeLast then OperandsBytes(operands, 0) + [opcode] else [opcode] + OperandsBytes(operands, 0)
  }

  predicate IsSymbol(operand: OperandValue, env: Environment) {
    Resolve(operand, env).Ok? && Resolve(operand, env).value.SymbolReference?
  }

  function EncodeMode(mode: Mode, operands: seq<OperandValue>, env: Environment): Result<Encoding, CodegenError> {
    if |operands| != |mode.kinds| then Err(WrongOperandCount)
    else
      var encoded :- EncodeOperands(mode.kinds, operands, env, |operands|);
      Ok(Encoding(OpcodeFor(mode, encoded), encoded, mode.opcodeLast && operands != [] && IsSymbol(operands[0], env)))
  }

  function Encode(mnemonic: string, operands: seq<OperandValue>, env: Environment): Result<Encoding, CodegenError> {
    var mode := ModeOf(mnemonic);
    if mode.None? then Err(UnrecognisedOpcode) else EncodeMode(mode.value, operands, env)
  }

  lemma {:induction false} EncodedOperandsAccepted(kinds: seq<Kind>, operands: seq<OperandValue>, env: Environment, n: nat)
    requires n <= |kinds| == |operands| && EncodeOperands(kinds, operands, env, n).Ok?
    ensures KindsAccept(kinds, EncodeOperands(kinds, operands, env, n).value)
  {
    if n > 0 {
      var before := EncodeOperands(kinds, operands, env, n - 1).value;
      var encoded := EncodeOperands(kinds, operands, env, n).value;
      EncodedOperandsAccepted(kinds, operands, env, n - 1);
      EncodedIsAccepted(kinds[n - 1], operands[n - 1], env, before, encoded[n - 1]);
      AcceptedOneMore(kinds, before, encoded[n - 1]);
    }
  }

  /** Each encoded operand is one the CPU accepts for its kind. */
  ghost predicate KindsAccept(kinds: seq<Kind>, operands: seq<Operand>) {
    && |operands| <= |kinds|
    && forall k {:trigger KindAcceptsAt(kinds, operands, k)} :: 0 <= k < |operands| ==> KindAcceptsAt(kinds, operands, k)
  }

  ghost predicate KindAcceptsAt(kinds: seq<Kind>, operands: seq<Operand>, k: nat)
    requires k < |kinds| && k < |operands|
  {
    Accepts(FetchOf(kinds[k], operands[k].Register?), operands[k], operands[..k])
  }

  lemma AcceptedOneMore(kinds: seq<Kind>, before: seq<Operand>, last: Operand)
    requires |before| < |kinds| && KindsAccept(kinds, before)
    requires Accepts(FetchOf(kinds[|before|], last.Register?), last, before)
    ensures KindsAccept(kinds, before + [last])
  {
    var encoded := before + [last];
    forall k | 0 <= k < |encoded| ensures KindAcceptsAt(kinds, encoded, k) {
      if k < |before| {
        assert KindAcceptsAt(kinds, before, k);
        assert encoded[..k] == before[..k];
      } else {
        assert encoded[..k] == before;
      }
    }
  }

  lemma AllKindsAccepted(mnemonic: string, handler: Handler, kinds: seq<Kind>, operands: seq<Operand>)
    requires |operands| == |kinds| && FetchesKinds(mnemonic, handler, kinds, operands)
    requires KindsAccept(kinds, operands)
    ensures AllAccepted(handler.fetches, operands)
  {
    forall k | 0 <= k < |operands| ensures AcceptedAt(handler.fetches, operands, k) {
      assert KindAcceptsAt(kinds, operands, k);
    }
  }

  /** The handler of the opcode has the given name and accepts the operands. */
  ghost predicate Decodable(mnemonic: string, opcode: Byte, operands: seq<Operand>) {
    match HandlerOf(opcode)
    case Some(handler) => handler.name == mnemonic && AllAccepted(handler.fetches, operands)
    case None => false
  }

  lemma EncodedModeDecodable(mnemonic: string, mode: Mode, operands: seq<OperandValue>, env: Environment, e: Encoding)
    requires EncodeMode(mode, operands, env) == Ok(e)
    requires Matches(mnemonic, mode, e.operands)
    ensures Decodable(mnemonic, e.opcode, e.operands)
  {
    EncodedOperandsAccepted(mode.kinds, operands, env, |operands|);
    AllKindsAccepted(mnemonic, HandlerOf(e.opcode).value, mode.kinds, e.operands);
  }

  lemma DecodableDecodes(mnemonic: string, code: seq<Byte>, p: nat, e: Encoding)
    requires Decodable(mnemonic, e.opcode, e.operands) && !e.opcodeLast
    requires p <= |code| && EncodingBytes(e) <= code[p..]
    ensures DecodeAt(code, p) == Some(Step(Instruction(mnemonic, e.operands), p + |EncodingBytes(e)|))
  {
    DecodeBack(code, p, e.opcode, e.operands);
  }

  lemma OpcodeLastIsTimer(mnemonic: string)
    requires ModeOf(mnemonic).Some?
    ensures ModeOf(mnemonic).value.opcodeLast <==> mnemonic == "timer"
    ensures mnemonic == "timer" ==> ModeOf(mnemonic).value == IW(0x02)
  {}

  lemma PlaceholderIsFirst(operands: seq<OperandValue>, env: Environment, e: Encoding)
    requires EncodeMode(IW(0x02), operands, env) == Ok(e) && e.opcodeLast
    ensures |EncodingBytes(e)| > 0 && EncodingBytes(e)[0] == 0
  {
    assert EncodeOperands(IW(0x02).kinds, operands, env, 0) == Ok([]);
    assert e.operands == [Immediate(PLACEHOLDER)];
    assert OperandsBytes(e.operands, 1) == [];
  }

  lemma EncodedDecodable(mnemonic: string, operands: seq<OperandValue>, env: Environment)
    requires Encode(mnemonic, operands, env).Ok?
    ensures var e := Encode(mnemonic, operands, env).value; Decodable(mnemonic, e.opcode, e.operands)
  {
    var mode := ModeOf(mnemonic).value;
    var e := EncodeMode(mode, operands, env).value;
    HandlerMatchesMode(mnemonic, e.operands);
    EncodedModeDecodable(mnemonic, mode, operands, env, e);
  }

  /** What an encoded operand stands for: the register itself, the low-order bytes of the literal's
      value, or four zero bytes to be filled in by the linker. */
  ghost predicate StandsFor(encoded: Operand, resolved: Resolved, env: Environment) {
    match resolved
    case RegRef(r, _) => encoded == Register(r)
    case SymbolReference(_) => encoded == Immediate(PLACEHOLDER)
    case LiteralValue(literal) =>
      && encoded.Immediate? && ResolveLiteral(literal, env).Some? && |encoded.bytes| <= 4
      && encoded.bytes == Be32(ResolveLiteral(literal, env).value.0)[4 - |encoded.bytes|..]
      && forall v :: IsInteger(literal, v, env) ==> HoldsInteger(encoded.bytes, v)
  }

  /** The literal is the integer `v`, given as such or as the size of a data item. */
  ghost predicate IsInteger(literal: Literal, v: int, env: Environment) {
    && -0x8000_0000 <= v < WORD_LIMIT
    && match literal
       case Lit(value, minType) => value == v % WORD_LIMIT && minType == MinimumRegType(v)
       case Sizeof(ident) => ident in env.sizes && env.sizes[ident] == v
  }

  /** The bytes, most significant first, are the integer, or its two's complement if it is negative. */
  ghost predicate HoldsInteger(bytes: seq<Byte>, v: int) {
    match |bytes|
    case 1 => -0x80 <= v && bytes[0] == if v < 0 then v + 0x100 else v
    case 2 => -0x8000 <= v && FromBe16(bytes) == if v < 0 then v + 0x1_0000 else v
    case 4 => FromBe32(bytes) == if v < 0 then v + WORD_LIMIT else v
    case _ => false
  }

  /** An integer can be an immediate byte exactly if it is between -128 and 255, and a half exactly if it is
      between -32768 and 65535. */
  lemma IntegerFitsExactly(v: int)
    requires -0x8000_0000 <= v < WORD_LIMIT
    ensures ValueBytes(v % WORD_LIMIT, MinimumRegType(v), ByteReg).Some? <==> -0x80 <= v < 0x100
    ensures ValueBytes(v % WORD_LIMIT, MinimumRegType(v), HalfReg).Some? <==> -0x8000 <= v < 0x1_0000
  {}

  lemma LiteralStandsFor(literal: Literal, t: RegisterType, env: Environment)
    requires LiteralBytes(literal, t, env).Some?
    ensures StandsFor(Immediate(LiteralBytes(literal, t, env).value), LiteralValue(literal), env)
  {
    var value: Word := ResolveLiteral(literal, env).value.0;
    assert Be32(value)[3..] == [value % 0x1_0000 % 0x100];
    assert Be32(value)[2..] == Be16(value % 0x1_0000);
    assert value % 0x100 == value % 0x1_0000 % 0x100;
    forall v | IsInteger(literal, v, env) ensures HoldsInteger(LiteralBytes(literal, t, env).value, v) {
      IntegerHeld(literal, v, t, env);
    }
  }

  lemma IntegerHeld(literal: Literal, v: int, t: RegisterType, env: Environment)
    requires LiteralBytes(literal, t, env).Some? && IsInteger(literal, v, env)
    ensures HoldsInteger(LiteralBytes(literal, t, env).value, v)
  {
    hide Be16, Be32, HoldsInteger, MinimumRegType, ValueBytes;
    var value: Word := ResolveLiteral(literal, env).value.0;
    assert value == if v < 0 then v + WORD_LIMIT else v;
    ValueHeld(v, value, t);
  }

  lemma ValueHeld(v: int, value: Word, t: RegisterType)
    requires -0x8000_0000 <= v < WORD_LIMIT && value == (if v < 0 then v + WORD_LIMIT else v)
    requires ValueBytes(value, MinimumRegType(v), t).Some?
    ensures HoldsInteger(ValueBytes(value, MinimumRegType(v), t).value, v)
  {
    hide Be16, Be32, FromBe16, FromBe32;
    match t
    case ByteReg =>
    case HalfReg => Be16RoundTrip(value % 0x1_0000);
    case _ => Be32RoundTrip(value);
  }

  lemma EncodedStandsFor(kind: Kind, resolved: Resolved, env: Environment, before: seq<Operand>)
    requires EncodeOperand(kind, resolved, env, before).Ok?
    ensures StandsFor(EncodeOperand(kind, resolved, env, before).value, resolved, env)
  {
    if resolved.LiteralValue? {
      match kind
      case WordKind(_) => LiteralStandsFor(resolved.literal, WordReg, env);
      case ByteKind => LiteralStandsFor(resolved.literal, ByteReg, env);
      case SourceKind => LiteralStandsFor(resolved.literal, FirstType(before).value, env);
      case _ =>
    }
  }

  lemma {:induction false} EncodedOperandsStandFor(kinds: seq<Kind>, operands: seq<OperandValue>, env: Environment, n: nat)
    requires n <= |kinds| == |operands| && EncodeOperands(kinds, operands, env, n).Ok?
    ensures forall k :: 0 <= k < n ==>
      && Resolve(operands[k], env).Ok?
      && StandsFor(EncodeOperands(kinds, operands, env, n).value[k], Resolve(operands[k], env).value, env)
  {
    hide StandsFor, Resolve, EncodeOperand;
    if n > 0 {
      var before := EncodeOperands(kinds, operands, env, n - 1).value;
      EncodedOperandsStandFor(kinds, operands, env, n - 1);
      EncodedStandsFor(kinds[n - 1], Resolve(operands[n - 1], env).value, env, before);
    }
  }
}
