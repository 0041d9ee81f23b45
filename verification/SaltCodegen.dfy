/** The instruction half of the code generator (simulatron-salt, codegen.rs and
    instruction_macros.rs): code, symbol table and references are updated in place. */
module SaltCodegen {
  import opened Bytes
  import opened Wrappers
  import opened InstructionSet
  import opened SaltEncoding
  import opened SaltStream
  import opened SaltSymbols

  /** What one instruction has to encode, and the state it started from. */
  datatype Job = Job(kinds: seq<Kind>, operands: seq<OperandValue>, symbols: Symbols, code: seq<Byte>)

  /** The first `n` operands, encoded. */
  ghost function FirstEncoded(job: Job, n: nat): Result<seq<Operand>, CodegenError>
    requires n <= |job.kinds| == |job.operands|
  {
    EncodeOperands(job.kinds, job.operands, EnvironmentOf(job.symbols), n)
  }

  /** The first `n` operands of the job follow `opcode` in the code, and its symbols are referenced. */
  ghost predicate Done(job: Job, opcode: Byte, n: nat, symbols: Symbols, code: seq<Byte>)
    requires n <= |job.kinds| == |job.operands|
  {
    match FirstEncoded(job, n)
    case Err(_) => false
    case Ok(encoded) =>
      && code == job.code + [opcode] + FirstBytes(encoded, n)
      && symbols == Referenced(job.symbols, job.operands, encoded, EnvironmentOf(job.symbols), |job.code| + 1, n)
  }

  /** The state between two operands: the opcode can still be changed. */
  ghost predicate Ready(job: Job, opcode: Byte, n: nat, symbols: Symbols, code: seq<Byte>) {
    && n <= |job.kinds| == |job.operands|
    && FirstEncoded(job, n).Ok? && Done(job, opcode, n, symbols, code)
    && SlotsValid(symbols, code) && Uncovered(symbols, |job.code|) && SameDefinitions(job.symbols, symbols)
  }

  /** What stays true when an instruction turns out to be wrong half-way through. */
  ghost predicate Abandoned(symbols0: Symbols, code0: seq<Byte>, symbols: Symbols, code: seq<Byte>) {
    SlotsValid(symbols, code) && code0 <= code && SameDefinitions(symbols0, symbols)
  }

  /** The result of generating one instruction: exactly the bytes and references of its encoding, or
      the first error. Either way the slots stay valid and the earlier code is untouched. */
  ghost predicate Outcome(
    mode: Mode, operands: seq<OperandValue>, symbols0: Symbols, code0: seq<Byte>,
    symbols: Symbols, code: seq<Byte>, r: Result<(), CodegenError>)
  {
    && Abandoned(symbols0, code0, symbols, code)
    && match EncodeMode(mode, operands, EnvironmentOf(symbols0))
       case Err(error) => r == Err(error)
       case Ok(e) => r == Ok(()) && code == code0 + EncodingBytes(e) && symbols == ReferencedBy(symbols0, operands, e, |code0|)
  }

  /** The symbol table after an instruction whose encoding starts at `start`. */
  ghost function ReferencedBy(symbols: Symbols, operands: seq<OperandValue>, e: Encoding, start: nat): Symbols {
    if |operands| != |e.operands| then symbols
    else Referenced(symbols, operands, e.operands, EnvironmentOf(symbols), if e.opcodeLast then start else start + 1, |operands|)
  }

  // ----- Steps of one instruction -----

  lemma JobStarts(job: Job, opcode: Byte)
    requires |job.kinds| == |job.operands| && SlotsValid(job.symbols, job.code)
    ensures Ready(job, opcode, 0, job.symbols, job.code + [opcode]) && FirstEncoded(job, 0) == Ok([])
  {
    PushKeepsSlots(job.symbols, job.code, [opcode]);
    assert job.code + [opcode] + [] == job.code + [opcode];
  }

  /** Writing the opcode over whatever stood in its place. */
  lemma PatchOpcode(job: Job, opcode: Byte, n: nat, symbols: Symbols, code: seq<Byte>, chosen: Byte)
    requires Ready(job, opcode, n, symbols, code)
    ensures |job.code| < |code| && Ready(job, chosen, n, symbols, code[|job.code| := chosen])
  {
    hide SlotsValid, Uncovered, SameDefinitions, EncodeOperands, Referenced, FirstBytes;
    var bytes := FirstBytes(FirstEncoded(job, n).value, n);
    assert (job.code + [opcode] + bytes)[|job.code| := chosen] == job.code + [chosen] + bytes;
    PatchKeepsSlots(symbols, code, |job.code|, chosen);
  }

  /** Resolving operand `n` keeps everything but the count of operands done. */
  ghost predicate Resolving(
    job: Job, n: nat, symbols: Symbols, code: seq<Byte>, symbols': Symbols, code': seq<Byte>, r: Result<Resolved, CodegenError>)
    requires n < |job.operands|
  {
    && r == Resolve(job.operands[n], EnvironmentOf(job.symbols))
    && match r
       case Ok(SymbolReference(name)) => code' == code + PLACEHOLDER && symbols' == AddReference(symbols, name, |code|)
       case _ => code' == code && symbols' == symbols
  }

  lemma ResolvingKeeps(
    job: Job, opcode: Byte, n: nat, symbols: Symbols, code: seq<Byte>,
    symbols': Symbols, code': seq<Byte>, r: Result<Resolved, CodegenError>)
    requires Ready(job, opcode, n, symbols, code) && n < |job.operands|
    requires Resolving(job, n, symbols, code, symbols', code', r) && SlotsValid(symbols', code')
    ensures Abandoned(job.symbols, job.code, symbols', code')
  {
    hide SlotsValid, Uncovered, EncodeOperands, Referenced, FirstBytes, GetRegRef;
    ReadyExtends(job, opcode, n, symbols, code);
    if r.Ok? && r.value.SymbolReference? {
      AddReferenceKeepsDefinitions(job.symbols, symbols, r.value.name, |code|);
    }
  }

  lemma ReadyExtends(job: Job, opcode: Byte, n: nat, symbols: Symbols, code: seq<Byte>)
    requires Ready(job, opcode, n, symbols, code)
    ensures job.code <= code && |job.code| < |code|
  {
    hide SlotsValid, Uncovered, SameDefinitions, EncodeOperands, Referenced, FirstBytes;
  }

  /** The table after resolving an operand. */
  ghost function WithResolved(symbols: Symbols, resolved: Resolved, position: nat): Symbols {
    match resolved
    case SymbolReference(name) => AddReference(symbols, name, position)
    case _ => symbols
  }

  /** One more operand is done. */
  lemma OperandDone(job: Job, opcode: Byte, n: nat, symbols: Symbols, code: seq<Byte>, resolved: Resolved, x: Operand)
    requires Ready(job, opcode, n, symbols, code) && n < |job.operands|
    requires Resolve(job.operands[n], EnvironmentOf(job.symbols)) == Ok(resolved)
    requires EncodeOperand(job.kinds[n], resolved, EnvironmentOf(job.symbols), FirstEncoded(job, n).value) == Ok(x)
    ensures var m := n + 1; Done(job, opcode, m, WithResolved(symbols, resolved, |code|), code + OperandBytes(x))
    ensures var m := n + 1; FirstEncoded(job, m) == Ok(FirstEncoded(job, n).value + [x])
  {
    hide SlotsValid, Uncovered, SameDefinitions, EncodeOperand, Resolve, OperandBytes;
    var encoded := FirstEncoded(job, n).value;
    FirstBytesOfPrefix(encoded, [x], n);
    ReferencedOfPrefix(job.symbols, job.operands, encoded, [x], EnvironmentOf(job.symbols), |job.code| + 1, n);
    assert job.code + [opcode] + (FirstBytes(encoded, n) + OperandBytes(x))
        == job.code + [opcode] + FirstBytes(encoded, n) + OperandBytes(x);
  }

  lemma {:induction false} FirstBytesOfPrefix(operands: seq<Operand>, more: seq<Operand>, n: nat)
    requires n <= |operands|
    ensures FirstBytes(operands + more, n) == FirstBytes(operands, n)
  {
    if n > 0 {
      FirstBytesOfPrefix(operands, more, n - 1);
    }
  }

  lemma {:induction false} ReferencedOfPrefix(
    symbols: Symbols, operands: seq<OperandValue>, encoded: seq<Operand>, more: seq<Operand>, env: Environment,
    start: nat, n: nat)
    requires n <= |operands| && n <= |encoded|
    ensures Referenced(symbols, operands, encoded + more, env, start, n) == Referenced(symbols, operands, encoded, env, start, n)
  {
    if n > 0 {
      ReferencedOfPrefix(symbols, operands, encoded, more, env, start, n - 1);
      FirstBytesOfPrefix(encoded, more, n - 1);
    }
  }

  /** The bytes still to be pushed for an operand: a symbol's placeholder is already there. */
  ghost function PushedFor(resolved: Resolved, x: Operand): seq<Byte> {
    if resolved.SymbolReference? then [] else OperandBytes(x)
  }

  lemma ResolvedUncovered(job: Job, n: nat, symbols: Symbols, code: seq<Byte>, symbols': Symbols, resolved: Resolved)
    requires n < |job.operands| && Resolve(job.operands[n], EnvironmentOf(job.symbols)) == Ok(resolved)
    requires Uncovered(symbols, |job.code|) && |job.code| < |code| && SameDefinitions(job.symbols, symbols)
    requires symbols' == WithResolved(symbols, resolved, |code|)
    ensures Uncovered(symbols', |job.code|)
  {
    hide Uncovered, AddReference;
    if resolved.SymbolReference? {
      AddReferenceKeepsUncovered(symbols, resolved.name, |code|, |job.code|);
    }
  }

  /** Pushing the bytes of a resolved operand leads to the next state. */
  lemma OperandReady(
    job: Job, opcode: Byte, n: nat, symbols: Symbols, code: seq<Byte>,
    symbols': Symbols, code': seq<Byte>, resolved: Resolved, x: Operand)
    requires Ready(job, opcode, n, symbols, code) && n < |job.operands|
    requires Resolving(job, n, symbols, code, symbols', code', Ok(resolved))
    requires SlotsValid(symbols', code') && SameDefinitions(job.symbols, symbols')
    requires EncodeOperand(job.kinds[n], resolved, EnvironmentOf(job.symbols), FirstEncoded(job, n).value) == Ok(x)
    ensures var m := n + 1; Ready(job, opcode, m, symbols', code' + PushedFor(resolved, x))
    ensures var m := n + 1; FirstEncoded(job, m) == Ok(FirstEncoded(job, n).value + [x])
  {
    hide SlotsValid, Uncovered, SameDefinitions, EncodeOperands, EncodeOperand, Resolve, Referenced, FirstBytes, AddReference;
    ReadyExtends(job, opcode, n, symbols, code);
    OperandDone(job, opcode, n, symbols, code, resolved, x);
    EncodedStandsFor(job.kinds[n], resolved, EnvironmentOf(job.symbols), FirstEncoded(job, n).value);
    ResolvedUncovered(job, n, symbols, code, symbols', resolved);
    PushKeepsSlots(symbols', code', PushedFor(resolved, x));
    if resolved.SymbolReference? {
      assert code' + [] == code';
    }
  }

  /** A wrong operand makes the whole instruction wrong. */
  lemma OperandFails(job: Job, n: nat, error: CodegenError)
    requires n < |job.kinds| == |job.operands| && FirstEncoded(job, n).Ok?
    requires match Resolve(job.operands[n], EnvironmentOf(job.symbols))
      case Err(e) => e == error
      case Ok(resolved) =>
        EncodeOperand(job.kinds[n], resolved, EnvironmentOf(job.symbols), FirstEncoded(job, n).value) == Err(error)
    ensures FirstEncoded(job, |job.operands|) == Err(error)
  {
    hide Resolve, EncodeOperand;
    EarlyOperandError(job.kinds, job.operands, EnvironmentOf(job.symbols), n + 1, |job.operands|);
  }

  lemma {:induction false} EarlyOperandError(kinds: seq<Kind>, operands: seq<OperandValue>, env: Environment, i: nat, n: nat)
    requires i <= n <= |kinds| == |operands| && EncodeOperands(kinds, operands, env, i).Err?
    ensures EncodeOperands(kinds, operands, env, n) == EncodeOperands(kinds, operands, env, i)
    decreases n
  {
    if i < n {
      EarlyOperandError(kinds, operands, env, i, n - 1);
    }
  }

  lemma {:induction false} FirstBytesAreAll(operands: seq<Operand>, n: nat)
    requires n <= |operands|
    ensures FirstBytes(operands, n) + OperandsBytes(operands, n) == FirstBytes(operands, |operands|)
    decreases |operands| - n
  {
    if n < |operands| {
      FirstBytesAreAll(operands, n + 1);
      assert FirstBytes(operands, n) + (OperandBytes(operands[n]) + OperandsBytes(operands, n + 1))
          == FirstBytes(operands, n + 1) + OperandsBytes(operands, n + 1);
    }
  }

  /** All operands are done under the right opcode. */
  lemma JobEnds(mode: Mode, job: Job, opcode: Byte, symbols: Symbols, code: seq<Byte>)
    requires mode.kinds == job.kinds && !mode.opcodeLast
    requires Ready(job, opcode, |job.operands|, symbols, code)
    requires opcode == OpcodeFor(mode, FirstEncoded(job, |job.operands|).value)
    ensures Outcome(mode, job.operands, job.symbols, job.code, symbols, code, Ok(()))
  {
    hide SlotsValid, Uncovered, SameDefinitions, EncodeOperands, Referenced, FirstBytes, OpcodeFor, IsSymbol;
    ReadyExtends(job, opcode, |job.operands|, symbols, code);
    var encoded := FirstEncoded(job, |job.operands|).value;
    FirstBytesAreAll(encoded, 0);
    NoFirstBytes(encoded);
    assert job.code + [opcode] + OperandsBytes(encoded, 0) == job.code + ([opcode] + OperandsBytes(encoded, 0));
  }

  lemma NoFirstBytes(operands: seq<Operand>)
    ensures FirstBytes(operands, 0) + OperandsBytes(operands, 0) == OperandsBytes(operands, 0)
  {
    assert [] + OperandsBytes(operands, 0) == OperandsBytes(operands, 0);
  }

  lemma JobFails(mode: Mode, job: Job, symbols: Symbols, code: seq<Byte>, error: CodegenError)
    requires mode.kinds == job.kinds && |job.operands| == |job.kinds|
    requires FirstEncoded(job, |job.operands|) == Err(error) && Abandoned(job.symbols, job.code, symbols, code)
    ensures Outcome(mode, job.operands, job.symbols, job.code, symbols, code, Err(error))
  {}

  /** What a method pushing operand `n` achieves. */
  ghost predicate Pushed(job: Job, opcode: Byte, n: nat, symbols: Symbols, code: seq<Byte>, isRegister: bool) {
    var m := n + 1;
    && Ready(job, opcode, m, symbols, code)
    && FirstEncoded(job, n).Ok?
    && FirstEncoded(job, m).value[..n] == FirstEncoded(job, n).value
    && FirstEncoded(job, m).value[n].Register? == isRegister
  }

  ghost predicate Fails(job: Job, symbols: Symbols, code: seq<Byte>, error: CodegenError) {
    && |job.operands| == |job.kinds|
    && FirstEncoded(job, |job.operands|) == Err(error)
    && Abandoned(job.symbols, job.code, symbols, code)
  }

  function ClassOf(kind: Kind): Option<RegisterClass> {
    match kind
    case AnyRegisterKind => Some(AnyRegister)
    case IntegerRegisterKind => Some(NotFloat)
    case WordOrFloatKind => Some(WordOrFloat)
    case OppositeKind => Some(WordFloatOpposite)
    case _ => None
  }

  lemma WrongCount(mode: Mode, operands: seq<OperandValue>, symbols: Symbols, code: seq<Byte>)
    requires |operands| != |mode.kinds| && SlotsValid(symbols, code)
    ensures Outcome(mode, operands, symbols, code, symbols, code, Err(WrongOperandCount))
  {
    hide SlotsValid;
  }

  /** One operand, encoded. */
  ghost function OneEncoded(kind: Kind, operand: OperandValue, env: Environment): Result<Operand, CodegenError> {
    var resolved :- Resolve(operand, env);
    EncodeOperand(kind, resolved, env, [])
  }

  lemma EncodeOne(kinds: seq<Kind>, operands: seq<OperandValue>, env: Environment)
    requires |kinds| == |operands| == 1
    ensures EncodeOperands(kinds, operands, env, 1) == match OneEncoded(kinds[0], operands[0], env)
      case Err(error) => Err(error)
      case Ok(x) => Ok([x])
  {
    hide Resolve, EncodeOperand;
    assert EncodeOperands(kinds, operands, env, 0) == Ok([]);
    assert forall x: Operand :: [] + [x] == [x];
  }

  lemma BytesOfOne(x: Operand)
    ensures OperandsBytes([x], 0) == OperandBytes(x)
  {
    assert OperandsBytes([x], 1) == [];
    assert OperandBytes(x) + [] == OperandBytes(x);
  }

  lemma WFails(opcode: Byte, operands: seq<OperandValue>, symbols: Symbols, code: seq<Byte>, error: CodegenError)
    requires |operands| == 1 && SlotsValid(symbols, code)
    requires OneEncoded(WordKind(1), operands[0], EnvironmentOf(symbols)) == Err(error)
    ensures Outcome(IW(opcode), operands, symbols, code, symbols, code, Err(error))
  {
    hide SlotsValid, OneEncoded, OpcodeFor;
    EncodeOne([WordKind(1)], operands, EnvironmentOf(symbols));
  }

  /** The opcode has been pushed when an unknown sizeof is met. */
  lemma WFailsLater(
    opcode: Byte, operands: seq<OperandValue>, symbols: Symbols, code: seq<Byte>, error: CodegenError)
    requires |operands| == 1 && SlotsValid(symbols, code)
    requires OneEncoded(WordKind(1), operands[0], EnvironmentOf(symbols)) == Err(error)
    ensures Outcome(IW(opcode), operands, symbols, code, symbols, code + [opcode], Err(error))
  {
    hide OneEncoded, OpcodeFor;
    EncodeOne([WordKind(1)], operands, EnvironmentOf(symbols));
    PushKeepsSlots(symbols, code, [opcode]);
  }

  lemma WWithoutSymbol(
    opcode: Byte, operands: seq<OperandValue>, symbols: Symbols, code: seq<Byte>, resolved: Resolved, x: Operand)
    requires |operands| == 1 && SlotsValid(symbols, code) && opcode + 1 < 0x100
    requires Resolve(operands[0], EnvironmentOf(symbols)) == Ok(resolved) && !resolved.SymbolReference?
    requires EncodeOperand(WordKind(1), resolved, EnvironmentOf(symbols), []) == Ok(x)
    ensures Outcome(IW(opcode), operands, symbols, code,
                    symbols, code + [if x.Register? then opcode + 1 else opcode] + OperandBytes(x), Ok(()))
  {
    hide SlotsValid, Resolve, EncodeOperand, OperandBytes, OperandsBytes;
    var chosen: Byte := if x.Register? then opcode + 1 else opcode;
    EncodeOne([WordKind(1)], operands, EnvironmentOf(symbols));
    VariantsOfOne([WordKind(1)], [x]);
    BytesOfOne(x);
    assert code + [chosen] + OperandBytes(x) == code + ([chosen] + OperandBytes(x));
    PushKeepsSlots(symbols, code, [chosen] + OperandBytes(x));
    assert Referenced(symbols, operands, [x], EnvironmentOf(symbols), |code| + 1, 0) == symbols;
  }

  lemma WWithSymbol(
    opcode: Byte, operands: seq<OperandValue>, symbols: Symbols, code: seq<Byte>, symbols': Symbols, name: string)
    requires |operands| == 1 && SlotsValid(symbols', code + PLACEHOLDER)
    requires Resolve(operands[0], EnvironmentOf(symbols)) == Ok(SymbolReference(name))
    requires symbols' == AddReference(symbols, name, |code|)
    ensures Outcome(IW(opcode), operands, symbols, code, symbols', code + PLACEHOLDER + [opcode], Ok(()))
  {
    hide SlotsValid, Resolve, AddReference;
    var env := EnvironmentOf(symbols);
    var x := Immediate(PLACEHOLDER);
    assert EncodeOperand(WordKind(1), SymbolReference(name), env, []) == Ok(x);
    EncodeOne([WordKind(1)], operands, env);
    VariantsOfOne([WordKind(1)], [x]);
    BytesOfOne(x);
    assert code + PLACEHOLDER + [opcode] == code + (PLACEHOLDER + [opcode]);
    PushKeepsSlots(symbols', code + PLACEHOLDER, [opcode]);
    AddReferenceKeepsDefinitions(symbols, symbols, name, |code|);
    assert Referenced(symbols, operands, [x], env, |code|, 0) == symbols;
    assert FirstBytes([x], 0) == [];
  }

  /** The result of generating one instruction, whatever its mnemonic. */
  ghost predicate Generated(
    mnemonic: string, operands: seq<OperandValue>, symbols0: Symbols, code0: seq<Byte>,
    symbols: Symbols, code: seq<Byte>, r: Result<(), CodegenError>)
  {
    match ModeOf(mnemonic)
    case None => r == Err(UnrecognisedOpcode) && symbols == symbols0 && code == code0
    case Some(mode) => Outcome(mode, operands, symbols0, code0, symbols, code, r)
  }

  /** All labels before the first `n` instructions are resolved. */
  ghost predicate LabelsDone(symbols: Symbols, n: nat) {
    forall name :: name in symbols ==> LabelDone(symbols[name], n)
  }

  ghost predicate LabelDone(symbol: Symbol, n: nat) {
    match symbol
    case LabelSymbol(_, Before(instruction), _) => instruction >= n
    case _ => true
  }

  /** The errors of the first `n` instructions. */
  function ErrorsOf(program: seq<SourceInstruction>, env: Environment, n: nat): seq<CodegenError>
    requires n <= |program|
  {
    if n == 0 then []
    else
      var r := Encode(program[n - 1].mnemonic, program[n - 1].operands, env);
      ErrorsOf(program, env, n - 1) + if r.Err? then [r.error] else []
  }

  /** The symbol table once the first `n` instructions are emitted. */
  ghost function SymbolsAfter(symbols: Symbols, program: seq<SourceInstruction>, list: seq<Emitted>, n: nat): Symbols
    requires n <= |program| && n <= |list|
  {
    if n == 0 then symbols
    else
      var offset := Offset(list, n - 1);
      var located := LabelsResolved(SymbolsAfter(symbols, program, list, n - 1), n - 1, offset);
      ReferencedBy(located, program[n - 1].operands, list[n - 1].encoding, offset)
  }

  /** The program has been generated without errors. */
  ghost predicate Complete(
    symbols0: Symbols, program: seq<SourceInstruction>, list: seq<Emitted>, symbols: Symbols, code: seq<Byte>)
  {
    && Encodes(program, EnvironmentOf(symbols0), list)
    && code == Code(list)
    && symbols == SymbolsAfter(symbols0, program, list, |program|)
    && EnvironmentOf(symbols) == EnvironmentOf(symbols0)
  }

  lemma LabelsResolvedDone(symbols: Symbols, n: nat, offset: nat)
    requires LabelsDone(symbols, n)
    ensures var m := n + 1; LabelsDone(LabelsResolved(symbols, n, offset), m)
  {}

  lemma GeneratedKeeps(
    instruction: SourceInstruction, symbols0: Symbols, code0: seq<Byte>, symbols: Symbols, code: seq<Byte>,
    r: Result<(), CodegenError>, n: nat)
    requires SlotsValid(symbols0, code0) && LabelsDone(symbols0, n)
    requires Generated(instruction.mnemonic, instruction.operands, symbols0, code0, symbols, code, r)
    ensures SlotsValid(symbols, code) && EnvironmentOf(symbols) == EnvironmentOf(symbols0) && LabelsDone(symbols, n)
    ensures match Encode(instruction.mnemonic, instruction.operands, EnvironmentOf(symbols0))
      case Err(error) => r == Err(error)
      case Ok(e) =>
        && r == Ok(()) && code == code0 + EncodingBytes(e)
        && symbols == ReferencedBy(symbols0, instruction.operands, e, |code0|)
  {
    hide SlotsValid, EncodeMode, EnvironmentOf, EncodingBytes, ReferencedBy;
    hide PrivilegedMode, BlockMode, DataMode, ArithmeticMode, BitwiseMode, BranchMode, ConditionalMode;
    if ModeOf(instruction.mnemonic).Some? {
      SameEnvironment(symbols0, symbols);
    }
  }

  lemma {:induction false} CodeOfPrefix(list: seq<Emitted>, more: seq<Emitted>, n: nat)
    requires n <= |list|
    ensures CodeOf(list + more, n) == CodeOf(list, n)
  {
    hide EncodingBytes;
    if n > 0 {
      CodeOfPrefix(list, more, n - 1);
    }
  }

  lemma {:induction false} SymbolsAfterPrefix(
    symbols: Symbols, program: seq<SourceInstruction>, list: seq<Emitted>,
    longer: seq<SourceInstruction>, more: seq<Emitted>, n: nat)
    requires n <= |list| && n <= |program| && program <= longer
    ensures SymbolsAfter(symbols, longer, list + more, n) == SymbolsAfter(symbols, program, list, n)
  {
    hide ReferencedBy, LabelsResolved, CodeOf;
    if n > 0 {
      SymbolsAfterPrefix(symbols, program, list, longer, more, n - 1);
      CodeOfPrefix(list, more, n - 1);
    }
  }

  lemma CompleteOneMore(
    symbols0: Symbols, program: seq<SourceInstruction>, i: nat, list: seq<Emitted>, x: Emitted,
    symbols: Symbols, code: seq<Byte>, symbols': Symbols, code': seq<Byte>)
    requires i < |program| && Complete(symbols0, program[..i], list, symbols, code)
    requires EncodesTo(program[i].mnemonic, program[i].operands, EnvironmentOf(symbols0), x)
    requires code' == code + EncodingBytes(x.encoding)
    requires symbols' == ReferencedBy(LabelsResolved(symbols, i, |code|), program[i].operands, x.encoding, |code|)
    requires EnvironmentOf(symbols') == EnvironmentOf(symbols0)
    ensures var m := i + 1; Complete(symbols0, program[..m], list + [x], symbols', code')
  {
    hide EncodingBytes, ReferencedBy, LabelsResolved, EnvironmentOf, EncodesTo;
    var m := i + 1;
    SymbolsAfterPrefix(symbols0, program[..i], list, program[..m], [x], i);
    CodeOfPrefix(list, [x], i);
    forall k | 0 <= k < m ensures EncodesAt(program[..m], EnvironmentOf(symbols0), list + [x], k) {
      if k < i {
        assert EncodesAt(program[..i], EnvironmentOf(symbols0), list, k);
      }
    }
  }

  lemma NothingPushed(code: seq<Byte>)
    ensures code + [] == code
  {}

  class CodeGenerator {
    var symbols: Symbols
    var code: seq<Byte>
    var errors: seq<CodegenError>

    constructor (symbols: Symbols)
      requires Unreferenced(symbols)
      ensures this.symbols == symbols && code == [] && errors == []
      ensures SlotsValid(this.symbols, code)
    {
      this.symbols, code, errors := symbols, [], [];
      new;
      NoSlots(symbols, code);
    }

    // ----- Operands -----

    /** Resolve an operand; a symbol is given a reference to the placeholder pushed here. */
    method ResolveOperand(operand: OperandValue) returns (r: Result<Resolved, CodegenError>)
      requires SlotsValid(symbols, code)
      modifies this`symbols, this`code
      ensures r == Resolve(operand, EnvironmentOf(old(symbols)))
      ensures SlotsValid(symbols, code)
      ensures match r
        case Ok(SymbolReference(name)) =>
          code == old(code) + PLACEHOLDER && symbols == AddReference(old(symbols), name, |old(code)|)
        case _ => code == old(code) && symbols == old(symbols)
    {
      match operand {
        case Malformed => return Err(OutOfRange);
        case Constant(literal) => return Ok(LiteralValue(literal));
        case Ident(name) =>
          var register := GetRegRef(name);
          if register.Some? {
            return Ok(RegRef(register.value.0, register.value.1));
          }
          if name in symbols && symbols[name].ConstantSymbol? {
            return Ok(LiteralValue(symbols[name].literal));
          }
          AddReferenceKeepsSlots(symbols, code, name);
          symbols := if name in symbols then symbols[name := WithReference(symbols[name], |code|)]
                     else symbols[name := ExternalSymbol([|code|])];
          code := code + PLACEHOLDER;
          return Ok(SymbolReference(name));
      }
    }

    /** Resolve the next operand of a job. */
    method ResolveNext(operand: OperandValue, ghost job: Job, ghost opcode: Byte, ghost n: nat)
      returns (r: Result<Resolved, CodegenError>)
      requires n < |job.operands| && operand == job.operands[n] && Ready(job, opcode, n, symbols, code)
      modifies this`symbols, this`code
      ensures Resolving(job, n, old(symbols), old(code), symbols, code, r)
      ensures Abandoned(job.symbols, job.code, symbols, code)
    {
      hide SlotsValid, Uncovered, SameDefinitions, Done, Resolve, AddReference;
      ghost var symbols0, code0 := symbols, code;
      SameEnvironment(job.symbols, symbols);
      r := ResolveOperand(operand);
      ResolvingKeeps(job, opcode, n, symbols0, code0, symbols, code, r);
    }

    /** An operand that must be a register of some class; `first` is the type of the first operand. */
    method PushRegister(operand: OperandValue, kind: Kind, first: Option<RegisterType>, ghost job: Job, ghost opcode: Byte, ghost n: nat)
      returns (r: Result<RegisterType, CodegenError>)
      requires n < |job.operands| && operand == job.operands[n] && Ready(job, opcode, n, symbols, code)
      requires kind == job.kinds[n] && ClassOf(kind).Some?
      requires kind.OppositeKind? ==> first == FirstType(FirstEncoded(job, n).value)
      modifies this`symbols, this`code
      ensures r.Ok? ==> Pushed(job, opcode, n, symbols, code, true)
      ensures r.Ok? && n == 0 ==> FirstType(FirstEncoded(job, 1).value) == Some(r.value)
      ensures r.Err? ==> Fails(job, symbols, code, r.error)
    {
      hide SlotsValid, Uncovered, SameDefinitions, Resolve, AddReference, EncodeOperands, Referenced, FirstBytes;
      ghost var symbols0, code0 := symbols, code;
      var resolved := ResolveNext(operand, job, opcode, n);
      match resolved {
        case Err(error) =>
          r := Err(error);
        case Ok(LiteralValue(_)) =>
          r := Err(LiteralNotAllowed);
        case Ok(SymbolReference(_)) =>
          r := Err(SymbolNotAllowed);
        case Ok(RegRef(register, t)) =>
          if !ClassAccepts(ClassOf(kind).value, t, first) {
            r := Err(WrongRegister);
          } else {
            OperandReady(job, opcode, n, symbols0, code0, symbols, code, resolved.value, Register(register));
            code := code + [register];
            r := Ok(t);
            RegisterHasType(operand, EnvironmentOf(job.symbols), register, t);
          }
      }
      if r.Err? {
        OperandFails(job, n, r.error);
      }
    }

    /** A word operand: value, register or symbol; says whether it is a register. */
    method PushWord(operand: OperandValue, ghost job: Job, ghost opcode: Byte, ghost n: nat)
      returns (r: Result<bool, CodegenError>)
      requires n < |job.operands| && operand == job.operands[n] && Ready(job, opcode, n, symbols, code)
      requires job.kinds[n].WordKind?
      modifies this`symbols, this`code
      ensures r.Ok? ==> Pushed(job, opcode, n, symbols, code, r.value)
      ensures r.Err? ==> Fails(job, symbols, code, r.error)
    {
      hide SlotsValid, Uncovered, SameDefinitions, Resolve, AddReference, EncodeOperands, Referenced, FirstBytes;
      ghost var symbols0, code0 := symbols, code;
      var resolved := ResolveNext(operand, job, opcode, n);
      match resolved {
        case Err(error) =>
          r := Err(error);
        case Ok(LiteralValue(literal)) =>
          var bytes := ValueAs(WordReg, literal, job);
          if bytes.None? {
            r := Err(UnknownSizeof);
          } else {
            OperandReady(job, opcode, n, symbols0, code0, symbols, code, resolved.value, Immediate(bytes.value));
            code := code + bytes.value;
            r := Ok(false);
          }
        case Ok(SymbolReference(_)) =>
          OperandReady(job, opcode, n, symbols0, code0, symbols, code, resolved.value, Immediate(PLACEHOLDER));
          NothingPushed(code);
          r := Ok(false);
        case Ok(RegRef(register, t)) =>
          if t != WordReg {
            r := Err(WrongRegister);
          } else {
            OperandReady(job, opcode, n, symbols0, code0, symbols, code, resolved.value, Register(register));
            code := code + [register];
            r := Ok(true);
          }
      }
      if r.Err? {
        OperandFails(job, n, r.error);
      }
    }

    /** An address operand that also settles the opcode: the next one for a register. */
    method PushAddress(operand: OperandValue, opcode: Byte, position: nat, ghost job: Job, ghost n: nat)
      returns (r: Result<bool, CodegenError>)
      requires n < |job.operands| && operand == job.operands[n] && Ready(job, 0, n, symbols, code)
      requires job.kinds[n].WordKind? && opcode < 0xFF && position == |job.code|
      modifies this`symbols, this`code
      ensures r.Ok? ==> Pushed(job, if r.value then opcode + 1 else opcode, n, symbols, code, r.value)
      ensures r.Err? ==> Fails(job, symbols, code, r.error)
    {
      hide SlotsValid, Uncovered, SameDefinitions, Resolve, AddReference, EncodeOperands, Referenced, FirstBytes;
      r := PushWord(operand, job, 0, n);
      if r.Ok? {
        Choose(job, position, if r.value then opcode + 1 else opcode, n + 1);
      }
    }

    /** Write the chosen opcode into the place kept for it. */
    method Choose(ghost job: Job, position: nat, chosen: Byte, ghost n: nat)
      requires Ready(job, 0, n, symbols, code) && position == |job.code|
      modifies this`code
      ensures Ready(job, chosen, n, symbols, code)
    {
      PatchOpcode(job, 0, n, symbols, code, chosen);
      code := code[position := chosen];
    }

    /** A literal as the immediate value of a register type. */
    method ValueAs(t: RegisterType, literal: Literal, ghost job: Job) returns (bytes: Option<seq<Byte>>)
      requires SameDefinitions(job.symbols, symbols)
      ensures bytes == LiteralBytes(literal, t, EnvironmentOf(job.symbols))
    {
      SameEnvironment(job.symbols, symbols);
      match literal {
        case Lit(value, minType) =>
          return ValueBytes(value, minType, t);
        case Sizeof(ident) =>
          if ident in symbols && symbols[ident].DataSymbol? {
            return ValueBytes(symbols[ident].size, MinimumRegType(symbols[ident].size), t);
          }
          return None;
      }
    }

    /** A byte operand. */
    method PushByte(operand: OperandValue, ghost job: Job, ghost opcode: Byte, ghost n: nat)
      returns (r: Result<bool, CodegenError>)
      requires n < |job.operands| && operand == job.operands[n] && Ready(job, opcode, n, symbols, code)
      requires job.kinds[n].ByteKind?
      modifies this`symbols, this`code
      ensures r.Ok? ==> Pushed(job, opcode, n, symbols, code, r.value)
      ensures r.Err? ==> Fails(job, symbols, code, r.error)
    {
      hide SlotsValid, Uncovered, SameDefinitions, Resolve, AddReference, EncodeOperands, Referenced, FirstBytes;
      ghost var symbols0, code0 := symbols, code;
      var resolved := ResolveNext(operand, job, opcode, n);
      match resolved {
        case Err(error) =>
          r := Err(error);
        case Ok(LiteralValue(literal)) =>
          var bytes := ValueAs(ByteReg, literal, job);
          if bytes.None? {
            r := Err(LiteralTooBig);
          } else {
            OperandReady(job, opcode, n, symbols0, code0, symbols, code, resolved.value, Immediate(bytes.value));
            code := code + bytes.value;
            r := Ok(false);
          }
        case Ok(SymbolReference(_)) =>
          r := Err(SymbolNotAllowed);
        case Ok(RegRef(register, t)) =>
          if t != ByteReg {
            r := Err(WrongRegister);
          } else {
            OperandReady(job, opcode, n, symbols0, code0, symbols, code, resolved.value, Register(register));
            code := code + [register];
            r := Ok(true);
          }
      }
      if r.Err? {
        OperandFails(job, n, r.error);
      }
    }

    /** A source operand, as wide as the first register. */
    method PushSource(operand: OperandValue, first: RegisterType, ghost job: Job, ghost opcode: Byte, ghost n: nat)
      returns (r: Result<bool, CodegenError>)
      requires n < |job.operands| && operand == job.operands[n] && Ready(job, opcode, n, symbols, code)
      requires job.kinds[n].SourceKind? && FirstType(FirstEncoded(job, n).value) == Some(first)
      modifies this`symbols, this`code
      ensures r.Ok? ==> Pushed(job, opcode, n, symbols, code, r.value)
      ensures r.Err? ==> Fails(job, symbols, code, r.error)
    {
      hide SlotsValid, Uncovered, SameDefinitions, Resolve, AddReference, EncodeOperands, Referenced, FirstBytes;
      ghost var symbols0, code0 := symbols, code;
      var resolved := ResolveNext(operand, job, opcode, n);
      match resolved {
        case Err(error) =>
          r := Err(error);
        case Ok(LiteralValue(literal)) =>
          var bytes := ValueAs(first, literal, job);
          if bytes.None? {
            r := Err(LiteralTooBig);
          } else {
            OperandReady(job, opcode, n, symbols0, code0, symbols, code, resolved.value, Immediate(bytes.value));
            code := code + bytes.value;
            r := Ok(false);
          }
        case Ok(SymbolReference(_)) =>
          if first != WordReg {
            r := Err(SymbolNotAllowed);
          } else {
            OperandReady(job, opcode, n, symbols0, code0, symbols, code, resolved.value, Immediate(PLACEHOLDER));
            NothingPushed(code);
            r := Ok(false);
          }
        case Ok(RegRef(register, t)) =>
          if t != first {
            r := Err(WrongRegister);
          } else {
            OperandReady(job, opcode, n, symbols0, code0, symbols, code, resolved.value, Register(register));
            code := code + [register];
            r := Ok(true);
          }
      }
      if r.Err? {
        OperandFails(job, n, r.error);
      }
    }

    // ----- Addressing modes -----

    /** No operands. */
    method GenerateNone(opcode: Byte, operands: seq<OperandValue>) returns (r: Result<(), CodegenError>)
      requires SlotsValid(symbols, code)
      modifies this`symbols, this`code
      ensures Outcome(INone(opcode), operands, old(symbols), old(code), symbols, code, r)
    {
      hide SlotsValid, Uncovered, SameDefinitions, Done, EncodeOperands, Abandoned, Outcome, RegRefType;
      if |operands| != 0 {
        WrongCount(INone(opcode), operands, symbols, code);
        return Err(WrongOperandCount);
      }
      ghost var mode := INone(opcode);
      ghost var job := Job(mode.kinds, operands, symbols, code);
      JobStarts(job, opcode);
      code := code + [opcode];
      Variants(mode.kinds, FirstEncoded(job, 0).value);
      JobEnds(mode, job, opcode, symbols, code);
      return Ok(());
    }

    /** A register and an address. */
    method GenerateBhwfA(opcode: Byte, operands: seq<OperandValue>) returns (r: Result<(), CodegenError>)
      requires SlotsValid(symbols, code) && opcode + 1 < 0x100
      modifies this`symbols, this`code
      ensures Outcome(IBhwfA(opcode), operands, old(symbols), old(code), symbols, code, r)
    {
      hide SlotsValid, Uncovered, SameDefinitions, Done, EncodeOperands, Abandoned, Outcome, RegRefType;
      if |operands| != 2 {
        WrongCount(IBhwfA(opcode), operands, symbols, code);
        return Err(WrongOperandCount);
      }
      ghost var mode := IBhwfA(opcode);
      ghost var job := Job(mode.kinds, operands, symbols, code);
      var position := |code|;
      JobStarts(job, 0);
      code := code + [0];
      var first := PushRegister(operands[0], AnyRegisterKind, None, job, 0, 0);
      if first.Err? {
        JobFails(mode, job, symbols, code, first.error);
        return Err(first.error);
      }
      var second := PushAddress(operands[1], opcode, position, job, 1);
      if second.Err? {
        JobFails(mode, job, symbols, code, second.error);
        return Err(second.error);
      }
      Variants(mode.kinds, FirstEncoded(job, 2).value);
      JobEnds(mode, job, if second.value then opcode + 1 else opcode, symbols, code);
      return Ok(());
    }

    /** An address and a register. */
    method GenerateABhwf(opcode: Byte, operands: seq<OperandValue>) returns (r: Result<(), CodegenError>)
      requires SlotsValid(symbols, code) && opcode + 1 < 0x100
      modifies this`symbols, this`code
      ensures Outcome(IABhwf(opcode), operands, old(symbols), old(code), symbols, code, r)
    {
      hide SlotsValid, Uncovered, SameDefinitions, Done, EncodeOperands, Abandoned, Outcome, RegRefType;
      if |operands| != 2 {
        WrongCount(IABhwf(opcode), operands, symbols, code);
        return Err(WrongOperandCount);
      }
      ghost var mode := IABhwf(opcode);
      ghost var job := Job(mode.kinds, operands, symbols, code);
      var position := |code|;
      JobStarts(job, 0);
      code := code + [0];
      var first := PushAddress(operands[0], opcode, position, job, 0);
      if first.Err? {
        JobFails(mode, job, symbols, code, first.error);
        return Err(first.error);
      }
      ghost var chosen: Byte := if first.value then opcode + 1 else opcode;
      var second := PushRegister(operands[1], AnyRegisterKind, None, job, chosen, 1);
      if second.Err? {
        JobFails(mode, job, symbols, code, second.error);
        return Err(second.error);
      }
      Variants(mode.kinds, FirstEncoded(job, 2).value);
      JobEnds(mode, job, chosen, symbols, code);
      return Ok(());
    }

    /** A register and a source of its type. */
    method GenerateBhwfSource(opcode: Byte, operands: seq<OperandValue>) returns (r: Result<(), CodegenError>)
      requires SlotsValid(symbols, code) && opcode + 1 < 0x100
      modifies this`symbols, this`code
      ensures Outcome(IBhwfSource(opcode), operands, old(symbols), old(code), symbols, code, r)
    {
      hide SlotsValid, Uncovered, SameDefinitions, Done, EncodeOperands, Abandoned, Outcome, RegRefType;
      if |operands| != 2 {
        WrongCount(IBhwfSource(opcode), operands, symbols, code);
        return Err(WrongOperandCount);
      }
      ghost var mode := IBhwfSource(opcode);
      ghost var job := Job(mode.kinds, operands, symbols, code);
      var position := |code|;
      JobStarts(job, 0);
      code := code + [0];
      var first := PushRegister(operands[0], AnyRegisterKind, None, job, 0, 0);
      if first.Err? {
        JobFails(mode, job, symbols, code, first.error);
        return Err(first.error);
      }
      var second := PushSource(operands[1], first.value, job, 0, 1);
      if second.Err? {
        JobFails(mode, job, symbols, code, second.error);
        return Err(second.error);
      }
      Choose(job, position, if second.value then opcode + 1 else opcode, 2);
      Variants(mode.kinds, FirstEncoded(job, 2).value);
      JobEnds(mode, job, if second.value then opcode + 1 else opcode, symbols, code);
      return Ok(());
    }

    /** A register, not a float, and a source of its type. */
    method GenerateBhwSource(opcode: Byte, operands: seq<OperandValue>) returns (r: Result<(), CodegenError>)
      requires SlotsValid(symbols, code) && opcode + 1 < 0x100
      modifies this`symbols, this`code
      ensures Outcome(IBhwSource(opcode), operands, old(symbols), old(code), symbols, code, r)
    {
      hide SlotsValid, Uncovered, SameDefinitions, Done, EncodeOperands, Abandoned, Outcome, RegRefType;
      if |operands| != 2 {
        WrongCount(IBhwSource(opcode), operands, symbols, code);
        return Err(WrongOperandCount);
      }
      ghost var mode := IBhwSource(opcode);
      ghost var job := Job(mode.kinds, operands, symbols, code);
      var position := |code|;
      JobStarts(job, 0);
      code := code + [0];
      var first := PushRegister(operands[0], IntegerRegisterKind, None, job, 0, 0);
      if first.Err? {
        JobFails(mode, job, symbols, code, first.error);
        return Err(first.error);
      }
      var second := PushSource(operands[1], first.value, job, 0, 1);
      if second.Err? {
        JobFails(mode, job, symbols, code, second.error);
        return Err(second.error);
      }
      Choose(job, position, if second.value then opcode + 1 else opcode, 2);
      Variants(mode.kinds, FirstEncoded(job, 2).value);
      JobEnds(mode, job, if second.value then opcode + 1 else opcode, symbols, code);
      return Ok(());
    }

    /** A register, not a float, and a byte. */
    method GenerateBhwB(opcode: Byte, operands: seq<OperandValue>) returns (r: Result<(), CodegenError>)
      requires SlotsValid(symbols, code) && opcode + 1 < 0x100
      modifies this`symbols, this`code
      ensures Outcome(IBhwB(opcode), operands, old(symbols), old(code), symbols, code, r)
    {
      hide SlotsValid, Uncovered, SameDefinitions, Done, EncodeOperands, Abandoned, Outcome, RegRefType;
      if |operands| != 2 {
        WrongCount(IBhwB(opcode), operands, symbols, code);
        return Err(WrongOperandCount);
      }
      ghost var mode := IBhwB(opcode);
      ghost var job := Job(mode.kinds, operands, symbols, code);
      var position := |code|;
      JobStarts(job, 0);
      code := code + [0];
      var first := PushRegister(operands[0], IntegerRegisterKind, None, job, 0, 0);
      if first.Err? {
        JobFails(mode, job, symbols, code, first.error);
        return Err(first.error);
      }
      var second := PushByte(operands[1], job, 0, 1);
      if second.Err? {
        JobFails(mode, job, symbols, code, second.error);
        return Err(second.error);
      }
      Choose(job, position, if second.value then opcode + 1 else opcode, 2);
      Variants(mode.kinds, FirstEncoded(job, 2).value);
      JobEnds(mode, job, if second.value then opcode + 1 else opcode, symbols, code);
      return Ok(());
    }

    /** One register. */
    method GenerateBhwf(opcode: Byte, operands: seq<OperandValue>) returns (r: Result<(), CodegenError>)
      requires SlotsValid(symbols, code)
      modifies this`symbols, this`code
      ensures Outcome(IBhwf(opcode), operands, old(symbols), old(code), symbols, code, r)
    {
      hide SlotsValid, Uncovered, SameDefinitions, Done, EncodeOperands, Abandoned, Outcome, RegRefType;
      if |operands| != 1 {
        WrongCount(IBhwf(opcode), operands, symbols, code);
        return Err(WrongOperandCount);
      }
      ghost var mode := IBhwf(opcode);
      ghost var job := Job(mode.kinds, operands, symbols, code);
      JobStarts(job, opcode);
      code := code + [opcode];
      var first := PushRegister(operands[0], AnyRegisterKind, None, job, opcode, 0);
      if first.Err? {
        JobFails(mode, job, symbols, code, first.error);
        return Err(first.error);
      }
      Variants(mode.kinds, FirstEncoded(job, 1).value);
      JobEnds(mode, job, opcode, symbols, code);
      return Ok(());
    }

    /** One register, not a float. */
    method GenerateBhw(opcode: Byte, operands: seq<OperandValue>) returns (r: Result<(), CodegenError>)
      requires SlotsValid(symbols, code)
      modifies this`symbols, this`code
      ensures Outcome(IBhw(opcode), operands, old(symbols), old(code), symbols, code, r)
    {
      hide SlotsValid, Uncovered, SameDefinitions, Done, EncodeOperands, Abandoned, Outcome, RegRefType;
      if |operands| != 1 {
        WrongCount(IBhw(opcode), operands, symbols, code);
        return Err(WrongOperandCount);
      }
      ghost var mode := IBhw(opcode);
      ghost var job := Job(mode.kinds, operands, symbols, code);
      JobStarts(job, opcode);
      code := code + [opcode];
      var first := PushRegister(operands[0], IntegerRegisterKind, None, job, opcode, 0);
      if first.Err? {
        JobFails(mode, job, symbols, code, first.error);
        return Err(first.error);
      }
      Variants(mode.kinds, FirstEncoded(job, 1).value);
      JobEnds(mode, job, opcode, symbols, code);
      return Ok(());
    }

    /** One address. */
    method GenerateA(opcode: Byte, operands: seq<OperandValue>) returns (r: Result<(), CodegenError>)
      requires SlotsValid(symbols, code) && opcode + 1 < 0x100
      modifies this`symbols, this`code
      ensures Outcome(IA(opcode), operands, old(symbols), old(code), symbols, code, r)
    {
      hide SlotsValid, Uncovered, SameDefinitions, Done, EncodeOperands, Abandoned, Outcome, RegRefType;
      if |operands| != 1 {
        WrongCount(IA(opcode), operands, symbols, code);
        return Err(WrongOperandCount);
      }
      ghost var mode := IA(opcode);
      ghost var job := Job(mode.kinds, operands, symbols, code);
      var position := |code|;
      JobStarts(job, 0);
      code := code + [0];
      var first := PushAddress(operands[0], opcode, position, job, 0);
      if first.Err? {
        JobFails(mode, job, symbols, code, first.error);
        return Err(first.error);
      }
      Variants(mode.kinds, FirstEncoded(job, 1).value);
      JobEnds(mode, job, if first.value then opcode + 1 else opcode, symbols, code);
      return Ok(());
    }

    /** A word and a float register, in either order. */
    method GenerateWfWf(opcode: Byte, operands: seq<OperandValue>) returns (r: Result<(), CodegenError>)
      requires SlotsValid(symbols, code)
      modifies this`symbols, this`code
      ensures Outcome(IWfWf(opcode), operands, old(symbols), old(code), symbols, code, r)
    {
      hide SlotsValid, Uncovered, SameDefinitions, Done, EncodeOperands, Abandoned, Outcome, RegRefType;
      if |operands| != 2 {
        WrongCount(IWfWf(opcode), operands, symbols, code);
        return Err(WrongOperandCount);
      }
      ghost var mode := IWfWf(opcode);
      ghost var job := Job(mode.kinds, operands, symbols, code);
      JobStarts(job, opcode);
      code := code + [opcode];
      var first := PushRegister(operands[0], WordOrFloatKind, None, job, opcode, 0);
      if first.Err? {
        JobFails(mode, job, symbols, code, first.error);
        return Err(first.error);
      }
      var second := PushRegister(operands[1], OppositeKind, Some(first.value), job, opcode, 1);
      if second.Err? {
        JobFails(mode, job, symbols, code, second.error);
        return Err(second.error);
      }
      Variants(mode.kinds, FirstEncoded(job, 2).value);
      JobEnds(mode, job, opcode, symbols, code);
      return Ok(());
    }

    /** A word and two addresses. */
    method GenerateWAA(opcode: Byte, operands: seq<OperandValue>) returns (r: Result<(), CodegenError>)
      requires SlotsValid(symbols, code) && opcode + 7 < 0x100
      modifies this`symbols, this`code
      ensures Outcome(IWAA(opcode), operands, old(symbols), old(code), symbols, code, r)
    {
      hide SlotsValid, Uncovered, SameDefinitions, Done, EncodeOperands, Abandoned, Outcome, RegRefType;
      if |operands| != 3 {
        WrongCount(IWAA(opcode), operands, symbols, code);
        return Err(WrongOperandCount);
      }
      ghost var mode := IWAA(opcode);
      ghost var job := Job(mode.kinds, operands, symbols, code);
      var position := |code|;
      JobStarts(job, 0);
      code := code + [0];
      var first := PushWord(operands[0], job, 0, 0);
      if first.Err? {
        JobFails(mode, job, symbols, code, first.error);
        return Err(first.error);
      }
      var choice := if first.value then 4 else 0;
      var second := PushWord(operands[1], job, 0, 1);
      if second.Err? {
        JobFails(mode, job, symbols, code, second.error);
        return Err(second.error);
      }
      choice := choice + if second.value then 2 else 0;
      var third := PushWord(operands[2], job, 0, 2);
      if third.Err? {
        JobFails(mode, job, symbols, code, third.error);
        return Err(third.error);
      }
      choice := choice + if third.value then 1 else 0;
      Choose(job, position, opcode + choice, 3);
      Variants(mode.kinds, FirstEncoded(job, 3).value);
      JobEnds(mode, job, opcode + choice, symbols, code);
      return Ok(());
    }

    /** A word, an address and a byte. */
    method GenerateWAB(opcode: Byte, operands: seq<OperandValue>) returns (r: Result<(), CodegenError>)
      requires SlotsValid(symbols, code) && opcode + 7 < 0x100
      modifies this`symbols, this`code
      ensures Outcome(IWAB(opcode), operands, old(symbols), old(code), symbols, code, r)
    {
      hide SlotsValid, Uncovered, SameDefinitions, Done, EncodeOperands, Abandoned, Outcome, RegRefType;
      if |operands| != 3 {
        WrongCount(IWAB(opcode), operands, symbols, code);
        return Err(WrongOperandCount);
      }
      ghost var mode := IWAB(opcode);
      ghost var job := Job(mode.kinds, operands, symbols, code);
      var position := |code|;
      JobStarts(job, 0);
      code := code + [0];
      var first := PushWord(operands[0], job, 0, 0);
      if first.Err? {
        JobFails(mode, job, symbols, code, first.error);
        return Err(first.error);
      }
      var choice := if first.value then 4 else 0;
      var second := PushWord(operands[1], job, 0, 1);
      if second.Err? {
        JobFails(mode, job, symbols, code, second.error);
        return Err(second.error);
      }
      choice := choice + if second.value then 2 else 0;
      var third := PushByte(operands[2], job, 0, 2);
      if third.Err? {
        JobFails(mode, job, symbols, code, third.error);
        return Err(third.error);
      }
      choice := choice + if third.value then 1 else 0;
      Choose(job, position, opcode + choice, 3);
      Variants(mode.kinds, FirstEncoded(job, 3).value);
      JobEnds(mode, job, opcode + choice, symbols, code);
      return Ok(());
    }

    /** A word operand whose placeholder, if it is a symbol, comes before the opcode. */
    method GenerateW(opcode: Byte, operands: seq<OperandValue>) returns (r: Result<(), CodegenError>)
      requires SlotsValid(symbols, code) && opcode + 1 < 0x100
      modifies this`symbols, this`code
      ensures Outcome(IW(opcode), operands, old(symbols), old(code), symbols, code, r)
    {
      hide SlotsValid, Abandoned, Outcome, GetRegRef, RegRefType, AddReference;
      if |operands| != 1 {
        WrongCount(IW(opcode), operands, symbols, code);
        return Err(WrongOperandCount);
      }
      ghost var symbols0, code0 := symbols, code;
      var resolved := ResolveOperand(operands[0]);
      if resolved.Err? {
        WFails(opcode, operands, symbols, code, resolved.error);
        return Err(resolved.error);
      }
      match resolved.value {
        case LiteralValue(literal) =>
          code := code + [opcode];
          var bytes := ValueAs(WordReg, literal, Job([], [], symbols, code));
          if bytes.None? {
            WFailsLater(opcode, operands, symbols, code0, UnknownSizeof);
            return Err(UnknownSizeof);
          }
          code := code + bytes.value;
          WWithoutSymbol(opcode, operands, symbols, code0, resolved.value, Immediate(bytes.value));
        case RegRef(register, t) =>
          if t != WordReg {
            WFails(opcode, operands, symbols, code, WrongRegister);
            return Err(WrongRegister);
          }
          code := code + [opcode + 1];
          code := code + [register];
          WWithoutSymbol(opcode, operands, symbols, code0, resolved.value, Register(register));
        case SymbolReference(name) =>
          WWithSymbol(opcode, operands, symbols0, code0, symbols, name);
          code := code + [opcode];
      }
      return Ok(());
    }

    /** Generate code for one instruction. */
    method CodegenInstruction(mnemonic: string, operands: seq<OperandValue>) returns (r: Result<(), CodegenError>)
      requires SlotsValid(symbols, code)
      modifies this`symbols, this`code
      ensures Generated(mnemonic, operands, old(symbols), old(code), symbols, code, r)
    {
      hide SlotsValid, Abandoned, Outcome, PrivilegedMode, BlockMode, DataMode, ArithmeticMode, BitwiseMode, BranchMode, ConditionalMode;
      var known := ModeOf(mnemonic);
      if known.None? {
        return Err(UnrecognisedOpcode);
      }
      var mode := known.value;
      match mode.form {
          case FormNone => r := GenerateNone(mode.opcode, operands);
          case FormW => r := GenerateW(mode.opcode, operands);
          case FormBhwfA => r := GenerateBhwfA(mode.opcode, operands);
          case FormABhwf => r := GenerateABhwf(mode.opcode, operands);
          case FormBhwfSource => r := GenerateBhwfSource(mode.opcode, operands);
          case FormBhwf => r := GenerateBhwf(mode.opcode, operands);
          case FormWAA => r := GenerateWAA(mode.opcode, operands);
          case FormWAB => r := GenerateWAB(mode.opcode, operands);
          case FormWfWf => r := GenerateWfWf(mode.opcode, operands);
          case FormBhwSource => r := GenerateBhwSource(mode.opcode, operands);
          case FormBhw => r := GenerateBhw(mode.opcode, operands);
          case FormBhwB => r := GenerateBhwB(mode.opcode, operands);
          case FormA => r := GenerateA(mode.opcode, operands);
      }
    }

    // ----- The whole program -----

    /** Labels before the instruction come to stand for the current end of the code. */
    method ResolveLabels(instruction: nat)
      modifies this`symbols
      ensures symbols == LabelsResolved(old(symbols), instruction, |code|)
    {
      var rest := symbols.Keys;
      while rest != {}
        invariant rest <= symbols.Keys == old(symbols).Keys
        invariant forall name :: name in symbols ==>
          symbols[name] == if name in rest then old(symbols)[name] else Located(old(symbols)[name], instruction, |code|)
      {
        var name :| name in rest;
        symbols := symbols[name := Located(symbols[name], instruction, |code|)];
        rest := rest - {name};
      }
    }

    /** Generate the program. Errors are collected, one for each instruction that has no encoding; if
        there are none, the code is that of the encoded program, and the symbol table has been given
        exactly its labels' offsets and its references. The slots are valid in any case. */
    method Codegen(program: seq<SourceInstruction>) returns (ghost list: seq<Emitted>)
      requires SlotsValid(symbols, code) && code == [] && errors == []
      modifies this
      ensures SlotsValid(symbols, code) && EnvironmentOf(symbols) == EnvironmentOf(old(symbols))
      ensures LabelsDone(symbols, |program|)
      ensures errors == ErrorsOf(program, EnvironmentOf(old(symbols)), |program|)
      ensures errors == [] ==> Complete(old(symbols), program, list, symbols, code)
    {
      hide SlotsValid, Encode, Generated, LabelsResolved, EnvironmentOf;
      list := [];
      ghost var env := EnvironmentOf(symbols);
      for i := 0 to |program|
        invariant SlotsValid(symbols, code) && EnvironmentOf(symbols) == env && LabelsDone(symbols, i)
        invariant errors == ErrorsOf(program, env, i)
        invariant errors == [] ==> Complete(old(symbols), program[..i], list, symbols, code)
      {
        list := CodegenNext(program, i, list, env, old(symbols));
      }
      assert program[..|program|] == program;
    }

    method CodegenNext(program: seq<SourceInstruction>, i: nat, ghost list: seq<Emitted>, ghost env: Environment, ghost symbols0: Symbols)
      returns (ghost longer: seq<Emitted>)
      requires i < |program|
      requires SlotsValid(symbols, code) && EnvironmentOf(symbols) == env && LabelsDone(symbols, i)
      requires errors == ErrorsOf(program, env, i)
      requires errors == [] ==> Complete(symbols0, program[..i], list, symbols, code)
      modifies this
      ensures SlotsValid(symbols, code) && EnvironmentOf(symbols) == env && var m := i + 1; LabelsDone(symbols, m)
      ensures var m := i + 1; errors == ErrorsOf(program, env, m)
      ensures var m := i + 1; errors == [] ==> Complete(symbols0, program[..m], longer, symbols, code)
    {
      hide SlotsValid, Encode, LabelsResolved, EnvironmentOf, LabelsDone;
      ghost var symbolsBefore, codeBefore := symbols, code;
      LabelsResolvedKeeps(symbols, i, |code|, code);
      LabelsResolvedDone(symbols, i, |code|);
      ResolveLabels(i);
      var r := CodegenInstruction(program[i].mnemonic, program[i].operands);
      GeneratedKeeps(program[i], LabelsResolved(symbolsBefore, i, |codeBefore|), codeBefore, symbols, code, r, i + 1);
      longer := list;
      if r.Err? {
        errors := errors + [r.error];
      } else {
        ghost var x := Emitted(program[i].mnemonic, Encode(program[i].mnemonic, program[i].operands, env).value);
        longer := list + [x];
        if errors == [] {
          CompleteOneMore(symbols0, program, i, list, x, symbolsBefore, codeBefore, symbols, code);
        }
      }
    }
  }

  lemma RegisterHasType(operand: OperandValue, env: Environment, register: Byte, t: RegisterType)
    requires Resolve(operand, env) == Ok(RegRef(register, t))
    ensures RegRefType(register) == Some(t)
  {
    hide RegRefType;
  }
}
