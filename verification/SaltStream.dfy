/** Whole programs: the code generated for a list of instructions, decoded from its first byte. */
module SaltStream {
  import opened Bytes
  import opened Wrappers
  import opened InstructionSet
  import opened SaltEncoding

  datatype SourceInstruction = SourceInstruction(mnemonic: string, operands: seq<OperandValue>)

  /** An instruction as it was emitted. */
  datatype Emitted = Emitted(name: string, encoding: Encoding)

  /** The code of the first `n` instructions. */
  function CodeOf(list: seq<Emitted>, n: nat): seq<Byte>
    requires n <= |list|
  {
    if n == 0 then [] else CodeOf(list, n - 1) + EncodingBytes(list[n - 1].encoding)
  }

  /** Where instruction `n` starts. */
  function Offset(list: seq<Emitted>, n: nat): nat
    requires n <= |list|
  {
    |CodeOf(list, n)|
  }

  function Code(list: seq<Emitted>): seq<Byte> {
    CodeOf(list, |list|)
  }

  /** What the CPU should see for the instructions from number `i` on. */
  function Expected(list: seq<Emitted>, i: nat): (all: seq<Instruction>)
    requires i <= |list|
    ensures |all| == |list| - i
    decreases |list| - i
  {
    if i == |list| then [] else [Instruction(list[i].name, list[i].encoding.operands)] + Expected(list, i + 1)
  }

  /** Either the CPU can decode the instruction, or it is a timer whose placeholder came first. */
  ghost predicate Sound(x: Emitted) {
    match x case Emitted(name, encoding) =>
      if encoding.opcodeLast then name == "timer" && |EncodingBytes(encoding)| > 0 && EncodingBytes(encoding)[0] == 0
      else Decodable(name, encoding.opcode, encoding.operands)
  }

  ghost predicate AllSound(list: seq<Emitted>) {
    forall i {:trigger Sound(list[i])} :: 0 <= i < |list| ==> Sound(list[i])
  }

  lemma {:induction false} CodeGrows(list: seq<Emitted>, i: nat, n: nat)
    requires i <= n <= |list|
    ensures CodeOf(list, i) <= CodeOf(list, n)
    decreases n
  {
    hide EncodingBytes;
    if i < n {
      CodeGrows(list, i, n - 1);
      PrefixExtends(CodeOf(list, i), CodeOf(list, n - 1), EncodingBytes(list[n - 1].encoding));
    }
  }

  lemma PrefixExtends(a: seq<Byte>, b: seq<Byte>, more: seq<Byte>)
    requires a <= b
    ensures a <= b + more
  {}

  lemma PrefixTail(a: seq<Byte>, b: seq<Byte>, code: seq<Byte>)
    requires a + b <= code
    ensures |a| <= |code| && b <= code[|a|..]
  {
    assert b == (a + b)[|a|..];
  }

  lemma OffsetInCode(list: seq<Emitted>, i: nat)
    requires i <= |list|
    ensures Offset(list, i) <= |Code(list)|
  {
    CodeGrows(list, i, |list|);
  }

  /** The bytes at the offset of instruction `i` are its encoding. */
  lemma EncodingInPlace(list: seq<Emitted>, i: nat)
    requires i < |list|
    ensures Offset(list, i) <= |Code(list)|
    ensures EncodingBytes(list[i].encoding) <= Code(list)[Offset(list, i)..]
    ensures Offset(list, i + 1) == Offset(list, i) + |EncodingBytes(list[i].encoding)|
  {
    CodeGrows(list, i + 1, |list|);
    PrefixTail(CodeOf(list, i), EncodingBytes(list[i].encoding), Code(list));
  }

  lemma HaltDecodes(code: seq<Byte>, p: nat)
    requires p < |code| && code[p] == 0
    ensures DecodeAt(code, p) == Some(Step(Instruction("halt", []), p + 1))
  {
    assert FetchOperands(code, p + 1, [], []) == Some(Decoded([], p + 1));
  }

  /** One step of decoding at the offset of an instruction. */
  lemma DecodesStep(list: seq<Emitted>, i: nat)
    requires i < |list| && Sound(list[i])
    ensures Offset(list, i) < |Code(list)|
    ensures DecodeAt(Code(list), Offset(list, i))
         == Some(if list[i].encoding.opcodeLast then Step(Instruction("halt", []), Offset(list, i) + 1)
                 else Step(Instruction(list[i].name, list[i].encoding.operands), Offset(list, i + 1)))
  {
    hide HandlerOf, FetchOperands, DecodeAt, Decodable, OperandsBytes, Code, CodeOf, Offset;
    var code, p, bytes := Code(list), Offset(list, i), EncodingBytes(list[i].encoding);
    EncodingInPlace(list, i);
    if list[i].encoding.opcodeLast {
      assert code[p] == code[p..][0] == bytes[0];
      HaltDecodes(code, p);
    } else {
      DecodableDecodes(list[i].name, code, p, list[i].encoding);
    }
  }

  lemma DecodeAllStep(code: seq<Byte>, p: nat, step: Step)
    requires p < |code| && DecodeAt(code, p) == Some(step)
    ensures step.next <= |code|
    ensures DecodeAll(code, step.next).None? ==> DecodeAll(code, p).None?
    ensures DecodeAll(code, step.next).Some? ==>
      DecodeAll(code, p) == Some([step.instruction] + DecodeAll(code, step.next).value)
  {}

  lemma NothingLeft(list: seq<Emitted>)
    ensures Offset(list, |list|) == |Code(list)|
    ensures DecodeAll(Code(list), |Code(list)|) == Some([])
  {}

  lemma {:induction false} DecodesFrom(list: seq<Emitted>, i: nat)
    requires AllSound(list) && i <= |list|
    requires forall k :: i <= k < |list| ==> !list[k].encoding.opcodeLast
    ensures Offset(list, i) <= |Code(list)|
    ensures DecodeAll(Code(list), Offset(list, i)) == Some(Expected(list, i))
    decreases |list| - i
  {
    hide HandlerOf, FetchOperands, DecodeAt, DecodeAll, Decodable, EncodingBytes, OperandsBytes, Code, CodeOf, Offset;
    if i < |list| {
      assert Sound(list[i]);
      DecodesFrom(list, i + 1);
      DecodesStep(list, i);
      DecodeAllStep(Code(list), Offset(list, i),
                    Step(Instruction(list[i].name, list[i].encoding.operands), Offset(list, i + 1)));
    } else {
      NothingLeft(list);
    }
  }

  lemma TailsDiffer(x: Instruction, a: seq<Instruction>, b: seq<Instruction>)
    requires a != b
    ensures [x] + a != [x] + b
  {
    assert ([x] + a)[1..] == a && ([x] + b)[1..] == b;
  }

  /** From the first timer with a symbol on, decoding goes astray. */
  lemma {:induction false} GoesAstray(list: seq<Emitted>, i: nat, bad: nat)
    requires AllSound(list) && i <= bad < |list| && list[bad].encoding.opcodeLast
    requires forall k :: i <= k < bad ==> !list[k].encoding.opcodeLast
    ensures Offset(list, i) <= |Code(list)|
    ensures DecodeAll(Code(list), Offset(list, i)) != Some(Expected(list, i))
    decreases bad - i
  {
    hide HandlerOf, FetchOperands, DecodeAt, DecodeAll, Decodable, EncodingBytes, OperandsBytes, Code, CodeOf, Offset;
    var code, p := Code(list), Offset(list, i);
    assert Sound(list[i]);
    DecodesStep(list, i);
    var step := DecodeAt(code, p).value;
    DecodeAllStep(code, p, step);
    if i < bad {
      GoesAstray(list, i + 1, bad);
      if DecodeAll(code, step.next).Some? {
        TailsDiffer(step.instruction, DecodeAll(code, step.next).value, Expected(list, i + 1));
      }
    } else {
      assert Expected(list, i)[0].name == "timer";
    }
  }

  lemma {:induction false} FirstOpcodeLast(list: seq<Emitted>, i: nat) returns (bad: nat)
    requires exists k :: i <= k < |list| && list[k].encoding.opcodeLast
    ensures i <= bad < |list| && list[bad].encoding.opcodeLast
    ensures forall k :: i <= k < bad ==> !list[k].encoding.opcodeLast
    decreases |list| - i
  {
    if list[i].encoding.opcodeLast {
      bad := i;
    } else {
      bad := FirstOpcodeLast(list, i + 1);
    }
  }

  lemma EmittedRoundTrip(list: seq<Emitted>)
    requires AllSound(list)
    ensures DecodeAll(Code(list), 0) == Some(Expected(list, 0))
       <==> forall k :: 0 <= k < |list| ==> !list[k].encoding.opcodeLast
  {
    if forall k :: 0 <= k < |list| ==> !list[k].encoding.opcodeLast {
      DecodesFrom(list, 0);
    } else {
      var bad := FirstOpcodeLast(list, 0);
      GoesAstray(list, 0, bad);
    }
  }

  lemma BoundaryStep(code: seq<Byte>, from: nat, p: nat)
    requires from < |code| && DecodeAt(code, from).Some?
    requires IsBoundary(code, DecodeAt(code, from).value.next, p)
    ensures IsBoundary(code, from, p)
  {}

  lemma StartIsBoundary(code: seq<Byte>, p: nat)
    requires p <= |code|
    ensures IsBoundary(code, p, p)
  {}

  /** Decoding reaches the offset of every later instruction. */
  lemma {:induction false} OffsetsAreBoundaries(list: seq<Emitted>, i: nat, n: nat)
    requires AllSound(list) && i <= n <= |list|
    requires forall k :: 0 <= k < |list| ==> !list[k].encoding.opcodeLast
    ensures Offset(list, i) <= |Code(list)|
    ensures IsBoundary(Code(list), Offset(list, i), Offset(list, n))
    decreases n - i
  {
    hide HandlerOf, FetchOperands, DecodeAt, IsBoundary, Decodable, EncodingBytes, OperandsBytes, Code, CodeOf, Offset;
    if i < n {
      assert Sound(list[i]);
      DecodesStep(list, i);
      OffsetsAreBoundaries(list, i + 1, n);
      BoundaryStep(Code(list), Offset(list, i), Offset(list, n));
    } else {
      OffsetInCode(list, i);
      StartIsBoundary(Code(list), Offset(list, i));
    }
  }

  // ----- Source programs -----

  /** `list` is what the instructions of the program encode to. */
  ghost predicate Encodes(program: seq<SourceInstruction>, env: Environment, list: seq<Emitted>) {
    && |list| == |program|
    && forall i {:trigger EncodesAt(program, env, list, i)} :: 0 <= i < |program| ==> EncodesAt(program, env, list, i)
  }

  ghost predicate EncodesAt(program: seq<SourceInstruction>, env: Environment, list: seq<Emitted>, i: nat)
    requires i < |program| && i < |list|
  {
    match program[i] case SourceInstruction(mnemonic, operands) => EncodesTo(mnemonic, operands, env, list[i])
  }

  ghost predicate EncodesTo(mnemonic: string, operands: seq<OperandValue>, env: Environment, x: Emitted) {
    match x case Emitted(name, encoding) => name == mnemonic && Encode(mnemonic, operands, env) == Ok(encoding)
  }

  /** A timer instruction given a symbol. */
  predicate IsTimerSymbol(instruction: SourceInstruction, env: Environment) {
    match instruction case SourceInstruction(mnemonic, operands) =>
      mnemonic == "timer" && |operands| == 1 && IsSymbol(operands[0], env)
  }

  lemma EncodedIsSound(mnemonic: string, operands: seq<OperandValue>, env: Environment, x: Emitted)
    requires EncodesTo(mnemonic, operands, env, x)
    ensures Sound(x)
    ensures x.encoding.opcodeLast <==> IsTimerSymbol(SourceInstruction(mnemonic, operands), env)
  {
    OpcodeLastIsTimer(mnemonic);
    if x.encoding.opcodeLast {
      PlaceholderIsFirst(operands, env, x.encoding);
    } else {
      EncodedDecodable(mnemonic, operands, env);
    }
  }

  lemma ProgramIsSound(program: seq<SourceInstruction>, env: Environment, list: seq<Emitted>)
    requires Encodes(program, env, list)
    ensures AllSound(list)
    ensures forall i :: 0 <= i < |list| ==> (list[i].encoding.opcodeLast <==> IsTimerSymbol(program[i], env))
  {
    forall i | 0 <= i < |list|
      ensures Sound(list[i]) && (list[i].encoding.opcodeLast <==> IsTimerSymbol(program[i], env))
    {
      assert EncodesAt(program, env, list, i);
      EncodedIsSound(program[i].mnemonic, program[i].operands, env, list[i]);
    }
  }

  /** Decoding the generated code from offset 0 gives back every instruction with its operands, in
      order, and consumes every byte, exactly when no timer instruction is given a symbol. */
  lemma StreamRoundTrip(program: seq<SourceInstruction>, env: Environment, list: seq<Emitted>)
    requires Encodes(program, env, list)
    ensures DecodeAll(Code(list), 0) == Some(Expected(list, 0))
       <==> forall i :: 0 <= i < |program| ==> !IsTimerSymbol(program[i], env)
  {
    ProgramIsSound(program, env, list);
    EmittedRoundTrip(list);
    assert (forall k :: 0 <= k < |list| ==> !list[k].encoding.opcodeLast)
        <==> forall i :: 0 <= i < |program| ==> !IsTimerSymbol(program[i], env);
  }

  /** The failing instance: a timer set from the undefined symbol `foo`. Its placeholder comes first, and
      the CPU decodes a `halt` there. */
  lemma TimerSymbolMisdecodes() returns (list: seq<Emitted>)
    ensures Encodes([SourceInstruction("timer", [Ident("foo")])], Environment(map[], map[]), list)
    ensures Code(list) == [0, 0, 0, 0, 0x02]
    ensures DecodeAt(Code(list), 0) == Some(Step(Instruction("halt", []), 1))
    ensures DecodeAll(Code(list), 0) != Some(Expected(list, 0))
  {
    var program, env := [SourceInstruction("timer", [Ident("foo")])], Environment(map[], map[]);
    var encoding := Encoding(0x02, [Immediate(PLACEHOLDER)], true);
    list := [Emitted("timer", encoding)];
    TimerSymbolEncodes(env);
    assert EncodesAt(program, env, list, 0);
    assert IsTimerSymbol(program[0], env);
    StreamRoundTrip(program, env, list);
    hide Encodes, EncodesTo, IsTimerSymbol, DecodeAll, Expected;
    assert OperandsBytes(encoding.operands, 1) == [] && OperandsBytes(encoding.operands, 0) == PLACEHOLDER;
    assert CodeOf(list, 0) == [] && CodeOf(list, 1) == EncodingBytes(encoding) == [0, 0, 0, 0, 0x02];
    assert HandlerOf(0x00) == Some(Handler("halt", []));
  }

  lemma NoSuchRegister(name: string)
    requires |name| == 3 && name[0] == 'f'
    ensures GetRegRef(name).None?
  {}

  lemma TimerSymbolEncodes(env: Environment)
    requires env == Environment(map[], map[])
    ensures Encode("timer", [Ident("foo")], env) == Ok(Encoding(0x02, [Immediate(PLACEHOLDER)], true))
  {
    var kinds, operands := IW(0x02).kinds, [Ident("foo")];
    NoSuchRegister("foo");
    hide GetRegRef;
    assert Resolve(Ident("foo"), env) == Ok(SymbolReference("foo"));
    assert EncodeOperands(kinds, operands, env, 0) == Ok([]);
    assert [] + [Immediate(PLACEHOLDER)] == [Immediate(PLACEHOLDER)];
    assert EncodeOperands(kinds, operands, env, 1) == Ok([Immediate(PLACEHOLDER)]);
    OpcodeLastIsTimer("timer");
    assert Variant(kinds, [Immediate(PLACEHOLDER)], 1) == Variant(kinds, [Immediate(PLACEHOLDER)], 0);
    assert OpcodeFor(IW(0x02), [Immediate(PLACEHOLDER)]) == 0x02;
    hide EncodeOperands, OpcodeFor, ModeOf;
    assert EncodeMode(IW(0x02), operands, env) == Ok(Encoding(0x02, [Immediate(PLACEHOLDER)], true));
  }
}
