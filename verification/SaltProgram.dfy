/** What a generated program means: where its labels point, what its references are, and how the CPU
    reads its code. */
module SaltProgram {
  import opened Bytes
  import opened Wrappers
  import opened InstructionSet
  import opened SaltEncoding
  import opened SaltStream
  import opened SaltSymbols
  import opened SaltCodegen
  import opened RegisterAccess

  // ----- References -----

  ghost function ReferencesTo(symbols: Symbols, name: string): seq<nat> {
    if name in symbols then References(symbols[name]) else []
  }

  /** Operand `k` of an instruction whose operands start at `start` names the symbol, and its four
      bytes are at `r`. */
  ghost predicate NamesAt(
    operands: seq<OperandValue>, encoded: seq<Operand>, env: Environment, start: nat, k: nat, name: string, r: nat)
  {
    && k < |operands| && k < |encoded|
    && SymbolNamed(operands[k], env) == Some(name)
    && r == start + |FirstBytes(encoded, k)|
  }

  ghost predicate SomeNames(
    operands: seq<OperandValue>, encoded: seq<Operand>, env: Environment, start: nat, n: nat, name: string, r: nat)
  {
    exists k :: 0 <= k < n && NamesAt(operands, encoded, env, start, k, name, r)
  }

  ghost predicate NoConstant(symbols: Symbols, env: Environment) {
    forall name :: name in symbols && symbols[name].ConstantSymbol? ==> name in env.constants
  }

  lemma AddedReference(symbols: Symbols, name: string, position: nat, other: string, r: nat)
    requires name in symbols ==> !symbols[name].ConstantSymbol?
    ensures r in ReferencesTo(AddReference(symbols, name, position), other)
       <==> r in ReferencesTo(symbols, other) || (other == name && r == position)
  {}

  lemma NamedIsNotConstant(operand: OperandValue, env: Environment, symbols: Symbols)
    requires NoConstant(symbols, env) && SymbolNamed(operand, env).Some?
    ensures var name := SymbolNamed(operand, env).value; name in symbols ==> !symbols[name].ConstantSymbol?
  {
    hide GetRegRef;
  }

  lemma {:induction false} ReferencedExactly(
    symbols: Symbols, operands: seq<OperandValue>, encoded: seq<Operand>, env: Environment, start: nat, n: nat,
    name: string, r: nat)
    requires n <= |operands| && n <= |encoded| && NoConstant(symbols, env)
    ensures r in ReferencesTo(Referenced(symbols, operands, encoded, env, start, n), name)
       <==> r in ReferencesTo(symbols, name) || SomeNames(operands, encoded, env, start, n, name, r)
    ensures NoConstant(Referenced(symbols, operands, encoded, env, start, n), env)
  {
    hide SymbolNamed, FirstBytes, ReferencesTo, AddReference;
    if n > 0 {
      var before := Referenced(symbols, operands, encoded, env, start, n - 1);
      ReferencedExactly(symbols, operands, encoded, env, start, n - 1, name, r);
      var named := SymbolNamed(operands[n - 1], env);
      if named.Some? {
        var position := start + |FirstBytes(encoded, n - 1)|;
        NamedIsNotConstant(operands[n - 1], env, before);
        AddedReference(before, named.value, position, name, r);
        AddedKeepsNoConstant(before, named.value, position, env);
      }
      assert NamesAt(operands, encoded, env, start, n - 1, name, r)
        <==> named == Some(name) && r == start + |FirstBytes(encoded, n - 1)|;
    }
  }

  lemma AddedKeepsNoConstant(symbols: Symbols, name: string, position: nat, env: Environment)
    requires NoConstant(symbols, env)
    ensures NoConstant(AddReference(symbols, name, position), env)
  {}

  /** Some operand of instruction `i` of the program names the symbol, with its placeholder at `r`. */
  ghost predicate RefersTo(program: seq<SourceInstruction>, env: Environment, list: seq<Emitted>, i: nat, name: string, r: nat)
  {
    && i < |program| && i < |list|
    && OperandRefersTo(program[i].operands, list[i].encoding, env, Offset(list, i), name, r)
  }

  /** Where the first operand of an encoding at `offset` is. */
  function FirstOperand(e: Encoding, offset: nat): nat {
    if e.opcodeLast then offset else offset + 1
  }

  ghost predicate OperandRefersTo(
    operands: seq<OperandValue>, e: Encoding, env: Environment, offset: nat, name: string, r: nat)
  {
    |operands| == |e.operands| && SomeNames(operands, e.operands, env, FirstOperand(e, offset), |operands|, name, r)
  }

  /** One of the first `n` instructions names the symbol, with its placeholder at `r`. */
  ghost predicate SomeRefersTo(program: seq<SourceInstruction>, env: Environment, list: seq<Emitted>, n: nat, name: string, r: nat)
  {
    exists i :: 0 <= i < n && RefersTo(program, env, list, i, name, r)
  }

  lemma ReferencedByExactly(symbols: Symbols, operands: seq<OperandValue>, e: Encoding, offset: nat, name: string, r: nat)
    requires NoConstant(symbols, EnvironmentOf(symbols))
    ensures r in ReferencesTo(ReferencedBy(symbols, operands, e, offset), name)
       <==> r in ReferencesTo(symbols, name) || OperandRefersTo(operands, e, EnvironmentOf(symbols), offset, name, r)
    ensures EnvironmentOf(ReferencedBy(symbols, operands, e, offset)) == EnvironmentOf(symbols)
  {
    hide EnvironmentOf, SomeNames, ReferencesTo;
    if |operands| == |e.operands| {
      var start := FirstOperand(e, offset);
      ReferencedExactly(symbols, operands, e.operands, EnvironmentOf(symbols), start, |operands|, name, r);
      ReferencedKeepsDefinitions(symbols, operands, e.operands, EnvironmentOf(symbols), start, |operands|);
      SameEnvironment(symbols, ReferencedBy(symbols, operands, e, offset));
    }
  }

  lemma LocatedReferences(symbols: Symbols, instruction: nat, offset: nat, name: string)
    ensures ReferencesTo(LabelsResolved(symbols, instruction, offset), name) == ReferencesTo(symbols, name)
  {}

  lemma EnvironmentHasConstants(symbols: Symbols)
    ensures NoConstant(symbols, EnvironmentOf(symbols))
  {}

  /** The references of a generated program are exactly the operands that name a symbol, each at its
      own place in its instruction's code. */
  lemma {:induction false} ReferencesExactly(
    symbols: Symbols, program: seq<SourceInstruction>, list: seq<Emitted>, n: nat, name: string, r: nat)
    requires n <= |program| == |list| && Unreferenced(symbols)
    ensures r in ReferencesTo(SymbolsAfter(symbols, program, list, n), name)
       <==> SomeRefersTo(program, EnvironmentOf(symbols), list, n, name, r)
    ensures EnvironmentOf(SymbolsAfter(symbols, program, list, n)) == EnvironmentOf(symbols)
  {
    hide EnvironmentOf, LabelsResolved, ReferencedBy, OperandRefersTo, Offset;
    if n > 0 {
      ReferencesExactly(symbols, program, list, n - 1, name, r);
      var before := SymbolsAfter(symbols, program, list, n - 1);
      var offset := Offset(list, n - 1);
      var located := LabelsResolved(before, n - 1, offset);
      LabelsResolvedKeeps(before, n - 1, offset, []);
      LocatedReferences(before, n - 1, offset, name);
      EnvironmentHasConstants(located);
      ReferencedByExactly(located, program[n - 1].operands, list[n - 1].encoding, offset, name, r);
      assert RefersTo(program, EnvironmentOf(symbols), list, n - 1, name, r)
        <==> OperandRefersTo(program[n - 1].operands, list[n - 1].encoding, EnvironmentOf(symbols), offset, name, r);
    }
  }

  // ----- Labels -----

  /** The name is a label at the given location. */
  ghost predicate LabelIs(symbols: Symbols, name: string, location: LabelLocation) {
    name in symbols && symbols[name].LabelSymbol? && symbols[name].location == location
  }

  lemma ReferencedByKeepsLabel(symbols: Symbols, operands: seq<OperandValue>, e: Encoding, offset: nat, name: string, location: LabelLocation)
    requires LabelIs(symbols, name, location)
    ensures LabelIs(ReferencedBy(symbols, operands, e, offset), name, location)
  {
    hide Referenced;
    if |operands| == |e.operands| {
      ReferencedKeepsDefinitions(
        symbols, operands, e.operands, EnvironmentOf(symbols), FirstOperand(e, offset), |operands|);
    }
  }

  /** A label stands for the offset at which the code of its instruction begins. */
  lemma {:induction false} LabelsAtOffsets(
    symbols: Symbols, program: seq<SourceInstruction>, list: seq<Emitted>, n: nat, name: string, instruction: nat)
    requires n <= |program| == |list| && instruction < |program|
    requires LabelIs(symbols, name, Before(instruction))
    ensures LabelIs(SymbolsAfter(symbols, program, list, n), name,
                    if instruction < n then AtOffset(Offset(list, instruction)) else Before(instruction))
  {
    hide ReferencedBy, Offset;
    if n > 0 {
      LabelsAtOffsets(symbols, program, list, n - 1, name, instruction);
      var before := SymbolsAfter(symbols, program, list, n - 1);
      ReferencedByKeepsLabel(
        LabelsResolved(before, n - 1, Offset(list, n - 1)), program[n - 1].operands, list[n - 1].encoding,
        Offset(list, n - 1), name, if instruction < n then AtOffset(Offset(list, instruction)) else Before(instruction));
    }
  }

  // ----- Code -----

  lemma {:induction false} ExpectedAt(list: seq<Emitted>, i: nat, k: nat)
    requires i <= k < |list|
    ensures Expected(list, i)[k - i] == Instruction(list[k].name, list[k].encoding.operands)
    decreases |list| - i
  {
    if i < k {
      ExpectedAt(list, i + 1, k);
    }
  }

  /** Instruction `i` as decoded has the source's mnemonic, and its operands stand for the source's. */
  ghost predicate StandsForSource(source: SourceInstruction, env: Environment, decoded: Instruction) {
    && decoded.name == source.mnemonic && |decoded.operands| == |source.operands|
    && forall k :: 0 <= k < |source.operands| ==>
         && Resolve(source.operands[k], env).Ok?
         && StandsFor(decoded.operands[k], Resolve(source.operands[k], env).value, env)
         && NamesRegister(source.operands[k], decoded.operands[k])
  }

  /** What the CPU is expected to decode is what the source says. */
  lemma DecodedStandsForSource(program: seq<SourceInstruction>, env: Environment, list: seq<Emitted>, i: nat)
    requires Encodes(program, env, list) && i < |program|
    ensures StandsForSource(program[i], env, Expected(list, 0)[i])
  {
    hide Resolve, StandsFor, EncodeOperand, ModeOf, OpcodeFor;
    ExpectedAt(list, 0, i);
    assert EncodesAt(program, env, list, i);
    var mode := ModeOf(program[i].mnemonic).value;
    EncodedOperandsStandFor(mode.kinds, program[i].operands, env, |program[i].operands|);
    hide NamesRegister;
    forall k | 0 <= k < |program[i].operands| ensures NamesRegister(program[i].operands[k], list[i].encoding.operands[k]) {
      EncodedNamesRegister(program[i].operands[k], env, list[i].encoding.operands[k]);
    }
  }

  /** A program without timer-on-symbol instructions: the CPU reads back every instruction and operand,
      every label is the start of an instruction, and the references are the symbol operands. */
  lemma GeneratedProgramMeans(
    symbols: Symbols, program: seq<SourceInstruction>, list: seq<Emitted>, symbols': Symbols, code: seq<Byte>)
    requires Complete(symbols, program, list, symbols', code) && Unreferenced(symbols)
    requires forall i :: 0 <= i < |program| ==> !IsTimerSymbol(program[i], EnvironmentOf(symbols))
    ensures DecodeAll(code, 0) == Some(Expected(list, 0))
    ensures forall name, instruction: nat :: LabelIs(symbols, name, Before(instruction)) && instruction < |program| ==>
      && LabelIs(symbols', name, AtOffset(Offset(list, instruction)))
      && IsBoundary(code, 0, Offset(list, instruction))
    ensures forall name, r: nat ::
      r in ReferencesTo(symbols', name) <==> SomeRefersTo(program, EnvironmentOf(symbols), list, |program|, name, r)
  {
    hide EnvironmentOf, SymbolsAfter, Code, Offset, LabelIs, SomeRefersTo, IsBoundary, DecodeAll, ReferencesTo;
    StreamRoundTrip(program, EnvironmentOf(symbols), list);
    ProgramIsSound(program, EnvironmentOf(symbols), list);
    StartsAtZero(list);
    forall name, instruction: nat | LabelIs(symbols, name, Before(instruction)) && instruction < |program|
      ensures LabelIs(symbols', name, AtOffset(Offset(list, instruction))) && IsBoundary(code, 0, Offset(list, instruction))
    {
      LabelsAtOffsets(symbols, program, list, |program|, name, instruction);
      OffsetsAreBoundaries(list, 0, instruction);
    }
    forall name, r: nat
      ensures r in ReferencesTo(symbols', name)
         <==> SomeRefersTo(program, EnvironmentOf(symbols), list, |program|, name, r)
    {
      ReferencesExactly(symbols, program, list, |program|, name, r);
    }
  }

  lemma StartsAtZero(list: seq<Emitted>)
    ensures Offset(list, 0) == 0
  {}
}
