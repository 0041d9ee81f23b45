/** The assembler as a whole: instructions to code, code to file, file to the linker. */
module Assembling {
  import opened Bytes
  import opened Wrappers
  import opened ObjectData
  import opened SaltEncoding
  import opened SaltStream
  import opened SaltSymbols
  import opened SaltCodegen
  import opened SaltProgram
  import opened SaltLayout
  import opened SilkParser
  import opened SaltToSilk
  import opened SaltRoundTrip
  import Program

  /** A fresh symbol table: no references yet, every label stands before an instruction of the
      program, and every data item has its declared size. */
  ghost predicate Fresh(symbols: Symbols, instructions: nat) {
    Unreferenced(symbols) && forall name :: name in symbols ==> FreshSymbol(symbols[name], instructions)
  }

  ghost predicate FreshSymbol(symbol: Symbol, instructions: nat) {
    match symbol
    case DataSymbol(_, _, size, initialiser, _) => size == |initialiser|
    case LabelSymbol(_, location, _) => location.Before? && location.instruction < instructions
    case _ => true
  }

  /** The definitions stay as they are, except that labels get their offsets. */
  ghost predicate Grown(before: Symbols, after: Symbols) {
    forall name :: name in after ==> GrownSymbol(before, name, after[name])
  }

  ghost predicate GrownSymbol(before: Symbols, name: string, symbol: Symbol) {
    match symbol
    case ConstantSymbol(_, _) => name in before && before[name].ConstantSymbol?
    case DataSymbol(_, _, size, initialiser, _) =>
      name in before && before[name].DataSymbol? && before[name].size == size && before[name].initialiser == initialiser
    case LabelSymbol(_, _, _) => name in before && before[name].LabelSymbol?
    case ExternalSymbol(_) => true
  }

  lemma ReferencedByGrows(symbols0: Symbols, symbols: Symbols, operands: seq<OperandValue>, e: Encoding, start: nat)
    requires Grown(symbols0, symbols)
    ensures Grown(symbols0, ReferencedBy(symbols, operands, e, start))
  {
    hide Referenced, EnvironmentOf;
    if |operands| == |e.operands| {
      ReferencedKeepsDefinitions(
        symbols, operands, e.operands, EnvironmentOf(symbols), if e.opcodeLast then start else start + 1, |operands|);
    }
  }

  lemma {:induction false} SymbolsAfterGrow(symbols: Symbols, program: seq<SourceInstruction>, list: seq<Emitted>, n: nat)
    requires n <= |program| && n <= |list|
    ensures Grown(symbols, SymbolsAfter(symbols, program, list, n))
  {
    hide ReferencedBy, Offset;
    if n > 0 {
      SymbolsAfterGrow(symbols, program, list, n - 1);
      var located := LabelsResolved(SymbolsAfter(symbols, program, list, n - 1), n - 1, Offset(list, n - 1));
      ReferencedByGrows(symbols, located, program[n - 1].operands, list[n - 1].encoding, Offset(list, n - 1));
    }
  }

  lemma OffsetInside(list: seq<Emitted>, i: nat)
    requires i < |list|
    ensures Offset(list, i) < |Code(list)|
  {
    EncodingInPlace(list, i);
    CodeGrows(list, i + 1, |list|);
  }

  /** Labels of a generated program lie inside the code. */
  lemma LabelInside(symbols0: Symbols, program: seq<SourceInstruction>, list: seq<Emitted>, symbols: Symbols, code: seq<Byte>, name: string)
    requires Fresh(symbols0, |program|) && Complete(symbols0, program, list, symbols, code)
    requires name in symbols && symbols[name].LabelSymbol?
    ensures symbols[name].location.AtOffset? && symbols[name].location.offset < |code|
  {
    hide Offset, Code, EnvironmentOf, SymbolsAfter;
    SymbolsAfterGrow(symbols0, program, list, |program|);
    assert GrownSymbol(symbols0, name, symbols[name]) && FreshSymbol(symbols0[name], |program|);
    var i := symbols0[name].location.instruction;
    LabelsAtOffsets(symbols0, program, list, |program|, name, i);
    OffsetInside(list, i);
  }

  /** A generated program of a fresh table can be written as soon as its names and size allow it. */
  lemma GeneratedIsEmittable(symbols0: Symbols, program: seq<SourceInstruction>, list: seq<Emitted>, a: Assembly)
    requires Fresh(symbols0, |program|) && Complete(symbols0, program, list, a.symbols, a.code) && SlotsValid(a.symbols, a.code)
    requires Enumerates(a.order, a.symbols) && forall name :: name in a.symbols ==> ValidName(name)
    requires ContentLength(a) < WORD_LIMIT && InstructionBase(a) + ContentLength(a) < WORD_LIMIT
    ensures Emittable(a)
  {
    hide SlotsValid, ContentLength, InstructionBase, Complete, ValidName;
    forall name | name in a.symbols ensures SymbolReady(name, a.symbols[name], |a.code|) {
      GeneratedGrows(symbols0, program, list, a.symbols, a.code);
      assert GrownSymbol(symbols0, name, a.symbols[name]);
      if a.symbols[name].LabelSymbol? {
        LabelInside(symbols0, program, list, a.symbols, a.code, name);
      } else if a.symbols[name].DataSymbol? {
        assert FreshSymbol(symbols0[name], |program|);
      }
    }
  }

  lemma GeneratedGrows(symbols0: Symbols, program: seq<SourceInstruction>, list: seq<Emitted>, symbols: Symbols, code: seq<Byte>)
    requires Complete(symbols0, program, list, symbols, code)
    ensures Grown(symbols0, symbols)
  {
    hide Code, EnvironmentOf;
    SymbolsAfterGrow(symbols0, program, list, |program|);
  }

  /** Every program that is generated without errors, with no empty data item, becomes a file that the
      linker's parser accepts, that holds what was assembled, and that meets the linker's assumptions. */
  lemma GeneratedIsAccepted(
    symbols0: Symbols, program: seq<SourceInstruction>, list: seq<Emitted>, a: Assembly, r: Result<ObjectFile, ParseError>)
    requires Fresh(symbols0, |program|) && Complete(symbols0, program, list, a.symbols, a.code) && SlotsValid(a.symbols, a.code)
    requires forall name :: name in symbols0 && symbols0[name].DataSymbol? ==> symbols0[name].initialiser != []
    requires Emittable(a) && |FileBytes(a)| < WORD_LIMIT && Parses(FileBytes(a), r)
    ensures r.Ok? && Recovered(a, r.value) && Program.ValidFile(r.value)
  {
    hide SlotsValid, ContentLength, InstructionBase, Complete, FileBytes, Parses, Emittable, Recovered;
    GeneratedGrows(symbols0, program, list, a.symbols, a.code);
    forall name | name in a.symbols && a.symbols[name].LabelSymbol? && a.symbols[name].location.AtOffset?
      ensures a.symbols[name].location.offset < |a.code|
    {
      LabelInside(symbols0, program, list, a.symbols, a.code, name);
    }
    forall name | name in a.symbols && a.symbols[name].DataSymbol? ensures a.symbols[name].initialiser != [] {
      assert GrownSymbol(symbols0, name, a.symbols[name]);
    }
    NonEmptyIsAccepted(a, r);
    RoundTrip(a, r);
    AssembledFileIsValid(a, r);
  }
}
