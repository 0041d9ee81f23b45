/** From assembly to the running machine: source programs assembled, linked and fetched by the CPU. */
module Toolchain {
  import opened Bytes
  import opened Wrappers
  import opened ObjectData
  import opened InstructionSet
  import opened SaltStream
  import opened SaltSymbols
  import opened SaltCodegen
  import opened SaltProgram
  import opened SaltLayout
  import opened SaltToSilk
  import opened Program
  import opened Assembling
  import opened LinkedCode
  import opened LinkProgram
  import Linking
  import SilkParser

  /** The file at hand is what the linker's parser makes of the assembled source. */
  ghost predicate IsAssembled(u: Unit) {
    && u.file < |u.files| && Fresh(u.symbols, |u.source|)
    && (forall name :: name in u.symbols && u.symbols[name].DataSymbol? ==> u.symbols[name].initialiser != [])
    && (forall i :: 0 <= i < |u.source| ==> !IsTimerSymbol(u.source[i], EnvironmentOf(u.symbols)))
    && Complete(u.symbols, u.source, u.list, u.assembly.symbols, u.assembly.code)
    && Emittable(u.assembly) && |SaltLayout.FileBytes(u.assembly)| < WORD_LIMIT
    && SilkParser.Parses(SaltLayout.FileBytes(u.assembly), Ok(u.files[u.file]))
  }

  /** The image is what linking the files produces, the entrypoint being in the given section. */
  ghost predicate IsLinkedFrom(u: Unit, readOnly: bool) {
    && WellFormed(u.files) && Linkable(u.files, readOnly)
    && Linking.OnlyEntrypoint(AllSections(u.files, |u.files|), u.entry)
    && IsProgramImage(u.image, u.files, PlaceOf(u))
  }

  /** What is assembled and linked meets the conditions of the theorems about linked code. */
  lemma AssembledIsLinked(u: Unit, readOnly: bool)
    requires IsAssembled(u) && IsLinkedFrom(u, readOnly)
    ensures IsLinkedUnit(u)
  {
    hide Complete, SlotsValid, SaltLayout.FileBytes, SilkParser.Parses, Recovered, IsProgramImage, WellFormed, EnvironmentOf, IsTimerSymbol,
      ContentLength, InstructionBase;
    GeneratedIsAccepted(u.symbols, u.source, u.list, u.assembly, Ok(u.files[u.file]));
  }

  /** The code assembled as the entrypoint begins the image: the first instruction that the CPU fetches
      there is the first of the source. */
  lemma EntrypointRuns(u: Unit, readOnly: bool) returns (operands: seq<Operand>)
    requires IsAssembled(u) && IsLinkedFrom(u, readOnly) && u.assembly.entrypoint && |u.source| > 0
    ensures IsLinkedUnit(u) && |u.list| == |u.source| && |operands| == |u.source[0].operands|
    ensures InstructionAt(u, 0) == 0
    ensures forall k :: 0 <= k < |operands| ==> IsLinkedOperand(u, 0, k, operands[k])
    ensures DecodeAt(u.image, 0) == Some(Step(Instruction(u.source[0].mnemonic, operands), InstructionAt(u, 1)))
  {
    hide IsAssembled, IsLinkedFrom, IsLinkedUnit, IsLinkedOperand, DecodeAt, CodeStart, Offset;
    AssembledIsLinked(u, readOnly);
    CodeIs(u);
    EntrypointIsFirst(u, readOnly);
    StartsAtZero(u.list);
    operands := LinkedInstructionDecodes(u, 0);
  }

  /** The entrypoint's code starts at the image's first byte. */
  lemma EntrypointIsFirst(u: Unit, readOnly: bool)
    requires IsLinkedUnit(u) && IsLinkedFrom(u, readOnly) && u.assembly.entrypoint && |u.source| > 0
    ensures CodeStart(u) == 0
  {
    hide IsProgramImage, Complete, SlotsValid, SymbolReady, AllDefined, CombinesUpTo, Code;
    CodeIs(u);
    OffsetWithin(u.list, 0);
    CodeIsFirst(u.assembly);
    var k := FirstSectionSpans(u.files, |u.files|, u.file);
    assert IsEntrypoint(AllSections(u.files, |u.files|)[k]);
    assert k == u.entry;
  }
}
