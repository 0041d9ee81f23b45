/** Assembled code in the linked image: the CPU reads the source program there, with every symbol
    replaced by its address. */
module LinkedCode {
  import opened Bytes
  import opened Wrappers
  import opened ObjectData
  import opened InstructionSet
  import opened SaltEncoding
  import opened SaltStream
  import opened SaltSymbols
  import opened SaltCodegen
  import opened SaltProgram
  import opened SaltLayout
  import opened SaltToSilk
  import opened Relocation
  import opened ImageLayout
  import opened Program
  import SaltEmission

  /** One assembled file among the files of a linked program. */
  datatype Unit = Unit(
    files: seq<ObjectFile>, file: nat, entry: nat, base: nat, image: seq<Byte>,
    assembly: Assembly, symbols: Symbols, source: seq<SourceInstruction>, list: seq<Emitted>)

  ghost function PlaceOf(u: Unit): Placement
    requires WellFormed(u.files) && u.entry < |AllSections(u.files, |u.files|)|
  {
    PlacementOf(AllSections(u.files, |u.files|), u.entry, u.base)
  }

  /** The image is that of the program, and the file at hand is what was assembled from the source, in
      which no timer instruction has a symbol operand. */
  ghost predicate IsLinkedUnit(u: Unit) {
    && WellFormed(u.files) && CombinesUpTo(u.files, |u.files|) && AllDefined(u.files)
    && u.file < |u.files| && u.entry < |AllSections(u.files, |u.files|)|
    && IsProgramImage(u.image, u.files, PlaceOf(u))
    && Emittable(u.assembly) && Recovered(u.assembly, u.files[u.file])
    && Unreferenced(u.symbols) && Complete(u.symbols, u.source, u.list, u.assembly.symbols, u.assembly.code)
    && forall i :: 0 <= i < |u.source| ==> !IsTimerSymbol(u.source[i], EnvironmentOf(u.symbols))
  }

  // ----- The code section moves as a whole -----

  /** A section of the list spans the given bytes and has the given flags. */
  ghost predicate Spans(sections: seq<Section>, k: nat, start: nat, length: nat, flags: Byte) {
    k < |sections| && sections[k].start == start && sections[k].length == length && sections[k].flags == flags
  }

  /** Combining keeps what is there, and the first of the sections put behind comes next. */
  lemma CombinedSpans(first: seq<Section>, second: seq<Section>, k: nat, start: nat, length: nat, flags: Byte)
    requires Contiguous(first) && Contiguous(second) && Total(first) + Total(second) < WORD_LIMIT
    ensures Spans(first, k, start, length, flags) ==> Spans(Combined(first, second), k, start, length, flags)
    ensures |second| > 0 ==> Spans(Combined(first, second), |first|, Total(first), second[0].length, second[0].flags)
  {
    assert |second| > 0 ==> Placed(second, 0);
  }

  /** The first section of every file is a section of the program. */
  lemma {:induction false} FirstSectionSpans(files: seq<ObjectFile>, n: nat, i: nat) returns (k: nat)
    requires WellFormed(files) && i < n <= |files| && |files[i].sections| > 0
    ensures Spans(AllSections(files, n), k, Base(files, i), files[i].sections[0].length, files[i].sections[0].flags)
  {
    hide Spans, Total, Combined, Contiguous;
    assert ValidFile(files[n - 1]);
    BaseBelow(files, n);
    var before := AllSections(files, n - 1);
    if i < n - 1 {
      k := FirstSectionSpans(files, n - 1, i);
    } else {
      k := |before|;
    }
    CombinedSpans(before, files[n - 1].sections, k, Base(files, i), files[i].sections[0].length, files[i].sections[0].flags);
  }

  /** All bytes of one section move by the same distance. */
  lemma SectionMovesTogether(sections: seq<Section>, entry: nat, base: nat, k: nat, t: nat)
    requires Contiguous(sections) && entry < |sections| && k < |sections| && t < sections[k].length
    ensures Relocate(sections[k].start + t, PlacementOf(sections, entry, base))
         == Relocate(sections[k].start, PlacementOf(sections, entry, base)) + t
  {
    if k < entry {
      SectionsAreOrdered(sections, k, entry);
    } else if entry < k {
      SectionsAreOrdered(sections, entry, k);
    }
  }

  /** Where the code of the unit begins in the image. */
  ghost function CodeStart(u: Unit): nat
    requires IsLinkedUnit(u)
  {
    Relocate(Base(u.files, u.file), PlaceOf(u))
  }

  lemma CodeMoves(u: Unit, t: nat)
    requires IsLinkedUnit(u) && t < |u.assembly.code|
    ensures Relocate(Base(u.files, u.file) + t, PlaceOf(u)) == CodeStart(u) + t
  {
    hide IsProgramImage, Complete, SlotsValid, SymbolReady, AllDefined, CombinesUpTo;
    CodeIsFirst(u.assembly);
    var k := FirstSectionSpans(u.files, |u.files|, u.file);
    SectionMovesTogether(AllSections(u.files, |u.files|), u.entry, u.base, k, t);
  }

  /** Outside references the image holds the code as it was generated. */
  lemma CodeInImage(u: Unit, t: nat)
    requires IsLinkedUnit(u) && t < |u.assembly.code| && !InSlot(u.files, u.file, t)
    ensures CodeStart(u) + t < |u.image| && u.image[CodeStart(u) + t] == u.assembly.code[t]
  {
    hide Complete, SlotsValid, SymbolReady, AllDefined, CombinesUpTo, InSlot, WellFormed, InstructionBase, Sections, AllData;
    CodeMoves(u, t);
    SaltEmission.SectionsShape(u.assembly);
    assert HoldsOriginal(u.image, u.files, u.file, t, PlaceOf(u));
  }

  /** At a reference the image holds the address of what the symbol means. */
  lemma AddressInImage(u: Unit, name: string, r: nat, target: nat)
    requires IsLinkedUnit(u) && r < |u.assembly.code|
    requires Refers(u.files, u.file, name, r) && Means(u.files, u.file, name, target)
    ensures ImageLayout.Address(target, PlaceOf(u)) < WORD_LIMIT
    ensures Holds(u.image, CodeStart(u) + r, Be32(ImageLayout.Address(target, PlaceOf(u))))
  {
    hide Complete, Emittable, Recovered, AllDefined, CombinesUpTo, WellFormed, Be32, IsProgramImage, Relocate, PlacementOf, Means, Refers, Unreferenced;
    CodeMoves(u, r);
    ReferenceHeld(u.image, u.files, u.file, name, r, target, PlaceOf(u));
  }

  lemma ReferenceHeld(image: seq<Byte>, files: seq<ObjectFile>, i: nat, name: string, r: nat, target: nat, place: Placement)
    requires IsProgramImage(image, files, place) && Refers(files, i, name, r) && Means(files, i, name, target)
    ensures HoldsReference(image, files, i, r, target, place)
  {
    hide HoldsReference, HoldsOriginal;
  }

  // ----- Which bytes are references -----

  /** Where operand `k` of instruction `i` begins in the code. */
  function OperandStart(list: seq<Emitted>, i: nat, k: nat): nat
    requires i < |list| && k <= |list[i].encoding.operands|
  {
    Offset(list, i) + 1 + |FirstBytes(list[i].encoding.operands, k)|
  }

  lemma {:induction false} FirstBytesGrow(operands: seq<Operand>, k: nat, n: nat)
    requires k < n <= |operands|
    ensures |FirstBytes(operands, k)| + |OperandBytes(operands[k])| <= |FirstBytes(operands, n)|
    decreases n
  {
    hide OperandBytes;
    if k < n - 1 {
      FirstBytesGrow(operands, k, n - 1);
    }
  }

  /** An operand ends before the next instruction begins. */
  lemma OperandEnds(list: seq<Emitted>, i: nat, k: nat)
    requires i < |list| && k < |list[i].encoding.operands|
    ensures OperandStart(list, i, k) + |OperandBytes(list[i].encoding.operands[k])| <= Offset(list, i + 1)
  {
    hide OperandBytes, OperandsBytes, FirstBytes;
    var operands := list[i].encoding.operands;
    FirstBytesGrow(operands, k, |operands|);
    FirstBytesAreAll(operands, 0);
    NoFirstBytes(operands);
  }

  lemma {:induction false} OffsetsGrow(list: seq<Emitted>, i: nat, j: nat)
    requires i < j <= |list|
    ensures Offset(list, i + 1) <= Offset(list, j)
    decreases j
  {
    hide EncodingBytes;
    if i + 1 < j {
      OffsetsGrow(list, i, j - 1);
    }
  }

  /** A reference of the file is a symbol operand of some instruction. */
  lemma ReferenceIsOperand(u: Unit, name: string, r: nat) returns (i: nat, k: nat)
    requires IsLinkedUnit(u) && Refers(u.files, u.file, name, r)
    ensures i < |u.list| && k < |u.list[i].encoding.operands| && k < |u.source[i].operands|
    ensures SymbolNamed(u.source[i].operands[k], EnvironmentOf(u.symbols)) == Some(name)
    ensures r == OperandStart(u.list, i, k) && OperandBytes(u.list[i].encoding.operands[k]) == PLACEHOLDER
  {
    hide IsProgramImage, SlotsValid, SymbolReady, AllDefined, CombinesUpTo, WellFormed, InstructionBase, Sections, EnvironmentOf, SymbolNamed,
      FirstBytes, SymbolsAfter, Code, Encode;
    RefersMatches(u, name, r);
    ReferencesExactly(u.symbols, u.source, u.list, |u.source|, name, r);
    i :| 0 <= i < |u.source| && RefersTo(u.source, EnvironmentOf(u.symbols), u.list, i, name, r);
    NotLast(u, i);
    var e := u.list[i].encoding;
    k :| 0 <= k < |u.source[i].operands|
      && NamesAt(u.source[i].operands, e.operands, EnvironmentOf(u.symbols), FirstOperand(e, Offset(u.list, i)), k, name, r);
    SymbolIsPlaceholder(u, i, k);
  }

  /** The references the linker sees are those of the assembler's symbol table. */
  lemma RefersMatches(u: Unit, name: string, r: nat)
    requires IsLinkedUnit(u)
    ensures Refers(u.files, u.file, name, r) <==> r in ReferencesTo(u.assembly.symbols, name)
  {
    hide IsProgramImage, SlotsValid, SymbolReady, AllDefined, CombinesUpTo, WellFormed, InstructionBase, Sections, Complete, TypeOf, ValueOf;
    if name in u.assembly.symbols && !u.assembly.symbols[name].ConstantSymbol? {
      assert name in u.assembly.order;
      var k: nat :| k < |u.assembly.order| && u.assembly.order[k] == name;
      assert IsEntry(u.assembly, k);
      assert RecoveredEntry(u.assembly, k, u.files[u.file].symbols[u.assembly.order[k]]);
    }
  }

  lemma NotLast(u: Unit, i: nat)
    requires IsLinkedUnit(u) && i < |u.list|
    ensures |u.source| == |u.list| && !u.list[i].encoding.opcodeLast && Sound(u.list[i])
  {
    hide IsProgramImage, SlotsValid, SymbolReady, AllDefined, CombinesUpTo, WellFormed, InstructionBase, Sections, Recovered, Sound,
      IsTimerSymbol, Code, SymbolsAfter, Encodes;
    EncodesLength(u.source, EnvironmentOf(u.symbols), u.list);
    ProgramIsSound(u.source, EnvironmentOf(u.symbols), u.list);
    assert Sound(u.list[i]);
  }

  lemma EncodesLength(source: seq<SourceInstruction>, env: Environment, list: seq<Emitted>)
    requires Encodes(source, env, list)
    ensures |list| == |source|
  {}

  /** Instruction `i` is encoded operand by operand; a symbol is four zero bytes. */
  lemma SymbolIsPlaceholder(u: Unit, i: nat, k: nat)
    requires IsLinkedUnit(u) && i < |u.list| && i < |u.source| && k < |u.source[i].operands|
    requires SymbolNamed(u.source[i].operands[k], EnvironmentOf(u.symbols)).Some?
    ensures |u.list[i].encoding.operands| == |u.source[i].operands|
    ensures u.list[i].encoding.operands[k] == Immediate(PLACEHOLDER)
  {
    hide IsProgramImage, SlotsValid, SymbolReady, AllDefined, CombinesUpTo, WellFormed, InstructionBase, Sections, Recovered,
      EncodeOperands, EncodeOperand, Resolve, OpcodeFor, ModeOf, Code, SymbolsAfter, EnvironmentOf;
    assert EncodesAt(u.source, EnvironmentOf(u.symbols), u.list, i);
    var mode := ModeOf(u.source[i].mnemonic).value;
    EncodedOperandsStandFor(mode.kinds, u.source[i].operands, EnvironmentOf(u.symbols), |u.source[i].operands|);
  }

  /** A reference does not cover a byte of another operand. */
  lemma OtherOperand(u: Unit, i: nat, k: nat, t: nat, name: string, r: nat)
    requires IsLinkedUnit(u) && Refers(u.files, u.file, name, r)
    requires i < |u.list| && i < |u.source| && k < |u.list[i].encoding.operands| && k < |u.source[i].operands|
    requires SymbolNamed(u.source[i].operands[k], EnvironmentOf(u.symbols)).None?
    requires OperandStart(u.list, i, k) <= t < OperandStart(u.list, i, k) + |OperandBytes(u.list[i].encoding.operands[k])|
    ensures !(r <= t < r + 4)
  {
    hide IsLinkedUnit, SymbolNamed, FirstBytes, OperandBytes, EnvironmentOf, Refers, Offset;
    var j, l := ReferenceIsOperand(u, name, r);
    OperandEnds(u.list, j, l);
    OperandEnds(u.list, i, k);
    if j < i {
      OffsetsGrow(u.list, j, i);
    } else if i < j {
      OffsetsGrow(u.list, i, j);
    } else if l < k {
      FirstBytesGrow(u.list[i].encoding.operands, l, k);
    } else if k < l {
      FirstBytesGrow(u.list[i].encoding.operands, k, l);
    }
  }

  /** Nor an opcode. */
  lemma NotOpcode(u: Unit, i: nat, name: string, r: nat)
    requires IsLinkedUnit(u) && Refers(u.files, u.file, name, r) && i < |u.list|
    ensures !(r <= Offset(u.list, i) < r + 4)
  {
    hide IsLinkedUnit, SymbolNamed, FirstBytes, OperandBytes, EnvironmentOf, Refers, Offset;
    var j, l := ReferenceIsOperand(u, name, r);
    OperandEnds(u.list, j, l);
    if j < i {
      OffsetsGrow(u.list, j, i);
    } else if i < j {
      OffsetsGrow(u.list, i, j);
      OffsetsStep(u.list, i);
    }
  }

  lemma OffsetsStep(list: seq<Emitted>, i: nat)
    requires i < |list|
    ensures Offset(list, i) <= Offset(list, i + 1)
  {
    hide EncodingBytes;
  }

  // ----- The linked instruction -----

  /** The operand of the linked instruction: for a symbol, the address it has in the loaded image. */
  ghost predicate IsLinkedOperand(u: Unit, i: nat, k: nat, x: Operand)
    requires IsLinkedUnit(u) && i < |u.list| && i < |u.source|
  {
    && k < |u.source[i].operands| && k < |u.list[i].encoding.operands|
    && match SymbolNamed(u.source[i].operands[k], EnvironmentOf(u.symbols))
       case None => x == u.list[i].encoding.operands[k]
       case Some(name) => exists target: nat :: IsAddressOf(u, name, target, x)
  }

  ghost predicate IsAddressOf(u: Unit, name: string, target: nat, x: Operand)
    requires IsLinkedUnit(u)
  {
    && Means(u.files, u.file, name, target) && ImageLayout.Address(target, PlaceOf(u)) < WORD_LIMIT
    && x == Immediate(Be32(ImageLayout.Address(target, PlaceOf(u))))
  }

  /** Both are registers, or both are values of the same width. */
  ghost predicate SameShape(x: Operand, y: Operand) {
    match x
    case Register(_) => x == y
    case Immediate(bytes) => y.Immediate? && |y.bytes| == |bytes|
  }

  lemma HoldsJoined(s: seq<Byte>, p: nat, a: seq<Byte>, b: seq<Byte>)
    requires Holds(s, p, a) && Holds(s, p + |a|, b)
    ensures Holds(s, p, a + b)
  {
    assert s[p..p + |a + b|] == s[p..p + |a|] + s[p + |a|..p + |a| + |b|];
  }

  lemma {:induction false} OperandsHold(s: seq<Byte>, p: nat, operands: seq<Operand>, k: nat)
    requires k <= |operands| && Holds(s, p, OperandsBytes(operands, 0))
    ensures Holds(s, p + |FirstBytes(operands, k)|, OperandsBytes(operands, k))
  {
    hide Holds, OperandBytes;
    if k > 0 {
      OperandsHold(s, p, operands, k - 1);
      HoldsBoth(s, p + |FirstBytes(operands, k - 1)|, OperandBytes(operands[k - 1]), OperandsBytes(operands, k));
    }
  }

  lemma PrefixHolds(s: seq<Byte>, p: nat, bytes: seq<Byte>)
    requires p <= |s|
    ensures bytes <= s[p..] <==> Holds(s, p, bytes)
  {
    if bytes <= s[p..] {
      assert s[p..][..|bytes|] == s[p..p + |bytes|];
    }
    if Holds(s, p, bytes) {
      assert s[p..][..|bytes|] == bytes;
    }
  }

  /** The generated code holds each opcode and operand at its place. */
  lemma EncodingInCode(list: seq<Emitted>, i: nat)
    requires i < |list| && !list[i].encoding.opcodeLast
    ensures Holds(Code(list), Offset(list, i), [list[i].encoding.opcode])
    ensures forall k :: 0 <= k < |list[i].encoding.operands| ==>
      Holds(Code(list), OperandStart(list, i, k), OperandBytes(list[i].encoding.operands[k]))
  {
    hide Holds, Code, Offset, FirstBytes, OperandBytes;
    var e := list[i].encoding;
    EncodingInPlace(list, i);
    PrefixHolds(Code(list), Offset(list, i), EncodingBytes(e));
    HoldsBoth(Code(list), Offset(list, i), [e.opcode], OperandsBytes(e.operands, 0));
    forall k | 0 <= k < |e.operands| ensures Holds(Code(list), OperandStart(list, i, k), OperandBytes(e.operands[k])) {
      OperandsHold(Code(list), Offset(list, i) + 1, e.operands, k);
      HoldsBoth(Code(list), OperandStart(list, i, k), OperandBytes(e.operands[k]), OperandsBytes(e.operands, k + 1));
    }
  }

  /** Bytes of the code that no reference covers are in the image unchanged. */
  lemma UncoveredHolds(u: Unit, p: nat, bytes: seq<Byte>)
    requires IsLinkedUnit(u) && Holds(u.assembly.code, p, bytes) && bytes != []
    requires forall t :: p <= t < p + |bytes| ==> !InSlot(u.files, u.file, t)
    ensures Holds(u.image, CodeStart(u) + p, bytes)
  {
    hide IsLinkedUnit, InSlot, CodeStart;
    forall j | 0 <= j < |bytes| ensures ByteInImage(u, p, bytes, j) {
      assert u.assembly.code[p..p + |bytes|][j] == u.assembly.code[p + j];
      CodeInImage(u, p + j);
    }
    assert ByteInImage(u, p, bytes, |bytes| - 1);
    forall j | 0 <= j < |bytes| ensures u.image[CodeStart(u) + p..][j] == bytes[j] {
      assert ByteInImage(u, p, bytes, j);
    }
    assert u.image[CodeStart(u) + p..CodeStart(u) + p + |bytes|] == u.image[CodeStart(u) + p..][..|bytes|];
  }

  ghost predicate ByteInImage(u: Unit, p: nat, bytes: seq<Byte>, j: nat)
    requires IsLinkedUnit(u) && j < |bytes|
  {
    CodeStart(u) + p + j < |u.image| && u.image[CodeStart(u) + p + j] == bytes[j]
  }

  lemma UnitPlaced(u: Unit)
    requires IsLinkedUnit(u)
    ensures WellFormed(u.files) && u.entry < |AllSections(u.files, |u.files|)|
  {}

  lemma CodeIs(u: Unit)
    requires IsLinkedUnit(u)
    ensures u.assembly.code == Code(u.list) && |u.source| == |u.list|
  {
    hide IsProgramImage, Emittable, Recovered, AllDefined, CombinesUpTo, WellFormed, SymbolsAfter, EnvironmentOf, Code;
  }

  lemma AcceptedNotEmpty(fetches: seq<Fetch>, operands: seq<Operand>, k: nat)
    requires AllAccepted(fetches, operands) && k < |operands|
    ensures OperandBytes(operands[k]) != []
  {
    assert AcceptedAt(fetches, operands, k);
  }

  lemma OperandNotEmpty(u: Unit, i: nat, k: nat)
    requires IsLinkedUnit(u) && i < |u.list| && k < |u.list[i].encoding.operands|
    ensures OperandBytes(u.list[i].encoding.operands[k]) != []
  {
    hide IsLinkedUnit, AllAccepted, HandlerOf, OperandBytes;
    NotLast(u, i);
    AcceptedNotEmpty(HandlerOf(u.list[i].encoding.opcode).value.fetches, u.list[i].encoding.operands, k);
  }

  lemma OperandNotInSlot(u: Unit, i: nat, k: nat, t: nat)
    requires IsLinkedUnit(u)
    requires i < |u.list| && i < |u.source| && k < |u.list[i].encoding.operands| && k < |u.source[i].operands|
    requires SymbolNamed(u.source[i].operands[k], EnvironmentOf(u.symbols)).None?
    requires OperandStart(u.list, i, k) <= t < OperandStart(u.list, i, k) + |OperandBytes(u.list[i].encoding.operands[k])|
    ensures !InSlot(u.files, u.file, t)
  {
    hide IsLinkedUnit, SymbolNamed, OperandStart, OperandBytes, EnvironmentOf, Refers;
    forall name, r | Refers(u.files, u.file, name, r) ensures !(r <= t < r + 4) {
      ReferenceIsNat(u, name, r);
      OtherOperand(u, i, k, t, name, r);
    }
  }

  lemma ReferenceIsNat(u: Unit, name: string, r: int)
    requires IsLinkedUnit(u) && Refers(u.files, u.file, name, r)
    ensures r >= 0
  {
    hide IsLinkedUnit;
  }

  lemma OpcodeNotInSlot(u: Unit, i: nat)
    requires IsLinkedUnit(u) && i < |u.list|
    ensures !InSlot(u.files, u.file, Offset(u.list, i))
  {
    hide IsLinkedUnit, Offset, Refers;
    forall name, r | Refers(u.files, u.file, name, r) ensures !(r <= Offset(u.list, i) < r + 4) {
      ReferenceIsNat(u, name, r);
      NotOpcode(u, i, name, r);
    }
  }

  /** A symbol operand is a reference the linker knows. */
  lemma OperandIsReference(u: Unit, i: nat, k: nat, name: string)
    requires IsLinkedUnit(u) && i < |u.list| && i < |u.source| && |u.list[i].encoding.operands| == |u.source[i].operands|
    requires k < |u.source[i].operands| && SymbolNamed(u.source[i].operands[k], EnvironmentOf(u.symbols)) == Some(name)
    ensures Refers(u.files, u.file, name, OperandStart(u.list, i, k))
  {
    hide IsProgramImage, Emittable, Recovered, AllDefined, CombinesUpTo, WellFormed, EnvironmentOf, SymbolNamed, FirstBytes, SymbolsAfter,
      Code, Encodes, Sound, Refers;
    NotLast(u, i);
    var e := u.list[i].encoding;
    var r := OperandStart(u.list, i, k);
    assert NamesAt(u.source[i].operands, e.operands, EnvironmentOf(u.symbols), FirstOperand(e, Offset(u.list, i)), k, name, r);
    assert RefersTo(u.source, EnvironmentOf(u.symbols), u.list, i, name, r);
    ReferencesExactly(u.symbols, u.source, u.list, |u.source|, name, r);
    RefersMatches(u, name, r);
  }

  lemma TargetOf(u: Unit, name: string, r: nat) returns (target: nat)
    requires IsLinkedUnit(u) && Refers(u.files, u.file, name, r)
    ensures Means(u.files, u.file, name, target)
  {
    hide IsProgramImage, Emittable, Recovered, AllDefined, CombinesUpTo, WellFormed, Complete, Means, Refers;
    target := MeaningIsUnique(u.files, u.file, name, r);
  }

  lemma OperandInsideCode(u: Unit, i: nat, k: nat)
    requires IsLinkedUnit(u) && i < |u.list| && k < |u.list[i].encoding.operands|
    ensures OperandStart(u.list, i, k) < |u.assembly.code|
  {
    hide IsLinkedUnit, OperandBytes, FirstBytes, Code, Offset;
    CodeIs(u);
    OperandNotEmpty(u, i, k);
    OperandEnds(u.list, i, k);
    OffsetInCode(u.list, i + 1);
  }

  /** Operand `k` of instruction `i` as it stands in the image. */
  lemma LinkOperand(u: Unit, i: nat, k: nat) returns (x: Operand)
    requires IsLinkedUnit(u) && i < |u.list| && i < |u.source|
    requires k < |u.source[i].operands| && k < |u.list[i].encoding.operands|
    ensures IsLinkedOperand(u, i, k, x) && SameShape(x, u.list[i].encoding.operands[k])
    ensures Holds(u.image, CodeStart(u) + OperandStart(u.list, i, k), OperandBytes(x))
  {
    hide IsLinkedUnit, Holds, SymbolNamed, EnvironmentOf, Means, InSlot, Be32, FirstBytes, CodeStart, PlaceOf, Code, Offset, OperandStart;
    CodeIs(u);
    NotLast(u, i);
    EncodingInCode(u.list, i);
    var r := OperandStart(u.list, i, k);
    match SymbolNamed(u.source[i].operands[k], EnvironmentOf(u.symbols)) {
      case None =>
        x := u.list[i].encoding.operands[k];
        OperandNotEmpty(u, i, k);
        forall t | r <= t < r + |OperandBytes(x)| ensures !InSlot(u.files, u.file, t) {
          OperandNotInSlot(u, i, k, t);
        }
        UncoveredHolds(u, r, OperandBytes(x));
      case Some(name) =>
        SymbolIsPlaceholder(u, i, k);
        OperandIsReference(u, i, k, name);
        var target := TargetOf(u, name, r);
        OperandInsideCode(u, i, k);
        AddressInImage(u, name, r, target);
        UnitPlaced(u);
        x := Immediate(Be32(ImageLayout.Address(target, PlaceOf(u))));
        assert IsAddressOf(u, name, target, x);
    }
  }

  /** The first `n` operands as they stand in the image. */
  ghost predicate LinkedUpTo(u: Unit, i: nat, xs: seq<Operand>)
    requires IsLinkedUnit(u) && i < |u.list| && i < |u.source|
  {
    && |xs| <= |u.list[i].encoding.operands|
    && (forall k :: 0 <= k < |xs| ==> IsLinkedOperand(u, i, k, xs[k]) && SameShape(xs[k], u.list[i].encoding.operands[k]))
    && |FirstBytes(xs, |xs|)| == |FirstBytes(u.list[i].encoding.operands, |xs|)|
    && Holds(u.image, CodeStart(u) + Offset(u.list, i) + 1, FirstBytes(xs, |xs|))
  }

  lemma {:induction false} LinkOperands(u: Unit, i: nat, n: nat) returns (xs: seq<Operand>)
    requires IsLinkedUnit(u) && i < |u.list| && i < |u.source|
    requires |u.source[i].operands| == |u.list[i].encoding.operands| && n <= |u.source[i].operands|
    ensures |xs| == n && LinkedUpTo(u, i, xs)
  {
    hide IsLinkedUnit, Holds, IsLinkedOperand, CodeStart, Offset;
    if n == 0 {
      xs := [];
      OpcodeHolds(u, i);
      EmptyHolds(u.image, CodeStart(u) + Offset(u.list, i), u.list[i].encoding.opcode);
    } else {
      var before := LinkOperands(u, i, n - 1);
      var x := LinkOperand(u, i, n - 1);
      xs := before + [x];
      OneMoreOperand(u.image, CodeStart(u) + Offset(u.list, i) + 1, before, x);
    }
  }

  lemma EmptyHolds(s: seq<Byte>, p: nat, b: Byte)
    requires Holds(s, p, [b])
    ensures Holds(s, p + 1, [])
  {}

  lemma OneMoreOperand(s: seq<Byte>, p: nat, before: seq<Operand>, x: Operand)
    requires Holds(s, p, FirstBytes(before, |before|)) && Holds(s, p + |FirstBytes(before, |before|)|, OperandBytes(x))
    ensures FirstBytes(before + [x], |before| + 1) == FirstBytes(before, |before|) + OperandBytes(x)
    ensures Holds(s, p, FirstBytes(before + [x], |before| + 1))
  {
    hide Holds, OperandBytes;
    FirstBytesOfPrefix(before, [x], |before|);
    HoldsJoined(s, p, FirstBytes(before, |before|), OperandBytes(x));
  }

  lemma OpcodeHolds(u: Unit, i: nat)
    requires IsLinkedUnit(u) && i < |u.list|
    ensures Holds(u.image, CodeStart(u) + Offset(u.list, i), [u.list[i].encoding.opcode])
  {
    hide IsLinkedUnit, Holds, CodeStart, Offset, Code, InSlot, OperandStart;
    CodeIs(u);
    NotLast(u, i);
    EncodingInCode(u.list, i);
    OpcodeNotInSlot(u, i);
    UncoveredHolds(u, Offset(u.list, i), [u.list[i].encoding.opcode]);
  }

  /** Acceptance depends on registers and widths only. */
  lemma SameShapesAccepted(fetches: seq<Fetch>, operands: seq<Operand>, xs: seq<Operand>)
    requires AllAccepted(fetches, operands) && |xs| == |operands|
    requires forall k :: 0 <= k < |xs| ==> SameShape(xs[k], operands[k])
    ensures AllAccepted(fetches, xs)
  {
    forall k | 0 <= k < |xs| ensures AcceptedAt(fetches, xs, k) {
      assert AcceptedAt(fetches, operands, k);
      assert k > 0 ==> xs[..k][0] == xs[0] && operands[..k][0] == operands[0] && SameShape(xs[0], operands[0]);
    }
  }

  lemma WholeInstructionHolds(s: seq<Byte>, p: nat, opcode: Byte, xs: seq<Operand>)
    requires Holds(s, p, [opcode]) && Holds(s, p + 1, FirstBytes(xs, |xs|))
    ensures p <= |s| && [opcode] + OperandsBytes(xs, 0) <= s[p..]
    ensures |FirstBytes(xs, |xs|)| == |OperandsBytes(xs, 0)|
  {
    hide FirstBytes, OperandsBytes;
    FirstBytesAreAll(xs, 0);
    NoFirstBytes(xs);
    HoldsJoined(s, p, [opcode], OperandsBytes(xs, 0));
    PrefixHolds(s, p, [opcode] + OperandsBytes(xs, 0));
  }

  /** Where instruction `i` of the unit is in the image. */
  ghost function InstructionAt(u: Unit, i: nat): nat
    requires IsLinkedUnit(u) && i <= |u.list|
  {
    CodeStart(u) + Offset(u.list, i)
  }

  /** At the place where linking has put an instruction the CPU decodes that instruction, every operand
      as in the source except that a symbol is the loaded address of what it means in the program, and the
      next instruction of the source follows. */
  lemma LinkedInstructionDecodes(u: Unit, i: nat) returns (operands: seq<Operand>)
    requires IsLinkedUnit(u) && i < |u.source|
    ensures i < |u.list| && |operands| == |u.source[i].operands|
    ensures forall k :: 0 <= k < |operands| ==> IsLinkedOperand(u, i, k, operands[k])
    ensures DecodeAt(u.image, InstructionAt(u, i)) == Some(Step(Instruction(u.source[i].mnemonic, operands), InstructionAt(u, i + 1)))
  {
    hide IsLinkedUnit, Holds, IsLinkedOperand, CodeStart, Offset, HandlerOf, DecodeAt, FirstBytes, OperandsBytes, AllAccepted, SameShape;
    CodeIs(u);
    NotLast(u, i);
    SameOperandCount(u, i);
    var e := u.list[i].encoding;
    operands := LinkOperands(u, i, |e.operands|);
    OpcodeHolds(u, i);
    WholeInstructionHolds(u.image, InstructionAt(u, i), e.opcode, operands);
    SameShapesAccepted(HandlerOf(e.opcode).value.fetches, e.operands, operands);
    DecodeBack(u.image, InstructionAt(u, i), e.opcode, operands);
    NextOffset(u.list, i);
  }

  lemma SameOperandCount(u: Unit, i: nat)
    requires IsLinkedUnit(u) && i < |u.list| && i < |u.source|
    ensures |u.list[i].encoding.operands| == |u.source[i].operands| && u.list[i].name == u.source[i].mnemonic
  {
    hide IsProgramImage, Emittable, Recovered, AllDefined, CombinesUpTo, WellFormed, EncodeOperands, OpcodeFor, ModeOf, Code, SymbolsAfter,
      EnvironmentOf, Unreferenced, IsTimerSymbol;
    assert EncodesAt(u.source, EnvironmentOf(u.symbols), u.list, i);
  }

  lemma NextOffset(list: seq<Emitted>, i: nat)
    requires i < |list| && !list[i].encoding.opcodeLast
    ensures Offset(list, i + 1) == Offset(list, i) + 1 + |FirstBytes(list[i].encoding.operands, |list[i].encoding.operands|)|
  {
    hide FirstBytes, OperandsBytes;
    FirstBytesAreAll(list[i].encoding.operands, 0);
    NoFirstBytes(list[i].encoding.operands);
  }

  /** A label of the unit means the place where its instruction is decoded: an operand that names it holds
      the loaded address of that instruction. */
  lemma LabelMeansInstruction(u: Unit, name: string, j: nat, target: nat)
    requires IsLinkedUnit(u) && j < |u.source| && LabelIs(u.symbols, name, Before(j))
    requires Means(u.files, u.file, name, target)
    ensures j < |u.list| && ImageLayout.Address(target, PlaceOf(u)) == u.base + InstructionAt(u, j)
  {
    hide IsLinkedUnit, CodeStart, Offset, Code, Relocate;
    CodeIs(u);
    LabelValue(u, name, j, target);
    OffsetWithin(u.list, j);
    CodeMoves(u, Offset(u.list, j));
  }

  /** A public label of one unit, imported by another, means the same instruction there. */
  lemma ImportMeansInstruction(u: Unit, v: Unit, name: string, j: nat, target: nat)
    requires IsLinkedUnit(u) && IsLinkedUnit(v)
    requires v.files == u.files && v.image == u.image && v.entry == u.entry && v.base == u.base
    requires j < |v.source| && LabelIs(v.symbols, name, Before(j)) && v.symbols[name].isPublic
    requires Means(u.files, u.file, name, target) && u.files[u.file].symbols[name].symbolType.External?
    ensures j < |v.list| && ImageLayout.Address(target, PlaceOf(u)) == v.base + InstructionAt(v, j)
  {
    hide IsLinkedUnit, CodeStart, Offset;
    LabelIsDefined(v, name);
    var k: nat :| Denotes(u.files, k, name, target);
    OneDefinition(u, k, v.file, name);
    LabelMeansInstruction(v, name, j, target);
  }

  lemma OneDefinition(u: Unit, j: nat, k: nat, name: string)
    requires IsLinkedUnit(u) && Defines(u.files, j, name) && Defines(u.files, k, name)
    ensures j == k
  {
    hide IsProgramImage, Emittable, Recovered, WellFormed, Complete, AllDefined;
  }

  ghost predicate IsPublicLabel(symbols: Symbols, name: string) {
    name in symbols && symbols[name].LabelSymbol? && symbols[name].isPublic
  }

  /** Generating code leaves a public label public. */
  lemma {:induction false} PublicLabelStays(
    symbols: Symbols, program: seq<SourceInstruction>, list: seq<Emitted>, n: nat, name: string)
    requires n <= |program| && n <= |list| && IsPublicLabel(symbols, name)
    ensures IsPublicLabel(SymbolsAfter(symbols, program, list, n), name)
  {
    hide Referenced, Offset, FirstBytes;
    if n > 0 {
      PublicLabelStays(symbols, program, list, n - 1, name);
      var operands, e := program[n - 1].operands, list[n - 1].encoding;
      var located := LabelsResolved(SymbolsAfter(symbols, program, list, n - 1), n - 1, Offset(list, n - 1));
      if |operands| == |e.operands| {
        ReferencedKeepsDefinitions(
          located, operands, e.operands, EnvironmentOf(located), FirstOperand(e, Offset(list, n - 1)), |operands|);
      }
    }
  }

  /** The linker sees a public label of the unit as a definition. */
  lemma LabelIsDefined(u: Unit, name: string)
    requires IsLinkedUnit(u) && IsPublicLabel(u.symbols, name)
    ensures Defines(u.files, u.file, name)
  {
    hide IsProgramImage, SlotsValid, AllDefined, CombinesUpTo, WellFormed, InstructionBase, Sections, Offset, Code, SymbolsAfter, EnvironmentOf,
      AllData, DataOf, Encodes, IsTimerSymbol;
    CodeIs(u);
    PublicLabelStays(u.symbols, u.source, u.list, |u.source|, name);
    assert name in u.assembly.order;
    var k: nat :| k < |u.assembly.order| && u.assembly.order[k] == name;
    assert IsEntry(u.assembly, k);
    assert RecoveredEntry(u.assembly, k, u.files[u.file].symbols[u.assembly.order[k]]);
  }

  lemma OffsetWithin(list: seq<Emitted>, i: nat)
    requires i < |list|
    ensures Offset(list, i) < |Code(list)|
  {
    hide EncodingBytes;
    EncodingInPlace(list, i);
    EncodingNotEmpty(list[i].encoding);
    OffsetInCode(list, i + 1);
  }

  lemma EncodingNotEmpty(e: Encoding)
    ensures |EncodingBytes(e)| > 0
  {}

  lemma LabelValue(u: Unit, name: string, j: nat, target: nat)
    requires IsLinkedUnit(u) && j < |u.source| && LabelIs(u.symbols, name, Before(j)) && j < |u.list|
    requires Means(u.files, u.file, name, target)
    ensures target == Base(u.files, u.file) + Offset(u.list, j)
  {
    hide IsProgramImage, SlotsValid, AllDefined, CombinesUpTo, WellFormed, InstructionBase, Sections, Offset, Code, SymbolsAfter, EnvironmentOf,
      AllData, DataOf, Encodes, IsTimerSymbol;
    NotLast(u, j);
    LabelsAtOffsets(u.symbols, u.source, u.list, |u.source|, name, j);
    assert name in u.assembly.order;
    var k: nat :| k < |u.assembly.order| && u.assembly.order[k] == name;
    assert IsEntry(u.assembly, k);
    assert RecoveredEntry(u.assembly, k, u.files[u.file].symbols[u.assembly.order[k]]);
  }
}
