/** From the assembler's symbol table and code to the linker's object file. */
module SaltRoundTrip {
  import opened Bytes
  import opened Wrappers
  import opened ObjectData
  import opened SaltSymbols
  import opened SaltLayout
  import opened SilkParser
  import opened SaltToSilk
  import SaltEmission
  import SymbolTables
  import Program

  /** The checks of one symbol fail exactly when nothing follows the place it stands for. */
  lemma EntryChecks(a: Assembly, k: nat)
    requires Emittable(a) && IsEntry(a, k)
    ensures CheckSymbol(RawEntry(a, k), InstructionBase(a), Sections(a)).Ok? <==> InsideFile(a, k)
    ensures InsideFile(a, k) ==>
      RecoveredEntry(a, k, CheckSymbol(RawEntry(a, k), InstructionBase(a), Sections(a)).value)
  {
    hide Sections, CheckReferences, ValueOf, ContentLength, InstructionBase, SymbolReady;
    var references := References(a.symbols[a.order[k]]);
    FieldsFit(a, k);
    forall i | 0 <= i < |references| ensures ZeroAt(a.code, references[i]) {
      assert HasSlot(a.symbols, a.order[k], i) && SlotAt(a.symbols, a.order[k], i) == references[i];
    }
    ReferencesCheck(a, references, |references|);
    assert references[..|references|] == references;
  }

  /** The file as the parser sees it before the checks. */
  ghost function Raw(a: Assembly): (raw: RawFile)
    requires Emittable(a)
    ensures raw.start < WORD_LIMIT
  {
    CountsFit(a);
    FileFits(a);
    RawFile(RawSymbols(a, |a.order|), InstructionBase(a), Sections(a))
  }

  /** What the checks make of symbol `k`. */
  ghost predicate Checks(a: Assembly, k: nat)
    requires Emittable(a) && IsEntry(a, k)
  {
    && a.order[k] in Raw(a).symbols
    && var checked := CheckSymbol(Raw(a).symbols[a.order[k]], Raw(a).start, Raw(a).sections);
    && (checked.Ok? <==> InsideFile(a, k))
    && (checked.Ok? ==> RecoveredEntry(a, k, checked.value))
  }

  lemma AllEntriesCheck(a: Assembly)
    requires Emittable(a)
    ensures forall k: nat :: IsEntry(a, k) ==> Checks(a, k)
    ensures forall name :: name in Raw(a).symbols <==> name in a.symbols && !a.symbols[name].ConstantSymbol?
  {
    hide InsideFile, CheckSymbol, RawEntry, InstructionBase, Sections, RecoveredEntry, ContentLength, SymbolReady, SlotsValid;
    RawSymbolsAre(a, |a.order|);
    assert a.order[..|a.order|] == a.order;
    forall k: nat | IsEntry(a, k) ensures Checks(a, k) {
      EntryChecks(a, k);
    }
  }

  /** No symbol but an external stands at the very end of the file. */
  ghost predicate AllInside(a: Assembly) {
    forall k: nat :: IsEntry(a, k) ==> InsideFile(a, k)
  }

  lemma NamedEntry(a: Assembly, name: string) returns (k: nat)
    requires Emittable(a) && name in a.symbols && !a.symbols[name].ConstantSymbol?
    ensures IsEntry(a, k) && a.order[k] == name
  {
    hide SlotsValid, InstructionBase, ContentLength, SymbolReady;
    assert name in a.order;
    k :| k < |a.order| && a.order[k] == name;
  }

  lemma AllCheckedExactly(a: Assembly)
    requires Emittable(a)
    ensures AllChecked(Raw(a)) <==> AllInside(a)
  {
    hide Emittable, Raw, InsideFile, IsEntry, CheckSymbol, RecoveredEntry;
    AllEntriesCheck(a);
    if AllInside(a) {
      forall name | name in Raw(a).symbols
        ensures CheckSymbol(Raw(a).symbols[name], Raw(a).start, Raw(a).sections).Ok?
      {
        var k := NamedEntry(a, name);
        assert Checks(a, k);
      }
    }
    if AllChecked(Raw(a)) {
      forall k: nat | IsEntry(a, k) ensures InsideFile(a, k) {
        assert Checks(a, k);
      }
    }
  }

  lemma CheckedSymbols(raw: RawFile)
    requires raw.start < WORD_LIMIT && AllChecked(raw)
    ensures Checked(raw).sections == raw.sections && Checked(raw).symbols.Keys == raw.symbols.Keys
    ensures forall name :: name in raw.symbols ==>
      Checked(raw).symbols[name] == CheckSymbol(raw.symbols[name], raw.start, raw.sections).value
  {
    hide CheckSymbol;
  }

  lemma CheckedEntry(a: Assembly, k: nat, checked: SymbolTableEntry)
    requires Emittable(a) && IsEntry(a, k) && Checks(a, k)
    requires CheckSymbol(Raw(a).symbols[a.order[k]], Raw(a).start, Raw(a).sections) == Ok(checked)
    ensures RecoveredEntry(a, k, checked)
  {
    hide Emittable, CheckSymbol, Raw, InsideFile, RecoveredEntry;
  }

  lemma CheckedIsRecovered(a: Assembly)
    requires Emittable(a) && AllChecked(Raw(a))
    ensures Recovered(a, Checked(Raw(a)))
  {
    hide Emittable, InsideFile, CheckSymbol, RecoveredEntry, RawSymbols, InstructionBase, Sections, Checked, Checks;
    AllEntriesCheck(a);
    CountsFit(a);
    CheckedSymbols(Raw(a));
    forall k: nat | IsEntry(a, k) && a.order[k] in Checked(Raw(a)).symbols
      ensures RecoveredEntry(a, k, Checked(Raw(a)).symbols[a.order[k]])
    {
      CheckedEntry(a, k, Checked(Raw(a)).symbols[a.order[k]]);
    }
  }

  /** The parser accepts the file exactly when no symbol stands at its very end, and what it accepts is
      what was assembled. */
  lemma RoundTrip(a: Assembly, r: Result<ObjectFile, ParseError>)
    requires Emittable(a) && |FileBytes(a)| < WORD_LIMIT && Parses(FileBytes(a), r)
    ensures r.Ok? <==> AllInside(a)
    ensures r.Ok? ==> Recovered(a, r.value)
  {
    hide Emittable, FileBytes, RawSymbols, InstructionBase, Sections, AllChecked, Checked, Recovered, AllInside;
    ReadsLayout(a);
    AllCheckedExactly(a);
    if AllChecked(Raw(a)) {
      CheckedIsRecovered(a);
    }
  }

  // ----- Data -----

  lemma {:induction false} InitialiserInData(symbols: Symbols, order: seq<string>, mutable: bool, k: nat, n: nat)
    requires k < n <= |order|
    ensures Holds(DataOf(symbols, order, mutable, n), |DataOf(symbols, order, mutable, k)|, InitialiserOf(symbols, order[k], mutable))
    decreases n
  {
    hide InitialiserOf;
    if k < n - 1 {
      InitialiserInData(symbols, order, mutable, k, n - 1);
      StandsInLonger([], DataOf(symbols, order, mutable, n - 1), InitialiserOf(symbols, order[n - 1], mutable),
                     |DataOf(symbols, order, mutable, k)|, InitialiserOf(symbols, order[k], mutable));
    } else {
      StandsInLonger(DataOf(symbols, order, mutable, k), InitialiserOf(symbols, order[k], mutable), [], 0, InitialiserOf(symbols, order[k], mutable));
    }
  }

  lemma StandsInLonger(before: seq<Byte>, image: seq<Byte>, after: seq<Byte>, p: nat, bytes: seq<Byte>)
    requires Holds(image, p, bytes) || (p == 0 && image == bytes)
    ensures Holds(before + image + after, |before| + p, bytes) && Holds(before + image, |before| + p, bytes)
    ensures Holds(image + after, p, bytes)
  {
    assert image[p..p + |bytes|] == bytes;
    assert (before + image + after)[|before| + p..|before| + p + |bytes|] == image[p..p + |bytes|];
    assert (before + image)[|before| + p..|before| + p + |bytes|] == image[p..p + |bytes|];
    assert (image + after)[p..p + |bytes|] == image[p..p + |bytes|];
  }

  /** The value of a data symbol indexes exactly its initialiser in the sections' bytes. */
  lemma DataInPlace(a: Assembly, k: nat)
    requires Emittable(a) && IsEntry(a, k) && a.symbols[a.order[k]].DataSymbol?
    ensures Holds(Flatten(Sections(a)), ValueOf(a, k), a.symbols[a.order[k]].initialiser)
  {
    hide SlotsValid, Sections, InstructionBase, Holds, Flatten, SymbolReady;
    var mutable := a.symbols[a.order[k]].mutable;
    var bytes := a.symbols[a.order[k]].initialiser;
    var offset := |DataOf(a.symbols, a.order, mutable, k)|;
    SaltEmission.SectionsShape(a);
    InitialiserInData(a.symbols, a.order, mutable, k, |a.order|);
    if mutable {
      StandsInLonger(AllData(a, false), AllData(a, true), [], offset, bytes);
      StandsInLonger(a.code, AllData(a, false) + AllData(a, true), [], |AllData(a, false)| + offset, bytes);
    } else {
      StandsInLonger([], AllData(a, false), AllData(a, true), offset, bytes);
      StandsInLonger(a.code, AllData(a, false) + AllData(a, true), [], offset, bytes);
    }
  }

  // ----- Ready for the linker -----

  lemma RecoveredReferences(a: Assembly, file: ObjectFile, name: string, i: nat)
    requires Emittable(a) && Recovered(a, file) && name in file.symbols && i < |file.symbols[name].references|
    ensures HasSlot(a.symbols, name, i) && SlotAt(a.symbols, name, i) == file.symbols[name].references[i]
  {
    hide SlotsValid, Sections, InstructionBase, ContentLength, ValueOf, SymbolReady, TypeOf;
    assert name in a.order;
    var k: nat :| k < |a.order| && a.order[k] == name;
    assert IsEntry(a, k) && RecoveredEntry(a, k, file.symbols[a.order[k]]);
  }

  /** No two references of a recovered file overlap. */
  lemma RecoveredNonOverlapping(a: Assembly, file: ObjectFile)
    requires Emittable(a) && Recovered(a, file)
    ensures SymbolTables.NonOverlapping(file.symbols)
  {
    hide Recovered, Sections, InstructionBase, ContentLength, SymbolReady;
    forall name | name in file.symbols ensures SymbolTables.Spaced(file.symbols[name].references) {
      forall i, j | 0 <= i < j < |file.symbols[name].references|
        ensures SymbolTables.Apart(file.symbols[name].references[i], file.symbols[name].references[j])
      {
        RecoveredApart(a, file, name, i, name, j);
      }
    }
    forall m, n | m in file.symbols && n in file.symbols && m != n
      ensures SymbolTables.AllApart(SymbolTables.Slots(file.symbols[m]), SymbolTables.Slots(file.symbols[n]))
    {
      forall x, y | x in SymbolTables.Slots(file.symbols[m]) && y in SymbolTables.Slots(file.symbols[n])
        ensures SymbolTables.Apart(x, y)
      {
        var i :| 0 <= i < |file.symbols[m].references| && file.symbols[m].references[i] == x;
        var j :| 0 <= j < |file.symbols[n].references| && file.symbols[n].references[j] == y;
        RecoveredApart(a, file, m, i, n, j);
      }
    }
  }

  lemma RecoveredApart(a: Assembly, file: ObjectFile, m: string, i: nat, n: string, j: nat)
    requires Emittable(a) && Recovered(a, file) && m in file.symbols && n in file.symbols
    requires i < |file.symbols[m].references| && j < |file.symbols[n].references| && (m != n || i != j)
    ensures SymbolTables.Apart(file.symbols[m].references[i], file.symbols[n].references[j])
  {
    hide Recovered, Sections, InstructionBase, ContentLength, SymbolReady, ZeroAt;
    RecoveredReferences(a, file, m, i);
    RecoveredReferences(a, file, n, j);
    assert SlotsApart(a.symbols, m, i, n, j);
  }

  /** A file that has been assembled and accepted meets everything the linker's proofs ask of a file. */
  lemma AssembledFileIsValid(a: Assembly, r: Result<ObjectFile, ParseError>)
    requires Emittable(a) && |FileBytes(a)| < WORD_LIMIT && Parses(FileBytes(a), r) && r.Ok?
    ensures Program.ValidFile(r.value)
  {
    hide Emittable, FileBytes, Parses, Recovered;
    RoundTrip(a, r);
    AcceptedIsValid(FileBytes(a), r);
    RecoveredNonOverlapping(a, r.value);
  }

  // ----- When every file is accepted -----

  lemma {:induction false} NonEmptyBefore(symbols: Symbols, order: seq<string>, mutable: bool, k: nat)
    requires k < |order| && |InitialiserOf(symbols, order[k], mutable)| > 0
    ensures |DataOf(symbols, order, mutable, k)| < |DataOf(symbols, order, mutable, |order|)|
  {
    DataGrows(symbols, order, mutable, k + 1, |order|);
  }

  /** With labels inside the code and no empty data items, every file is accepted. */
  lemma NonEmptyIsAccepted(a: Assembly, r: Result<ObjectFile, ParseError>)
    requires Emittable(a) && |FileBytes(a)| < WORD_LIMIT && Parses(FileBytes(a), r)
    requires forall name :: name in a.symbols && a.symbols[name].LabelSymbol? && a.symbols[name].location.AtOffset? ==>
      a.symbols[name].location.offset < |a.code|
    requires forall name :: name in a.symbols && a.symbols[name].DataSymbol? ==> a.symbols[name].initialiser != []
    ensures r.Ok?
  {
    hide FileBytes, Parses, SlotsValid, InstructionBase, Sections;
    RoundTrip(a, r);
    forall k: nat | IsEntry(a, k) ensures InsideFile(a, k) {
      assert SymbolReady(a.order[k], a.symbols[a.order[k]], |a.code|);
      match a.symbols[a.order[k]]
      case DataSymbol(_, mutable, _, _, _) =>
        NonEmptyBefore(a.symbols, a.order, mutable, k);
      case _ =>
    }
  }

  /** One instruction byte, then a data item of no bytes. */
  function EmptyDataItem(): Assembly {
    Assembly(map["d" := DataSymbol(false, true, 0, [], [])], ["d"], [0x00], true)
  }

  lemma EmptyDataIsEmittable()
    ensures Emittable(EmptyDataItem()) && |FileBytes(EmptyDataItem())| < WORD_LIMIT
  {
    var a := EmptyDataItem();
    EmptyDataHasNoBytes();
    assert a.order[0] == "d";
    assert TableSize(a.symbols, a.order, 0) == 0 && TableSize(a.symbols, a.order, 1) == SymbolSize("d", a.symbols["d"]);
    hide AllData, Sections;
    SaltEmission.SectionsShape(a);
    ObjectData.FlattenLength(Sections(a));
  }

  lemma EmptyDataHasNoBytes()
    ensures AllData(EmptyDataItem(), false) == [] && AllData(EmptyDataItem(), true) == []
  {
    var a := EmptyDataItem();
    assert a.order[0] == "d";
    assert DataOf(a.symbols, a.order, false, 0) == [] && DataOf(a.symbols, a.order, true, 0) == [];
    assert DataOf(a.symbols, a.order, false, 1) == [] && DataOf(a.symbols, a.order, true, 1) == [];
  }

  /** An empty data item at the end of the file: assembled, but not accepted. */
  lemma EmptyDataIsRejected(r: Result<ObjectFile, ParseError>)
    ensures Emittable(EmptyDataItem()) && |FileBytes(EmptyDataItem())| < WORD_LIMIT
    ensures Parses(FileBytes(EmptyDataItem()), r) ==> r.Err?
  {
    EmptyDataIsEmittable();
    var a := EmptyDataItem();
    hide FileBytes, Parses, SlotsValid, InstructionBase, Sections;
    if Parses(FileBytes(a), r) {
      RoundTrip(a, r);
      assert a.order[0] == "d";
      assert DataOf(a.symbols, a.order, false, 0) == [] && DataOf(a.symbols, a.order, true, 0) == [];
      assert DataOf(a.symbols, a.order, false, 1) == [] && DataOf(a.symbols, a.order, true, 1) == [];
      assert IsEntry(a, 0) && !InsideFile(a, 0);
    }
  }
}
