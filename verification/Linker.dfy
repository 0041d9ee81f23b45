/** Combining object files and linking them into an image (simulatron-silk, linker.rs). */
module Linking {
  import opened Bytes
  import opened Wrappers
  import opened ObjectData
  import opened SymbolTables
  import opened Relocation
  import opened Names
  import opened ImageLayout
  import opened Patching
  import opened PatchOrder

  datatype LinkError =
    | MultipleDefinitions(name: string)
    | ExternalCollision(name: string)  // the source reaches `unreachable!`
    | RenameFailed(name: string)
    | InvalidFlags
    | WritableSection
    | EntrypointNotExecutable
    | MultipleEntrypoints
    | NoEntrypoint
    | UnresolvedSymbol(name: string)
    | SlotNotZero  // the source's assertion on a slot about to be patched
    | EmptyImage
    | ExceedsRom(length: nat)

  const ROM_SIZE := 512
  const DISK_ALIGN := 4096
  const ROM_BASE := 0x40
  const DISK_BASE := 0x4000

  /** Why adding the symbol `entry` under `name` to `table` failed. */
  ghost predicate Rejects(table: SymbolTable, name: string, entry: SymbolTableEntry, error: LinkError) {
    name in table && match error
      case MultipleDefinitions(n) => n == name && entry.symbolType.Public? && table[name].symbolType.Public?
      case ExternalCollision(n) => n == name && entry.symbolType.External? && table[name].symbolType.External?
      case RenameFailed(n) => n == name && |table.Keys| >= WORD_LIMIT
      case _ => false
  }

  // ----- Linking -----

  predicate Acceptable(s: Section, readOnly: bool) {
    HasValidFlags(s) && !(readOnly && IsWritable(s)) && (IsEntrypoint(s) ==> IsExecutable(s))
  }

  ghost predicate OnlyEntrypoint(sections: seq<Section>, entry: nat) {
    && entry < |sections| && IsEntrypoint(sections[entry])
    && forall i :: 0 <= i < |sections| && IsEntrypoint(sections[i]) ==> i == entry
  }

  /** All sections are acceptable and exactly one of them is an entrypoint. */
  ghost predicate Bootable(sections: seq<Section>, readOnly: bool) {
    && (forall i :: 0 <= i < |sections| ==> Acceptable(sections[i], readOnly))
    && exists entry: nat :: OnlyEntrypoint(sections, entry)
  }

  /** What makes a section list unbootable, for each error the search for the entrypoint reports. */
  ghost predicate NotBootable(sections: seq<Section>, readOnly: bool, error: LinkError) {
    match error
    case InvalidFlags => exists s :: s in sections && !HasValidFlags(s)
    case WritableSection => readOnly && exists s :: s in sections && IsWritable(s)
    case EntrypointNotExecutable => exists s :: s in sections && IsEntrypoint(s) && !IsExecutable(s)
    case MultipleEntrypoints =>
      exists i, j :: 0 <= i < j < |sections| && IsEntrypoint(sections[i]) && IsEntrypoint(sections[j])
    case NoEntrypoint => forall s :: s in sections ==> !IsEntrypoint(s)
    case _ => false
  }

  ghost predicate Resolved(symbols: SymbolTable) {
    forall name :: name in symbols ==> symbols[name].value.Some?
  }

  /** Why linking reported `error`; which of several unresolved symbols is named depends on the order. */
  ghost predicate Unlinkable(data: ObjectFile, readOnly: bool, error: LinkError) {
    match error
    case UnresolvedSymbol(name) => name in data.symbols && data.symbols[name].value.None?
    case EmptyImage => Total(data.sections) == 0
    case _ => NotBootable(data.sections, readOnly, error)
  }

  /** `image` is `data` with its entrypoint section in front, loaded at `base`. */
  ghost predicate IsImageOf(image: seq<Byte>, data: ObjectFile, base: nat) {
    exists entry: nat :: OnlyEntrypoint(data.sections, entry) && IsImageFrom(image, data, base, entry)
  }

  ghost predicate IsImageFrom(image: seq<Byte>, data: ObjectFile, base: nat, entry: nat)
    requires entry < |data.sections|
  {
    IsImage(image, Flatten(data.sections), Patches(data.symbols), PlacementOf(data.sections, entry, base))
  }

  ghost predicate IsPaddedImageOf(image: seq<Byte>, data: ObjectFile, base: nat) {
    && Total(data.sections) <= |image|
    && IsImageOf(image[..Total(data.sections)], data, base)
    && forall i :: Total(data.sections) <= i < |image| ==> image[i] == 0
  }

  lemma ImageLength(image: seq<Byte>, data: ObjectFile, base: nat)
    requires Contiguous(data.sections) && IsImageOf(image, data, base)
    ensures |image| == Total(data.sections)
  {
    FlattenLength(data.sections);
  }

  lemma Padded(image: seq<Byte>, padding: seq<Byte>, data: ObjectFile, base: nat)
    requires |image| == Total(data.sections) && IsImageOf(image, data, base)
    requires forall i :: 0 <= i < |padding| ==> padding[i] == 0
    ensures IsPaddedImageOf(image + padding, data, base)
  {
    assert (image + padding)[..Total(data.sections)] == image;
  }

  /** Every slot of the table can be patched at its relocated address in the moved sections. */
  ghost predicate Patchable(symbols: SymbolTable, sections: seq<Section>, place: Placement) {
    forall name, r :: name in symbols && r in symbols[name].references ==>
         && MovesTogether(r, place)
         && Relocate(r, place) < WORD_LIMIT
         && InSection(sections, Relocate(r, place))
         && ZeroSlot(Flatten(sections), Relocate(r, place))
  }

  ghost predicate AddressesFit(symbols: SymbolTable, place: Placement) {
    forall name :: name in symbols && symbols[name].value.Some? ==>
      Address(symbols[name].value.value, place) < WORD_LIMIT
  }

  lemma MovedIsPatchable(data: ObjectFile, entry: nat, base: nat)
    requires ValidObject(data) && entry < |data.sections|
    requires Total(data.sections) < WORD_LIMIT && base + Total(data.sections) <= WORD_LIMIT
    requires forall i :: 0 <= i < entry ==> data.sections[i].start + data.sections[entry].length < WORD_LIMIT
    ensures Patchable(data.symbols, Moved(data.sections, entry), PlacementOf(data.sections, entry, base))
    ensures AddressesFit(data.symbols, PlacementOf(data.sections, entry, base))
  {
    var sections := data.sections;
    var place := PlacementOf(sections, entry, base);
    MovedLayout(sections, entry, base);
    forall name, r | name in data.symbols && r in data.symbols[name].references
      ensures MovesTogether(r, place) && Relocate(r, place) < WORD_LIMIT
      ensures InSection(Moved(sections, entry), Relocate(r, place))
      ensures ZeroSlot(Flatten(Moved(sections, entry)), Relocate(r, place))
    {
      assert ValidEntry(data.symbols[name], sections);
      var k :| 0 <= k < |data.symbols[name].references| && data.symbols[name].references[k] == r;
      assert InSection(sections, r) && ZeroSlot(Flatten(sections), data.symbols[name].references[k]);
      SlotMovesTogether(sections, entry, base, r);
      SlotStaysInSection(sections, entry, base, r);
      ZeroSlotMoves(sections, entry, base, r);
    }
    forall name | name in data.symbols && data.symbols[name].value.Some?
      ensures Relocate(data.symbols[name].value.value, place) < Total(sections)
    {
      assert ValidEntry(data.symbols[name], sections);
    }
  }

  /** A symbol whose value is known is ready to be patched. */
  lemma PatchableReady(symbols: SymbolTable, sections: seq<Section>, place: Placement, name: string)
    requires Patchable(symbols, sections, place) && AddressesFit(symbols, place)
    requires name in symbols && symbols[name].value.Some?
    ensures SymbolReady(symbols, Flatten(sections), place, name)
  {
    hide Be32, Flatten;
    forall k | 0 <= k < |symbols[name].references|
      ensures ZeroSlot(Flatten(sections), Relocate(symbols[name].references[k], place))
    {
      assert symbols[name].references[k] in symbols[name].references;
    }
  }

  /** In a valid file without unresolved symbols every reference can be patched, once the entrypoint has
      moved; whether the checks pass is then a matter of overlaps alone. */
  lemma ObjectIsReady(data: ObjectFile, entry: nat, base: nat)
    requires ValidObject(data) && Resolved(data.symbols) && entry < |data.sections|
    requires Total(data.sections) < WORD_LIMIT && base + Total(data.sections) <= WORD_LIMIT
    requires forall i :: 0 <= i < entry ==> data.sections[i].start + data.sections[entry].length < WORD_LIMIT
    ensures AllReady(data.symbols, Flatten(Moved(data.sections, entry)), PlacementOf(data.sections, entry, base))
  {
    hide ValidObject, SymbolReady, Patchable, AddressesFit;
    var place := PlacementOf(data.sections, entry, base);
    MovedIsPatchable(data, entry, base);
    forall name | name in data.symbols
      ensures SymbolReady(data.symbols, Flatten(Moved(data.sections, entry)), place, name)
    {
      PatchableReady(data.symbols, Moved(data.sections, entry), place, name);
    }
  }

  lemma SameSlots(symbols: SymbolTable, before: seq<Section>, after: seq<Section>, place: Placement, name: string, k: nat)
    requires Patchable(symbols, before, place) && SameLayout(before, after)
    requires name in symbols && k < |symbols[name].references|
    ensures Relocate(symbols[name].references[k], place) < WORD_LIMIT
    ensures InSection(after, Relocate(symbols[name].references[k], place))
  {
    var r := symbols[name].references[k];
    assert r in symbols[name].references;
    var slot := Relocate(r, place);
    var i :| 0 <= i < |before| && Contains(before[i], slot) && Contains(before[i], slot + 3);
    assert Contains(after[i], slot) && Contains(after[i], slot + 3);
  }

  /** Patching without overlap, in whatever order: no check fails, and the image is the patched one. */
  lemma OrderlyPatching(symbols: SymbolTable, sections: seq<Section>, place: Placement, order: seq<string>)
    requires Patchable(symbols, sections, place) && NonOverlapping(symbols)
    requires Distinct(order, symbols) && OrderReady(symbols, Flatten(sections), place, order)
    ensures PatchedIn(symbols, Flatten(sections), place, order).Some?
    ensures Visits(order, symbols) ==>
      Patched(PatchedIn(symbols, Flatten(sections), place, order).value, Flatten(sections), Patches(symbols), place)
  {
    hide NonOverlapping, SymbolReady, Patched, PatchedIn;
    NonOverlappingPasses(symbols, Flatten(sections), place, order);
    if Visits(order, symbols) {
      forall name | name in symbols ensures SymbolReady(symbols, Flatten(sections), place, name) {
        var i :| 0 <= i < |order| && order[i] == name;
      }
      ReadyHasAddress(symbols, Flatten(sections), place);
      NonOverlappingUndisturbed(symbols, place);
      PatchedExactly(symbols, Flatten(sections), place, order);
    }
  }

  lemma ReadyHasAddress(symbols: SymbolTable, image: seq<Byte>, place: Placement)
    requires AllReady(symbols, image, place)
    ensures forall name :: name in symbols ==> HasAddress(symbols, name, place)
  {
    assert forall name :: name in symbols ==> SymbolReady(symbols, image, place, name);
  }

  lemma ZeroSlotMoves(sections: seq<Section>, entry: nat, base: nat, r: nat)
    requires Contiguous(sections) && entry < |sections| && Total(sections) < WORD_LIMIT
    requires forall i :: 0 <= i < entry ==> sections[i].start + sections[entry].length < WORD_LIMIT
    requires InSection(sections, r) && ZeroSlot(Flatten(sections), r)
    ensures ZeroSlot(Flatten(Moved(sections, entry)), Relocate(r, PlacementOf(sections, entry, base)))
  {
    var place := PlacementOf(sections, entry, base);
    var before, after := Flatten(sections), Flatten(Moved(sections, entry));
    MovedLayout(sections, entry, base);
    SlotMovesTogether(sections, entry, base, r);
    var slot := Relocate(r, place);
    assert before[r..r + 4] == [before[r], before[r + 1], before[r + 2], before[r + 3]];
    assert MovesByte(before, after, r, place) && MovesByte(before, after, r + 1, place);
    assert MovesByte(before, after, r + 2, place) && MovesByte(before, after, r + 3, place);
    assert after[slot..slot + 4] == [after[slot], after[slot + 1], after[slot + 2], after[slot + 3]];
  }

  lemma ResolvedEntryValid(existing: SymbolTableEntry, entry: SymbolTableEntry, merged: SymbolTableEntry,
                           sections: seq<Section>)
    requires ValidEntry(existing, sections) && ValidEntry(entry, sections)
    requires !entry.symbolType.Internal? && !existing.symbolType.Internal?
    requires entry.symbolType != existing.symbolType
    requires IsResolution(existing, entry, merged)
    ensures ValidEntry(merged, sections)
  {
    forall k | 0 <= k < |merged.references|
      ensures InSection(sections, merged.references[k]) && ZeroSlot(Flatten(sections), merged.references[k])
    {
      if k < |existing.references| {
        assert merged.references[k] == existing.references[k];
      } else {
        assert merged.references[k] == entry.references[k - |existing.references|];
      }
    }
  }

  /** The symbols of `file` cannot join `table`, for the reason given. */
  ghost predicate Obstructs(table: SymbolTable, file: SymbolTable, error: LinkError) {
    match error
    case MultipleDefinitions(name) =>
      name in table && name in file && table[name].symbolType.Public? && file[name].symbolType.Public?
    case ExternalCollision(name) =>
      name in table && name in file && table[name].symbolType.External? && file[name].symbolType.External?
    case RenameFailed(_) => |table.Keys| + |file.Keys| > WORD_LIMIT
    case _ => false
  }

  /** `file` is a parsed file whose references do not overlap, and both together stay below 4 GiB. */
  ghost predicate Joinable(data: ObjectFile, file: ObjectFile) {
    && ValidObject(file) && NonOverlapping(file.symbols)
    && Total(data.sections) + Total(file.sections) < WORD_LIMIT
  }

  lemma RelocatedFits(data: ObjectFile, file: ObjectFile)
    requires Joinable(data, file)
    ensures forall name :: name in file.symbols ==> EntryFits(file.symbols[name], Total(data.sections))
  {
    forall name | name in file.symbols ensures EntryFits(file.symbols[name], Total(data.sections)) {
      ValidEntryFits(file.symbols[name], file.sections, Total(data.sections));
    }
  }

  /** The symbols of `file` as they appear behind the sections of `data`. */
  ghost function Relocated(data: ObjectFile, file: ObjectFile): SymbolTable
    requires Joinable(data, file)
  {
    RelocatedFits(data, file);
    ShiftTable(file.symbols, Total(data.sections))
  }

  /** `data` holds the sections of both files, the symbols of `before`, and those of `file` except `rest`. */
  ghost predicate Progress(before: ObjectFile, file: ObjectFile, rest: set<string>, data: ObjectFile)
    requires ValidObject(before) && Joinable(before, file)
  {
    match data case ObjectFile(symbols, sections) =>
      && ValidObject(data) && NonOverlapping(symbols)
      && sections == Combined(before.sections, file.sections)
      && Merged(before.symbols, Relocated(before, file) - rest, symbols)
  }

  /** The next symbol of `file`, moved behind the sections of `before`, is fit to be added. */
  lemma EntryReady(before: ObjectFile, file: ObjectFile, rest: set<string>, data: ObjectFile, name: string)
    requires ValidObject(before) && Joinable(before, file) && Progress(before, file, rest, data)
    requires name in rest && name in file.symbols
    ensures Total(data.sections) - Total(file.sections) == Total(before.sections)
    ensures EntryFits(file.symbols[name], Total(before.sections))
    ensures var entry := ShiftEntry(file.symbols[name], Total(before.sections));
      && entry == Relocated(before, file)[name]
      && ValidEntry(entry, data.sections)
      && Spaced(entry.references) && AllApart(TableSlots(data.symbols), Slots(entry))
  {
    CombinedTotal(before.sections, file.sections);
    RelocatedFits(before, file);
    ValidEntryShifted(file.symbols[name], before.sections, file.sections);
    ShiftedNonOverlapping(file.symbols, Total(before.sections));
    FreshSlotsApart(before.symbols, before.sections, Relocated(before, file) - rest, Relocated(before, file), name);
  }

  lemma SymbolMerged(before: ObjectFile, file: ObjectFile, rest: set<string>, data: ObjectFile, name: string,
                     after: ObjectFile)
    requires ValidObject(before) && Joinable(before, file) && Progress(before, file, rest, data)
    requires name in rest && name in file.symbols
    requires ValidObject(after) && NonOverlapping(after.symbols) && after.sections == data.sections
    requires Absorbs(data.symbols, name, Relocated(before, file)[name], after.symbols)
    ensures Progress(before, file, rest - {name}, after)
  {
    var shifted := Relocated(before, file);
    MergedStep(before.symbols, shifted - rest, data.symbols, name, shifted[name], after.symbols);
    OneLess(shifted, rest, name);
  }

  lemma ExternalsLackValues(data: ObjectFile)
    requires ValidObject(data)
    ensures forall n :: n in data.symbols ==> (data.symbols[n].symbolType.External? <==> data.symbols[n].value.None?)
  {
    forall n | n in data.symbols ensures data.symbols[n].symbolType.External? <==> data.symbols[n].value.None? {
      assert ValidEntry(data.symbols[n], data.sections);
    }
  }

  lemma SymbolRejected(before: ObjectFile, file: ObjectFile, rest: set<string>, data: ObjectFile, name: string,
                       error: LinkError)
    requires ValidObject(before) && Joinable(before, file) && Progress(before, file, rest, data)
    requires name in rest && name in file.symbols
    requires Rejects(data.symbols, name, Relocated(before, file)[name], error)
    ensures Obstructs(before.symbols, file.symbols, error)
  {
    hide NonOverlapping, ValidEntry;
    RelocatedFits(before, file);
    SubsetCardinality((Relocated(before, file) - rest).Keys, file.symbols.Keys - {name});
    assert Relocated(before, file)[name] == ShiftEntry(file.symbols[name], Total(before.sections));
    ExternalsLackValues(before);
    ExternalsLackValues(data);
    ObstructedSymbol(before.symbols, Relocated(before, file) - rest, data.symbols, Total(before.sections),
                     file.symbols, name, error);
  }

  lemma NothingMerged(table: SymbolTable)
    ensures table - table.Keys == map[]
  {}

  lemma OneLess(table: SymbolTable, rest: set<string>, name: string)
    requires name in rest && name in table
    ensures table - (rest - {name}) == (table - rest)[name := table[name]]
  {}

  lemma AllMerged(table: SymbolTable)
    ensures table - {} == table
  {}

  lemma SubsetCardinality<T>(a: set<T>, b: set<T>)
    requires a <= b
    ensures |a| <= |b|
  {
    assert b == a + (b - a);
  }

  lemma ObstructedSymbol(before: SymbolTable, added: SymbolTable, middle: SymbolTable, offset: nat, file: SymbolTable,
                         name: string, error: LinkError)
    requires Merged(before, added, middle) && name !in added && name in file
    requires EntryFits(file[name], offset)
    requires Rejects(middle, name, ShiftEntry(file[name], offset), error)
    requires |added.Keys| < |file.Keys|
    requires forall n :: n in before ==> (before[n].symbolType.External? <==> before[n].value.None?)
    requires forall n :: n in middle ==> (middle[n].symbolType.External? <==> middle[n].value.None?)
    ensures Obstructs(before, file, error)
  {
    if !error.RenameFailed? {
      assert name in Globals(middle) && name in Globals(before);
    }
  }

  lemma FreshSlotsApart(before: SymbolTable, sections: seq<Section>, added: SymbolTable, shifted: SymbolTable,
                        name: string)
    requires Contiguous(sections)
    requires forall n :: n in before ==> ValidEntry(before[n], sections)
    requires NonOverlapping(shifted) && name in shifted && name !in added
    requires forall n :: n in added ==> n in shifted && added[n] == shifted[n]
    requires forall r :: r in Slots(shifted[name]) ==> Total(sections) <= r
    ensures AllApart(TableSlots(before) + TableSlots(added), Slots(shifted[name]))
  {
    SlotsInRange(before, sections);
    forall x, y | x in TableSlots(added) && y in Slots(shifted[name]) ensures Apart(x, y) {
      var n :| n in added && x in added[n].references;
      assert AllApart(Slots(shifted[n]), Slots(shifted[name])) && x in Slots(shifted[n]);
    }
  }

  class Linker {
    var data: ObjectFile

    ghost predicate Valid()
      reads this
    {
      ValidObject(data) && NonOverlapping(data.symbols)
    }

    constructor ()
      ensures Valid() && data == ObjectFile(map[], [])
    {
      data := ObjectFile(map[], []);
    }

    /** Add the sections and symbols of a parsed file. */
    method AddObjects(file: ObjectFile) returns (r: Result<(), LinkError>)
      requires Valid() && Joinable(data, file)
      modifies this
      ensures r.Ok? ==> Valid() && data.sections == Combined(old(data.sections), file.sections)
      ensures r.Ok? ==> Merged(old(data.symbols), Relocated(old(data), file), data.symbols)
      ensures r.Err? ==> Obstructs(old(data.symbols), file.symbols, r.error)
    {
      ghost var before := data;
      AppendSections(file);
      r := MergeSymbols(file, before);
    }

    /** The merge loop. The symbols are visited in an arbitrary order; neither success nor the
        resulting content depends on it. */
    method MergeSymbols(file: ObjectFile, ghost before: ObjectFile) returns (r: Result<(), LinkError>)
      requires Valid() && ValidObject(before) && Joinable(before, file)
      requires data == ObjectFile(before.symbols, Combined(before.sections, file.sections))
      modifies this
      ensures r.Ok? ==> Valid() && data.sections == old(data.sections)
      ensures r.Ok? ==> Merged(before.symbols, Relocated(before, file), data.symbols)
      ensures r.Err? ==> Obstructs(before.symbols, file.symbols, r.error)
    {
      var rest := file.symbols.Keys;
      MergedNothing(before.symbols);
      NothingMerged(Relocated(before, file));
      while rest != {}
        invariant rest <= file.symbols.Keys
        invariant Progress(before, file, rest, data)
      {
        var name :| name in rest;
        r := MergeSymbol(file, name, before, rest);
        if r.Err? {
          return;
        }
        rest := rest - {name};
      }
      AllMerged(Relocated(before, file));
      return Ok(());
    }

    /** One symbol of `rest`, the symbols of `file` not merged yet. */
    method MergeSymbol(file: ObjectFile, name: string, ghost before: ObjectFile, ghost rest: set<string>)
      returns (r: Result<(), LinkError>)
      requires ValidObject(before) && Joinable(before, file) && Progress(before, file, rest, data)
      requires name in rest && rest <= file.symbols.Keys
      modifies this
      ensures r.Ok? ==> Progress(before, file, rest - {name}, data)
      ensures r.Err? ==> Obstructs(before.symbols, file.symbols, r.error)
    {
      EntryReady(before, file, rest, data, name);
      var entry := ShiftEntry(file.symbols[name], Total(data.sections) - Total(file.sections));
      ghost var middle := data;
      r := AddSymbol(name, entry);
      if r.Err? {
        SymbolRejected(before, file, rest, middle, name, r.error);
      } else {
        SymbolMerged(before, file, rest, middle, name, data);
      }
    }

    method AppendSections(file: ObjectFile)
      requires Valid() && Joinable(data, file)
      modifies this
      ensures Valid() && data == old(data).(sections := Combined(old(data.sections), file.sections))
    {
      var offset := Total(data.sections);
      StartsFit(file.sections, offset);
      CombinedLayout(data.sections, file.sections);
      forall name | name in data.symbols
        ensures ValidEntry(data.symbols[name], Combined(data.sections, file.sections))
      {
        ValidEntryKept(data.symbols[name], data.sections, file.sections);
      }
      data := data.(sections := data.sections + ShiftSections(file.sections, offset));
    }

    /** One turn of the merge loop: insert, rename or resolve. */
    method AddSymbol(name: string, entry: SymbolTableEntry) returns (r: Result<(), LinkError>)
      requires Valid()
      requires ValidEntry(entry, data.sections)
      requires Spaced(entry.references) && AllApart(TableSlots(data.symbols), Slots(entry))
      modifies this
      ensures data.sections == old(data.sections)
      ensures r.Ok? ==> Valid() && Absorbs(old(data.symbols), name, entry, data.symbols)
      ensures r.Err? ==> Rejects(old(data.symbols), name, entry, r.error)
    {
      var symbols := data.symbols;
      if name !in symbols {
        Insert(name, entry);
      } else {
        var existing := symbols[name];
        if entry.symbolType.Internal? {
          var unused := GenNonConflictingName(symbols, name);
          if unused.None? {
            return Err(RenameFailed(name));
          }
          Insert(unused.value, entry);
        } else if existing.symbolType.Internal? {
          var unused := GenNonConflictingName(symbols, name);
          if unused.None? {
            return Err(RenameFailed(name));
          }
          RenameInternal(symbols, name, unused.value);
          data := data.(symbols := (symbols - {name})[unused.value := existing]);
          Insert(name, entry);
        } else if entry.symbolType.External? && existing.symbolType.Public? {
          Resolve(name, entry, existing.(references := existing.references + entry.references));
        } else if entry.symbolType.Public? && existing.symbolType.External? {
          Resolve(name, entry,
                  SymbolTableEntry(Public, entry.value, existing.references + entry.references));
        } else if entry.symbolType.Public? {
          return Err(MultipleDefinitions(name));
        } else {
          return Err(ExternalCollision(name));
        }
      }
      return Ok(());
    }

    method Insert(name: string, entry: SymbolTableEntry)
      requires Valid() && name !in data.symbols
      requires ValidEntry(entry, data.sections)
      requires Spaced(entry.references) && AllApart(TableSlots(data.symbols), Slots(entry))
      modifies this
      ensures Valid() && data == old(data).(symbols := old(data.symbols)[name := entry])
      ensures Absorbs(old(data.symbols), name, entry, data.symbols)
    {
      InsertAbsorbed(data.symbols, name, entry);
      InsertNonOverlapping(data.symbols, name, entry);
      data := data.(symbols := data.symbols[name := entry]);
    }

    /** A definition and the external entry of its name become one entry with both reference lists. */
    method Resolve(name: string, entry: SymbolTableEntry, merged: SymbolTableEntry)
      requires Valid() && name in data.symbols
      requires ValidEntry(entry, data.sections)
      requires Spaced(entry.references) && AllApart(TableSlots(data.symbols), Slots(entry))
      requires !entry.symbolType.Internal? && !data.symbols[name].symbolType.Internal?
      requires entry.symbolType != data.symbols[name].symbolType
      requires IsResolution(data.symbols[name], entry, merged)
      modifies this
      ensures Valid() && data == old(data).(symbols := old(data.symbols)[name := merged])
      ensures Absorbs(old(data.symbols), name, entry, data.symbols)
    {
      ResolveAbsorbed(data.symbols, name, entry, merged);
      ResolvedEntryValid(data.symbols[name], entry, merged, data.sections);
      data := data.(symbols := data.symbols[name := merged]);
    }

    // ----- Linking -----

    /** Produce the unpadded image. Success and the image depend only on the content of the linker,
        never on the order in which the symbols are visited. */
    method LinkAsImage(readOnly: bool, base: Word) returns (r: Result<seq<Byte>, LinkError>)
      requires Valid()
      requires Total(data.sections) < WORD_LIMIT && base + Total(data.sections) <= WORD_LIMIT
      modifies this
      ensures r.Ok? <==>
        Bootable(old(data.sections), readOnly) && Resolved(old(data.symbols)) && Total(old(data.sections)) > 0
      ensures r.Ok? ==> IsImageOf(r.value, old(data), base)
      ensures r.Err? ==> Unlinkable(old(data), readOnly, r.error)
    {
      ghost var original := data;
      var entry :- FindEntrypoint(readOnly);
      var place := PlacementOf(data.sections, entry, base);
      MovedFits(data.sections, entry);
      MovedLayout(data.sections, entry, base);
      MovedIsPatchable(data, entry, base);
      MoveEntrypoint(entry);
      ghost var moved := data.sections;
      var outcome, order := PatchSymbols(place);
      OrderlyPatching(original.symbols, moved, place, order);
      if outcome.Err? {
        return Err(outcome.error);
      }
      FlattenLength(original.sections);
      PatchedIsImage(Flatten(data.sections), Flatten(moved), Flatten(original.sections),
                     Patches(original.symbols), place);
      var image := Concatenate();
      if image == [] {
        return Err(EmptyImage);
      }
      assert IsImageFrom(image, original, base, entry);
      return Ok(image);
    }

    /** A ROM image: read-only, at ROM_BASE, zero-padded to exactly ROM_SIZE bytes. */
    method LinkAsRom() returns (r: Result<seq<Byte>, LinkError>)
      requires Valid() && Total(data.sections) < WORD_LIMIT && ROM_BASE + Total(data.sections) <= WORD_LIMIT
      modifies this
      ensures r.Ok? <==>
        && Bootable(old(data.sections), true) && Resolved(old(data.symbols))
        && 0 < Total(old(data.sections)) <= 512
      ensures r.Ok? ==> IsPaddedImageOf(r.value, old(data), 0x40) && |r.value| == 512
    {
      ghost var original := data;
      var image :- LinkAsImage(true, ROM_BASE);
      ImageLength(image, original, ROM_BASE);
      if |image| > ROM_SIZE {
        return Err(ExceedsRom(|image|));
      }
      var padding := seq(ROM_SIZE - |image|, _ => 0);
      Padded(image, padding, original, ROM_BASE);
      return Ok(image + padding);
    }

    /** A disk image: at DISK_BASE, zero-padded to the next multiple of DISK_ALIGN. */
    method LinkAsDisk() returns (r: Result<seq<Byte>, LinkError>)
      requires Valid() && Total(data.sections) < WORD_LIMIT && DISK_BASE + Total(data.sections) <= WORD_LIMIT
      modifies this
      ensures r.Ok? <==>
        Bootable(old(data.sections), false) && Resolved(old(data.symbols)) && Total(old(data.sections)) > 0
      ensures r.Ok? ==> IsPaddedImageOf(r.value, old(data), 0x4000)
      ensures r.Ok? ==>
        |r.value| % 4096 == 0 && Total(old(data.sections)) <= |r.value| < Total(old(data.sections)) + 4096
    {
      ghost var original := data;
      var image :- LinkAsImage(false, DISK_BASE);
      ImageLength(image, original, DISK_BASE);
      var remainder := |image| % DISK_ALIGN;
      var padding := if remainder > 0 then seq(DISK_ALIGN - remainder, _ => 0) else [];
      Padded(image, padding, original, DISK_BASE);
      return Ok(image + padding);
    }

    method FindEntrypoint(readOnly: bool) returns (r: Result<nat, LinkError>)
      ensures r.Ok? <==> Bootable(data.sections, readOnly)
      ensures r.Ok? ==> OnlyEntrypoint(data.sections, r.value)
      ensures r.Err? ==> NotBootable(data.sections, readOnly, r.error)
    {
      var entrypoint: Option<nat> := None;
      for i := 0 to |data.sections|
        invariant forall j :: 0 <= j < i ==> Acceptable(data.sections[j], readOnly)
        invariant entrypoint.None? ==> forall j :: 0 <= j < i ==> !IsEntrypoint(data.sections[j])
        invariant entrypoint.Some? ==> OnlyEntrypoint(data.sections[..i], entrypoint.value)
      {
        var section := data.sections[i];
        if !HasValidFlags(section) {
          return Err(InvalidFlags);
        }
        if readOnly && IsWritable(section) {
          return Err(WritableSection);
        }
        if IsEntrypoint(section) {
          if !IsExecutable(section) {
            return Err(EntrypointNotExecutable);
          }
          if entrypoint.Some? {
            assert IsEntrypoint(data.sections[..i][entrypoint.value]);
            return Err(MultipleEntrypoints);
          }
          entrypoint := Some(i);
        }
      }
      assert data.sections[..|data.sections|] == data.sections;
      if entrypoint.None? {
        return Err(NoEntrypoint);
      }
      return Ok(entrypoint.value);
    }

    method MoveEntrypoint(entry: nat)
      requires entry < |data.sections|
      requires forall i :: 0 <= i < entry ==> data.sections[i].start + data.sections[entry].length < WORD_LIMIT
      modifies this
      ensures data == old(data).(sections := Moved(old(data.sections), entry))
    {
      var sections := data.sections;
      var offset := sections[entry].length;
      var v := new Section[|sections|](i requires 0 <= i < |sections| => sections[i]);
      v[entry] := v[entry].(start := 0);
      for i := 0 to entry
        invariant data == old(data)
        invariant forall k :: 0 <= k < i ==> v[k] == sections[k].(start := sections[k].start + offset)
        invariant forall k :: i <= k < |sections| && k != entry ==> v[k] == sections[k]
        invariant v[entry] == sections[entry].(start := 0)
      {
        v[i] := v[i].(start := v[i].start + offset);
      }
      ghost var moved := Moved(sections, entry);
      assert v[..entry] == moved[1..entry + 1] && v[entry + 1..] == moved[entry + 1..];
      assert moved == [moved[0]] + moved[1..entry + 1] + moved[entry + 1..];
      MoveToStart(v, entry);
      data := data.(sections := v[..]);
    }

    /** Patch all references of all symbols, in an arbitrary order of the symbols. References may overlap:
        the image is the one patched in the order chosen, or a check fails in that order. */
    method PatchSymbols(place: Placement) returns (r: Result<(), LinkError>, ghost order: seq<string>)
      requires Contiguous(data.sections) && Patchable(data.symbols, data.sections, place)
      requires AddressesFit(data.symbols, place)
      modifies this
      ensures data.symbols == old(data.symbols)
      ensures Distinct(order, data.symbols) && OrderReady(data.symbols, Flatten(old(data.sections)), place, order)
      ensures r.Ok? ==> Visits(order, data.symbols) && Resolved(data.symbols)
      ensures r.Ok? ==> Contiguous(data.sections) && SameLayout(old(data.sections), data.sections)
      ensures r.Ok? ==>
        PatchedIn(data.symbols, Flatten(old(data.sections)), place, order) == Some(Flatten(data.sections))
      ensures r.Err? ==>
        match r.error
        case UnresolvedSymbol(name) => name in data.symbols && data.symbols[name].value.None?
        case SlotNotZero => PatchedIn(data.symbols, Flatten(old(data.sections)), place, order).None?
        case _ => false
    {
      hide OrderReady, PatchedIn;
      ghost var moved := data.sections;
      var rest := data.symbols.Keys;
      order := [];
      NothingVisited(data.symbols, Flatten(moved), place);
      while rest != {}
        invariant rest <= data.symbols.Keys
        invariant data.symbols == old(data.symbols)
        invariant forall name :: name in data.symbols && name !in rest ==> name in order
        invariant forall name :: name in order ==> name in data.symbols && name !in rest && data.symbols[name].value.Some?
        invariant Distinct(order, data.symbols) && OrderReady(data.symbols, Flatten(moved), place, order)
        invariant Contiguous(data.sections) && SameLayout(moved, data.sections)
        invariant PatchedIn(data.symbols, Flatten(moved), place, order) == Some(Flatten(data.sections))
      {
        var name :| name in rest;
        var symbol := data.symbols[name];
        if symbol.value.None? {
          return Err(UnresolvedSymbol(name)), order;
        }
        PatchableReady(data.symbols, moved, place, name);
        OneMoreVisited(data.symbols, Flatten(moved), place, order, name);
        var ok := PatchSymbol(name, order, moved, place);
        order := order + [name];
        if !ok {
          return Err(SlotNotZero), order;
        }
        rest := rest - {name};
      }
      return Ok(()), order;
    }

    method PatchSymbol(name: string, ghost order: seq<string>, ghost moved: seq<Section>, place: Placement) returns (ok: bool)
      requires Contiguous(moved) && Patchable(data.symbols, moved, place) && AddressesFit(data.symbols, place)
      requires Contiguous(data.sections) && SameLayout(moved, data.sections)
      requires name in data.symbols && SymbolReady(data.symbols, Flatten(moved), place, name)
      requires OrderReady(data.symbols, Flatten(moved), place, order)
      requires OrderReady(data.symbols, Flatten(moved), place, order + [name])
      requires PatchedIn(data.symbols, Flatten(moved), place, order) == Some(Flatten(data.sections))
      modifies this
      ensures data.symbols == old(data.symbols)
      ensures ok ==> Contiguous(data.sections) && SameLayout(moved, data.sections)
      ensures PatchedIn(data.symbols, Flatten(moved), place, order + [name])
           == if ok then Some(Flatten(data.sections)) else None
    {
      hide OrderReady, SymbolReady, Apply, Writes, Be32, Patchable, SameLayout, Contiguous, Relocate;
      var symbol := data.symbols[name];
      ReadyIs(data.symbols, Flatten(moved), place, name);
      OneMoreVisited(data.symbols, Flatten(moved), place, order, name);
      var address := Address(symbol.value.value, place);
      ghost var before := Writes(data.symbols, order, place);
      ghost var all := before + EntryWrites(data.symbols, name, place);
      for k := 0 to |symbol.references|
        invariant data.symbols == old(data.symbols)
        invariant Contiguous(data.sections) && SameLayout(moved, data.sections)
        invariant Apply(Flatten(moved), all, |before| + k) == Some(Flatten(data.sections))
      {
        var relocated := Relocate(symbol.references[k], place);
        SameSlots(data.symbols, moved, data.sections, place, name, k);
        ApplyStep(Flatten(moved), all, |before| + k);
        ghost var current := data.sections;
        ok := PatchSlot(relocated, Be32(address));
        if !ok {
          FailureStays(Flatten(moved), all, |before| + k + 1, |all|);
          return;
        }
        SameLayoutTrans(moved, current, data.sections);
      }
      ok := true;
    }

    /** Overwrite the four bytes of one slot, provided that they are zero. */
    method PatchSlot(slot: Word, bytes: seq<Byte>) returns (ok: bool)
      requires |bytes| == 4 && Contiguous(data.sections) && InSection(data.sections, slot)
      modifies this
      ensures data.symbols == old(data.symbols) && slot + 4 <= |Flatten(old(data.sections))|
      ensures ok ==> Contiguous(data.sections) && SameLayout(old(data.sections), data.sections)
      ensures CheckedPatch(Flatten(old(data.sections)), slot, bytes) == if ok then Some(Flatten(data.sections)) else None
    {
      ghost var before := Flatten(data.sections);
      FlattenLength(data.sections);
      SlotHasSection(data.sections, slot);
      var found := FindSection(data.sections, slot);
      var index := found.value;
      var sectionOffset := slot - data.sections[index].start;
      for i := 0 to 4
        invariant data.symbols == old(data.symbols)
        invariant Contiguous(data.sections) && SameLayout(old(data.sections), data.sections)
        invariant index < |data.sections| && slot == data.sections[index].start + sectionOffset
        invariant sectionOffset + 4 <= data.sections[index].length
        invariant slot + 4 <= |before| && Flatten(data.sections) == HalfSpliced(before, slot, bytes, i)
        invariant forall q :: slot <= q < slot + i ==> before[q] == 0
      {
        NextByte(data.sections, index, sectionOffset + i, before, slot, bytes, i);
        if data.sections[index].data[sectionOffset + i] != 0 {
          return false;
        }
        data := data.(sections := SetByte(data.sections, index, sectionOffset + i, bytes[i]));
      }
      SlotBytes(before, slot);
      assert HalfSpliced(before, slot, bytes, 4) == Splice(before, slot, bytes);
      ok := true;
    }

    method Concatenate() returns (image: seq<Byte>)
      ensures image == Flatten(data.sections)
    {
      image := [];
      for i := 0 to |data.sections|
        invariant image == Joined(data.sections, i)
      {
        image := image + data.sections[i].data;
      }
    }
  }
}
