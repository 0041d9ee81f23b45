/** Parsing is done: combine all files and link them (simulatron-silk, lib.rs and linker.rs). */
module LinkProgram {
  import opened Bytes
  import opened Wrappers
  import opened ObjectData
  import opened SymbolTables
  import opened ImageLayout
  import opened Linking
  import opened Program
  import opened Summary

  /** Why combining stopped at some file. */
  ghost predicate Uncombinable(files: seq<ObjectFile>, error: LinkError) {
    match error
    case MultipleDefinitions(name) =>
      exists i, j :: 0 <= i < j < |files| && Defines(files, i, name) && Defines(files, j, name)
    case ExternalCollision(name) =>
      exists i, j :: 0 <= i < j < |files| && Imports(files, i, name) && Imports(files, j, name)
                     && forall k :: 0 <= k < j ==> !Defines(files, k, name)
    case RenameFailed(_) => SymbolCount(files, |files|) > WORD_LIMIT
    case _ => false
  }

  /** The state of the linker after the first `n` files. */
  ghost predicate Combined(data: ObjectFile, files: seq<ObjectFile>, n: nat)
    requires WellFormed(files) && n <= |files|
  {
    match data case ObjectFile(symbols, sections) =>
      && ValidFile(data) && sections == AllSections(files, n)
      && Describes(symbols, files, n) && CombinesUpTo(files, n)
  }

  lemma NothingCombined(files: seq<ObjectFile>)
    requires WellFormed(files)
    ensures Combined(ObjectFile(map[], []), files, 0)
  {}

  lemma {:induction false} SymbolCountGrows(files: seq<ObjectFile>, n: nat)
    requires n <= |files|
    ensures SymbolCount(files, n) <= SymbolCount(files, |files|)
    decreases |files| - n
  {
    if n < |files| {
      SymbolCountGrows(files, n + 1);
    }
  }

  lemma NextFile(data: ObjectFile, files: seq<ObjectFile>, n: nat)
    requires WellFormed(files) && n < |files| && Combined(data, files, n)
    ensures Joinable(data, files[n]) && Total(data.sections) == Base(files, n)
  {
    assert ValidFile(files[n]);
    BaseBelow(files, n + 1);
  }

  lemma CombinedOneMore(data: ObjectFile, after: ObjectFile, files: seq<ObjectFile>, n: nat)
    requires WellFormed(files) && n < |files| && Combined(data, files, n) && Joinable(data, files[n])
    requires ValidFile(after) && after.sections == Relocation.Combined(data.sections, files[n].sections)
    requires Merged(data.symbols, Relocated(data, files[n]), after.symbols)
    ensures Combined(after, files, n + 1)
  {
    NextFile(data, files, n);
    RelocatedFits(data, files[n]);
    DescribesOneMore(data.symbols, after.symbols, files, n);
    ShiftedGlobals(files, n);
    CombinesOneMore(Globals(data.symbols), Globals(Relocated(data, files[n])), files, n);
  }

  lemma ObstructedFile(data: ObjectFile, files: seq<ObjectFile>, n: nat, error: LinkError)
    requires WellFormed(files) && n < |files| && Combined(data, files, n)
    requires Obstructs(data.symbols, files[n].symbols, error)
    ensures Uncombinable(files, error)
  {
    match error
    case MultipleDefinitions(name) =>
      ObstructedName(data, files, n, name);
      var i :| 0 <= i < n && Defines(files, i, name);
      assert Defines(files, n, name);
    case ExternalCollision(name) =>
      ObstructedName(data, files, n, name);
      assert Imports(files, n, name);
      var i :| 0 <= i < n && IsGlobal(files, i, name);
      assert !Defines(files, i, name);
      assert Imports(files, i, name) && forall k :: 0 <= k < n ==> !Defines(files, k, name);
    case RenameFailed(_) =>
      SymbolCountGrows(files, n + 1);
  }

  lemma ObstructedName(data: ObjectFile, files: seq<ObjectFile>, n: nat, name: string)
    requires WellFormed(files) && n < |files| && Combined(data, files, n)
    requires name in data.symbols && !data.symbols[name].symbolType.Internal?
    ensures data.symbols[name].symbolType.Public? <==> exists i :: 0 <= i < n && Defines(files, i, name)
    ensures exists i :: 0 <= i < n && IsGlobal(files, i, name)
  {
    assert Summarises(Globals(data.symbols), files, n, name) && name in Globals(data.symbols);
    assert ValidEntry(data.symbols[name], data.sections);
  }

  lemma UncombinableFails(files: seq<ObjectFile>, error: LinkError)
    requires Uncombinable(files, error) && !error.RenameFailed?
    ensures !CombinesUpTo(files, |files|)
  {}

  // ----- From the table to the program -----

  lemma ReferenceInRange(files: seq<ObjectFile>, i: nat, name: string, r: int)
    requires WellFormed(files) && Refers(files, i, name, r)
    ensures Base(files, i) + r + 4 <= Base(files, i) + Total(files[i].sections) <= Base(files, |files|)
  {
    assert ValidFile(files[i]) && ValidEntry(files[i].symbols[name], files[i].sections);
    var k :| 0 <= k < |files[i].symbols[name].references| && files[i].symbols[name].references[k] == r;
    assert ZeroSlot(Flatten(files[i].sections), files[i].symbols[name].references[k]);
    FlattenLength(files[i].sections);
    BaseGrows(files, i, |files|);
  }

  lemma TargetInRange(files: seq<ObjectFile>, i: nat, name: string, target: nat)
    requires WellFormed(files) && Means(files, i, name, target)
    ensures target < Base(files, |files|)
  {
    var j := if files[i].symbols[name].symbolType.External? then var j :| Denotes(files, j, name, target); j else i;
    assert ValidFile(files[j]) && ValidEntry(files[j].symbols[name], files[j].sections);
    BaseGrows(files, j, |files|);
  }

  lemma ReferenceHeld(data: ObjectFile, files: seq<ObjectFile>, image: seq<Byte>, place: Placement,
                      i: nat, name: string, r: int, target: nat)
    requires WellFormed(files) && Combined(data, files, |files|)
    requires IsImage(image, Flatten(data.sections), Patches(data.symbols), place)
    requires Refers(files, i, name, r) && Means(files, i, name, target)
    ensures HoldsReference(image, files, i, r, target, place)
  {
    ReferenceInRange(files, i, name, r);
    TargetInRange(files, i, name, target);
    var p: Patch := (Base(files, i) + r, target);
    TablePatches(data.symbols, files);
    assert p in Patches(data.symbols) by {
      assert IsProgramReference(files, i, name, r, p);
    }
    assert HoldsAddress(image, p, place);
  }

  lemma ReferenceElsewhere(files: seq<ObjectFile>, i: nat, p: nat, j: nat, name: string, r: int)
    requires WellFormed(files) && Refers(files, j, name, r)
    requires i < |files| && p < Total(files[i].sections) && !InSlot(files, i, p)
    ensures Base(files, i) + p < Base(files, j) + r || Base(files, j) + r + 4 <= Base(files, i) + p
  {
    ReferenceInRange(files, j, name, r);
    if j < i {
      BaseGrows(files, j, i);
    } else if i < j {
      BaseGrows(files, i, j);
    }
  }

  lemma OriginalUntouched(patches: set<Patch>, files: seq<ObjectFile>, i: nat, p: nat)
    requires WellFormed(files) && forall q :: q in patches <==> IsProgramPatch(files, q)
    requires i < |files| && p < Total(files[i].sections) && !InSlot(files, i, p)
    ensures Untouched(Base(files, i) + p, patches)
  {
    forall q | q in patches ensures Base(files, i) + p < q.0 || q.0 + 4 <= Base(files, i) + p {
      var j, name, r :| IsProgramReference(files, j, name, r, q);
      ReferenceElsewhere(files, i, p, j, name, r);
    }
  }

  lemma OriginalHeld(patches: set<Patch>, flat: seq<Byte>, files: seq<ObjectFile>,
                     image: seq<Byte>, place: Placement, i: nat, p: nat)
    requires WellFormed(files) && forall q :: q in patches <==> IsProgramPatch(files, q)
    requires IsImage(image, flat, patches, place) && i < |files| && HasFile(flat, files, i)
    requires p < Total(files[i].sections) && !InSlot(files, i, p)
    ensures HoldsOriginal(image, files, i, p, place)
  {
    var v := Base(files, i) + p;
    OriginalUntouched(patches, files, i, p);
    assert ValidFile(files[i]);
    FlattenLength(files[i].sections);
    assert flat[v] == flat[Base(files, i)..Base(files, i) + Total(files[i].sections)][p];
    assert MovesByte(flat, image, v, place);
  }

  /** Linking preserves meaning: the image of the combined table is the image of the program. */
  lemma ImageMeansProgram(data: ObjectFile, files: seq<ObjectFile>, image: seq<Byte>, place: Placement)
    requires WellFormed(files) && Combined(data, files, |files|)
    requires IsImage(image, Flatten(data.sections), Patches(data.symbols), place)
    ensures IsProgramImage(image, files, place)
  {
    FlattenLength(data.sections);
    TablePatches(data.symbols, files);
    forall i, name, r, target | Refers(files, i, name, r) && Means(files, i, name, target)
      ensures HoldsReference(image, files, i, r, target, place)
    {
      ReferenceHeld(data, files, image, place, i, name, r, target);
    }
    forall i, p | 0 <= i < |files| && 0 <= p < Total(files[i].sections) && !InSlot(files, i, p)
      ensures HoldsOriginal(image, files, i, p, place)
    {
      FileBytes(files, |files|, i);
      OriginalHeld(Patches(data.symbols), Flatten(data.sections), files, image, place, i, p);
    }
  }

  // ----- The whole pipeline -----

  method Combine(files: seq<ObjectFile>) returns (linker: Linker, r: Result<(), LinkError>)
    requires WellFormed(files)
    ensures r.Ok? ==> linker.Valid() && Combined(linker.data, files, |files|)
    ensures r.Err? ==> Uncombinable(files, r.error)
    ensures fresh(linker)
  {
    linker := new Linker();
    NothingCombined(files);
    for n := 0 to |files|
      invariant fresh(linker) && linker.Valid() && Combined(linker.data, files, n)
    {
      ghost var before := linker.data;
      NextFile(before, files, n);
      var outcome := linker.AddObjects(files[n]);
      if outcome.Err? {
        ObstructedFile(before, files, n, outcome.error);
        return linker, outcome;
      }
      CombinedOneMore(before, linker.data, files, n);
    }
    return linker, Ok(());
  }

  /** The bytes of the linked image follow from the files alone. */
  ghost predicate IsLinked(image: seq<Byte>, files: seq<ObjectFile>, base: nat)
    requires WellFormed(files)
  {
    exists entry: nat :: OnlyEntrypoint(AllSections(files, |files|), entry)
      && IsProgramImage(image, files, PlacementOf(AllSections(files, |files|), entry, base))
  }

  /** The conditions under which a list of files can be combined and linked. */
  ghost predicate Linkable(files: seq<ObjectFile>, readOnly: bool)
    requires WellFormed(files)
  {
    && CombinesUpTo(files, |files|) && AllDefined(files)
    && Bootable(AllSections(files, |files|), readOnly) && Base(files, |files|) > 0
  }

  /** Combining and linking succeeds exactly for linkable programs and produces the program's image,
      whatever order the symbol tables are visited in. */
  method Link(files: seq<ObjectFile>, readOnly: bool, base: Word) returns (r: Result<seq<Byte>, LinkError>)
    requires WellFormed(files) && base + Base(files, |files|) <= WORD_LIMIT
    ensures r.Ok? ==> Linkable(files, readOnly) && IsLinked(r.value, files, base)
    ensures Linkable(files, readOnly) && SymbolCount(files, |files|) <= WORD_LIMIT ==> r.Ok?
  {
    var linker, outcome := Combine(files);
    if outcome.Err? {
      if !outcome.error.RenameFailed? {
        UncombinableFails(files, outcome.error);
      }
      return Err(outcome.error);
    }
    ghost var data := linker.data;
    assert Total(data.sections) == Base(files, |files|);
    BaseBelow(files, |files|);
    r := linker.LinkAsImage(readOnly, base);
    TableResolvedIn(data, files);
    if r.Ok? {
      ghost var entry: nat :| OnlyEntrypoint(data.sections, entry) && IsImageFrom(r.value, data, base, entry);
      ImageMeansProgram(data, files, r.value, PlacementOf(data.sections, entry, base));
    }
  }

  /** A linked image with zeros behind it. */
  ghost predicate IsLinkedPadded(image: seq<Byte>, files: seq<ObjectFile>, base: nat)
    requires WellFormed(files)
  {
    && Base(files, |files|) <= |image| && IsLinked(image[..Base(files, |files|)], files, base)
    && forall k :: Base(files, |files|) <= k < |image| ==> image[k] == 0
  }

  /** The padded image of the combined data is that of the program. */
  lemma PaddedMeansProgram(data: ObjectFile, files: seq<ObjectFile>, image: seq<Byte>, base: nat)
    requires WellFormed(files) && Combined(data, files, |files|) && IsPaddedImageOf(image, data, base)
    ensures IsLinkedPadded(image, files, base)
  {
    var total := Total(data.sections);
    assert total == Base(files, |files|);
    var entry: nat :| OnlyEntrypoint(data.sections, entry) && IsImageFrom(image[..total], data, base, entry);
    ImageMeansProgram(data, files, image[..total], PlacementOf(data.sections, entry, base));
  }

  /** Combine all files and link them as a ROM: 512 bytes, for the address at which ROM begins. */
  method LinkRom(files: seq<ObjectFile>) returns (r: Result<seq<Byte>, LinkError>)
    requires WellFormed(files) && ROM_BASE + Base(files, |files|) <= WORD_LIMIT
    ensures r.Ok? ==> Linkable(files, true) && IsLinkedPadded(r.value, files, ROM_BASE) && |r.value| == ROM_SIZE
    ensures Linkable(files, true) && Base(files, |files|) <= ROM_SIZE && SymbolCount(files, |files|) <= WORD_LIMIT ==> r.Ok?
  {
    hide IsPaddedImageOf, Bootable;
    var linker, outcome := Combine(files);
    if outcome.Err? {
      if !outcome.error.RenameFailed? {
        UncombinableFails(files, outcome.error);
      }
      return Err(outcome.error);
    }
    ghost var data := linker.data;
    BaseBelow(files, |files|);
    r := linker.LinkAsRom();
    TableResolvedIn(data, files);
    if r.Ok? {
      PaddedMeansProgram(data, files, r.value, ROM_BASE);
    }
  }

  /** Combine all files and link them as a disk image, for the address at which RAM begins. */
  method LinkDisk(files: seq<ObjectFile>) returns (r: Result<seq<Byte>, LinkError>)
    requires WellFormed(files) && DISK_BASE + Base(files, |files|) <= WORD_LIMIT
    ensures r.Ok? ==> Linkable(files, false) && IsLinkedPadded(r.value, files, DISK_BASE) && |r.value| % DISK_ALIGN == 0
    ensures Linkable(files, false) && SymbolCount(files, |files|) <= WORD_LIMIT ==> r.Ok?
  {
    hide IsPaddedImageOf, Bootable;
    var linker, outcome := Combine(files);
    if outcome.Err? {
      if !outcome.error.RenameFailed? {
        UncombinableFails(files, outcome.error);
      }
      return Err(outcome.error);
    }
    ghost var data := linker.data;
    BaseBelow(files, |files|);
    r := linker.LinkAsDisk();
    TableResolvedIn(data, files);
    if r.Ok? {
      PaddedMeansProgram(data, files, r.value, DISK_BASE);
    }
  }

  /** Whatever orders two runs visit the symbol tables in, they produce the same bytes. */
  lemma LinkedImageIsUnique(a: seq<Byte>, b: seq<Byte>, files: seq<ObjectFile>, readOnly: bool, base: nat)
    requires WellFormed(files) && Linkable(files, readOnly)
    requires IsLinked(a, files, base) && IsLinked(b, files, base)
    ensures a == b
  {
    var sections := AllSections(files, |files|);
    var e: nat :| OnlyEntrypoint(sections, e) && IsProgramImage(a, files, PlacementOf(sections, e, base));
    var f: nat :| OnlyEntrypoint(sections, f) && IsProgramImage(b, files, PlacementOf(sections, f, base));
    assert e == f;
    ProgramImageIsUnique(a, b, files, e, base);
  }

  lemma TableResolvedIn(data: ObjectFile, files: seq<ObjectFile>)
    requires WellFormed(files) && Combined(data, files, |files|)
    ensures Resolved(data.symbols) <==> AllDefined(files)
  {
    ExternalsLackValues(data);
    TableResolved(data.symbols, files);
  }
}
