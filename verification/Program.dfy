/** What a list of object files means as one program, independently of how it is linked. */
module Program {
  import opened Bytes
  import opened ObjectData
  import opened SymbolTables
  import opened Relocation
  import opened ImageLayout

  // ----- Where each file goes -----

  /** The number of bytes in the first `n` files. */
  function Base(files: seq<ObjectFile>, n: nat): nat
    requires n <= |files|
  {
    if n == 0 then 0 else Base(files, n - 1) + Total(files[n - 1].sections)
  }

  function SymbolCount(files: seq<ObjectFile>, n: nat): nat
    requires n <= |files|
  {
    if n == 0 then 0 else SymbolCount(files, n - 1) + |files[n - 1].symbols.Keys|
  }

  /** Every file is a parsed file whose references do not overlap, and all fit below 4 GiB. */
  ghost predicate WellFormed(files: seq<ObjectFile>) {
    && (forall i {:trigger ValidFile(files[i])} :: 0 <= i < |files| ==> ValidFile(files[i]))
    && Base(files, |files|) < WORD_LIMIT
  }

  ghost predicate ValidFile(file: ObjectFile) {
    ValidObject(file) && NonOverlapping(file.symbols)
  }

  lemma {:induction false} BaseGrows(files: seq<ObjectFile>, i: nat, j: nat)
    requires i < j <= |files|
    ensures Base(files, i) + Total(files[i].sections) <= Base(files, j)
    decreases j
  {
    if i < j - 1 {
      BaseGrows(files, i, j - 1);
    }
  }

  // ----- Names -----

  /** File `i` gives `name` a meaning beyond the file, by defining or importing it. */
  ghost predicate IsGlobal(files: seq<ObjectFile>, i: int, name: string) {
    0 <= i < |files| && name in files[i].symbols && !files[i].symbols[name].symbolType.Internal?
  }

  ghost predicate Defines(files: seq<ObjectFile>, i: int, name: string) {
    0 <= i < |files| && name in files[i].symbols && files[i].symbols[name].symbolType.Public?
  }

  ghost predicate Imports(files: seq<ObjectFile>, i: int, name: string) {
    0 <= i < |files| && name in files[i].symbols && files[i].symbols[name].symbolType.External?
  }

  /** No name is defined twice, and no file imports a name that an earlier file imports unless a
      file before it defines the name. The first part is the linking rule; the second is what the
      merge loop needs in order not to reach `unreachable!`. */
  ghost predicate CombinesUpTo(files: seq<ObjectFile>, n: nat) {
    && (forall i, j, name :: 0 <= i < j < n && Defines(files, i, name) ==> !Defines(files, j, name))
    && (forall i, j, name :: 0 <= i < j < n && Imports(files, i, name) && Imports(files, j, name) ==>
          exists k :: 0 <= k < j && Defines(files, k, name))
  }

  ghost predicate AllDefined(files: seq<ObjectFile>) {
    forall i, name :: Imports(files, i, name) ==> exists j :: Defines(files, j, name)
  }

  // ----- References and their targets -----

  /** Position `r` of file `i` refers to `name`. */
  ghost predicate Refers(files: seq<ObjectFile>, i: int, name: string, r: int) {
    0 <= i < |files| && name in files[i].symbols && r in files[i].symbols[name].references
  }

  /** Within file `i`, `name` stands for the byte at `target` of the concatenated files. */
  ghost predicate Means(files: seq<ObjectFile>, i: int, name: string, target: nat) {
    && 0 <= i < |files| && name in files[i].symbols
    && if files[i].symbols[name].symbolType.External?
       then exists j :: Denotes(files, j, name, target)
       else files[i].symbols[name].value.Some? && target == Base(files, i) + files[i].symbols[name].value.value
  }

  ghost predicate Denotes(files: seq<ObjectFile>, j: int, name: string, target: nat) {
    Defines(files, j, name) && files[j].symbols[name].value.Some?
    && target == Base(files, j) + files[j].symbols[name].value.value
  }

  ghost predicate InSlot(files: seq<ObjectFile>, i: int, p: int) {
    exists name, r :: Refers(files, i, name, r) && r <= p < r + 4
  }

  // ----- The image of a program -----

  /** All sections of the first `n` files, moved behind each other. */
  ghost function AllSections(files: seq<ObjectFile>, n: nat): (sections: seq<Section>)
    requires WellFormed(files) && n <= |files|
    ensures Contiguous(sections) && Total(sections) == Base(files, n)
  {
    if n == 0 then []
    else
      assert ValidFile(files[n - 1]);
      BaseBelow(files, n);
      CombinedLayout(AllSections(files, n - 1), files[n - 1].sections);
      Combined(AllSections(files, n - 1), files[n - 1].sections)
  }

  lemma BaseBelow(files: seq<ObjectFile>, n: nat)
    requires WellFormed(files) && n <= |files|
    ensures Base(files, n) < WORD_LIMIT
  {
    if n < |files| {
      BaseGrows(files, n, |files|);
    }
  }

  /** The bytes of file `i` start at `Base(files, i)`. */
  ghost predicate HasFile(flat: seq<Byte>, files: seq<ObjectFile>, i: nat)
    requires i < |files|
  {
    var start, end := Base(files, i), Base(files, i) + Total(files[i].sections);
    end <= |flat| && flat[start..end] == Flatten(files[i].sections)
  }

  lemma {:induction false} FileBytes(files: seq<ObjectFile>, n: nat, i: nat)
    requires WellFormed(files) && i < n <= |files|
    ensures HasFile(Flatten(AllSections(files, n)), files, i)
  {
    assert ValidFile(files[n - 1]);
    BaseBelow(files, n);
    var before, last := AllSections(files, n - 1), files[n - 1].sections;
    CombinedLayout(before, last);
    FlattenLength(before);
    FlattenLength(last);
    if i < n - 1 {
      FileBytes(files, n - 1, i);
      BaseGrows(files, i, n - 1);
    }
  }

  /** At every reference, the loaded address of what the name means in that file; everywhere else,
      the bytes of the files, each at its moved position. */
  ghost predicate IsProgramImage(image: seq<Byte>, files: seq<ObjectFile>, place: Placement) {
    && |image| == Base(files, |files|)
    && (forall i, name, r, target :: Refers(files, i, name, r) && Means(files, i, name, target) ==>
          HoldsReference(image, files, i, r, target, place))
    && (forall i, p :: 0 <= i < |files| && 0 <= p < Total(files[i].sections) && !InSlot(files, i, p) ==>
          HoldsOriginal(image, files, i, p, place))
  }

  ghost predicate HoldsReference(image: seq<Byte>, files: seq<ObjectFile>, i: nat, r: nat, target: nat, place: Placement)
    requires i < |files|
  {
    var slot := Relocate(Base(files, i) + r, place);
    slot + 4 <= |image| && Address(target, place) < WORD_LIMIT && image[slot..slot + 4] == Be32(Address(target, place))
  }

  ghost predicate HoldsOriginal(image: seq<Byte>, files: seq<ObjectFile>, i: nat, p: nat, place: Placement)
    requires i < |files|
  {
    var q := Relocate(Base(files, i) + p, place);
    q < |image| && p < |Flatten(files[i].sections)| && image[q] == Flatten(files[i].sections)[p]
  }

  lemma {:induction false} SlotInAllSections(files: seq<ObjectFile>, n: nat, i: nat, r: nat)
    requires WellFormed(files) && i < n <= |files| && InSection(files[i].sections, r)
    ensures InSection(AllSections(files, n), Base(files, i) + r)
  {
    assert ValidFile(files[n - 1]);
    BaseBelow(files, n);
    if i == n - 1 {
      InSectionShifted(AllSections(files, n - 1), files[n - 1].sections, r);
    } else {
      SlotInAllSections(files, n - 1, i, r);
      InSectionKept(AllSections(files, n - 1), files[n - 1].sections, Base(files, i) + r);
    }
  }

  lemma {:induction false} PositionInFile(files: seq<ObjectFile>, n: nat, v: nat) returns (i: nat, p: nat)
    requires n <= |files| && v < Base(files, n)
    ensures i < n && p < Total(files[i].sections) && v == Base(files, i) + p
  {
    if v < Base(files, n - 1) {
      i, p := PositionInFile(files, n - 1, v);
    } else {
      i, p := n - 1, v - Base(files, n - 1);
    }
  }

  /** In a program that combines and has no undefined imports, every reference means one position. */
  lemma MeaningIsUnique(files: seq<ObjectFile>, i: nat, name: string, r: int) returns (target: nat)
    requires WellFormed(files) && CombinesUpTo(files, |files|) && AllDefined(files)
    requires Refers(files, i, name, r)
    ensures Means(files, i, name, target)
    ensures forall other :: Means(files, i, name, other) ==> other == target
  {
    assert ValidFile(files[i]) && ValidEntry(files[i].symbols[name], files[i].sections);
    if files[i].symbols[name].symbolType.External? {
      assert Imports(files, i, name);
      var j :| Defines(files, j, name);
      assert ValidFile(files[j]) && ValidEntry(files[j].symbols[name], files[j].sections);
      target := Base(files, j) + files[j].symbols[name].value.value;
      assert Denotes(files, j, name, target);
      forall other | Means(files, i, name, other) ensures other == target {
        var k :| Denotes(files, k, name, other);
        assert Defines(files, k, name);
      }
    } else {
      target := Base(files, i) + files[i].symbols[name].value.value;
    }
  }

  lemma ProgramImagesAgreeInSlot(a: seq<Byte>, b: seq<Byte>, files: seq<ObjectFile>, place: Placement,
                                 i: nat, p: nat, name: string, r: nat)
    requires WellFormed(files) && CombinesUpTo(files, |files|) && AllDefined(files)
    requires IsProgramImage(a, files, place) && IsProgramImage(b, files, place)
    requires Refers(files, i, name, r) && r <= p < r + 4 && MovesTogether(Base(files, i) + r, place)
    ensures Relocate(Base(files, i) + p, place) < |a| == |b|
    ensures a[Relocate(Base(files, i) + p, place)] == b[Relocate(Base(files, i) + p, place)]
  {
    var target := MeaningIsUnique(files, i, name, r);
    var slot := Relocate(Base(files, i) + r, place);
    WithinSlot(Base(files, i) + r, Base(files, i) + p, place);
    assert HoldsReference(a, files, i, r, target, place) && HoldsReference(b, files, i, r, target, place);
    assert a[slot + (p - r)] == a[slot..slot + 4][p - r] && b[slot + (p - r)] == b[slot..slot + 4][p - r];
  }

  lemma ReferencesMoveTogether(files: seq<ObjectFile>, entry: nat, base: nat, i: nat, name: string, r: int)
    requires WellFormed(files) && entry < |AllSections(files, |files|)| && Refers(files, i, name, r)
    ensures 0 <= r && MovesTogether(Base(files, i) + r, PlacementOf(AllSections(files, |files|), entry, base))
  {
    assert ValidFile(files[i]) && ValidEntry(files[i].symbols[name], files[i].sections);
    var k :| 0 <= k < |files[i].symbols[name].references| && files[i].symbols[name].references[k] == r;
    assert InSection(files[i].sections, files[i].symbols[name].references[k]);
    SlotInAllSections(files, |files|, i, r);
    SlotMovesTogether(AllSections(files, |files|), entry, base, Base(files, i) + r);
  }

  lemma ProgramImagesAgreeAt(a: seq<Byte>, b: seq<Byte>, files: seq<ObjectFile>, entry: nat, base: nat, i: nat, p: nat)
    requires WellFormed(files) && CombinesUpTo(files, |files|) && AllDefined(files)
    requires entry < |AllSections(files, |files|)| && i < |files| && p < Total(files[i].sections)
    requires IsProgramImage(a, files, PlacementOf(AllSections(files, |files|), entry, base))
    requires IsProgramImage(b, files, PlacementOf(AllSections(files, |files|), entry, base))
    ensures var q := Relocate(Base(files, i) + p, PlacementOf(AllSections(files, |files|), entry, base));
      q < |a| == |b| && a[q] == b[q]
  {
    var place := PlacementOf(AllSections(files, |files|), entry, base);
    if InSlot(files, i, p) {
      var name, r :| Refers(files, i, name, r) && r <= p < r + 4;
      ReferencesMoveTogether(files, entry, base, i, name, r);
      ProgramImagesAgreeInSlot(a, b, files, place, i, p, name, r);
    } else {
      assert HoldsOriginal(a, files, i, p, place) && HoldsOriginal(b, files, i, p, place);
    }
  }

  /** The image of a program is determined by its files. */
  lemma ProgramImageIsUnique(a: seq<Byte>, b: seq<Byte>, files: seq<ObjectFile>, entry: nat, base: nat)
    requires WellFormed(files) && CombinesUpTo(files, |files|) && AllDefined(files)
    requires entry < |AllSections(files, |files|)|
    requires IsProgramImage(a, files, PlacementOf(AllSections(files, |files|), entry, base))
    requires IsProgramImage(b, files, PlacementOf(AllSections(files, |files|), entry, base))
    ensures a == b
  {
    var sections := AllSections(files, |files|);
    var place := PlacementOf(sections, entry, base);
    SectionsAreOrdered(sections, entry, |sections|);
    forall q | 0 <= q < |a| ensures a[q] == b[q] {
      RelocateIsBijection(q, place, |a|);
      RelocateIsBijection(Unrelocate(q, place), place, |a|);
      var i, p := PositionInFile(files, |files|, Unrelocate(q, place));
      ProgramImagesAgreeAt(a, b, files, entry, base, i, p);
    }
  }
}
