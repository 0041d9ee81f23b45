/** What the assembler's section flags mean to the linker, and which assembled programs can be linked. */
module SectionFlags {
  import opened Bytes
  import opened Wrappers
  import opened ObjectData
  import opened SaltSymbols
  import opened SaltLayout
  import opened SaltToSilk
  import opened Relocation
  import opened Linking
  import opened Program
  import opened LinkProgram

  // ----- One file -----

  ghost predicate IsCodeSection(s: Section, a: Assembly) {
    && HasValidFlags(s) && IsExecutable(s) && !IsWritable(s) && !IsReadable(s) && (IsEntrypoint(s) <==> a.entrypoint)
    && s.data == a.code
  }

  ghost predicate IsDataSection(s: Section, a: Assembly, mutable: bool) {
    && HasValidFlags(s) && IsReadable(s) && (IsWritable(s) <==> mutable) && !IsExecutable(s) && !IsEntrypoint(s)
    && s.data == AllData(a, mutable)
  }

  ghost predicate Classified(s: Section, a: Assembly) {
    IsCodeSection(s, a) || IsDataSection(s, a, false) || IsDataSection(s, a, true)
  }

  ghost predicate AllClassified(sections: seq<Section>, a: Assembly) {
    forall i :: 0 <= i < |sections| ==> Classified(sections[i], a)
  }

  /** The linker's valid flags are those that are made of the four it knows. */
  lemma ValidFlagsAre(s: Section)
    ensures HasValidFlags(s) <==>
      s.flags == (if IsEntrypoint(s) then 0x01 else 0) + (if IsReadable(s) then 0x04 else 0)
               + (if IsWritable(s) then 0x08 else 0) + (if IsExecutable(s) then 0x10 else 0)
  {}

  lemma FlagsMean(s: Section, a: Assembly)
    ensures s.flags == CodeFlags(a.entrypoint) && s.data == a.code ==> IsCodeSection(s, a)
    ensures s.flags == FLAG_READ && s.data == AllData(a, false) ==> IsDataSection(s, a, false)
    ensures s.flags == FLAG_READ + FLAG_WRITE && s.data == AllData(a, true) ==> IsDataSection(s, a, true)
  {}

  /** The sections of an assembled file: its code comes first, is executable and not writable, and the
      entrypoint exactly if the file was assembled as one; there is a writable section exactly if there is
      mutable data. */
  lemma SectionsClassified(a: Assembly)
    requires ContentLength(a) < WORD_LIMIT
    ensures AllClassified(Sections(a), a)
    ensures a.code != [] ==> |Sections(a)| > 0 && IsCodeSection(Sections(a)[0], a)
    ensures forall i :: 0 <= i < |Sections(a)| ==> (IsEntrypoint(Sections(a)[i]) <==> i == 0 && a.code != [] && a.entrypoint)
    ensures (exists i :: 0 <= i < |Sections(a)| && IsWritable(Sections(a)[i])) <==> AllData(a, true) != []
  {
    hide AllData;
    var one := AddSection([], CodeFlags(a.entrypoint), a.code);
    var two := AddSection(one, FLAG_READ, AllData(a, false));
    var three := AddSection(two, FLAG_READ + FLAG_WRITE, AllData(a, true));
    forall i | 0 <= i < |three| ensures i < |one| ==> three[i] == one[0] && IsCodeSection(three[i], a)
      ensures |one| <= i < |two| ==> IsDataSection(three[i], a, false)
      ensures |two| <= i ==> IsDataSection(three[i], a, true)
    {
      FlagsMean(three[i], a);
    }
    if AllData(a, true) != [] {
      assert IsWritable(three[|two|]);
    }
  }

  // ----- All files -----

  function SectionCount(files: seq<ObjectFile>, n: nat): nat
    requires n <= |files|
  {
    if n == 0 then 0 else SectionCount(files, n - 1) + |files[n - 1].sections|
  }

  /** Where section `j` of file `i` comes among the sections of the program. */
  function Place(files: seq<ObjectFile>, i: nat, j: nat): nat
    requires i <= |files|
  {
    SectionCount(files, i) + j
  }

  ghost predicate SameFlags(sections: seq<Section>, k: nat, s: Section) {
    k < |sections| && sections[k].flags == s.flags
  }

  lemma CombinedFlags(first: seq<Section>, second: seq<Section>, k: nat)
    requires Contiguous(first) && Contiguous(second) && Total(first) + Total(second) < WORD_LIMIT
    ensures |Relocation.Combined(first, second)| == |first| + |second|
    ensures k < |first| ==> SameFlags(Relocation.Combined(first, second), k, first[k])
    ensures k < |second| ==> SameFlags(Relocation.Combined(first, second), |first| + k, second[k])
  {}

  /** Every section of a file is found among those of the program. */
  lemma {:induction false} SectionKept(files: seq<ObjectFile>, n: nat, i: nat, j: nat)
    requires WellFormed(files) && i < n <= |files| && j < |files[i].sections|
    ensures |AllSections(files, n)| == SectionCount(files, n)
    ensures SameFlags(AllSections(files, n), Place(files, i, j), files[i].sections[j])
  {
    hide Relocation.Combined, Contiguous, Total;
    SectionsCounted(files, n);
    assert ValidFile(files[n - 1]);
    BaseBelow(files, n);
    var before := AllSections(files, n - 1);
    SectionsCounted(files, n - 1);
    if i < n - 1 {
      SectionKept(files, n - 1, i, j);
      CombinedFlags(before, files[n - 1].sections, Place(files, i, j));
    } else {
      CombinedFlags(before, files[n - 1].sections, j);
    }
  }

  lemma {:induction false} SectionsCounted(files: seq<ObjectFile>, n: nat)
    requires WellFormed(files) && n <= |files|
    ensures |AllSections(files, n)| == SectionCount(files, n)
  {
    hide Relocation.Combined, Contiguous, Total;
    if n > 0 {
      SectionsCounted(files, n - 1);
      assert ValidFile(files[n - 1]);
      BaseBelow(files, n);
      CombinedFlags(AllSections(files, n - 1), files[n - 1].sections, 0);
    }
  }

  /** And every section of the program is one of a file. */
  lemma {:induction false} SectionComesFrom(files: seq<ObjectFile>, n: nat, k: nat) returns (i: nat, j: nat)
    requires n <= |files| && k < SectionCount(files, n)
    ensures i < n && j < |files[i].sections| && k == Place(files, i, j)
  {
    if k < SectionCount(files, n - 1) {
      i, j := SectionComesFrom(files, n - 1, k);
    } else {
      i, j := n - 1, k - SectionCount(files, n - 1);
    }
  }

  lemma {:induction false} PlacesOrdered(files: seq<ObjectFile>, i: nat, j: nat)
    requires i < j <= |files|
    ensures SectionCount(files, i) + |files[i].sections| <= SectionCount(files, j)
    decreases j
  {
    if i < j - 1 {
      PlacesOrdered(files, i, j - 1);
    }
  }

  // ----- Assembled programs -----

  /** Every file is one that was assembled. */
  ghost predicate AllAssembled(files: seq<ObjectFile>, assemblies: seq<Assembly>) {
    && |assemblies| == |files|
    && forall i :: 0 <= i < |files| ==> AssembledAt(files, assemblies, i)
  }

  ghost predicate AssembledAt(files: seq<ObjectFile>, assemblies: seq<Assembly>, i: nat)
    requires i < |files| == |assemblies|
  {
    Emittable(assemblies[i]) && Recovered(assemblies[i], files[i])
  }

  predicate StartsIn(assemblies: seq<Assembly>, i: nat) {
    i < |assemblies| && assemblies[i].entrypoint && assemblies[i].code != []
  }

  /** Exactly one file with code was assembled as the entrypoint. */
  ghost predicate OneStart(assemblies: seq<Assembly>) {
    exists i: nat :: OnlyStart(assemblies, i)
  }

  ghost predicate OnlyStart(assemblies: seq<Assembly>, i: nat) {
    StartsIn(assemblies, i) && forall j: nat :: StartsIn(assemblies, j) ==> j == i
  }

  ghost predicate NoMutableData(assemblies: seq<Assembly>) {
    forall i :: 0 <= i < |assemblies| ==> AllData(assemblies[i], true) == []
  }

  lemma AssembledSections(files: seq<ObjectFile>, assemblies: seq<Assembly>, i: nat)
    requires AllAssembled(files, assemblies) && i < |files|
    ensures ContentLength(assemblies[i]) < WORD_LIMIT && files[i].sections == Sections(assemblies[i])
  {
    assert AssembledAt(files, assemblies, i);
  }

  /** A section of the program is the entrypoint exactly if it is the code of a file assembled as such. */
  lemma EntrypointAt(files: seq<ObjectFile>, assemblies: seq<Assembly>, k: nat) returns (i: nat, j: nat)
    requires WellFormed(files) && AllAssembled(files, assemblies) && k < |AllSections(files, |files|)|
    ensures i < |files| && j < |files[i].sections| && k == Place(files, i, j)
    ensures SameFlags(AllSections(files, |files|), k, files[i].sections[j])
    ensures Classified(files[i].sections[j], assemblies[i])
    ensures IsEntrypoint(AllSections(files, |files|)[k]) <==> j == 0 && StartsIn(assemblies, i)
  {
    hide Sections, AllData, ContentLength, WellFormed, AllSections, Place, Classified, HasValidFlags;
    SectionsCounted(files, |files|);
    i, j := SectionComesFrom(files, |files|, k);
    SectionKept(files, |files|, i, j);
    AssembledSections(files, assemblies, i);
    SectionsClassified(assemblies[i]);
    assert Classified(Sections(assemblies[i])[j], assemblies[i]);
    SameFlagsMean(AllSections(files, |files|), k, files[i].sections[j]);
  }

  lemma SameFlagsMean(sections: seq<Section>, k: nat, s: Section)
    requires SameFlags(sections, k, s)
    ensures IsEntrypoint(sections[k]) == IsEntrypoint(s) && IsWritable(sections[k]) == IsWritable(s)
    ensures forall readOnly :: Acceptable(sections[k], readOnly) == Acceptable(s, readOnly)
  {}

  /** The code of a file assembled as the entrypoint, among the sections of the program. */
  lemma StartHasSection(files: seq<ObjectFile>, assemblies: seq<Assembly>, i: nat)
    requires WellFormed(files) && AllAssembled(files, assemblies) && StartsIn(assemblies, i)
    ensures Place(files, i, 0) < |AllSections(files, |files|)| && IsEntrypoint(AllSections(files, |files|)[Place(files, i, 0)])
  {
    hide AllData, WellFormed, AllSections, Place;
    AssembledSections(files, assemblies, i);
    SectionsClassified(assemblies[i]);
    SectionKept(files, |files|, i, 0);
    SameFlagsMean(AllSections(files, |files|), Place(files, i, 0), files[i].sections[0]);
  }

  /** An assembled program can be booted exactly if one file with code is the entrypoint and, for a
      read-only image, no file has mutable data. */
  lemma AssembledBootable(files: seq<ObjectFile>, assemblies: seq<Assembly>, readOnly: bool)
    requires WellFormed(files) && AllAssembled(files, assemblies)
    ensures Bootable(AllSections(files, |files|), readOnly) <==> OneStart(assemblies) && (readOnly ==> NoMutableData(assemblies))
  {
    hide AllData, WellFormed, AllSections, Place, AssembledAt, StartsIn, AllAssembled, Acceptable;
    AcceptableExactly(files, assemblies, readOnly);
    OneEntrypointExactly(files, assemblies);
  }

  ghost predicate AllAcceptable(sections: seq<Section>, readOnly: bool) {
    forall k :: 0 <= k < |sections| ==> Acceptable(sections[k], readOnly)
  }

  lemma AcceptableExactly(files: seq<ObjectFile>, assemblies: seq<Assembly>, readOnly: bool)
    requires WellFormed(files) && AllAssembled(files, assemblies)
    ensures AllAcceptable(AllSections(files, |files|), readOnly) <==> (readOnly ==> NoMutableData(assemblies))
  {
    hide AllData, WellFormed, AllSections, Place, AssembledAt;
    var sections := AllSections(files, |files|);
    if readOnly ==> NoMutableData(assemblies) {
      forall k | 0 <= k < |sections| ensures Acceptable(sections[k], readOnly) {
        var i, j := EntrypointAt(files, assemblies, k);
        SameFlagsMean(sections, k, files[i].sections[j]);
        if readOnly && IsWritable(files[i].sections[j]) {
          WritableHasData(files, assemblies, i, j);
        }
      }
    }
    if readOnly && AllAcceptable(sections, readOnly) {
      forall i | 0 <= i < |assemblies| ensures AllData(assemblies[i], true) == [] {
        NotWritable(files, assemblies, i);
      }
    }
  }

  lemma WritableHasData(files: seq<ObjectFile>, assemblies: seq<Assembly>, i: nat, j: nat)
    requires AllAssembled(files, assemblies) && i < |files| && j < |files[i].sections| && IsWritable(files[i].sections[j])
    ensures AllData(assemblies[i], true) != []
  {
    hide AllData;
    AssembledSections(files, assemblies, i);
    SectionsClassified(assemblies[i]);
  }

  lemma NotWritable(files: seq<ObjectFile>, assemblies: seq<Assembly>, i: nat)
    requires WellFormed(files) && AllAssembled(files, assemblies) && i < |files|
    requires AllAcceptable(AllSections(files, |files|), true)
    ensures AllData(assemblies[i], true) == []
  {
    hide AllData, WellFormed, AllSections, Place;
    AssembledSections(files, assemblies, i);
    SectionsClassified(assemblies[i]);
    if j :| 0 <= j < |files[i].sections| && IsWritable(files[i].sections[j]) {
      SectionKept(files, |files|, i, j);
      SameFlagsMean(AllSections(files, |files|), Place(files, i, j), files[i].sections[j]);
      assert false;
    }
  }

  lemma OneEntrypointExactly(files: seq<ObjectFile>, assemblies: seq<Assembly>)
    requires WellFormed(files) && AllAssembled(files, assemblies)
    ensures (exists entry: nat :: OnlyEntrypoint(AllSections(files, |files|), entry)) <==> OneStart(assemblies)
  {
    hide AllData, WellFormed, AllSections, AssembledAt, IsEntrypoint;
    var sections := AllSections(files, |files|);
    if entry: nat :| OnlyEntrypoint(sections, entry) {
      var i, j := EntrypointAt(files, assemblies, entry);
      forall other: nat | StartsIn(assemblies, other) ensures other == i {
        StartHasSection(files, assemblies, other);
        SamePlace(files, assemblies, i, other);
      }
      assert OnlyStart(assemblies, i);
    }
    if i: nat :| OnlyStart(assemblies, i) {
      StartHasSection(files, assemblies, i);
      forall k | 0 <= k < |sections| && IsEntrypoint(sections[k]) ensures k == Place(files, i, 0) {
        var other, j := EntrypointAt(files, assemblies, k);
      }
      assert OnlyEntrypoint(sections, Place(files, i, 0));
    }
  }

  lemma SamePlace(files: seq<ObjectFile>, assemblies: seq<Assembly>, i: nat, other: nat)
    requires AllAssembled(files, assemblies) && StartsIn(assemblies, i) && StartsIn(assemblies, other)
    requires Place(files, i, 0) == Place(files, other, 0)
    ensures i == other
  {
    hide AllData;
    AssembledSections(files, assemblies, i);
    AssembledSections(files, assemblies, other);
    SectionsClassified(assemblies[i]);
    SectionsClassified(assemblies[other]);
    if i < other {
      PlacesOrdered(files, i, other);
    } else if other < i {
      PlacesOrdered(files, other, i);
    }
  }

  /** What it takes to link assembled files: names that combine, no undefined import, one entrypoint, and no
      mutable data in a read-only image. */
  lemma AssembledLinkable(files: seq<ObjectFile>, assemblies: seq<Assembly>, readOnly: bool)
    requires WellFormed(files) && AllAssembled(files, assemblies)
    ensures Linkable(files, readOnly) <==>
      && CombinesUpTo(files, |files|) && AllDefined(files)
      && OneStart(assemblies) && (readOnly ==> NoMutableData(assemblies))
  {
    hide AllData, WellFormed, AllSections, CombinesUpTo, AllDefined, AllAssembled, NoMutableData;
    AssembledBootable(files, assemblies, readOnly);
    if i: nat :| OnlyStart(assemblies, i) {
      StartHasBytes(files, assemblies, i);
    }
  }

  lemma StartHasBytes(files: seq<ObjectFile>, assemblies: seq<Assembly>, i: nat)
    requires WellFormed(files) && AllAssembled(files, assemblies) && StartsIn(assemblies, i)
    ensures Base(files, |files|) > 0
  {
    hide AllData;
    AssembledSections(files, assemblies, i);
    BaseIncludes(files, i, |files|);
  }

  lemma {:induction false} BaseIncludes(files: seq<ObjectFile>, i: nat, n: nat)
    requires i < n <= |files|
    ensures Base(files, n) >= Total(files[i].sections)
    decreases n
  {
    if i < n - 1 {
      BaseIncludes(files, i, n - 1);
    }
  }

  /** One file, assembled as the entrypoint and without imports, links by itself: as a disk image always, as
      a read-only one exactly if it has no mutable data. */
  lemma SingleFileLinks(file: ObjectFile, a: Assembly, readOnly: bool)
    requires ValidFile(file) && Emittable(a) && Recovered(a, file) && a.entrypoint && a.code != []
    requires forall name :: name in a.symbols ==> !a.symbols[name].ExternalSymbol?
    ensures WellFormed([file]) && (Linkable([file], readOnly) <==> (readOnly ==> AllData(a, true) == []))
  {
    hide AllData, SlotsValid, SymbolReady, Sections, InstructionBase;
    var files, assemblies := [file], [a];
    assert Base(files, 0) == 0;
    assert AssembledAt(files, assemblies, 0);
    AssembledSections(files, assemblies, 0);
    assert Base(files, 1) == Total(file.sections);
    hide WellFormed;
    assert OnlyStart(assemblies, 0);
    NoImports(file, a);
    AssembledLinkable(files, assemblies, readOnly);
    assert assemblies[0] == a;
  }

  lemma NoImports(file: ObjectFile, a: Assembly)
    requires Emittable(a) && Recovered(a, file)
    requires forall name :: name in a.symbols ==> !a.symbols[name].ExternalSymbol?
    ensures CombinesUpTo([file], 1) && AllDefined([file])
  {
  }
}
