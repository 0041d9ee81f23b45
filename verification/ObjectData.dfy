/** Parsed object files: sections, symbols and address search (simulatron-silk, data.rs). */
module ObjectData {
  import opened Bytes
  import opened Wrappers

  datatype SymbolType = Internal | Public | External

  datatype Section = Section(flags: Byte, start: Word, length: Word, data: seq<Byte>)

  datatype SymbolTableEntry = SymbolTableEntry(
    symbolType: SymbolType, value: Option<Word>, references: seq<Word>)

  type SymbolTable = map<string, SymbolTableEntry>

  datatype ObjectFile = ObjectFile(symbols: SymbolTable, sections: seq<Section>)

  // ----- Section flags -----

  predicate IsEntrypoint(s: Section) { Bit(s.flags, 0x01) }

  predicate IsReadable(s: Section) { Bit(s.flags, 0x04) }

  predicate IsWritable(s: Section) { Bit(s.flags, 0x08) }

  predicate IsExecutable(s: Section) { Bit(s.flags, 0x10) }

  /** No bit of INVALID_FLAGS (0xE2) is set. */
  predicate HasValidFlags(s: Section) { !Bit(s.flags, 0x02) && s.flags < 0x20 }

  // ----- Section lists -----

  /** Where the first `n` sections end. */
  function End(sections: seq<Section>, n: nat): nat
    requires n <= |sections|
  {
    if n == 0 then 0 else sections[n - 1].start + sections[n - 1].length
  }

  /** The length of all sections together: the end of the last one. */
  function Total(sections: seq<Section>): nat {
    End(sections, |sections|)
  }

  /** Section `i` starts where the sections before it end, and its data has the stated length. */
  ghost predicate Placed(sections: seq<Section>, i: nat)
    requires i < |sections|
  {
    sections[i].start == End(sections, i) && |sections[i].data| == sections[i].length
  }

  /** The sections fill [0, Total) without gaps, in order. */
  ghost predicate Contiguous(sections: seq<Section>) {
    forall i :: 0 <= i < |sections| ==> Placed(sections, i)
  }

  /** The bytes of the first `n` sections, one section after the other. */
  function Joined(sections: seq<Section>, n: nat): seq<Byte>
    requires n <= |sections|
  {
    if n == 0 then [] else Joined(sections, n - 1) + sections[n - 1].data
  }

  function Flatten(sections: seq<Section>): seq<Byte> {
    Joined(sections, |sections|)
  }

  ghost predicate Contains(s: Section, address: int) {
    s.start <= address < s.start + s.length
  }

  /** The four bytes at `address` lie inside one section. */
  ghost predicate InSection(sections: seq<Section>, address: int) {
    exists i :: 0 <= i < |sections| && Contains(sections[i], address) && Contains(sections[i], address + 3)
  }

  lemma {:induction false} SectionsAreOrdered(sections: seq<Section>, i: nat, j: nat)
    requires Contiguous(sections) && i < j <= |sections|
    ensures sections[i].start + sections[i].length <= End(sections, j)
    ensures j < |sections| ==> End(sections, j) == sections[j].start
    decreases j
  {
    assert Placed(sections, j - 1);
    assert j < |sections| ==> Placed(sections, j);
    if i < j - 1 {
      SectionsAreOrdered(sections, i, j - 1);
    }
  }

  lemma {:induction false} JoinedLength(sections: seq<Section>, n: nat)
    requires Contiguous(sections) && n <= |sections|
    ensures |Joined(sections, n)| == End(sections, n) <= Total(sections)
  {
    if n > 0 {
      assert Placed(sections, n - 1);
      JoinedLength(sections, n - 1);
      SectionsAreOrdered(sections, n - 1, |sections|);
    }
  }

  lemma FlattenLength(sections: seq<Section>)
    requires Contiguous(sections)
    ensures |Flatten(sections)| == Total(sections)
  {
    JoinedLength(sections, |sections|);
  }

  /** Every section's bytes sit at its start address in the flattened image. */
  lemma {:induction false} JoinedAt(sections: seq<Section>, n: nat, i: nat, k: nat)
    requires Contiguous(sections) && i < n <= |sections| && k < |sections[i].data|
    ensures sections[i].start + k < |Joined(sections, n)|
    ensures Joined(sections, n)[sections[i].start + k] == sections[i].data[k]
  {
    assert Placed(sections, n - 1);
    JoinedLength(sections, n - 1);
    if i < n - 1 {
      JoinedAt(sections, n - 1, i, k);
    }
  }

  lemma {:induction false} JoinedSameData(a: seq<Section>, b: seq<Section>, n: nat)
    requires n <= |a| && n <= |b| && forall i :: 0 <= i < n ==> a[i].data == b[i].data
    ensures Joined(a, n) == Joined(b, n)
  {
    if n > 0 {
      JoinedSameData(a, b, n - 1);
    }
  }

  /** Every address below the total lies in a section. */
  lemma {:induction false} EveryAddressHasSection(sections: seq<Section>, n: nat, address: nat) returns (i: nat)
    requires Contiguous(sections) && n <= |sections| && address < End(sections, n)
    ensures i < n && Contains(sections[i], address)
  {
    i := n - 1;
    assert Placed(sections, i);
    if address < sections[i].start {
      i := EveryAddressHasSection(sections, i, address);
    }
  }

  /** Only one section contains a given address. */
  lemma ContainingSectionIsUnique(sections: seq<Section>, i: nat, j: nat, address: int)
    requires Contiguous(sections) && i < |sections| && j < |sections|
    requires Contains(sections[i], address) && Contains(sections[j], address)
    ensures i == j
  {
    if i < j {
      SectionsAreOrdered(sections, i, j);
    } else if j < i {
      SectionsAreOrdered(sections, j, i);
    }
  }

  // ----- Address search -----

  datatype Ordering = Less | Equal | Greater

  /** How the section compares with an address; empty sections are never `Equal`. */
  function CompareAddress(s: Section, address: Word): (o: Ordering)
    ensures o == Equal <==> Contains(s, address)
  {
    if address < s.start then Greater
    else if address < s.start + s.length then Equal
    else Less
  }

  /** Binary search for the section containing an address. On a contiguous list it succeeds exactly
      when the address is below the total, and the section found is the only one, whether or not
      empty sections are present. */
  method FindSection(sections: seq<Section>, address: Word) returns (found: Option<nat>)
    requires Contiguous(sections)
    ensures found.Some? <==> address < Total(sections)
    ensures found.Some? ==> found.value < |sections| && Contains(sections[found.value], address)
    ensures found.Some? ==>
      forall i :: 0 <= i < |sections| && Contains(sections[i], address) ==> i == found.value
  {
    var low, high := 0, |sections|;
    while low < high
      invariant 0 <= low <= high <= |sections|
      invariant forall i :: 0 <= i < low ==> CompareAddress(sections[i], address) == Less
      invariant forall i :: high <= i < |sections| ==> CompareAddress(sections[i], address) == Greater
    {
      var mid := (low + high) / 2;
      match CompareAddress(sections[mid], address) {
        case Equal =>
          SectionsAreOrdered(sections, mid, |sections|);
          forall i | 0 <= i < |sections| && Contains(sections[i], address) ensures i == mid {
            ContainingSectionIsUnique(sections, i, mid, address);
          }
          return Some(mid);
        case Less =>
          forall i | low <= i < mid ensures CompareAddress(sections[i], address) == Less {
            SectionsAreOrdered(sections, i, mid);
          }
          low := mid + 1;
        case Greater =>
          forall i | mid < i < high ensures CompareAddress(sections[i], address) == Greater {
            SectionsAreOrdered(sections, mid, i);
          }
          high := mid;
      }
    }
    if address < Total(sections) {
      ghost var i := EveryAddressHasSection(sections, |sections|, address);
      assert false;
    }
    return None;
  }

  // ----- What the parser guarantees -----

  /** All bytes of the slot at `r` are zero. */
  ghost predicate ZeroSlot(image: seq<Byte>, r: int) {
    0 <= r && r + 4 <= |image| && image[r..r + 4] == [0, 0, 0, 0]
  }

  /** One symbol of a parsed file: only externals lack a value, values lie below the total, and every
      reference names four zero bytes inside one section. */
  ghost predicate ValidEntry(entry: SymbolTableEntry, sections: seq<Section>) {
    match entry case SymbolTableEntry(symbolType, value, references) =>
      && (symbolType.External? <==> value.None?)
      && (value.Some? ==> value.value < Total(sections))
      && (forall k :: 0 <= k < |references| ==>
            InSection(sections, references[k]) && ZeroSlot(Flatten(sections), references[k]))
  }

  ghost predicate ValidObject(file: ObjectFile) {
    match file case ObjectFile(symbols, sections) =>
      Contiguous(sections) && forall name :: name in symbols ==> ValidEntry(symbols[name], sections)
  }
}
