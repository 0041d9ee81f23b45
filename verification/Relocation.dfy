/** Shifting an object file behind the sections already collected. */
module Relocation {
  import opened Bytes
  import opened Wrappers
  import opened ObjectData
  import opened SymbolTables

  function ShiftSection(s: Section, offset: nat): Section
    requires s.start + offset < WORD_LIMIT
  {
    s.(start := s.start + offset)
  }

  function ShiftSections(sections: seq<Section>, offset: nat): (shifted: seq<Section>)
    requires forall i :: 0 <= i < |sections| ==> sections[i].start + offset < WORD_LIMIT
    ensures |shifted| == |sections|
    ensures forall i :: 0 <= i < |sections| ==> shifted[i] == ShiftSection(sections[i], offset)
  {
    seq(|sections|, i requires 0 <= i < |sections| => ShiftSection(sections[i], offset))
  }

  predicate EntryFits(entry: SymbolTableEntry, offset: nat) {
    && (entry.value.Some? ==> entry.value.value + offset < WORD_LIMIT)
    && (forall k :: 0 <= k < |entry.references| ==> entry.references[k] + offset < WORD_LIMIT)
  }

  function ShiftEntry(entry: SymbolTableEntry, offset: nat): SymbolTableEntry
    requires EntryFits(entry, offset)
  {
    SymbolTableEntry(
      entry.symbolType,
      if entry.value.Some? then Some(entry.value.value + offset) else None,
      seq(|entry.references|, k requires 0 <= k < |entry.references| => entry.references[k] + offset))
  }

  ghost function ShiftTable(table: SymbolTable, offset: nat): SymbolTable
    requires forall name :: name in table ==> EntryFits(table[name], offset)
  {
    map name | name in table :: ShiftEntry(table[name], offset)
  }

  /** Sections `a` followed by sections `b` moved behind them. */
  ghost function Combined(a: seq<Section>, b: seq<Section>): seq<Section>
    requires Contiguous(a) && Contiguous(b) && Total(a) + Total(b) < WORD_LIMIT
  {
    StartsFit(b, Total(a));
    a + ShiftSections(b, Total(a))
  }

  lemma StartsFit(sections: seq<Section>, offset: nat)
    requires Contiguous(sections) && Total(sections) + offset < WORD_LIMIT
    ensures forall i :: 0 <= i < |sections| ==> sections[i].start + offset < WORD_LIMIT
  {
    forall i | 0 <= i < |sections| ensures sections[i].start + offset < WORD_LIMIT {
      SectionsAreOrdered(sections, i, |sections|);
    }
  }

  lemma CombinedEnd(a: seq<Section>, b: seq<Section>, n: nat)
    requires Contiguous(a) && Contiguous(b) && Total(a) + Total(b) < WORD_LIMIT && n <= |b|
    ensures End(Combined(a, b), |a| + n) == Total(a) + End(b, n)
  {
    StartsFit(b, Total(a));
    if n > 0 {
      assert Combined(a, b)[|a| + n - 1] == ShiftSection(b[n - 1], Total(a));
    } else if a != [] {
      assert Combined(a, b)[|a| - 1] == a[|a| - 1];
    }
  }

  lemma CombinedTotal(a: seq<Section>, b: seq<Section>)
    requires Contiguous(a) && Contiguous(b) && Total(a) + Total(b) < WORD_LIMIT
    ensures Total(Combined(a, b)) == Total(a) + Total(b)
  {
    StartsFit(b, Total(a));
    CombinedEnd(a, b, |b|);
  }

  lemma CombinedContiguous(a: seq<Section>, b: seq<Section>)
    requires Contiguous(a) && Contiguous(b) && Total(a) + Total(b) < WORD_LIMIT
    ensures Contiguous(Combined(a, b))
  {
    StartsFit(b, Total(a));
    var all := Combined(a, b);
    forall i | 0 <= i < |all| ensures Placed(all, i) {
      if i < |a| {
        assert Placed(a, i);
        assert i > 0 ==> all[i - 1] == a[i - 1];
      } else {
        assert Placed(b, i - |a|) && all[i] == ShiftSection(b[i - |a|], Total(a));
        CombinedEnd(a, b, i - |a|);
      }
    }
  }

  lemma {:induction false} CombinedJoined(a: seq<Section>, b: seq<Section>, n: nat)
    requires Contiguous(a) && Contiguous(b) && Total(a) + Total(b) < WORD_LIMIT && n <= |b|
    ensures Joined(Combined(a, b), |a| + n) == Flatten(a) + Joined(b, n)
  {
    StartsFit(b, Total(a));
    if n == 0 {
      JoinedSameData(Combined(a, b), a, |a|);
    } else {
      CombinedJoined(a, b, n - 1);
      assert Combined(a, b)[|a| + n - 1] == ShiftSection(b[n - 1], Total(a));
    }
  }

  lemma CombinedLayout(a: seq<Section>, b: seq<Section>)
    requires Contiguous(a) && Contiguous(b) && Total(a) + Total(b) < WORD_LIMIT
    ensures Contiguous(Combined(a, b))
    ensures Total(Combined(a, b)) == Total(a) + Total(b)
    ensures Flatten(Combined(a, b)) == Flatten(a) + Flatten(b)
  {
    CombinedTotal(a, b);
    CombinedContiguous(a, b);
    StartsFit(b, Total(a));
    CombinedJoined(a, b, |b|);
  }

  lemma ValidEntryFits(entry: SymbolTableEntry, sections: seq<Section>, offset: nat)
    requires Contiguous(sections) && ValidEntry(entry, sections) && Total(sections) + offset < WORD_LIMIT
    ensures EntryFits(entry, offset)
  {
    FlattenLength(sections);
    forall k | 0 <= k < |entry.references| ensures entry.references[k] + offset < WORD_LIMIT {
      assert ZeroSlot(Flatten(sections), entry.references[k]);
    }
  }

  lemma InSectionKept(a: seq<Section>, b: seq<Section>, r: nat)
    requires Contiguous(a) && Contiguous(b) && Total(a) + Total(b) < WORD_LIMIT
    requires InSection(a, r)
    ensures InSection(Combined(a, b), r)
  {
    StartsFit(b, Total(a));
    var i :| 0 <= i < |a| && Contains(a[i], r) && Contains(a[i], r + 3);
    assert Combined(a, b)[i] == a[i];
  }

  lemma InSectionShifted(a: seq<Section>, b: seq<Section>, r: nat)
    requires Contiguous(a) && Contiguous(b) && Total(a) + Total(b) < WORD_LIMIT
    requires InSection(b, r)
    ensures InSection(Combined(a, b), r + Total(a))
  {
    StartsFit(b, Total(a));
    var i :| 0 <= i < |b| && Contains(b[i], r) && Contains(b[i], r + 3);
    var section := Combined(a, b)[|a| + i];
    assert section == ShiftSection(b[i], Total(a));
    assert Contains(section, r + Total(a)) && Contains(section, r + Total(a) + 3);
  }

  lemma ValidEntryKept(entry: SymbolTableEntry, a: seq<Section>, b: seq<Section>)
    requires Contiguous(a) && Contiguous(b) && Total(a) + Total(b) < WORD_LIMIT
    requires ValidEntry(entry, a)
    ensures ValidEntry(entry, Combined(a, b))
  {
    CombinedLayout(a, b);
    forall k | 0 <= k < |entry.references|
      ensures InSection(Combined(a, b), entry.references[k])
      ensures ZeroSlot(Flatten(Combined(a, b)), entry.references[k])
    {
      var r: int := entry.references[k];
      InSectionKept(a, b, r);
      assert (Flatten(a) + Flatten(b))[r..r + 4] == Flatten(a)[r..r + 4];
    }
  }

  lemma ValidEntryShifted(entry: SymbolTableEntry, a: seq<Section>, b: seq<Section>)
    requires Contiguous(a) && Contiguous(b) && Total(a) + Total(b) < WORD_LIMIT
    requires ValidEntry(entry, b) && EntryFits(entry, Total(a))
    ensures ValidEntry(ShiftEntry(entry, Total(a)), Combined(a, b))
  {
    CombinedLayout(a, b);
    FlattenLength(a);
    var shifted := ShiftEntry(entry, Total(a));
    forall k | 0 <= k < |shifted.references|
      ensures InSection(Combined(a, b), shifted.references[k])
      ensures ZeroSlot(Flatten(Combined(a, b)), shifted.references[k])
    {
      var r: int := entry.references[k];
      assert InSection(b, r) && ZeroSlot(Flatten(b), r);
      InSectionShifted(a, b, r);
      var r' := r + Total(a);
      assert (Flatten(a) + Flatten(b))[r'..r' + 4] == Flatten(b)[r..r + 4];
    }
  }

  /** All slots of a valid table lie below the total. */
  lemma SlotsInRange(table: SymbolTable, sections: seq<Section>)
    requires Contiguous(sections)
    requires forall name :: name in table ==> ValidEntry(table[name], sections)
    ensures forall r :: r in TableSlots(table) ==> r + 4 <= Total(sections)
  {
    FlattenLength(sections);
    forall r | r in TableSlots(table) ensures r + 4 <= Total(sections) {
      var name :| name in table && r in table[name].references;
      var k :| 0 <= k < |table[name].references| && table[name].references[k] == r;
      assert ZeroSlot(Flatten(sections), table[name].references[k]);
    }
  }

  lemma ShiftedApart(a: SymbolTableEntry, b: SymbolTableEntry, offset: nat)
    requires EntryFits(a, offset) && EntryFits(b, offset) && AllApart(Slots(a), Slots(b))
    ensures AllApart(Slots(ShiftEntry(a, offset)), Slots(ShiftEntry(b, offset)))
  {
    var a', b' := ShiftEntry(a, offset), ShiftEntry(b, offset);
    forall x, y | x in Slots(a') && y in Slots(b') ensures Apart(x, y) {
      var i :| 0 <= i < |a'.references| && x == a'.references[i];
      var j :| 0 <= j < |b'.references| && y == b'.references[j];
      assert a.references[i] in Slots(a) && b.references[j] in Slots(b);
    }
  }

  lemma ShiftedNonOverlapping(table: SymbolTable, offset: nat)
    requires forall name :: name in table ==> EntryFits(table[name], offset)
    requires NonOverlapping(table)
    ensures NonOverlapping(ShiftTable(table, offset))
  {
    forall m, n | m in table && n in table && m != n
      ensures AllApart(Slots(ShiftEntry(table[m], offset)), Slots(ShiftEntry(table[n], offset)))
    {
      ShiftedApart(table[m], table[n], offset);
    }
    forall n | n in table ensures Spaced(ShiftEntry(table[n], offset).references) {
      assert Spaced(table[n].references);
    }
  }
}
