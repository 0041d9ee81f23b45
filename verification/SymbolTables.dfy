/** Symbol tables up to the names of internal symbols: what linking depends on. */
module SymbolTables {
  import opened Bytes
  import opened Wrappers
  import opened ObjectData

  // ----- Slots -----

  /** Two four-byte slots do not overlap. */
  predicate Apart(a: int, b: int) { a + 4 <= b || b + 4 <= a }

  ghost predicate Spaced(references: seq<Word>) {
    forall i, j :: 0 <= i < j < |references| ==> Apart(references[i], references[j])
  }

  ghost predicate AllApart(a: set<Word>, b: set<Word>) {
    forall x, y :: x in a && y in b ==> Apart(x, y)
  }

  ghost function Slots(entry: SymbolTableEntry): set<Word> {
    set r | r in entry.references
  }

  ghost function TableSlots(table: SymbolTable): set<Word> {
    set name, r | name in table && r in table[name].references :: r
  }

  /** No two references of the table, of one symbol or of two, overlap. */
  ghost predicate NonOverlapping(table: SymbolTable) {
    && (forall name :: name in table ==> Spaced(table[name].references))
    && (forall m, n :: m in table && n in table && m != n ==> AllApart(Slots(table[m]), Slots(table[n])))
  }

  // ----- Orders of visiting a table -----

  /** The order visits only symbols of the table, none of them twice. */
  ghost predicate Distinct(order: seq<string>, table: SymbolTable) {
    && (forall i :: 0 <= i < |order| ==> order[i] in table)
    && forall i, j :: 0 <= i < j < |order| ==> order[i] != order[j]
  }

  /** It visits all of them. */
  ghost predicate Visits(order: seq<string>, table: SymbolTable) {
    Distinct(order, table) && forall name :: name in table ==> name in order
  }

  lemma {:induction false} OrderOf(names: set<string>) returns (order: seq<string>)
    ensures forall name :: name in order <==> name in names
    ensures forall i, j :: 0 <= i < j < |order| ==> order[i] != order[j]
    decreases |names|
  {
    if names == {} {
      order := [];
    } else {
      var name :| name in names;
      var rest := OrderOf(names - {name});
      order := [name] + rest;
      assert forall i :: 0 < i < |order| ==> order[i] in rest;
    }
  }

  /** There is an order that visits `m` first, and `n` next if it is another symbol. */
  lemma OrderStarting(table: SymbolTable, m: string, n: string) returns (order: seq<string>)
    requires m in table && n in table
    ensures Visits(order, table) && order[0] == m && (m != n ==> |order| > 1 && order[1] == n)
  {
    var first := if m == n then [m] else [m, n];
    var rest := OrderOf(table.Keys - {m, n});
    order := first + rest;
    assert forall i :: |first| <= i < |order| ==> order[i] in rest;
    forall name | name in table ensures name in order {
      assert name in first || name in rest;
    }
  }

  // ----- The abstract content of a table -----

  /** A slot and the position it must be filled with. */
  type Patch = (Word, Word)

  ghost function EntryPatches(entry: SymbolTableEntry): set<Patch> {
    if entry.value.None? then {} else set r | r in entry.references :: (r, entry.value.value)
  }

  /** The patches of all internal symbols, whatever their names. */
  ghost function InternalPatches(table: SymbolTable): set<Patch> {
    set name, r | name in table && table[name].symbolType.Internal? && table[name].value.Some?
                  && r in table[name].references :: (r, table[name].value.value)
  }

  /** A name visible across files: its definition, if there is one yet, and all its slots. */
  datatype Global = Global(value: Option<Word>, slots: set<Word>)

  ghost function Globals(table: SymbolTable): map<string, Global> {
    map name | name in table && !table[name].symbolType.Internal? :: Global(table[name].value, Slots(table[name]))
  }

  ghost function MergeGlobal(a: Global, b: Global): Global {
    Global(if a.value.Some? then a.value else b.value, a.slots + b.slots)
  }

  ghost function MergeGlobals(a: map<string, Global>, b: map<string, Global>): map<string, Global> {
    map name | name in a.Keys + b.Keys ::
      if name !in b then a[name] else if name !in a then b[name] else MergeGlobal(a[name], b[name])
  }

  /** Every name in both tables is defined by exactly one of them. */
  ghost predicate Compatible(a: map<string, Global>, b: map<string, Global>) {
    forall name :: name in a && name in b ==> (a[name].value.Some? <==> b[name].value.None?)
  }

  /** All patches of a table, internal and global. */
  ghost function Patches(table: SymbolTable): set<Patch> {
    set name, r | name in table && table[name].value.Some? && r in table[name].references
      :: (r, table[name].value.value)
  }

  ghost function GlobalPatches(globals: map<string, Global>): set<Patch> {
    set name, r | name in globals && globals[name].value.Some? && r in globals[name].slots
      :: (r, globals[name].value.value)
  }

  lemma PatchesSplit(table: SymbolTable)
    ensures Patches(table) == InternalPatches(table) + GlobalPatches(Globals(table))
  {
    var globals := Globals(table);
    forall p | p in Patches(table) ensures p in InternalPatches(table) + GlobalPatches(globals) {
      var name, r :| name in table && table[name].value.Some? && r in table[name].references
                     && p == (r, table[name].value.value);
      if !table[name].symbolType.Internal? {
        assert name in globals && r in globals[name].slots;
      }
    }
    forall p | p in GlobalPatches(globals) ensures p in Patches(table) {
      var name, r :| name in globals && globals[name].value.Some? && r in globals[name].slots
                     && p == (r, globals[name].value.value);
      assert name in table && r in table[name].references;
    }
  }

  // ----- What each update of the merge loop does to the content -----

  lemma InsertSlots(table: SymbolTable, name: string, entry: SymbolTableEntry)
    requires name !in table
    ensures TableSlots(table[name := entry]) == TableSlots(table) + Slots(entry)
  {
    var updated := table[name := entry];
    forall r | r in TableSlots(table) + Slots(entry) ensures r in TableSlots(updated) {
      if r in TableSlots(table) {
        var n :| n in table && r in table[n].references;
        assert n in updated && r in updated[n].references;
      } else {
        assert name in updated && r in updated[name].references;
      }
    }
  }

  lemma InsertNonOverlapping(table: SymbolTable, name: string, entry: SymbolTableEntry)
    requires name !in table && NonOverlapping(table)
    requires Spaced(entry.references) && AllApart(TableSlots(table), Slots(entry))
    ensures NonOverlapping(table[name := entry])
  {
    forall n | n in table ensures AllApart(Slots(table[n]), Slots(entry)) {
      assert Slots(table[n]) <= TableSlots(table);
    }
  }

  lemma InsertInternal(table: SymbolTable, name: string, entry: SymbolTableEntry)
    requires name !in table && entry.symbolType.Internal?
    ensures InternalPatches(table[name := entry]) == InternalPatches(table) + EntryPatches(entry)
    ensures Globals(table[name := entry]) == Globals(table)
  {
    var updated := table[name := entry];
    forall p | p in InternalPatches(table) + EntryPatches(entry) ensures p in InternalPatches(updated) {
      if p in InternalPatches(table) {
        var n, r :| n in table && table[n].symbolType.Internal? && table[n].value.Some?
                    && r in table[n].references && p == (r, table[n].value.value);
        assert n in updated && r in updated[n].references;
      } else {
        assert name in updated && p.0 in updated[name].references;
      }
    }
  }

  lemma InsertGlobal(table: SymbolTable, name: string, entry: SymbolTableEntry)
    requires name in table ==> !table[name].symbolType.Internal?
    requires !entry.symbolType.Internal?
    ensures InternalPatches(table[name := entry]) == InternalPatches(table)
    ensures Globals(table[name := entry]) == Globals(table)[name := Global(entry.value, Slots(entry))]
  {
    var updated := table[name := entry];
    forall p | p in InternalPatches(table) ensures p in InternalPatches(updated) {
      var n, r :| n in table && table[n].symbolType.Internal? && table[n].value.Some?
                  && r in table[n].references && p == (r, table[n].value.value);
      assert n in updated && r in updated[n].references;
    }
  }

  lemma TakeOut(table: SymbolTable, name: string)
    requires name in table && NonOverlapping(table)
    ensures NonOverlapping(table - {name})
    ensures AllApart(TableSlots(table - {name}), Slots(table[name]))
  {
    forall x, y | x in TableSlots(table - {name}) && y in Slots(table[name]) ensures Apart(x, y) {
      var n :| n in table - {name} && x in (table - {name})[n].references;
      assert AllApart(Slots(table[n]), Slots(table[name])) && x in Slots(table[n]);
    }
  }

  lemma PutBack(table: SymbolTable, name: string)
    requires name in table
    ensures (table - {name})[name := table[name]] == table
  {}

  lemma ReplacedKey(keys: set<string>, name: string, unused: string)
    requires name in keys && unused !in keys
    ensures |keys - {name} + {unused}| == |keys|
  {}

  /** Renaming an internal symbol to an unused name changes nothing that linking depends on. */
  lemma RenameInternal(table: SymbolTable, name: string, unused: string)
    requires name in table && table[name].symbolType.Internal? && unused !in table
    ensures var renamed := (table - {name})[unused := table[name]];
      && name !in renamed
      && InternalPatches(renamed) == InternalPatches(table)
      && Globals(renamed) == Globals(table)
      && TableSlots(renamed) == TableSlots(table)
      && (NonOverlapping(table) ==> NonOverlapping(renamed))
      && |renamed.Keys| == |table.Keys|
  {
    var rest, entry := table - {name}, table[name];
    PutBack(table, name);
    InsertInternal(rest, name, entry);
    InsertInternal(rest, unused, entry);
    InsertSlots(rest, name, entry);
    InsertSlots(rest, unused, entry);
    ReplacedKey(table.Keys, name, unused);
    assert rest[unused := entry].Keys == table.Keys - {name} + {unused};
    if NonOverlapping(table) {
      TakeOut(table, name);
      InsertNonOverlapping(rest, unused, entry);
    }
  }

  /** Appending the references of one global to another of the same name. */
  lemma AppendReferences(table: SymbolTable, name: string, entry: SymbolTableEntry, merged: SymbolTableEntry)
    requires name in table && merged.references == table[name].references + entry.references
    requires NonOverlapping(table) && Spaced(entry.references) && AllApart(TableSlots(table), Slots(entry))
    ensures Slots(merged) == Slots(table[name]) + Slots(entry)
    ensures TableSlots(table[name := merged]) == TableSlots(table) + Slots(entry)
    ensures NonOverlapping(table[name := merged])
  {
    assert Slots(merged) == Slots(table[name]) + Slots(entry);
    var rest := table - {name};
    PutBack(table, name);
    assert table[name := merged] == rest[name := merged];
    InsertSlots(rest, name, table[name]);
    InsertSlots(rest, name, merged);
    TakeOut(table, name);
    forall i, j | 0 <= i < j < |merged.references| ensures Apart(merged.references[i], merged.references[j]) {
      if i < |table[name].references| <= j {
        assert merged.references[i] in Slots(table[name]) && merged.references[j] in Slots(entry);
      }
    }
    InsertNonOverlapping(rest, name, merged);
  }

  /** The content of a table after one more symbol, whose name only matters if it is global. */
  ghost predicate Absorbs(before: SymbolTable, name: string, entry: SymbolTableEntry, after: SymbolTable) {
    && TableSlots(after) == TableSlots(before) + Slots(entry)
    && |after.Keys| <= |before.Keys| + 1
    && if entry.symbolType.Internal? then
         && InternalPatches(after) == InternalPatches(before) + EntryPatches(entry)
         && Globals(after) == Globals(before)
       else
         && InternalPatches(after) == InternalPatches(before)
         && Compatible(Globals(before), map[name := Global(entry.value, Slots(entry))])
         && Globals(after) == MergeGlobals(Globals(before), map[name := Global(entry.value, Slots(entry))])
  }

  lemma InsertAbsorbed(table: SymbolTable, name: string, entry: SymbolTableEntry)
    requires name !in table
    ensures Absorbs(table, name, entry, table[name := entry])
  {
    InsertSlots(table, name, entry);
    if entry.symbolType.Internal? {
      InsertInternal(table, name, entry);
    } else {
      InsertGlobal(table, name, entry);
    }
  }

  /** `merged` is the definition found in one of two entries, with the references of both. */
  ghost predicate IsResolution(existing: SymbolTableEntry, entry: SymbolTableEntry, merged: SymbolTableEntry) {
    && merged.symbolType.Public?
    && merged.value == (if entry.value.Some? then entry.value else existing.value)
    && merged.references == existing.references + entry.references
  }

  lemma ResolveAbsorbed(table: SymbolTable, name: string, entry: SymbolTableEntry, merged: SymbolTableEntry)
    requires name in table && IsResolution(table[name], entry, merged)
    requires NonOverlapping(table) && Spaced(entry.references) && AllApart(TableSlots(table), Slots(entry))
    requires !entry.symbolType.Internal? && !table[name].symbolType.Internal?
    requires entry.value.None? <==> table[name].value.Some?
    ensures Absorbs(table, name, entry, table[name := merged])
    ensures NonOverlapping(table[name := merged])
  {
    AppendReferences(table, name, entry, merged);
    InsertGlobal(table, name, merged);
    var update := map[name := Global(entry.value, Slots(entry))];
    assert Globals(table)[name := Global(merged.value, Slots(merged))] == MergeGlobals(Globals(table), update);
  }

  /** The content of a table after all symbols of `added` have been merged in, in any order. */
  ghost predicate Merged(before: SymbolTable, added: SymbolTable, after: SymbolTable) {
    && TableSlots(after) == TableSlots(before) + TableSlots(added)
    && |after.Keys| <= |before.Keys| + |added.Keys|
    && InternalPatches(after) == InternalPatches(before) + InternalPatches(added)
    && Compatible(Globals(before), Globals(added))
    && Globals(after) == MergeGlobals(Globals(before), Globals(added))
  }

  lemma MergedNothing(table: SymbolTable)
    ensures Merged(table, map[], table)
  {
    assert Globals(map[]) == map[];
    assert MergeGlobals(Globals(table), map[]) == Globals(table);
  }

  lemma MergeOneMore(a: map<string, Global>, b: map<string, Global>, name: string, g: Global)
    requires name !in b && Compatible(a, b)
    ensures MergeGlobals(MergeGlobals(a, b), map[name := g]) == MergeGlobals(a, b[name := g])
    ensures Compatible(MergeGlobals(a, b), map[name := g]) ==> Compatible(a, b[name := g])
  {
    assert name in a ==> MergeGlobals(a, b)[name] == a[name];
  }

  lemma MergedStep(before: SymbolTable, added: SymbolTable, middle: SymbolTable,
                   name: string, entry: SymbolTableEntry, after: SymbolTable)
    requires Merged(before, added, middle) && name !in added
    requires Absorbs(middle, name, entry, after)
    ensures Merged(before, added[name := entry], after)
  {
    InsertSlots(added, name, entry);
    if entry.symbolType.Internal? {
      InsertInternal(added, name, entry);
    } else {
      InsertGlobal(added, name, entry);
      MergeOneMore(Globals(before), Globals(added), name, Global(entry.value, Slots(entry)));
    }
  }
}
