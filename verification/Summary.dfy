/** The linker's table, compared with what the files say. */
module Summary {
  import opened Bytes
  import opened Wrappers
  import opened ObjectData
  import opened SymbolTables
  import opened Relocation
  import opened Program

  // ----- Global names -----

  /** Some file before `n` has `r` among its references to the global `name`. */
  ghost predicate IsGlobalSlot(files: seq<ObjectFile>, n: nat, name: string, slot: int)
    requires n <= |files|
  {
    exists i, r :: 0 <= i < n && IsGlobal(files, i, name) && Refers(files, i, name, r) && slot == Base(files, i) + r
  }

  /** `globals` says about `name` exactly what the first `n` files say. */
  ghost predicate Summarises(globals: map<string, Global>, files: seq<ObjectFile>, n: nat, name: string)
    requires n <= |files|
  {
    && (name in globals <==> exists i :: 0 <= i < n && IsGlobal(files, i, name))
    && (name in globals ==>
          && (forall slot: Word :: slot in globals[name].slots <==> IsGlobalSlot(files, n, name, slot))
          && (globals[name].value.Some? <==> exists i :: 0 <= i < n && Defines(files, i, name))
          && (globals[name].value.Some? ==>
                exists i :: 0 <= i < n && Denotes(files, i, name, globals[name].value.value)))
  }

  /** The globals of file `n` at their place in the combined image. */
  ghost predicate AreGlobalsOf(added: map<string, Global>, files: seq<ObjectFile>, n: nat)
    requires n < |files|
  {
    && (forall name :: name in added <==> IsGlobal(files, n, name))
    && (forall name :: name in added ==>
          && (added[name].value.Some? <==> Defines(files, n, name))
          && (added[name].value.Some? ==> Denotes(files, n, name, added[name].value.value))
          && forall slot: Word :: slot in added[name].slots <==> IsOwnSlot(files, n, name, slot))
  }

  ghost predicate IsOwnSlot(files: seq<ObjectFile>, n: nat, name: string, slot: int)
    requires n < |files|
  {
    exists r :: Refers(files, n, name, r) && slot == Base(files, n) + r
  }

  lemma SlotsOfOneMore(files: seq<ObjectFile>, n: nat, name: string, slot: int)
    requires n < |files|
    ensures IsGlobalSlot(files, n + 1, name, slot)
       <==> IsGlobalSlot(files, n, name, slot) || (IsGlobal(files, n, name) && IsOwnSlot(files, n, name, slot))
  {
    if IsGlobalSlot(files, n + 1, name, slot) {
      var i, r :| 0 <= i < n + 1 && IsGlobal(files, i, name) && Refers(files, i, name, r) && slot == Base(files, i) + r;
      if i == n {
        assert IsOwnSlot(files, n, name, slot);
      } else {
        assert IsGlobalSlot(files, n, name, slot);
      }
    }
    if IsGlobal(files, n, name) && IsOwnSlot(files, n, name, slot) {
      var r :| Refers(files, n, name, r) && slot == Base(files, n) + r;
      assert IsGlobalSlot(files, n + 1, name, slot);
    }
  }

  lemma SummaryOfOneMore(globals: map<string, Global>, added: map<string, Global>, files: seq<ObjectFile>, n: nat,
                         name: string)
    requires n < |files| && Summarises(globals, files, n, name) && AreGlobalsOf(added, files, n)
    requires Compatible(globals, added)
    ensures Summarises(MergeGlobals(globals, added), files, n + 1, name)
  {
    var merged := MergeGlobals(globals, added);
    if name in added {
      assert IsGlobal(files, n, name);
    }
    if name in merged {
      forall slot: Word ensures slot in merged[name].slots <==> IsGlobalSlot(files, n + 1, name, slot) {
        SlotsOfOneMore(files, n, name, slot);
        if IsGlobalSlot(files, n, name, slot) {
          var i, r :| 0 <= i < n && IsGlobal(files, i, name) && Refers(files, i, name, r) && slot == Base(files, i) + r;
          assert name in globals;
        }
      }
      ValueOfOneMore(globals, added, files, n, name);
    }
  }

  lemma ValueOfOneMore(globals: map<string, Global>, added: map<string, Global>, files: seq<ObjectFile>, n: nat,
                       name: string)
    requires n < |files| && Summarises(globals, files, n, name) && AreGlobalsOf(added, files, n)
    requires Compatible(globals, added) && (name in globals || name in added)
    ensures var value := MergeGlobals(globals, added)[name].value;
      && (value.Some? <==> exists i :: 0 <= i < n + 1 && Defines(files, i, name))
      && (value.Some? ==> exists i :: 0 <= i < n + 1 && Denotes(files, i, name, value.value))
  {
    var value := MergeGlobals(globals, added)[name].value;
    if i :| 0 <= i < n + 1 && Defines(files, i, name) {
      assert IsGlobal(files, i, name);
      assert i < n ==> name in globals && globals[name].value.Some?;
    }
    if name in globals && globals[name].value.Some? {
      var i :| 0 <= i < n && Denotes(files, i, name, value.value);
      assert Defines(files, i, name);
    } else if name in added && added[name].value.Some? {
      assert Denotes(files, n, name, value.value) && Defines(files, n, name);
    }
  }

  // ----- When the files combine -----

  lemma CombinesOneMore(globals: map<string, Global>, added: map<string, Global>, files: seq<ObjectFile>, n: nat)
    requires n < |files| && (forall name :: Summarises(globals, files, n, name)) && AreGlobalsOf(added, files, n)
    requires CombinesUpTo(files, n)
    ensures Compatible(globals, added) <==> CombinesUpTo(files, n + 1)
  {
    if Compatible(globals, added) {
      forall i, j, name | 0 <= i < j < n + 1 && Defines(files, i, name) ensures !Defines(files, j, name) {
        if j == n {
          assert Summarises(globals, files, n, name) && IsGlobal(files, i, name);
        }
      }
      forall i, j, name | 0 <= i < j < n + 1 && Imports(files, i, name) && Imports(files, j, name)
        ensures exists k :: 0 <= k < j && Defines(files, k, name)
      {
        if j == n {
          assert Summarises(globals, files, n, name) && IsGlobal(files, i, name) && IsGlobal(files, n, name);
        }
      }
    }
    if CombinesUpTo(files, n + 1) {
      forall name | name in globals && name in added
        ensures globals[name].value.Some? <==> added[name].value.None?
      {
        assert Summarises(globals, files, n, name) && IsGlobal(files, n, name);
        if globals[name].value.Some? {
          var i :| 0 <= i < n && Defines(files, i, name);
          assert !Defines(files, n, name);
        } else if added[name].value.None? {
          var i :| 0 <= i < n && IsGlobal(files, i, name);
          assert !Defines(files, i, name);
          assert Imports(files, i, name) && Imports(files, n, name);
        }
      }
    }
  }

  // ----- What one more file adds -----

  lemma ShiftedGlobals(files: seq<ObjectFile>, n: nat)
    requires n < |files| && ValidFile(files[n])
    requires forall name :: name in files[n].symbols ==> EntryFits(files[n].symbols[name], Base(files, n))
    ensures AreGlobalsOf(Globals(ShiftTable(files[n].symbols, Base(files, n))), files, n)
  {
    var table, offset := files[n].symbols, Base(files, n);
    var added := Globals(ShiftTable(table, offset));
    forall name | name in added
      ensures added[name].value.Some? <==> Defines(files, n, name)
      ensures added[name].value.Some? ==> Denotes(files, n, name, added[name].value.value)
      ensures forall slot: Word :: slot in added[name].slots <==> IsOwnSlot(files, n, name, slot)
    {
      assert ValidEntry(table[name], files[n].sections);
      forall slot: Word ensures slot in added[name].slots <==> IsOwnSlot(files, n, name, slot) {
        ShiftedSlot(table[name], offset, slot);
        if exists r :: r in table[name].references && slot == offset + r {
          var r :| r in table[name].references && slot == offset + r;
          assert Refers(files, n, name, r);
        }
        if IsOwnSlot(files, n, name, slot) {
          var r :| Refers(files, n, name, r) && slot == Base(files, n) + r;
          assert r in table[name].references;
        }
      }
    }
  }

  lemma ShiftedSlot(entry: SymbolTableEntry, offset: nat, slot: Word)
    requires EntryFits(entry, offset)
    ensures slot in ShiftEntry(entry, offset).references
       <==> exists r :: r in entry.references && slot == offset + r
  {
    var shifted := ShiftEntry(entry, offset).references;
    if slot in shifted {
      var k :| 0 <= k < |shifted| && shifted[k] == slot;
      assert entry.references[k] in entry.references && slot == offset + entry.references[k];
    }
    if r :| r in entry.references && slot == offset + r {
      var k :| 0 <= k < |entry.references| && entry.references[k] == r;
      assert shifted[k] == slot;
    }
  }

  /** Reference of an internal symbol of one of the first `n` files. */
  ghost predicate IsInternalPatch(files: seq<ObjectFile>, n: nat, p: Patch)
    requires n <= |files|
  {
    exists i, name, r :: 0 <= i < n && IsInternalReference(files, i, name, r, p)
  }

  ghost predicate IsInternalReference(files: seq<ObjectFile>, i: nat, name: string, r: int, p: Patch)
    requires i < |files|
  {
    && Refers(files, i, name, r) && files[i].symbols[name].symbolType.Internal?
    && p.0 == Base(files, i) + r && Means(files, i, name, p.1)
  }

  lemma ShiftedInternals(files: seq<ObjectFile>, n: nat, p: Patch)
    requires n < |files| && ValidFile(files[n])
    requires forall name :: name in files[n].symbols ==> EntryFits(files[n].symbols[name], Base(files, n))
    ensures p in InternalPatches(ShiftTable(files[n].symbols, Base(files, n)))
       <==> exists name, r :: IsInternalReference(files, n, name, r, p)
  {
    var table, offset := files[n].symbols, Base(files, n);
    var shifted := ShiftTable(table, offset);
    if p in InternalPatches(shifted) {
      var name, slot :| name in shifted && shifted[name].symbolType.Internal? && shifted[name].value.Some?
                        && slot in shifted[name].references && p == (slot, shifted[name].value.value);
      ShiftedSlot(table[name], offset, slot);
      var r :| r in table[name].references && slot == offset + r;
      assert IsInternalReference(files, n, name, r, p);
    }
    if name, r :| IsInternalReference(files, n, name, r, p) {
      ShiftedInternalReference(table, offset, name, r, p);
    }
  }

  lemma ShiftedInternalReference(table: SymbolTable, offset: nat, name: string, r: int, p: Patch)
    requires forall n :: n in table ==> EntryFits(table[n], offset)
    requires name in table && table[name].symbolType.Internal? && table[name].value.Some?
    requires r in table[name].references && p.0 == offset + r && p.1 == offset + table[name].value.value
    ensures p in InternalPatches(ShiftTable(table, offset))
  {
    ShiftedSlot(table[name], offset, p.0);
    InternalPatchOf(ShiftTable(table, offset), name, p);
  }

  lemma InternalPatchOf(table: SymbolTable, name: string, p: Patch)
    requires name in table && table[name].symbolType.Internal? && table[name].value == Some(p.1)
    requires p.0 in table[name].references
    ensures p in InternalPatches(table)
  {
    assert p == (p.0, table[name].value.value);
  }

  lemma InternalsOfOneMore(files: seq<ObjectFile>, n: nat, p: Patch)
    requires n < |files|
    ensures IsInternalPatch(files, n + 1, p)
       <==> IsInternalPatch(files, n, p) || exists name, r :: IsInternalReference(files, n, name, r, p)
  {
    if IsInternalPatch(files, n + 1, p) {
      var i, name, r :| 0 <= i < n + 1 && IsInternalReference(files, i, name, r, p);
      if i < n {
        assert IsInternalPatch(files, n, p);
      }
    }
  }

  // ----- The whole table -----

  /** The table holds exactly the symbols of the first `n` files, up to the names of internal ones. */
  ghost predicate Describes(symbols: SymbolTable, files: seq<ObjectFile>, n: nat)
    requires n <= |files|
  {
    && (forall name :: Summarises(Globals(symbols), files, n, name))
    && (forall p: Patch :: p in InternalPatches(symbols) <==> IsInternalPatch(files, n, p))
    && |symbols.Keys| <= SymbolCount(files, n)
  }

  lemma DescribesOneMore(before: SymbolTable, after: SymbolTable, files: seq<ObjectFile>, n: nat)
    requires n < |files| && ValidFile(files[n]) && Describes(before, files, n)
    requires forall name :: name in files[n].symbols ==> EntryFits(files[n].symbols[name], Base(files, n))
    requires Merged(before, ShiftTable(files[n].symbols, Base(files, n)), after)
    ensures Describes(after, files, n + 1)
  {
    var added := ShiftTable(files[n].symbols, Base(files, n));
    ShiftedGlobals(files, n);
    var m := n + 1;
    forall name ensures Summarises(Globals(after), files, m, name) {
      SummaryOfOneMore(Globals(before), Globals(added), files, n, name);
    }
    forall p ensures p in InternalPatches(after) <==> IsInternalPatch(files, n + 1, p) {
      ShiftedInternals(files, n, p);
      InternalsOfOneMore(files, n, p);
    }
    assert added.Keys == files[n].symbols.Keys;
  }

  /** A patch of the program: a reference in some file, and what it means there. */
  ghost predicate IsProgramPatch(files: seq<ObjectFile>, p: Patch) {
    exists i, name, r :: IsProgramReference(files, i, name, r, p)
  }

  ghost predicate IsProgramReference(files: seq<ObjectFile>, i: int, name: string, r: int, p: Patch) {
    0 <= i < |files| && Refers(files, i, name, r) && p.0 == Base(files, i) + r && Means(files, i, name, p.1)
  }

  lemma GlobalPatchMeaning(symbols: SymbolTable, files: seq<ObjectFile>, p: Patch)
    requires WellFormed(files) && Describes(symbols, files, |files|) && CombinesUpTo(files, |files|)
    requires p in GlobalPatches(Globals(symbols))
    ensures IsProgramPatch(files, p)
  {
    var globals := Globals(symbols);
    var name, slot :| name in globals && globals[name].value.Some? && slot in globals[name].slots
                      && p == (slot, globals[name].value.value);
    assert Summarises(globals, files, |files|, name);
    var j :| 0 <= j < |files| && Denotes(files, j, name, p.1);
    var i, r :| 0 <= i < |files| && IsGlobal(files, i, name) && Refers(files, i, name, r) && slot == Base(files, i) + r;
    assert ValidFile(files[i]) && ValidEntry(files[i].symbols[name], files[i].sections);
    if !files[i].symbols[name].symbolType.External? {
      assert Defines(files, i, name) && Defines(files, j, name);
      assert i == j;
    }
    assert IsProgramReference(files, i, name, r, p);
  }

  lemma ProgramPatchInTable(symbols: SymbolTable, files: seq<ObjectFile>, p: Patch)
    requires WellFormed(files) && Describes(symbols, files, |files|) && CombinesUpTo(files, |files|)
    requires IsProgramPatch(files, p)
    ensures p in InternalPatches(symbols) + GlobalPatches(Globals(symbols))
  {
    var i, name, r :| IsProgramReference(files, i, name, r, p);
    if files[i].symbols[name].symbolType.Internal? {
      assert IsInternalReference(files, i, name, r, p);
      assert IsInternalPatch(files, |files|, p);
    } else {
      GlobalReferenceInTable(symbols, files, i, name, r, p);
    }
  }

  lemma GlobalReferenceInTable(symbols: SymbolTable, files: seq<ObjectFile>, i: nat, name: string, r: int, p: Patch)
    requires WellFormed(files) && Describes(symbols, files, |files|) && CombinesUpTo(files, |files|)
    requires IsProgramReference(files, i, name, r, p) && IsGlobal(files, i, name)
    ensures p in GlobalPatches(Globals(symbols))
  {
    var globals := Globals(symbols);
    assert Summarises(globals, files, |files|, name);
    assert IsGlobalSlot(files, |files|, name, p.0);
    var j := if files[i].symbols[name].symbolType.External? then var j :| Denotes(files, j, name, p.1); j else i;
    assert Denotes(files, j, name, p.1);
    var k :| 0 <= k < |files| && Denotes(files, k, name, globals[name].value.value);
    assert j == k by {
      assert Defines(files, j, name) && Defines(files, k, name);
    }
  }

  /** The patches of the linker's table are the references of the program with their meanings. */
  lemma TablePatches(symbols: SymbolTable, files: seq<ObjectFile>)
    requires WellFormed(files) && Describes(symbols, files, |files|) && CombinesUpTo(files, |files|)
    ensures forall p :: p in Patches(symbols) <==> IsProgramPatch(files, p)
  {
    PatchesSplit(symbols);
    forall p ensures p in Patches(symbols) <==> IsProgramPatch(files, p) {
      if p in InternalPatches(symbols) {
        var i, name, r :| 0 <= i < |files| && IsInternalReference(files, i, name, r, p);
        assert IsProgramReference(files, i, name, r, p);
      } else if p in Patches(symbols) {
        GlobalPatchMeaning(symbols, files, p);
      }
      if IsProgramPatch(files, p) {
        ProgramPatchInTable(symbols, files, p);
      }
    }
  }

  /** No import is left unresolved exactly when every imported name is defined somewhere. */
  lemma TableResolved(symbols: SymbolTable, files: seq<ObjectFile>)
    requires Describes(symbols, files, |files|)
    requires forall name :: name in symbols ==> (symbols[name].symbolType.External? <==> symbols[name].value.None?)
    ensures (forall name :: name in symbols ==> symbols[name].value.Some?) <==> AllDefined(files)
  {
    var globals := Globals(symbols);
    forall name | name in symbols && symbols[name].value.None?
      ensures exists i :: Imports(files, i, name) && !exists j :: Defines(files, j, name)
    {
      assert Summarises(globals, files, |files|, name) && name in globals;
      var i :| 0 <= i < |files| && IsGlobal(files, i, name);
      assert !Defines(files, i, name);
      assert Imports(files, i, name);
    }
    forall i, name | Imports(files, i, name) && forall n :: n in symbols ==> symbols[n].value.Some?
      ensures exists j :: Defines(files, j, name)
    {
      assert Summarises(globals, files, |files|, name) && IsGlobal(files, i, name);
    }
  }
}
