/** What page translation protects: user programs cannot change their own mapping, nor any memory they
    have not been given for writing. */
module Isolation {
  import opened Bytes
  import opened Wrappers
  import opened Memory

  // ----- The tables -----

  /** The directory entry for an address is valid and is `entry`. */
  ghost predicate DirectoryEntry(m: State, pdpr: Word, address: Word, entry: Word)
    requires Sized(m) && pdpr + 0xFFF < WORD_LIMIT
  {
    LoadWord(m, DirectoryAddress(pdpr, address)) == Ok(entry) && Bit(entry, 1)
  }

  ghost predicate InFrame(frame: Word, a: Word) {
    frame <= a <= frame + 0xFFF
  }

  /** The page directory or one of the page tables in use holds the byte at `a`. */
  ghost predicate InTables(m: State, pdpr: Word, a: Word)
    requires Sized(m) && pdpr + 0xFFF < WORD_LIMIT
  {
    InFrame(pdpr, a)
    || exists address: Word, entry: Word :: DirectoryEntry(m, pdpr, address, entry) && InFrame(FrameOf(entry), a)
  }

  /** Some address can be used to write the byte at `a`. */
  ghost predicate Writable(m: State, pdpr: Word, a: Word)
    requires Sized(m) && pdpr + 0xFFF < WORD_LIMIT
  {
    exists address: Word :: Translate(m, pdpr, address, Write) == Ok(a)
  }

  /** The tables are in RAM, and no page that can be written holds any part of them. */
  ghost predicate Protected(m: State, pdpr: Word) {
    && Sized(m) && pdpr + 0xFFF < WORD_LIMIT
    && (forall a: Word :: InTables(m, pdpr, a) ==> a >= BEGIN_RAM && !Writable(m, pdpr, a))
  }

  /** The two states agree on the tables of the first. */
  ghost predicate SameTables(m: State, m': State, pdpr: Word)
    requires Sized(m) && Sized(m') && pdpr + 0xFFF < WORD_LIMIT
  {
    forall a: Word :: InTables(m, pdpr, a) ==> SameByte(m, m', a)
  }

  ghost predicate SameByte(m: State, m': State, a: Word)
    requires Sized(m) && Sized(m')
  {
    LoadByte(m', a) == LoadByte(m, a)
  }

  // ----- One step -----

  lemma SameWord(m: State, m': State, a: Word)
    requires Sized(m) && Sized(m') && a + 3 < WORD_LIMIT
    requires SameByte(m, m', a) && SameByte(m, m', a + 1) && SameByte(m, m', a + 2) && SameByte(m, m', a + 3)
    ensures LoadWord(m', a) == LoadWord(m, a)
  {
    hide LoadByte, FromBe32;
  }

  lemma DirectoryIn(m: State, pdpr: Word, address: Word, k: nat)
    requires Sized(m) && pdpr + 0xFFF < WORD_LIMIT && k < 4
    ensures InTables(m, pdpr, DirectoryAddress(pdpr, address) + k)
  {}

  lemma TableIn(m: State, pdpr: Word, address: Word, entry: Word, k: nat)
    requires Sized(m) && pdpr + 0xFFF < WORD_LIMIT && k < 4 && DirectoryEntry(m, pdpr, address, entry)
    ensures InTables(m, pdpr, TableAddress(entry, address) + k)
  {
    hide DirectoryEntry;
    assert InFrame(FrameOf(entry), TableAddress(entry, address) + k);
  }

  lemma SameDirectory(m: State, m': State, pdpr: Word, address: Word)
    requires Sized(m) && Sized(m') && pdpr + 0xFFF < WORD_LIMIT && SameTables(m, m', pdpr)
    ensures LoadWord(m', DirectoryAddress(pdpr, address)) == LoadWord(m, DirectoryAddress(pdpr, address))
  {
    hide InTables, SameByte, LoadWord;
    var a := DirectoryAddress(pdpr, address);
    DirectoryIn(m, pdpr, address, 0);
    DirectoryIn(m, pdpr, address, 1);
    DirectoryIn(m, pdpr, address, 2);
    DirectoryIn(m, pdpr, address, 3);
    SameWord(m, m', a);
  }

  lemma SameEntry(m: State, m': State, pdpr: Word, address: Word)
    requires Sized(m) && Sized(m') && pdpr + 0xFFF < WORD_LIMIT && SameTables(m, m', pdpr)
    ensures EntryFor(m', pdpr, address) == EntryFor(m, pdpr, address)
  {
    hide InTables, SameByte, LoadWord, DirectoryAddress, TableAddress;
    SameDirectory(m, m', pdpr, address);
    var directory := LoadWord(m, DirectoryAddress(pdpr, address));
    if directory.Ok? && Bit(directory.value, 1) {
      var entry := directory.value;
      assert DirectoryEntry(m, pdpr, address, entry);
      TableIn(m, pdpr, address, entry, 0);
      TableIn(m, pdpr, address, entry, 1);
      TableIn(m, pdpr, address, entry, 2);
      TableIn(m, pdpr, address, entry, 3);
      SameWord(m, m', TableAddress(entry, address));
    }
  }

  /** Agreeing on the tables means having the same mapping. */
  ghost predicate SameMapping(m: State, m': State, pdpr: Word)
    requires Sized(m) && Sized(m') && pdpr + 0xFFF < WORD_LIMIT
  {
    && (forall address: Word, intent: Intent :: Translate(m', pdpr, address, intent) == Translate(m, pdpr, address, intent))
    && (forall a: Word :: InTables(m', pdpr, a) <==> InTables(m, pdpr, a))
  }

  lemma SameTablesSameMapping(m: State, m': State, pdpr: Word)
    requires Sized(m) && Sized(m') && pdpr + 0xFFF < WORD_LIMIT && SameTables(m, m', pdpr)
    ensures SameMapping(m, m', pdpr)
  {
    hide SameTables, LoadWord, EntryFor, CheckEntry, DirectoryAddress;
    forall address: Word, intent: Intent
      ensures Translate(m', pdpr, address, intent) == Translate(m, pdpr, address, intent)
    {
      SameEntry(m, m', pdpr, address);
    }
    forall address: Word, entry: Word
      ensures DirectoryEntry(m', pdpr, address, entry) == DirectoryEntry(m, pdpr, address, entry)
    {
      SameDirectory(m, m', pdpr, address);
    }
  }

  /** Only the byte a store translates to can change. */
  lemma StoreChanges(m: State, pdpr: Word, address: Word, value: Byte, m': State, r: Result<(), Fault>, a: Word)
    requires Sized(m) && pdpr + 0xFFF < WORD_LIMIT && StoresVirtual(m, pdpr, address, value, m', r) && a >= BEGIN_RAM
    ensures Sized(m')
    ensures LoadByte(m', a) == if Translate(m, pdpr, address, Write) == Ok(a) then Ok(value) else LoadByte(m, a)
  {
    hide Translate;
  }

  lemma StoreKeepsTables(m: State, pdpr: Word, address: Word, value: Byte, m': State, r: Result<(), Fault>)
    requires Protected(m, pdpr) && StoresVirtual(m, pdpr, address, value, m', r)
    ensures Sized(m') && SameTables(m, m', pdpr)
  {
    hide InTables, Translate, StoresVirtual, LoadByte;
    StoreChanges(m, pdpr, address, value, m', r, BEGIN_RAM);
    forall a: Word | InTables(m, pdpr, a) ensures SameByte(m, m', a) {
      StoreChanges(m, pdpr, address, value, m', r, a);
      assert !Writable(m, pdpr, a);
    }
  }

  /** One step of a user program keeps the mapping, and keeps it protected. */
  lemma StepKeepsMapping(m: State, pdpr: Word, step: Step, m': State)
    requires Protected(m, pdpr) && Sized(m') && Effect(m, pdpr, step, m')
    ensures SameMapping(m, m', pdpr) && Protected(m', pdpr)
  {
    hide InTables, Translate, StoresVirtual, LoadByte;
    match step {
      case StoreStep(address, value) =>
        var r :| StoresVirtual(m, pdpr, address, value, m', r);
        StoreKeepsTables(m, pdpr, address, value, m', r);
      case LoadStep(_, _) =>
        LoadKeepsTables(m, m', pdpr);
    }
    SameTablesSameMapping(m, m', pdpr);
    ProtectedStays(m, m', pdpr);
  }

  lemma LoadKeepsTables(m: State, m': State, pdpr: Word)
    requires Protected(m, pdpr) && SameButDevices(m, m')
    ensures SameTables(m, m', pdpr)
  {
    hide InTables, Writable;
  }

  lemma ProtectedStays(m: State, m': State, pdpr: Word)
    requires Protected(m, pdpr) && Sized(m') && SameMapping(m, m', pdpr)
    ensures Protected(m', pdpr)
  {
    hide InTables, Translate;
  }

  // ----- Whole runs -----

  /** The last value that the first `n` steps store at `a`, according to the mapping of `m`. */
  ghost function LastStored(m: State, pdpr: Word, steps: seq<Step>, n: nat, a: Word): Option<Byte>
    requires Sized(m) && pdpr + 0xFFF < WORD_LIMIT && n <= |steps|
  {
    if n == 0 then None
    else if steps[n - 1].StoreStep? && Translate(m, pdpr, steps[n - 1].address, Write) == Ok(a) then Some(steps[n - 1].value)
    else LastStored(m, pdpr, steps, n - 1, a)
  }

  ghost predicate Holds(m: State, a: Word, initial: State, stored: Option<Byte>)
    requires Sized(m) && Sized(initial)
  {
    LoadByte(m, a) == if stored.Some? then Ok(stored.value) else LoadByte(initial, a)
  }

  lemma StepHolds(initial: State, pdpr: Word, m: State, step: Step, m': State, a: Word, stored: Option<Byte>)
    requires Sized(initial) && Sized(m) && Sized(m') && pdpr + 0xFFF < WORD_LIMIT && a >= BEGIN_RAM
    requires Effect(m, pdpr, step, m') && Holds(m, a, initial, stored)
    ensures Holds(m', a, initial,
                  if step.StoreStep? && Translate(m, pdpr, step.address, Write) == Ok(a) then Some(step.value) else stored)
  {
    hide Translate, StoresVirtual;
    match step {
      case StoreStep(address, value) =>
        var r :| StoresVirtual(m, pdpr, address, value, m', r);
        StoreChanges(m, pdpr, address, value, m', r, a);
      case LoadStep(_, _) =>
    }
  }

  /** After any number of steps the mapping is that of the start, and every byte of RAM holds the last
      value stored at it through any address, or what it held at the start. */
  lemma {:induction false} RunIsIsolated(pdpr: Word, steps: seq<Step>, trace: seq<State>, n: nat, a: Word)
    requires IsRun(pdpr, steps, trace) && n <= |steps| && Protected(trace[0], pdpr) && a >= BEGIN_RAM
    ensures Protected(trace[n], pdpr) && SameMapping(trace[0], trace[n], pdpr)
    ensures Holds(trace[n], a, trace[0], LastStored(trace[0], pdpr, steps, n, a))
  {
    hide InTables, Translate, Effect, Protected, LoadByte;
    if n > 0 {
      RunIsIsolated(pdpr, steps, trace, n - 1, a);
      assert EffectAt(pdpr, steps, trace, n - 1);
      StepKeepsMapping(trace[n - 1], pdpr, steps[n - 1], trace[n]);
      StepHolds(trace[0], pdpr, trace[n - 1], steps[n - 1], trace[n], a, LastStored(trace[0], pdpr, steps, n - 1, a));
    } else {
      ProtectedIsSized(trace[0], pdpr);
    }
  }

  lemma ProtectedIsSized(m: State, pdpr: Word)
    requires Protected(m, pdpr)
    ensures Sized(m) && pdpr + 0xFFF < WORD_LIMIT
  {}

  lemma {:induction false} StoredIsWritable(m: State, pdpr: Word, steps: seq<Step>, n: nat, a: Word)
    requires Sized(m) && pdpr + 0xFFF < WORD_LIMIT && n <= |steps| && LastStored(m, pdpr, steps, n, a).Some?
    ensures Writable(m, pdpr, a)
  {
    hide Translate;
    if !(steps[n - 1].StoreStep? && Translate(m, pdpr, steps[n - 1].address, Write) == Ok(a)) {
      StoredIsWritable(m, pdpr, steps, n - 1, a);
    }
  }

  /** A run changes no byte of RAM outside the frames mapped writable and not copy-on-write, and so
      never a byte of the tables. */
  lemma OnlyWritableChanges(pdpr: Word, steps: seq<Step>, trace: seq<State>, n: nat, a: Word)
    requires IsRun(pdpr, steps, trace) && n <= |steps| && Protected(trace[0], pdpr) && a >= BEGIN_RAM
    ensures Sized(trace[n]) && (LoadByte(trace[n], a) != LoadByte(trace[0], a) ==>
      Writable(trace[0], pdpr, a) && !InTables(trace[0], pdpr, a))
  {
    hide InTables, Translate, LoadByte, Writable;
    RunIsIsolated(pdpr, steps, trace, n, a);
    if LastStored(trace[0], pdpr, steps, n, a).Some? {
      StoredIsWritable(trace[0], pdpr, steps, n, a);
    }
  }

  /** A load returns the last value stored at the same place of RAM, whichever addresses were used. */
  lemma LoadsThroughAliases(pdpr: Word, steps: seq<Step>, trace: seq<State>, n: nat, address: Word, intent: Intent)
    requires IsRun(pdpr, steps, trace) && n <= |steps| && Protected(trace[0], pdpr)
    requires Translate(trace[0], pdpr, address, intent).Ok? && Translate(trace[0], pdpr, address, intent).value >= BEGIN_RAM
    ensures Sized(trace[n])
    ensures var a := Translate(trace[0], pdpr, address, intent).value;
      LoadVirtual(trace[n], pdpr, address, intent)
      == match LastStored(trace[0], pdpr, steps, n, a)
         case Some(value) => Ok(value)
         case None => LoadByte(trace[0], a)
  {
    hide InTables, Translate, LoadByte, LastStored;
    RunIsIsolated(pdpr, steps, trace, n, Translate(trace[0], pdpr, address, intent).value);
  }

  // ----- Whole programs -----

  /** The accesses of one instruction, a single store or load or a block operation, and the states they
      go through. */
  datatype Operation = Operation(steps: seq<Step>, trace: seq<State>)

  /** The state the first `n` operations lead to. */
  function StateAfter(m: State, operations: seq<Operation>, n: nat): State
    requires n <= |operations| && forall i :: 0 <= i < |operations| ==> operations[i].trace != []
  {
    if n == 0 then m else operations[n - 1].trace[|operations[n - 1].trace| - 1]
  }

  /** Every operation is a run that begins where the one before it ended. */
  ghost predicate InTurn(pdpr: Word, m: State, operations: seq<Operation>) {
    && (forall i :: 0 <= i < |operations| ==> operations[i].trace != [])
    && forall i :: 0 <= i < |operations| ==> Continues(pdpr, m, operations, i)
  }

  ghost predicate Continues(pdpr: Word, m: State, operations: seq<Operation>, i: nat)
    requires i < |operations| && forall k :: 0 <= k < |operations| ==> operations[k].trace != []
  {
    IsRun(pdpr, operations[i].steps, operations[i].trace) && operations[i].trace[0] == StateAfter(m, operations, i)
  }

  function AllSteps(operations: seq<Operation>, n: nat): seq<Step>
    requires n <= |operations|
  {
    if n == 0 then [] else AllSteps(operations, n - 1) + operations[n - 1].steps
  }

  function AllStates(m: State, operations: seq<Operation>, n: nat): seq<State>
    requires n <= |operations| && forall i :: 0 <= i < |operations| ==> operations[i].trace != []
  {
    if n == 0 then [m] else AllStates(m, operations, n - 1) + operations[n - 1].trace[1..]
  }

  /** The operations together are one run. */
  lemma {:induction false} OperationsFormRun(pdpr: Word, m: State, operations: seq<Operation>, n: nat)
    requires InTurn(pdpr, m, operations) && Sized(m) && pdpr + 0xFFF < WORD_LIMIT && n <= |operations|
    ensures var steps, states := AllSteps(operations, n), AllStates(m, operations, n);
      IsRun(pdpr, steps, states) && states[0] == m && states[|steps|] == StateAfter(m, operations, n)
  {
    hide Effect;
    if n > 0 {
      OperationsFormRun(pdpr, m, operations, n - 1);
      assert Continues(pdpr, m, operations, n - 1);
      RunsJoin(pdpr, AllSteps(operations, n - 1), AllStates(m, operations, n - 1),
               operations[n - 1].steps, operations[n - 1].trace);
    }
  }

  /** The mapping is as before, the byte of RAM is the last one stored at it or that of the start, and if
      it has changed it lies in a writable frame outside the tables. */
  ghost predicate Isolated(pdpr: Word, m: State, steps: seq<Step>, after: State, a: Word) {
    && Protected(m, pdpr) && Protected(after, pdpr) && SameMapping(m, after, pdpr)
    && Holds(after, a, m, LastStored(m, pdpr, steps, |steps|, a))
    && (LoadByte(after, a) != LoadByte(m, a) ==> Writable(m, pdpr, a) && !InTables(m, pdpr, a))
  }

  lemma WholeRunIsIsolated(pdpr: Word, steps: seq<Step>, trace: seq<State>, a: Word)
    requires IsRun(pdpr, steps, trace) && Protected(trace[0], pdpr) && a >= BEGIN_RAM
    ensures Isolated(pdpr, trace[0], steps, trace[|steps|], a)
  {
    hide InTables, Translate, LoadByte, Writable, Holds, EffectAt, SameMapping, Protected;
    ProtectedIsSized(trace[0], pdpr);
    RunIsIsolated(pdpr, steps, trace, |steps|, a);
    OnlyWritableChanges(pdpr, steps, trace, |steps|, a);
  }

  /** Any sequence of stores, loads and block operations of a user program is isolated. */
  lemma OperationsAreIsolated(pdpr: Word, m: State, operations: seq<Operation>, n: nat, a: Word)
    requires InTurn(pdpr, m, operations) && Protected(m, pdpr) && n <= |operations| && a >= BEGIN_RAM
    ensures Isolated(pdpr, m, AllSteps(operations, n), StateAfter(m, operations, n), a)
  {
    hide Protected, Isolated, EffectAt, StateAfter, AllStates, AllSteps;
    ProtectedIsSized(m, pdpr);
    OperationsFormRun(pdpr, m, operations, n);
    WholeRunIsIsolated(pdpr, AllSteps(operations, n), AllStates(m, operations, n), a);
  }
}
