/** Block instructions (simulatron-vm, cpu.rs): copying, setting and comparing ranges of memory. */
module Blocks {
  import opened Bytes
  import opened Wrappers
  import opened Memory
  import opened Alu
  import Arithmetic


  // ----- Copying -----

  /** The place of the original source that byte `i` of a forward copy comes from. */
  function CopySource(dest: Word, source: Word, i: nat): (k: nat)
    ensures k <= i && (source < dest ==> k < dest - source)
  {
    assert source < dest ==> i % (dest - source) <= i by {
      if source < dest && i < dest - source {
        Arithmetic.SmallMod(i, dest - source);
      }
    }
    if source < dest then i % (dest - source) else i
  }

  /** `m'` is `m` with the first `n` bytes copied. */
  ghost predicate Copied(m: State, dest: Word, source: Word, n: nat, m': State)
    requires Sized(m) && RamRange(dest, n) && RamRange(source, n)
  {
    && Sized(m') && m' == m.(ram := m'.ram, devices := m'.devices)
    && forall j {:trigger m'.ram[j]} :: 0 <= j < RAM_SIZE ==> CopiedAt(m, dest, source, n, m', j)
  }

  ghost predicate CopiedAt(m: State, dest: Word, source: Word, n: nat, m': State, j: nat)
    requires Sized(m) && Sized(m') && RamRange(dest, n) && RamRange(source, n) && j < RAM_SIZE
  {
    m'.ram[j] == if dest <= j + BEGIN_RAM < dest + n
                 then m.ram[source - BEGIN_RAM + CopySource(dest, source, j + BEGIN_RAM - dest)]
                 else m.ram[j]
  }

  /** The byte read at step `n` comes from where an earlier step put it, if the ranges overlap forwards. */
  lemma CopySourceRepeats(dest: Word, source: Word, n: nat)
    ensures source < dest <= source + n ==> CopySource(dest, source, n) == CopySource(dest, source, n - (dest - source))
    ensures !(source < dest <= source + n) ==> CopySource(dest, source, n) == n
  {
    if source < dest <= source + n {
      Arithmetic.ModStep(n - (dest - source), dest - source);
    } else if source < dest {
      Arithmetic.SmallMod(n, dest - source);
    }
  }

  lemma NothingCopied(m: State, dest: Word, source: Word)
    requires Sized(m) && RamRange(dest, 0) && RamRange(source, 0)
    ensures Copied(m, dest, source, 0, m)
  {
    forall j | 0 <= j < RAM_SIZE ensures CopiedAt(m, dest, source, 0, m, j) {}
  }

  /** One more byte: what is read is already copied when the ranges overlap forwards. */
  lemma CopyStep(m: State, dest: Word, source: Word, n: nat, before: State, after: State)
    requires Sized(m) && RamRange(dest, n + 1) && RamRange(source, n + 1) && Copied(m, dest, source, n, before)
    requires Sized(after) && after == before.(
      ram := before.ram[dest + n - BEGIN_RAM := before.ram[source + n - BEGIN_RAM]], devices := after.devices)
    ensures Copied(m, dest, source, n + 1, after)
  {
    hide CopySource;
    CopySourceRepeats(dest, source, n);
    assert CopiedAt(m, dest, source, n, before, source + n - BEGIN_RAM);
    var next := n + 1;
    forall j | 0 <= j < RAM_SIZE ensures CopiedAt(m, dest, source, next, after, j) {
      assert CopiedAt(m, dest, source, n, before, j);
    }
  }

  // ----- Comparison -----

  /** The sequences agree up to `k`, where `a` has the smaller byte. */
  predicate FirstSmallerAt(a: seq<Byte>, b: seq<Byte>, k: nat) {
    k < |a| && k < |b| && a[..k] == b[..k] && a[k] < b[k]
  }

  ghost predicate LexicographicallyLess(a: seq<Byte>, b: seq<Byte>) {
    exists k: nat :: FirstSmallerAt(a, b, k)
  }

  /** The flags are exactly the lexicographic order of the two ranges, as the signed conditional jumps
      decide it; neither carry nor overflow is set. */
  ghost predicate OrderFlags(a: seq<Byte>, b: seq<Byte>, flags: Half) {
    && (flags == FLAG_ZERO || flags == FLAG_NEGATIVE || flags == 0)
    && (JEqual(flags) <==> a == b)
    && (SJLesser(flags) <==> LexicographicallyLess(a, b))
    && (SJGreater(flags) <==> LexicographicallyLess(b, a))
  }

  lemma FirstDifference(a: seq<Byte>, b: seq<Byte>, k: nat)
    requires |a| == |b| && FirstSmallerAt(a, b, k)
    ensures LexicographicallyLess(a, b) && !LexicographicallyLess(b, a) && a != b
  {
    forall j: nat ensures !FirstSmallerAt(b, a, j) {
      if j < k {
        assert a[..k][j] == b[..k][j];
      } else if j > k && j <= |a| {
        assert a[..j][k] == a[k] && b[..j][k] == b[k];
      }
    }
  }

  lemma NoDifference(a: seq<Byte>)
    ensures !LexicographicallyLess(a, a)
  {}

  lemma DifferenceDecides(common: seq<Byte>, x: Byte, y: Byte)
    requires x != y
    ensures OrderFlags(common + [x], common + [y], if x < y then FLAG_NEGATIVE else 0)
    ensures common + [x] != common + [y]
  {
    var a, b := common + [x], common + [y];
    assert a[..|common|] == common == b[..|common|];
    if x < y {
      FirstDifference(a, b, |common|);
    } else {
      FirstDifference(b, a, |common|);
    }
  }

  lemma EqualDecides(a: seq<Byte>)
    ensures OrderFlags(a, a, FLAG_ZERO)
  {
    NoDifference(a);
  }

  // ----- Filling -----

  /** `m'` is `m` with the first `n` bytes of the range filled. */
  ghost predicate Filled(m: State, dest: Word, value: Byte, n: nat, m': State)
    requires Sized(m) && RamRange(dest, n)
  {
    && Sized(m') && m' == m.(ram := m'.ram, devices := m'.devices)
    && forall j {:trigger m'.ram[j]} :: 0 <= j < RAM_SIZE ==>
         m'.ram[j] == if dest <= j + BEGIN_RAM < dest + n then value else m.ram[j]
  }

  // ----- User-mode copies -----

  /** The steps alternate between loading a byte and storing the byte just loaded; every store succeeds
      but the last, which has the given outcome. */
  ghost predicate CopyRun(
    pdpr: Word, steps: seq<Step>, trace: seq<State>, dest: Word, source: Word, last: Result<(), Fault>)
  {
    && |trace| == |steps| + 1 && |steps| % 2 == 0 && pdpr + 0xFFF < WORD_LIMIT
    && forall i {:trigger CopyPair(pdpr, steps, trace, dest, source, i, last)} :: 0 <= i < |steps| / 2 ==>
         CopyPair(pdpr, steps, trace, dest, source, i, last)
  }

  ghost predicate CopyPair(
    pdpr: Word, steps: seq<Step>, trace: seq<State>, dest: Word, source: Word, i: nat, last: Result<(), Fault>)
    requires |trace| == |steps| + 1 && 2 * i + 1 < |steps| && pdpr + 0xFFF < WORD_LIMIT
  {
    && Sized(trace[2 * i]) && Sized(trace[2 * i + 1])
    && source + i < WORD_LIMIT && dest + i < WORD_LIMIT
    && steps[2 * i] == LoadStep(source + i, false)
    && steps[2 * i + 1].StoreStep? && steps[2 * i + 1].address == dest + i
    && LoadVirtual(trace[2 * i], pdpr, source + i, Read) == Ok(steps[2 * i + 1].value)
    && StoresVirtual(trace[2 * i + 1], pdpr, dest + i, steps[2 * i + 1].value, trace[2 * i + 2],
                     if 2 * i + 2 == |steps| then last else Ok(()))
  }

  /** A copy in user mode: all bytes are copied, or the outcome is the fault of the load or of the store
      that was refused first. */
  ghost predicate UserCopies(
    pdpr: Word, steps: seq<Step>, trace: seq<State>, dest: Word, source: Word, length: nat, r: Result<(), Fault>)
    requires pdpr + 0xFFF < WORD_LIMIT && source + length <= WORD_LIMIT
  {
    && IsRun(pdpr, steps, trace) && |steps| % 2 == 0
    && (r.Ok? ==> |steps| == 2 * length && CopyRun(pdpr, steps, trace, dest, source, Ok(())))
    && (r.Err? ==>
          (LoadStops(pdpr, steps, trace, dest, source, length, r.error)
           || (0 < |steps| <= 2 * length && CopyRun(pdpr, steps, trace, dest, source, r))))
  }

  /** All bytes loaded so far are stored, and the next one cannot be loaded. */
  ghost predicate LoadStops(
    pdpr: Word, steps: seq<Step>, trace: seq<State>, dest: Word, source: Word, length: nat, fault: Fault)
    requires pdpr + 0xFFF < WORD_LIMIT && source + length <= WORD_LIMIT
  {
    && CopyRun(pdpr, steps, trace, dest, source, Ok(())) && |steps| < 2 * length && Sized(trace[|steps|])
    && LoadVirtual(trace[|steps|], pdpr, source + |steps| / 2, Read) == Err(fault)
  }

  lemma CopyOneMore(
    pdpr: Word, steps: seq<Step>, trace: seq<State>, dest: Word, source: Word, i: nat, value: Byte,
    before: State, after: State, r: Result<(), Fault>)
    requires IsRun(pdpr, steps, trace) && CopyRun(pdpr, steps, trace, dest, source, Ok(())) && |steps| == 2 * i
    requires trace[|steps|] == before && Sized(before) && Sized(after)
    requires source + i < WORD_LIMIT && dest + i < WORD_LIMIT
    requires LoadVirtual(before, pdpr, source + i, Read) == Ok(value)
    requires StoresVirtual(before, pdpr, dest + i, value, after, r)
    ensures var load, store := LoadStep(source + i, false), StoreStep(dest + i, value);
      && IsRun(pdpr, steps + [load, store], trace + [before, after])
      && CopyRun(pdpr, steps + [load, store], trace + [before, after], dest, source, r)
  {
    hide StoresVirtual, LoadVirtual, IsRun, Translate;
    var load, store := LoadStep(source + i, false), StoreStep(dest + i, value);
    assert Effect(before, pdpr, load, before);
    RunOneMore(pdpr, steps, trace, load, before);
    StoreIsStep(before, pdpr, dest + i, value, after, r);
    RunOneMore(pdpr, steps + [load], trace + [before], store, after);
    assert steps + [load] + [store] == steps + [load, store];
    assert trace + [before] + [after] == trace + [before, after];
    forall j | 0 <= j <= i ensures CopyPair(pdpr, steps + [load, store], trace + [before, after], dest, source, j, r) {
      if j < i {
        assert CopyPair(pdpr, steps, trace, dest, source, j, Ok(()));
      }
    }
  }

  class BlockUnit {
    const mmu: MMU
    var kernelMode: bool
    var pdpr: Word
    var flags: Half

    constructor (mmu: MMU, kernelMode: bool, pdpr: Word)
      requires mmu.Valid() && pdpr + 0xFFF < WORD_LIMIT
      ensures this.mmu == mmu && this.kernelMode == kernelMode && this.pdpr == pdpr && flags == 0 && Valid()
    {
      this.mmu, this.kernelMode, this.pdpr, flags := mmu, kernelMode, pdpr, 0;
    }

    ghost predicate Valid()
      reads this, mmu
    {
      mmu.Valid() && pdpr + 0xFFF < WORD_LIMIT
    }

    /** In kernel mode bytes are loaded and stored one after the other, up to the first access that is
        refused; a copy within RAM repeats the gap between the ranges when it overlaps itself
        forwards, otherwise copies the original bytes, and changes nothing else. In user mode the copy is
        a run of single-byte accesses, cut short by the first fault, which is the outcome. */
    method BlockCopy(length: Word, dest: Word, source: Word)
      returns (r: Result<(), Fault>, ghost steps: seq<Step>, ghost trace: seq<State>)
      requires Valid() && dest + length <= WORD_LIMIT && source + length <= WORD_LIMIT
      modifies mmu
      ensures Valid()
      ensures kernelMode ==> KernelCopies(old(mmu.Snapshot()), dest, source, length, mmu.Snapshot(), r)
      ensures kernelMode && RamRange(dest, length) && RamRange(source, length) ==>
        r.Ok? && Copied(old(mmu.Snapshot()), dest, source, length, mmu.Snapshot())
      ensures !kernelMode ==> UserCopies(pdpr, steps, trace, dest, source, length, r)
      ensures !kernelMode ==> trace[0] == old(mmu.Snapshot()) && trace[|steps|] == mmu.Snapshot()
      ensures Reported(FaultOf(r), old(mmu.interrupts), old(mmu.pfsr), mmu.interrupts, mmu.pfsr)
    {
      if kernelMode {
        r := KernelCopy(length, dest, source);
        steps, trace := [], [];
      } else {
        r, steps, trace := UserCopy(length, dest, source);
      }
    }

    method KernelCopy(length: Word, dest: Word, source: Word) returns (r: Result<(), Fault>)
      requires Valid() && dest + length <= WORD_LIMIT && source + length <= WORD_LIMIT
      modifies mmu
      ensures Valid() && KernelCopies(old(mmu.Snapshot()), dest, source, length, mmu.Snapshot(), r)
      ensures Reported(FaultOf(r), old(mmu.interrupts), old(mmu.pfsr), mmu.interrupts, mmu.pfsr)
      ensures RamRange(dest, length) && RamRange(source, length) ==>
        r.Ok? && Copied(old(mmu.Snapshot()), dest, source, length, mmu.Snapshot())
    {
      hide Copied, CopiesFirst, KernelCopies, LoadByte, StoresByte;
      ghost var start := mmu.Snapshot();
      NothingCopiedYet(start, dest, source);
      if RamRange(dest, length) && RamRange(source, length) {
        NothingCopied(start, dest, source);
      }
      for i := 0 to length
        invariant Valid() && CopiesFirst(start, dest, source, i, mmu.Snapshot())
        invariant mmu.interrupts == old(mmu.interrupts) && mmu.pfsr == old(mmu.pfsr)
        invariant RamRange(dest, length) && RamRange(source, length) ==> Copied(start, dest, source, i, mmu.Snapshot())
      {
        ghost var before := mmu.Snapshot();
        var loaded := mmu.LoadPhysical8(source + i);
        if RamRange(source, length) {
          LoadInRam(source + i, before);
        }
        if loaded.Err? {
          LoadRefused(start, dest, source, length, i, before, loaded.error);
          return Err(loaded.error);
        }
        r := mmu.StorePhysical8(dest + i, loaded.value);
        if RamRange(dest, length) && RamRange(source, length) {
          CopyByteInRam(dest + i, source + i, before, mmu.Snapshot(), loaded.value, r);
        }
        StoreDone(start, dest, source, length, i, before, mmu.Snapshot(), r);
        if r.Err? {
          return;
        }
        if RamRange(dest, length) && RamRange(source, length) {
          CopyStep(start, dest, source, i, before, mmu.Snapshot());
        }
      }
      AllCopied(start, dest, source, length, mmu.Snapshot());
      return Ok(());
    }

    method UserCopy(length: Word, dest: Word, source: Word)
      returns (r: Result<(), Fault>, ghost steps: seq<Step>, ghost trace: seq<State>)
      requires Valid() && dest + length <= WORD_LIMIT && source + length <= WORD_LIMIT
      modifies mmu
      ensures Valid() && UserCopies(pdpr, steps, trace, dest, source, length, r)
      ensures trace[0] == old(mmu.Snapshot()) && trace[|steps|] == mmu.Snapshot()
      ensures Reported(FaultOf(r), old(mmu.interrupts), old(mmu.pfsr), mmu.interrupts, mmu.pfsr)
    {
      hide StoresVirtual, LoadVirtual, Effect, CopyRun;
      steps, trace := [], [mmu.Snapshot()];
      NoSteps(pdpr, mmu.Snapshot());
      NoCopy(pdpr, trace[0], dest, source);
      for i := 0 to length
        invariant Valid() && |steps| == 2 * i
        invariant IsRun(pdpr, steps, trace) && trace[0] == old(mmu.Snapshot()) && trace[|steps|] == mmu.Snapshot()
        invariant CopyRun(pdpr, steps, trace, dest, source, Ok(()))
        invariant mmu.interrupts == old(mmu.interrupts) && mmu.pfsr == old(mmu.pfsr)
      {
        ghost var before := mmu.Snapshot();
        var value := mmu.LoadVirtual8(pdpr, source + i, false);
        if value.Err? {
          return Err(value.error), steps, trace;
        }
        r := mmu.StoreVirtual8(pdpr, dest + i, value.value);
        CopyOneMore(pdpr, steps, trace, dest, source, i, value.value, before, mmu.Snapshot(), r);
        steps := steps + [LoadStep(source + i, false), StoreStep(dest + i, value.value)];
        trace := trace + [before, mmu.Snapshot()];
        if r.Err? {
          return;
        }
        UnitIsUnique(r.value);
      }
      r := Ok(());
    }

    /** In kernel mode the bytes are stored one after the other, up to the first that is refused; within
        RAM the range is filled and nothing else changes. In user mode it is a run of single-byte stores,
        cut short by the first fault, which is the outcome. */
    method BlockSet(length: Word, dest: Word, value: Byte)
      returns (r: Result<(), Fault>, ghost trace: seq<State>)
      requires Valid() && dest + length <= WORD_LIMIT
      modifies mmu
      ensures Valid()
      ensures kernelMode ==> StoresBytes(old(mmu.Snapshot()), dest, Repeated(value, length), mmu.Snapshot(), r)
      ensures kernelMode && RamRange(dest, length) ==> r.Ok? && Filled(old(mmu.Snapshot()), dest, value, length, mmu.Snapshot())
      ensures !kernelMode ==>
        && StoresRun(pdpr, dest, Repeated(value, length), trace, r)
        && trace[0] == old(mmu.Snapshot()) && trace[|trace| - 1] == mmu.Snapshot()
      ensures Reported(FaultOf(r), old(mmu.interrupts), old(mmu.pfsr), mmu.interrupts, mmu.pfsr)
    {
      if kernelMode {
        r := KernelSet(length, dest, value);
        trace := [];
      } else {
        r, trace := UserSet(length, dest, value);
      }
    }

    method KernelSet(length: Word, dest: Word, value: Byte) returns (r: Result<(), Fault>)
      requires Valid() && dest + length <= WORD_LIMIT
      modifies mmu
      ensures Valid() && StoresBytes(old(mmu.Snapshot()), dest, Repeated(value, length), mmu.Snapshot(), r)
      ensures Reported(FaultOf(r), old(mmu.interrupts), old(mmu.pfsr), mmu.interrupts, mmu.pfsr)
      ensures RamRange(dest, length) ==> r.Ok? && Filled(old(mmu.Snapshot()), dest, value, length, mmu.Snapshot())
    {
      hide StoresFirst, Filled, StoresByte;
      ghost var start, bytes := mmu.Snapshot(), Repeated(value, length);
      NothingStored(start, dest, bytes);
      NothingFilled(start, dest, value);
      for i := 0 to length
        invariant Valid() && StoresFirst(start, dest, bytes, i, mmu.Snapshot())
        invariant mmu.interrupts == old(mmu.interrupts) && mmu.pfsr == old(mmu.pfsr)
        invariant RamRange(dest, length) ==> Filled(start, dest, value, i, mmu.Snapshot())
      {
        ghost var before := mmu.Snapshot();
        r := mmu.StorePhysical8(dest + i, value);
        if RamRange(dest, length) {
          FilledOneMore(start, dest, value, i, before, mmu.Snapshot(), r);
        }
        if r.Err? {
          assert RefusesAt(start, dest, bytes, i, before, mmu.Snapshot(), r);
          return;
        }
        UnitIsUnique(r.value);
        OneMoreStored(start, dest, bytes, i, before, mmu.Snapshot());
      }
      return Ok(());
    }

    method UserSet(length: Word, dest: Word, value: Byte) returns (r: Result<(), Fault>, ghost trace: seq<State>)
      requires Valid() && dest + length <= WORD_LIMIT
      modifies mmu
      ensures Valid() && StoresRun(pdpr, dest, Repeated(value, length), trace, r)
      ensures trace[0] == old(mmu.Snapshot()) && trace[|trace| - 1] == mmu.Snapshot()
      ensures Reported(FaultOf(r), old(mmu.interrupts), old(mmu.pfsr), mmu.interrupts, mmu.pfsr)
    {
      hide StoresVirtual, Effect, StoredAt;
      ghost var bytes := Repeated(value, length);
      trace := [mmu.Snapshot()];
      NoSteps(pdpr, mmu.Snapshot());
      for i := 0 to length
        invariant Valid() && |trace| == i + 1 && IsRun(pdpr, StoreSteps(dest, bytes, i), trace)
        invariant forall j :: 0 <= j < i ==> StoredAt(pdpr, dest, bytes, trace, j, Ok(()))
        invariant trace[0] == old(mmu.Snapshot()) && trace[i] == mmu.Snapshot()
        invariant mmu.interrupts == old(mmu.interrupts) && mmu.pfsr == old(mmu.pfsr)
      {
        ghost var before := mmu.Snapshot();
        r := mmu.StoreVirtual8(pdpr, dest + i, value);
        StoreIsStep(before, pdpr, dest + i, value, mmu.Snapshot(), r);
        RunOneMore(pdpr, StoreSteps(dest, bytes, i), trace, StoreStep(dest + i, value), mmu.Snapshot());
        StoredOneMore(pdpr, dest, bytes, trace, mmu.Snapshot(), r);
        trace := trace + [mmu.Snapshot()];
        if r.Err? {
          return;
        }
        UnitIsUnique(r.value);
      }
      r := Ok(());
    }

    /** A byte as the current mode sees it. */
    method LoadForMode(address: Word) returns (r: Result<Byte, Fault>)
      requires Valid()
      modifies mmu`interrupts, mmu`pfsr
      ensures Valid() && r == Loaded(mmu.Snapshot(), kernelMode, pdpr, address)
    {
      if kernelMode {
        r := mmu.LoadPhysical8(address);
      } else {
        r := mmu.LoadVirtual8(pdpr, address, false);
      }
    }

    /** The flags become the lexicographic order of the bytes read: all of both ranges, or those up to
        and including the first difference. A fault leaves the flags as they were, and is that of the first
        byte that cannot be loaded. */
    method BlockCmp(length: Word, source1: Word, source2: Word)
      returns (r: Result<(), Fault>, ghost a: seq<Byte>, ghost b: seq<Byte>)
      requires Valid() && source1 + length <= WORD_LIMIT && source2 + length <= WORD_LIMIT
      modifies this`flags, mmu`interrupts, mmu`pfsr
      ensures Valid() && |a| == |b| <= length
      ensures LoadedAll(mmu.Snapshot(), kernelMode, pdpr, source1, a) && LoadedAll(mmu.Snapshot(), kernelMode, pdpr, source2, b)
      ensures r.Ok? ==> OrderFlags(a, b, flags) && (|a| == length || a != b)
      ensures r.Err? ==> flags == old(flags) && a == b && |a| < length
      ensures r.Err? ==>
        var first := Loaded(mmu.Snapshot(), kernelMode, pdpr, source1 + |a|);
        if first.Err? then r.error == first.error
        else Loaded(mmu.Snapshot(), kernelMode, pdpr, source2 + |a|) == Err(r.error)
    {
      hide Loaded, OrderFlags, LexicographicallyLess;
      a, b := [], [];
      for i := 0 to length
        invariant Valid() && flags == old(flags) && a == b && |a| == i
        invariant LoadedAll(mmu.Snapshot(), kernelMode, pdpr, source1, a) && LoadedAll(mmu.Snapshot(), kernelMode, pdpr, source2, b)
      {
        var value1 := LoadForMode(source1 + i);
        if value1.Err? {
          return Err(value1.error), a, b;
        }
        var value2 := LoadForMode(source2 + i);
        if value2.Err? {
          return Err(value2.error), a, b;
        }
        ghost var common := a;
        a, b := a + [value1.value], b + [value2.value];
        if value1.value > value2.value {
          flags := 0;
          DifferenceDecides(common, value1.value, value2.value);
          return Ok(()), a, b;
        } else if value2.value > value1.value {
          flags := FLAG_NEGATIVE;
          DifferenceDecides(common, value1.value, value2.value);
          return Ok(()), a, b;
        }
      }
      flags := FLAG_ZERO;
      EqualDecides(a);
      r := Ok(());
    }
  }

  // ----- Copies in kernel mode, wherever they go -----

  /** The first `n` bytes are loaded and stored one after the other, all accesses accepted. */
  ghost predicate CopiesFirst(m: State, dest: Word, source: Word, n: nat, m': State)
    requires Sized(m) && dest + n <= WORD_LIMIT && source + n <= WORD_LIMIT
    decreases n, 1
  {
    if n == 0 then m' == m else exists before :: CopiesLast(m, dest, source, n, before, m')
  }

  ghost predicate CopiesLast(m: State, dest: Word, source: Word, n: nat, before: State, m': State)
    requires Sized(m) && n > 0 && dest + n <= WORD_LIMIT && source + n <= WORD_LIMIT
    decreases n, 0
  {
    && Sized(before) && CopiesFirst(m, dest, source, n - 1, before) && LoadByte(before, source + n - 1).Ok?
    && StoresByte(before, dest + n - 1, LoadByte(before, source + n - 1).value, m', Ok(()))
  }

  /** Byte `n` is the first that cannot be loaded or stored. */
  ghost predicate CopyFailsAt(m: State, dest: Word, source: Word, length: nat, n: nat, before: State, m': State, r: Result<(), Fault>)
    requires Sized(m) && dest + length <= WORD_LIMIT && source + length <= WORD_LIMIT
  {
    && n < length && r.Err? && Sized(before) && CopiesFirst(m, dest, source, n, before)
    && match LoadByte(before, source + n)
       case Err(fault) => m' == before && r == Err(fault)
       case Ok(value) => StoresByte(before, dest + n, value, m', r)
  }

  ghost predicate KernelCopies(m: State, dest: Word, source: Word, length: nat, m': State, r: Result<(), Fault>)
    requires Sized(m) && dest + length <= WORD_LIMIT && source + length <= WORD_LIMIT
  {
    if r.Ok? then CopiesFirst(m, dest, source, length, m')
    else exists n: nat, before :: CopyFailsAt(m, dest, source, length, n, before, m', r)
  }

  lemma NoCopy(pdpr: Word, m: State, dest: Word, source: Word)
    requires pdpr + 0xFFF < WORD_LIMIT
    ensures CopyRun(pdpr, [], [m], dest, source, Ok(()))
  {}

  lemma NothingCopiedYet(m: State, dest: Word, source: Word)
    requires Sized(m)
    ensures CopiesFirst(m, dest, source, 0, m)
  {}

  lemma LoadRefused(m: State, dest: Word, source: Word, length: nat, n: nat, before: State, fault: Fault)
    requires Sized(m) && Sized(before) && n < length && dest + length <= WORD_LIMIT && source + length <= WORD_LIMIT
    requires CopiesFirst(m, dest, source, n, before) && LoadByte(before, source + n) == Err(fault)
    ensures KernelCopies(m, dest, source, length, before, Err(fault))
  {
    hide CopiesFirst, LoadByte;
    assert CopyFailsAt(m, dest, source, length, n, before, before, Err(fault));
  }

  lemma StoreDone(m: State, dest: Word, source: Word, length: nat, n: nat, before: State, m': State, r: Result<(), Fault>)
    requires Sized(m) && Sized(before) && n < length && dest + length <= WORD_LIMIT && source + length <= WORD_LIMIT
    requires CopiesFirst(m, dest, source, n, before) && LoadByte(before, source + n).Ok?
    requires StoresByte(before, dest + n, LoadByte(before, source + n).value, m', r)
    ensures r.Err? ==> KernelCopies(m, dest, source, length, m', r)
    ensures r.Ok? ==> var k := n + 1; CopiesFirst(m, dest, source, k, m')
  {
    hide LoadByte, StoresByte;
    if r.Err? {
      assert CopyFailsAt(m, dest, source, length, n, before, m', r);
    } else {
      UnitIsUnique(r.value);
      var k := n + 1;
      assert CopiesLast(m, dest, source, k, before, m');
    }
  }

  lemma LoadInRam(address: Word, m: State)
    requires Sized(m) && address >= BEGIN_RAM
    ensures LoadByte(m, address).Ok?
  {}

  lemma CopyByteInRam(dest: Word, source: Word, before: State, after: State, value: Byte, r: Result<(), Fault>)
    requires Sized(before) && dest >= BEGIN_RAM && source >= BEGIN_RAM && LoadByte(before, source) == Ok(value)
    requires StoresByte(before, dest, value, after, r)
    ensures r.Ok? && Sized(after)
    ensures after == before.(ram := before.ram[dest - BEGIN_RAM := before.ram[source - BEGIN_RAM]], devices := after.devices)
  {}

  lemma AllCopied(m: State, dest: Word, source: Word, length: nat, m': State)
    requires Sized(m) && dest + length <= WORD_LIMIT && source + length <= WORD_LIMIT
    requires CopiesFirst(m, dest, source, length, m')
    ensures KernelCopies(m, dest, source, length, m', Ok(()))
  {}

  function Repeated(value: Byte, n: nat): (bytes: seq<Byte>)
    ensures |bytes| == n && forall k :: 0 <= k < n ==> bytes[k] == value
  {
    seq(n, _ => value)
  }

  lemma NothingFilled(m: State, dest: Word, value: Byte)
    requires Sized(m)
    ensures RamRange(dest, 0) ==> Filled(m, dest, value, 0, m)
  {}

  lemma FilledOneMore(m: State, dest: Word, value: Byte, i: nat, before: State, after: State, r: Result<(), Fault>)
    requires Sized(m) && Sized(before) && RamRange(dest, i + 1) && Filled(m, dest, value, i, before)
    requires StoresByte(before, dest + i, value, after, r)
    ensures r.Ok?
    ensures var n := i + 1; Filled(m, dest, value, n, after)
  {}

  // ----- Comparing ranges of RAM -----

  function Loaded(m: State, kernelMode: bool, pdpr: Word, address: Word): Result<Byte, Fault>
    requires Sized(m) && pdpr + 0xFFF < WORD_LIMIT
  {
    if kernelMode then LoadByte(m, address) else LoadVirtual(m, pdpr, address, Read)
  }

  ghost predicate LoadedAll(m: State, kernelMode: bool, pdpr: Word, address: Word, bytes: seq<Byte>)
    requires Sized(m) && pdpr + 0xFFF < WORD_LIMIT
  {
    address + |bytes| <= WORD_LIMIT
    && forall j :: 0 <= j < |bytes| ==> Loaded(m, kernelMode, pdpr, address + j) == Ok(bytes[j])
  }

  /** What has been read in kernel mode decides the order of the whole ranges of RAM. */
  lemma ReadPartDecides(
    m: State, pdpr: Word, source1: Word, source2: Word, length: Word, a: seq<Byte>, b: seq<Byte>, flags: Half)
    requires Sized(m) && pdpr + 0xFFF < WORD_LIMIT && RamRange(source1, length) && RamRange(source2, length)
    requires |a| == |b| <= length && LoadedAll(m, true, pdpr, source1, a) && LoadedAll(m, true, pdpr, source2, b)
    requires OrderFlags(a, b, flags) && (|a| == length || a != b)
    ensures OrderFlags(RangeOf(m, source1, length), RangeOf(m, source2, length), flags)
  {
    hide OrderFlags, LexicographicallyLess;
    ReadIsPrefix(m, pdpr, source1, length, a);
    ReadIsPrefix(m, pdpr, source2, length, b);
    PrefixDecides(RangeOf(m, source1, length), RangeOf(m, source2, length), a, b, flags);
  }

  lemma ReadIsPrefix(m: State, pdpr: Word, address: Word, length: Word, bytes: seq<Byte>)
    requires Sized(m) && pdpr + 0xFFF < WORD_LIMIT && RamRange(address, length) && |bytes| <= length
    requires LoadedAll(m, true, pdpr, address, bytes)
    ensures bytes <= RangeOf(m, address, length)
  {
    forall j | 0 <= j < |bytes| ensures RangeOf(m, address, length)[j] == bytes[j] {
      assert Loaded(m, true, pdpr, address + j) == Ok(bytes[j]);
    }
  }

  lemma PrefixDecides(x: seq<Byte>, y: seq<Byte>, a: seq<Byte>, b: seq<Byte>, flags: Half)
    requires |x| == |y| && |a| == |b| && a <= x && b <= y && OrderFlags(a, b, flags) && (|a| == |x| || a != b)
    ensures OrderFlags(x, y, flags)
  {
    if a == b {
      assert x == a && y == b;
    } else if flags == FLAG_NEGATIVE {
      var k: nat :| FirstSmallerAt(a, b, k);
      SmallerInLonger(x, y, a, b, k);
      FirstDifference(x, y, k);
    } else {
      var k: nat :| FirstSmallerAt(b, a, k);
      SmallerInLonger(y, x, b, a, k);
      FirstDifference(y, x, k);
    }
  }

  lemma SmallerInLonger(x: seq<Byte>, y: seq<Byte>, a: seq<Byte>, b: seq<Byte>, k: nat)
    requires a <= x && b <= y && FirstSmallerAt(a, b, k)
    ensures FirstSmallerAt(x, y, k)
  {
    assert x[..k] == a[..k] && y[..k] == b[..k];
  }

  /** After a copy between disjoint ranges of RAM the ranges are equal, so comparing them gives the
      zero flag and nothing else. */
  lemma CopyThenCompare(m: State, m': State, dest: Word, source: Word, length: Word, flags: Half)
    requires Sized(m) && RamRange(dest, length) && RamRange(source, length)
    requires dest + length <= source || source + length <= dest
    requires Copied(m, dest, source, length, m')
    requires OrderFlags(RangeOf(m', dest, length), RangeOf(m', source, length), flags)
    ensures RangeOf(m', dest, length) == RangeOf(m, source, length)
    ensures flags == FLAG_ZERO
  {
    hide OrderFlags, CopySource;
    forall i | 0 <= i < length
      ensures RangeOf(m', dest, length)[i] == RangeOf(m, source, length)[i] == RangeOf(m', source, length)[i]
    {
      assert CopiedAt(m, dest, source, length, m', dest - BEGIN_RAM + i);
      assert CopiedAt(m, dest, source, length, m', source - BEGIN_RAM + i);
      CopySourceRepeats(dest, source, i);
    }
    assert RangeOf(m', dest, length) == RangeOf(m', source, length);
    EqualFlags(RangeOf(m', dest, length), RangeOf(m', source, length), flags);
  }

  lemma EqualFlags(a: seq<Byte>, b: seq<Byte>, flags: Half)
    requires OrderFlags(a, b, flags) && a == b
    ensures flags == FLAG_ZERO
  {}
}
