/** Interrupt entry and IRETURN on the kernel stack (simulatron-vm, cpu.rs). */
module Interrupts {
  import opened Bytes
  import opened Wrappers
  import opened Memory

  const MODE_BIT: int := 0x8000

  /** The registers an interrupt saves or changes. */
  datatype Registers = Registers(flags: Half, imr: Half, pc: Word, kernelMode: bool, kspr: Word)

  datatype Machine = Machine(registers: Registers, memory: State)

  /** Bit 15 of the flags register is never set: it is where the mode is saved. */
  ghost predicate ValidMachine(m: Machine) {
    Sized(m.memory) && m.registers.flags < MODE_BIT
  }

  // ----- The kernel stack -----

  /** The end of the stack: a stack pointer of zero stands for the end of memory. */
  function Top(kspr: Word): nat {
    if kspr == 0 then WORD_LIMIT else kspr
  }

  /** `size` more bytes fit below the stack pointer, inside RAM. */
  predicate Room(kspr: Word, size: nat) {
    Top(kspr) >= BEGIN_RAM + size
  }

  function WrappingSub(x: Word, y: Word): Word {
    (x - y) % WORD_LIMIT
  }

  function WrappingAdd(x: Word, y: Word): Word {
    (x + y) % WORD_LIMIT
  }

  lemma PushedPointer(kspr: Word, size: Word)
    requires 0 < size && Room(kspr, size)
    ensures WrappingSub(kspr, size) == Top(kspr) - size && Top(WrappingSub(kspr, size)) == Top(kspr) - size
    ensures WrappingAdd(WrappingSub(kspr, size), size) == kspr
    ensures RamRange(WrappingSub(kspr, size), size)
  {}

  /** The flags as they are saved, with the mode in bit 15. */
  function SavedFlags(r: Registers): Half
    requires r.flags < MODE_BIT
  {
    r.flags + if r.kernelMode then MODE_BIT else 0
  }

  /** The eight bytes an interrupt leaves on the stack, lowest address first. */
  function Frame(r: Registers): (bytes: seq<Byte>)
    requires r.flags < MODE_BIT
    ensures |bytes| == 8
  {
    Be16(r.imr) + Be32(r.pc) + Be16(SavedFlags(r))
  }

  /** The bytes at `address` are the given ones. */
  ghost predicate Stands(m: State, address: int, bytes: seq<Byte>)
    requires Sized(m)
  {
    && BEGIN_RAM <= address && address + |bytes| <= WORD_LIMIT
    && m.ram[address - BEGIN_RAM..address - BEGIN_RAM + |bytes|] == bytes
  }

  /** The given bytes of RAM are the same. */
  ghost predicate Keeps(m: State, m': State, kept: set<Word>)
    requires Sized(m) && Sized(m')
  {
    forall a: Word :: a in kept && a >= BEGIN_RAM ==> LoadByte(m', a) == LoadByte(m, a)
  }

  predicate Within(a: int, start: int, length: int) {
    start <= a < start + length
  }

  /** Where the frame at `address` is. */
  ghost function FrameBytes(address: nat): set<Word> {
    set a: Word | 0 <= a < WORD_LIMIT && Within(a, address, 8)
  }

  /** The addresses from `floor` up. */
  ghost function BytesFrom(floor: nat): set<Word> {
    set a: Word | 0 <= a < WORD_LIMIT && Within(a, floor, WORD_LIMIT)
  }

  // ----- Entry and return -----

  /** Entering the handler of interrupt `n`: the frame is pushed, interrupts are masked, the mode is
      kernel mode, and the flags register stays as it is. */
  ghost predicate Enters(m: Machine, n: nat, m': Machine)
    requires ValidMachine(m) && n <= 7
  {
    && Sized(m'.memory) && Room(m.registers.kspr, 8)
    && Wrote(m.memory, Top(m.registers.kspr) - 8, Frame(m.registers), m'.memory)
    && LoadWord(m'.memory, 4 * n).Ok?
    && m'.registers == Registers(m.registers.flags, 0, LoadWord(m'.memory, 4 * n).value, true, Top(m.registers.kspr) - 8)
  }

  /** All three parts of the frame at the stack pointer can be loaded. */
  predicate FrameReadable(m: State, kspr: Word)
    requires Sized(m)
  {
    kspr + 7 < WORD_LIMIT && LoadHalf(m, kspr).Ok? && LoadWord(m, kspr + 2).Ok? && LoadHalf(m, kspr + 6).Ok?
  }

  /** IRETURN from kernel mode: the frame at the stack pointer is popped. */
  ghost predicate Returns(m: Machine, m': Machine)
    requires Sized(m.memory)
  {
    && m'.memory == m.memory && m.registers.kernelMode && FrameReadable(m.memory, m.registers.kspr)
    && var kspr := m.registers.kspr;
    && var flags := LoadHalf(m.memory, kspr + 6).value;
    && m'.registers == Registers(flags % MODE_BIT, LoadHalf(m.memory, kspr).value, LoadWord(m.memory, kspr + 2).value,
                                 Bit(flags, MODE_BIT), WrappingAdd(kspr, 8))
  }

  lemma StandsByte(m: State, address: Word, bytes: seq<Byte>, i: nat)
    requires Sized(m) && Stands(m, address, bytes) && i < |bytes|
    ensures LoadByte(m, address + i) == Ok(bytes[i])
  {
    assert m.ram[address - BEGIN_RAM..address - BEGIN_RAM + |bytes|][i] == m.ram[address - BEGIN_RAM + i];
  }

  lemma StandsHalf(m: State, address: Word, x: Half)
    requires Sized(m) && Stands(m, address, Be16(x))
    ensures LoadHalf(m, address) == Ok(x)
  {
    hide LoadByte, Be16, Stands;
    StandsByte(m, address, Be16(x), 0);
    StandsByte(m, address, Be16(x), 1);
    assert [Be16(x)[0], Be16(x)[1]] == Be16(x);
    Be16RoundTrip(x);
  }

  lemma StandsWord(m: State, address: Word, x: Word)
    requires Sized(m) && Stands(m, address, Be32(x))
    ensures LoadWord(m, address) == Ok(x)
  {
    hide LoadByte, Be32, FromBe32, Stands;
    StandsByte(m, address, Be32(x), 0);
    StandsByte(m, address, Be32(x), 1);
    StandsByte(m, address, Be32(x), 2);
    StandsByte(m, address, Be32(x), 3);
    assert [Be32(x)[0], Be32(x)[1], Be32(x)[2], Be32(x)[3]] == Be32(x);
    Be32RoundTrip(x);
  }

  lemma StandsBoth(m: State, address: Word, a: seq<Byte>, b: seq<Byte>)
    requires Sized(m) && Stands(m, address, a + b)
    ensures Stands(m, address, a) && Stands(m, address + |a|, b)
  {
    var p := address - BEGIN_RAM;
    assert m.ram[p..p + |a + b|][..|a|] == m.ram[p..p + |a|];
    assert m.ram[p..p + |a + b|][|a|..] == m.ram[p + |a|..p + |a| + |b|];
  }

  lemma FlagsRoundTrip(r: Registers)
    requires r.flags < MODE_BIT
    ensures SavedFlags(r) % MODE_BIT == r.flags && Bit(SavedFlags(r), MODE_BIT) == r.kernelMode
    ensures SavedFlags(r) == r.flags + if r.kernelMode then 0x8000 else 0
  {}

  /** Returning with the frame of some registers on the stack restores them. */
  lemma FrameRestores(m: Machine, m': Machine, saved: Registers)
    requires Sized(m.memory) && Returns(m, m') && saved.flags < MODE_BIT
    requires Stands(m.memory, m.registers.kspr, Frame(saved))
    ensures m'.registers == saved.(kspr := WrappingAdd(m.registers.kspr, 8))
  {
    hide Stands, LoadHalf, LoadWord, Be16, Be32, Bit;
    var kspr := m.registers.kspr;
    StandsBoth(m.memory, kspr, Be16(saved.imr) + Be32(saved.pc), Be16(SavedFlags(saved)));
    StandsBoth(m.memory, kspr, Be16(saved.imr), Be32(saved.pc));
    StandsHalf(m.memory, kspr, saved.imr);
    StandsWord(m.memory, kspr + 2, saved.pc);
    StandsHalf(m.memory, kspr + 6, SavedFlags(saved));
    FlagsRoundTrip(saved);
  }

  lemma WroteStands(m: State, address: Word, bytes: seq<Byte>, m': State)
    requires Sized(m) && RamRange(address, |bytes|) && Wrote(m, address, bytes, m')
    ensures Stands(m', address, bytes)
    ensures forall a: Word :: a >= BEGIN_RAM && !(address <= a < address + |bytes|) ==> LoadByte(m', a) == LoadByte(m, a)
  {
    forall i | 0 <= i < |bytes| ensures m'.ram[address - BEGIN_RAM + i] == bytes[i] {
      assert WroteAt(m, address, bytes, m', address - BEGIN_RAM + i);
    }
    forall a: Word | a >= BEGIN_RAM && !(address <= a < address + |bytes|) ensures LoadByte(m', a) == LoadByte(m, a) {
      assert WroteAt(m, address, bytes, m', a - BEGIN_RAM);
    }
  }

  /** A frame stays as it is where its bytes are kept. */
  lemma KeptStands(m: State, m': State, address: Word, bytes: seq<Byte>)
    requires Sized(m) && Sized(m') && |bytes| == 8 && Keeps(m, m', FrameBytes(address)) && Stands(m, address, bytes)
    ensures Stands(m', address, bytes)
  {
    forall i | 0 <= i < |bytes| ensures m'.ram[address - BEGIN_RAM + i] == bytes[i] {
      StandsByte(m, address, bytes, i);
      assert address + i in FrameBytes(address);
      assert LoadByte(m', address + i) == LoadByte(m, address + i);
    }
  }

  // ----- One interrupt -----

  lemma EntryKeeps(m: Machine, n: nat, entered: Machine, kept: set<Word>)
    requires ValidMachine(m) && n <= 7 && Enters(m, n, entered) && kept !! FrameBytes(entered.registers.kspr)
    ensures ValidMachine(entered)
    ensures Stands(entered.memory, entered.registers.kspr, Frame(m.registers))
    ensures Keeps(m.memory, entered.memory, kept)
  {
    hide LoadWord, LoadByte, Frame, Wrote;
    WroteStands(m.memory, Top(m.registers.kspr) - 8, Frame(m.registers), entered.memory);
    forall a: Word | a in kept && a >= BEGIN_RAM ensures LoadByte(entered.memory, a) == LoadByte(m.memory, a) {
      assert a !in FrameBytes(entered.registers.kspr);
    }
  }

  /** Whatever a handler does, if it ends with the stack pointer and the eight saved bytes as it found
      them, returning restores the flags, interrupt mask, program counter, mode and stack pointer. */
  lemma ReturnRestores(m: Machine, n: nat, entered: Machine, left: Machine, returned: Machine)
    requires ValidMachine(m) && n <= 7 && Enters(m, n, entered)
    requires Sized(left.memory) && left.registers.kspr == entered.registers.kspr
    requires Keeps(entered.memory, left.memory, FrameBytes(entered.registers.kspr))
    requires Returns(left, returned)
    ensures returned.registers == m.registers && ValidMachine(returned) && returned.memory == left.memory
  {
    hide LoadWord, LoadHalf, Frame, Wrote, Stands, Keeps;
    EntryKeeps(m, n, entered, {});
    PushedPointer(m.registers.kspr, 8);
    KeptStands(entered.memory, left.memory, entered.registers.kspr, Frame(m.registers));
    FrameRestores(left, returned, m.registers);
  }

  // ----- Nested interrupts -----

  /** What happens while a handler runs: stretches of ordinary code, and further interrupts with their
      own handlers. */
  datatype Activity =
    | Code(next: Machine)
    | Interrupt(number: nat, entered: Machine, handler: seq<Activity>, left: Machine, returned: Machine)

  /** The activities lead from `m` to `m'` and leave the bytes `kept` alone, among them the frames of all
      interrupts that have not returned yet. Ordinary code may do anything else, to registers and memory,
      and may move the stack anywhere. An interrupt's frame is put apart from those bytes, its handler
      keeps the frame as well and ends with the stack pointer it started with. */
  ghost predicate Runs(m: Machine, kept: set<Word>, activities: seq<Activity>, m': Machine)
    decreases activities
  {
    if activities == [] then m' == m
    else
      match activities[0]
      case Code(next) =>
        ValidMachine(m) && ValidMachine(next) && Keeps(m.memory, next.memory, kept) && Runs(next, kept, activities[1..], m')
      case Interrupt(number, entered, handler, left, returned) =>
        && Interrupted(m, number, entered, kept)
        && Runs(entered, kept + FrameBytes(entered.registers.kspr), handler, left)
        && Sized(left.memory) && left.registers.kspr == entered.registers.kspr && Returns(left, returned)
        && Runs(returned, kept, activities[1..], m')
  }

  /** Interrupt `n` arrives and its frame is put apart from the bytes to be kept. */
  ghost predicate Interrupted(m: Machine, n: nat, entered: Machine, kept: set<Word>) {
    ValidMachine(m) && n <= 7 && Enters(m, n, entered) && kept !! FrameBytes(entered.registers.kspr)
  }

  lemma KeepsTrans(a: State, b: State, c: State, kept: set<Word>)
    requires Sized(a) && Sized(b) && Sized(c) && Keeps(a, b, kept) && Keeps(b, c, kept)
    ensures Keeps(a, c, kept)
  {
    hide LoadByte;
  }

  lemma KeepsPart(m: State, m': State, kept: set<Word>, frame: set<Word>)
    requires Sized(m) && Sized(m') && Keeps(m, m', kept + frame)
    ensures Keeps(m, m', kept) && Keeps(m, m', frame)
  {
    hide LoadByte;
  }

  /** Whatever happens in the handler apart from writing to live frames, and however deeply interrupts
      nest in it, returning restores the five registers, and every kept byte is unchanged. */
  lemma {:induction false} InterruptIsTransparent(
    m: Machine, n: nat, kept: set<Word>, entered: Machine, handler: seq<Activity>, left: Machine, returned: Machine)
    requires Interrupted(m, n, entered, kept)
    requires Runs(entered, kept + FrameBytes(entered.registers.kspr), handler, left)
    requires Sized(left.memory) && left.registers.kspr == entered.registers.kspr && Returns(left, returned)
    ensures returned.registers == m.registers && ValidMachine(returned)
    ensures Keeps(m.memory, returned.memory, kept)
    decreases handler, 1
  {
    hide Enters, Returns, Frame, Stands, Keeps, Runs;
    EntryKeeps(m, n, entered, kept);
    RunsKeep(entered, kept + FrameBytes(entered.registers.kspr), handler, left);
    KeepsPart(entered.memory, left.memory, kept, FrameBytes(entered.registers.kspr));
    ReturnRestores(m, n, entered, left, returned);
    KeepsTrans(m.memory, entered.memory, left.memory, kept);
  }

  lemma {:induction false} RunsKeep(m: Machine, kept: set<Word>, activities: seq<Activity>, m': Machine)
    requires ValidMachine(m) && Runs(m, kept, activities, m')
    ensures ValidMachine(m') && Keeps(m.memory, m'.memory, kept)
    decreases activities, 0
  {
    hide Enters, Returns, LoadByte;
    if activities != [] {
      match activities[0] {
        case Code(next) =>
          RunsKeep(next, kept, activities[1..], m');
          KeepsTrans(m.memory, next.memory, m'.memory, kept);
        case Interrupt(number, entered, handler, left, returned) =>
          InterruptIsTransparent(m, number, kept, entered, handler, left, returned);
          RunsKeep(returned, kept, activities[1..], m');
          KeepsTrans(m.memory, returned.memory, m'.memory, kept);
      }
    }
  }

  /** With nothing above the frame touched, all of the stack above is as before. */
  lemma StackAboveUntouched(m: Machine, n: nat, entered: Machine, handler: seq<Activity>, left: Machine, returned: Machine)
    requires ValidMachine(m) && n <= 7 && Enters(m, n, entered)
    requires Runs(entered, BytesFrom(entered.registers.kspr), handler, left)
    requires Sized(left.memory) && left.registers.kspr == entered.registers.kspr && Returns(left, returned)
    ensures returned.registers == m.registers && Keeps(m.memory, returned.memory, BytesFrom(Top(m.registers.kspr)))
  {
    hide Frame, Stands, Keeps, Runs, Wrote, LoadWord, LoadHalf;
    var kept := BytesFrom(Top(m.registers.kspr));
    PushedPointer(m.registers.kspr, 8);
    assert BytesFrom(entered.registers.kspr) == kept + FrameBytes(entered.registers.kspr);
    InterruptIsTransparent(m, n, kept, entered, handler, left, returned);
  }

  // ----- The processor -----

  datatype Failure = TryAgain | Fatal | Panicked

  /** A value is popped and the stack pointer moves up, or nothing happens because it cannot be loaded. */
  ghost predicate Popped<T>(loaded: Result<T, Fault>, size: Word, pointer: Word, pointer': Word, r: Result<T, Failure>) {
    match loaded
    case Ok(value) => r == Ok(value) && pointer' == WrappingAdd(pointer, size)
    case Err(_) => r == Err(TryAgain) && pointer' == pointer
  }

  /** The bytes are stored one after the other, all of them or up to the first that is refused. */
  ghost predicate Pushed(m: State, address: Word, bytes: seq<Byte>, m': State, ok: bool)
    requires Sized(m)
  {
    address + |bytes| <= WORD_LIMIT && StoresBytes(m, address, bytes, m', if ok then Ok(()) else Err(IllegalOperation))
  }

  lemma PushedAs(m: State, address: Word, bytes: seq<Byte>, m': State, stored: Result<(), Fault>)
    requires Sized(m) && address + |bytes| <= WORD_LIMIT && StoresBytes(m, address, bytes, m', stored)
    ensures Pushed(m, address, bytes, m', stored.Ok?)
  {
    hide StoresFirst;
    if stored.Ok? {
      UnitIsUnique(stored.value);
    } else {
      var n: nat, before :| RefusesAt(m, address, bytes, n, before, m', stored);
    }
  }

  /** The bytes are stored through translation one after the other, all of them or up to the first fault. */
  ghost predicate UserPushed(pdpr: Word, address: Word, bytes: seq<Byte>, trace: seq<State>, ok: bool) {
    pdpr + 0xFFF < WORD_LIMIT && address + |bytes| <= WORD_LIMIT && |trace| > 0
    && exists stored: Result<(), Fault> :: stored.Ok? == ok && StoresRun(pdpr, address, bytes, trace, stored)
  }

  lemma UserPushedAs(pdpr: Word, address: Word, bytes: seq<Byte>, trace: seq<State>, stored: Result<(), Fault>)
    requires pdpr + 0xFFF < WORD_LIMIT && address + |bytes| <= WORD_LIMIT && StoresRun(pdpr, address, bytes, trace, stored)
    ensures UserPushed(pdpr, address, bytes, trace, stored.Ok?)
  {}

  /** Two values are pushed, the second unless the first fails, which is a panic like a failure of the second. */
  ghost predicate PushedBoth(
    m: State, first: Word, a: seq<Byte>, second: Word, b: seq<Byte>, middle: State, ok: bool, m': State, failure: Failure)
  {
    && Sized(m) && Sized(middle) && Pushed(m, first, a, middle, ok)
    && if ok then Pushed(middle, second, b, m', failure == TryAgain) else m' == middle && failure == Panicked
  }

  /** What a failed pop of a frame leaves behind: nothing if the first part cannot be loaded; otherwise the
      parts popped are pushed back, and a failure of that is a panic. */
  ghost predicate Undone(m: State, kspr: Word, m': State, failure: Failure)
    requires Sized(m) && kspr + 7 < WORD_LIMIT
  {
    var mask, target := LoadHalf(m, kspr), LoadWord(m, kspr + 2);
    if mask.Err? then m' == m && failure == TryAgain
    else if target.Err? then Pushed(m, kspr, Be16(mask.value), m', failure == TryAgain)
    else
      var above: Word := kspr + 2;
      exists middle, ok :: PushedBoth(m, above, Be32(target.value), kspr, Be16(mask.value), middle, ok, m', failure)
  }

  class Processor {
    const mmu: MMU
    var flags: Half
    var imr: Half
    var programCounter: Word
    var kernelMode: bool
    var kspr: Word
    var uspr: Word
    var pdpr: Word

    constructor (mmu: MMU)
      requires mmu.Valid()
      ensures this.mmu == mmu && Valid() && Now().registers == Registers(0, 0, 64, true, 0)
    {
      this.mmu, flags, imr, programCounter, kernelMode := mmu, 0, 0, 64, true;
      kspr, uspr, pdpr := 0, 0, 0;
    }

    ghost function Now(): Machine
      reads this, mmu
    {
      Machine(Registers(flags, imr, programCounter, kernelMode, kspr), mmu.Snapshot())
    }

    ghost predicate Valid()
      reads this, mmu
    {
      ValidMachine(Now())
    }

    /** The bytes at the new top of the current stack do not wrap around, nor does the page directory. */
    ghost predicate CanPush(size: Word)
      reads this
    {
      if kernelMode then WrappingSub(kspr, size) + size <= WORD_LIMIT
      else WrappingSub(uspr, size) + size <= WORD_LIMIT && pdpr + 0xFFF < WORD_LIMIT
    }

    ghost predicate CanPop(size: Word)
      reads this
    {
      if kernelMode then kspr + size <= WORD_LIMIT else uspr + size <= WORD_LIMIT && pdpr + 0xFFF < WORD_LIMIT
    }

    method PushHalf(value: Half) returns (r: Result<(), Failure>, ghost trace: seq<State>)
      requires Valid() && CanPush(2)
      modifies this`kspr, this`uspr, mmu
      ensures Valid() && (r.Err? ==> r.error == TryAgain)
      ensures kernelMode ==> uspr == old(uspr) && kspr == WrappingSub(old(kspr), 2)
      ensures kernelMode ==> Pushed(old(mmu.Snapshot()), kspr, Be16(value), mmu.Snapshot(), r.Ok?)
      ensures kernelMode && RamRange(kspr, 2) ==> r.Ok? && Wrote(old(mmu.Snapshot()), kspr, Be16(value), mmu.Snapshot())
      ensures !kernelMode ==> kspr == old(kspr) && uspr == WrappingSub(old(uspr), 2)
      ensures !kernelMode ==>
        && UserPushed(pdpr, uspr, Be16(value), trace, r.Ok?)
        && trace[0] == old(mmu.Snapshot()) && trace[|trace| - 1] == mmu.Snapshot()
    {
      hide Be16, Wrote, StoresBytes, StoresRun;
      var stored: Result<(), Fault>;
      trace := [];
      if kernelMode {
        kspr := WrappingSub(kspr, 2);
        ghost var before := mmu.Snapshot();
        stored := mmu.StorePhysical16(kspr, value);
        PushedAs(before, kspr, Be16(value), mmu.Snapshot(), stored);
      } else {
        uspr := WrappingSub(uspr, 2);
        stored, trace := mmu.StoreVirtual16(pdpr, uspr, value);
        UserPushedAs(pdpr, uspr, Be16(value), trace, stored);
      }
      return if stored.Ok? then Ok(()) else Err(TryAgain), trace;
    }

    method PushWord(value: Word) returns (r: Result<(), Failure>, ghost trace: seq<State>)
      requires Valid() && CanPush(4)
      modifies this`kspr, this`uspr, mmu
      ensures Valid() && (r.Err? ==> r.error == TryAgain)
      ensures kernelMode ==> uspr == old(uspr) && kspr == WrappingSub(old(kspr), 4)
      ensures kernelMode ==> Pushed(old(mmu.Snapshot()), kspr, Be32(value), mmu.Snapshot(), r.Ok?)
      ensures kernelMode && RamRange(kspr, 4) ==> r.Ok? && Wrote(old(mmu.Snapshot()), kspr, Be32(value), mmu.Snapshot())
      ensures !kernelMode ==> kspr == old(kspr) && uspr == WrappingSub(old(uspr), 4)
      ensures !kernelMode ==>
        && UserPushed(pdpr, uspr, Be32(value), trace, r.Ok?)
        && trace[0] == old(mmu.Snapshot()) && trace[|trace| - 1] == mmu.Snapshot()
    {
      hide Be32, Wrote, StoresBytes, StoresRun;
      var stored: Result<(), Fault>;
      trace := [];
      if kernelMode {
        kspr := WrappingSub(kspr, 4);
        ghost var before := mmu.Snapshot();
        stored := mmu.StorePhysical32(kspr, value);
        PushedAs(before, kspr, Be32(value), mmu.Snapshot(), stored);
      } else {
        uspr := WrappingSub(uspr, 4);
        stored, trace := mmu.StoreVirtual32(pdpr, uspr, value);
        UserPushedAs(pdpr, uspr, Be32(value), trace, stored);
      }
      return if stored.Ok? then Ok(()) else Err(TryAgain), trace;
    }

    method PopHalf() returns (r: Result<Half, Failure>)
      requires Valid() && CanPop(2)
      modifies this`kspr, this`uspr, mmu`interrupts, mmu`pfsr
      ensures Valid()
      ensures if kernelMode then uspr == old(uspr) else kspr == old(kspr)
      ensures kernelMode ==> Popped(LoadHalf(mmu.Snapshot(), old(kspr)), 2, old(kspr), kspr, r)
      ensures !kernelMode ==> Popped(LoadVirtualHalf(mmu.Snapshot(), pdpr, old(uspr), Read), 2, old(uspr), uspr, r)
    {
      hide LoadHalf, LoadVirtualHalf;
      if kernelMode {
        var value := mmu.LoadPhysical16(kspr);
        if value.Err? {
          return Err(TryAgain);
        }
        kspr := WrappingAdd(kspr, 2);
        return Ok(value.value);
      } else {
        var value := mmu.LoadVirtual16(pdpr, uspr, false);
        if value.Err? {
          return Err(TryAgain);
        }
        uspr := WrappingAdd(uspr, 2);
        return Ok(value.value);
      }
    }

    method PopWord() returns (r: Result<Word, Failure>)
      requires Valid() && CanPop(4)
      modifies this`kspr, this`uspr, mmu`interrupts, mmu`pfsr
      ensures Valid()
      ensures if kernelMode then uspr == old(uspr) else kspr == old(kspr)
      ensures kernelMode ==> Popped(LoadWord(mmu.Snapshot(), old(kspr)), 4, old(kspr), kspr, r)
      ensures !kernelMode ==> Popped(LoadVirtualWord(mmu.Snapshot(), pdpr, old(uspr), Read), 4, old(uspr), uspr, r)
    {
      hide LoadWord, LoadVirtualWord;
      if kernelMode {
        var value := mmu.LoadPhysical32(kspr);
        if value.Err? {
          return Err(TryAgain);
        }
        kspr := WrappingAdd(kspr, 4);
        return Ok(value.value);
      } else {
        var value := mmu.LoadVirtual32(pdpr, uspr, false);
        if value.Err? {
          return Err(TryAgain);
        }
        uspr := WrappingAdd(uspr, 4);
        return Ok(value.value);
      }
    }

    /** Enter the handler of interrupt `n`. With room for the frame on a kernel stack in RAM it cannot
        fail; elsewhere a failure is fatal. */
    method EnterInterrupt(n: nat) returns (r: Result<(), Failure>)
      requires Valid() && n <= 7 && Top(kspr) >= 8
      modifies this, mmu
      ensures Valid() && (r.Err? ==> r.error == Fatal) && uspr == old(uspr) && pdpr == old(pdpr)
      ensures Room(old(kspr), 8) ==> r.Ok? && Enters(old(Now()), n, Now())
    {
      hide Wrote, LoadWord, Be16, Be32, Pushed, WrappingSub;
      ghost var start := Now();
      var oldMode := if kernelMode then MODE_BIT else 0;
      kernelMode := true;
      PointersFit(kspr);
      var savedFlags: Half := flags + oldMode;
      var flagsPushed, _ := PushHalf(savedFlags);
      if flagsPushed.Err? {
        return Err(Fatal);
      }
      ghost var second := mmu.Snapshot();
      var targetPushed, _ := PushWord(programCounter);
      if targetPushed.Err? {
        return Err(Fatal);
      }
      ghost var third := mmu.Snapshot();
      var maskPushed, _ := PushHalf(imr);
      if maskPushed.Err? {
        return Err(Fatal);
      }
      imr := 0;
      if Room(start.registers.kspr, 8) {
        PushedFrame(start, second, third, mmu.Snapshot());
      }
      VectorLoads(mmu.Snapshot(), n);
      var handler := mmu.LoadPhysical32(4 * n);
      if handler.Err? {
        return Err(Fatal);
      }
      programCounter := handler.value;
      return Ok(());
    }

    /** IRETURN. In user mode it is an illegal operation. In kernel mode it returns exactly if the frame can
        be loaded, as it always can in RAM; otherwise no register changes, unless undoing the pops panics. */
    method IReturn() returns (r: Result<(), Failure>)
      requires Valid() && kspr + 7 < WORD_LIMIT
      modifies this, mmu
      ensures Valid()
      ensures !old(kernelMode) ==> r == Err(TryAgain) && Now() == old(Now())
      ensures !old(kernelMode) ==> mmu.interrupts == old(mmu.interrupts) + [INTERRUPT_ILLEGAL_OPERATION]
      ensures old(kernelMode) && RamRange(old(kspr), 8) ==> r.Ok?
      ensures old(kernelMode) ==> (r.Ok? <==> FrameReadable(old(mmu.Snapshot()), old(kspr)))
      ensures old(kernelMode) && r.Ok? ==> Returns(old(Now()), Now())
      ensures r.Err? ==> r.error != Fatal && (r.error == TryAgain ==> Now().registers == old(Now()).registers)
      ensures old(kernelMode) && r.Err? ==> Undone(old(mmu.Snapshot()), old(kspr), mmu.Snapshot(), r.error)
      ensures uspr == old(uspr) && pdpr == old(pdpr)
    {
      hide LoadHalf, LoadWord, Wrote;
      if RamRange(kspr, 8) {
        FrameLoads(mmu.Snapshot(), kspr);
      }
      if !kernelMode {
        mmu.interrupts := mmu.interrupts + [INTERRUPT_ILLEGAL_OPERATION];
        return Err(TryAgain);
      }
      var popped :- PopFrame();
      var (savedMask, target, savedFlags) := popped;
      if !Bit(savedFlags, MODE_BIT) {
        kernelMode := false;
      }
      imr := savedMask;
      programCounter := target;
      flags := savedFlags % MODE_BIT;
      return Ok(());
    }

    /** Pop the interrupt mask, the program counter and the flags; undo the pops if one of them fails. */
    method PopFrame() returns (r: Result<(Half, Word, Half), Failure>)
      requires Valid() && kernelMode && kspr + 7 < WORD_LIMIT
      modifies this`kspr, this`uspr, mmu
      ensures Valid() && uspr == old(uspr)
      ensures r.Err? ==> r.error != Fatal && (r.error == TryAgain ==> kspr == old(kspr))
      ensures r.Err? ==> Undone(old(mmu.Snapshot()), old(kspr), mmu.Snapshot(), r.error)
      ensures r.Ok? <==> FrameReadable(old(mmu.Snapshot()), old(kspr))
      ensures r.Ok? ==>
        && mmu.Snapshot() == old(mmu.Snapshot()) && kspr == WrappingAdd(old(kspr), 8)
        && r == Ok((LoadHalf(mmu.Snapshot(), old(kspr)).value, LoadWord(mmu.Snapshot(), old(kspr) + 2).value,
                    LoadHalf(mmu.Snapshot(), old(kspr) + 6).value))
    {
      hide LoadHalf, LoadWord, Wrote, Reported, WrappingAdd, WrappingSub, Pushed, Be16, Be32;
      PoppedPointers(kspr);
      var savedMask :- PopHalf();
      var target := PopWord();
      if target.Err? {
        r := UndoHalf(savedMask);
        return;
      }
      var savedFlags := PopHalf();
      if savedFlags.Err? {
        r := UndoBoth(savedMask, target.value);
        return;
      }
      return Ok((savedMask, target.value, savedFlags.value));
    }

    /** Push back what was popped; failing here is a panic. */
    method UndoHalf(savedMask: Half) returns (r: Result<(Half, Word, Half), Failure>)
      requires Valid() && kernelMode && WrappingSub(kspr, 2) + 1 < WORD_LIMIT
      modifies this`kspr, this`uspr, mmu
      ensures Valid() && uspr == old(uspr) && kspr == WrappingSub(old(kspr), 2)
      ensures r.Err? && r.error in {TryAgain, Panicked}
      ensures Pushed(old(mmu.Snapshot()), kspr, Be16(savedMask), mmu.Snapshot(), r.error == TryAgain)
    {
      hide Pushed, Wrote;
      var undone, _ := PushHalf(savedMask);
      return Err(if undone.Ok? then TryAgain else Panicked);
    }

    method UndoBoth(savedMask: Half, target: Word) returns (r: Result<(Half, Word, Half), Failure>)
      requires Valid() && kernelMode && WrappingSub(kspr, 4) + 3 < WORD_LIMIT
      requires WrappingSub(WrappingSub(kspr, 4), 2) + 1 < WORD_LIMIT
      modifies this`kspr, this`uspr, mmu
      ensures Valid() && uspr == old(uspr) && r.Err? && r.error in {TryAgain, Panicked}
      ensures r.error == TryAgain ==> kspr == WrappingSub(WrappingSub(old(kspr), 4), 2)
      ensures var first := WrappingSub(old(kspr), 4);
        exists middle, ok :: PushedBoth(
          old(mmu.Snapshot()), first, Be32(target), WrappingSub(first, 2), Be16(savedMask), middle, ok, mmu.Snapshot(), r.error)
    {
      hide Pushed, Wrote, Be16, Be32, WrappingSub;
      ghost var start := mmu.Snapshot();
      ghost var first := WrappingSub(kspr, 4);
      var undone, _ := PushWord(target);
      ghost var middle := mmu.Snapshot();
      if undone.Err? {
        assert PushedBoth(start, first, Be32(target), WrappingSub(first, 2), Be16(savedMask), middle, false, middle, Panicked);
        return Err(Panicked);
      }
      r := UndoHalf(savedMask);
      assert PushedBoth(start, first, Be32(target), WrappingSub(first, 2), Be16(savedMask), middle, true, mmu.Snapshot(), r.error);
    }

    /** Writing the flags register ignores bit 15. */
    method WriteFlags(value: Half)
      requires Valid()
      modifies this`flags
      ensures Valid() && flags == value % 0x8000
    {
      flags := value % MODE_BIT;
    }
  }

  /** Where the three parts of the frame go. */
  lemma PointersFit(kspr: Word)
    requires Top(kspr) >= 8
    ensures WrappingSub(kspr, 2) == Top(kspr) - 2
    ensures WrappingSub(WrappingSub(kspr, 2), 4) == Top(kspr) - 6
    ensures WrappingSub(WrappingSub(WrappingSub(kspr, 2), 4), 2) == Top(kspr) - 8
  {}

  /** The stack pointer while a frame is popped, and when pops are undone. */
  lemma PoppedPointers(kspr: Word)
    requires kspr + 7 < WORD_LIMIT
    ensures WrappingAdd(kspr, 2) == kspr + 2 && WrappingAdd(kspr + 2, 4) == kspr + 6
    ensures WrappingAdd(kspr + 6, 2) == WrappingAdd(kspr, 8)
    ensures WrappingSub(kspr + 2, 2) == kspr && WrappingSub(kspr + 6, 4) == kspr + 2
  {}

  lemma VectorLoads(m: State, n: nat)
    requires Sized(m) && n <= 7
    ensures LoadWord(m, 4 * n).Ok?
  {
    assert forall a: Word :: a < 0x20 ==> LoadByte(m, a).Ok?;
    hide LoadByte;
  }

  lemma FrameLoads(m: State, kspr: Word)
    requires Sized(m) && RamRange(kspr, 8)
    ensures LoadHalf(m, kspr).Ok? && LoadWord(m, kspr + 2).Ok? && LoadHalf(m, kspr + 6).Ok?
  {
    assert forall a: Word :: a >= BEGIN_RAM ==> LoadByte(m, a).Ok?;
    hide LoadByte;
  }

  /** Three pushes one below the other leave the frame. */
  lemma PushedFrame(start: Machine, second: State, third: State, fourth: State)
    requires ValidMachine(start) && Room(start.registers.kspr, 8)
    requires var top := Top(start.registers.kspr);
      && Wrote(start.memory, top - 2, Be16(SavedFlags(start.registers)), second)
      && Wrote(second, top - 6, Be32(start.registers.pc), third)
      && Wrote(third, top - 8, Be16(start.registers.imr), fourth)
    ensures var base := Top(start.registers.kspr) - 8; Wrote(start.memory, base, Frame(start.registers), fourth)
  {
    hide Be16, Be32;
    var top := Top(start.registers.kspr);
    var base := top - 8;
    var r := start.registers;
    forall j | 0 <= j < RAM_SIZE ensures WroteAt(start.memory, base, Frame(r), fourth, j) {
      assert WroteAt(start.memory, top - 2, Be16(SavedFlags(r)), second, j);
      assert WroteAt(second, top - 6, Be32(r.pc), third, j);
      assert WroteAt(third, top - 8, Be16(r.imr), fourth, j);
    }
  }
}
