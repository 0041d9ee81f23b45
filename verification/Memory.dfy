/** The memory management unit (simulatron-vm, mmu.rs): memory-mapped zones, big-endian accesses and
    two-level page translation. */
module Memory {
  import opened Bytes
  import opened Wrappers
  import Arithmetic

  const BEGIN_RESERVED_1 := 0x0020
  const BEGIN_ROM := 0x0040
  const BEGIN_DISPLAY := 0x0240
  const BEGIN_KEYBOARD := 0x19B0
  const BEGIN_RESERVED_2 := 0x19B2
  const BEGIN_DISK_A_STATUS := 0x1FEC
  const BEGIN_DISK_A_ADDRESS := 0x1FF1
  const BEGIN_DISK_A_COMMAND := 0x1FF5
  const BEGIN_DISK_B_STATUS := 0x1FF6
  const BEGIN_DISK_B_ADDRESS := 0x1FFB
  const BEGIN_DISK_B_COMMAND := 0x1FFF
  const BEGIN_DISK_A_DATA := 0x2000
  const BEGIN_RAM := 0x4000

  const INTERRUPT_VECTOR_SIZE := BEGIN_RESERVED_1
  const ROM_SIZE := BEGIN_DISPLAY - BEGIN_ROM
  const RAM_SIZE := WORD_LIMIT - BEGIN_RAM

  const INTERRUPT_ILLEGAL_OPERATION := 0
  const INTERRUPT_PAGE_FAULT := 2

  const PAGE_FAULT_INVALID_PAGE: Word := 0
  const PAGE_FAULT_ILLEGAL_ACCESS: Word := 1
  const PAGE_FAULT_NOT_PRESENT: Word := 2
  const PAGE_FAULT_COW: Word := 3

  /** Everything an access can see; `devices` is what the devices would answer at each address below RAM. */
  datatype State = State(ram: seq<Byte>, vector: seq<Byte>, rom: seq<Byte>, devices: seq<Byte>)

  ghost predicate Sized(m: State) {
    |m.ram| == RAM_SIZE && |m.vector| == INTERRUPT_VECTOR_SIZE && |m.rom| == ROM_SIZE && |m.devices| == BEGIN_RAM
  }

  datatype Fault = IllegalOperation | PageFault(status: Word)

  datatype Zone = VectorZone | RomZone | DeviceZone | RamZone | NoAccess

  function StoreZone(address: Word): Zone {
    if address < BEGIN_RESERVED_1 then VectorZone
    else if address < BEGIN_DISPLAY then NoAccess  // reserved, ROM
    else if address < BEGIN_KEYBOARD then DeviceZone
    else if address < BEGIN_DISK_A_ADDRESS then NoAccess  // keyboard, reserved, disk A status
    else if address < BEGIN_DISK_B_STATUS then DeviceZone
    else if address < BEGIN_DISK_B_ADDRESS then NoAccess  // disk B status
    else if address < BEGIN_RAM then DeviceZone
    else RamZone
  }

  function LoadZone(address: Word): Zone {
    if address < BEGIN_RESERVED_1 then VectorZone
    else if address < BEGIN_ROM then NoAccess  // reserved
    else if address < BEGIN_DISPLAY then RomZone
    else if address < BEGIN_KEYBOARD then NoAccess  // display
    else if address < BEGIN_RESERVED_2 then DeviceZone
    else if address < BEGIN_DISK_A_STATUS then NoAccess  // reserved
    else if address < BEGIN_DISK_A_COMMAND then DeviceZone
    else if address < BEGIN_DISK_B_STATUS then NoAccess  // disk A command
    else if address < BEGIN_DISK_B_COMMAND then DeviceZone
    else if address < BEGIN_DISK_A_DATA then NoAccess  // disk B command
    else if address < BEGIN_RAM then DeviceZone
    else RamZone
  }

  // ----- Physical accesses -----

  function LoadByte(m: State, address: Word): Result<Byte, Fault>
    requires Sized(m)
  {
    match LoadZone(address)
    case VectorZone => Ok(m.vector[address])
    case RomZone => Ok(m.rom[address - BEGIN_ROM])
    case DeviceZone => Ok(m.devices[address])
    case RamZone => Ok(m.ram[address - BEGIN_RAM])
    case NoAccess => Err(IllegalOperation)
  }

  /** Four bytes, big-endian; the first that cannot be read decides. */
  function LoadWord(m: State, address: Word): Result<Word, Fault>
    requires Sized(m) && address + 3 < WORD_LIMIT
  {
    var upper :- LoadByte(m, address);
    var upperMid :- LoadByte(m, address + 1);
    var lowerMid :- LoadByte(m, address + 2);
    var lower :- LoadByte(m, address + 3);
    Ok(FromBe32([upper, upperMid, lowerMid, lower]))
  }

  /** Devices may change at any moment; nothing else does. */
  ghost predicate SameButDevices(m: State, m': State) {
    m' == m.(devices := m'.devices) && Sized(m')
  }

  /** The effect of storing one byte. */
  ghost predicate StoresByte(m: State, address: Word, value: Byte, m': State, r: Result<(), Fault>)
    requires Sized(m)
  {
    match StoreZone(address)
    case VectorZone => r == Ok(()) && SameButDevices(m.(vector := m.vector[address := value]), m')
    case RamZone => r == Ok(()) && SameButDevices(m.(ram := m.ram[address - BEGIN_RAM := value]), m')
    case DeviceZone => r == Ok(()) && SameButDevices(m, m')
    case _ => r == Err(IllegalOperation) && SameButDevices(m, m')
  }

  /** The memory map: what can be loaded and what can be stored. */
  lemma MemoryMap(m: State, address: Word)
    requires Sized(m)
    ensures LoadByte(m, address).Ok? <==>
      || address < 0x0020 || 0x0040 <= address < 0x0240 || 0x19B0 <= address < 0x19B2
      || 0x1FEC <= address < 0x1FF5 || 0x1FF6 <= address < 0x1FFF || 0x2000 <= address
    ensures StoreZone(address) == NoAccess <==>
      || 0x0020 <= address < 0x0240 || 0x19B0 <= address < 0x1FF1 || 0x1FF6 <= address < 0x1FFB
    ensures 0x0040 <= address < 0x0240 ==> LoadByte(m, address) == Ok(m.rom[address - 0x0040])
    ensures 0x4000 <= address ==> LoadByte(m, address) == Ok(m.ram[address - 0x4000])
  {}

  /** A byte stored in RAM or in the interrupt vector is loaded back; all other bytes there and in ROM stay. */
  lemma StoredThenLoaded(m: State, address: Word, value: Byte, m': State, r: Result<(), Fault>, other: Word)
    requires Sized(m) && StoresByte(m, address, value, m', r) && LoadZone(other) != DeviceZone
    ensures Sized(m')
    ensures LoadByte(m', other) ==
      if other == address && (address < 0x0020 || 0x4000 <= address) then Ok(value) else LoadByte(m, other)
  {}

  // ----- Ranges of RAM -----

  /** The range lies in RAM. */
  predicate RamRange(address: Word, length: nat) {
    address >= BEGIN_RAM && address + length <= WORD_LIMIT
  }

  function RangeOf(m: State, address: Word, length: Word): (bytes: seq<Byte>)
    requires Sized(m) && RamRange(address, length)
    ensures |bytes| == length
  {
    m.ram[address - BEGIN_RAM..address - BEGIN_RAM + length]
  }

  /** The range of RAM now holds the bytes; nothing else but devices has changed. */
  ghost predicate Wrote(m: State, address: Word, bytes: seq<Byte>, m': State)
    requires Sized(m) && RamRange(address, |bytes|)
  {
    && SameButDevices(m.(ram := m'.ram), m')
    && forall j {:trigger m'.ram[j]} :: 0 <= j < RAM_SIZE ==> WroteAt(m, address, bytes, m', j)
  }

  ghost predicate WroteAt(m: State, address: Word, bytes: seq<Byte>, m': State, j: nat)
    requires Sized(m) && Sized(m') && RamRange(address, |bytes|) && j < RAM_SIZE
  {
    m'.ram[j] == if address <= j + BEGIN_RAM < address + |bytes| then bytes[j + BEGIN_RAM - address] else m.ram[j]
  }

  /** Storing one byte of RAM. */
  ghost predicate WritesByte(m: State, address: Word, value: Byte, m': State)
    requires Sized(m) && address >= BEGIN_RAM
  {
    SameButDevices(m.(ram := m.ram[address - BEGIN_RAM := value]), m')
  }

  lemma WroteOne(m: State, address: Word, value: Byte, m': State)
    requires Sized(m) && RamRange(address, 1) && WritesByte(m, address, value, m')
    ensures Wrote(m, address, [value], m')
  {
    forall j | 0 <= j < RAM_SIZE ensures WroteAt(m, address, [value], m', j) {}
  }

  lemma WroteMore(m: State, address: Word, bytes: seq<Byte>, value: Byte, before: State, after: State)
    requires Sized(m) && RamRange(address, |bytes| + 1) && Wrote(m, address, bytes, before)
    requires Sized(before) && WritesByte(before, address + |bytes|, value, after)
    ensures Wrote(m, address, bytes + [value], after)
  {
    forall j | 0 <= j < RAM_SIZE ensures WroteAt(m, address, bytes + [value], after, j) {
      assert WroteAt(m, address, bytes, before, j);
    }
  }

  /** The first `n` bytes are stored one after the other, all of them accepted. */
  ghost predicate StoresFirst(m: State, address: Word, bytes: seq<Byte>, n: nat, m': State)
    requires Sized(m) && n <= |bytes| && address + |bytes| <= WORD_LIMIT
    decreases n, 1
  {
    if n == 0 then m' == m
    else exists before :: StoresLast(m, address, bytes, n, before, m')
  }

  ghost predicate StoresLast(m: State, address: Word, bytes: seq<Byte>, n: nat, before: State, m': State)
    requires Sized(m) && 0 < n <= |bytes| && address + |bytes| <= WORD_LIMIT
    decreases n, 0
  {
    Sized(before) && StoresFirst(m, address, bytes, n - 1, before) && StoresByte(before, address + n - 1, bytes[n - 1], m', Ok(()))
  }

  /** Byte `n` is the first one refused. */
  ghost predicate RefusesAt(m: State, address: Word, bytes: seq<Byte>, n: nat, before: State, m': State, r: Result<(), Fault>)
    requires Sized(m) && address + |bytes| <= WORD_LIMIT
  {
    && n < |bytes| && Sized(before) && StoresFirst(m, address, bytes, n, before)
    && r.Err? && StoresByte(before, address + n, bytes[n], m', r)
  }

  /** The effect of storing bytes one after the other, up to the first that is refused. */
  ghost predicate StoresBytes(m: State, address: Word, bytes: seq<Byte>, m': State, r: Result<(), Fault>)
    requires Sized(m) && address + |bytes| <= WORD_LIMIT
  {
    if r.Ok? then StoresFirst(m, address, bytes, |bytes|, m')
    else exists n: nat, before :: RefusesAt(m, address, bytes, n, before, m', r)
  }

  lemma NothingStored(m: State, address: Word, bytes: seq<Byte>)
    requires Sized(m) && address + |bytes| <= WORD_LIMIT
    ensures StoresFirst(m, address, bytes, 0, m)
  {}

  lemma OneMoreStored(m: State, address: Word, bytes: seq<Byte>, n: nat, before: State, m': State)
    requires Sized(m) && Sized(before) && n < |bytes| && address + |bytes| <= WORD_LIMIT
    requires StoresFirst(m, address, bytes, n, before) && StoresByte(before, address + n, bytes[n], m', Ok(()))
    ensures var k := n + 1; StoresFirst(m, address, bytes, k, m')
  {
    hide StoresByte;
    var k := n + 1;
    assert StoresLast(m, address, bytes, k, before, m');
  }

  /** In RAM nothing is refused. */
  lemma {:induction false} FirstStoredInRam(m: State, address: Word, bytes: seq<Byte>, n: nat, m': State)
    requires Sized(m) && 0 < n <= |bytes| && RamRange(address, |bytes|) && StoresFirst(m, address, bytes, n, m')
    ensures Wrote(m, address, bytes[..n], m')
  {
    hide Wrote;
    var before :| StoresLast(m, address, bytes, n, before, m');
    if n == 1 {
      WroteOne(m, address, bytes[0], m');
      assert bytes[..1] == [bytes[0]];
    } else {
      FirstStoredInRam(m, address, bytes, n - 1, before);
      WroteMore(m, address, bytes[..n - 1], bytes[n - 1], before, m');
      assert bytes[..n] == bytes[..n - 1] + [bytes[n - 1]];
    }
  }

  lemma StoredInRam(m: State, address: Word, bytes: seq<Byte>, m': State, r: Result<(), Fault>)
    requires Sized(m) && bytes != [] && RamRange(address, |bytes|) && StoresBytes(m, address, bytes, m', r)
    ensures r.Ok? && Wrote(m, address, bytes, m')
  {
    hide Wrote, StoresFirst;
    if r.Ok? {
      FirstStoredInRam(m, address, bytes, |bytes|, m');
      assert bytes[..|bytes|] == bytes;
    }
  }

  /** Two bytes, big-endian. */
  function LoadHalf(m: State, address: Word): Result<Half, Fault>
    requires Sized(m) && address + 1 < WORD_LIMIT
  {
    var upper :- LoadByte(m, address);
    var lower :- LoadByte(m, address + 1);
    Ok(FromBe16([upper, lower]))
  }

  // ----- Translation -----

  datatype Intent = Read | Write | Execute

  /** The entry with the permission for each kind of access. */
  function PermissionBit(intent: Intent): nat {
    match intent
    case Read => 4
    case Write => 8
    case Execute => 16
  }

  predicate Permits(entry: Word, intent: Intent) {
    Bit(entry, PermissionBit(intent))
  }

  function FrameOf(entry: Word): (frame: Word)
    ensures frame % 0x1000 == 0 && frame + 0xFFF < WORD_LIMIT
  {
    entry - entry % 0x1000
  }

  function DirectoryAddress(pdpr: Word, address: Word): (a: Word)
    requires pdpr + 0xFFF < WORD_LIMIT
    ensures a + 3 < WORD_LIMIT
  {
    pdpr + 4 * (address / 0x40_0000)
  }

  function TableAddress(directoryEntry: Word, address: Word): (a: Word)
    ensures a + 3 < WORD_LIMIT
  {
    FrameOf(directoryEntry) + 4 * (address / 0x1000 % 0x400)
  }

  /** What a page table entry allows. */
  function CheckEntry(entry: Word, intent: Intent): (frame: Result<Word, Fault>)
    ensures frame.Ok? ==> frame.value + 0xFFF < WORD_LIMIT
  {
    if !Bit(entry, 1) then Err(PageFault(PAGE_FAULT_INVALID_PAGE))
    else if !Bit(entry, 2) then Err(PageFault(PAGE_FAULT_NOT_PRESENT))
    else if !Permits(entry, intent) then Err(PageFault(PAGE_FAULT_ILLEGAL_ACCESS))
    else if intent == Write && Bit(entry, 32) then Err(PageFault(PAGE_FAULT_COW))
    else Ok(FrameOf(entry))
  }

  /** The page table entry for an address. */
  function EntryFor(m: State, pdpr: Word, address: Word): Result<Word, Fault>
    requires Sized(m) && pdpr + 0xFFF < WORD_LIMIT
  {
    var directoryEntry :- LoadWord(m, DirectoryAddress(pdpr, address));
    if !Bit(directoryEntry, 1) then Err(PageFault(PAGE_FAULT_INVALID_PAGE))
    else LoadWord(m, TableAddress(directoryEntry, address))
  }

  function Translate(m: State, pdpr: Word, address: Word, intent: Intent): Result<Word, Fault>
    requires Sized(m) && pdpr + 0xFFF < WORD_LIMIT
  {
    var entry :- EntryFor(m, pdpr, address);
    var frame :- CheckEntry(entry, intent);
    Ok(frame + address % 0x1000)
  }

  function Flag(on: bool): nat {
    if on then 1 else 0
  }

  /** The bits of a page table entry, from the lowest up; what lies between them and the frame has no
      meaning. */
  datatype Entry = Entry(
    valid: bool, present: bool, readable: bool, writable: bool, executable: bool, copyOnWrite: bool, unused: nat, frame: Word)

  ghost predicate IsEntry(e: Entry, word: Word) {
    && e.unused < 0x40 && e.frame % 0x1000 == 0
    && word == e.frame + 0x40 * e.unused + Flag(e.valid) + 2 * Flag(e.present) + 4 * Flag(e.readable) + 8 * Flag(e.writable)
               + 16 * Flag(e.executable) + 32 * Flag(e.copyOnWrite)
  }

  predicate Allows(e: Entry, intent: Intent) {
    match intent
    case Read => e.readable
    case Write => e.writable
    case Execute => e.executable
  }

  /** What translation makes of an entry: the first thing that is wrong, as a literal status, or the byte of
      the frame. */
  function Through(e: Entry, intent: Intent, offset: nat): Result<int, Fault> {
    if !e.valid then Err(PageFault(0))
    else if !e.present then Err(PageFault(2))
    else if !Allows(e, intent) then Err(PageFault(1))
    else if intent == Write && e.copyOnWrite then Err(PageFault(3))
    else Ok(e.frame + offset)
  }

  lemma BitIs(word: nat, power: nat, high: nat, bit: bool, low: nat)
    requires power > 0 && low < power && word == power * (2 * high + Flag(bit)) + low
    ensures Bit(word, power) == bit
  {
    Arithmetic.DivModUnique(word, power, 2 * high + Flag(bit), low);
  }

  lemma EntryBits(e: Entry, word: Word)
    requires IsEntry(e, word)
    ensures Bit(word, 1) == e.valid && Bit(word, 2) == e.present && Bit(word, 4) == e.readable && Bit(word, 8) == e.writable
    ensures Bit(word, 16) == e.executable && Bit(word, 32) == e.copyOnWrite && FrameOf(word) == e.frame
  {
    hide Bit, FrameOf;
    LowEntryBits(e, word);
    HighEntryBits(e, word);
  }

  lemma HighEntryBits(e: Entry, word: Word)
    requires IsEntry(e, word)
    ensures Bit(word, 8) == e.writable && Bit(word, 16) == e.executable && Bit(word, 32) == e.copyOnWrite && FrameOf(word) == e.frame
  {
    hide Bit;
    var q := e.frame / 0x1000;
    assert e.frame == 0x1000 * q;
    var v, p, r, w, x, c := Flag(e.valid), Flag(e.present), Flag(e.readable), Flag(e.writable), Flag(e.executable), Flag(e.copyOnWrite);
    BitIs(word, 32, 0x40 * q + e.unused, e.copyOnWrite, v + 2 * p + 4 * r + 8 * w + 16 * x);
    BitIs(word, 16, 0x80 * q + 2 * e.unused + c, e.executable, v + 2 * p + 4 * r + 8 * w);
    BitIs(word, 8, 0x100 * q + 4 * e.unused + 2 * c + x, e.writable, v + 2 * p + 4 * r);
    FrameIs(word, q, word - e.frame);
  }

  lemma LowEntryBits(e: Entry, word: Word)
    requires IsEntry(e, word)
    ensures Bit(word, 1) == e.valid && Bit(word, 2) == e.present && Bit(word, 4) == e.readable
  {
    hide Bit;
    var q := e.frame / 0x1000;
    assert e.frame == 0x1000 * q;
    var v, p, r, w, x, c := Flag(e.valid), Flag(e.present), Flag(e.readable), Flag(e.writable), Flag(e.executable), Flag(e.copyOnWrite);
    BitIs(word, 4, 0x200 * q + 8 * e.unused + 4 * c + 2 * x + w, e.readable, v + 2 * p);
    BitIs(word, 2, 0x400 * q + 0x10 * e.unused + 8 * c + 4 * x + 2 * w + r, e.present, v);
    BitIs(word, 1, 0x800 * q + 0x20 * e.unused + 0x10 * c + 8 * x + 4 * w + 2 * r + p, e.valid, 0);
  }

  lemma FrameIs(word: Word, q: nat, low: nat)
    requires word == 0x1000 * q + low && low < 0x1000
    ensures FrameOf(word) == 0x1000 * q
  {}

  lemma EntryChecks(e: Entry, word: Word, intent: Intent)
    requires IsEntry(e, word)
    ensures match CheckEntry(word, intent)
      case Err(fault) => Through(e, intent, 0) == Err(fault)
      case Ok(frame) => Through(e, intent, 0) == Ok(frame)
  {
    EntryBits(e, word);
    hide Bit, FrameOf, IsEntry;
  }

  /** Translation by tables built bit by bit: for an address composed of a directory index, a table index
      and an offset, the directory's word says whether there is a table, and the table's word decides. */
  lemma TranslationOfTables(
    m: State, pdpr: Word, d: nat, t: nat, offset: nat, table: Word, below: nat, e: Entry, word: Word, intent: Intent)
    requires Sized(m) && pdpr + 0xFFF < WORD_LIMIT && d < 0x400 && t < 0x400 && offset < 0x1000
    requires table % 0x1000 == 0 && below < 0x1000 && LoadWord(m, pdpr + 4 * d) == Ok(table + below)
    requires table + 0xFFF < WORD_LIMIT && LoadWord(m, table + 4 * t) == Ok(word) && IsEntry(e, word)
    ensures var address := d * 0x40_0000 + t * 0x1000 + offset;
      && address < WORD_LIMIT
      && Translate(m, pdpr, address, intent) == if below % 2 == 0 then Err(PageFault(0)) else Through(e, intent, offset)
  {
    hide LoadWord, CheckEntry, FrameOf, Bit, IsEntry;
    var address: Word := d * 0x40_0000 + t * 0x1000 + offset;
    AddressParts(d, t, offset);
    DirectoryWord(table, below);
    EntryChecks(e, word, intent);
  }

  lemma AddressParts(d: nat, t: nat, offset: nat)
    requires d < 0x400 && t < 0x400 && offset < 0x1000
    ensures var address := d * 0x40_0000 + t * 0x1000 + offset;
      address < WORD_LIMIT && address / 0x40_0000 == d && address / 0x1000 % 0x400 == t && address % 0x1000 == offset
  {
    var address := d * 0x40_0000 + t * 0x1000 + offset;
    assert address / 0x1000 == d * 0x400 + t;
  }

  lemma DirectoryWord(table: Word, below: nat)
    requires table % 0x1000 == 0 && below < 0x1000
    ensures table + below < WORD_LIMIT && Bit(table + below, 1) == (below % 2 == 1) && FrameOf(table + below) == table
  {
    assert table == 0x1000 * (table / 0x1000);
  }

  /** The effect of a user-mode store of one byte. */
  ghost predicate StoresVirtual(m: State, pdpr: Word, address: Word, value: Byte, m': State, r: Result<(), Fault>)
    requires Sized(m) && pdpr + 0xFFF < WORD_LIMIT
  {
    match Translate(m, pdpr, address, Write)
    case Err(fault) => r == Err(fault) && SameButDevices(m, m')
    case Ok(physical) => StoresByte(m, physical, value, m', r)
  }

  function LoadVirtual(m: State, pdpr: Word, address: Word, intent: Intent): Result<Byte, Fault>
    requires Sized(m) && pdpr + 0xFFF < WORD_LIMIT
  {
    var physical :- Translate(m, pdpr, address, intent);
    LoadByte(m, physical)
  }

  function LoadVirtualHalf(m: State, pdpr: Word, address: Word, intent: Intent): Result<Half, Fault>
    requires Sized(m) && pdpr + 0xFFF < WORD_LIMIT && address + 1 < WORD_LIMIT
  {
    var upper :- LoadVirtual(m, pdpr, address, intent);
    var lower :- LoadVirtual(m, pdpr, address + 1, intent);
    Ok(FromBe16([upper, lower]))
  }

  function LoadVirtualWord(m: State, pdpr: Word, address: Word, intent: Intent): Result<Word, Fault>
    requires Sized(m) && pdpr + 0xFFF < WORD_LIMIT && address + 3 < WORD_LIMIT
  {
    var upper :- LoadVirtual(m, pdpr, address, intent);
    var upperMid :- LoadVirtual(m, pdpr, address + 1, intent);
    var lowerMid :- LoadVirtual(m, pdpr, address + 2, intent);
    var lower :- LoadVirtual(m, pdpr, address + 3, intent);
    Ok(FromBe32([upper, upperMid, lowerMid, lower]))
  }

  // ----- Runs -----

  /** One byte access of a user program. */
  datatype Step = StoreStep(address: Word, value: Byte) | LoadStep(address: Word, fetch: bool)

  ghost predicate Effect(m: State, pdpr: Word, step: Step, m': State)
    requires Sized(m) && pdpr + 0xFFF < WORD_LIMIT
  {
    match step
    case StoreStep(address, value) =>
      exists r :: StoresVirtual(m, pdpr, address, value, m', r)
    case LoadStep(_, _) => SameButDevices(m, m')
  }

  ghost predicate EffectAt(pdpr: Word, steps: seq<Step>, trace: seq<State>, i: nat)
    requires i < |steps| && |trace| == |steps| + 1 && pdpr + 0xFFF < WORD_LIMIT
  {
    Sized(trace[i]) && Sized(trace[i + 1]) && Effect(trace[i], pdpr, steps[i], trace[i + 1])
  }

  /** The states a sequence of steps goes through. */
  ghost predicate IsRun(pdpr: Word, steps: seq<Step>, trace: seq<State>) {
    && pdpr + 0xFFF < WORD_LIMIT && |trace| == |steps| + 1 && Sized(trace[0])
    && forall i {:trigger EffectAt(pdpr, steps, trace, i)} :: 0 <= i < |steps| ==> EffectAt(pdpr, steps, trace, i)
  }

  lemma RunOneMore(pdpr: Word, steps: seq<Step>, trace: seq<State>, step: Step, m: State)
    requires IsRun(pdpr, steps, trace) && Sized(m) && Sized(trace[|steps|]) && Effect(trace[|steps|], pdpr, step, m)
    ensures IsRun(pdpr, steps + [step], trace + [m])
  {
    hide Effect;
    forall i | 0 <= i < |steps| + 1 ensures EffectAt(pdpr, steps + [step], trace + [m], i) {
      if i < |steps| {
        assert EffectAt(pdpr, steps, trace, i);
      }
    }
  }

  /** A run that begins where another ends continues it. */
  lemma RunsJoin(pdpr: Word, a: seq<Step>, before: seq<State>, b: seq<Step>, after: seq<State>)
    requires IsRun(pdpr, a, before) && IsRun(pdpr, b, after) && before[|a|] == after[0]
    ensures IsRun(pdpr, a + b, before + after[1..])
    ensures (before + after[1..])[0] == before[0] && (before + after[1..])[|a + b|] == after[|b|]
  {
    hide Effect;
    var steps, trace := a + b, before + after[1..];
    forall k | |a| <= k <= |a + b| ensures trace[k] == after[k - |a|] {}
    forall i | 0 <= i < |steps| ensures EffectAt(pdpr, steps, trace, i) {
      if i < |a| {
        assert EffectAt(pdpr, a, before, i);
      } else {
        assert EffectAt(pdpr, b, after, i - |a|);
        assert steps[i] == b[i - |a|];
      }
    }
  }

  // ----- The unit -----

  /** What a fault sends and records: interrupt 0 for an illegal operation, interrupt 2 for a page fault. */
  ghost predicate Reported(fault: Option<Fault>, interrupts: seq<nat>, pfsr: Word, interrupts': seq<nat>, pfsr': Word) {
    match fault
    case None => interrupts' == interrupts && pfsr' == pfsr
    case Some(IllegalOperation) => interrupts' == interrupts + [0] && pfsr' == pfsr
    case Some(PageFault(status)) => interrupts' == interrupts + [2] && pfsr' == status
  }

  function FaultOf<T>(r: Result<T, Fault>): Option<Fault> {
    if r.Err? then Some(r.error) else None
  }

  class MMU {
    var ram: seq<Byte>
    var interruptVector: seq<Byte>
    const rom: seq<Byte>
    var devices: seq<Byte>
    var pfsr: Word
    var interrupts: seq<nat>

    constructor (rom: seq<Byte>)
      requires |rom| == ROM_SIZE
      ensures Valid() && this.rom == rom && pfsr == 0 && interrupts == []
      ensures forall a :: a in ram || a in interruptVector ==> a == 0
    {
      this.rom := rom;
      ram, interruptVector := seq(RAM_SIZE, _ => 0), seq(INTERRUPT_VECTOR_SIZE, _ => 0);
      devices := seq(BEGIN_RAM, _ => 0);
      pfsr, interrupts := 0, [];
    }

    function Snapshot(): State
      reads this
    {
      State(ram, interruptVector, rom, devices)
    }

    ghost predicate Valid()
      reads this
    {
      Sized(Snapshot())
    }

    method LoadPhysical8(address: Word) returns (r: Result<Byte, Fault>)
      requires Valid()
      modifies this`interrupts
      ensures r == LoadByte(Snapshot(), address)
      ensures Reported(FaultOf(r), old(interrupts), pfsr, interrupts, pfsr)
    {
      match LoadZone(address) {
        case VectorZone => return Ok(interruptVector[address]);
        case RomZone => return Ok(rom[address - BEGIN_ROM]);
        case DeviceZone => return Ok(devices[address]);
        case RamZone => return Ok(ram[address - BEGIN_RAM]);
        case NoAccess =>
          interrupts := interrupts + [INTERRUPT_ILLEGAL_OPERATION];
          return Err(IllegalOperation);
      }
    }

    method LoadPhysical32(address: Word) returns (r: Result<Word, Fault>)
      requires Valid() && address + 3 < WORD_LIMIT
      modifies this`interrupts
      ensures r == LoadWord(Snapshot(), address)
      ensures Reported(FaultOf(r), old(interrupts), pfsr, interrupts, pfsr)
    {
      hide LoadByte, FromBe32;
      var upper :- LoadPhysical8(address);
      var upperMid :- LoadPhysical8(address + 1);
      var lowerMid :- LoadPhysical8(address + 2);
      var lower :- LoadPhysical8(address + 3);
      return Ok(FromBe32([upper, upperMid, lowerMid, lower]));
    }

    method StorePhysical8(address: Word, value: Byte) returns (r: Result<(), Fault>)
      requires Valid()
      modifies this`ram, this`interruptVector, this`devices, this`interrupts
      ensures Valid() && StoresByte(old(Snapshot()), address, value, Snapshot(), r)
      ensures Reported(FaultOf(r), old(interrupts), pfsr, interrupts, pfsr)
    {
      var zone := StoreZone(address);
      if zone == VectorZone {
        interruptVector := interruptVector[address := value];
      } else if zone == RamZone {
        ram := ram[address - BEGIN_RAM := value];
      } else if zone == DeviceZone {
        assert |devices| == BEGIN_RAM;
        var answers: seq<Byte> :| |answers| == BEGIN_RAM;
        devices := answers;
      } else {
        interrupts := interrupts + [INTERRUPT_ILLEGAL_OPERATION];
        return Err(IllegalOperation);
      }
      return Ok(());
    }

    method LoadPhysical16(address: Word) returns (r: Result<Half, Fault>)
      requires Valid() && address + 1 < WORD_LIMIT
      modifies this`interrupts
      ensures r == LoadHalf(Snapshot(), address)
      ensures Reported(FaultOf(r), old(interrupts), pfsr, interrupts, pfsr)
    {
      hide LoadByte, FromBe16;
      var upper :- LoadPhysical8(address);
      var lower :- LoadPhysical8(address + 1);
      return Ok(FromBe16([upper, lower]));
    }

    /** The bytes one after the other, up to the first that is refused. */
    method StorePhysicalBytes(address: Word, bytes: seq<Byte>) returns (r: Result<(), Fault>)
      requires Valid() && address + |bytes| <= WORD_LIMIT
      modifies this`ram, this`interruptVector, this`devices, this`interrupts
      ensures Valid() && StoresBytes(old(Snapshot()), address, bytes, Snapshot(), r)
      ensures Reported(FaultOf(r), old(interrupts), pfsr, interrupts, pfsr)
    {
      hide StoresByte, StoresFirst;
      ghost var start := Snapshot();
      NothingStored(start, address, bytes);
      for i := 0 to |bytes|
        invariant Valid() && StoresFirst(start, address, bytes, i, Snapshot())
        invariant interrupts == old(interrupts) && pfsr == old(pfsr)
      {
        ghost var before := Snapshot();
        r := StorePhysical8(address + i, bytes[i]);
        if r.Err? {
          assert RefusesAt(start, address, bytes, i, before, Snapshot(), r);
          return;
        }
        OneMoreStored(start, address, bytes, i, before, Snapshot());
      }
      r := Ok(());
    }

    method StorePhysical16(address: Word, value: Half) returns (r: Result<(), Fault>)
      requires Valid() && address + 1 < WORD_LIMIT
      modifies this`ram, this`interruptVector, this`devices, this`interrupts
      ensures Valid() && StoresBytes(old(Snapshot()), address, Be16(value), Snapshot(), r)
      ensures Reported(FaultOf(r), old(interrupts), pfsr, interrupts, pfsr)
      ensures RamRange(address, 2) ==> r.Ok? && Wrote(old(Snapshot()), address, Be16(value), Snapshot())
    {
      hide StoresBytes, Wrote;
      r := StorePhysicalBytes(address, Be16(value));
      if RamRange(address, 2) {
        StoredInRam(old(Snapshot()), address, Be16(value), Snapshot(), r);
      }
    }

    method StorePhysical32(address: Word, value: Word) returns (r: Result<(), Fault>)
      requires Valid() && address + 3 < WORD_LIMIT
      modifies this`ram, this`interruptVector, this`devices, this`interrupts
      ensures Valid() && StoresBytes(old(Snapshot()), address, Be32(value), Snapshot(), r)
      ensures Reported(FaultOf(r), old(interrupts), pfsr, interrupts, pfsr)
      ensures RamRange(address, 4) ==> r.Ok? && Wrote(old(Snapshot()), address, Be32(value), Snapshot())
    {
      hide StoresBytes, Wrote;
      r := StorePhysicalBytes(address, Be32(value));
      if RamRange(address, 4) {
        StoredInRam(old(Snapshot()), address, Be32(value), Snapshot(), r);
      }
    }

    method PageFaulted(status: Word) returns (r: Result<Word, Fault>)
      modifies this`interrupts, this`pfsr
      ensures r == Err(PageFault(status))
      ensures Reported(FaultOf(r), old(interrupts), old(pfsr), interrupts, pfsr)
    {
      pfsr := status;
      interrupts := interrupts + [INTERRUPT_PAGE_FAULT];
      return Err(PageFault(status));
    }

    method VirtualToPhysicalAddress(address: Word, pdpr: Word, intent: Intent) returns (r: Result<Word, Fault>)
      requires Valid() && pdpr + 0xFFF < WORD_LIMIT
      modifies this`interrupts, this`pfsr
      ensures r == Translate(Snapshot(), pdpr, address, intent)
      ensures Reported(FaultOf(r), old(interrupts), old(pfsr), interrupts, pfsr)
    {
      hide LoadWord, Bit, DirectoryAddress, TableAddress, FrameOf;
      var directoryEntry :- LoadPhysical32(DirectoryAddress(pdpr, address));
      if !Bit(directoryEntry, 1) {
        r := PageFaulted(PAGE_FAULT_INVALID_PAGE);
        return;
      }
      var entry :- LoadPhysical32(TableAddress(directoryEntry, address));
      if !Bit(entry, 1) {
        r := PageFaulted(PAGE_FAULT_INVALID_PAGE);
        return;
      }
      if !Bit(entry, 2) {
        r := PageFaulted(PAGE_FAULT_NOT_PRESENT);
        return;
      }
      if !Permits(entry, intent) {
        r := PageFaulted(PAGE_FAULT_ILLEGAL_ACCESS);
        return;
      }
      if intent == Write && Bit(entry, 32) {
        r := PageFaulted(PAGE_FAULT_COW);
        return;
      }
      return Ok(FrameOf(entry) + address % 0x1000);
    }

    method StoreVirtual8(pdpr: Word, address: Word, value: Byte) returns (r: Result<(), Fault>)
      requires Valid() && pdpr + 0xFFF < WORD_LIMIT
      modifies this
      ensures Valid() && StoresVirtual(old(Snapshot()), pdpr, address, value, Snapshot(), r)
      ensures Reported(FaultOf(r), old(interrupts), old(pfsr), interrupts, pfsr)
    {
      hide Translate, StoresByte;
      var physical :- VirtualToPhysicalAddress(address, pdpr, Write);
      r := StorePhysical8(physical, value);
    }

    method LoadVirtual8(pdpr: Word, address: Word, fetch: bool) returns (r: Result<Byte, Fault>)
      requires Valid() && pdpr + 0xFFF < WORD_LIMIT
      modifies this`interrupts, this`pfsr
      ensures r == LoadVirtual(Snapshot(), pdpr, address, if fetch then Execute else Read)
      ensures Reported(FaultOf(r), old(interrupts), old(pfsr), interrupts, pfsr)
    {
      hide Translate, LoadByte;
      var physical :- VirtualToPhysicalAddress(address, pdpr, if fetch then Execute else Read);
      r := LoadPhysical8(physical);
    }

    /** Storing a half is storing its two bytes, most significant first, up to the first fault. */
    method StoreVirtual16(pdpr: Word, address: Word, value: Half) returns (r: Result<(), Fault>, ghost trace: seq<State>)
      requires Valid() && pdpr + 0xFFF < WORD_LIMIT && address + 1 < WORD_LIMIT
      modifies this
      ensures Reported(FaultOf(r), old(interrupts), old(pfsr), interrupts, pfsr)
      ensures Valid() && StoresRun(pdpr, address, Be16(value), trace, r)
      ensures trace[0] == old(Snapshot()) && trace[|trace| - 1] == Snapshot()
    {
      r, trace := StoreVirtualBytes(pdpr, address, Be16(value));
    }

    /** The bytes one after the other, up to the first fault. */
    method StoreVirtualBytes(pdpr: Word, address: Word, bytes: seq<Byte>) returns (r: Result<(), Fault>, ghost trace: seq<State>)
      requires Valid() && pdpr + 0xFFF < WORD_LIMIT && address + |bytes| <= WORD_LIMIT
      modifies this
      ensures Reported(FaultOf(r), old(interrupts), old(pfsr), interrupts, pfsr)
      ensures Valid() && StoresRun(pdpr, address, bytes, trace, r)
      ensures trace[0] == old(Snapshot()) && trace[|trace| - 1] == Snapshot()
    {
      hide StoresVirtual, Effect, StoredAt;
      trace := [Snapshot()];
      NoSteps(pdpr, Snapshot());
      for i := 0 to |bytes|
        invariant Valid() && |trace| == i + 1 && IsRun(pdpr, StoreSteps(address, bytes, i), trace)
        invariant forall j :: 0 <= j < i ==> StoredAt(pdpr, address, bytes, trace, j, Ok(()))
        invariant trace[0] == old(Snapshot()) && trace[i] == Snapshot()
        invariant interrupts == old(interrupts) && pfsr == old(pfsr)
      {
        ghost var before := Snapshot();
        r := StoreVirtual8(pdpr, address + i, bytes[i]);
        StoreIsStep(before, pdpr, address + i, bytes[i], Snapshot(), r);
        RunOneMore(pdpr, StoreSteps(address, bytes, i), trace, StoreStep(address + i, bytes[i]), Snapshot());
        StoredOneMore(pdpr, address, bytes, trace, Snapshot(), r);
        trace := trace + [Snapshot()];
        if r.Err? {
          return;
        }
        UnitIsUnique(r.value);
      }
      r := Ok(());
    }

    /** Two bytes through translation, big-endian; the first that cannot be read decides. */
    method LoadVirtual16(pdpr: Word, address: Word, fetch: bool) returns (r: Result<Half, Fault>)
      requires Valid() && pdpr + 0xFFF < WORD_LIMIT && address + 1 < WORD_LIMIT
      modifies this`interrupts, this`pfsr
      ensures r == LoadVirtualHalf(Snapshot(), pdpr, address, if fetch then Execute else Read)
      ensures Reported(FaultOf(r), old(interrupts), old(pfsr), interrupts, pfsr)
    {
      hide LoadVirtual, FromBe16;
      var upper :- LoadVirtual8(pdpr, address, fetch);
      var lower :- LoadVirtual8(pdpr, address + 1, fetch);
      return Ok(FromBe16([upper, lower]));
    }

    method LoadVirtual32(pdpr: Word, address: Word, fetch: bool) returns (r: Result<Word, Fault>)
      requires Valid() && pdpr + 0xFFF < WORD_LIMIT && address + 3 < WORD_LIMIT
      modifies this`interrupts, this`pfsr
      ensures r == LoadVirtualWord(Snapshot(), pdpr, address, if fetch then Execute else Read)
      ensures Reported(FaultOf(r), old(interrupts), old(pfsr), interrupts, pfsr)
    {
      hide LoadVirtual, FromBe32;
      var upper :- LoadVirtual8(pdpr, address, fetch);
      var upperMid :- LoadVirtual8(pdpr, address + 1, fetch);
      var lowerMid :- LoadVirtual8(pdpr, address + 2, fetch);
      var lower :- LoadVirtual8(pdpr, address + 3, fetch);
      return Ok(FromBe32([upper, upperMid, lowerMid, lower]));
    }

    /** Storing a word is storing its bytes, most significant first, up to the first fault. */
    method StoreVirtual32(pdpr: Word, address: Word, value: Word) returns (r: Result<(), Fault>, ghost trace: seq<State>)
      requires Valid() && pdpr + 0xFFF < WORD_LIMIT && address + 3 < WORD_LIMIT
      modifies this
      ensures Reported(FaultOf(r), old(interrupts), old(pfsr), interrupts, pfsr)
      ensures Valid() && StoresRun(pdpr, address, Be32(value), trace, r)
      ensures trace[0] == old(Snapshot()) && trace[|trace| - 1] == Snapshot()
    {
      r, trace := StoreVirtualBytes(pdpr, address, Be32(value));
    }
  }

  function StoreSteps(address: Word, bytes: seq<Byte>, n: nat): (steps: seq<Step>)
    requires n <= |bytes| && address + |bytes| <= WORD_LIMIT
    ensures |steps| == n
  {
    if n == 0 then [] else StoreSteps(address, bytes, n - 1) + [StoreStep(address + n - 1, bytes[n - 1])]
  }

  lemma NoSteps(pdpr: Word, m: State)
    requires Sized(m) && pdpr + 0xFFF < WORD_LIMIT
    ensures IsRun(pdpr, [], [m])
  {}

  /** Byte `i` of a run of stores goes where the translation leads; the last one has the given outcome. */
  ghost predicate StoredAt(pdpr: Word, address: Word, bytes: seq<Byte>, trace: seq<State>, i: nat, r: Result<(), Fault>)
    requires pdpr + 0xFFF < WORD_LIMIT && address + |bytes| <= WORD_LIMIT
  {
    && i < |bytes| && i + 1 < |trace| && Sized(trace[i])
    && StoresVirtual(trace[i], pdpr, address + i, bytes[i], trace[i + 1], if i + 2 == |trace| then r else Ok(()))
  }

  /** The bytes are stored one after the other, up to the first fault, which is the outcome. */
  ghost predicate StoresRun(pdpr: Word, address: Word, bytes: seq<Byte>, trace: seq<State>, r: Result<(), Fault>)
    requires pdpr + 0xFFF < WORD_LIMIT && address + |bytes| <= WORD_LIMIT
  {
    && 1 <= |trace| <= |bytes| + 1 && IsRun(pdpr, StoreSteps(address, bytes, |trace| - 1), trace)
    && (forall i :: 0 <= i < |trace| - 1 ==> StoredAt(pdpr, address, bytes, trace, i, r))
    && (r.Ok? ==> |trace| == |bytes| + 1)
    && (r.Err? ==> |trace| > 1)
  }

  lemma StoredOneMore(pdpr: Word, address: Word, bytes: seq<Byte>, trace: seq<State>, m: State, r: Result<(), Fault>)
    requires pdpr + 0xFFF < WORD_LIMIT && address + |bytes| <= WORD_LIMIT && 0 < |trace| <= |bytes|
    requires forall j :: 0 <= j < |trace| - 1 ==> StoredAt(pdpr, address, bytes, trace, j, Ok(()))
    requires Sized(trace[|trace| - 1])
    requires StoresVirtual(trace[|trace| - 1], pdpr, address + |trace| - 1, bytes[|trace| - 1], m, r)
    ensures forall j :: 0 <= j < |trace| ==> StoredAt(pdpr, address, bytes, trace + [m], j, r)
  {
    hide StoresVirtual;
    forall j | 0 <= j < |trace| ensures StoredAt(pdpr, address, bytes, trace + [m], j, r) {
      if j < |trace| - 1 {
        assert StoredAt(pdpr, address, bytes, trace, j, Ok(()));
      }
    }
  }

  lemma UnitIsUnique(u: ())
    ensures u == ()
  {
    match u case () =>
  }

  lemma StoreIsStep(m: State, pdpr: Word, address: Word, value: Byte, m': State, r: Result<(), Fault>)
    requires Sized(m) && pdpr + 0xFFF < WORD_LIMIT && StoresVirtual(m, pdpr, address, value, m', r)
    ensures Effect(m, pdpr, StoreStep(address, value), m')
  {
    hide StoresVirtual;
  }
}
