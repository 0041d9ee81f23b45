/** Linked images in the machine: where the linker's addresses lead in memory, and what the CPU fetches
    there. */
module Booting {
  import opened Bytes
  import opened Wrappers
  import opened ObjectData
  import opened InstructionSet
  import opened SaltProgram
  import opened SaltSymbols
  import opened Program
  import opened LinkedCode
  import opened LinkProgram
  import opened Toolchain
  import Linking
  import Memory
  import Interrupts
  import ImageLayout

  // ----- Images in memory -----

  /** In kernel mode the image can be loaded byte by byte from `base` on. */
  ghost predicate Loaded(m: Memory.State, base: nat, image: seq<Byte>) {
    && Memory.Sized(m) && base + |image| <= WORD_LIMIT
    && forall k :: 0 <= k < |image| ==> LoadedAt(m, base, image, k)
  }

  ghost predicate LoadedAt(m: Memory.State, base: nat, image: seq<Byte>, k: nat)
    requires Memory.Sized(m) && k < |image| && base + k < WORD_LIMIT
  {
    Memory.LoadByte(m, base + k) == Ok(image[k])
  }

  /** The linker's constants are those of the machine: ROM images are as long as ROM and go where it begins,
      disk images go where RAM begins and are made of blocks as long as the two disks' windows below it. */
  lemma ConstantsAgree()
    ensures Linking.ROM_BASE == Memory.BEGIN_ROM == 64 && Linking.ROM_SIZE == Memory.ROM_SIZE == 512
    ensures Linking.DISK_BASE == Memory.BEGIN_RAM == 0x4000
    ensures Linking.DISK_ALIGN == 4096 && 2 * Linking.DISK_ALIGN == Memory.BEGIN_RAM - Memory.BEGIN_DISK_A_DATA
  {}

  lemma RomIsLoaded(m: Memory.State)
    requires Memory.Sized(m)
    ensures Loaded(m, Linking.ROM_BASE, m.rom)
  {}

  /** A disk image read into the first bytes of RAM. */
  lemma DiskIsLoaded(m: Memory.State, image: seq<Byte>)
    requires Memory.Sized(m) && image <= m.ram
    ensures Loaded(m, Linking.DISK_BASE, image)
  {}

  lemma PartIsLoaded(m: Memory.State, base: nat, image: seq<Byte>, part: seq<Byte>)
    requires Loaded(m, base, image) && part <= image
    ensures Loaded(m, base, part)
  {
    hide Memory.LoadByte;
    forall k | 0 <= k < |part| ensures LoadedAt(m, base, part, k) {
      assert LoadedAt(m, base, image, k);
    }
  }

  // ----- Fetching -----

  /** The CPU in kernel mode, at `address`, fetches the instruction from exactly `length` bytes. */
  ghost predicate Fetches(m: Memory.State, address: nat, instruction: Instruction, length: nat) {
    exists bytes :: FetchedFrom(m, address, bytes, instruction, length)
  }

  ghost predicate FetchedFrom(m: Memory.State, address: nat, bytes: seq<Byte>, instruction: Instruction, length: nat) {
    |bytes| == length && Loaded(m, address, bytes) && DecodeAt(bytes, 0) == Some(Step(instruction, length))
  }

  lemma DecodedIsFetched(m: Memory.State, base: nat, image: seq<Byte>, p: nat)
    requires Loaded(m, base, image) && DecodeAt(image, p).Some?
    ensures var step := DecodeAt(image, p).value; Fetches(m, base + p, step.instruction, step.next - p)
  {
    hide Memory.LoadByte, DecodeAt;
    var step := DecodeAt(image, p).value;
    var bytes, start := image[p..step.next], base + p;
    forall k | 0 <= k < |bytes| ensures LoadedAt(m, start, bytes, k) {
      assert LoadedAt(m, base, image, p + k);
    }
    DecodeWithin(image, p, step.next, p);
    assert FetchedFrom(m, start, bytes, step.instruction, step.next - p);
  }

  /** Wherever linked code is loaded, the CPU fetches every instruction of its source at the address that the
      linker has given it, and the next one follows. */
  lemma InstructionFetched(u: Unit, m: Memory.State, i: nat) returns (operands: seq<Operand>)
    requires IsLinkedUnit(u) && Loaded(m, u.base, u.image) && i < |u.source|
    ensures i < |u.list| && |operands| == |u.source[i].operands|
    ensures forall k :: 0 <= k < |operands| ==> IsLinkedOperand(u, i, k, operands[k])
    ensures InstructionAt(u, i) < InstructionAt(u, i + 1)
    ensures Fetches(m, u.base + InstructionAt(u, i), Instruction(u.source[i].mnemonic, operands),
                    InstructionAt(u, i + 1) - InstructionAt(u, i))
  {
    hide IsLinkedUnit, IsLinkedOperand, InstructionAt, DecodeAt, Loaded, Fetches;
    operands := LinkedInstructionDecodes(u, i);
    DecodedIsFetched(m, u.base, u.image, InstructionAt(u, i));
  }

  /** The address that a label stands for is where the CPU fetches the instruction behind it. */
  lemma LabelFetched(u: Unit, m: Memory.State, name: string, j: nat, target: nat) returns (operands: seq<Operand>)
    requires IsLinkedUnit(u) && Loaded(m, u.base, u.image)
    requires j < |u.source| && LabelIs(u.symbols, name, Before(j)) && Means(u.files, u.file, name, target)
    ensures j < |u.list| && |operands| == |u.source[j].operands|
    ensures forall k :: 0 <= k < |operands| ==> IsLinkedOperand(u, j, k, operands[k])
    ensures Fetches(m, ImageLayout.Address(target, PlaceOf(u)), Instruction(u.source[j].mnemonic, operands),
                    InstructionAt(u, j + 1) - InstructionAt(u, j))
  {
    hide IsLinkedUnit, IsLinkedOperand, InstructionAt, Loaded, Fetches, LabelIs, Means;
    LabelMeansInstruction(u, name, j, target);
    operands := InstructionFetched(u, m, j);
  }

  /** The code assembled as the entrypoint is fetched from the first byte on. */
  lemma EntrypointFetched(u: Unit, readOnly: bool, m: Memory.State) returns (operands: seq<Operand>)
    requires IsAssembled(u) && IsLinkedFrom(u, readOnly) && u.assembly.entrypoint && |u.source| > 0
    requires Loaded(m, u.base, u.image)
    ensures IsLinkedUnit(u) && |u.list| == |u.source| && |operands| == |u.source[0].operands|
    ensures forall k :: 0 <= k < |operands| ==> IsLinkedOperand(u, 0, k, operands[k])
    ensures Fetches(m, u.base, Instruction(u.source[0].mnemonic, operands), InstructionAt(u, 1))
  {
    hide IsAssembled, IsLinkedFrom, IsLinkedUnit, IsLinkedOperand, InstructionAt, DecodeAt, Loaded, Fetches;
    operands := EntrypointRuns(u, readOnly);
    DecodedIsFetched(m, u.base, u.image, 0);
  }

  // ----- Starting the machine -----

  /** The program counter of a new machine is where ROM begins, and ROM holds what it was given. */
  method Start(rom: seq<Byte>) returns (cpu: Interrupts.Processor)
    requires |rom| == Linking.ROM_SIZE
    ensures fresh(cpu) && fresh(cpu.mmu) && cpu.Valid() && cpu.kernelMode
    ensures cpu.programCounter == Linking.ROM_BASE && cpu.mmu.Snapshot().rom == rom
    ensures Loaded(cpu.mmu.Snapshot(), cpu.programCounter, rom)
  {
    ConstantsAgree();
    var mmu := new Memory.MMU(rom);
    cpu := new Interrupts.Processor(mmu);
    assert cpu.Now().registers.pc == Linking.ROM_BASE;
    RomIsLoaded(mmu.Snapshot());
  }

  /** Link the files as ROM and start the machine with it: the program counter is at the first byte of the
      program's image. */
  method LinkAndStart(files: seq<ObjectFile>) returns (r: Result<Interrupts.Processor, Linking.LinkError>)
    requires WellFormed(files) && Linking.ROM_BASE + Base(files, |files|) <= WORD_LIMIT
    ensures r.Ok? ==> Linkable(files, true) && r.value.Valid() && r.value.kernelMode
    ensures r.Ok? ==> IsLinkedPadded(r.value.mmu.Snapshot().rom, files, Linking.ROM_BASE)
    ensures r.Ok? ==>
      Loaded(r.value.mmu.Snapshot(), r.value.programCounter, r.value.mmu.Snapshot().rom[..Base(files, |files|)])
    ensures Linkable(files, true) && Base(files, |files|) <= Linking.ROM_SIZE && SymbolCount(files, |files|) <= WORD_LIMIT ==>
      r.Ok?
  {
    hide WellFormed, Linkable, Loaded, IsLinked;
    var rom :- LinkRom(files);
    var cpu := Start(rom);
    PartIsLoaded(cpu.mmu.Snapshot(), cpu.programCounter, rom, rom[..Base(files, |files|)]);
    return Ok(cpu);
  }

  /** What such a machine fetches first is the first instruction of the program assembled as the
      entrypoint, with every symbol at its address in ROM. */
  lemma FirstInstruction(u: Unit, m: Memory.State, pc: Word) returns (operands: seq<Operand>)
    requires IsAssembled(u) && IsLinkedFrom(u, true) && u.assembly.entrypoint && |u.source| > 0
    requires u.base == Linking.ROM_BASE == pc && Memory.Sized(m) && u.image <= m.rom
    ensures IsLinkedUnit(u) && |u.list| == |u.source| && |operands| == |u.source[0].operands|
    ensures forall k :: 0 <= k < |operands| ==> IsLinkedOperand(u, 0, k, operands[k])
    ensures Fetches(m, pc, Instruction(u.source[0].mnemonic, operands), InstructionAt(u, 1))
  {
    hide IsAssembled, IsLinkedFrom, IsLinkedUnit, IsLinkedOperand, InstructionAt, Loaded, Fetches;
    RomIsLoaded(m);
    PartIsLoaded(m, Linking.ROM_BASE, m.rom, u.image);
    operands := EntrypointFetched(u, true, m);
  }
}
