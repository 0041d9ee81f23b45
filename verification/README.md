# Simulatron: a verified model of the toolchain and of the machine's privileged parts

Simulatron is a fantasy computer with its own assembler (Salt), linker (Silk) and virtual machine. This
project models, in Dafny, the parts of the three that must agree with each other, and proves what each
part owes the others. `dafny verify dfyconfig.toml` checks everything.

The pieces, in the order in which a program meets them:

- **Parsing assembly** (`SaltGrammar`, `SaltSentences`, `SaltParser`, `SaltAst`). The error-recovering recursive-descent
  parser as a class that moves tokens from the stream through its lookahead buffer into the tree under
  construction. No token is ever lost or reordered, and every line makes progress. Parsing succeeds exactly
  if the tokens are those of a tree that follows the grammar (`SaltSentences` shows that every sentence can
  be read from left to right), and in the tree it yields no accessor can fail to find its child.
- **Declarations** (`ArrayLiterals`, `DataItems`, `Declarations`). Array literals, the dimensions inferred for
  them, the initialisers built from them, and the symbol table filled from all declarations.
- **Generating code** (`SaltEncoding`, `RegisterAccess`, `SaltSymbols`, `SaltCodegen`, `SaltStream`, `SaltProgram`). One table
  of operand kinds says what each of the thirteen addressing modes encodes; the class `CodeGenerator` does
  it step by step as the source does, with placeholder opcodes patched afterwards and references collected
  in the symbol table. The generated code is compared with the CPU's fetch-and-decode logic
  (`InstructionSet`), over whole instruction streams, and register names with the registers that the CPU
  reads and writes (`RegisterAccess`).
- **Object files** (`SaltLayout`, `SaltEmission`, `SilkParser`, `ParseOutcomes`, `SaltToSilk`, `SaltRoundTrip`, `Assembling`).
  What the assembler writes, with its layout computed in advance, and what the linker's parser makes of it.
- **Linking** (`ObjectData`, `SymbolTables`, `Names`, `Relocation`, `ImageLayout`, `Patching`, `PatchOrder`,
  `Linking`, `Program`, `Summary`, `LinkProgram`). The class `Linker` merges symbol tables in an arbitrary order,
  relocates, moves the entrypoint section to the front and patches references in place. `Program` defines
  what a list of files means without any of that, and the linked image is proved to be the image of that
  meaning, for every order of visiting the tables.
- **Running what was linked** (`SectionFlags`, `LinkedCode`, `Toolchain`, `Booting`). Which assembled programs
  can be linked; the code of an assembled file inside a linked image, where the CPU decodes the source
  program, every symbol being the loaded address of what it means; and the machine started with a ROM
  image, which fetches those instructions at those addresses.
- **The machine** (`Memory`, `Isolation`, `Interrupts`, `InterruptLatch`, `Ram`, `Blocks`). Memory-mapped
  zones, two-level page translation and what it protects over whole runs of a user program; interrupt entry
  and return to any nesting depth; the latch; the two implementations of RAM; block instructions.
- **Integer arithmetic** (`Alu`, `RotateCarry`, `RegisterFile`), for every bit width.

`Wrappers`, `Bytes` and `Arithmetic` hold what all of them share.

Conventions. Bytes, halves and words are bounded integers; bits are taken out with division and
remainder. Addresses are words, and a precondition such as `address + 3 < WORD_LIMIT` stands wherever the
source adds without a check. A hash map's iteration order is an arbitrary choice (`:|`) in a loop, so what
is proved about the loop holds for every order. A panic is an unreachable branch, a proof obligation, or a
result of its own (`UnknownSizeof`, `SplitSlot`, `Panicked`). Where the code's result depends on an order
only in which of several errors is named, the contract says so.

Findings where the code does less than one might expect; the lemmas say exactly when:

- A timer instruction with a symbol operand emits the placeholder before the opcode, so the stream no
  longer decodes to the program: `SaltStream.StreamRoundTrip` is an equivalence, and
  `SaltStream.TimerSymbolMisdecodes` an instance in which the CPU finds a `halt`.
- An empty data item at the very end of a file is assembled but refused by the linker's parser:
  `SaltRoundTrip.RoundTrip` is an equivalence, and `SaltRoundTrip.EmptyDataIsRejected` an instance.
- A hand-written object file may contain references that overlap. The linker's check that a slot is still
  zero then passes in every order of visiting the symbols exactly if, where two references of different
  symbols overlap, both write zeros there, and where two of the same symbol do, the earlier one does
  (`PatchOrder.EveryOrderPasses`). Whatever overlaps, any two orders that pass leave the same image
  (`PatchOrder.PassingOrdersAgree`); it holds the right address at every reference exactly if, of any two
  references, both write zeros where they overlap (`PatchOrder.PatchedExactly`).
  `PatchOrder.OverlapMakesOrderMatter` is a valid file that links in one order and not in the other. The
  theorems about whole programs ask for references that do not overlap, as those of assembled files are
  proved to be.
- The linker's parser panics on a reference whose four bytes begin inside a section and run past its end,
  provided that all bytes up to the section's end are zero; if one is not, that is reported first and
  nothing panics (`SilkParser.ReferenceExactly`). Symbols are visited in the order of a hash map and the
  first failure decides: parsing a file panics in some order exactly if, in some symbol, the first thing
  wrong is such a reference, and in every order exactly if moreover every other symbol is in order or fails
  in the same way (`ParseOutcomes.FilePanicsExactly`). `ParseOutcomes.SplitFileCanPanic` gives the bytes of
  a file that panics in one order and is refused with an error in the other.

## Model

| member | source | states |
|---|---|---|
| ObjectData.FindSection | Crates/simulatron-silk/src/lib/data.rs:65-92 | binary search succeeds exactly below the total length and finds the only containing section, empty sections present or not |
| ObjectData.CompareAddress | Crates/simulatron-silk/src/lib/data.rs:65-73 | a section compares equal with exactly the addresses it contains, so an empty one with none |
| ObjectData.ContainingSectionIsUnique | Crates/simulatron-silk/src/lib/data.rs:76-92 | no address lies in two sections of a contiguous list |
| ObjectData.JoinedAt | Crates/simulatron-silk/src/lib/linker.rs:280-292 | concatenating the sections puts each byte at its section's start plus its offset |
| Names.DecimalInjective | Crates/simulatron-silk/src/lib/linker.rs:309-314 | different suffixes print differently |
| Names.GenNonConflictingName | Crates/simulatron-silk/src/lib/linker.rs:305-320 | the new name is unused, and the search succeeds whenever the table has fewer than 2^32 entries |
| SymbolTables.RenameInternal | Crates/simulatron-silk/src/lib/linker.rs:90-113 | renaming an internal symbol to an unused name changes neither the patches nor any global, so it captures nothing |
| SymbolTables.ResolveAbsorbed | Crates/simulatron-silk/src/lib/linker.rs:114-131 | merging an external with the public definition of its name keeps every reference and the one value |
| SymbolTables.InsertAbsorbed | Crates/simulatron-silk/src/lib/linker.rs:82-86 | inserting a symbol adds exactly its own patches or its own global |
| SymbolTables.MergedStep | Crates/simulatron-silk/src/lib/linker.rs:70-144 | one turn of the merge loop extends the content merged so far, independently of the order of turns |
| Relocation.CombinedLayout | Crates/simulatron-silk/src/lib/linker.rs:53-66 | sections moved behind others leave a contiguous list whose bytes are both files' bytes one after the other |
| Relocation.ValidEntryShifted | Crates/simulatron-silk/src/lib/linker.rs:70-76 | a parsed symbol stays valid when its value and references are offset together with its sections |
| Relocation.ShiftedNonOverlapping | Crates/simulatron-silk/src/lib/linker.rs:73-76 | offsetting keeps references apart |
| ImageLayout.RelocateIsBijection | Crates/simulatron-silk/src/lib/linker.rs:231-244 | relocation is a bijection on the addresses below the total length |
| ImageLayout.MoveToStart | Crates/simulatron-silk/src/lib/linker.rs:322-344 | the in-place shift is the rotation that brings one element to the front and keeps the order of the others |
| ImageLayout.MovedLayout | Crates/simulatron-silk/src/lib/linker.rs:219-229 | the moved list is again contiguous from zero with the same total, and relocation says where each byte went |
| ImageLayout.SlotStaysInSection | Crates/simulatron-silk/src/lib/linker.rs:261-270 | four bytes inside one section are still inside one section after the move, so the search for a reference cannot fail |
| ImageLayout.ImageIsUnique | Crates/simulatron-silk/src/lib/linker.rs:246-278 | base, placement, original bytes and patches determine the image |
| Patching.SetByteLayout | Crates/simulatron-silk/src/lib/linker.rs:272-276 | writing a byte of a section writes the one byte of the image it stands for |
| PatchOrder.ApplyExactly | Crates/simulatron-silk/src/lib/linker.rs:260-277 | a sequence of checked writes goes through exactly if each leaves zeros where a later one overlaps it, and then every byte is the one byte other than zero written there |
| PatchOrder.BothOrdersPass | Crates/simulatron-silk/src/lib/linker.rs:268-276 | two references can be patched in both orders exactly if both write zeros wherever they overlap, and then the images are equal |
| PatchOrder.EveryOrderPasses | Crates/simulatron-silk/src/lib/linker.rs:246-278 | the checks pass in every order of visiting the symbols exactly if overlaps are harmless: a condition on pairs of relocated references and their addresses |
| PatchOrder.PassingOrdersAgree | Crates/simulatron-silk/src/lib/linker.rs:246-278 | any two orders of visiting the symbols that pass the checks leave the same image, whatever overlaps |
| PatchOrder.PatchedExactly | Crates/simulatron-silk/src/lib/linker.rs:246-278 | in any order, the checks pass and every reference holds its address exactly if no reference disturbs another |
| PatchOrder.NonOverlappingPasses | Crates/simulatron-silk/src/lib/linker.rs:273-274 | references that do not overlap trip no check in any order |
| PatchOrder.OverlapMakesOrderMatter | Crates/simulatron-silk/src/lib/linker.rs:246-278 | a valid object file with two overlapping references that can be patched in one order of its symbols and not in the other |
| Linking.Linker.AddSymbol | Crates/simulatron-silk/src/lib/linker.rs:77-144 | inserting, renaming and resolving absorb the symbol, and it is refused only for a second definition, a second import or exhausted names |
| Linking.Linker.MergeSymbols | Crates/simulatron-silk/src/lib/linker.rs:67-144 | in any order the loop merges all symbols of the file, or reports a name that cannot be merged |
| Linking.Linker.AddObjects | Crates/simulatron-silk/src/lib/linker.rs:49-146 | the linker's data becomes the combination of both files, or an error with a reason that holds of them |
| Linking.Linker.FindEntrypoint | Crates/simulatron-silk/src/lib/linker.rs:191-217 | it succeeds exactly if all sections are acceptable and one is the entrypoint |
| Linking.Linker.MoveEntrypoint | Crates/simulatron-silk/src/lib/linker.rs:219-229 | the entrypoint's section is first and all starts are adjusted |
| Linking.Linker.PatchSlot | Crates/simulatron-silk/src/lib/linker.rs:268-276 | the four bytes of the slot are replaced by the address if all of them are zero, and otherwise the assertion fails |
| Linking.ObjectIsReady | Crates/simulatron-silk/src/lib/linker.rs:256-271 | in a valid file without unresolved symbols every relocated reference is found and names four zero bytes before patching starts |
| Linking.Linker.PatchSymbols | Crates/simulatron-silk/src/lib/linker.rs:246-278 | overlapping or not, the references are patched in the order chosen, or the assertion fails in that order, or an unresolved symbol is reported |
| Linking.Linker.Concatenate | Crates/simulatron-silk/src/lib/linker.rs:280-292 | the image is the flattened section list |
| Linking.Linker.LinkAsImage | Crates/simulatron-silk/src/lib/linker.rs:187-298 | success is decided by the content alone, and the image holds every relocated address at its relocated slot and the original bytes elsewhere |
| Linking.Linker.LinkAsRom | Crates/simulatron-silk/src/lib/linker.rs:148-167 | a read-only image for address 0x40, padded with zeros to exactly 512 bytes, or an error if it is larger |
| Linking.Linker.LinkAsDisk | Crates/simulatron-silk/src/lib/linker.rs:169-185 | an image for address 0x4000, padded with zeros to the next multiple of 4096 |
| Program.MeaningIsUnique | Crates/simulatron-silk/src/lib/linker.rs:70-144 | in a program that combines, with every import defined, each reference means exactly one position |
| Program.ProgramImageIsUnique | Crates/simulatron-silk/src/lib/linker.rs:187-298 | the files, the entrypoint and the base determine the image |
| Summary.DescribesOneMore | Crates/simulatron-silk/src/lib/linker.rs:67-144 | adding a file keeps the table saying exactly what the files say, up to the names of internal symbols |
| Summary.TablePatches | Crates/simulatron-silk/src/lib/linker.rs:246-278 | the patches of the combined table are the references of all files with what they mean there |
| Summary.TableResolved | Crates/simulatron-silk/src/lib/linker.rs:249-252 | nothing is unresolved exactly when every imported name is defined in some file |
| LinkProgram.ImageMeansProgram | Crates/simulatron-silk/src/lib/linker.rs:187-298 | linking preserves meaning: at every reference stands the loaded address of what the name means in that file, and every other byte is the original one at its moved position |
| LinkProgram.Combine | Crates/simulatron-silk/src/lib/linker.rs:49-146 | combining a list of files succeeds with a table that describes them, or stops for a reason that shows they do not combine |
| LinkProgram.Link | Crates/simulatron-silk/src/lib/linker.rs:49-298 | combining and linking succeeds exactly for linkable programs and yields the program's image |
| LinkProgram.LinkedImageIsUnique | Crates/simulatron-silk/src/lib/linker.rs:70-144 | whatever the orders in which two runs visit the tables, they give the same bytes |
| LinkProgram.LinkRom | Crates/simulatron-silk/src/lib/linker.rs:148-167 | combining and linking as ROM succeeds exactly for read-only linkable programs that fit, with the program's image and zeros |
| LinkProgram.LinkDisk | Crates/simulatron-silk/src/lib/linker.rs:169-185 | the same for a disk image of any size |
| SilkParser.Parser.Run | Crates/simulatron-silk/src/lib/parser.rs:42-82 | the bytes decide success and the object file, the order of the symbols only which error is reported, and an accepted file is valid |
| SilkParser.Parser.ParseSymbolTable | Crates/simulatron-silk/src/lib/parser.rs:85-133 | the entries in file order, refusing unknown types, bad names and duplicates |
| SilkParser.Parser.ParseSectionHeaders | Crates/simulatron-silk/src/lib/parser.rs:148-163 | one flag byte and one length for each section, or the end of the file |
| SilkParser.Parser.ParseSections | Crates/simulatron-silk/src/lib/parser.rs:166-192 | sections laid out one after the other from the current position |
| SilkParser.VerifySymbols | Crates/simulatron-silk/src/lib/parser.rs:60-78 | in any order, all symbols are relocated and verified, or the first failure in that order is reported |
| SilkParser.VerifySymbol | Crates/simulatron-silk/src/lib/parser.rs:262-310 | value and references become relative to the sections, or the first violation is reported |
| SilkParser.VerifyReference | Crates/simulatron-silk/src/lib/parser.rs:284-307 | a reference is accepted exactly if it names four zero bytes of one section, and panics exactly if its slot begins in a section, runs past its end and has only zeros up to there |
| SilkParser.ReferenceExactly | Crates/simulatron-silk/src/lib/parser.rs:284-307 | the exact condition, on the bytes of the sections, of each outcome of checking a reference |
| SilkParser.SymbolExactly | Crates/simulatron-silk/src/lib/parser.rs:262-310 | a symbol is accepted exactly if its value and all references are in order, and panics exactly if the first thing wrong is a reference that runs past its section |
| ParseOutcomes.SomeOrderPanics | Crates/simulatron-silk/src/lib/parser.rs:74-78 | checking the symbols panics in some order exactly if one of them panics by itself |
| ParseOutcomes.EveryOrderPanics | Crates/simulatron-silk/src/lib/parser.rs:74-78 | it panics in every order exactly if one does and every other either does or is in order |
| ParseOutcomes.FilePanicsExactly | Crates/simulatron-silk/src/lib/parser.rs:42-82 | the bytes of a file decide whether parsing it can panic and whether it must |
| ParseOutcomes.FileAcceptedExactly | Crates/simulatron-silk/src/lib/parser.rs:42-82 | a file is accepted exactly if it can be read and every value and reference is in order |
| ParseOutcomes.SplitFileCanPanic | Crates/simulatron-silk/src/lib/parser.rs:300-305 | the bytes of a file that panics in one order of its two symbols and is refused with an error in the other |
| SilkParser.CheckedReferenceValid | Crates/simulatron-silk/src/lib/parser.rs:284-307 | an accepted reference lies inside one section and names four zero bytes of the image |
| SilkParser.SectionsContiguous | Crates/simulatron-silk/src/lib/parser.rs:166-192 | parsed sections are contiguous from zero and their bytes are the file's bytes |
| SilkParser.SymbolLetters | Crates/simulatron-silk/src/lib/data.rs:8-22 | the letters I, P and E stand for internal, public and external symbols |
| SilkParser.NameBytesAre | Crates/simulatron-silk/src/lib/parser.rs:232-257 | names are made of ASCII letters, digits and underscores |
| SilkParser.AcceptedIsValid | Crates/simulatron-silk/src/lib/parser.rs:42-82 | whatever the parser accepts has what the linker relies on: contiguous sections, values below the total, slots of zeros inside one section |
| InstructionSet.DecodeAt | Crates/simulatron-vm/src/lib/cpu.rs:555-1706 | a decoded instruction consumes at least its opcode and never more than the code |
| InstructionSet.FetchAllBack | Crates/simulatron-vm/src/lib/cpu.rs:448-467 | operands a handler accepts are fetched back from their bytes, one after the other |
| InstructionSet.DecodeBack | Crates/simulatron-vm/src/lib/cpu.rs:554-1706 | an opcode followed by operands its handler accepts decodes to exactly those operands |
| RegisterAccess.NamesReachRegisters | Crates/simulatron-salt/src/lib/codegen.rs:1107-1151 | every register name reaches the register the CPU accesses under its reference: `ri`, `rih` and `rib` the 32, 16 and 8 low bits of general register i, `fi` float register i, each special name its own; no other name is a register |
| RegisterAccess.PlaceOf | Crates/simulatron-vm/src/lib/cpu.rs:2064-2224 | the register each reference means, with the type that decoding gives it, in agreement with the general register file |
| RegisterAccess.Cpu.ReadFromRegister | Crates/simulatron-vm/src/lib/cpu.rs:2180-2224 | the value of the register that the reference means, unless there is none or it takes kernel mode |
| RegisterAccess.Cpu.WriteToRegister | Crates/simulatron-vm/src/lib/cpu.rs:2096-2182 | a value of the right type is written to the register that the reference means, and to nothing else, unless that is forbidden |
| RegisterAccess.SetThenGet | Crates/simulatron-vm/src/lib/cpu.rs:2096-2224 | what is written is read back, but for bit 15 of the flags, and separate registers are untouched |
| SaltEncoding.IntegerHeld | Crates/simulatron-salt/src/lib/codegen.rs:1023-1075 | an immediate is the integer itself, or its two's complement, in one, two or four bytes: never a truncation |
| SaltEncoding.IntegerFitsExactly | Crates/simulatron-salt/src/lib/ast.rs:566-580 | an integer can be an immediate byte or half exactly if it is in the range of one, signed or unsigned |
| InstructionSet.ClassesTake | Crates/simulatron-vm/src/lib/cpu.rs:473-513 | which types of register each class of operand takes |
| SaltEncoding.ModeOf | Crates/simulatron-salt/src/lib/codegen.rs:844-916 | every mnemonic's addressing mode is one of the thirteen, with room for its variants below 0x100 |
| SaltEncoding.EncodedIsAccepted | Crates/simulatron-salt/src/lib/codegen/instruction_macros.rs:41-81 | an operand that the assembler encodes is one the CPU accepts in that place |
| SaltEncoding.HandlerMatchesMode | Crates/simulatron-salt/src/lib/codegen.rs:844-916 | in every variant of every mnemonic the assembler's opcode is the CPU's handler of that name, with the same operands |
| SaltEncoding.EncodedDecodable | Crates/simulatron-salt/src/lib/codegen/instruction_macros.rs:84-639 | whatever instruction has an encoding, its opcode's handler accepts its operands |
| SaltEncoding.EncodedOperandsStandFor | Crates/simulatron-salt/src/lib/codegen.rs:1004-1074 | an encoded operand is the register named, the low bytes of the literal's value, or four zero bytes for a symbol |
| SaltEncoding.OpcodeLastIsTimer | Crates/simulatron-salt/src/lib/codegen/instruction_macros.rs:93-121 | only the timer instruction resolves its operand before pushing the opcode |
| SaltEncoding.PlaceholderIsFirst | Crates/simulatron-salt/src/lib/codegen/instruction_macros.rs:97-116 | its encoding of a symbol starts with a zero byte, which is another instruction's opcode |
| SaltStream.StreamRoundTrip | Crates/simulatron-vm/src/lib/cpu.rs:554-1706 | decoding generated code from its first byte gives back every instruction and operand in order and consumes every byte, exactly when no timer instruction has a symbol operand |
| SaltStream.TimerSymbolMisdecodes | Crates/simulatron-salt/src/lib/codegen/instruction_macros.rs:97-116 | a timer set from an undefined symbol is emitted with its placeholder first and decodes as `halt` |
| SaltStream.OffsetsAreBoundaries | Crates/simulatron-salt/src/lib/codegen.rs:819-831 | the offset of every instruction is an instruction boundary of that decode |
| SaltSymbols.AddReferenceKeepsSlots | Crates/simulatron-salt/src/lib/codegen.rs:950-1000 | a new reference to the placeholder at the end of the code keeps all slots valid and apart |
| SaltSymbols.PatchKeepsSlots | Crates/simulatron-salt/src/lib/codegen/instruction_macros.rs:56-81 | patching an opcode, which no slot covers, keeps every slot's zeros |
| SaltSymbols.LabelsResolvedKeeps | Crates/simulatron-salt/src/lib/codegen.rs:819-831 | resolving labels changes neither slots nor what names stand for |
| SaltSymbols.SameEnvironment | Crates/simulatron-salt/src/lib/codegen.rs:927-1002 | references and implicit externals never change what a name stands for in an operand |
| SaltCodegen.CodeGenerator.ResolveOperand | Crates/simulatron-salt/src/lib/codegen.rs:917-1002 | the operand's meaning, and for a symbol a reference to the zero placeholder just pushed; the slots stay valid |
| SaltCodegen.CodeGenerator.PushRegister | Crates/simulatron-salt/src/lib/codegen/instruction_macros.rs:41-52 | a register of the demanded class is encoded, anything else makes the instruction fail with the slots intact |
| SaltCodegen.CodeGenerator.PushAddress | Crates/simulatron-salt/src/lib/codegen/instruction_macros.rs:56-81 | the address is encoded and the opcode patched to the variant for it |
| SaltCodegen.CodeGenerator.PushWord | Crates/simulatron-salt/src/lib/codegen/instruction_macros.rs:243-260 | a word value, register or symbol is encoded, and it is said which |
| SaltCodegen.CodeGenerator.PushByte | Crates/simulatron-salt/src/lib/codegen/instruction_macros.rs:378-401 | a byte value or register is encoded; symbols and larger literals are refused |
| SaltCodegen.CodeGenerator.PushSource | Crates/simulatron-salt/src/lib/codegen/instruction_macros.rs:178-218 | a source as wide as the first register is encoded; a symbol only into a word register |
| SaltCodegen.CodeGenerator.GenerateNone | Crates/simulatron-salt/src/lib/codegen/instruction_macros.rs:84-90 | exactly the mode's encoding and references are appended, or its first error is returned and the slots stay valid |
| SaltCodegen.CodeGenerator.GenerateW | Crates/simulatron-salt/src/lib/codegen/instruction_macros.rs:93-121 | the same, with a symbol's placeholder before the opcode |
| SaltCodegen.CodeGenerator.GenerateBhwfA | Crates/simulatron-salt/src/lib/codegen/instruction_macros.rs:124-142 | exactly the encoding and references of a register and an address, or the first error |
| SaltCodegen.CodeGenerator.GenerateABhwf | Crates/simulatron-salt/src/lib/codegen/instruction_macros.rs:145-163 | exactly the encoding and references of an address and a register, or the first error |
| SaltCodegen.CodeGenerator.GenerateBhwfSource | Crates/simulatron-salt/src/lib/codegen/instruction_macros.rs:166-220 | exactly the encoding and references of a register and a source of its type, or the first error |
| SaltCodegen.CodeGenerator.GenerateBhwf | Crates/simulatron-salt/src/lib/codegen/instruction_macros.rs:223-231 | exactly the encoding of any one register, or the first error |
| SaltCodegen.CodeGenerator.GenerateWAA | Crates/simulatron-salt/src/lib/codegen/instruction_macros.rs:234-322 | the opcode chosen among eight by which operands are registers, with their encodings and references |
| SaltCodegen.CodeGenerator.GenerateWAB | Crates/simulatron-salt/src/lib/codegen/instruction_macros.rs:325-416 | the same with a byte as the last operand |
| SaltCodegen.CodeGenerator.GenerateWfWf | Crates/simulatron-salt/src/lib/codegen/instruction_macros.rs:419-478 | exactly the encoding of a word and a float register in either order, or the first error |
| SaltCodegen.CodeGenerator.GenerateBhwSource | Crates/simulatron-salt/src/lib/codegen/instruction_macros.rs:481-542 | exactly the encoding and references of an integer register and a source of its type, or the first error |
| SaltCodegen.CodeGenerator.GenerateBhw | Crates/simulatron-salt/src/lib/codegen/instruction_macros.rs:545-566 | exactly the encoding of one integer register, or the first error |
| SaltCodegen.CodeGenerator.GenerateBhwB | Crates/simulatron-salt/src/lib/codegen/instruction_macros.rs:569-623 | exactly the encoding of an integer register and a byte, or the first error |
| SaltCodegen.CodeGenerator.GenerateA | Crates/simulatron-salt/src/lib/codegen/instruction_macros.rs:626-639 | exactly the encoding and references of one address, or the first error |
| SaltCodegen.CodeGenerator.CodegenInstruction | Crates/simulatron-salt/src/lib/codegen.rs:833-916 | an instruction is generated according to its mnemonic's mode; an unknown mnemonic changes nothing |
| SaltCodegen.CodeGenerator.ResolveLabels | Crates/simulatron-salt/src/lib/codegen.rs:819-831 | in any order, all labels before the instruction come to stand for the current end of the code |
| SaltCodegen.CodeGenerator.Codegen | Crates/simulatron-salt/src/lib/codegen.rs:340-350 | after the whole program the slots are valid and all labels resolved, with one error for each instruction without an encoding; without errors the code and symbol table are exactly those of the program |
| SaltProgram.ReferencesExactly | Crates/simulatron-salt/src/lib/codegen.rs:917-1002 | a symbol's references are exactly the places of the operands that name it |
| SaltProgram.LabelsAtOffsets | Crates/simulatron-salt/src/lib/codegen.rs:819-831 | a label stands for the offset of its instruction's code |
| SaltProgram.GeneratedProgramMeans | Crates/simulatron-salt/src/lib/codegen.rs:340-350 | the CPU reads back the program, every label is the start of one of its instructions, and the references are its symbol operands |
| SaltProgram.DecodedStandsForSource | Crates/simulatron-salt/src/lib/codegen.rs:1004-1151 | each instruction as decoded has the source's mnemonic; an operand that names a register is the register of that name in the CPU, and the others stand for the source's values and symbols |
| SaltEmission.SymbolStats | Crates/simulatron-salt/src/lib/codegen.rs:94-130 | whatever the iteration order, the sums are the sizes of the parts of the file to be written |
| SaltEmission.WriteSymbol | Crates/simulatron-salt/src/lib/codegen.rs:456-564 | the entry written for a symbol carries the place its data or label will have |
| SaltEmission.WriteSections | Crates/simulatron-salt/src/lib/codegen.rs:567-628 | headers and contents of the non-empty sections, with the layout assertions proved on the way |
| SaltEmission.Emit | Crates/simulatron-salt/src/lib/codegen.rs:376-631 | the file, with every section at the place computed in advance, or an error if there is no section |
| SectionFlags.SectionsClassified | Crates/simulatron-salt/src/lib/codegen.rs:578-628 | the linker takes the code for executable, not writable, and the entrypoint exactly if assembled as such; constant data for readable only; mutable data for readable and writable |
| SectionFlags.AssembledBootable | Crates/simulatron-silk/src/lib/linker.rs:191-217 | assembled files can be booted together exactly if one with code is the entrypoint and, in a read-only image, none has mutable data |
| SectionFlags.AssembledLinkable | Crates/simulatron-silk/src/lib/linker.rs:49-298 | what exactly it takes to link assembled files |
| SectionFlags.SingleFileLinks | Crates/simulatron-silk/src/lib/linker.rs:148-217 | an entrypoint file without imports links by itself, as read-only exactly if it has no mutable data |
| SectionFlags.ValidFlagsAre | Crates/simulatron-silk/src/lib/data.rs:25-30 | section flags are valid exactly if they are made of the four known ones |
| SaltLayout.FileBegins | Crates/simulatron-salt/src/lib/codegen.rs:32-33 | a file begins with SIMOBJ and version 1 |
| SaltEmission.SectionsShape | Crates/simulatron-salt/src/lib/codegen.rs:390-407 | up to three sections in the order code, read-only data, read-write data, contiguous, none of them empty |
| SaltLayout.FieldsFit | Crates/simulatron-salt/src/lib/codegen.rs:423-460 | values and references fit into 32 bits whenever the file does |
| SaltToSilk.ReadsEntry | Crates/simulatron-silk/src/lib/parser.rs:85-133 | one written symbol table entry is read back |
| SaltToSilk.ReadsTable | Crates/simulatron-silk/src/lib/parser.rs:85-133 | the written symbol table is read back, entry by entry, ending where the section headers begin |
| SaltToSilk.ReadsSections | Crates/simulatron-silk/src/lib/parser.rs:166-192 | the written sections are read back |
| SaltToSilk.ReadsLayout | Crates/simulatron-silk/src/lib/parser.rs:42-60 | the parser finds every part of the file where the assembler put it |
| SaltToSilk.ReferencesCheck | Crates/simulatron-silk/src/lib/parser.rs:284-307 | the parser's check of zero bytes never fails for generated references |
| SaltRoundTrip.RoundTrip | Crates/simulatron-silk/src/lib/parser.rs:42-192 | the parser accepts an assembled file exactly if no symbol but an external stands at its very end, and recovers the kinds, values, references and sections that were assembled |
| SaltRoundTrip.DataInPlace | Crates/simulatron-salt/src/lib/codegen.rs:466-484 | a data symbol's value indexes exactly its initialiser |
| SaltRoundTrip.RecoveredNonOverlapping | Crates/simulatron-salt/src/lib/codegen.rs:950-1000 | no two references of an assembled file overlap |
| SaltRoundTrip.AssembledFileIsValid | Crates/simulatron-silk/src/lib/linker.rs:260-277 | an assembled and accepted file meets everything the linker's theorems ask of a file, so its assertions cannot fail |
| SaltRoundTrip.NonEmptyIsAccepted | Crates/simulatron-silk/src/lib/parser.rs:270-283 | with labels inside the code and no empty data items every file is accepted |
| SaltRoundTrip.EmptyDataIsRejected | Crates/simulatron-silk/src/lib/parser.rs:278-281 | a file with an empty data item at its end can be emitted and is refused |
| Assembling.GeneratedIsEmittable | Crates/simulatron-salt/src/lib/codegen.rs:340-400 | what code generation leaves behind can be written: labels resolved, slots valid, data of the declared size |
| Assembling.GeneratedIsAccepted | Crates/simulatron-salt/src/lib/codegen.rs:340-631 | every program generated without errors and without empty data items becomes a file that the parser accepts, that holds what was assembled, and that the linker can rely on |
| LinkedCode.CodeMoves | Crates/simulatron-silk/src/lib/linker.rs:231-244 | the code of a file moves as one piece |
| LinkedCode.ReferenceIsOperand | Crates/simulatron-salt/src/lib/codegen.rs:917-1002 | every reference the linker patches in the file is a symbol operand of one instruction of its source |
| LinkedCode.CodeInImage | Crates/simulatron-silk/src/lib/linker.rs:246-292 | a byte of code that no reference covers is in the image as it was generated |
| LinkedCode.AddressInImage | Crates/simulatron-silk/src/lib/linker.rs:246-278 | at a reference the image holds the loaded address of what the symbol means |
| LinkedCode.LinkedInstructionDecodes | Crates/simulatron-vm/src/lib/cpu.rs:554-1706 | in the linked image the CPU decodes each instruction of the source at its moved place, with every symbol operand the loaded address of what it means in the program, and the next one follows |
| LinkedCode.LabelMeansInstruction | Crates/simulatron-salt/src/lib/codegen.rs:819-831 | a label's loaded address is the place where the CPU decodes the instruction it stands before |
| LinkedCode.ImportMeansInstruction | Crates/simulatron-silk/src/lib/linker.rs:114-131 | a public label imported by another file means that same place there |
| Toolchain.AssembledIsLinked | Crates/simulatron-silk/src/lib/linker.rs:49-298 | what is assembled without errors, parsed and linked meets the conditions of the theorems about linked code |
| Toolchain.EntrypointRuns | Crates/simulatron-silk/src/lib/linker.rs:219-244 | code assembled as the entrypoint begins the image, so what the CPU fetches at the image's first byte is the first instruction of its source |
| Booting.ConstantsAgree | Crates/simulatron-silk/src/lib/data.rs:32-35 | the linker's bases and sizes are those of the machine: ROM at 0x40 with 512 bytes, RAM at 0x4000, disk blocks of 4096 bytes |
| InstructionSet.DecodeWithin | Crates/simulatron-vm/src/lib/cpu.rs:448-467 | decoding an instruction depends only on its own bytes |
| Booting.InstructionFetched | Crates/simulatron-vm/src/lib/cpu.rs:554-1706 | wherever linked code is loaded, the CPU fetches every instruction of its source at the address the linker gave it |
| Booting.LabelFetched | Crates/simulatron-vm/src/lib/cpu.rs:554-1706 | the address put in place of a label is where the CPU fetches the instruction behind it |
| Booting.DiskIsLoaded | Crates/simulatron-silk/src/lib/data.rs:32-35 | a disk image read into the first bytes of RAM is at the addresses it was linked for |
| Booting.Start | Crates/simulatron-vm/src/lib/cpu.rs:345-380 | a new machine's program counter is where its ROM begins, and the ROM can be loaded from there byte by byte |
| Booting.LinkAndStart | Crates/simulatron-silk/src/lib/linker.rs:148-167 | files linked as ROM and a machine started with it: at the program counter begins the program's image |
| Booting.FirstInstruction | Crates/simulatron-vm/src/lib/cpu.rs:361-361 | the first thing such a machine fetches is the first instruction of the source assembled as the entrypoint |
| Memory.MMU.LoadPhysical8 | Crates/simulatron-vm/src/lib/mmu.rs:214-262 | each zone answers or refuses, and a refusal sends an illegal operation interrupt |
| Memory.MMU.StorePhysical8 | Crates/simulatron-vm/src/lib/mmu.rs:150-198 | one byte of the interrupt vector or of RAM changes, or only devices, or nothing but an interrupt is sent |
| Memory.MMU.LoadPhysical16 | Crates/simulatron-vm/src/lib/mmu.rs:264-268 | two bytes, big-endian, or the first fault |
| Memory.MMU.LoadPhysical32 | Crates/simulatron-vm/src/lib/mmu.rs:270-276 | four bytes, big-endian, or the first fault |
| Memory.MMU.StorePhysical16 | Crates/simulatron-vm/src/lib/mmu.rs:200-204 | two bytes, most significant first, up to the first refused; in RAM exactly the two bytes are written |
| Memory.MMU.StorePhysical32 | Crates/simulatron-vm/src/lib/mmu.rs:206-212 | four bytes, most significant first, up to the first refused; in RAM exactly the four bytes are written |
| Memory.StoredInRam | Crates/simulatron-vm/src/lib/mmu.rs:193-197 | bytes stored one after the other into RAM are all accepted, and exactly the range holds them afterwards |
| Memory.MMU.VirtualToPhysicalAddress | Crates/simulatron-vm/src/lib/mmu.rs:278-332 | the two-level walk with each fault in its order; a fault records its status and sends a page fault interrupt |
| Memory.TranslationOfTables | Crates/simulatron-vm/src/lib/mmu.rs:278-332 | translation by tables given bit by bit: which words are consulted, which bit permits what, and the literal status of the first thing that is wrong |
| Memory.MemoryMap | Crates/simulatron-vm/src/lib/mmu.rs:17-32 | which addresses can be loaded and stored, and what ROM and RAM hold there |
| Memory.StoredThenLoaded | Crates/simulatron-vm/src/lib/mmu.rs:150-262 | a byte stored in RAM or the interrupt vector is loaded back, and nothing else there or in ROM changes |
| Memory.MMU.StoreVirtual8 | Crates/simulatron-vm/src/lib/mmu.rs:107-110 | a byte goes where the write permission leads, or nothing changes |
| Memory.MMU.LoadVirtual8 | Crates/simulatron-vm/src/lib/mmu.rs:126-134 | the byte where the read or execute permission leads, or the fault |
| Memory.MMU.StoreVirtual16 | Crates/simulatron-vm/src/lib/mmu.rs:112-116 | a half is stored as a run of two single bytes, most significant first, up to the first fault, which is the outcome |
| Memory.MMU.StoreVirtual32 | Crates/simulatron-vm/src/lib/mmu.rs:118-124 | a word is stored as a run of single bytes, most significant first, up to the first fault, which is the outcome |
| Memory.MMU.LoadVirtual16 | Crates/simulatron-vm/src/lib/mmu.rs:136-140 | two bytes, each through its own translation, big-endian, or the first fault |
| Memory.MMU.LoadVirtual32 | Crates/simulatron-vm/src/lib/mmu.rs:142-148 | four bytes, each through its own translation, big-endian, or the first fault |
| Isolation.SameTablesSameMapping | Crates/simulatron-vm/src/lib/mmu.rs:278-332 | the translation of every address for every intent depends only on the bytes of the directory and of the tables in use |
| Isolation.StepKeepsMapping | Crates/simulatron-vm/src/lib/mmu.rs:107-147 | one access of a user program leaves the mapping as it is, if no writable page holds any part of the tables |
| Isolation.RunIsIsolated | Crates/simulatron-vm/src/lib/mmu.rs:107-147 | after any run the mapping is that of the start, and each byte of RAM is the last one stored there through any address or the one of the start |
| Isolation.OnlyWritableChanges | Crates/simulatron-vm/src/lib/mmu.rs:278-332 | a run changes bytes of RAM only in frames mapped writable and not copy-on-write, never in the tables |
| Isolation.LoadsThroughAliases | Crates/simulatron-vm/src/lib/mmu.rs:126-134 | a load returns the last value stored at the same place, whichever addresses were used |
| Memory.RunsJoin | Crates/simulatron-vm/src/lib/mmu.rs:107-147 | a run of accesses that begins where another ends continues it |
| Isolation.OperationsAreIsolated | Crates/simulatron-vm/src/lib/cpu.rs:1729-1763 | any sequence of stores, loads and block operations of a user program is isolated: same mapping, last stored values, changes only in writable frames outside the tables |
| Blocks.BlockUnit.BlockCopy | Crates/simulatron-vm/src/lib/cpu.rs:1729-1749 | in kernel mode bytes are loaded and stored in turn up to the first refusal, within RAM a forward overlap repeats the gap and any other copy is exact, nothing else changing; in user mode it is a run of loads and stores of the bytes loaded, and the outcome is the fault of the access that ends it |
| Blocks.BlockUnit.BlockSet | Crates/simulatron-vm/src/lib/cpu.rs:1751-1763 | in kernel mode the bytes are stored in turn up to the first refusal, within RAM exactly the range is filled; in user mode it is a run of stores up to the first fault, which is the outcome |
| Blocks.BlockUnit.BlockCmp | Crates/simulatron-vm/src/lib/cpu.rs:2027-2055 | after it the conditional jumps decide equality and the lexicographic order of the bytes read, in either mode; a fault is that of the first byte that cannot be loaded, and leaves the flags alone |
| Blocks.CopyStep | Crates/simulatron-vm/src/lib/cpu.rs:1736-1739 | the byte read at each step is the original one, or the repetition an overlap has already put there |
| Blocks.ReadPartDecides | Crates/simulatron-vm/src/lib/cpu.rs:2028-2039 | stopping at the first difference gives the order of the whole ranges |
| Blocks.CopyThenCompare | Crates/simulatron-vm/src/lib/cpu.rs:1729-1749 | after a copy between disjoint ranges a comparison gives the zero flag and nothing else |
| Interrupts.Processor.EnterInterrupt | Crates/simulatron-vm/src/lib/cpu.rs:533-551 | with room on a kernel stack in RAM it cannot fail: the frame is pushed, interrupts are masked, the handler of the vector is next |
| Interrupts.Processor.IReturn | Crates/simulatron-vm/src/lib/cpu.rs:612-648 | in user mode an illegal operation that changes nothing; in kernel mode it returns exactly if the frame can be loaded, and otherwise pushes back what it has popped, in RAM or on devices, or panics if it cannot |
| Interrupts.Processor.PushHalf | Crates/simulatron-vm/src/lib/cpu.rs:2309-2317 | the stack pointer of the current mode moves down with wrap-around, and the value is written big-endian there, physically or through translation, up to the first fault |
| Interrupts.Processor.PopWord | Crates/simulatron-vm/src/lib/cpu.rs:2320-2330 | the value at the stack pointer of the current mode, which moves up only if the load succeeds |
| Interrupts.Processor.WriteFlags | Crates/simulatron-vm/src/lib/cpu.rs:2126-2132 | bit 15 of the flags register stays clear |
| Interrupts.FrameRestores | Crates/simulatron-vm/src/lib/cpu.rs:612-648 | returning to a frame restores flags, mask, program counter and mode exactly, the mode from bit 15 |
| Interrupts.EntryKeeps | Crates/simulatron-vm/src/lib/cpu.rs:533-551 | entry leaves the frame at the stack pointer and every byte apart from it untouched |
| Interrupts.ReturnRestores | Crates/simulatron-vm/src/lib/cpu.rs:612-648 | whatever a handler does, if it leaves the stack pointer and the eight saved bytes as it found them, returning restores all five registers |
| Interrupts.InterruptIsTransparent | Crates/simulatron-vm/src/lib/cpu.rs:527-553 | entry, a handler that may do anything but write to live frames, with interrupts nested to any depth on any stacks, and return: all five registers are as before, and so is every byte that was to be kept |
| Interrupts.RunsKeep | Crates/simulatron-vm/src/lib/cpu.rs:527-553 | whatever runs, interrupts included, leaves the kept bytes and the frames of interrupts that have not returned untouched |
| Interrupts.StackAboveUntouched | Crates/simulatron-vm/src/lib/cpu.rs:527-553 | if nothing above its frame is written, an interrupt leaves the whole stack above as it was |
| InterruptLatch.InterruptLatch.TryGetNext | Crates/simulatron-vm/src/lib/cpu.rs:174-204 | the poll of the specification, returning only what the mask allows or the join command, and a panic exactly if there is nothing to return and no sender is left |
| InterruptLatch.PollDelivers | Crates/simulatron-vm/src/lib/cpu.rs:174-204 | only enabled interrupts or the join command are returned, and a poll that returns nothing leaves no enabled interrupt latched or queued |
| InterruptLatch.EnabledExactly | Crates/simulatron-vm/src/lib/cpu.rs:177-177 | a mask given bit by bit lets through exactly the interrupts whose bit is set |
| InterruptLatch.LatchedComeOutAscending | Crates/simulatron-vm/src/lib/cpu.rs:175-182 | under a fixed mask consecutive polls return exactly the enabled latched interrupts in ascending order, whatever is sent in between, and nothing is read from the channel until they are out |
| InterruptLatch.PollConserves | Crates/simulatron-vm/src/lib/cpu.rs:184-203 | a poll neither loses nor invents a message |
| InterruptLatch.MessagesAreConserved | Crates/simulatron-vm/src/lib/cpu.rs:164-204 | over any interleaving of sends and polls, for each number: sent = returned + queued + latched + merged |
| Ram.LazyRam.Write | Crates/simulatron-vm/src/lib/ram/ram_lazy.rs:37-43 | one byte changes, its page of zeros being allocated first if need be |
| Ram.LazyRam.Read | Crates/simulatron-vm/src/lib/ram/ram_lazy.rs:28-33 | the stored byte, or zero where nothing has been written, with nothing allocated |
| Ram.EagerRam.Write | Crates/simulatron-vm/src/lib/ram/ram_eager.rs:27-31 | one element of the flat memory changes |
| Ram.LazyRefinesEager | Crates/simulatron-vm/src/lib/ram/ram_lazy.rs:28-43 | over any sequence of reads and writes both kinds of RAM return the same bytes |
| Ram.NewRamsAgree | Crates/simulatron-vm/src/lib/ram/ram_eager.rs:11-31 | two new RAMs, one of each kind, return the same bytes over every sequence of reads and writes |
| Ram.AllocatedExactly | Crates/simulatron-vm/src/lib/ram/ram_lazy.rs:37-43 | a page is allocated exactly when it has been written to |
| Alu.MakeFlags | Crates/simulatron-vm/src/lib/cpu/macros.rs:18-34 | each flag bit says its own thing, and no other bit is set |
| Alu.ResultsHaveSameBits | Crates/simulatron-vm/src/lib/cpu/macros.rs:50-77 | at every width the signed and the unsigned sum, difference and product have the same bits, so the debug assertions cannot fail |
| Alu.ExactUnlessOverflow | Crates/simulatron-vm/src/lib/cpu/macros.rs:50-77 | a result is marked as overflowing exactly if it is not that of the integers |
| Alu.CompareDecides | Crates/simulatron-vm/src/lib/cpu/macros.rs:292-374 | after a comparison every conditional jump decides the corresponding relation of the integers, signed or unsigned, at every width |
| RegisterFile.Registers.BinaryOperation | Crates/simulatron-vm/src/lib/cpu/macros.rs:50-77 | the register holds bits right for both readings, other bits of its word untouched, with the flags of both |
| RegisterFile.Registers.Compare | Crates/simulatron-vm/src/lib/cpu.rs:1994-2017 | only the flags change, and they decide equality and both orders |
| RegisterFile.Registers.Write | Crates/simulatron-vm/src/lib/cpu.rs:2096-2117 | the low bits of one register are replaced and read back, and the bits above stay |
| RegisterFile.PartsOfRegister | Crates/simulatron-vm/src/lib/cpu.rs:2180-2194 | the references to a register, its half and its byte mean the same register and its low 32, 16 and 8 bits |
| RegisterFile.Registers.RotateCarryBy | Crates/simulatron-vm/src/lib/cpu/macros.rs:219-263 | register and carry are rotated together, one place at a time, with the flags of the result |
| RegisterFile.Registers.RotateThereAndBack | Crates/simulatron-vm/src/lib/cpu.rs:1986-1992 | rotating left and then right by the same amount restores the whole register and the carry flag |
| RotateCarry.Inverse | Crates/simulatron-vm/src/lib/cpu/rotcarry.rs:7-65 | the right rotation undoes the left one and the other way round |
| RotateCarry.RclTurns | Crates/simulatron-vm/src/lib/cpu/rotcarry.rs:7-32 | one left rotation moves every bit of carry and register up by one place of a ring |
| RotateCarry.RotateLeftIsRing | Crates/simulatron-vm/src/lib/cpu/macros.rs:219-263 | n left rotations turn the ring of width + 1 bits by n modulo width + 1 |
| RotateCarry.RotateBack | Crates/simulatron-vm/src/lib/cpu/macros.rs:219-263 | n rotations to the left and n to the right give back value and carry |
| SaltParser.Parser.PeekToken | Crates/simulatron-salt/src/lib/parser.rs:103-111 | the next significant token's type; only the split between buffer and stream changes |
| SaltParser.Parser.DoubleLookahead | Crates/simulatron-salt/src/lib/parser.rs:113-125 | the type of the significant token after the next one |
| SaltParser.Parser.Consume | Crates/simulatron-salt/src/lib/parser.rs:127-160 | the whitespace and the one significant token ahead become leaves of the open node, or all trailing whitespace does |
| SaltParser.Parser.ErrorConsume | Crates/simulatron-salt/src/lib/parser.rs:202-216 | one error is recorded and at most one significant token consumed |
| SaltParser.Parser.ConsumeTillNewline | Crates/simulatron-salt/src/lib/parser.rs:189-200 | it terminates, loses nothing, and makes progress unless the input ends |
| SaltParser.Parser.ParseStatement | Crates/simulatron-salt/src/lib/parser.rs:258-306 | it succeeds exactly if the tokens ahead can be read as a statement, a comment or an empty line, which becomes well-formed; otherwise a failure is recorded |
| SaltParser.Parser.ParseDataType | Crates/simulatron-salt/src/lib/parser.rs:412-445 | it succeeds exactly if a base type and bracketed lengths can be read, leaving what follows; otherwise a failure is recorded |
| SaltParser.Parser.ParseInstruction | Crates/simulatron-salt/src/lib/parser.rs:467-484 | it succeeds exactly if an opcode and operands can be read, leaving what follows; otherwise a failure is recorded |
| SaltParser.Parser.ParseArrayLiteral | Crates/simulatron-salt/src/lib/parser.rs:515-569 | it succeeds exactly if a literal, a string, or comma-separated elements in brackets can be read, leaving what follows; otherwise a failure is recorded; the recursion terminates |
| SaltParser.Parser.ParseLine | Crates/simulatron-salt/src/lib/parser.rs:246-356 | a line is parsed without error exactly if it can be read from the tokens ahead; parsing goes on only if something was consumed, a wrong token never escapes, and the panic on a comment without a newline is unreachable |
| SaltParser.Parser.ParseProgram | Crates/simulatron-salt/src/lib/parser.rs:218-244 | it terminates with nothing unread and only whitespace in the buffer, all other tokens being the leaves of one tree; there are no errors exactly if the tokens can be read as a program |
| SaltParser.Parser.Run | Crates/simulatron-salt/src/lib/parser.rs:71-83 | it succeeds exactly if the tokens are those of a tree that follows the grammar with all lines but the last ended by newlines, and yields such a tree; otherwise at least one error |
| SaltSentences.ProgramRead | Crates/simulatron-salt/src/lib/parser.rs:218-595 | the tokens of every well-formed program can be read from left to right with two tokens of lookahead |
| SaltSentences.LineRead | Crates/simulatron-salt/src/lib/parser.rs:246-356 | the same for a line that ends in a newline or at the end |
| SaltSentences.StatementRead | Crates/simulatron-salt/src/lib/parser.rs:253-306 | the same for a statement followed by a comment, a newline or nothing |
| SaltSentences.DataDeclRead | Crates/simulatron-salt/src/lib/parser.rs:384-409 | the same for a data declaration, whatever follows |
| SaltSentences.InstructionRead | Crates/simulatron-salt/src/lib/parser.rs:467-513 | the same for an instruction followed by nothing an operand starts with |
| SaltSentences.ArrayRead | Crates/simulatron-salt/src/lib/parser.rs:515-569 | the same for array literals nested to any depth |
| SaltParser.EatingLeads | Crates/simulatron-salt/src/lib/parser.rs:131-139 | eating a token moves it from the buffer to the tree and keeps the sequence of all tokens |
| SaltParser.FinishingLeads | Crates/simulatron-salt/src/lib/parser/node_builder.rs:21-43 | finishing a node, in whatever way parsing it ended, makes it one child of the node around it and keeps the sequence of all tokens |
| SaltAst.WellFormedHasChildren | Crates/simulatron-salt/src/lib/ast.rs:132-445 | a node that follows the grammar has every child its accessors unwrap and one of the alternatives they distinguish |
| SaltAst.AccessorsCannotFail | Crates/simulatron-salt/src/lib/ast.rs:132-445 | in a tree that follows the grammar no accessor of any node can fail to find its child |
| ArrayLiterals.Values | Crates/simulatron-salt/src/lib/ast.rs:324-393 | the flattened values and largest dimensions of the literal, never more values than the dimensions have room for |
| ArrayLiterals.ValuesFitDimensions | Crates/simulatron-salt/src/lib/ast.rs:366-388 | for every nesting the number of values is at most the product of the dimensions |
| ArrayLiterals.RectangularIsFull | Crates/simulatron-salt/src/lib/ast.rs:366-388 | a rectangular literal fills its dimensions completely |
| ArrayLiterals.RectangularDims | Crates/simulatron-salt/src/lib/ast.rs:366-388 | the dimensions inferred for a rectangular literal are its shape, unless one of them is zero |
| ArrayLiterals.RowMajorOrder | Crates/simulatron-salt/src/lib/ast.rs:374-376 | in a rectangular literal every element sits at its row-major offset |
| DataItems.UnifiedHasRoom | Crates/simulatron-salt/src/lib/codegen.rs:700-727 | after unification with the type's dimensions the values never exceed the product |
| DataItems.CheckedIsProduct | Crates/simulatron-salt/src/lib/codegen.rs:729-747 | the checked product is the product of the base size and all dimensions |
| DataItems.OutOfRangeExactly | Crates/simulatron-salt/src/lib/codegen.rs:729-747 | the checked multiplication fails exactly if the size of some first dimensions together is out of range, even when a later dimension is zero |
| DataItems.AddData | Crates/simulatron-salt/src/lib/codegen.rs:666-785 | an accepted initialiser has exactly the declared size, values first and zeros after; each error has its cause, and the check for an initialiser that outgrew its size is never taken |
| Declarations.Populate | Crates/simulatron-salt/src/lib/codegen.rs:633-816 | the table holds every declaration under a name of its own, each as declared, or one of them is an error: a name used twice, a label before nothing, a bad data item |
| Declarations.PopulatedIsFresh | Crates/simulatron-salt/src/lib/codegen.rs:290-296 | a table filled from declarations is what code generation starts from: no references, data of the declared size, labels before instructions |

## Left out

- Command lines, files, logging, the terminal interface, and the threads of timer, keyboard, display and disks: input and output. Devices are arbitrary bytes below RAM that may change at any time.
- The lexer and the tree library: the parser takes a list of tokens, of which it is assumed, as the lexer guarantees, that a comment is followed by a newline or by nothing. Spans and the texts of tokens are not interpreted.
- Names longer than 255 characters: emission records an error and leaves an entry half-written, and the layout assertion after it does not hold. Emission is modelled for names of 1 to 255 identifier characters and files below 2^32 bytes.
- Sorting: emission takes the names in any order that lists each once; the source sorts them.
- `sizeof` of an unknown name: an error of its own (`UnknownSizeof`, or a literal that is too big) where the source also records a message or unwraps a missing value.
- Collisions of two external symbols of one name: the source reaches `unreachable!`; the model reports them as an error that makes combining fail.
- Overlapping references in whole programs: what patching does with them is stated exactly (see the findings above), but the theorems about linked programs ask for references that do not overlap.
- Warnings about naming style or unused symbols, and the hexadecimal printer.
- The lower-casing of mnemonics (Crates/simulatron-salt/src/lib/ast.rs:295): they are taken in lower case.
- Floating-point values: opaque 32-bit patterns, of which only the width matters; float flags and float registers are not part of this model.
- The instructions ADDCARRY, SUBBORROW, NEGATE, SWAP, shifts and divisions as operations: their encoding and decoding is modelled, their arithmetic is not.
- Precise restart after a fault: the amount to rewind is only ever added to in the source, so nothing is claimed about the program counter after one.
- InterruptLatch.InterruptLatch.TryGetNext: interrupt numbers are 0 to 7 or the join command, as all senders use. The blocking poll of a paused CPU, which differs only in waiting, is not part of this model.
- Declarations.Populate: stops at the first error, where the source goes on to report more; a data item of 2^32 bytes or more is an error, where the source allocates it.
- The order among queued messages and later latched ones: the code promises none.
- DataItems.AddData: character and string literals are given as values; their escapes and characters outside ASCII are not interpreted. Padding of ragged arrays is at the end, after flattening, as in the code.
