/** The object file the assembler writes (simulatron-salt, codegen.rs): what its bytes are. */
module SaltLayout {
  import opened Bytes
  import opened ObjectData
  import opened SaltSymbols
  import SilkParser

  /** What is to be written; `order` lists the symbols' names in the order of the symbol table. */
  datatype Assembly = Assembly(symbols: Symbols, order: seq<string>, code: seq<Byte>, entrypoint: bool)

  const FILE_HEADER_LENGTH := 16
  const SYMBOL_HEADER_LENGTH := 10
  const SECTION_HEADER_LENGTH := 5

  const FLAG_ENTRYPOINT: Byte := 0x01
  const FLAG_READ: Byte := 0x04
  const FLAG_WRITE: Byte := 0x08
  const FLAG_EXECUTE: Byte := 0x10

  // ----- Names -----

  predicate ValidName(name: string) {
    1 <= |name| <= 255 && forall k :: 0 <= k < |name| ==> name[k] as int < 0x100 && SilkParser.IsNameByte(name[k] as int)
  }

  function NameBytes(name: string): (bytes: seq<Byte>)
    requires ValidName(name)
    ensures |bytes| == |name| && forall k :: 0 <= k < |bytes| ==> bytes[k] == name[k] as int
  {
    seq(|name|, k requires 0 <= k < |name| => name[k] as int)
  }

  predicate Distinct(order: seq<string>) {
    forall j, k :: 0 <= j < k < |order| ==> order[j] != order[k]
  }

  /** The order lists every symbol once. */
  predicate Enumerates(order: seq<string>, symbols: Symbols) {
    Distinct(order) && (forall k :: 0 <= k < |order| ==> order[k] in symbols) && forall name :: name in symbols ==> name in order
  }

  // ----- Data -----

  /** The initialisers of the first `n` data symbols of one kind, one after the other. */
  function DataOf(symbols: Symbols, order: seq<string>, mutable: bool, n: nat): seq<Byte>
    requires n <= |order|
  {
    if n == 0 then []
    else DataOf(symbols, order, mutable, n - 1) + InitialiserOf(symbols, order[n - 1], mutable)
  }

  function InitialiserOf(symbols: Symbols, name: string, mutable: bool): seq<Byte> {
    if name in symbols && symbols[name].DataSymbol? && symbols[name].mutable == mutable then symbols[name].initialiser else []
  }

  function AllData(a: Assembly, mutable: bool): seq<Byte> {
    DataOf(a.symbols, a.order, mutable, |a.order|)
  }

  // ----- Sections -----

  function AddSection(sections: seq<Section>, flags: Byte, data: seq<Byte>): (s: seq<Section>)
    requires Total(sections) < WORD_LIMIT && |data| < WORD_LIMIT
    ensures Total(s) == Total(sections) + |data|
  {
    if data == [] then sections else sections + [Section(flags, Total(sections), |data|, data)]
  }

  function CodeFlags(entrypoint: bool): Byte {
    FLAG_EXECUTE + if entrypoint then FLAG_ENTRYPOINT else 0
  }

  function ContentLength(a: Assembly): nat {
    |a.code| + |AllData(a, false)| + |AllData(a, true)|
  }

  function Sections(a: Assembly): (s: seq<Section>)
    requires ContentLength(a) < WORD_LIMIT
    ensures Total(s) == ContentLength(a)
  {
    AddSection(AddSection(AddSection([], CodeFlags(a.entrypoint), a.code), FLAG_READ, AllData(a, false)),
               FLAG_READ + FLAG_WRITE, AllData(a, true))
  }

  // ----- The symbol table -----

  function SymbolSize(name: string, symbol: Symbol): nat {
    if symbol.ConstantSymbol? then 0 else SYMBOL_HEADER_LENGTH + |name| + 4 * |References(symbol)|
  }

  function TableSize(symbols: Symbols, order: seq<string>, n: nat): nat
    requires n <= |order| && forall k :: 0 <= k < |order| ==> order[k] in symbols
  {
    if n == 0 then 0 else TableSize(symbols, order, n - 1) + SymbolSize(order[n - 1], symbols[order[n - 1]])
  }

  function EntryCount(symbols: Symbols, order: seq<string>, n: nat): (count: nat)
    requires n <= |order| && forall k :: 0 <= k < |order| ==> order[k] in symbols
    ensures SYMBOL_HEADER_LENGTH * count <= TableSize(symbols, order, n)
  {
    if n == 0 then 0
    else EntryCount(symbols, order, n - 1) + if symbols[order[n - 1]].ConstantSymbol? then 0 else 1
  }

  /** Where the first section starts in the file. */
  function InstructionBase(a: Assembly): nat
    requires Enumerates(a.order, a.symbols) && ContentLength(a) < WORD_LIMIT
  {
    FILE_HEADER_LENGTH + TableSize(a.symbols, a.order, |a.order|) + SECTION_HEADER_LENGTH * |Sections(a)|
  }

  /** What the emitter needs: what code generation leaves behind, and a file below 2^32 bytes. */
  ghost predicate Emittable(a: Assembly) {
    && Enumerates(a.order, a.symbols)
    && (forall name :: name in a.symbols ==> SymbolReady(name, a.symbols[name], |a.code|))
    && SlotsValid(a.symbols, a.code)
    && ContentLength(a) < WORD_LIMIT
    && InstructionBase(a) + ContentLength(a) < WORD_LIMIT
  }

  ghost predicate SymbolReady(name: string, symbol: Symbol, codeLength: nat) {
    match symbol
    case ConstantSymbol(_, _) => true
    case DataSymbol(_, _, size, initialiser, _) => ValidName(name) && size == |initialiser|
    case LabelSymbol(_, AtOffset(offset), _) => ValidName(name) && offset <= codeLength
    case LabelSymbol(_, Before(_), _) => false
    case ExternalSymbol(_) => ValidName(name)
  }

  function TypeByte(symbol: Symbol): Byte {
    match symbol
    case ExternalSymbol(_) => 0x45
    case _ => if symbol.isPublic then 0x50 else 0x49
  }

  /** Where a symbol stands, counted from the first section; externals stand nowhere. */
  function ValueOf(a: Assembly, k: nat): nat
    requires k < |a.order| && a.order[k] in a.symbols
  {
    match a.symbols[a.order[k]]
    case DataSymbol(_, mutable, _, _, _) =>
      if mutable then |a.code| + |AllData(a, false)| + |DataOf(a.symbols, a.order, true, k)|
      else |a.code| + |DataOf(a.symbols, a.order, false, k)|
    case LabelSymbol(_, AtOffset(offset), _) => offset
    case _ => 0
  }

  function FieldOf(a: Assembly, k: nat): nat
    requires k < |a.order| && Enumerates(a.order, a.symbols) && ContentLength(a) < WORD_LIMIT
  {
    if a.symbols[a.order[k]].ExternalSymbol? then 0 else InstructionBase(a) + ValueOf(a, k)
  }

  /** The references from the start of the file. */
  function ReferenceBytes(references: seq<nat>, base: nat, n: nat): (bytes: seq<Byte>)
    requires n <= |references| && forall k :: 0 <= k < |references| ==> base + references[k] < WORD_LIMIT
    ensures |bytes| == 4 * n
  {
    if n == 0 then [] else ReferenceBytes(references, base, n - 1) + Be32(base + references[n - 1])
  }

  function EntryBytes(typeByte: Byte, value: Word, name: string, references: seq<nat>, base: nat): (bytes: seq<Byte>)
    requires ValidName(name) && |references| < WORD_LIMIT
    requires forall k :: 0 <= k < |references| ==> base + references[k] < WORD_LIMIT
    ensures |bytes| == SYMBOL_HEADER_LENGTH + |name| + 4 * |references|
  {
    [typeByte] + (Be32(value) + ([|name|] + (NameBytes(name) + (Be32(|references|) + ReferenceBytes(references, base, |references|)))))
  }

  // ----- Bounds -----

  lemma {:induction false} DataGrows(symbols: Symbols, order: seq<string>, mutable: bool, k: nat, n: nat)
    requires k <= n <= |order|
    ensures |DataOf(symbols, order, mutable, k)| <= |DataOf(symbols, order, mutable, n)|
    decreases n
  {
    if k < n {
      DataGrows(symbols, order, mutable, k, n - 1);
    }
  }

  lemma {:induction false} TableGrows(symbols: Symbols, order: seq<string>, k: nat, n: nat)
    requires k <= n <= |order| && forall i :: 0 <= i < |order| ==> order[i] in symbols
    ensures TableSize(symbols, order, k) <= TableSize(symbols, order, n)
    decreases n
  {
    if k < n {
      TableGrows(symbols, order, k, n - 1);
    }
  }

  /** Every field of a symbol table entry fits into 32 bits. */
  lemma FieldsFit(a: Assembly, k: nat)
    requires Emittable(a) && k < |a.order|
    ensures ValueOf(a, k) <= ContentLength(a) && FieldOf(a, k) < WORD_LIMIT
    ensures |References(a.symbols[a.order[k]])| < WORD_LIMIT
    ensures forall i :: 0 <= i < |References(a.symbols[a.order[k]])| ==>
      InstructionBase(a) + References(a.symbols[a.order[k]])[i] < WORD_LIMIT
  {
    hide Sections;
    var name := a.order[k];
    assert SymbolReady(name, a.symbols[name], |a.code|);
    DataGrows(a.symbols, a.order, true, k, |a.order|);
    DataGrows(a.symbols, a.order, false, k, |a.order|);
    TableGrows(a.symbols, a.order, k + 1, |a.order|);
    forall i | 0 <= i < |References(a.symbols[name])|
      ensures InstructionBase(a) + References(a.symbols[name])[i] < WORD_LIMIT
    {
      assert HasSlot(a.symbols, name, i) && ZeroAt(a.code, SlotAt(a.symbols, name, i));
    }
  }

  /** The first `n` symbol table entries. */
  function TableBytes(a: Assembly, n: nat): (bytes: seq<Byte>)
    requires Emittable(a) && n <= |a.order|
    ensures |bytes| == TableSize(a.symbols, a.order, n)
  {
    if n == 0 then [] else TableBytes(a, n - 1) + SymbolBytes(a, n - 1)
  }

  function SymbolBytes(a: Assembly, k: nat): (bytes: seq<Byte>)
    requires Emittable(a) && k < |a.order|
    ensures |bytes| == SymbolSize(a.order[k], a.symbols[a.order[k]])
  {
    var name := a.order[k];
    var symbol := a.symbols[name];
    if symbol.ConstantSymbol? then []
    else
      FieldsFit(a, k);
      assert SymbolReady(name, symbol, |a.code|);
      EntryBytes(TypeByte(symbol), FieldOf(a, k), name, References(symbol), InstructionBase(a))
  }

  function HeaderBytes(sections: seq<Section>, n: nat): (bytes: seq<Byte>)
    requires n <= |sections|
    ensures |bytes| == SECTION_HEADER_LENGTH * n
  {
    if n == 0 then [] else HeaderBytes(sections, n - 1) + ([sections[n - 1].flags] + Be32(sections[n - 1].length))
  }

  function CountBytes(a: Assembly): (bytes: seq<Byte>)
    requires Emittable(a)
    ensures |bytes| == 8
  {
    Be32(EntryCount(a.symbols, a.order, |a.order|)) + Be32(|Sections(a)|)
  }

  /** The whole file. */
  function FileBytes(a: Assembly): (bytes: seq<Byte>)
    requires Emittable(a)
    ensures |bytes| == InstructionBase(a) + |Flatten(Sections(a))|
  {
    SilkParser.MAGIC + (Be16(SilkParser.ABI_VERSION) + (CountBytes(a)
      + (TableBytes(a, |a.order|) + (HeaderBytes(Sections(a), |Sections(a)|) + Flatten(Sections(a))))))
  }

  /** A file begins with the letters SIMOBJ and the version, most significant byte first. */
  lemma FileBegins(a: Assembly)
    requires Emittable(a)
    ensures |FileBytes(a)| >= 8
    ensures FileBytes(a)[..8] == ['S' as int, 'I' as int, 'M' as int, 'O' as int, 'B' as int, 'J' as int, 0, 1]
  {
    hide HeaderBytes, TableBytes, CountBytes, Sections, InstructionBase;
    var rest := CountBytes(a) + (TableBytes(a, |a.order|) + (HeaderBytes(Sections(a), |Sections(a)|) + Flatten(Sections(a))));
    assert FileBytes(a) == SilkParser.MAGIC + (Be16(SilkParser.ABI_VERSION) + rest);
    assert Be16(SilkParser.ABI_VERSION) == [0, 1];
  }
}
