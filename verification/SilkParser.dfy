/** Reading an object file (simulatron-silk, parser.rs). */
module SilkParser {
  import opened Bytes
  import opened Wrappers
  import opened ObjectData
  import opened SymbolTables

  datatype ParseError =
    | UnexpectedEof
    | InvalidMagic
    | UnsupportedVersion
    | InvalidSymbolType
    | EmptyName
    | InvalidName
    | DuplicateSymbol(name: string)
    | AddressTooSmall
    | AddressTooLarge
    | NonZeroTarget
    | SplitSlot  // the source indexes past the end of the section and panics

  datatype SectionHeader = SectionHeader(flags: Byte, length: Word)

  const MAGIC: seq<Byte> := [0x53, 0x49, 0x4D, 0x4F, 0x42, 0x4A]
  const ABI_VERSION := 1

  function SymbolTypeOf(b: Byte): Option<SymbolType> {
    if b == 0x49 then Some(Internal)
    else if b == 0x50 then Some(Public)
    else if b == 0x45 then Some(External)
    else None
  }

  /** The letters for the kinds of symbols. */
  lemma SymbolLetters()
    ensures SymbolTypeOf('I' as int) == Some(Internal) && SymbolTypeOf('P' as int) == Some(Public)
    ensures SymbolTypeOf('E' as int) == Some(External)
  {}

  // ----- What the bytes say -----

  function U8At(source: seq<Byte>, p: nat): Result<Byte, ParseError> {
    if p + 1 <= |source| then Ok(source[p]) else Err(UnexpectedEof)
  }

  function U16At(source: seq<Byte>, p: nat): Result<Half, ParseError> {
    if p + 2 <= |source| then Ok(FromBe16(source[p..p + 2])) else Err(UnexpectedEof)
  }

  function U32At(source: seq<Byte>, p: nat): Result<Word, ParseError> {
    if p + 4 <= |source| then Ok(FromBe32(source[p..p + 4])) else Err(UnexpectedEof)
  }

  function BufferAt(source: seq<Byte>, p: nat, n: nat): Result<seq<Byte>, ParseError> {
    if p + n <= |source| then Ok(source[p..p + n]) else Err(UnexpectedEof)
  }

  predicate IsNameByte(b: Byte) {
    48 <= b <= 57 || 65 <= b <= 90 || b == 95 || 97 <= b <= 122
  }

  /** Names are made of ASCII letters, digits and underscores. */
  lemma NameBytesAre(c: char)
    requires c as int < 0x100
    ensures IsNameByte(c as int) <==> '0' <= c <= '9' || 'A' <= c <= 'Z' || c == '_' || 'a' <= c <= 'z'
  {}

  function NameOf(bytes: seq<Byte>): (name: string)
    requires forall k :: 0 <= k < |bytes| ==> IsNameByte(bytes[k])
    ensures |name| == |bytes|
    ensures forall k :: 0 <= k < |bytes| ==> name[k] as int == bytes[k]
  {
    seq(|bytes|, k requires 0 <= k < |bytes| => bytes[k] as char)
  }

  function ValidatedName(bytes: seq<Byte>): Result<string, ParseError> {
    if forall k :: 0 <= k < |bytes| ==> IsNameByte(bytes[k]) then Ok(NameOf(bytes)) else Err(InvalidName)
  }

  function WordsAt(source: seq<Byte>, p: nat, n: nat): (r: Result<seq<Word>, ParseError>)
    ensures r.Ok? ==> |r.value| == n && (n > 0 ==> p + 4 * n <= |source|)
  {
    if n == 0 then Ok([])
    else
      var words :- WordsAt(source, p, n - 1);
      var word :- U32At(source, p + 4 * (n - 1));
      Ok(words + [word])
  }

  datatype RawSymbol = RawSymbol(name: string, entry: SymbolTableEntry, next: nat)

  /** One symbol table entry, given the names already seen. */
  function SymbolAt(source: seq<Byte>, p: nat, seen: set<string>): Result<RawSymbol, ParseError> {
    var typeByte :- U8At(source, p);
    if SymbolTypeOf(typeByte).None? then Err(InvalidSymbolType) else
    var symbolType := SymbolTypeOf(typeByte).value;
    var value :- U32At(source, p + 1);
    var length :- U8At(source, p + 5);
    if length == 0 then Err(EmptyName) else
    var bytes :- BufferAt(source, p + 6, length);
    var name :- ValidatedName(bytes);
    if name in seen then Err(DuplicateSymbol(name)) else
    var count :- U32At(source, p + 6 + length);
    var references :- WordsAt(source, p + 10 + length, count);
    Ok(RawSymbol(name,
                 SymbolTableEntry(symbolType, if symbolType.External? then None else Some(value), references),
                 p + 10 + length + 4 * count))
  }

  datatype RawTable = RawTable(symbols: SymbolTable, next: nat)

  function TableAt(source: seq<Byte>, p: nat, n: nat, symbols: SymbolTable): (r: Result<RawTable, ParseError>)
    ensures r.Ok? && p <= |source| ==> r.value.next <= |source|
    decreases n
  {
    if n == 0 then Ok(RawTable(symbols, p))
    else
      var symbol :- SymbolAt(source, p, symbols.Keys);
      TableAt(source, symbol.next, n - 1, symbols[symbol.name := symbol.entry])
  }

  function HeadersAt(source: seq<Byte>, p: nat, n: nat): (r: Result<seq<SectionHeader>, ParseError>)
    ensures r.Ok? ==> |r.value| == n
    ensures r.Ok? && n > 0 ==> p + 5 * n <= |source|
  {
    if n == 0 then Ok([])
    else
      var headers :- HeadersAt(source, p, n - 1);
      var flags :- U8At(source, p + 5 * (n - 1));
      var length :- U32At(source, p + 5 * (n - 1) + 1);
      Ok(headers + [SectionHeader(flags, length)])
  }

  /** The first `n` sections, read from `p` on. */
  function SectionsAt(source: seq<Byte>, p: nat, headers: seq<SectionHeader>, n: nat): (r: Result<seq<Section>, ParseError>)
    requires n <= |headers| && |source| < WORD_LIMIT
    ensures r.Ok? ==> |r.value| == n && p + Total(r.value) <= |source| + if n == 0 then p else 0
  {
    if n == 0 then Ok([])
    else
      var sections :- SectionsAt(source, p, headers, n - 1);
      var header := headers[n - 1];
      var data :- BufferAt(source, p + Total(sections), header.length);
      Ok(sections + [Section(header.flags, Total(sections), header.length, data)])
  }

  // ----- Checking symbols against the sections -----

  function TrySub(x: Word, y: Word): Result<Word, ParseError> {
    if x < y then Err(AddressTooSmall) else Ok(x - y)
  }

  /** The last of the first `n` sections that contains `address`. */
  function SectionIndex(sections: seq<Section>, n: nat, address: Word): (index: Option<nat>)
    requires n <= |sections|
    ensures index.Some? ==> index.value < n && Contains(sections[index.value], address)
    ensures index.None? ==> forall i :: 0 <= i < n ==> !Contains(sections[i], address)
  {
    if n == 0 then None
    else if CompareAddress(sections[n - 1], address) == Equal then Some(n - 1)
    else SectionIndex(sections, n - 1, address)
  }

  /** The first `n` bytes from `offset` on exist and are zero. */
  function ZerosAt(data: seq<Byte>, offset: nat, n: nat): (r: Result<(), ParseError>)
    ensures r.Ok? <==>
      n == 0 || (offset + n <= |data| && forall k :: offset <= k < offset + n ==> data[k] == 0)
  {
    if n == 0 then Ok(())
    else
      var _ :- ZerosAt(data, offset, n - 1);
      if offset + n > |data| then Err(SplitSlot)
      else if data[offset + n - 1] != 0 then Err(NonZeroTarget)
      else Ok(())
  }

  function CheckReference(reference: Word, start: Word, sections: seq<Section>): Result<Word, ParseError> {
    var address :- TrySub(reference, start);
    var index := SectionIndex(sections, |sections|, address);
    if index.None? then Err(AddressTooLarge) else
    var _ :- ZerosAt(sections[index.value].data, address - sections[index.value].start, 4);
    Ok(address)
  }

  /** The first `n` references, relative to the start of the sections. */
  function CheckReferences(references: seq<Word>, n: nat, start: Word, sections: seq<Section>)
    : (r: Result<seq<Word>, ParseError>)
    requires n <= |references|
    ensures r.Ok? ==> |r.value| == n
    ensures r.Ok? ==> forall k :: 0 <= k < n ==> CheckReference(references[k], start, sections) == Ok(r.value[k])
    ensures (forall k :: 0 <= k < n ==> CheckReference(references[k], start, sections).Ok?) ==> r.Ok?
  {
    if n == 0 then Ok([])
    else
      var checked :- CheckReferences(references, n - 1, start, sections);
      var reference :- CheckReference(references[n - 1], start, sections);
      Ok(checked + [reference])
  }

  function CheckValue(value: Option<Word>, start: Word, sections: seq<Section>): Result<Option<Word>, ParseError> {
    if value.None? then Ok(None)
    else
      var relocated :- TrySub(value.value, start);
      if relocated < Total(sections) then Ok(Some(relocated)) else Err(AddressTooLarge)
  }

  function CheckSymbol(entry: SymbolTableEntry, start: Word, sections: seq<Section>): Result<SymbolTableEntry, ParseError> {
    var value :- CheckValue(entry.value, start, sections);
    var references :- CheckReferences(entry.references, |entry.references|, start, sections);
    Ok(SymbolTableEntry(entry.symbolType, value, references))
  }

  // ----- Whole files -----

  datatype RawFile = RawFile(symbols: SymbolTable, start: nat, sections: seq<Section>)

  /** The numbers of symbols and sections. */
  datatype Counts = Counts(symbols: nat, sections: nat)

  function HeaderAt(source: seq<Byte>): (r: Result<Counts, ParseError>)
    ensures r.Ok? ==> |source| >= 16
  {
    var magic :- BufferAt(source, 0, 6);
    if magic != MAGIC then Err(InvalidMagic) else
    var version :- U16At(source, 6);
    if version != ABI_VERSION then Err(UnsupportedVersion) else
    var symbols :- U32At(source, 8);
    var sections :- U32At(source, 12);
    Ok(Counts(symbols, sections))
  }

  function BodyAt(source: seq<Byte>, p: nat, counts: Counts): (r: Result<RawFile, ParseError>)
    requires |source| < WORD_LIMIT && p <= |source|
    ensures r.Ok? ==> r.value.start <= |source|
  {
    var table :- TableAt(source, p, counts.symbols, map[]);
    var headers :- HeadersAt(source, table.next, counts.sections);
    var start := table.next + 5 * counts.sections;
    var sections :- SectionsAt(source, start, headers, counts.sections);
    Ok(RawFile(table.symbols, start, sections))
  }

  /** Everything up to the symbol checks. */
  function Layout(source: seq<Byte>): (r: Result<RawFile, ParseError>)
    requires |source| < WORD_LIMIT
    ensures r.Ok? ==> r.value.start <= |source|
  {
    var counts :- HeaderAt(source);
    BodyAt(source, 16, counts)
  }

  ghost predicate AllChecked(raw: RawFile)
    requires raw.start < WORD_LIMIT
  {
    forall name :: name in raw.symbols ==> CheckSymbol(raw.symbols[name], raw.start, raw.sections).Ok?
  }

  ghost function Checked(raw: RawFile): ObjectFile
    requires raw.start < WORD_LIMIT && AllChecked(raw)
  {
    ObjectFile(map name | name in raw.symbols :: CheckSymbol(raw.symbols[name], raw.start, raw.sections).value,
               raw.sections)
  }

  // ----- What is accepted, and what panics -----

  /** The reference names four zero bytes of one section. */
  ghost predicate ReferenceFits(reference: Word, start: Word, sections: seq<Section>) {
    start <= reference && InSection(sections, reference - start) && ZeroSlot(Flatten(sections), reference - start)
  }

  /** The slot begins inside section `i` and ends behind it, and from its beginning to the section's end
      there are only zeros. */
  ghost predicate SplitsSection(sections: seq<Section>, i: nat, address: int) {
    && i < |sections| && Contains(sections[i], address) && !Contains(sections[i], address + 3)
    && forall k :: address - sections[i].start <= k < |sections[i].data| ==> sections[i].data[k] == 0
  }

  ghost predicate SplitsSome(sections: seq<Section>, address: int) {
    exists i: nat :: SplitsSection(sections, i, address)
  }

  /** Checking the reference reads behind the end of a section. */
  ghost predicate ReferenceSplits(reference: Word, start: Word, sections: seq<Section>) {
    start <= reference && SplitsSome(sections, reference - start)
  }

  predicate Panics<T>(r: Result<T, ParseError>) {
    r.Err? && r.error == SplitSlot
  }

  lemma {:induction false} ZerosAtExactly(data: seq<Byte>, offset: nat, n: nat)
    ensures Panics(ZerosAt(data, offset, n)) <==>
      n > 0 && offset + n > |data| && forall k :: offset <= k < |data| ==> data[k] == 0
    ensures ZerosAt(data, offset, n).Ok? || Panics(ZerosAt(data, offset, n)) || ZerosAt(data, offset, n) == Err(NonZeroTarget)
  {
    if n > 0 {
      ZerosAtExactly(data, offset, n - 1);
    }
  }

  /** Below the total there is a section, and nowhere else. */
  lemma IndexExactly(sections: seq<Section>, address: Word)
    requires Contiguous(sections)
    ensures SectionIndex(sections, |sections|, address).Some? <==> address < Total(sections)
  {
    var found := SectionIndex(sections, |sections|, address);
    if found.Some? {
      SectionsAreOrdered(sections, found.value, |sections|);
    } else if address < Total(sections) {
      var i := EveryAddressHasSection(sections, |sections|, address);
      assert false;
    }
  }

  lemma ZeroSlotInSection(sections: seq<Section>, i: nat, address: Word)
    requires Contiguous(sections) && i < |sections| && Contains(sections[i], address) && Contains(sections[i], address + 3)
    ensures var data, offset := sections[i].data, address - sections[i].start;
      && offset + 4 <= |data|
      && (ZeroSlot(Flatten(sections), address) <==>
            data[offset] == 0 && data[offset + 1] == 0 && data[offset + 2] == 0 && data[offset + 3] == 0)
  {
    var k, flat := address - sections[i].start, Flatten(sections);
    assert Placed(sections, i);
    JoinedAt(sections, |sections|, i, k);
    JoinedAt(sections, |sections|, i, k + 1);
    JoinedAt(sections, |sections|, i, k + 2);
    JoinedAt(sections, |sections|, i, k + 3);
    assert flat[address..address + 4] == [flat[address], flat[address + 1], flat[address + 2], flat[address + 3]];
  }

  /** The outcome of checking a reference, from the bytes: a slot of zeros in one section is accepted, and
      one that runs out of its section panics unless a byte before the end is not zero. */
  lemma ReferenceExactly(reference: Word, start: Word, sections: seq<Section>)
    requires Contiguous(sections)
    ensures var r := CheckReference(reference, start, sections);
      && (r.Ok? <==> ReferenceFits(reference, start, sections))
      && (r.Ok? ==> r.value == reference - start)
      && (Panics(r) <==> ReferenceSplits(reference, start, sections))
      && (r == Err(AddressTooSmall) <==> reference < start)
      && (r == Err(AddressTooLarge) <==> reference - start >= Total(sections))
      && (r.Err? ==> r.error in {AddressTooSmall, AddressTooLarge, NonZeroTarget, SplitSlot})
  {
    if start <= reference {
      var address: Word := reference - start;
      IndexExactly(sections, address);
      if address < Total(sections) {
        var i := SectionIndex(sections, |sections|, address).value;
        hide Flatten;
        FoundExactly(sections, i, address);
      } else {
        OutsideNeither(sections, address);
      }
    }
  }

  lemma FoundExactly(sections: seq<Section>, i: nat, address: Word)
    requires Contiguous(sections) && i < |sections| && Contains(sections[i], address)
    ensures var r := ZerosAt(sections[i].data, address - sections[i].start, 4);
      && (r.Ok? <==> InSection(sections, address) && ZeroSlot(Flatten(sections), address))
      && (Panics(r) <==> SplitsSome(sections, address))
      && (r.Err? ==> r.error in {NonZeroTarget, SplitSlot})
  {
    hide Flatten, ZeroSlot;
    ZerosAtExactly(sections[i].data, address - sections[i].start, 4);
    assert Placed(sections, i);
    forall j: nat | j < |sections| && Contains(sections[j], address) ensures j == i {
      ContainingSectionIsUnique(sections, i, j, address);
    }
    assert InSection(sections, address) <==> Contains(sections[i], address + 3);
    assert SplitsSome(sections, address) <==> SplitsSection(sections, i, address);
    if Contains(sections[i], address + 3) {
      ZeroSlotInSection(sections, i, address);
    }
  }

  lemma OutsideNeither(sections: seq<Section>, address: Word)
    requires Contiguous(sections) && address >= Total(sections)
    ensures !InSection(sections, address) && !SplitsSome(sections, address)
  {
    forall i: nat | i < |sections| ensures !Contains(sections[i], address) {
      SectionsAreOrdered(sections, i, |sections|);
    }
  }

  // ----- Symbols -----

  ghost predicate ValueFits(value: Option<Word>, start: Word, sections: seq<Section>) {
    value.Some? ==> start <= value.value < start + Total(sections)
  }

  ghost predicate SymbolFits(entry: SymbolTableEntry, start: Word, sections: seq<Section>) {
    && ValueFits(entry.value, start, sections)
    && forall k :: 0 <= k < |entry.references| ==> ReferenceFits(entry.references[k], start, sections)
  }

  /** Reference `k` splits, and those before it are in order. */
  ghost predicate FirstToSplit(references: seq<Word>, k: nat, start: Word, sections: seq<Section>) {
    && k < |references| && ReferenceSplits(references[k], start, sections)
    && forall j :: 0 <= j < k ==> ReferenceFits(references[j], start, sections)
  }

  /** The value is in order, and the first reference that is not splits. */
  ghost predicate SymbolSplits(entry: SymbolTableEntry, start: Word, sections: seq<Section>) {
    && ValueFits(entry.value, start, sections)
    && exists k: nat :: FirstToSplit(entry.references, k, start, sections)
  }

  lemma {:induction false} ReferencesExactly(references: seq<Word>, n: nat, start: Word, sections: seq<Section>)
    requires Contiguous(sections) && n <= |references|
    ensures var r := CheckReferences(references, n, start, sections);
      && (r.Ok? <==> forall k :: 0 <= k < n ==> ReferenceFits(references[k], start, sections))
      && (Panics(r) <==> exists k: nat :: k < n && FirstToSplit(references, k, start, sections))
  {
    hide ReferenceFits, ReferenceSplits, CheckReference;
    if n > 0 {
      ReferencesExactly(references, n - 1, start, sections);
      ReferenceExactly(references[n - 1], start, sections);
      NotBoth(references, start, sections);
      if CheckReferences(references, n - 1, start, sections).Ok? && Panics(CheckReference(references[n - 1], start, sections)) {
        assert ReferenceSplits(references[n - 1], start, sections);
        assert FirstToSplit(references, n - 1, start, sections);
      }
    }
  }

  lemma NotBoth(references: seq<Word>, start: Word, sections: seq<Section>)
    requires Contiguous(sections)
    ensures forall k :: 0 <= k < |references| && ReferenceSplits(references[k], start, sections) ==>
      !ReferenceFits(references[k], start, sections)
  {
    hide ReferenceFits, ReferenceSplits, CheckReference;
    forall k | 0 <= k < |references| && ReferenceSplits(references[k], start, sections)
      ensures !ReferenceFits(references[k], start, sections)
    {
      ReferenceExactly(references[k], start, sections);
    }
  }

  /** A symbol is accepted exactly if its value and all its references are in order, and panics exactly if
      the value is and the first reference that is not splits. */
  lemma SymbolExactly(entry: SymbolTableEntry, start: Word, sections: seq<Section>)
    requires Contiguous(sections)
    ensures CheckSymbol(entry, start, sections).Ok? <==> SymbolFits(entry, start, sections)
    ensures Panics(CheckSymbol(entry, start, sections)) <==> SymbolSplits(entry, start, sections)
  {
    hide ReferenceFits, CheckReferences, FirstToSplit;
    ReferencesExactly(entry.references, |entry.references|, start, sections);
    OnlyExisting(entry.references, start, sections);
  }

  lemma OnlyExisting(references: seq<Word>, start: Word, sections: seq<Section>)
    ensures forall k: nat :: FirstToSplit(references, k, start, sections) ==> k < |references|
  {}

  // ----- Every accepted file is valid -----

  lemma {:induction false} SectionsContiguous(source: seq<Byte>, p: nat, headers: seq<SectionHeader>, n: nat)
    requires n <= |headers| && |source| < WORD_LIMIT && SectionsAt(source, p, headers, n).Ok?
    ensures Contiguous(SectionsAt(source, p, headers, n).value)
    ensures var sections := SectionsAt(source, p, headers, n).value;
      n > 0 ==> Flatten(sections) == source[p..p + Total(sections)]
  {
    if n > 0 {
      var before := SectionsAt(source, p, headers, n - 1).value;
      var after := SectionsAt(source, p, headers, n).value;
      SectionsContiguous(source, p, headers, n - 1);
      forall i | 0 <= i < n ensures Placed(after, i) {
        if i < n - 1 {
          assert Placed(before, i);
        }
      }
      JoinedSameData(after, before, n - 1);
    }
  }

  lemma CheckedReferenceValid(reference: Word, start: Word, sections: seq<Section>)
    requires Contiguous(sections) && CheckReference(reference, start, sections).Ok?
    ensures var r := CheckReference(reference, start, sections).value;
      r == reference - start && InSection(sections, r) && ZeroSlot(Flatten(sections), r)
  {
    var r: int := reference - start;
    var i := SectionIndex(sections, |sections|, r).value;
    var k := r - sections[i].start;
    assert Placed(sections, i);
    assert Contains(sections[i], r) && Contains(sections[i], r + 3);
    JoinedAt(sections, |sections|, i, k);
    JoinedAt(sections, |sections|, i, k + 1);
    JoinedAt(sections, |sections|, i, k + 2);
    JoinedAt(sections, |sections|, i, k + 3);
    assert Flatten(sections)[r..r + 4]
        == [Flatten(sections)[r], Flatten(sections)[r + 1], Flatten(sections)[r + 2], Flatten(sections)[r + 3]];
  }

  lemma CheckedSymbolValid(entry: SymbolTableEntry, start: Word, sections: seq<Section>)
    requires Contiguous(sections) && CheckSymbol(entry, start, sections).Ok?
    requires entry.symbolType.External? <==> entry.value.None?
    ensures ValidEntry(CheckSymbol(entry, start, sections).value, sections)
  {
    var checked := CheckSymbol(entry, start, sections).value;
    forall k | 0 <= k < |checked.references|
      ensures InSection(sections, checked.references[k]) && ZeroSlot(Flatten(sections), checked.references[k])
    {
      CheckedReferenceValid(entry.references[k], start, sections);
    }
  }

  ghost predicate ValuesMatchTypes(symbols: SymbolTable) {
    forall name :: name in symbols ==> (symbols[name].symbolType.External? <==> symbols[name].value.None?)
  }

  lemma {:induction false} TableTyped(source: seq<Byte>, p: nat, n: nat, symbols: SymbolTable)
    requires TableAt(source, p, n, symbols).Ok?
    requires ValuesMatchTypes(symbols)
    ensures ValuesMatchTypes(TableAt(source, p, n, symbols).value.symbols)
    decreases n
  {
    if n > 0 {
      var symbol := SymbolAt(source, p, symbols.Keys).value;
      TableTyped(source, symbol.next, n - 1, symbols[symbol.name := symbol.entry]);
    }
  }

  lemma NoSymbolsTyped()
    ensures ValuesMatchTypes(map[])
  {}

  lemma BodyValid(source: seq<Byte>, p: nat, counts: Counts)
    requires |source| < WORD_LIMIT && p <= |source| && BodyAt(source, p, counts).Ok?
    ensures Contiguous(BodyAt(source, p, counts).value.sections)
    ensures ValuesMatchTypes(BodyAt(source, p, counts).value.symbols)
  {
    hide TableAt, HeadersAt, SectionsAt, ValuesMatchTypes, Contiguous;
    var raw := BodyAt(source, p, counts).value;
    var table := TableAt(source, p, counts.symbols, map[]).value;
    var headers := HeadersAt(source, table.next, counts.sections).value;
    NoSymbolsTyped();
    TableTyped(source, p, counts.symbols, map[]);
    SectionsContiguous(source, raw.start, headers, counts.sections);
  }

  lemma CheckedValid(raw: RawFile)
    requires raw.start < WORD_LIMIT && Contiguous(raw.sections) && ValuesMatchTypes(raw.symbols) && AllChecked(raw)
    ensures ValidObject(Checked(raw))
  {
    forall name | name in raw.symbols
      ensures ValidEntry(CheckSymbol(raw.symbols[name], raw.start, raw.sections).value, raw.sections)
    {
      CheckedSymbolValid(raw.symbols[name], raw.start, raw.sections);
    }
  }

  /** A file the parser accepts is a valid object file. */
  lemma AcceptedIsValid(source: seq<Byte>, r: Result<ObjectFile, ParseError>)
    requires |source| < WORD_LIMIT && Parses(source, r) && r.Ok?
    ensures ValidObject(r.value)
  {
    BodyValid(source, 16, HeaderAt(source).value);
    CheckedValid(Layout(source).value);
  }

  // ----- The parser -----

  /** The result of parsing: the bytes decide between success and failure, and the object file. Only
      which of several bad symbols is reported depends on the order they are visited in. */
  ghost predicate Parses(source: seq<Byte>, r: Result<ObjectFile, ParseError>)
    requires |source| < WORD_LIMIT
  {
    match Layout(source)
    case Err(error) => r == Err(error)
    case Ok(raw) =>
      if AllChecked(raw) then r == Ok(Checked(raw))
      else r.Err? && exists name :: name in raw.symbols && FailsCheck(raw, name, r.error)
  }

  ghost predicate FailsCheck(raw: RawFile, name: string, error: ParseError)
    requires raw.start < WORD_LIMIT && name in raw.symbols
  {
    CheckSymbol(raw.symbols[name], raw.start, raw.sections) == Err(error)
  }

  // ----- The order of visiting symbols -----

  /** The first error met when symbols are checked in the given order. */
  ghost function FirstError(raw: RawFile, order: seq<string>): Option<ParseError>
    requires raw.start < WORD_LIMIT && forall i :: 0 <= i < |order| ==> order[i] in raw.symbols
  {
    if order == [] then None
    else
      match CheckSymbol(raw.symbols[order[0]], raw.start, raw.sections)
      case Err(error) => Some(error)
      case Ok(_) => FirstError(raw, order[1..])
  }

  ghost predicate ChecksOut(raw: RawFile, name: string)
    requires raw.start < WORD_LIMIT
  {
    name in raw.symbols && CheckSymbol(raw.symbols[name], raw.start, raw.sections).Ok?
  }

  /** The first name that does not check out decides, whatever comes after it. */
  lemma {:induction false} FirstFailureDecides(raw: RawFile, done: seq<string>, tail: seq<string>)
    requires raw.start < WORD_LIMIT && forall i :: 0 <= i < |done| ==> ChecksOut(raw, done[i])
    requires forall i :: 0 <= i < |tail| ==> tail[i] in raw.symbols
    ensures forall i :: 0 <= i < |done + tail| ==> (done + tail)[i] in raw.symbols
    ensures FirstError(raw, done + tail) == FirstError(raw, tail)
  {
    if done == [] {
      assert done + tail == tail;
    } else {
      FirstFailureDecides(raw, done[1..], tail);
      assert (done + tail)[1..] == done[1..] + tail && (done + tail)[0] == done[0];
      assert ChecksOut(raw, done[0]);
    }
  }

  /** The outcome of parsing when symbols are checked in the given order. */
  ghost predicate ParsesIn(source: seq<Byte>, order: seq<string>, r: Result<ObjectFile, ParseError>)
    requires |source| < WORD_LIMIT
  {
    match Layout(source)
    case Err(error) => r == Err(error)
    case Ok(raw) => Visits(order, raw.symbols) && OutcomeIn(raw, order, r)
  }

  ghost predicate OutcomeIn(raw: RawFile, order: seq<string>, r: Result<ObjectFile, ParseError>)
    requires raw.start < WORD_LIMIT && Visits(order, raw.symbols)
  {
    match FirstError(raw, order)
    case None => AllChecked(raw) && r == Ok(Checked(raw))
    case Some(error) => r == Err(error)
  }

  class Parser {
    const source: seq<Byte>
    var bytesRead: nat

    constructor (source: seq<Byte>)
      ensures this.source == source && bytesRead == 0
    {
      this.source := source;
      bytesRead := 0;
    }

    method Run() returns (r: Result<ObjectFile, ParseError>, ghost order: seq<string>)
      requires bytesRead == 0 && |source| < WORD_LIMIT
      modifies this
      ensures Parses(source, r) && ParsesIn(source, order, r)
      ensures r.Ok? ==> ValidObject(r.value)
    {
      hide HeaderAt, BodyAt, AllChecked, FailsCheck, OutcomeIn, Visits, ValidObject;
      order := [];
      var counts := ParseHeader();
      if counts.Err? {
        return Err(counts.error), order;
      }
      var raw := ParseBody(counts.value);
      if raw.Err? {
        return Err(raw.error), order;
      }
      BodyValid(source, 16, counts.value);
      r, order := VerifySymbols(raw.value.symbols, raw.value.start, raw.value.sections);
      if r.Ok? {
        AcceptedIsValid(source, r);
      }
    }

    method ParseHeader() returns (r: Result<Counts, ParseError>)
      requires bytesRead == 0
      modifies this
      ensures r == HeaderAt(source)
      ensures r.Ok? ==> bytesRead == 16
    {
      var magic :- ReadBuffer(6);
      if magic != MAGIC {
        return Err(InvalidMagic);
      }
      var version :- ReadU16();
      if version != ABI_VERSION {
        return Err(UnsupportedVersion);
      }
      var symbols :- ReadU32();
      var sections :- ReadU32();
      return Ok(Counts(symbols, sections));
    }

    method ParseBody(counts: Counts) returns (r: Result<RawFile, ParseError>)
      requires bytesRead <= |source| < WORD_LIMIT
      modifies this
      ensures r == BodyAt(source, old(bytesRead), counts)
    {
      hide TableAt, HeadersAt, SectionsAt;
      var symbols :- ParseSymbolTable(counts.symbols);
      var headers :- ParseSectionHeaders(counts.sections);
      var start := bytesRead;
      var sections :- ParseSections(headers);
      return Ok(RawFile(symbols, start, sections));
    }

    method ReadU8() returns (r: Result<Byte, ParseError>)
      modifies this
      ensures r == U8At(source, old(bytesRead)) && bytesRead == old(bytesRead) + if r.Ok? then 1 else 0
    {
      if bytesRead + 1 > |source| {
        return Err(UnexpectedEof);
      }
      r := Ok(source[bytesRead]);
      bytesRead := bytesRead + 1;
    }

    method ReadU16() returns (r: Result<Half, ParseError>)
      modifies this
      ensures r == U16At(source, old(bytesRead)) && bytesRead == old(bytesRead) + if r.Ok? then 2 else 0
    {
      if bytesRead + 2 > |source| {
        return Err(UnexpectedEof);
      }
      r := Ok(FromBe16(source[bytesRead..bytesRead + 2]));
      bytesRead := bytesRead + 2;
    }

    method ReadU32() returns (r: Result<Word, ParseError>)
      modifies this
      ensures r == U32At(source, old(bytesRead)) && bytesRead == old(bytesRead) + if r.Ok? then 4 else 0
    {
      if bytesRead + 4 > |source| {
        return Err(UnexpectedEof);
      }
      r := Ok(FromBe32(source[bytesRead..bytesRead + 4]));
      bytesRead := bytesRead + 4;
    }

    method ReadBuffer(n: nat) returns (r: Result<seq<Byte>, ParseError>)
      modifies this
      ensures r == BufferAt(source, old(bytesRead), n) && bytesRead == old(bytesRead) + if r.Ok? then n else 0
    {
      if bytesRead + n > |source| {
        return Err(UnexpectedEof);
      }
      r := Ok(source[bytesRead..bytesRead + n]);
      bytesRead := bytesRead + n;
    }

    method ParseReferences(n: nat) returns (r: Result<seq<Word>, ParseError>)
      modifies this
      ensures r == WordsAt(source, old(bytesRead), n)
      ensures r.Ok? ==> bytesRead == old(bytesRead) + 4 * n
    {
      ghost var start := bytesRead;
      var offsets := [];
      for i := 0 to n
        invariant WordsAt(source, start, i) == Ok(offsets) && bytesRead == start + 4 * i
      {
        var offset := ReadU32();
        if offset.Err? {
          EarlyEnd(source, start, i + 1, n);
          return Err(offset.error);
        }
        offsets := offsets + [offset.value];
      }
      return Ok(offsets);
    }

    method ParseSymbol(seen: set<string>) returns (r: Result<RawSymbol, ParseError>)
      modifies this
      ensures r == SymbolAt(source, old(bytesRead), seen)
      ensures r.Ok? ==> bytesRead == r.value.next
    {
      var typeByte :- ReadU8();
      if SymbolTypeOf(typeByte).None? {
        return Err(InvalidSymbolType);
      }
      var symbolType := SymbolTypeOf(typeByte).value;
      var value :- ReadU32();
      var length :- ReadU8();
      if length == 0 {
        return Err(EmptyName);
      }
      var bytes :- ReadBuffer(length);
      var name :- ValidatedName(bytes);
      if name in seen {
        return Err(DuplicateSymbol(name));
      }
      var count :- ReadU32();
      var references :- ParseReferences(count);
      var entry := SymbolTableEntry(symbolType, if symbolType.External? then None else Some(value), references);
      return Ok(RawSymbol(name, entry, bytesRead));
    }

    method ParseSymbolTable(n: nat) returns (r: Result<SymbolTable, ParseError>)
      modifies this
      ensures match TableAt(source, old(bytesRead), n, map[])
        case Err(error) => r == Err(error)
        case Ok(table) => r == Ok(table.symbols) && bytesRead == table.next
    {
      ghost var start := bytesRead;
      var table: SymbolTable := map[];
      for i := 0 to n
        invariant TableAt(source, start, n, map[]) == TableAt(source, bytesRead, n - i, table)
      {
        var symbol :- ParseSymbol(table.Keys);
        table := table[symbol.name := symbol.entry];
      }
      return Ok(table);
    }

    method ParseSectionHeaders(n: nat) returns (r: Result<seq<SectionHeader>, ParseError>)
      modifies this
      ensures r == HeadersAt(source, old(bytesRead), n)
      ensures r.Ok? ==> bytesRead == old(bytesRead) + 5 * n
    {
      ghost var start := bytesRead;
      var headers := [];
      for i := 0 to n
        invariant HeadersAt(source, start, i) == Ok(headers) && bytesRead == start + 5 * i
      {
        var flags := ReadU8();
        if flags.Err? {
          EarlyHeaderEnd(source, start, i + 1, n);
          return Err(flags.error);
        }
        var length := ReadU32();
        if length.Err? {
          EarlyHeaderEnd(source, start, i + 1, n);
          return Err(length.error);
        }
        headers := headers + [SectionHeader(flags.value, length.value)];
      }
      return Ok(headers);
    }

    method ParseSections(headers: seq<SectionHeader>) returns (r: Result<seq<Section>, ParseError>)
      requires |source| < WORD_LIMIT
      modifies this
      ensures r == SectionsAt(source, old(bytesRead), headers, |headers|)
    {
      ghost var start := bytesRead;
      var sectionsStart := bytesRead;
      var sections := [];
      for i := 0 to |headers|
        invariant SectionsAt(source, start, headers, i) == Ok(sections) && bytesRead == start + Total(sections)
      {
        var sectionStart := bytesRead;
        var data := ReadBuffer(headers[i].length);
        if data.Err? {
          EarlySectionEnd(source, start, headers, i + 1, |headers|);
          return Err(data.error);
        }
        sections := sections
          + [Section(headers[i].flags, sectionStart - sectionsStart, headers[i].length, data.value)];
      }
      return Ok(sections);
    }
  }

  /** Relocate and verify every symbol, in an arbitrary order; the first error in that order is reported. */
  method VerifySymbols(symbols: SymbolTable, start: Word, sections: seq<Section>)
    returns (r: Result<ObjectFile, ParseError>, ghost order: seq<string>)
    requires Contiguous(sections)
    ensures var raw := RawFile(symbols, start, sections);
      if AllChecked(raw) then r == Ok(Checked(raw))
      else r.Err? && exists name :: name in symbols && FailsCheck(raw, name, r.error)
    ensures Visits(order, symbols) && OutcomeIn(RawFile(symbols, start, sections), order, r)
  {
    ghost var raw := RawFile(symbols, start, sections);
    var checked: SymbolTable := map[];
    var rest := symbols.Keys;
    order := [];
    while rest != {}
      invariant rest <= symbols.Keys && checked.Keys == symbols.Keys - rest
      invariant forall name :: name in checked ==> CheckSymbol(symbols[name], start, sections) == Ok(checked[name])
      invariant Distinct(order, symbols) && forall name :: name in order <==> name in checked
    {
      var name :| name in rest;
      var entry := VerifySymbol(symbols[name], start, sections);
      if entry.Err? {
        assert FailsCheck(raw, name, entry.error);
        order := VisitRest(raw, order, name, rest);
        return Err(entry.error), order;
      }
      checked := checked[name := entry.value];
      order := order + [name];
      rest := rest - {name};
    }
    assert AllChecked(raw) && Checked(raw).symbols == checked;
    NothingFails(raw, order);
    return Ok(ObjectFile(checked, sections)), order;
  }

  lemma VisitRest(raw: RawFile, done: seq<string>, name: string, rest: set<string>) returns (order: seq<string>)
    requires raw.start < WORD_LIMIT && Distinct(done, raw.symbols) && name in rest && rest <= raw.symbols.Keys
    requires forall n :: n in raw.symbols ==> (n in done <==> n !in rest)
    requires forall i :: 0 <= i < |done| ==> ChecksOut(raw, done[i])
    requires CheckSymbol(raw.symbols[name], raw.start, raw.sections).Err?
    ensures Visits(order, raw.symbols)
    ensures FirstError(raw, order) == Some(CheckSymbol(raw.symbols[name], raw.start, raw.sections).error)
  {
    hide CheckSymbol;
    var later := OrderOf(rest - {name});
    var tail := [name] + later;
    assert forall i :: 0 < i < |tail| ==> tail[i] in later;
    order := done + tail;
    forall n | n in raw.symbols ensures n in order {
      assert n in done || n == name || n in later;
    }
    forall i, j | 0 <= i < j < |order| ensures order[i] != order[j] {
      if i < |done| <= j {
        assert order[i] in done && order[j] in tail;
      }
    }
    FirstFailureDecides(raw, done, tail);
  }

  lemma NothingFails(raw: RawFile, order: seq<string>)
    requires raw.start < WORD_LIMIT && AllChecked(raw) && forall i :: 0 <= i < |order| ==> order[i] in raw.symbols
    ensures FirstError(raw, order) == None
  {
    hide CheckSymbol;
    FirstFailureDecides(raw, order, []);
    assert order + [] == order;
  }

  method VerifySymbol(entry: SymbolTableEntry, start: Word, sections: seq<Section>)
    returns (r: Result<SymbolTableEntry, ParseError>)
    requires Contiguous(sections)
    ensures r == CheckSymbol(entry, start, sections)
  {
    var value := None;
    if entry.value.Some? {
      var relocated :- TrySub(entry.value.value, start);
      if relocated >= Total(sections) {
        return Err(AddressTooLarge);
      }
      value := Some(relocated);
    }
    var references := [];
    for i := 0 to |entry.references|
      invariant CheckReferences(entry.references, i, start, sections) == Ok(references)
    {
      var reference := VerifyReference(entry.references[i], start, sections);
      if reference.Err? {
        EarlyBadReference(entry.references, i + 1, |entry.references|, start, sections);
        return Err(reference.error);
      }
      references := references + [reference.value];
    }
    return Ok(SymbolTableEntry(entry.symbolType, value, references));
  }

  method VerifyReference(reference: Word, start: Word, sections: seq<Section>) returns (r: Result<Word, ParseError>)
    requires Contiguous(sections)
    ensures r == CheckReference(reference, start, sections)
    ensures r.Ok? <==> ReferenceFits(reference, start, sections)
    ensures r.Ok? ==> r.value == reference - start
    ensures r == Err(SplitSlot) <==> ReferenceSplits(reference, start, sections)
    ensures r == Err(AddressTooSmall) <==> reference < start
    ensures r == Err(AddressTooLarge) <==> reference - start >= Total(sections)
  {
    hide ReferenceFits, ReferenceSplits;
    ReferenceExactly(reference, start, sections);
    var address :- TrySub(reference, start);
    var found := FindSection(sections, address);
    if found.None? {
      forall i | 0 <= i < |sections| && Contains(sections[i], address) ensures false {
        SectionsAreOrdered(sections, i, |sections|);
      }
      return Err(AddressTooLarge);
    }
    var section := sections[found.value];
    assert SectionIndex(sections, |sections|, address) == found;
    for i := 0 to 4
      invariant ZerosAt(section.data, address - section.start, i) == Ok(())
    {
      var position := address - section.start + i;
      if position >= |section.data| {
        EarlyNonZero(section.data, address - section.start, i + 1, 4);
        return Err(SplitSlot);
      }
      if section.data[position] != 0 {
        EarlyNonZero(section.data, address - section.start, i + 1, 4);
        return Err(NonZeroTarget);
      }
    }
    return Ok(address);
  }

  // ----- The first failure decides -----

  lemma {:induction false} EarlyEnd(source: seq<Byte>, p: nat, i: nat, n: nat)
    requires i <= n && WordsAt(source, p, i).Err?
    ensures WordsAt(source, p, n) == WordsAt(source, p, i)
    decreases n
  {
    if i < n {
      EarlyEnd(source, p, i, n - 1);
    }
  }

  lemma {:induction false} EarlyHeaderEnd(source: seq<Byte>, p: nat, i: nat, n: nat)
    requires i <= n && HeadersAt(source, p, i).Err?
    ensures HeadersAt(source, p, n) == HeadersAt(source, p, i)
    decreases n
  {
    if i < n {
      EarlyHeaderEnd(source, p, i, n - 1);
    }
  }

  lemma {:induction false} EarlySectionEnd(source: seq<Byte>, p: nat, headers: seq<SectionHeader>, i: nat, n: nat)
    requires i <= n <= |headers| && |source| < WORD_LIMIT && SectionsAt(source, p, headers, i).Err?
    ensures SectionsAt(source, p, headers, n) == SectionsAt(source, p, headers, i)
    decreases n
  {
    if i < n {
      EarlySectionEnd(source, p, headers, i, n - 1);
    }
  }

  lemma {:induction false} EarlyBadReference(references: seq<Word>, i: nat, n: nat, start: Word, sections: seq<Section>)
    requires i <= n <= |references| && CheckReferences(references, i, start, sections).Err?
    ensures CheckReferences(references, n, start, sections) == CheckReferences(references, i, start, sections)
    decreases n
  {
    if i < n {
      EarlyBadReference(references, i, n - 1, start, sections);
    }
  }

  lemma {:induction false} EarlyNonZero(data: seq<Byte>, offset: nat, i: nat, n: nat)
    requires i <= n && ZerosAt(data, offset, i).Err?
    ensures ZerosAt(data, offset, n) == ZerosAt(data, offset, i)
    decreases n
  {
    if i < n {
      EarlyNonZero(data, offset, i, n - 1);
    }
  }
}
