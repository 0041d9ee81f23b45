/** The file the assembler writes, read back by the linker's parser. */
module SaltToSilk {
  import opened Bytes
  import opened Wrappers
  import opened ObjectData
  import opened SaltSymbols
  import opened SaltLayout
  import opened SilkParser
  import SaltEmission

  // ----- Reading what was written -----

  /** The bytes stand at `p`. */
  ghost predicate Holds(source: seq<Byte>, p: nat, bytes: seq<Byte>) {
    p + |bytes| <= |source| && source[p..p + |bytes|] == bytes
  }

  lemma HoldsBoth(source: seq<Byte>, p: nat, a: seq<Byte>, b: seq<Byte>)
    requires Holds(source, p, a + b)
    ensures Holds(source, p, a) && Holds(source, p + |a|, b)
  {
    assert source[p..p + |a + b|][..|a|] == source[p..p + |a|];
    assert source[p..p + |a + b|][|a|..] == source[p + |a|..p + |a| + |b|];
  }

  lemma ReadsU8(source: seq<Byte>, p: nat, b: Byte)
    requires Holds(source, p, [b])
    ensures U8At(source, p) == Ok(b)
  {
    assert source[p] == source[p..p + 1][0];
  }

  lemma ReadsU32(source: seq<Byte>, p: nat, value: Word)
    requires Holds(source, p, Be32(value))
    ensures U32At(source, p) == Ok(value)
  {
    Be32RoundTrip(value);
  }

  function Absolute(references: seq<nat>, base: nat): (words: seq<Word>)
    requires forall k :: 0 <= k < |references| ==> base + references[k] < WORD_LIMIT
    ensures |words| == |references| && forall k :: 0 <= k < |words| ==> words[k] == base + references[k]
  {
    seq(|references|, k requires 0 <= k < |references| => base + references[k])
  }

  lemma {:induction false} ReadsReferences(source: seq<Byte>, p: nat, references: seq<nat>, base: nat, n: nat)
    requires n <= |references| && forall k :: 0 <= k < |references| ==> base + references[k] < WORD_LIMIT
    requires Holds(source, p, ReferenceBytes(references, base, n))
    ensures WordsAt(source, p, n) == Ok(Absolute(references, base)[..n])
  {
    hide Be32, Holds, U32At;
    if n > 0 {
      HoldsBoth(source, p, ReferenceBytes(references, base, n - 1), Be32(base + references[n - 1]));
      ReadsReferences(source, p, references, base, n - 1);
      ReadsU32(source, p + 4 * (n - 1), base + references[n - 1]);
      assert Absolute(references, base)[..n] == Absolute(references, base)[..n - 1] + [base + references[n - 1]];
    }
  }

  lemma ReadsName(name: string)
    requires ValidName(name)
    ensures ValidatedName(NameBytes(name)) == Ok(name)
  {
    var bytes := NameBytes(name);
    assert forall k :: 0 <= k < |bytes| ==> IsNameByte(bytes[k]);
    assert NameOf(bytes) == name;
  }

  /** One symbol table entry is read back. */
  lemma ReadsEntry(
    source: seq<Byte>, p: nat, seen: set<string>, typeByte: Byte, value: Word, name: string, references: seq<nat>, base: nat)
    requires ValidName(name) && |references| < WORD_LIMIT && name !in seen && SymbolTypeOf(typeByte).Some?
    requires forall k :: 0 <= k < |references| ==> base + references[k] < WORD_LIMIT
    requires Holds(source, p, EntryBytes(typeByte, value, name, references, base))
    ensures var t := SymbolTypeOf(typeByte).value;
      SymbolAt(source, p, seen)
      == Ok(RawSymbol(name, SymbolTableEntry(t, if t.External? then None else Some(value), Absolute(references, base)),
                      p + SYMBOL_HEADER_LENGTH + |name| + 4 * |references|))
  {
    hide Be32, Holds, U8At, U32At, WordsAt, ValidatedName, ReferenceBytes;
    var words := ReferenceBytes(references, base, |references|);
    HoldsBoth(source, p, [typeByte], Be32(value) + ([|name|] + (NameBytes(name) + (Be32(|references|) + words))));
    HoldsBoth(source, p + 1, Be32(value), [|name|] + (NameBytes(name) + (Be32(|references|) + words)));
    HoldsBoth(source, p + 5, [|name|], NameBytes(name) + (Be32(|references|) + words));
    HoldsBoth(source, p + 6, NameBytes(name), Be32(|references|) + words);
    HoldsBoth(source, p + 6 + |name|, Be32(|references|), words);
    ReadsU8(source, p, typeByte);
    ReadsU32(source, p + 1, value);
    ReadsU8(source, p + 5, |name|);
    ReadsBuffer(source, p + 6, NameBytes(name));
    ReadsName(name);
    ReadsU32(source, p + 6 + |name|, |references|);
    ReadsReferences(source, p + 10 + |name|, references, base, |references|);
    assert Absolute(references, base)[..|references|] == Absolute(references, base);
  }

  lemma ReadsBuffer(source: seq<Byte>, p: nat, bytes: seq<Byte>)
    requires Holds(source, p, bytes)
    ensures BufferAt(source, p, |bytes|) == Ok(bytes)
  {}

  // ----- The symbol table -----

  function TypeOf(symbol: Symbol): SymbolType {
    match symbol
    case ExternalSymbol(_) => External
    case _ => if symbol.isPublic then Public else Internal
  }

  /** A symbol as it stands in the file, addresses counted from the file's first byte. */
  function RawEntry(a: Assembly, k: nat): SymbolTableEntry
    requires Emittable(a) && k < |a.order|
  {
    var symbol := a.symbols[a.order[k]];
    FieldsFit(a, k);
    SymbolTableEntry(TypeOf(symbol), if symbol.ExternalSymbol? then None else Some(FieldOf(a, k)),
                     Absolute(References(symbol), InstructionBase(a)))
  }

  function RawSymbols(a: Assembly, k: nat): SymbolTable
    requires Emittable(a) && k <= |a.order|
  {
    if k == 0 then map[]
    else if a.symbols[a.order[k - 1]].ConstantSymbol? then RawSymbols(a, k - 1)
    else RawSymbols(a, k - 1)[a.order[k - 1] := RawEntry(a, k - 1)]
  }

  lemma {:induction false} RawSymbolsAre(a: Assembly, k: nat)
    requires Emittable(a) && k <= |a.order|
    ensures forall name :: name in RawSymbols(a, k) <==> name in a.order[..k] && !a.symbols[name].ConstantSymbol?
    ensures forall i :: 0 <= i < k && !a.symbols[a.order[i]].ConstantSymbol? ==> RawSymbols(a, k)[a.order[i]] == RawEntry(a, i)
  {
    hide Emittable, RawEntry;
    if k > 0 {
      RawSymbolsAre(a, k - 1);
      OrderListed(a);
      assert a.order[..k] == a.order[..k - 1] + [a.order[k - 1]];
    }
  }

  lemma OrderListed(a: Assembly)
    requires Emittable(a)
    ensures Enumerates(a.order, a.symbols)
  {}

  lemma {:induction false} TableHolds(a: Assembly, source: seq<Byte>, p: nat, k: nat, n: nat)
    requires Emittable(a) && k < n <= |a.order| && Holds(source, p, TableBytes(a, n))
    ensures Holds(source, p + |TableBytes(a, k)|, SymbolBytes(a, k))
    decreases n
  {
    hide Emittable, Holds, SymbolBytes;
    HoldsBoth(source, p, TableBytes(a, n - 1), SymbolBytes(a, n - 1));
    if k < n - 1 {
      TableHolds(a, source, p, k, n - 1);
    }
  }

  /** How many entries are left after the first `k` symbols. */
  function Remaining(a: Assembly, k: nat): int
    requires Enumerates(a.order, a.symbols) && k <= |a.order|
  {
    EntryCount(a.symbols, a.order, |a.order|) - EntryCount(a.symbols, a.order, k)
  }

  lemma ReadsSymbol(a: Assembly, source: seq<Byte>, p: nat, k: nat)
    requires Emittable(a) && k < |a.order| && !a.symbols[a.order[k]].ConstantSymbol?
    requires Holds(source, p, SymbolBytes(a, k))
    ensures SymbolAt(source, p, RawSymbols(a, k).Keys) == Ok(RawSymbol(a.order[k], RawEntry(a, k), p + |SymbolBytes(a, k)|))
  {
    hide Holds, SymbolAt, EntryBytes, ContentLength, InstructionBase, ValueOf;
    var name := a.order[k];
    var symbol := a.symbols[name];
    FieldsFit(a, k);
    assert SymbolReady(name, symbol, |a.code|);
    RawSymbolsAre(a, k);
    assert name !in a.order[..k];
    ReadsEntry(source, p, RawSymbols(a, k).Keys, TypeByte(symbol), FieldOf(a, k), name, References(symbol), InstructionBase(a));
  }

  /** Reading one symbol on the way through the table. */
  lemma ReadsTableStep(a: Assembly, source: seq<Byte>, p: nat, k: nat)
    requires Emittable(a) && k < |a.order| && Holds(source, p, SymbolBytes(a, k))
    requires var m := k + 1; Remaining(a, m) >= 0
    ensures Remaining(a, k) >= 0
    ensures var m := k + 1; |TableBytes(a, m)| == |TableBytes(a, k)| + |SymbolBytes(a, k)|
    ensures var m := k + 1;
      TableAt(source, p, Remaining(a, k), RawSymbols(a, k))
      == TableAt(source, p + |SymbolBytes(a, k)|, Remaining(a, m), RawSymbols(a, m))
  {
    hide Holds, SymbolAt, InstructionBase, ContentLength, RawEntry, EntryBytes;
    if !a.symbols[a.order[k]].ConstantSymbol? {
      ReadsSymbol(a, source, p, k);
    }
  }

  lemma {:induction false} ReadsTable(a: Assembly, source: seq<Byte>, p: nat, k: nat)
    requires Emittable(a) && k <= |a.order| && Holds(source, p, TableBytes(a, |a.order|))
    ensures Remaining(a, k) >= 0
    ensures TableAt(source, p + |TableBytes(a, k)|, Remaining(a, k), RawSymbols(a, k))
         == Ok(RawTable.RawTable(RawSymbols(a, |a.order|), p + |TableBytes(a, |a.order|)|))
    decreases |a.order| - k
  {
    hide Emittable, Holds, TableAt, SymbolBytes, TableBytes, RawSymbols, InstructionBase, ContentLength, EntryCount;
    if k < |a.order| {
      ReadsTable(a, source, p, k + 1);
      TableHolds(a, source, p, k, |a.order|);
      ReadsTableStep(a, source, p + |TableBytes(a, k)|, k);
    } else {
      assert TableAt(source, p + |TableBytes(a, k)|, 0, RawSymbols(a, k))
          == Ok(RawTable.RawTable(RawSymbols(a, k), p + |TableBytes(a, k)|)) by {
        TableEnds(source, p + |TableBytes(a, k)|, RawSymbols(a, k));
      }
    }
  }

  lemma TableEnds(source: seq<Byte>, p: nat, symbols: SymbolTable)
    ensures TableAt(source, p, 0, symbols) == Ok(RawTable.RawTable(symbols, p))
  {}

  // ----- Sections -----

  function Headers(sections: seq<Section>, n: nat): (headers: seq<SectionHeader>)
    requires n <= |sections|
    ensures |headers| == n
  {
    if n == 0 then [] else Headers(sections, n - 1) + [SectionHeader(sections[n - 1].flags, sections[n - 1].length)]
  }

  lemma {:induction false} HeadersAre(sections: seq<Section>, n: nat, k: nat)
    requires k < n <= |sections|
    ensures Headers(sections, n)[k] == SectionHeader(sections[k].flags, sections[k].length)
  {
    if k < n - 1 {
      HeadersAre(sections, n - 1, k);
    }
  }

  lemma {:induction false} ReadsHeaders(source: seq<Byte>, p: nat, sections: seq<Section>, n: nat)
    requires n <= |sections| && Holds(source, p, HeaderBytes(sections, n))
    ensures HeadersAt(source, p, n) == Ok(Headers(sections, n))
  {
    hide Holds, U8At, U32At, Be32;
    if n > 0 {
      var flags, length := sections[n - 1].flags, sections[n - 1].length;
      HoldsBoth(source, p, HeaderBytes(sections, n - 1), [flags] + Be32(length));
      HoldsBoth(source, p + 5 * (n - 1), [flags], Be32(length));
      ReadsHeaders(source, p, sections, n - 1);
      ReadsU8(source, p + 5 * (n - 1), flags);
      ReadsU32(source, p + 5 * (n - 1) + 1, length);
    }
  }

  lemma {:induction false} ReadsSections(source: seq<Byte>, p: nat, sections: seq<Section>, n: nat)
    requires |source| < WORD_LIMIT && Contiguous(sections) && n <= |sections|
    requires Holds(source, p, Joined(sections, n))
    ensures SectionsAt(source, p, Headers(sections, |sections|), n) == Ok(sections[..n])
  {
    hide Holds, BufferAt, Headers;
    if n > 0 {
      var s := sections[n - 1];
      HoldsBoth(source, p, Joined(sections, n - 1), s.data);
      ReadsSections(source, p, sections, n - 1);
      HeadersAre(sections, |sections|, n - 1);
      JoinedLength(sections, n - 1);
      assert Placed(sections, n - 1);
      ReadsBuffer(source, p + |Joined(sections, n - 1)|, s.data);
      assert sections[..n] == sections[..n - 1] + [s];
      EndOfPrefix(sections, n - 1);
    }
  }

  lemma EndOfPrefix(sections: seq<Section>, n: nat)
    requires n <= |sections|
    ensures Total(sections[..n]) == End(sections, n)
  {}

  // ----- The file -----

  /** The parser finds the parts of the file where the assembler put them. */
  lemma ReadsLayout(a: Assembly)
    requires Emittable(a)
    ensures |FileBytes(a)| < WORD_LIMIT
    ensures Layout(FileBytes(a)) == Ok(RawFile(RawSymbols(a, |a.order|), InstructionBase(a), Sections(a)))
  {
    hide Emittable, RawSymbols, TableBytes, SlotsValid, Holds, HeaderAt, BodyAt;
    FileFits(a);
    ReadsFileHeader(a);
    ReadsBody(a);
  }

  lemma FileFits(a: Assembly)
    requires Emittable(a)
    ensures |FileBytes(a)| < WORD_LIMIT
  {
    hide FileBytes, InstructionBase, Sections, SlotsValid, SymbolReady, Flatten;
    SaltEmission.SectionsShape(a);
    FlattenLength(Sections(a));
  }

  /** Everything after the counts. */
  function BodyBytes(a: Assembly): seq<Byte>
    requires Emittable(a)
  {
    TableBytes(a, |a.order|) + (HeaderBytes(Sections(a), |Sections(a)|) + Flatten(Sections(a)))
  }

  lemma ReadsFileHeader(a: Assembly)
    requires Emittable(a)
    ensures HeaderAt(FileBytes(a)) == Ok(Counts(EntryCount(a.symbols, a.order, |a.order|), |Sections(a)|))
    ensures Holds(FileBytes(a), 16, BodyBytes(a))
  {
    hide Emittable, Holds, Be32, Be16, BodyBytes, Sections, EntryCount, U32At, U16At, BufferAt, ContentLength, FileBytes;
    var source := FileBytes(a);
    CountsFit(a);
    Whole(source);
    var version, body := Be16(ABI_VERSION), BodyBytes(a);
    FileIs(a);
    HoldsBoth(source, 0, MAGIC, version + (CountBytes(a) + body));
    HoldsBoth(source, 6, version, CountBytes(a) + body);
    HoldsBoth(source, 8, CountBytes(a), body);
    HoldsBoth(source, 8, Be32(EntryCount(a.symbols, a.order, |a.order|)), Be32(|Sections(a)|));
    ReadsBuffer(source, 0, MAGIC);
    ReadsVersion(source);
    ReadsU32(source, 8, EntryCount(a.symbols, a.order, |a.order|));
    ReadsU32(source, 12, |Sections(a)|);
  }

  lemma CountsFit(a: Assembly)
    requires Emittable(a)
    ensures Enumerates(a.order, a.symbols) && ContentLength(a) < WORD_LIMIT && |FileBytes(a)| >= 16
    ensures EntryCount(a.symbols, a.order, |a.order|) < WORD_LIMIT && |Sections(a)| < WORD_LIMIT
  {
    hide SlotsValid, SymbolReady, ContentLength, Sections, EntryCount;
  }

  lemma Whole(source: seq<Byte>)
    ensures Holds(source, 0, source)
  {}

  lemma FileIs(a: Assembly)
    requires Emittable(a)
    ensures FileBytes(a) == MAGIC + (Be16(ABI_VERSION) + (CountBytes(a) + BodyBytes(a)))
  {
    hide Emittable;
  }

  lemma ReadsVersion(source: seq<Byte>)
    requires Holds(source, 6, Be16(ABI_VERSION))
    ensures U16At(source, 6) == Ok(ABI_VERSION)
  {}

  lemma ReadsBody(a: Assembly)
    requires Emittable(a) && |FileBytes(a)| < WORD_LIMIT && Holds(FileBytes(a), 16, BodyBytes(a)) && |FileBytes(a)| >= 16
    ensures BodyAt(FileBytes(a), 16, Counts(EntryCount(a.symbols, a.order, |a.order|), |Sections(a)|))
         == Ok(RawFile(RawSymbols(a, |a.order|), InstructionBase(a), Sections(a)))
  {
    hide Emittable, RawSymbols, TableBytes, Holds, HeaderBytes, Sections, FileBytes, InstructionBase, Enumerates, TableAt, HeadersAt, SectionsAt, ContentLength, Joined;
    CountsFit(a);
    BaseIs(a);
    var source, sections := FileBytes(a), Sections(a);
    var table, headers := TableBytes(a, |a.order|), HeaderBytes(sections, |sections|);
    HoldsBoth(source, 16, table, headers + Flatten(sections));
    HoldsBoth(source, 16 + |table|, headers, Flatten(sections));
    NoneRead(a);
    ReadsTable(a, source, 16, 0);
    ReadsHeaders(source, 16 + |table|, sections, |sections|);
    SaltEmission.SectionsShape(a);
    ReadsSections(source, 16 + |table| + 5 * |sections|, sections, |sections|);
    assert sections[..|sections|] == sections;
  }

  lemma BaseIs(a: Assembly)
    requires Emittable(a)
    ensures ContentLength(a) < WORD_LIMIT
    ensures InstructionBase(a) == 16 + |TableBytes(a, |a.order|)| + 5 * |Sections(a)|
  {
    hide SlotsValid, SymbolReady, ContentLength, Sections, TableBytes;
  }

  lemma NoneRead(a: Assembly)
    requires Emittable(a)
    ensures Remaining(a, 0) == EntryCount(a.symbols, a.order, |a.order|)
    ensures TableBytes(a, 0) == [] && RawSymbols(a, 0) == map[]
  {
    hide Emittable;
  }

  // ----- What is recovered -----

  ghost predicate IsEntry(a: Assembly, k: nat) {
    k < |a.order| && a.order[k] in a.symbols && !a.symbols[a.order[k]].ConstantSymbol?
  }

  /** The linker's view of a symbol: its kind, its value counted from the first section, and its
      references, unchanged. */
  ghost predicate RecoveredEntry(a: Assembly, k: nat, entry: SymbolTableEntry)
    requires IsEntry(a, k)
  {
    match entry case SymbolTableEntry(symbolType, value, references) =>
      && symbolType == TypeOf(a.symbols[a.order[k]])
      && value == (if a.symbols[a.order[k]].ExternalSymbol? then None else Some(ValueOf(a, k)))
      && references == References(a.symbols[a.order[k]])
  }

  /** The file has exactly the assembled symbols and sections. */
  ghost predicate Recovered(a: Assembly, file: ObjectFile) {
    match file case ObjectFile(symbols, sections) =>
      && ContentLength(a) < WORD_LIMIT && sections == Sections(a)
      && (forall name :: name in symbols <==> name in a.symbols && !a.symbols[name].ConstantSymbol?)
      && forall k: nat :: IsEntry(a, k) && a.order[k] in symbols ==> RecoveredEntry(a, k, symbols[a.order[k]])
  }

  /** Something follows the place the symbol stands for: all but empty data at the very end. */
  ghost predicate InsideFile(a: Assembly, k: nat)
    requires IsEntry(a, k)
  {
    a.symbols[a.order[k]].ExternalSymbol? || ValueOf(a, k) < ContentLength(a)
  }

  lemma ReferenceChecks(a: Assembly, r: nat)
    requires Emittable(a) && ZeroAt(a.code, r)
    ensures CheckReference(InstructionBase(a) + r, InstructionBase(a), Sections(a)) == Ok(r)
  {
    hide SlotsValid, SymbolReady, Enumerates, InstructionBase;
    CodeIsFirst(a);
    SaltEmission.SectionsShape(a);
    var sections := Sections(a);
    FirstSectionHas(sections, |sections|, r);
    assert forall k :: r <= k < r + 4 ==> a.code[k] == a.code[r..r + 4][k - r];
  }

  lemma CodeIsFirst(a: Assembly)
    requires ContentLength(a) < WORD_LIMIT && a.code != []
    ensures |Sections(a)| > 0 && Sections(a)[0] == Section(CodeFlags(a.entrypoint), 0, |a.code|, a.code)
  {}

  /** The first section is found for its own addresses. */
  lemma {:induction false} FirstSectionHas(sections: seq<Section>, n: nat, address: Word)
    requires Contiguous(sections) && 0 < n <= |sections| && Contains(sections[0], address)
    ensures SectionIndex(sections, n, address) == Some(0)
  {
    if n > 1 {
      SectionsAreOrdered(sections, 0, n - 1);
      assert Placed(sections, n - 1);
      FirstSectionHas(sections, n - 1, address);
    }
  }

  lemma {:induction false} ReferencesCheck(a: Assembly, references: seq<nat>, n: nat)
    requires Emittable(a) && n <= |references| && forall k :: 0 <= k < |references| ==> ZeroAt(a.code, references[k])
    requires forall k :: 0 <= k < |references| ==> InstructionBase(a) + references[k] < WORD_LIMIT
    ensures CheckReferences(Absolute(references, InstructionBase(a)), n, InstructionBase(a), Sections(a)) == Ok(references[..n])
  {
    hide Emittable, ZeroAt, InstructionBase, Sections, CheckReference, ContentLength;
    if n > 0 {
      ReferencesCheck(a, references, n - 1);
      ReferenceChecks(a, references[n - 1]);
      assert references[..n] == references[..n - 1] + [references[n - 1]];
    }
  }
}
