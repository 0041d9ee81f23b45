/** When the linker's parser accepts a file, and when it panics on one (simulatron-silk, parser.rs). */
module ParseOutcomes {
  import opened Bytes
  import opened Wrappers
  import opened ObjectData
  import opened SymbolTables
  import opened SilkParser

  ghost predicate Fits(raw: RawFile, name: string)
    requires raw.start < WORD_LIMIT
  {
    name in raw.symbols && SymbolFits(raw.symbols[name], raw.start, raw.sections)
  }

  ghost predicate Splits(raw: RawFile, name: string)
    requires raw.start < WORD_LIMIT
  {
    name in raw.symbols && SymbolSplits(raw.symbols[name], raw.start, raw.sections)
  }

  /** The symbols come in an order in which checking them panics. */
  ghost predicate PanicsIn(raw: RawFile, order: seq<string>)
    requires raw.start < WORD_LIMIT
  {
    Visits(order, raw.symbols) && FirstError(raw, order) == Some(SplitSlot)
  }

  ghost predicate SomeSplits(raw: RawFile)
    requires raw.start < WORD_LIMIT
  {
    exists name :: Splits(raw, name)
  }

  /** Every symbol that does not check out splits a slot. */
  ghost predicate OthersFit(raw: RawFile)
    requires raw.start < WORD_LIMIT
  {
    forall name :: name in raw.symbols ==> Fits(raw, name) || Splits(raw, name)
  }

  lemma Outcome(raw: RawFile, name: string)
    requires raw.start < WORD_LIMIT && Contiguous(raw.sections) && name in raw.symbols
    ensures var r := CheckSymbol(raw.symbols[name], raw.start, raw.sections);
      && (r.Ok? <==> Fits(raw, name)) && (r == Err(SplitSlot) <==> Splits(raw, name))
  {
    hide SymbolFits, SymbolSplits, CheckSymbol;
    SymbolExactly(raw.symbols[name], raw.start, raw.sections);
  }

  /** Checking panics only at a symbol that splits. */
  lemma {:induction false} PanicHasCause(raw: RawFile, order: seq<string>)
    requires raw.start < WORD_LIMIT && Contiguous(raw.sections) && forall i :: 0 <= i < |order| ==> order[i] in raw.symbols
    requires FirstError(raw, order) == Some(SplitSlot)
    ensures SomeSplits(raw)
  {
    hide Splits, CheckSymbol;
    Outcome(raw, order[0]);
    if CheckSymbol(raw.symbols[order[0]], raw.start, raw.sections).Ok? {
      PanicHasCause(raw, order[1..]);
    }
  }

  /** If all others are in order, the first error is a panic, and there is one if some symbol splits. */
  lemma {:induction false} OnlyPanics(raw: RawFile, order: seq<string>)
    requires raw.start < WORD_LIMIT && Contiguous(raw.sections) && OthersFit(raw)
    requires forall i :: 0 <= i < |order| ==> order[i] in raw.symbols
    ensures FirstError(raw, order) == None || FirstError(raw, order) == Some(SplitSlot)
    ensures FirstError(raw, order) == None ==> forall i :: 0 <= i < |order| ==> Fits(raw, order[i])
  {
    hide Splits, Fits, CheckSymbol;
    if order != [] {
      Outcome(raw, order[0]);
      OnlyPanics(raw, order[1..]);
      assert forall i :: 0 < i < |order| ==> order[i] == order[1..][i - 1];
    }
  }

  lemma VisitFirst(raw: RawFile, name: string) returns (order: seq<string>)
    requires raw.start < WORD_LIMIT && name in raw.symbols
    ensures Visits(order, raw.symbols)
    ensures CheckSymbol(raw.symbols[name], raw.start, raw.sections).Err? ==>
      FirstError(raw, order) == Some(CheckSymbol(raw.symbols[name], raw.start, raw.sections).error)
  {
    hide CheckSymbol;
    order := OrderStarting(raw.symbols, name, name);
  }

  /** Checking panics in some order of the symbols exactly if one of them splits a slot. */
  lemma SomeOrderPanics(raw: RawFile)
    requires raw.start < WORD_LIMIT && Contiguous(raw.sections)
    ensures (exists order :: PanicsIn(raw, order)) <==> SomeSplits(raw)
  {
    hide Splits, FirstError, CheckSymbol;
    if order :| PanicsIn(raw, order) {
      PanicHasCause(raw, order);
    }
    if name :| Splits(raw, name) {
      SplitsIsSymbol(raw, name);
      Outcome(raw, name);
      var order := VisitFirst(raw, name);
      assert PanicsIn(raw, order);
    }
  }

  lemma SplitsIsSymbol(raw: RawFile, name: string)
    requires raw.start < WORD_LIMIT && Splits(raw, name)
    ensures name in raw.symbols
  {}

  /** It panics in every order exactly if one splits a slot and all others either do or are in order. */
  lemma EveryOrderPanics(raw: RawFile)
    requires raw.start < WORD_LIMIT && Contiguous(raw.sections)
    ensures (forall order :: Visits(order, raw.symbols) ==> PanicsIn(raw, order)) <==> SomeSplits(raw) && OthersFit(raw)
  {
    hide Splits, Fits, FirstError, CheckSymbol, Visits;
    if forall order :: Visits(order, raw.symbols) ==> PanicsIn(raw, order) {
      var some := OrderOf(raw.symbols.Keys);
      OrderVisits(raw.symbols, some);
      PanicHasCauseIn(raw, some);
      forall name | name in raw.symbols ensures Fits(raw, name) || Splits(raw, name) {
        Outcome(raw, name);
        var order := VisitFirst(raw, name);
        assert PanicsIn(raw, order);
      }
    }
    if SomeSplits(raw) && OthersFit(raw) {
      forall order | Visits(order, raw.symbols) ensures PanicsIn(raw, order) {
        AllSplitOrFit(raw, order);
      }
    }
  }

  lemma OrderVisits(table: SymbolTable, order: seq<string>)
    requires forall name :: name in order <==> name in table.Keys
    requires forall i, j :: 0 <= i < j < |order| ==> order[i] != order[j]
    ensures Visits(order, table)
  {}

  lemma PanicHasCauseIn(raw: RawFile, order: seq<string>)
    requires raw.start < WORD_LIMIT && Contiguous(raw.sections) && PanicsIn(raw, order)
    ensures SomeSplits(raw)
  {
    PanicHasCause(raw, order);
  }

  lemma AllSplitOrFit(raw: RawFile, order: seq<string>)
    requires raw.start < WORD_LIMIT && Contiguous(raw.sections) && SomeSplits(raw) && OthersFit(raw)
    requires Visits(order, raw.symbols)
    ensures PanicsIn(raw, order)
  {
    hide Splits, Fits, FirstError, CheckSymbol;
    OnlyPanics(raw, order);
    var name :| Splits(raw, name);
    SplitsIsSymbol(raw, name);
    Outcome(raw, name);
    var i :| 0 <= i < |order| && order[i] == name;
  }

  // ----- Whole files -----

  /** Nothing before the symbol checks panics. */
  lemma LayoutNeverPanics(source: seq<Byte>)
    requires |source| < WORD_LIMIT
    ensures !Panics(Layout(source))
    ensures Layout(source).Ok? ==> Contiguous(Layout(source).value.sections)
  {
    hide BodyAt, TableAt, HeadersAt, SectionsAt, Contiguous;
    if HeaderAt(source).Ok? {
      BodyNeverPanics(source, 16, HeaderAt(source).value);
      if Layout(source).Ok? {
        BodyValid(source, 16, HeaderAt(source).value);
      }
    }
  }

  lemma BodyNeverPanics(source: seq<Byte>, p: nat, counts: Counts)
    requires |source| < WORD_LIMIT && p <= |source|
    ensures !Panics(BodyAt(source, p, counts))
  {
    hide TableAt, HeadersAt, SectionsAt;
    TableNeverPanics(source, p, counts.symbols, map[]);
    if TableAt(source, p, counts.symbols, map[]).Ok? {
      var next := TableAt(source, p, counts.symbols, map[]).value.next;
      HeadersNeverPanic(source, next, counts.sections);
      if HeadersAt(source, next, counts.sections).Ok? {
        SectionsNeverPanic(source, next + 5 * counts.sections, HeadersAt(source, next, counts.sections).value, counts.sections);
      }
    }
  }

  lemma {:induction false} WordsNeverPanic(source: seq<Byte>, p: nat, n: nat)
    ensures !Panics(WordsAt(source, p, n))
  {
    if n > 0 {
      WordsNeverPanic(source, p, n - 1);
    }
  }

  lemma {:induction false} TableNeverPanics(source: seq<Byte>, p: nat, n: nat, symbols: SymbolTable)
    ensures !Panics(TableAt(source, p, n, symbols))
    decreases n
  {
    if n > 0 {
      SymbolNeverPanics(source, p, symbols.Keys);
      hide SymbolAt;
      if SymbolAt(source, p, symbols.Keys).Ok? {
        var symbol := SymbolAt(source, p, symbols.Keys).value;
        TableNeverPanics(source, symbol.next, n - 1, symbols[symbol.name := symbol.entry]);
      }
    }
  }

  lemma SymbolNeverPanics(source: seq<Byte>, p: nat, seen: set<string>)
    ensures !Panics(SymbolAt(source, p, seen))
  {
    hide WordsAt, ValidatedName;
    forall q: nat, n: nat ensures !Panics(WordsAt(source, q, n)) {
      WordsNeverPanic(source, q, n);
    }
    forall bytes: seq<Byte> ensures !Panics(ValidatedName(bytes)) {
      NameNeverPanics(bytes);
    }
  }

  lemma NameNeverPanics(bytes: seq<Byte>)
    ensures !Panics(ValidatedName(bytes))
  {}

  lemma {:induction false} HeadersNeverPanic(source: seq<Byte>, p: nat, n: nat)
    ensures !Panics(HeadersAt(source, p, n))
  {
    if n > 0 {
      HeadersNeverPanic(source, p, n - 1);
    }
  }

  lemma {:induction false} SectionsNeverPanic(source: seq<Byte>, p: nat, headers: seq<SectionHeader>, n: nat)
    requires n <= |headers| && |source| < WORD_LIMIT
    ensures !Panics(SectionsAt(source, p, headers, n))
  {
    if n > 0 {
      SectionsNeverPanic(source, p, headers, n - 1);
    }
  }

  /** Parsing the file panics when its symbols are visited in the given order. */
  ghost predicate FilePanicsIn(source: seq<Byte>, order: seq<string>)
    requires |source| < WORD_LIMIT
  {
    exists r :: ParsesIn(source, order, r) && Panics(r)
  }

  lemma FilePanics(source: seq<Byte>, order: seq<string>)
    requires |source| < WORD_LIMIT
    ensures FilePanicsIn(source, order) <==> Layout(source).Ok? && PanicsIn(Layout(source).value, order)
  {
    hide Layout, Visits, FirstError;
    LayoutNeverPanics(source);
    if Layout(source).Ok? && PanicsIn(Layout(source).value, order) {
      assert ParsesIn(source, order, Err(SplitSlot)) && Panics<ObjectFile>(Err(SplitSlot));
    }
  }

  /** Whether parsing a file can panic, and whether it must, is decided by its bytes: in some order of
      visiting the symbols it panics exactly if one of them splits a slot, and in every order exactly if
      moreover every other symbol either does or is in order. */
  lemma FilePanicsExactly(source: seq<Byte>)
    requires |source| < WORD_LIMIT
    ensures (exists order :: FilePanicsIn(source, order)) <==> Layout(source).Ok? && SomeSplits(Layout(source).value)
    ensures Layout(source).Ok? ==>
      ((forall order :: Visits(order, Layout(source).value.symbols) ==> FilePanicsIn(source, order))
        <==> SomeSplits(Layout(source).value) && OthersFit(Layout(source).value))
  {
    hide Layout, Visits, FilePanicsIn, PanicsIn, SomeSplits, OthersFit;
    LayoutNeverPanics(source);
    forall order ensures FilePanicsIn(source, order) <==> Layout(source).Ok? && PanicsIn(Layout(source).value, order) {
      FilePanics(source, order);
    }
    if Layout(source).Ok? {
      SomeOrderPanics(Layout(source).value);
      EveryOrderPanics(Layout(source).value);
    }
  }

  /** A file is accepted exactly if it can be read and all its symbols are in order. */
  lemma FileAcceptedExactly(source: seq<Byte>, r: Result<ObjectFile, ParseError>)
    requires |source| < WORD_LIMIT && Parses(source, r)
    ensures r.Ok? <==>
      Layout(source).Ok? && forall name :: name in Layout(source).value.symbols ==> Fits(Layout(source).value, name)
  {
    hide Layout, CheckSymbol, Fits;
    LayoutNeverPanics(source);
    if Layout(source).Ok? {
      var raw := Layout(source).value;
      forall name | name in raw.symbols ensures CheckSymbol(raw.symbols[name], raw.start, raw.sections).Ok? <==> Fits(raw, name) {
        Outcome(raw, name);
      }
    }
  }

  // ----- An instance -----

  /** The bytes of a file with two symbols and one section of three zeros. The reference of `a` names the
      section's first byte, and the value of `b` lies before the section. */
  const SPLIT_FILE: seq<Byte> :=
    [0x53, 0x49, 0x4D, 0x4F, 0x42, 0x4A, 0, 1, 0, 0, 0, 2, 0, 0, 0, 1]
    + [0x49, 0, 0, 0, 47, 1, 97, 0, 0, 0, 1, 0, 0, 0, 47]
    + [0x49, 0, 0, 0, 0, 1, 98, 0, 0, 0, 0]
    + [0x04, 0, 0, 0, 3]
    + [0, 0, 0]

  function SplitSymbols(): SymbolTable {
    map["a" := SymbolTableEntry(Internal, Some(47), [47]), "b" := SymbolTableEntry(Internal, Some(0), [])]
  }

  function ThreeZeros(): seq<Section> {
    [Section(0x04, 0, 3, [0, 0, 0])]
  }

  lemma SmallWord(source: seq<Byte>, p: nat, x: Byte)
    requires p + 4 <= |source|
    requires source[p] == 0 && source[p + 1] == 0 && source[p + 2] == 0 && source[p + 3] == x
    ensures U32At(source, p) == Ok(x)
  {
    var bytes := source[p..p + 4];
    assert bytes == [0, 0, 0, x] && bytes[..2] == [0, 0] && bytes[2..] == [0, x];
  }

  lemma SplitHeader()
    ensures HeaderAt(SPLIT_FILE) == Ok(Counts(2, 1))
  {
    var s := SPLIT_FILE;
    assert s[0..6] == [s[0], s[1], s[2], s[3], s[4], s[5]] == MAGIC;
    assert s[6..8] == [s[6], s[7]] == [0, 1];
    SmallWord(s, 8, 2);
    SmallWord(s, 12, 1);
  }

  lemma OneLetter(letter: Byte, name: string)
    requires IsNameByte(letter) && name == [letter as char]
    ensures ValidatedName([letter]) == Ok(name)
  {
    assert forall k :: 0 <= k < |[letter]| ==> IsNameByte([letter][k]);
    assert NameOf([letter])[0] as int == letter;
    assert NameOf([letter]) == name;
  }

  lemma OneWord(source: seq<Byte>, p: nat, x: Word)
    requires U32At(source, p) == Ok(x)
    ensures WordsAt(source, p, 1) == Ok([x])
  {
    hide U32At;
    assert WordsAt(source, p, 0) == Ok([]);
    assert [] + [x] == [x];
  }

  lemma SplitFirst()
    ensures SymbolAt(SPLIT_FILE, 16, {}) == Ok(RawSymbol("a", SplitSymbols()["a"], 31))
  {
    var s := SPLIT_FILE;
    assert s[22..23] == [s[22]] == [97];
    SmallWord(s, 17, 47);
    SmallWord(s, 23, 1);
    SmallWord(s, 27, 47);
    OneLetter(97, "a");
    hide U32At, ValidatedName;
    OneWord(s, 27, 47);
    hide WordsAt;
  }

  lemma SplitSecond()
    ensures SymbolAt(SPLIT_FILE, 31, {"a"}) == Ok(RawSymbol("b", SplitSymbols()["b"], 42))
  {
    var s := SPLIT_FILE;
    assert s[37..38] == [s[37]] == [98];
    SmallWord(s, 32, 0);
    SmallWord(s, 38, 0);
    OneLetter(98, "b");
    assert WordsAt(s, 42, 0) == Ok([]);
    hide U32At, ValidatedName;
  }

  lemma SplitTable()
    ensures TableAt(SPLIT_FILE, 16, 2, map[]) == Ok(RawTable(SplitSymbols(), 42))
  {
    var s := SPLIT_FILE;
    SplitFirst();
    SplitSecond();
    hide SymbolAt;
    var none, one: SymbolTable := map[], map["a" := SplitSymbols()["a"]];
    assert none.Keys == {} && one.Keys == {"a"};
    assert none["a" := SplitSymbols()["a"]] == one && one["b" := SplitSymbols()["b"]] == SplitSymbols();
    assert TableAt(s, 42, 0, SplitSymbols()) == Ok(RawTable(SplitSymbols(), 42));
    assert TableAt(s, 31, 1, one) == TableAt(s, 42, 0, SplitSymbols());
  }

  lemma SplitSections()
    ensures HeadersAt(SPLIT_FILE, 42, 1) == Ok([SectionHeader(0x04, 3)])
    ensures SectionsAt(SPLIT_FILE, 47, [SectionHeader(0x04, 3)], 1) == Ok(ThreeZeros())
  {
    var s := SPLIT_FILE;
    assert s[47..50] == [s[47], s[48], s[49]] == [0, 0, 0];
    SmallWord(s, 43, 3);
    assert HeadersAt(s, 42, 0) == Ok([]);
    assert [] + [SectionHeader(0x04, 3)] == [SectionHeader(0x04, 3)];
    hide U32At;
    assert SectionsAt(s, 47, [SectionHeader(0x04, 3)], 0) == Ok([]);
    assert BufferAt(s, 47, 3) == Ok([0, 0, 0]);
    assert [] + [Section(0x04, 0, 3, [0, 0, 0])] == ThreeZeros();
  }

  lemma SplitLayout()
    ensures Layout(SPLIT_FILE) == Ok(RawFile(SplitSymbols(), 47, ThreeZeros()))
  {
    SplitHeader();
    SplitTable();
    SplitSections();
    hide HeaderAt, TableAt, HeadersAt, SectionsAt;
  }

  lemma FirstSplits()
    ensures Contiguous(ThreeZeros())
    ensures CheckSymbol(SplitSymbols()["a"], 47, ThreeZeros()) == Err(SplitSlot)
  {
    var sections := ThreeZeros();
    assert Placed(sections, 0);
    assert SplitsSection(sections, 0, 0);
    hide SplitsSection;
    assert ReferenceSplits(47, 47, sections);
    hide ReferenceSplits;
    assert FirstToSplit([47], 0, 47, sections);
    hide FirstToSplit;
    SymbolExactly(SplitSymbols()["a"], 47, sections);
  }

  lemma SecondTooSmall()
    ensures CheckSymbol(SplitSymbols()["b"], 47, ThreeZeros()) == Err(AddressTooSmall)
  {}

  lemma SplitOrders()
    ensures Visits(["a", "b"], SplitSymbols()) && Visits(["b", "a"], SplitSymbols())
  {
    assert ["a", "b"][0] == "a" && ["a", "b"][1] == "b" && ["b", "a"][0] == "b" && ["b", "a"][1] == "a";
  }

  /** Parsing this file panics if `a` is checked first, and reports an error if `b` is. */
  lemma SplitFileCanPanic()
    ensures Layout(SPLIT_FILE) == Ok(RawFile(SplitSymbols(), 47, ThreeZeros()))
    ensures FilePanicsIn(SPLIT_FILE, ["a", "b"])
    ensures ParsesIn(SPLIT_FILE, ["b", "a"], Err(AddressTooSmall))
  {
    SplitLayout();
    FirstSplits();
    SecondTooSmall();
    SplitOrders();
    assert |SPLIT_FILE| < WORD_LIMIT;
    hide Layout, CheckSymbol, Visits, SplitSymbols, ThreeZeros, SPLIT_FILE;
    FilePanics(SPLIT_FILE, ["a", "b"]);
  }
}
