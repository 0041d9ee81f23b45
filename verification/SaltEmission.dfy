/** Writing the object file (simulatron-salt, codegen.rs): statistics first, then everything at the
    places computed from them. */
module SaltEmission {
  import opened Bytes
  import opened Wrappers
  import opened ObjectData
  import opened SaltSymbols
  import opened SaltLayout
  import SilkParser

  // ----- Statistics -----

  datatype Stats = Stats(entries: nat, size: nat, readonlySize: nat, readwriteSize: nat)

  const NOTHING := Stats(0, 0, 0, 0)

  function Plus(a: Stats, b: Stats): Stats {
    Stats(a.entries + b.entries, a.size + b.size, a.readonlySize + b.readonlySize, a.readwriteSize + b.readwriteSize)
  }

  function StatsOf(name: string, symbol: Symbol): Stats {
    var size := SYMBOL_HEADER_LENGTH + |name| + 4 * |References(symbol)|;
    match symbol
    case ConstantSymbol(_, _) => NOTHING
    case DataSymbol(_, mutable, dataSize, _, _) =>
      if mutable then Stats(1, size, 0, dataSize) else Stats(1, size, dataSize, 0)
    case LabelSymbol(_, _, _) => Stats(1, size, 0, 0)
    case ExternalSymbol(_) => Stats(1, size, 0, 0)
  }

  /** The sum over those of the first `n` names that are in `done`. */
  ghost function SumOver(symbols: Symbols, order: seq<string>, done: set<string>, n: nat): Stats
    requires n <= |order| && forall k :: 0 <= k < |order| ==> order[k] in symbols
  {
    if n == 0 then NOTHING
    else
      var before := SumOver(symbols, order, done, n - 1);
      if order[n - 1] in done then Plus(before, StatsOf(order[n - 1], symbols[order[n - 1]])) else before
  }

  lemma {:induction false} SumAdds(symbols: Symbols, order: seq<string>, done: set<string>, name: string, n: nat)
    requires Enumerates(order, symbols) && n <= |order| && name in symbols && name !in done
    ensures SumOver(symbols, order, done + {name}, n)
         == if name in order[..n] then Plus(SumOver(symbols, order, done, n), StatsOf(name, symbols[name]))
            else SumOver(symbols, order, done, n)
  {
    hide StatsOf;
    if n > 0 {
      SumAdds(symbols, order, done, name, n - 1);
      assert name in order[..n] <==> name in order[..n - 1] || name == order[n - 1];
      assert order[n - 1] !in order[..n - 1];
    }
  }

  lemma {:induction false} NothingDone(symbols: Symbols, order: seq<string>, n: nat)
    requires n <= |order| && forall k :: 0 <= k < |order| ==> order[k] in symbols
    ensures SumOver(symbols, order, {}, n) == NOTHING
  {
    if n > 0 {
      NothingDone(symbols, order, n - 1);
    }
  }

  lemma SizesMatch(a: Assembly, name: string)
    requires Emittable(a) && name in a.symbols
    ensures a.symbols[name].DataSymbol? ==> a.symbols[name].size == |a.symbols[name].initialiser|
  {
    assert SymbolReady(name, a.symbols[name], |a.code|);
  }

  lemma {:induction false} SumIsSize(a: Assembly, n: nat)
    requires Emittable(a) && n <= |a.order|
    ensures SumOver(a.symbols, a.order, a.symbols.Keys, n)
         == Stats(EntryCount(a.symbols, a.order, n), TableSize(a.symbols, a.order, n),
                  |DataOf(a.symbols, a.order, false, n)|, |DataOf(a.symbols, a.order, true, n)|)
  {
    hide SlotsValid, InstructionBase;
    if n > 0 {
      SumIsSize(a, n - 1);
      SizesMatch(a, a.order[n - 1]);
    }
  }

  /** The statistics are the sizes of the parts of the file, whatever order the table is visited in. */
  method SymbolStats(symbols: Symbols, ghost a: Assembly) returns (stats: Stats)
    requires Emittable(a) && a.symbols == symbols
    ensures stats.entries == EntryCount(symbols, a.order, |a.order|)
    ensures stats.size == TableSize(symbols, a.order, |a.order|)
    ensures stats.readonlySize == |AllData(a, false)| && stats.readwriteSize == |AllData(a, true)|
  {
    hide SlotsValid, InstructionBase, StatsOf;
    stats := NOTHING;
    var rest := symbols.Keys;
    NothingDone(symbols, a.order, |a.order|);
    assert symbols.Keys - rest == {};
    while rest != {}
      invariant rest <= symbols.Keys
      invariant stats == SumOver(symbols, a.order, symbols.Keys - rest, |a.order|)
    {
      var name :| name in rest;
      SumAdds(symbols, a.order, symbols.Keys - rest, name, |a.order|);
      assert a.order[..|a.order|] == a.order;
      assert symbols.Keys - rest + {name} == symbols.Keys - (rest - {name});
      stats := Plus(stats, StatsOf(name, symbols[name]));
      rest := rest - {name};
    }
    assert symbols.Keys - rest == symbols.Keys;
    SumIsSize(a, |a.order|);
  }

  // ----- The file -----

  datatype EmitError = EmptyFile

  /** What has been written and what comes next while the symbol table is written. */
  datatype Writer = Writer(
    simobj: seq<Byte>, nextReadonly: nat, nextReadwrite: nat, readonlyData: seq<Byte>, readwriteData: seq<Byte>)

  /** The writer after the first `k` symbols; `start` is everything before the symbol table. */
  ghost predicate WrittenUpTo(a: Assembly, start: seq<Byte>, w: Writer, k: nat)
    requires Emittable(a) && k <= |a.order|
  {
    && w.simobj == start + TableBytes(a, k)
    && w.readonlyData == DataOf(a.symbols, a.order, false, k)
    && w.readwriteData == DataOf(a.symbols, a.order, true, k)
    && w.nextReadonly == InstructionBase(a) + |a.code| + |w.readonlyData|
    && w.nextReadwrite == InstructionBase(a) + |a.code| + |AllData(a, false)| + |w.readwriteData|
  }

  method WriteReferences(references: seq<nat>, base: nat) returns (bytes: seq<Byte>)
    requires forall k :: 0 <= k < |references| ==> base + references[k] < WORD_LIMIT
    ensures bytes == ReferenceBytes(references, base, |references|)
  {
    bytes := [];
    for i := 0 to |references|
      invariant bytes == ReferenceBytes(references, base, i)
    {
      bytes := bytes + Be32(base + references[i]);
    }
  }

  method WriteEntry(simobj: seq<Byte>, typeByte: Byte, value: Word, name: string, references: seq<nat>, base: nat)
    returns (longer: seq<Byte>)
    requires ValidName(name) && |references| < WORD_LIMIT
    requires forall k :: 0 <= k < |references| ==> base + references[k] < WORD_LIMIT
    ensures longer == simobj + EntryBytes(typeByte, value, name, references, base)
  {
    longer := simobj + [typeByte];
    longer := longer + Be32(value);
    longer := longer + [|name|];
    longer := longer + NameBytes(name);
    longer := longer + Be32(|references|);
    var bytes := WriteReferences(references, base);
    longer := longer + bytes;
    JoinSix(simobj, [typeByte], Be32(value), [|name|], NameBytes(name), Be32(|references|), bytes);
  }

  lemma JoinSix(s: seq<Byte>, a: seq<Byte>, b: seq<Byte>, c: seq<Byte>, d: seq<Byte>, e: seq<Byte>, f: seq<Byte>)
    ensures s + a + b + c + d + e + f == s + (a + (b + (c + (d + (e + f)))))
  {}

  /** Write one symbol; a data symbol's initialiser moves to the data of its section. */
  method WriteSymbol(w: Writer, name: string, symbol: Symbol, base: nat, ghost a: Assembly, ghost start: seq<Byte>, ghost k: nat)
    returns (next: Writer)
    requires Emittable(a) && k < |a.order| && name == a.order[k] && symbol == a.symbols[name]
    requires base == InstructionBase(a) && WrittenUpTo(a, start, w, k)
    ensures var m := k + 1; WrittenUpTo(a, start, next, m)
  {
    hide SlotsValid, Sections, InstructionBase, EntryBytes, AllData, ContentLength;
    FieldsFit(a, k);
    assert SymbolReady(name, symbol, |a.code|);
    var simobj := w.simobj;
    match symbol {
      case ConstantSymbol(_, _) =>
        next := w;
      case DataSymbol(isPublic, mutable, size, initialiser, references) =>
        if mutable {
          simobj := WriteEntry(simobj, if isPublic then 0x50 else 0x49, w.nextReadwrite, name, references, base);
          next := w.(simobj := simobj, nextReadwrite := w.nextReadwrite + size,
                     readwriteData := w.readwriteData + initialiser);
        } else {
          simobj := WriteEntry(simobj, if isPublic then 0x50 else 0x49, w.nextReadonly, name, references, base);
          next := w.(simobj := simobj, nextReadonly := w.nextReadonly + size,
                     readonlyData := w.readonlyData + initialiser);
        }
      case LabelSymbol(isPublic, AtOffset(offset), references) =>
        simobj := WriteEntry(simobj, if isPublic then 0x50 else 0x49, base + offset, name, references, base);
        next := w.(simobj := simobj);
      case ExternalSymbol(references) =>
        simobj := WriteEntry(simobj, 0x45, 0, name, references, base);
        next := w.(simobj := simobj);
    }
    assert next.simobj == w.simobj + SymbolBytes(a, k);
    JoinTable(start, TableBytes(a, k), SymbolBytes(a, k));
  }

  lemma JoinTable(start: seq<Byte>, table: seq<Byte>, more: seq<Byte>)
    ensures start + table + more == start + (table + more)
  {}

  // ----- Sections -----

  function OneHeader(flags: Byte, data: seq<Byte>): seq<Byte>
    requires |data| < WORD_LIMIT
  {
    if data == [] then [] else [flags] + Be32(|data|)
  }

  lemma {:induction false} HeadersOfPrefix(sections: seq<Section>, more: seq<Section>, n: nat)
    requires n <= |sections|
    ensures HeaderBytes(sections + more, n) == HeaderBytes(sections, n)
    ensures Joined(sections + more, n) == Joined(sections, n)
  {
    if n > 0 {
      HeadersOfPrefix(sections, more, n - 1);
    }
  }

  lemma AddedSection(sections: seq<Section>, flags: Byte, data: seq<Byte>)
    requires Total(sections) < WORD_LIMIT && |data| < WORD_LIMIT
    ensures var s := AddSection(sections, flags, data);
      && HeaderBytes(s, |s|) == HeaderBytes(sections, |sections|) + OneHeader(flags, data)
      && Flatten(s) == Flatten(sections) + data
      && |s| == |sections| + (if data == [] then 0 else 1)
      && (Contiguous(sections) ==> Contiguous(s))
  {
    if data != [] {
      var x := Section(flags, Total(sections), |data|, data);
      HeadersOfPrefix(sections, [x], |sections|);
      if Contiguous(sections) {
        forall i | 0 <= i <= |sections| ensures Placed(sections + [x], i) {
          if i < |sections| {
            assert Placed(sections, i);
          }
        }
      }
    }
  }

  /** The sections written are those that have any content. */
  lemma SectionsShape(a: Assembly)
    requires ContentLength(a) < WORD_LIMIT
    ensures HeaderBytes(Sections(a), |Sections(a)|)
         == OneHeader(CodeFlags(a.entrypoint), a.code)
          + (OneHeader(FLAG_READ, AllData(a, false)) + OneHeader(FLAG_READ + FLAG_WRITE, AllData(a, true)))
    ensures Flatten(Sections(a)) == a.code + (AllData(a, false) + AllData(a, true))
    ensures |Sections(a)| == (if a.code == [] then 0 else 1) + (if AllData(a, false) == [] then 0 else 1)
                           + (if AllData(a, true) == [] then 0 else 1)
    ensures Contiguous(Sections(a))
  {
    hide AddSection, AllData, OneHeader, HeaderBytes, Flatten;
    var code, readonly, readwrite := a.code, AllData(a, false), AllData(a, true);
    var one := AddSection([], CodeFlags(a.entrypoint), code);
    var two := AddSection(one, FLAG_READ, readonly);
    NoSections();
    AddedSection([], CodeFlags(a.entrypoint), code);
    AddedSection(one, FLAG_READ, readonly);
    AddedSection(two, FLAG_READ + FLAG_WRITE, readwrite);
    JoinThree(code, readonly, readwrite);
    JoinThree(OneHeader(CodeFlags(a.entrypoint), code), OneHeader(FLAG_READ, readonly), OneHeader(FLAG_READ + FLAG_WRITE, readwrite));
  }

  lemma NoSections()
    ensures HeaderBytes([], 0) == [] && Flatten([]) == [] && Contiguous([])
  {}

  lemma JoinThree(a: seq<Byte>, b: seq<Byte>, c: seq<Byte>)
    ensures [] + a + b + c == a + (b + c)
  {}

  /** Write the whole object file. The places computed in advance are the places reached. */
  method Emit(a: Assembly) returns (r: Result<seq<Byte>, EmitError>)
    requires Emittable(a)
    ensures r == if ContentLength(a) == 0 then Err(EmptyFile) else Ok(FileBytes(a))
  {
    hide SlotsValid, SymbolReady, Sections, HeaderBytes, OneHeader, TableSize, EntryCount, AllData, Flatten;
    var stats := SymbolStats(a.symbols, a);
    var simobj := SilkParser.MAGIC;
    simobj := simobj + Be16(SilkParser.ABI_VERSION);
    var sections := (if |a.code| > 0 then 1 else 0) + (if stats.readonlySize > 0 then 1 else 0)
      + if stats.readwriteSize > 0 then 1 else 0;
    if sections == 0 {
      return Err(EmptyFile);
    }
    SectionsShape(a);
    simobj := simobj + Be32(stats.entries);
    simobj := simobj + Be32(sections);
    var instructionBase := FILE_HEADER_LENGTH + stats.size + SECTION_HEADER_LENGTH * sections;
    var readonlyBase := instructionBase + |a.code|;
    var readwriteBase := readonlyBase + stats.readonlySize;
    var w := WriteTable(simobj, instructionBase, readonlyBase, readwriteBase, a);
    simobj := WriteSections(w.simobj, w, stats, instructionBase, a);
    JoinFile(Be16(SilkParser.ABI_VERSION), Be32(stats.entries), Be32(sections), TableBytes(a, |a.order|),
             HeaderBytes(Sections(a), |Sections(a)|), Flatten(Sections(a)));
    return Ok(simobj);
  }

  lemma JoinFile(a: seq<Byte>, b: seq<Byte>, c: seq<Byte>, d: seq<Byte>, e: seq<Byte>, f: seq<Byte>)
    ensures SilkParser.MAGIC + a + b + c + d + (e + f) == SilkParser.MAGIC + (a + (b + c + (d + (e + f))))
  {}

  /** Write the section headers and sections, checking the computed places on the way. */
  method WriteSections(simobj: seq<Byte>, w: Writer, stats: Stats, instructionBase: nat, a: Assembly) returns (longer: seq<Byte>)
    requires ContentLength(a) < WORD_LIMIT
    requires w.readonlyData == AllData(a, false) && w.readwriteData == AllData(a, true)
    requires stats.readonlySize == |w.readonlyData| && stats.readwriteSize == |w.readwriteData|
    requires instructionBase == |simobj| + SECTION_HEADER_LENGTH * |Sections(a)|
    ensures longer == simobj + (HeaderBytes(Sections(a), |Sections(a)|) + Flatten(Sections(a)))
  {
    hide AllData, Sections, Flatten, HeaderBytes, OneHeader;
    SectionsShape(a);
    longer := WriteHeader(simobj, |a.code|, CodeFlags(a.entrypoint), a.code);
    longer := WriteHeader(longer, stats.readonlySize, FLAG_READ, w.readonlyData);
    longer := WriteHeader(longer, stats.readwriteSize, FLAG_READ + FLAG_WRITE, w.readwriteData);
    JoinAfter(simobj, OneHeader(CodeFlags(a.entrypoint), a.code), OneHeader(FLAG_READ, w.readonlyData),
              OneHeader(FLAG_READ + FLAG_WRITE, w.readwriteData));
    ghost var afterHeaders := longer;
    assert |w.readonlyData| == stats.readonlySize;
    assert |w.readwriteData| == stats.readwriteSize;
    assert |longer| == instructionBase;
    longer := WriteData(longer, |a.code|, a.code);
    var readonlyBase := instructionBase + |a.code|;
    assert |longer| == readonlyBase;
    longer := WriteData(longer, stats.readonlySize, w.readonlyData);
    assert |longer| == readonlyBase + stats.readonlySize;
    longer := WriteData(longer, stats.readwriteSize, w.readwriteData);
    JoinAfter(afterHeaders, a.code, w.readonlyData, w.readwriteData);
    JoinTable(simobj, HeaderBytes(Sections(a), |Sections(a)|), Flatten(Sections(a)));
  }

  /** An empty section gets no header. */
  method WriteHeader(simobj: seq<Byte>, size: nat, flags: Byte, data: seq<Byte>) returns (longer: seq<Byte>)
    requires size == |data| < WORD_LIMIT
    ensures longer == simobj + OneHeader(flags, data)
  {
    longer := simobj;
    if size > 0 {
      longer := longer + ([flags] + Be32(|data|));
    }
  }

  method WriteData(simobj: seq<Byte>, size: nat, data: seq<Byte>) returns (longer: seq<Byte>)
    requires size == |data|
    ensures longer == simobj + data
  {
    longer := simobj;
    if size > 0 {
      longer := longer + data;
    }
  }

  lemma JoinAfter(s: seq<Byte>, a: seq<Byte>, b: seq<Byte>, c: seq<Byte>)
    ensures s + a + b + c == s + (a + (b + c))
  {}

  method WriteTable(simobj: seq<Byte>, base: nat, readonlyBase: nat, readwriteBase: nat, a: Assembly) returns (w: Writer)
    requires Emittable(a)
    requires base == InstructionBase(a) && readonlyBase == base + |a.code| && readwriteBase == readonlyBase + |AllData(a, false)|
    ensures w.simobj == simobj + TableBytes(a, |a.order|)
    ensures w.readonlyData == AllData(a, false) && w.readwriteData == AllData(a, true)
  {
    hide SlotsValid, SymbolReady, Sections, TableSize, InstructionBase, WrittenUpTo;
    w := Writer(simobj, readonlyBase, readwriteBase, [], []);
    NothingWritten(a, simobj, w);
    for k := 0 to |a.order|
      invariant WrittenUpTo(a, simobj, w, k)
    {
      w := WriteSymbol(w, a.order[k], a.symbols[a.order[k]], base, a, simobj, k);
    }
    EverythingWritten(a, simobj, w);
  }

  lemma NothingWritten(a: Assembly, start: seq<Byte>, w: Writer)
    requires Emittable(a) && w.simobj == start && w.readonlyData == [] && w.readwriteData == []
    requires w.nextReadonly == InstructionBase(a) + |a.code|
    requires w.nextReadwrite == w.nextReadonly + |AllData(a, false)|
    ensures WrittenUpTo(a, start, w, 0)
  {
    hide Emittable, InstructionBase, AllData;
    assert start + [] == start;
  }

  lemma EverythingWritten(a: Assembly, start: seq<Byte>, w: Writer)
    requires Emittable(a) && WrittenUpTo(a, start, w, |a.order|)
    ensures w.simobj == start + TableBytes(a, |a.order|)
    ensures w.readonlyData == AllData(a, false) && w.readwriteData == AllData(a, true)
  {
    hide Emittable, InstructionBase, TableBytes;
  }
}
