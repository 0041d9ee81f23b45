/** The two implementations of RAM (simulatron-vm, ram_lazy.rs and ram_eager.rs). */
module Ram {
  import opened Bytes
  import Memory

  const RAM_SIZE := Memory.RAM_SIZE
  const PAGE_SIZE := 0x1000

  type Page = p: seq<Byte> | |p| == PAGE_SIZE witness seq(PAGE_SIZE, _ => 0)

  type Pages = map<nat, Page>

  function BlankPage(): (page: Page)
    ensures forall k :: 0 <= k < PAGE_SIZE ==> page[k] == 0
  {
    seq(PAGE_SIZE, _ => 0)
  }

  function Get(pages: Pages, index: nat): Byte {
    var page := index / PAGE_SIZE;
    if page in pages then pages[page][index % PAGE_SIZE] else 0
  }

  function Put(pages: Pages, index: nat, value: Byte): Pages {
    var page := index / PAGE_SIZE;
    var before := if page in pages then pages[page] else BlankPage();
    pages[page := before[index % PAGE_SIZE := value]]
  }

  /** The pages hold the same bytes as the flat RAM. */
  ghost predicate Represents(pages: Pages, flat: seq<Byte>) {
    |flat| == RAM_SIZE && forall i: nat :: i < RAM_SIZE ==> Get(pages, i) == flat[i]
  }

  lemma DivModEqual(i: nat, j: nat)
    requires i / PAGE_SIZE == j / PAGE_SIZE && i % PAGE_SIZE == j % PAGE_SIZE
    ensures i == j
  {}

  lemma PutThenGet(pages: Pages, index: nat, value: Byte, i: nat)
    ensures Get(Put(pages, index, value), i) == if i == index then value else Get(pages, i)
  {
    if i / PAGE_SIZE == index / PAGE_SIZE && i % PAGE_SIZE == index % PAGE_SIZE {
      DivModEqual(i, index);
    }
  }

  lemma PutRepresents(pages: Pages, flat: seq<Byte>, index: nat, value: Byte)
    requires Represents(pages, flat) && index < RAM_SIZE
    ensures Represents(Put(pages, index, value), flat[index := value])
  {
    hide Put, Get;
    forall i: nat | i < RAM_SIZE ensures Get(Put(pages, index, value), i) == flat[index := value][i] {
      PutThenGet(pages, index, value, i);
    }
  }

  // ----- Sequences of accesses -----

  datatype Access = ReadAt(index: nat) | WriteAt(index: nat, value: Byte)

  ghost predicate InRange(accesses: seq<Access>) {
    forall k :: 0 <= k < |accesses| ==> accesses[k].index < RAM_SIZE
  }

  /** The bytes read by the first `n` accesses of the flat RAM, and what it holds then. */
  function FlatRun(flat: seq<Byte>, accesses: seq<Access>, n: nat): (r: (seq<Byte>, seq<Byte>))
    requires |flat| == RAM_SIZE && n <= |accesses| && InRange(accesses)
    ensures |r.1| == RAM_SIZE
  {
    if n == 0 then ([], flat)
    else
      var (read, now) := FlatRun(flat, accesses, n - 1);
      match accesses[n - 1]
      case ReadAt(index) => (read + [now[index]], now)
      case WriteAt(index, value) => (read, now[index := value])
  }

  function PagedRun(pages: Pages, accesses: seq<Access>, n: nat): (seq<Byte>, Pages)
    requires n <= |accesses|
  {
    if n == 0 then ([], pages)
    else
      var (read, now) := PagedRun(pages, accesses, n - 1);
      match accesses[n - 1]
      case ReadAt(index) => (read + [Get(now, index)], now)
      case WriteAt(index, value) => (read, Put(now, index, value))
  }

  /** Over any sequence of reads and writes both kinds of RAM answer the same. */
  lemma {:induction false} LazyRefinesEager(pages: Pages, flat: seq<Byte>, accesses: seq<Access>, n: nat)
    requires Represents(pages, flat) && n <= |accesses| && InRange(accesses)
    ensures PagedRun(pages, accesses, n).0 == FlatRun(flat, accesses, n).0
    ensures Represents(PagedRun(pages, accesses, n).1, FlatRun(flat, accesses, n).1)
  {
    hide Get, Put;
    if n > 0 {
      LazyRefinesEager(pages, flat, accesses, n - 1);
      match accesses[n - 1] {
        case ReadAt(index) =>
        case WriteAt(index, value) =>
          PutRepresents(PagedRun(pages, accesses, n - 1).1, FlatRun(flat, accesses, n - 1).1, index, value);
      }
    }
  }

  /** Two new RAMs, one of each kind, return the same bytes over every sequence of reads and writes, and
      hold the same bytes after it. */
  lemma NewRamsAgree(accesses: seq<Access>)
    requires InRange(accesses)
    ensures var paged, flat := PagedRun(map[], accesses, |accesses|), FlatRun(seq(RAM_SIZE, _ => 0), accesses, |accesses|);
      paged.0 == flat.0 && Represents(paged.1, flat.1)
  {
    LazyRefinesEager(map[], seq(RAM_SIZE, _ => 0), accesses, |accesses|);
  }

  /** A page of 4096 bytes is allocated exactly when it has been written to; reading never allocates. */
  lemma {:induction false} AllocatedExactly(accesses: seq<Access>, n: nat, page: nat)
    requires n <= |accesses|
    ensures page in PagedRun(map[], accesses, n).1
       <==> exists k :: 0 <= k < n && accesses[k].WriteAt? && accesses[k].index / PAGE_SIZE == page
    ensures page in PagedRun(map[], accesses, n).1 ==> |PagedRun(map[], accesses, n).1[page]| == 4096
  {
    hide Get;
    if n > 0 {
      AllocatedExactly(accesses, n - 1, page);
    }
  }

  class EagerRam {
    const data: array<Byte>

    constructor ()
      ensures fresh(data) && Valid() && Contents() == seq(RAM_SIZE, _ => 0)
    {
      data := new Byte[RAM_SIZE](_ => 0);
    }

    ghost predicate Valid() { data.Length == RAM_SIZE }

    ghost function Contents(): seq<Byte>
      reads data
    {
      data[..]
    }

    method Read(index: nat) returns (value: Byte)
      requires Valid() && index < RAM_SIZE
      ensures value == Contents()[index]
    {
      value := data[index];
    }

    method Write(index: nat, value: Byte)
      requires Valid() && index < RAM_SIZE
      modifies data
      ensures Contents() == old(Contents())[index := value]
    {
      data[index] := value;
    }
  }

  class LazyRam {
    var pages: Pages

    constructor ()
      ensures pages == map[]
      ensures forall i: nat :: Get(pages, i) == 0
    {
      pages := map[];
    }

    /** Reading leaves the pages as they are. */
    method Read(index: nat) returns (value: Byte)
      ensures value == Get(pages, index)
    {
      var number := index / PAGE_SIZE;
      if number in pages {
        value := pages[number][index % PAGE_SIZE];
      } else {
        value := 0;
      }
    }

    /** Writing changes one byte, allocating its page of zeros first if need be. */
    method Write(index: nat, value: Byte)
      modifies this
      ensures pages == Put(old(pages), index, value)
      ensures forall i: nat :: Get(pages, i) == if i == index then value else Get(old(pages), i)
    {
      forall i: nat ensures Get(Put(pages, index, value), i) == if i == index then value else Get(pages, i) {
        PutThenGet(pages, index, value, i);
      }
      var number := index / PAGE_SIZE;
      if number !in pages {
        pages := pages[number := BlankPage()];
      }
      pages := pages[number := pages[number][index % PAGE_SIZE := value]];
    }
  }
}
