/** The order in which references are patched: when the linker's check that a slot is still zero can
    fail, and what overlapping references do to the image. */
module PatchOrder {
  import opened Bytes
  import opened Wrappers
  import opened ObjectData
  import opened SymbolTables
  import opened ImageLayout
  import opened Patching

  /** Four bytes to be written at a slot. */
  datatype Write = Write(slot: nat, bytes: seq<Byte>)

  predicate Fits(image: seq<Byte>, w: Write) {
    |w.bytes| == 4 && w.slot + 4 <= |image|
  }

  predicate Covers(w: Write, q: int) {
    w.slot <= q < w.slot + 4
  }

  /** The write puts a byte other than zero at `q`. */
  predicate Marks(w: Write, q: int) {
    |w.bytes| == 4 && Covers(w, q) && w.bytes[q - w.slot] != 0
  }

  /** Where the two overlap, the first writes zeros. */
  ghost predicate ZeroWhereShared(a: Write, b: Write) {
    forall q :: Marks(a, q) ==> !Covers(b, q)
  }

  ghost predicate Ready(image: seq<Byte>, ws: seq<Write>) {
    forall i :: 0 <= i < |ws| ==> Fits(image, ws[i]) && ZeroSlot(image, ws[i].slot)
  }

  // ----- Sequences of writes -----

  /** The first `n` writes one after the other, each checked; nothing if a check fails. */
  function Apply(image: seq<Byte>, ws: seq<Write>, n: nat): (r: Option<seq<Byte>>)
    requires n <= |ws| && forall i :: 0 <= i < |ws| ==> Fits(image, ws[i])
    ensures r.Some? ==> |r.value| == |image|
  {
    if n == 0 then Some(image)
    else
      match Apply(image, ws, n - 1)
      case None => None
      case Some(before) => CheckedPatch(before, ws[n - 1].slot, ws[n - 1].bytes)
  }

  /** Each write leaves zeros to those after it. */
  ghost predicate InOrder(ws: seq<Write>, n: nat)
    requires n <= |ws|
  {
    forall i, j :: 0 <= i < j < n ==> ZeroWhereShared(ws[i], ws[j])
  }

  /** Each write leaves zeros to all others. */
  ghost predicate Pairwise(ws: seq<Write>) {
    forall i, j :: 0 <= i < |ws| && 0 <= j < |ws| && i != j ==> ZeroWhereShared(ws[i], ws[j])
  }

  ghost predicate Cross(a: seq<Write>, b: seq<Write>) {
    forall i, j :: 0 <= i < |a| && 0 <= j < |b| ==> ZeroWhereShared(a[i], b[j])
  }

  /** What the writes leave at `q`: the byte other than zero that one of them puts there, if any. */
  ghost predicate WrittenAt(image: seq<Byte>, ws: seq<Write>, n: nat, result: seq<Byte>, q: nat)
    requires n <= |ws| && q < |image| == |result|
  {
    && (forall i :: 0 <= i < n && Marks(ws[i], q) ==> result[q] == ws[i].bytes[q - ws[i].slot])
    && ((forall i :: 0 <= i < n ==> !Marks(ws[i], q)) ==> result[q] == image[q])
  }

  ghost predicate Written(image: seq<Byte>, ws: seq<Write>, n: nat, result: seq<Byte>)
    requires n <= |ws|
  {
    |result| == |image| && forall q :: 0 <= q < |image| ==> WrittenAt(image, ws, n, result, q)
  }

  /** The checks pass exactly if every write leaves zeros where a later one overlaps it, and then each
      byte is the one byte other than zero written there. */
  lemma {:induction false} ApplyExactly(image: seq<Byte>, ws: seq<Write>, n: nat)
    requires n <= |ws| && Ready(image, ws)
    ensures Apply(image, ws, n).Some? <==> InOrder(ws, n)
    ensures Apply(image, ws, n).Some? ==> Written(image, ws, n, Apply(image, ws, n).value)
  {
    if n > 0 {
      ApplyExactly(image, ws, n - 1);
      if InOrder(ws, n - 1) {
        OneMoreWrite(image, ws, n, Apply(image, ws, n - 1).value);
      } else {
        assert !InOrder(ws, n);
      }
    }
  }

  lemma OneMoreWrite(image: seq<Byte>, ws: seq<Write>, n: nat, before: seq<Byte>)
    requires 0 < n <= |ws| && Ready(image, ws) && InOrder(ws, n - 1) && Written(image, ws, n - 1, before)
    ensures ZeroSlot(before, ws[n - 1].slot) <==> InOrder(ws, n)
    ensures ZeroSlot(before, ws[n - 1].slot) ==>
      Written(image, ws, n, Splice(before, ws[n - 1].slot, ws[n - 1].bytes))
  {
    hide Written, InOrder;
    ZeroMeansUnmarked(image, ws, n, before);
    LastInOrder(ws, n);
    if ZeroSlot(before, ws[n - 1].slot) {
      var after := Splice(before, ws[n - 1].slot, ws[n - 1].bytes);
      SplicedIsWritten(image, ws, n, before, after);
    }
  }

  ghost predicate LastUnmarked(ws: seq<Write>, n: nat)
    requires 0 < n <= |ws|
  {
    forall i, q :: 0 <= i < n - 1 && Marks(ws[i], q) ==> !Covers(ws[n - 1], q)
  }

  lemma LastInOrder(ws: seq<Write>, n: nat)
    requires 0 < n <= |ws| && InOrder(ws, n - 1)
    ensures InOrder(ws, n) <==> LastUnmarked(ws, n)
  {
    if LastUnmarked(ws, n) {
      forall i, j | 0 <= i < j < n ensures ZeroWhereShared(ws[i], ws[j]) {}
    }
    if InOrder(ws, n) {
      forall i, q | 0 <= i < n - 1 && Marks(ws[i], q) ensures !Covers(ws[n - 1], q) {
        assert ZeroWhereShared(ws[i], ws[n - 1]);
      }
    }
  }

  lemma SlotBytes(image: seq<Byte>, r: nat)
    requires r + 4 <= |image|
    ensures ZeroSlot(image, r) <==> forall q :: r <= q < r + 4 ==> image[q] == 0
  {
    assert image[r..r + 4] == [image[r], image[r + 1], image[r + 2], image[r + 3]];
  }

  lemma ZeroMeansUnmarked(image: seq<Byte>, ws: seq<Write>, n: nat, before: seq<Byte>)
    requires 0 < n <= |ws| && Ready(image, ws) && Written(image, ws, n - 1, before)
    ensures ZeroSlot(before, ws[n - 1].slot) <==> LastUnmarked(ws, n)
  {
    var last := ws[n - 1];
    SlotBytes(before, last.slot);
    SlotBytes(image, last.slot);
    if LastUnmarked(ws, n) {
      forall q | last.slot <= q < last.slot + 4 ensures before[q] == 0 {
        assert WrittenAt(image, ws, n - 1, before, q) && Covers(last, q);
      }
    }
    if ZeroSlot(before, last.slot) {
      forall i, q | 0 <= i < n - 1 && Covers(last, q) ensures !Marks(ws[i], q) {
        assert WrittenAt(image, ws, n - 1, before, q);
      }
    }
  }

  lemma SplicedIsWritten(image: seq<Byte>, ws: seq<Write>, n: nat, before: seq<Byte>, after: seq<Byte>)
    requires 0 < n <= |ws| && Ready(image, ws) && Written(image, ws, n - 1, before)
    requires ZeroSlot(before, ws[n - 1].slot) && LastUnmarked(ws, n)
    requires after == Splice(before, ws[n - 1].slot, ws[n - 1].bytes)
    ensures Written(image, ws, n, after)
  {
    var last := ws[n - 1];
    SlotBytes(before, last.slot);
    SlotBytes(image, last.slot);
    forall q | 0 <= q < |image| ensures WrittenAt(image, ws, n, after, q) {
      assert WrittenAt(image, ws, n - 1, before, q);
      assert after[q] == if Covers(last, q) then last.bytes[q - last.slot] else before[q];
    }
  }

  ghost predicate SameMembers(a: seq<Write>, b: seq<Write>) {
    forall w :: w in a <==> w in b
  }

  lemma MarkedInBoth(image: seq<Byte>, a: seq<Write>, b: seq<Write>, x: seq<Byte>, y: seq<Byte>, q: nat, i: nat)
    requires SameMembers(a, b) && q < |image| == |x| == |y| && i < |a| && Marks(a[i], q)
    requires WrittenAt(image, a, |a|, x, q) && WrittenAt(image, b, |b|, y, q)
    ensures x[q] == y[q]
  {
    assert a[i] in b;
    var j :| 0 <= j < |b| && b[j] == a[i];
  }

  lemma WrittenAgree(image: seq<Byte>, a: seq<Write>, b: seq<Write>, x: seq<Byte>, y: seq<Byte>, q: nat)
    requires SameMembers(a, b) && q < |image| == |x| == |y|
    requires WrittenAt(image, a, |a|, x, q) && WrittenAt(image, b, |b|, y, q)
    ensures x[q] == y[q]
  {
    hide SameMembers, Marks;
    if i: nat :| i < |a| && Marks(a[i], q) {
      MarkedInBoth(image, a, b, x, y, q, i);
    } else if j: nat :| j < |b| && Marks(b[j], q) {
      SameMembersBack(a, b);
      MarkedInBoth(image, b, a, y, x, q, j);
    }
  }

  lemma SameMembersBack(a: seq<Write>, b: seq<Write>)
    requires SameMembers(a, b)
    ensures SameMembers(b, a)
  {}

  /** The same writes in another order: if both orders pass the checks, they leave the same image. */
  lemma PassingWritesAgree(image: seq<Byte>, a: seq<Write>, b: seq<Write>)
    requires Ready(image, a) && Ready(image, b) && SameMembers(a, b)
    requires Apply(image, a, |a|).Some? && Apply(image, b, |b|).Some?
    ensures Apply(image, a, |a|) == Apply(image, b, |b|)
  {
    hide InOrder, SameMembers, WrittenAt, Fits, ZeroSlot, Apply;
    ApplyExactly(image, a, |a|);
    ApplyExactly(image, b, |b|);
    var x, y := Apply(image, a, |a|).value, Apply(image, b, |b|).value;
    forall q | 0 <= q < |image| ensures x[q] == y[q] {
      assert WrittenAt(image, a, |a|, x, q) && WrittenAt(image, b, |b|, y, q);
      WrittenAgree(image, a, b, x, y, q);
    }
    assert x == y;
  }

  /** Two references: both orders pass the check exactly if each writes zeros wherever they overlap, and
      then the image is the same. */
  lemma BothOrdersPass(image: seq<Byte>, a: Write, b: Write)
    requires Ready(image, [a, b]) && Ready(image, [b, a])
    ensures Apply(image, [a, b], 2).Some? && Apply(image, [b, a], 2).Some?
       <==> ZeroWhereShared(a, b) && ZeroWhereShared(b, a)
    ensures ZeroWhereShared(a, b) && ZeroWhereShared(b, a) ==> Apply(image, [a, b], 2) == Apply(image, [b, a], 2)
  {
    ApplyExactly(image, [a, b], 2);
    ApplyExactly(image, [b, a], 2);
    if ZeroWhereShared(a, b) && ZeroWhereShared(b, a) {
      PassingWritesAgree(image, [a, b], [b, a]);
    }
  }

  /** References that do not overlap share nothing. */
  lemma ApartShareNothing(a: Write, b: Write)
    requires Apart(a.slot, b.slot)
    ensures ZeroWhereShared(a, b) && ZeroWhereShared(b, a)
  {}

  /** After all writes every slot holds its bytes exactly if each write leaves zeros to all others,
      earlier or later. */
  lemma AllHoldExactly(image: seq<Byte>, ws: seq<Write>)
    requires Ready(image, ws)
    ensures Pairwise(ws) <==>
      Apply(image, ws, |ws|).Some? && forall i :: 0 <= i < |ws| ==> Holding(Apply(image, ws, |ws|).value, ws[i])
  {
    ApplyExactly(image, ws, |ws|);
    var r := Apply(image, ws, |ws|);
    if r.Some? {
      hide Apply;
      if Pairwise(ws) {
        forall i | 0 <= i < |ws| ensures Holding(r.value, ws[i]) {
          HoldsAfter(image, ws, r.value, i);
        }
      }
      if forall i :: 0 <= i < |ws| ==> Holding(r.value, ws[i]) {
        forall i, j | 0 <= i < |ws| && 0 <= j < |ws| && i != j ensures ZeroWhereShared(ws[i], ws[j]) {
          if i > j {
            EarlierHolds(image, ws, r.value, j, i);
          }
        }
      }
    }
  }

  /** The bytes of the write are in place. */
  ghost predicate Holding(image: seq<Byte>, w: Write) {
    Fits(image, w) && image[w.slot..w.slot + 4] == w.bytes
  }

  lemma HoldsAfter(image: seq<Byte>, ws: seq<Write>, result: seq<Byte>, i: nat)
    requires Ready(image, ws) && Pairwise(ws) && Written(image, ws, |ws|, result) && i < |ws|
    ensures Holding(result, ws[i])
  {
    var w := ws[i];
    SlotBytes(image, w.slot);
    forall q | w.slot <= q < w.slot + 4 ensures result[q] == w.bytes[q - w.slot] {
      assert WrittenAt(image, ws, |ws|, result, q) && Covers(w, q);
      if !Marks(w, q) {
        forall j | 0 <= j < |ws| ensures !Marks(ws[j], q) {
          assert j != i ==> ZeroWhereShared(ws[j], w);
        }
      }
    }
    assert result[w.slot..w.slot + 4] == [result[w.slot], result[w.slot + 1], result[w.slot + 2], result[w.slot + 3]];
  }

  lemma EarlierHolds(image: seq<Byte>, ws: seq<Write>, result: seq<Byte>, i: nat, j: nat)
    requires Ready(image, ws) && InOrder(ws, |ws|) && Written(image, ws, |ws|, result)
    requires i < j < |ws| && Holding(result, ws[i])
    ensures ZeroWhereShared(ws[j], ws[i])
  {
    assert ZeroWhereShared(ws[i], ws[j]);
    forall q | Covers(ws[i], q) ensures !Marks(ws[j], q) {
      assert WrittenAt(image, ws, |ws|, result, q);
      assert result[q] == result[ws[i].slot..ws[i].slot + 4][q - ws[i].slot];
    }
  }

  // ----- Prefixes -----

  lemma {:induction false} ApplyPrefix(image: seq<Byte>, ws: seq<Write>, more: seq<Write>, n: nat)
    requires n <= |ws| && forall i :: 0 <= i < |ws + more| ==> Fits(image, (ws + more)[i])
    ensures forall i :: 0 <= i < |ws| ==> Fits(image, ws[i])
    ensures Apply(image, ws + more, n) == Apply(image, ws, n)
  {
    assert forall i :: 0 <= i < |ws| ==> (ws + more)[i] == ws[i];
    if n > 0 {
      ApplyPrefix(image, ws, more, n - 1);
    }
  }

  lemma {:induction false} FailureStays(image: seq<Byte>, ws: seq<Write>, k: nat, n: nat)
    requires k <= n <= |ws| && forall i :: 0 <= i < |ws| ==> Fits(image, ws[i])
    requires Apply(image, ws, k).None?
    ensures Apply(image, ws, n).None?
    decreases n
  {
    if k < n {
      FailureStays(image, ws, k, n - 1);
    }
  }

  lemma ApplyStep(image: seq<Byte>, ws: seq<Write>, n: nat)
    requires n < |ws| && Ready(image, ws) && Apply(image, ws, n).Some?
    ensures forall i :: 0 <= i < |ws| ==> Fits(image, ws[i])
    ensures var m := n + 1; Apply(image, ws, m) == CheckedPatch(Apply(image, ws, n).value, ws[n].slot, ws[n].bytes)
  {}

  lemma InOrderSplit(a: seq<Write>, b: seq<Write>)
    ensures InOrder(a + b, |a + b|) <==> InOrder(a, |a|) && InOrder(b, |b|) && Cross(a, b)
  {
    var ws := a + b;
    if InOrder(ws, |ws|) {
      forall i, j | 0 <= i < j < |a| ensures ZeroWhereShared(a[i], a[j]) {
        assert ZeroWhereShared(ws[i], ws[j]);
      }
      forall i, j | 0 <= i < j < |b| ensures ZeroWhereShared(b[i], b[j]) {
        assert ZeroWhereShared(ws[|a| + i], ws[|a| + j]);
      }
      forall i, j | 0 <= i < |a| && 0 <= j < |b| ensures ZeroWhereShared(a[i], b[j]) {
        assert ZeroWhereShared(ws[i], ws[|a| + j]);
      }
    }
  }

  lemma PairwiseSplit(a: seq<Write>, b: seq<Write>)
    ensures Pairwise(a + b) <==> Pairwise(a) && Pairwise(b) && Cross(a, b) && Cross(b, a)
  {
    var ws := a + b;
    if Pairwise(ws) {
      forall i, j | 0 <= i < |a| && 0 <= j < |a| && i != j ensures ZeroWhereShared(a[i], a[j]) {
        assert ZeroWhereShared(ws[i], ws[j]);
      }
      forall i, j | 0 <= i < |b| && 0 <= j < |b| && i != j ensures ZeroWhereShared(b[i], b[j]) {
        assert ZeroWhereShared(ws[|a| + i], ws[|a| + j]);
      }
      forall i, j | 0 <= i < |a| && 0 <= j < |b| ensures ZeroWhereShared(a[i], b[j]) && ZeroWhereShared(b[j], a[i]) {
        assert ZeroWhereShared(ws[i], ws[|a| + j]) && ZeroWhereShared(ws[|a| + j], ws[i]);
      }
    }
  }

  // ----- The writes of a symbol table -----

  /** The symbol has a value and its loaded address is a word. */
  ghost predicate HasAddress(table: SymbolTable, name: string, place: Placement) {
    name in table && table[name].value.Some? && Address(table[name].value.value, place) < WORD_LIMIT
  }

  /** The references of one symbol in the order in which they are patched. */
  ghost function EntryWrites(table: SymbolTable, name: string, place: Placement): (ws: seq<Write>)
    requires HasAddress(table, name, place)
    ensures |ws| == |table[name].references|
  {
    var entry := table[name];
    seq(|entry.references|, k requires 0 <= k < |entry.references| =>
      Write(Relocate(entry.references[k], place), Be32(Address(entry.value.value, place))))
  }

  /** All references, symbol by symbol in the given order. */
  ghost function Writes(table: SymbolTable, order: seq<string>, place: Placement): seq<Write>
    requires forall i :: 0 <= i < |order| ==> HasAddress(table, order[i], place)
  {
    if order == [] then []
    else Writes(table, order[..|order| - 1], place) + EntryWrites(table, order[|order| - 1], place)
  }

  /** The symbol has an address, and its references name zero bytes of the image. */
  ghost predicate SymbolReady(table: SymbolTable, image: seq<Byte>, place: Placement, name: string) {
    HasAddress(table, name, place) && Ready(image, EntryWrites(table, name, place))
  }

  ghost predicate OrderReady(table: SymbolTable, image: seq<Byte>, place: Placement, order: seq<string>) {
    forall i :: 0 <= i < |order| ==> SymbolReady(table, image, place, order[i])
  }

  ghost predicate AllReady(table: SymbolTable, image: seq<Byte>, place: Placement) {
    forall name :: name in table ==> SymbolReady(table, image, place, name)
  }

  lemma {:induction false} WritesReady(table: SymbolTable, image: seq<Byte>, place: Placement, order: seq<string>)
    requires OrderReady(table, image, place, order)
    ensures forall i :: 0 <= i < |order| ==> HasAddress(table, order[i], place)
    ensures Ready(image, Writes(table, order, place))
  {
    hide HasAddress;
    assert forall i :: 0 <= i < |order| ==> SymbolReady(table, image, place, order[i]);
    if order != [] {
      WritesReady(table, image, place, order[..|order| - 1]);
    }
  }

  /** The image after patching symbol by symbol in the given order, if no check fails. */
  ghost function PatchedIn(table: SymbolTable, image: seq<Byte>, place: Placement, order: seq<string>): (r: Option<seq<Byte>>)
    requires OrderReady(table, image, place, order)
  {
    WritesReady(table, image, place, order);
    Apply(image, Writes(table, order, place), |Writes(table, order, place)|)
  }

  lemma NothingVisited(table: SymbolTable, image: seq<Byte>, place: Placement)
    ensures OrderReady(table, image, place, []) && PatchedIn(table, image, place, []) == Some(image)
  {}

  lemma ReadyIs(table: SymbolTable, image: seq<Byte>, place: Placement, name: string)
    requires SymbolReady(table, image, place, name)
    ensures HasAddress(table, name, place) && Ready(image, EntryWrites(table, name, place))
  {}

  lemma OneMoreVisited(table: SymbolTable, image: seq<Byte>, place: Placement, order: seq<string>, name: string)
    requires OrderReady(table, image, place, order) && SymbolReady(table, image, place, name)
    ensures OrderReady(table, image, place, order + [name])
    ensures forall i :: 0 <= i < |order| ==> HasAddress(table, order[i], place)
    ensures forall i :: 0 <= i < |order + [name]| ==> HasAddress(table, (order + [name])[i], place)
    ensures Writes(table, order + [name], place) == Writes(table, order, place) + EntryWrites(table, name, place)
    ensures Ready(image, Writes(table, order, place) + EntryWrites(table, name, place))
    ensures PatchedIn(table, image, place, order)
         == Apply(image, Writes(table, order, place) + EntryWrites(table, name, place), |Writes(table, order, place)|)
  {
    hide HasAddress;
    assert forall i :: 0 <= i < |order| ==> SymbolReady(table, image, place, order[i]);
    WritesReady(table, image, place, order);
    WritesReady(table, image, place, order + [name]);
    assert (order + [name])[..|order|] == order;
    ApplyPrefix(image, Writes(table, order, place), EntryWrites(table, name, place), |Writes(table, order, place)|);
  }

  /** Of two references of different symbols each writes zeros where they overlap, and of two references
      of one symbol the one patched first does. */
  ghost predicate Harmless(table: SymbolTable, place: Placement)
    requires forall name :: name in table ==> HasAddress(table, name, place)
  {
    && (forall name :: name in table ==> InOrder(EntryWrites(table, name, place), |EntryWrites(table, name, place)|))
    && (forall m, n :: m in table && n in table && m != n ==>
          Cross(EntryWrites(table, m, place), EntryWrites(table, n, place)))
  }

  /** Of any two references each writes zeros where they overlap. */
  ghost predicate Undisturbed(table: SymbolTable, place: Placement)
    requires forall name :: name in table ==> HasAddress(table, name, place)
  {
    && (forall name :: name in table ==> Pairwise(EntryWrites(table, name, place)))
    && (forall m, n :: m in table && n in table && m != n ==>
          Cross(EntryWrites(table, m, place), EntryWrites(table, n, place)))
  }

  ghost predicate CrossAt(table: SymbolTable, place: Placement, order: seq<string>, i: nat, j: nat)
    requires forall k :: 0 <= k < |order| ==> HasAddress(table, order[k], place)
    requires i < |order| && j < |order|
  {
    Cross(EntryWrites(table, order[i], place), EntryWrites(table, order[j], place))
  }

  ghost predicate InOrderAt(table: SymbolTable, place: Placement, order: seq<string>, i: nat)
    requires forall k :: 0 <= k < |order| ==> HasAddress(table, order[k], place)
    requires i < |order|
  {
    InOrder(EntryWrites(table, order[i], place), |EntryWrites(table, order[i], place)|)
  }

  /** Every write comes from a symbol of the order. */
  lemma {:induction false} WritesFrom(table: SymbolTable, place: Placement, order: seq<string>, w: Write)
    requires forall i :: 0 <= i < |order| ==> HasAddress(table, order[i], place)
    ensures w in Writes(table, order, place)
       <==> exists i :: 0 <= i < |order| && w in EntryWrites(table, order[i], place)
  {
    hide HasAddress;
    if order != [] {
      var before := order[..|order| - 1];
      WritesFrom(table, place, before, w);
      if i :| 0 <= i < |before| && w in EntryWrites(table, before[i], place) {
        assert order[i] == before[i];
      }
      if i :| 0 <= i < |order| && w in EntryWrites(table, order[i], place) {
        assert i < |before| ==> before[i] == order[i];
      }
    }
  }

  lemma CrossAll(table: SymbolTable, place: Placement, order: seq<string>, last: string)
    requires forall i :: 0 <= i < |order| ==> HasAddress(table, order[i], place)
    requires HasAddress(table, last, place)
    ensures Cross(Writes(table, order, place), EntryWrites(table, last, place))
       <==> forall i :: 0 <= i < |order| ==> Cross(EntryWrites(table, order[i], place), EntryWrites(table, last, place))
    ensures Cross(EntryWrites(table, last, place), Writes(table, order, place))
       <==> forall i :: 0 <= i < |order| ==> Cross(EntryWrites(table, last, place), EntryWrites(table, order[i], place))
  {
    hide HasAddress, Writes, EntryWrites, ZeroWhereShared;
    var all, own := Writes(table, order, place), EntryWrites(table, last, place);
    forall w ensures w in all <==> exists i :: 0 <= i < |order| && w in EntryWrites(table, order[i], place) {
      WritesFrom(table, place, order, w);
    }
    CrossMembers(all, own);
    CrossMembers(own, all);
    forall i | 0 <= i < |order|
      ensures Cross(EntryWrites(table, order[i], place), own) <==>
        forall x, y :: x in EntryWrites(table, order[i], place) && y in own ==> ZeroWhereShared(x, y)
      ensures Cross(own, EntryWrites(table, order[i], place)) <==>
        forall x, y :: x in own && y in EntryWrites(table, order[i], place) ==> ZeroWhereShared(x, y)
    {
      CrossMembers(EntryWrites(table, order[i], place), own);
      CrossMembers(own, EntryWrites(table, order[i], place));
    }
  }

  lemma CrossMembers(a: seq<Write>, b: seq<Write>)
    ensures Cross(a, b) <==> forall x, y :: x in a && y in b ==> ZeroWhereShared(x, y)
  {
    hide ZeroWhereShared;
  }

  ghost predicate OrderInOrder(table: SymbolTable, place: Placement, order: seq<string>)
    requires forall i :: 0 <= i < |order| ==> HasAddress(table, order[i], place)
  {
    && (forall i :: 0 <= i < |order| ==> InOrderAt(table, place, order, i))
    && (forall i, j :: 0 <= i < j < |order| ==> CrossAt(table, place, order, i, j))
  }

  lemma OneMoreInOrder(table: SymbolTable, place: Placement, before: seq<string>, last: string)
    requires forall i :: 0 <= i < |before| ==> HasAddress(table, before[i], place)
    requires HasAddress(table, last, place)
    ensures OrderInOrder(table, place, before + [last]) <==>
      && OrderInOrder(table, place, before)
      && InOrder(EntryWrites(table, last, place), |EntryWrites(table, last, place)|)
      && forall i :: 0 <= i < |before| ==> Cross(EntryWrites(table, before[i], place), EntryWrites(table, last, place))
  {
    hide HasAddress, InOrder, Cross, EntryWrites;
    var order := before + [last];
    if OrderInOrder(table, place, order) {
      forall i | 0 <= i < |before|
        ensures InOrderAt(table, place, before, i) && Cross(EntryWrites(table, before[i], place), EntryWrites(table, last, place))
      {
        assert InOrderAt(table, place, order, i) && CrossAt(table, place, order, i, |before|);
      }
      forall i, j | 0 <= i < j < |before| ensures CrossAt(table, place, before, i, j) {
        assert CrossAt(table, place, order, i, j);
      }
      assert InOrderAt(table, place, order, |before|);
    }
    if OrderInOrder(table, place, before) {
      forall i | 0 <= i < |before| ensures InOrderAt(table, place, order, i) {
        assert InOrderAt(table, place, before, i);
      }
      forall i, j | 0 <= i < j < |before| ensures CrossAt(table, place, order, i, j) {
        assert CrossAt(table, place, before, i, j);
      }
    }
  }

  lemma {:induction false} WritesInOrder(table: SymbolTable, place: Placement, order: seq<string>)
    requires forall i :: 0 <= i < |order| ==> HasAddress(table, order[i], place)
    ensures InOrder(Writes(table, order, place), |Writes(table, order, place)|) <==> OrderInOrder(table, place, order)
  {
    hide HasAddress, InOrder, Cross, EntryWrites, OrderInOrder;
    if order != [] {
      var before, last := order[..|order| - 1], order[|order| - 1];
      assert order == before + [last];
      WritesInOrder(table, place, before);
      InOrderSplit(Writes(table, before, place), EntryWrites(table, last, place));
      CrossAll(table, place, before, last);
      OneMoreInOrder(table, place, before, last);
    } else {
      NothingInOrder(table, place);
    }
  }

  lemma NothingInOrder(table: SymbolTable, place: Placement)
    ensures InOrder([], 0) && OrderInOrder(table, place, [])
    ensures Pairwise([]) && OrderPairwise(table, place, [])
  {}

  /** Harmless overlaps trip no check, in whatever order symbols are visited. */
  lemma HarmlessPasses(table: SymbolTable, image: seq<Byte>, place: Placement, order: seq<string>)
    requires AllReady(table, image, place) && Distinct(order, table) && Harmless(table, place)
    ensures PatchedIn(table, image, place, order).Some?
  {
    hide HasAddress, InOrder, Cross, EntryWrites, Ready;
    PassesExactly(table, image, place, order);
  }

  /** One order passes exactly if each reference leaves zeros to those patched after it. */
  lemma PassesExactly(table: SymbolTable, image: seq<Byte>, place: Placement, order: seq<string>)
    requires OrderReady(table, image, place, order)
    ensures forall i :: 0 <= i < |order| ==> HasAddress(table, order[i], place)
    ensures PatchedIn(table, image, place, order).Some? <==> OrderInOrder(table, place, order)
  {
    hide HasAddress, InOrder, Cross, EntryWrites, Writes, OrderReady;
    WritesReady(table, image, place, order);
    WritesInOrder(table, place, order);
    ApplyExactly(image, Writes(table, order, place), |Writes(table, order, place)|);
  }

  /** The checks pass in every order of visiting the symbols exactly if all overlaps are harmless. */
  lemma EveryOrderPasses(table: SymbolTable, image: seq<Byte>, place: Placement)
    requires AllReady(table, image, place)
    ensures Harmless(table, place)
       <==> forall order :: Visits(order, table) ==> PatchedIn(table, image, place, order).Some?
  {
    hide HasAddress, InOrder, Cross, EntryWrites, PatchedIn;
    if Harmless(table, place) {
      forall order | Visits(order, table) ensures PatchedIn(table, image, place, order).Some? {
        HarmlessPasses(table, image, place, order);
      }
    }
    if forall order :: Visits(order, table) ==> PatchedIn(table, image, place, order).Some? {
      forall m, n | m in table && n in table
        ensures InOrder(EntryWrites(table, m, place), |EntryWrites(table, m, place)|)
        ensures m != n ==> Cross(EntryWrites(table, m, place), EntryWrites(table, n, place))
      {
        var order := OrderStarting(table, m, n);
        PassesExactly(table, image, place, order);
        assert InOrderAt(table, place, order, 0);
        assert m != n ==> CrossAt(table, place, order, 0, 1);
      }
    }
  }

  /** Any two orders that pass the checks leave the same image, whatever overlaps. */
  lemma PassingOrdersAgree(table: SymbolTable, image: seq<Byte>, place: Placement, a: seq<string>, b: seq<string>)
    requires AllReady(table, image, place) && Visits(a, table) && Visits(b, table)
    requires PatchedIn(table, image, place, a).Some? && PatchedIn(table, image, place, b).Some?
    ensures PatchedIn(table, image, place, a) == PatchedIn(table, image, place, b)
  {
    hide HasAddress, Apply, Writes, EntryWrites, Ready;
    WritesReady(table, image, place, a);
    WritesReady(table, image, place, b);
    assert SameMembers(Writes(table, a, place), Writes(table, b, place)) by {
      forall w ensures w in Writes(table, a, place) <==> w in Writes(table, b, place) {
        SameWrites(table, place, a, b, w);
        SameWrites(table, place, b, a, w);
      }
    }
    PassingWritesAgree(image, Writes(table, a, place), Writes(table, b, place));
  }

  lemma SameWrites(table: SymbolTable, place: Placement, a: seq<string>, b: seq<string>, w: Write)
    requires Visits(a, table) && Visits(b, table)
    requires forall name :: name in table ==> HasAddress(table, name, place)
    ensures w in Writes(table, a, place) ==> w in Writes(table, b, place)
  {
    hide HasAddress, EntryWrites, Writes;
    WritesFrom(table, place, a, w);
    WritesFrom(table, place, b, w);
    if w in Writes(table, a, place) {
      var i :| 0 <= i < |a| && w in EntryWrites(table, a[i], place);
      assert a[i] in b;
      var j :| 0 <= j < |b| && b[j] == a[i];
    }
  }

  // ----- The image -----

  ghost predicate OrderPairwise(table: SymbolTable, place: Placement, order: seq<string>)
    requires forall i :: 0 <= i < |order| ==> HasAddress(table, order[i], place)
  {
    && (forall i :: 0 <= i < |order| ==> PairwiseAt(table, place, order, i))
    && (forall i, j :: 0 <= i < |order| && 0 <= j < |order| && i != j ==> CrossAt(table, place, order, i, j))
  }

  lemma OneMorePairwise(table: SymbolTable, place: Placement, before: seq<string>, last: string)
    requires forall i :: 0 <= i < |before| ==> HasAddress(table, before[i], place)
    requires HasAddress(table, last, place)
    ensures OrderPairwise(table, place, before + [last]) <==>
      && OrderPairwise(table, place, before) && Pairwise(EntryWrites(table, last, place))
      && (forall i :: 0 <= i < |before| ==> Cross(EntryWrites(table, before[i], place), EntryWrites(table, last, place)))
      && (forall i :: 0 <= i < |before| ==> Cross(EntryWrites(table, last, place), EntryWrites(table, before[i], place)))
  {
    hide HasAddress, Pairwise, Cross, EntryWrites;
    var order := before + [last];
    if OrderPairwise(table, place, order) {
      forall i | 0 <= i < |before|
        ensures PairwiseAt(table, place, before, i)
        ensures Cross(EntryWrites(table, before[i], place), EntryWrites(table, last, place))
        ensures Cross(EntryWrites(table, last, place), EntryWrites(table, before[i], place))
      {
        assert PairwiseAt(table, place, order, i);
        assert CrossAt(table, place, order, i, |before|) && CrossAt(table, place, order, |before|, i);
      }
      forall i, j | 0 <= i < |before| && 0 <= j < |before| && i != j ensures CrossAt(table, place, before, i, j) {
        assert CrossAt(table, place, order, i, j);
      }
      assert PairwiseAt(table, place, order, |before|);
    }
    if OrderPairwise(table, place, before) {
      forall i | 0 <= i < |before| ensures PairwiseAt(table, place, order, i) {
        assert PairwiseAt(table, place, before, i);
      }
      forall i, j | 0 <= i < |before| && 0 <= j < |before| && i != j ensures CrossAt(table, place, order, i, j) {
        assert CrossAt(table, place, before, i, j);
      }
    }
  }

  lemma {:induction false} WritesPairwise(table: SymbolTable, place: Placement, order: seq<string>)
    requires forall i :: 0 <= i < |order| ==> HasAddress(table, order[i], place)
    ensures Pairwise(Writes(table, order, place)) <==> OrderPairwise(table, place, order)
  {
    hide HasAddress, Pairwise, Cross, EntryWrites, OrderPairwise;
    if order != [] {
      var before, last := order[..|order| - 1], order[|order| - 1];
      assert order == before + [last];
      WritesPairwise(table, place, before);
      PairwiseSplit(Writes(table, before, place), EntryWrites(table, last, place));
      CrossAll(table, place, before, last);
      OneMorePairwise(table, place, before, last);
    } else {
      NothingInOrder(table, place);
    }
  }

  ghost predicate PairwiseAt(table: SymbolTable, place: Placement, order: seq<string>, i: nat)
    requires forall k :: 0 <= k < |order| ==> HasAddress(table, order[k], place)
    requires i < |order|
  {
    Pairwise(EntryWrites(table, order[i], place))
  }

  /** The checks pass and the image holds every address at its reference exactly if no reference disturbs
      another, and that does not depend on the order. */
  lemma PatchedExactly(table: SymbolTable, image: seq<Byte>, place: Placement, order: seq<string>)
    requires AllReady(table, image, place) && Visits(order, table)
    ensures Undisturbed(table, place) <==>
      && PatchedIn(table, image, place, order).Some?
      && Patched(PatchedIn(table, image, place, order).value, image, Patches(table), place)
  {
    hide HasAddress, Pairwise, Cross, EntryWrites, Writes, Apply, Patched, Patches, Ready;
    WritesReady(table, image, place, order);
    WritesPairwise(table, place, order);
    var ws := Writes(table, order, place);
    AllHoldExactly(image, ws);
    UndisturbedIn(table, place, order);
    if r :| PatchedIn(table, image, place, order) == Some(r) {
      HeldIsPatched(table, image, place, order, r);
    }
  }

  lemma UndisturbedIn(table: SymbolTable, place: Placement, order: seq<string>)
    requires Visits(order, table) && forall name :: name in table ==> HasAddress(table, name, place)
    ensures Undisturbed(table, place) <==> OrderPairwise(table, place, order)
  {
    hide HasAddress, Pairwise, Cross, EntryWrites;
    if OrderPairwise(table, place, order) {
      forall m, n | m in table && n in table
        ensures Pairwise(EntryWrites(table, m, place))
        ensures m != n ==> Cross(EntryWrites(table, m, place), EntryWrites(table, n, place))
      {
        var i :| 0 <= i < |order| && order[i] == m;
        var j :| 0 <= j < |order| && order[j] == n;
        assert PairwiseAt(table, place, order, i);
        assert m != n ==> CrossAt(table, place, order, i, j);
      }
    }
  }

  /** Every slot holds its bytes exactly if the image is patched. */
  lemma HeldIsPatched(table: SymbolTable, image: seq<Byte>, place: Placement, order: seq<string>, result: seq<Byte>)
    requires AllReady(table, image, place) && Visits(order, table) && PatchedIn(table, image, place, order) == Some(result)
    ensures var ws := Writes(table, order, place);
      (forall i :: 0 <= i < |ws| ==> Holding(result, ws[i])) <==> Patched(result, image, Patches(table), place)
  {
    hide Apply, Writes, Be32, Ready;
    WritesReady(table, image, place, order);
    var ws := Writes(table, order, place);
    ApplyExactly(image, ws, |ws|);
    if Patched(result, image, Patches(table), place) {
      forall i | 0 <= i < |ws| ensures Holding(result, ws[i]) {
        var p := PatchOfWrite(table, place, order, ws[i]);
        assert HoldsAddress(result, p, place);
      }
    }
    if forall i :: 0 <= i < |ws| ==> Holding(result, ws[i]) {
      forall p | p in Patches(table) ensures HoldsAddress(result, p, place) {
        var w := WriteOfPatch(table, place, order, p);
      }
      forall q | 0 <= q < |result| && Outside(q, Patches(table), place) ensures result[q] == image[q] {
        forall i | 0 <= i < |ws| ensures !Marks(ws[i], q) {
          var p := PatchOfWrite(table, place, order, ws[i]);
        }
        assert WrittenAt(image, ws, |ws|, result, q);
      }
    }
  }

  lemma PatchOfWrite(table: SymbolTable, place: Placement, order: seq<string>, w: Write) returns (p: Patch)
    requires Visits(order, table) && (forall name :: name in table ==> HasAddress(table, name, place))
    requires w in Writes(table, order, place)
    ensures p in Patches(table) && Address(p.1, place) < WORD_LIMIT
    ensures w == Write(Relocate(p.0, place), Be32(Address(p.1, place)))
  {
    hide Be32;
    WritesFrom(table, place, order, w);
    var i :| 0 <= i < |order| && w in EntryWrites(table, order[i], place);
    var entry := table[order[i]];
    var k :| 0 <= k < |entry.references| && EntryWrites(table, order[i], place)[k] == w;
    p := (entry.references[k], entry.value.value);
    assert order[i] in table && entry.references[k] in entry.references;
  }

  lemma WriteOfPatch(table: SymbolTable, place: Placement, order: seq<string>, p: Patch) returns (w: Write)
    requires Visits(order, table) && (forall name :: name in table ==> HasAddress(table, name, place))
    requires p in Patches(table)
    ensures w in Writes(table, order, place) && Address(p.1, place) < WORD_LIMIT
    ensures w == Write(Relocate(p.0, place), Be32(Address(p.1, place)))
  {
    hide Be32;
    var name, r :| name in table && table[name].value.Some? && r in table[name].references && p == (r, table[name].value.value);
    assert name in order;
    var i :| 0 <= i < |order| && order[i] == name;
    var k :| 0 <= k < |table[name].references| && table[name].references[k] == r;
    w := EntryWrites(table, name, place)[k];
    WritesFrom(table, place, order, w);
  }

  /** References that do not overlap leave each other alone. */
  lemma ApartSymbols(table: SymbolTable, place: Placement, m: string, n: string)
    requires NonOverlapping(table) && HasAddress(table, m, place) && HasAddress(table, n, place)
    requires forall name, r :: name in table && r in table[name].references ==> MovesTogether(r, place)
    ensures Pairwise(EntryWrites(table, m, place))
    ensures m != n ==> Cross(EntryWrites(table, m, place), EntryWrites(table, n, place))
  {
    hide Be32;
    var own, other := EntryWrites(table, m, place), EntryWrites(table, n, place);
    var references := table[m].references;
    forall i, j | 0 <= i < j < |references| ensures ZeroWhereShared(own[i], own[j]) && ZeroWhereShared(own[j], own[i]) {
      assert references[i] in references && references[j] in references;
      RelocatedApart(references[i], references[j], place);
      ApartShareNothing(own[i], own[j]);
    }
    if m != n {
      forall i, j | 0 <= i < |own| && 0 <= j < |other| ensures ZeroWhereShared(own[i], other[j]) {
        var a, b := references[i], table[n].references[j];
        assert a in Slots(table[m]) && b in Slots(table[n]) && AllApart(Slots(table[m]), Slots(table[n]));
        RelocatedApart(a, b, place);
        ApartShareNothing(own[i], other[j]);
      }
    }
  }

  /** References that do not overlap trip no check, even while some symbols have no address. */
  lemma NonOverlappingPasses(table: SymbolTable, image: seq<Byte>, place: Placement, order: seq<string>)
    requires NonOverlapping(table) && Distinct(order, table) && OrderReady(table, image, place, order)
    requires forall name, r :: name in table && r in table[name].references ==> MovesTogether(r, place)
    ensures PatchedIn(table, image, place, order).Some?
  {
    hide HasAddress, InOrder, Pairwise, Cross, EntryWrites, NonOverlapping, Ready;
    PassesExactly(table, image, place, order);
    forall i, j | 0 <= i < j < |order| ensures CrossAt(table, place, order, i, j) {
      ApartSymbols(table, place, order[i], order[j]);
    }
    forall i | 0 <= i < |order| ensures InOrderAt(table, place, order, i) {
      ApartSymbols(table, place, order[i], order[i]);
      PairwiseInOrder(EntryWrites(table, order[i], place));
    }
  }

  lemma PairwiseInOrder(ws: seq<Write>)
    requires Pairwise(ws)
    ensures InOrder(ws, |ws|)
  {
    hide ZeroWhereShared;
  }

  lemma NonOverlappingUndisturbed(table: SymbolTable, place: Placement)
    requires NonOverlapping(table) && forall name :: name in table ==> HasAddress(table, name, place)
    requires forall name, r :: name in table && r in table[name].references ==> MovesTogether(r, place)
    ensures Undisturbed(table, place)
  {
    hide HasAddress, Pairwise, Cross, EntryWrites, NonOverlapping;
    forall m, n | m in table && n in table
      ensures Pairwise(EntryWrites(table, m, place))
      ensures m != n ==> Cross(EntryWrites(table, m, place), EntryWrites(table, n, place))
    {
      ApartSymbols(table, place, m, n);
    }
  }

  lemma UndisturbedIsHarmless(table: SymbolTable, place: Placement)
    requires (forall name :: name in table ==> HasAddress(table, name, place)) && Undisturbed(table, place)
    ensures Harmless(table, place)
  {
    hide HasAddress, EntryWrites, ZeroWhereShared;
    forall name | name in table ensures InOrder(EntryWrites(table, name, place), |EntryWrites(table, name, place)|) {
      PairwiseInOrder(EntryWrites(table, name, place));
    }
  }

  // ----- An instance -----

  const EIGHT_ZEROS: seq<Byte> := [0, 0, 0, 0, 0, 0, 0, 0]

  /** An object file the parser accepts: one section, and references of two symbols that overlap. */
  function OverlappingFile(): ObjectFile {
    ObjectFile(map["a" := SymbolTableEntry(Internal, Some(1), [0]), "b" := SymbolTableEntry(Internal, Some(0), [2])],
               [Section(0x11, 0, 8, EIGHT_ZEROS)])
  }

  lemma OverlappingFileIsValid()
    ensures ValidObject(OverlappingFile()) && Flatten(OverlappingFile().sections) == EIGHT_ZEROS
  {
    var file := OverlappingFile();
    assert Joined(file.sections, 0) == [] && Joined(file.sections, 1) == EIGHT_ZEROS;
    assert Placed(file.sections, 0);
    SlotBytes(EIGHT_ZEROS, 0);
    SlotBytes(EIGHT_ZEROS, 2);
    hide Flatten, ZeroSlot;
    assert ValidEntry(file.symbols["a"], file.sections) by {
      assert Contains(file.sections[0], 0) && Contains(file.sections[0], 3);
    }
    assert ValidEntry(file.symbols["b"], file.sections) by {
      assert Contains(file.sections[0], 2) && Contains(file.sections[0], 5);
    }
  }

  /** Linked as a disk image its symbols have the addresses 0x4001 and 0x4000. Patching `a` first trips
      the check for `b`; patching `b` first passes, but then `b`'s reference is overwritten. */
  lemma OverlapMakesOrderMatter()
    ensures var file, place := OverlappingFile(), PlacementOf(OverlappingFile().sections, 0, 0x4000);
      && ValidObject(file) && AllReady(file.symbols, Flatten(file.sections), place)
      && Visits(["a", "b"], file.symbols) && PatchedIn(file.symbols, Flatten(file.sections), place, ["a", "b"]).None?
      && Visits(["b", "a"], file.symbols) && PatchedIn(file.symbols, Flatten(file.sections), place, ["b", "a"]).Some?
      && !Harmless(file.symbols, place) && !Undisturbed(file.symbols, place)
  {
    var file, place := OverlappingFile(), PlacementOf(OverlappingFile().sections, 0, 0x4000);
    OverlappingFileIsValid();
    assert Be32(0x4001) == [0, 0, 0x40, 0x01] && Be32(0x4000) == [0, 0, 0x40, 0];
    hide Be32;
    var table, image := file.symbols, EIGHT_ZEROS;
    var a, b := Write(0, Be32(0x4001)), Write(2, Be32(0x4000));
    assert EntryWrites(table, "a", place) == [a] && EntryWrites(table, "b", place) == [b];
    assert image[0..4] == [0, 0, 0, 0] == image[2..6];
    assert Marks(a, 2) && Covers(b, 2);
    assert ZeroWhereShared(b, a);
    assert AllReady(table, image, place);
    hide EntryWrites, Ready, Marks, ZeroWhereShared, HasAddress;
    TwoSymbols(table, image, place, "a", "b", a, b);
  }

  lemma TwoSymbols(table: SymbolTable, image: seq<Byte>, place: Placement, m: string, n: string, a: Write, b: Write)
    requires AllReady(table, image, place) && table.Keys == {m, n} && m != n
    requires EntryWrites(table, m, place) == [a] && EntryWrites(table, n, place) == [b]
    requires !ZeroWhereShared(a, b) && ZeroWhereShared(b, a)
    ensures Visits([m, n], table) && PatchedIn(table, image, place, [m, n]).None?
    ensures Visits([n, m], table) && PatchedIn(table, image, place, [n, m]).Some?
    ensures !Harmless(table, place) && !Undisturbed(table, place)
  {
    hide EntryWrites, Ready, ZeroWhereShared, HasAddress, PatchedIn, Harmless, Undisturbed;
    var forth, back := [m, n], [n, m];
    assert m in table && n in table;
    PassesExactly(table, image, place, forth);
    PassesExactly(table, image, place, back);
    assert !CrossAt(table, place, forth, 0, 1) by {
      assert !ZeroWhereShared([a][0], [b][0]);
    }
    assert CrossAt(table, place, back, 0, 1) && InOrderAt(table, place, back, 0) && InOrderAt(table, place, back, 1);
    EveryOrderPasses(table, image, place);
    if Undisturbed(table, place) {
      UndisturbedIsHarmless(table, place);
    }
  }
}
