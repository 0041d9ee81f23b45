/** Writing symbol addresses into the section bytes. */
module Patching {
  import opened Bytes
  import opened Wrappers
  import opened ObjectData
  import opened SymbolTables
  import opened ImageLayout

  ghost predicate SameLayout(a: seq<Section>, b: seq<Section>) {
    |a| == |b| && forall i :: 0 <= i < |a| ==> a[i].start == b[i].start && a[i].length == b[i].length
  }

  lemma SameLayoutTrans(a: seq<Section>, b: seq<Section>, c: seq<Section>)
    requires SameLayout(a, b) && SameLayout(b, c)
    ensures SameLayout(a, c)
  {}

  function SetByte(sections: seq<Section>, i: nat, k: nat, b: Byte): seq<Section>
    requires i < |sections| && k < |sections[i].data|
  {
    sections[i := sections[i].(data := sections[i].data[k := b])]
  }

  lemma {:induction false} SetByteJoined(sections: seq<Section>, i: nat, k: nat, b: Byte, n: nat)
    requires Contiguous(sections) && i < n <= |sections| && k < |sections[i].data|
    ensures sections[i].start + k < |Joined(sections, n)|
    ensures Joined(SetByte(sections, i, k, b), n) == Joined(sections, n)[sections[i].start + k := b]
  {
    assert Placed(sections, n - 1);
    JoinedLength(sections, n - 1);
    var before, last := Joined(sections, n - 1), sections[n - 1].data;
    if i == n - 1 {
      JoinedSameData(SetByte(sections, i, k, b), sections, n - 1);
      UpdateConcat(before, last, |before| + k, b);
    } else {
      SetByteJoined(sections, i, k, b, n - 1);
      UpdateConcat(before, last, sections[i].start + k, b);
    }
  }

  lemma UpdateConcat(x: seq<Byte>, y: seq<Byte>, k: nat, b: Byte)
    requires k < |x| + |y|
    ensures (x + y)[k := b] == if k < |x| then x[k := b] + y else x + y[k - |x| := b]
  {}

  lemma SetByteLayout(sections: seq<Section>, i: nat, k: nat, b: Byte)
    requires Contiguous(sections) && i < |sections| && k < |sections[i].data|
    ensures sections[i].start + k < |Flatten(sections)|
    ensures Contiguous(SetByte(sections, i, k, b)) && SameLayout(sections, SetByte(sections, i, k, b))
    ensures Flatten(SetByte(sections, i, k, b)) == Flatten(sections)[sections[i].start + k := b]
  {
    SetByteJoined(sections, i, k, b, |sections|);
    forall j | 0 <= j < |sections| ensures Placed(SetByte(sections, i, k, b), j) {
      assert Placed(sections, j);
    }
  }

  function Splice(image: seq<Byte>, at: nat, bytes: seq<Byte>): seq<Byte>
    requires at + 4 <= |image| && |bytes| == 4
  {
    image[..at] + bytes + image[at + 4..]
  }

  /** One patch with its sanity check: it is refused unless the four bytes are still zero. */
  function CheckedPatch(image: seq<Byte>, at: nat, bytes: seq<Byte>): Option<seq<Byte>>
    requires at + 4 <= |image| && |bytes| == 4
  {
    if image[at..at + 4] == [0, 0, 0, 0] then Some(Splice(image, at, bytes)) else None
  }

  /** The first `i` of the four bytes have been written. */
  function HalfSpliced(image: seq<Byte>, at: nat, bytes: seq<Byte>, i: nat): seq<Byte>
    requires at + 4 <= |image| && |bytes| == 4 && i <= 4
  {
    image[..at] + bytes[..i] + image[at + i..]
  }

  lemma HalfSplicedAt(image: seq<Byte>, at: nat, bytes: seq<Byte>, i: nat)
    requires at + 4 <= |image| && |bytes| == 4 && i < 4
    ensures |HalfSpliced(image, at, bytes, i)| == |image|
    ensures HalfSpliced(image, at, bytes, i)[at + i] == image[at + i] == image[at..at + 4][i]
    ensures HalfSpliced(image, at, bytes, i)[at + i := bytes[i]] == HalfSpliced(image, at, bytes, i + 1)
  {}

  lemma SlotHasSection(sections: seq<Section>, slot: Word)
    requires Contiguous(sections) && InSection(sections, slot)
    ensures slot + 4 <= Total(sections)
    ensures forall i :: 0 <= i < |sections| && Contains(sections[i], slot) ==>
      slot + 4 <= sections[i].start + sections[i].length
  {
    var k :| 0 <= k < |sections| && Contains(sections[k], slot) && Contains(sections[k], slot + 3);
    SectionsAreOrdered(sections, k, |sections|);
    forall i | 0 <= i < |sections| && Contains(sections[i], slot) ensures i == k {
      ContainingSectionIsUnique(sections, i, k, slot);
    }
  }

  /** Writing the next byte of a slot into its section. */
  lemma NextByte(sections: seq<Section>, index: nat, k: nat, before: seq<Byte>, slot: nat, bytes: seq<Byte>, i: nat)
    requires Contiguous(sections) && index < |sections| && k < sections[index].length
    requires |bytes| == 4 && i < 4 && slot + 4 <= |before| && slot + i == sections[index].start + k
    requires Flatten(sections) == HalfSpliced(before, slot, bytes, i)
    ensures k < |sections[index].data| && sections[index].data[k] == before[slot..slot + 4][i]
    ensures Contiguous(SetByte(sections, index, k, bytes[i]))
    ensures SameLayout(sections, SetByte(sections, index, k, bytes[i]))
    ensures Flatten(SetByte(sections, index, k, bytes[i])) == HalfSpliced(before, slot, bytes, i + 1)
  {
    assert Placed(sections, index);
    JoinedAt(sections, |sections|, index, k);
    HalfSplicedAt(before, slot, bytes, i);
    SetByteLayout(sections, index, k, bytes[i]);
  }

  /** `image` is `original` with the patches `done` applied at their relocated slots. */
  ghost predicate Patched(image: seq<Byte>, original: seq<Byte>, done: set<Patch>,
                        place: Placement)
  {
    match place case Placement(base, cutoff, offset) =>
    && |image| == |original|
    && (forall p :: p in done ==> HoldsAddress(image, p, place))
    && (forall q :: 0 <= q < |image| && Outside(q, done, place) ==> image[q] == original[q])
  }

  ghost predicate Outside(q: int, done: set<Patch>, place: Placement) {
    forall p :: p in done ==> q < Relocate(p.0, place) || Relocate(p.0, place) + 4 <= q
  }

  /** Once every patch is done, the moved sections are the image of the original ones. */
  lemma PatchedIsImage(image: seq<Byte>, moved: seq<Byte>, original: seq<Byte>, patches: set<Patch>,
                       place: Placement)
    requires Patched(image, moved, patches, place)
    requires MovesAll(original, moved, place) && place.cutoff + place.offset <= |original|
    requires forall p :: p in patches ==> MovesTogether(p.0, place)
    ensures IsImage(image, original, patches, place)
  {
    forall v | 0 <= v < |original| && Untouched(v, patches) ensures MovesByte(original, image, v, place) {
      var q := Relocate(v, place);
      forall p | p in patches ensures q < Relocate(p.0, place) || Relocate(p.0, place) + 4 <= q {
        assert MovesTogether(p.0, place) && (v < p.0 || p.0 + 4 <= v);
      }
      assert Outside(q, patches, place) && MovesByte(original, moved, v, place);
    }
  }
}
