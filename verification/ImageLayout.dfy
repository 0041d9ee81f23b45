/** Moving the entrypoint section to the front, and the address arithmetic that goes with it. */
module ImageLayout {
  import opened Bytes
  import opened ObjectData
  import opened SymbolTables

  // ----- Addresses -----

  /** The section [cutoff, cutoff + offset) moves to the front of an image loaded at `base`. */
  datatype Placement = Placement(base: nat, cutoff: nat, offset: nat)

  function PlacementOf(sections: seq<Section>, entry: nat, base: nat): Placement
    requires entry < |sections|
  {
    Placement(base, sections[entry].start, sections[entry].length)
  }

  /** Where the byte at `v` ends up. */
  function Relocate(v: nat, place: Placement): nat {
    if v < place.cutoff then v + place.offset
    else if v < place.cutoff + place.offset then v - place.cutoff
    else v
  }

  function Unrelocate(v: nat, place: Placement): nat {
    if v < place.offset then v + place.cutoff
    else if v < place.cutoff + place.offset then v - place.offset
    else v
  }

  /** The address a program uses for the byte at `v` once the image is loaded. */
  function Address(v: nat, place: Placement): nat {
    place.base + Relocate(v, place)
  }

  lemma RelocateIsBijection(v: nat, place: Placement, total: nat)
    requires place.cutoff + place.offset <= total
    ensures v < total <==> Relocate(v, place) < total
    ensures Unrelocate(Relocate(v, place), place) == v
    ensures Relocate(Unrelocate(v, place), place) == v
  {}

  /** The four bytes at `r` move together. */
  ghost predicate MovesTogether(r: nat, place: Placement) {
    && Relocate(r + 1, place) == Relocate(r, place) + 1
    && Relocate(r + 2, place) == Relocate(r, place) + 2
    && Relocate(r + 3, place) == Relocate(r, place) + 3
  }

  lemma WithinSlot(slot: nat, v: nat, place: Placement)
    requires MovesTogether(slot, place) && slot <= v < slot + 4
    ensures Relocate(v, place) == Relocate(slot, place) + (v - slot)
  {}

  lemma RelocatedApart(a: nat, b: nat, place: Placement)
    requires MovesTogether(a, place) && MovesTogether(b, place) && Apart(a, b)
    ensures Apart(Relocate(a, place), Relocate(b, place))
  {}

  lemma SlotMovesTogether(sections: seq<Section>, entry: nat, base: nat, r: nat)
    requires Contiguous(sections) && entry < |sections| && InSection(sections, r)
    ensures MovesTogether(r, PlacementOf(sections, entry, base))
  {
    var i :| 0 <= i < |sections| && Contains(sections[i], r) && Contains(sections[i], r + 3);
    if i < entry {
      SectionsAreOrdered(sections, i, entry);
    } else if entry < i {
      SectionsAreOrdered(sections, entry, i);
    }
  }

  // ----- Section lists -----

  /** Shift the first `index` elements up by one and put the element at `index` in front, in place. */
  method MoveToStart<T>(v: array<T>, index: nat)
    requires index < v.Length
    modifies v
    ensures v[..] == [old(v[index])] + old(v[..index]) + old(v[index + 1..])
  {
    var item := v[index];
    var i := index;
    while i > 0
      invariant 0 <= i <= index
      invariant forall k :: 0 <= k <= i || index < k < v.Length ==> v[k] == old(v[k])
      invariant forall k :: i < k <= index ==> v[k] == old(v[k - 1])
    {
      i := i - 1;
      v[i + 1] := v[i];
    }
    v[0] := item;
  }

  /** The section list with the entrypoint in front and the start addresses adjusted. */
  function Moved(sections: seq<Section>, entry: nat): (moved: seq<Section>)
    requires entry < |sections|
    requires forall i :: 0 <= i < entry ==> sections[i].start + sections[entry].length < WORD_LIMIT
    ensures |moved| == |sections|
  {
    var offset := sections[entry].length;
    [sections[entry].(start := 0)]
    + seq(entry, i requires 0 <= i < entry => sections[i].(start := sections[i].start + offset))
    + sections[entry + 1..]
  }

  lemma MovedFits(sections: seq<Section>, entry: nat)
    requires Contiguous(sections) && entry < |sections| && Total(sections) < WORD_LIMIT
    ensures sections[entry].start + sections[entry].length <= Total(sections)
    ensures forall i :: 0 <= i < entry ==> sections[i].start + sections[entry].length < WORD_LIMIT
  {
    SectionsAreOrdered(sections, entry, |sections|);
    forall i | 0 <= i < entry ensures sections[i].start + sections[entry].length < WORD_LIMIT {
      SectionsAreOrdered(sections, i, entry);
    }
  }

  lemma MovedEnd(sections: seq<Section>, entry: nat, n: nat)
    requires entry < |sections| && 0 < n <= |sections|
    requires forall i :: 0 <= i < entry ==> sections[i].start + sections[entry].length < WORD_LIMIT
    ensures End(Moved(sections, entry), n)
         == if n <= entry + 1 then sections[entry].length + End(sections, n - 1) else End(sections, n)
  {
    var moved := Moved(sections, entry);
    if 1 < n <= entry + 1 {
      assert moved[n - 1] == sections[n - 2].(start := sections[n - 2].start + sections[entry].length);
    } else if n > entry + 1 {
      assert moved[n - 1] == sections[n - 1];
    }
  }

  lemma MovedContiguous(sections: seq<Section>, entry: nat)
    requires Contiguous(sections) && entry < |sections| && Total(sections) < WORD_LIMIT
    requires forall i :: 0 <= i < entry ==> sections[i].start + sections[entry].length < WORD_LIMIT
    ensures Contiguous(Moved(sections, entry))
    ensures Total(Moved(sections, entry)) == Total(sections)
  {
    var moved := Moved(sections, entry);
    assert Placed(sections, entry);
    forall i | 0 <= i < |moved| ensures Placed(moved, i) {
      assert Placed(sections, i);
      if i > 0 {
        MovedEnd(sections, entry, i);
        assert i <= entry ==> Placed(sections, i - 1);
      }
    }
    MovedEnd(sections, entry, |sections|);
  }

  /** The bytes of the first sections of the moved list, up to where the entrypoint was. */
  lemma {:induction false} MovedJoinedBefore(sections: seq<Section>, entry: nat, n: nat)
    requires n <= entry < |sections|
    requires forall i :: 0 <= i < entry ==> sections[i].start + sections[entry].length < WORD_LIMIT
    ensures Joined(Moved(sections, entry), n + 1) == sections[entry].data + Joined(sections, n)
  {
    if n > 0 {
      MovedJoinedBefore(sections, entry, n - 1);
      assert Moved(sections, entry)[n].data == sections[n - 1].data;
    } else {
      assert Joined(Moved(sections, entry), 0) == [];
    }
  }

  /** The bytes of the moved list from there on. */
  lemma {:induction false} MovedJoined(sections: seq<Section>, entry: nat, n: nat)
    requires Contiguous(sections) && entry < n <= |sections| && Total(sections) < WORD_LIMIT
    requires forall i :: 0 <= i < entry ==> sections[i].start + sections[entry].length < WORD_LIMIT
    ensures var cutoff, offset := sections[entry].start, sections[entry].length;
      var image := Joined(sections, n);
      && cutoff + offset <= |image|
      && Joined(Moved(sections, entry), n)
         == image[cutoff..cutoff + offset] + image[..cutoff] + image[cutoff + offset..]
  {
    assert Placed(sections, entry) && Placed(sections, n - 1);
    JoinedLength(sections, entry);
    JoinedLength(sections, n - 1);
    if n == entry + 1 {
      MovedJoinedBefore(sections, entry, entry);
      LastInFront(Joined(sections, entry), sections[entry].data);
    } else {
      MovedJoined(sections, entry, n - 1);
      assert Moved(sections, entry)[n - 1] == sections[n - 1];
      AppendToParts(Joined(sections, n - 1), sections[n - 1].data, sections[entry].start, sections[entry].length);
    }
  }

  lemma LastInFront(before: seq<Byte>, last: seq<Byte>)
    ensures var image, cutoff, end := before + last, |before|, |before| + |last|;
      last + before == image[cutoff..end] + image[..cutoff] + image[end..]
  {}

  lemma AppendToParts(image: seq<Byte>, data: seq<Byte>, cutoff: nat, offset: nat)
    requires cutoff + offset <= |image|
    ensures image[cutoff..cutoff + offset] + image[..cutoff] + image[cutoff + offset..] + data
      == (image + data)[cutoff..cutoff + offset] + (image + data)[..cutoff] + (image + data)[cutoff + offset..]
  {
    assert (image + data)[cutoff + offset..] == image[cutoff + offset..] + data;
  }

  lemma PartsAt(image: seq<Byte>, place: Placement, v: nat)
    requires place.cutoff + place.offset <= |image| && v < |image|
    ensures Relocate(v, place) < |image|
    ensures var cutoff, offset := place.cutoff, place.offset;
      (image[cutoff..cutoff + offset] + image[..cutoff] + image[cutoff + offset..])[Relocate(v, place)] == image[v]
  {}

  /** The moved list is again contiguous, and `Relocate` says where each byte went. */
  lemma MovedLayout(sections: seq<Section>, entry: nat, base: nat)
    requires Contiguous(sections) && entry < |sections| && Total(sections) < WORD_LIMIT
    requires forall i :: 0 <= i < entry ==> sections[i].start + sections[entry].length < WORD_LIMIT
    ensures Contiguous(Moved(sections, entry)) && Total(Moved(sections, entry)) == Total(sections)
    ensures sections[entry].start + sections[entry].length <= Total(sections)
    ensures MovesAll(Flatten(sections), Flatten(Moved(sections, entry)), PlacementOf(sections, entry, base))
  {
    var place := PlacementOf(sections, entry, base);
    MovedContiguous(sections, entry);
    FlattenLength(sections);
    FlattenLength(Moved(sections, entry));
    MovedJoined(sections, entry, |sections|);
    forall v | 0 <= v < Total(sections) ensures MovesByte(Flatten(sections), Flatten(Moved(sections, entry)), v, place) {
      PartsAt(Flatten(sections), place, v);
    }
  }

  ghost predicate MovesByte(image: seq<Byte>, moved: seq<Byte>, v: nat, place: Placement)
    requires v < |image|
  {
    Relocate(v, place) < |moved| && moved[Relocate(v, place)] == image[v]
  }

  ghost predicate MovesAll(image: seq<Byte>, moved: seq<Byte>, place: Placement) {
    |moved| == |image| && forall v :: 0 <= v < |image| ==> MovesByte(image, moved, v, place)
  }

  /** A slot inside a section is still inside one after the move. */
  lemma SlotStaysInSection(sections: seq<Section>, entry: nat, base: nat, r: nat)
    requires Contiguous(sections) && entry < |sections| && Total(sections) < WORD_LIMIT
    requires forall i :: 0 <= i < entry ==> sections[i].start + sections[entry].length < WORD_LIMIT
    requires InSection(sections, r)
    ensures InSection(Moved(sections, entry), Relocate(r, PlacementOf(sections, entry, base)))
  {
    var i :| 0 <= i < |sections| && Contains(sections[i], r) && Contains(sections[i], r + 3);
    var moved := Moved(sections, entry);
    var r' := Relocate(r, PlacementOf(sections, entry, base));
    if i < entry {
      SectionsAreOrdered(sections, i, entry);
      assert Contains(moved[i + 1], r') && Contains(moved[i + 1], r' + 3);
    } else if i == entry {
      assert Contains(moved[0], r') && Contains(moved[0], r' + 3);
    } else {
      SectionsAreOrdered(sections, entry, i);
      assert Contains(moved[i], r') && Contains(moved[i], r' + 3);
    }
  }

  // ----- The image -----

  /** `image` holds every patch's target address at the patch's slot and the original bytes elsewhere. */
  ghost predicate IsImage(image: seq<Byte>, original: seq<Byte>, patches: set<Patch>,
                          place: Placement)
  {
    && |image| == |original|
    && (forall p :: p in patches ==> HoldsAddress(image, p, place))
    && (forall v :: 0 <= v < |original| && Untouched(v, patches) ==> MovesByte(original, image, v, place))
  }

  ghost predicate HoldsAddress(image: seq<Byte>, p: Patch, place: Placement) {
    var slot, address := Relocate(p.0, place), Address(p.1, place);
    slot + 4 <= |image| && address < WORD_LIMIT && image[slot..slot + 4] == Be32(address)
  }

  ghost predicate Untouched(v: int, patches: set<Patch>) {
    forall p :: p in patches ==> v < p.0 || p.0 + 4 <= v
  }

  lemma ImagesAgreeAt(a: seq<Byte>, b: seq<Byte>, original: seq<Byte>, patches: set<Patch>, place: Placement, v: nat)
    requires IsImage(a, original, patches, place) && IsImage(b, original, patches, place)
    requires forall p :: p in patches ==> MovesTogether(p.0, place)
    requires v < |original| && Relocate(v, place) < |original|
    ensures a[Relocate(v, place)] == b[Relocate(v, place)]
  {
    if Untouched(v, patches) {
      assert MovesByte(original, a, v, place) && MovesByte(original, b, v, place);
    } else {
      var p :| p in patches && p.0 <= v < p.0 + 4;
      var slot := Relocate(p.0, place);
      WithinSlot(p.0, v, place);
      assert HoldsAddress(a, p, place) && HoldsAddress(b, p, place);
      assert a[slot + (v - p.0)] == a[slot..slot + 4][v - p.0] && b[slot + (v - p.0)] == b[slot..slot + 4][v - p.0];
    }
  }

  /** The conditions leave no freedom: there is at most one such image. */
  lemma ImageIsUnique(a: seq<Byte>, b: seq<Byte>, original: seq<Byte>, patches: set<Patch>, place: Placement)
    requires IsImage(a, original, patches, place)
    requires IsImage(b, original, patches, place)
    requires place.cutoff + place.offset <= |original|
    requires forall p :: p in patches ==> MovesTogether(p.0, place)
    ensures a == b
  {
    forall q | 0 <= q < |a| ensures a[q] == b[q] {
      RelocateIsBijection(q, place, |a|);
      RelocateIsBijection(Unrelocate(q, place), place, |a|);
      ImagesAgreeAt(a, b, original, patches, place, Unrelocate(q, place));
    }
  }
}
