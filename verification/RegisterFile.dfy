/** The general registers with their halves and bytes, and the instructions that work on them in place
    (simulatron-vm, cpu.rs and macros.rs). */
module RegisterFile {
  import opened Bytes
  import opened Arithmetic
  import opened Alu
  import opened RotateCarry

  /** A reference to a general register: r0 to r7, r0h to r7h, r0b to r7b. */
  predicate IsGeneral(r: Byte) { r < 0x18 }

  function IndexOf(r: Byte): (index: nat)
    requires IsGeneral(r)
    ensures index < 8
  {
    if r < 0x08 then r else if r < 0x10 then r - 0x08 else r - 0x10
  }

  function WidthOf(r: Byte): (width: nat)
    requires IsGeneral(r)
    ensures width > 0
  {
    if r < 0x08 then 32 else if r < 0x10 then 16 else 8
  }

  lemma Powers()
    ensures PowerOfTwo(8) == 0x100 && PowerOfTwo(16) == 0x1_0000 && PowerOfTwo(32) == 0x1_0000_0000
  {
    assert PowerOfTwo(4) == 16;
    assert PowerOfTwo(8) == 0x100;
    assert PowerOfTwo(12) == 0x1000;
    assert PowerOfTwo(16) == 0x1_0000;
    assert PowerOfTwo(20) == 0x10_0000;
    assert PowerOfTwo(24) == 0x100_0000;
    assert PowerOfTwo(28) == 0x1000_0000;
  }

  /** The low bits of a register. */
  function Low(word: Word, r: Byte): (x: nat)
    requires IsGeneral(r)
    ensures Fits(x, WidthOf(r))
  {
    Powers();
    if r < 0x08 then word else if r < 0x10 then word % 0x1_0000 else word % 0x100
  }

  /** The register with its low bits replaced. */
  function Replaced(word: Word, r: Byte, x: nat): (w: Word)
    requires IsGeneral(r) && Fits(x, WidthOf(r))
    ensures Low(w, r) == x
    ensures Low(word, r) == x ==> w == word
  {
    Powers();
    if r < 0x08 then x else if r < 0x10 then word - word % 0x1_0000 + x else word - word % 0x100 + x
  }

  /** The bits above stay as they are. */
  lemma AboveStays(word: Word, r: Byte, x: nat)
    requires IsGeneral(r) && Fits(x, WidthOf(r))
    ensures 0x08 <= r < 0x10 ==> Replaced(word, r, x) / 0x1_0000 == word / 0x1_0000
    ensures 0x10 <= r ==> Replaced(word, r, x) / 0x100 == word / 0x100
  {
    Powers();
  }

  lemma ReplacedTwice(word: Word, r: Byte, x: nat, y: nat)
    requires IsGeneral(r) && Fits(x, WidthOf(r)) && Fits(y, WidthOf(r))
    ensures Replaced(Replaced(word, r, x), r, y) == Replaced(word, r, y)
  {
    Powers();
  }

  /** `ri`, `rih` and `rib` are general register `i`, its low half and its lowest byte. */
  lemma PartsOfRegister(i: nat, word: Word)
    requires i < 8
    ensures IndexOf(i) == i && WidthOf(i) == 32 && Low(word, i) == word
    ensures IndexOf(0x08 + i) == i && WidthOf(0x08 + i) == 16 && Low(word, 0x08 + i) == word % 0x1_0000
    ensures IndexOf(0x10 + i) == i && WidthOf(0x10 + i) == 8 && Low(word, 0x10 + i) == word % 0x100
  {}

  class Registers {
    const r: array<Word>
    var flags: Half

    constructor ()
      ensures fresh(r) && Valid() && flags == 0
    {
      r := new Word[8](_ => 0);
      flags := 0;
    }

    ghost predicate Valid() { r.Length == 8 }

    function Read(reference: Byte): (x: nat)
      requires Valid() && IsGeneral(reference)
      reads r
      ensures Fits(x, WidthOf(reference))
    {
      Low(r[IndexOf(reference)], reference)
    }

    method Write(reference: Byte, x: nat)
      requires Valid() && IsGeneral(reference) && Fits(x, WidthOf(reference))
      modifies r
      ensures r[..] == old(r[..])[IndexOf(reference) := Replaced(old(r[IndexOf(reference)]), reference, x)]
      ensures Read(reference) == x
      ensures WidthOf(reference) == 16 ==> r[IndexOf(reference)] / 0x1_0000 == old(r[IndexOf(reference)]) / 0x1_0000
      ensures WidthOf(reference) == 8 ==> r[IndexOf(reference)] / 0x100 == old(r[IndexOf(reference)]) / 0x100
    {
      AboveStays(r[IndexOf(reference)], reference, x);
      r[IndexOf(reference)] := Replaced(r[IndexOf(reference)], reference, x);
    }

    function Carry(): bool
      reads this
    {
      Bit(flags, FLAG_CARRY)
    }

    /** bin_op_multisigned! on integers: the stored bits are right for the signed and for the unsigned
        reading, and the flags say which of the two was not exact. */
    method BinaryOperation(op: Operation, reference: Byte, y: nat)
      requires Valid() && IsGeneral(reference) && Fits(y, WidthOf(reference))
      modifies r, this`flags
      ensures var width := WidthOf(reference); var x := old(Read(reference));
        && flags == OpFlags(op, x, y, width)
        && Read(reference) == UnsignedOp(op, x, y, width).value == Unsigned(SignedOp(op, x, y, width).value, width)
        && r[..] == old(r[..])[IndexOf(reference) := Replaced(old(r[IndexOf(reference)]), reference, UnsignedOp(op, x, y, width).value)]
    {
      hide SignedOp, UnsignedOp, Low, Replaced;
      var width := WidthOf(reference);
      var x := Read(reference);
      var unsigned := UnsignedOp(op, x, y, width);
      var signed := SignedOp(op, x, y, width);
      ResultsHaveSameBits(op, x, y, width);
      assert unsigned.value == Unsigned(signed.value, width);
      UnsignedFits(op, x, y, width);
      Write(reference, unsigned.value);
      flags := MakeFlags(signed.value, unsigned.overflow, signed.overflow);
    }

    /** COMPARE changes only the flags, which then decide every comparison of the two values. */
    method Compare(reference: Byte, y: nat)
      requires Valid() && IsGeneral(reference) && Fits(y, WidthOf(reference))
      modifies this`flags
      ensures flags == CompareFlags(Read(reference), y, WidthOf(reference))
      ensures JEqual(flags) <==> Read(reference) == y
      ensures UJLesser(flags) <==> Read(reference) < y
      ensures SJLesser(flags) <==> Signed(Read(reference), WidthOf(reference)) < Signed(y, WidthOf(reference))
    {
      hide SignedOp, UnsignedOp, Low, SJGreater, SJGreaterEq, SJLesserEq;
      var width := WidthOf(reference);
      var x := Read(reference);
      var unsigned := UnsignedOp(Sub, x, y, width);
      var signed := SignedOp(Sub, x, y, width);
      ResultsHaveSameBits(Sub, x, y, width);
      assert unsigned.value == Unsigned(signed.value, width);
      CompareDecides(x, y, width);
      flags := MakeFlags(signed.value, unsigned.overflow, signed.overflow);
    }

    /** bin_op_rotate_carry!: one place at a time. */
    method RotateCarryBy(left: bool, reference: Byte, n: nat)
      requires Valid() && IsGeneral(reference)
      modifies r, this`flags
      ensures var v := Carried(old(Read(reference)), old(Carry())); var width := WidthOf(reference);
        var rotated := if left then RclTimes(v, width, n) else RcrTimes(v, width, n);
        && Fits(rotated.value, width)
        && r[..] == old(r[..])[IndexOf(reference) := Replaced(old(r[IndexOf(reference)]), reference, rotated.value)]
        && Read(reference) == rotated.value && Carry() == rotated.carry
        && flags == MakeFlags(Signed(rotated.value, width), rotated.carry, false)
    {
      hide Rcl, Rcr, Low, Replaced, Signed, Bit;
      var width := WidthOf(reference);
      ghost var start := Carried(Read(reference), Carry());
      var ans := Read(reference);
      var carry := Carry();
      for i := 0 to n
        invariant Carried(ans, carry) == if left then RclTimes(start, width, i) else RcrTimes(start, width, i)
        invariant Fits(ans, width) && r[..] == old(r[..])
      {
        Inverse(Carried(ans, carry), width);
        var result := if left then Rcl(Carried(ans, carry), width) else Rcr(Carried(ans, carry), width);
        ans := result.value;
        carry := result.carry;
      }
      Write(reference, ans);
      flags := MakeFlags(Signed(ans, width), carry, false);
    }

    /** LROTCARRY and then RROTCARRY by the same amount: register and carry are as before. */
    method RotateThereAndBack(reference: Byte, n: nat)
      requires Valid() && IsGeneral(reference)
      modifies r, this`flags
      ensures r[..] == old(r[..]) && Carry() == old(Carry())
    {
      hide RclTimes, RcrTimes, Low, Replaced, Bit;
      ghost var start := Carried(Read(reference), Carry());
      ghost var word := r[IndexOf(reference)];
      RotateCarryBy(true, reference, n);
      ghost var rotated := RclTimes(start, WidthOf(reference), n);
      RotateCarryBy(false, reference, n);
      RotateBack(start, WidthOf(reference), n);
      ReplacedTwice(word, reference, rotated.value, start.value);
    }
  }

  lemma UnsignedFits(op: Operation, x: nat, y: nat, width: nat)
    ensures UnsignedOp(op, x, y, width).value >= 0 && Fits(UnsignedOp(op, x, y, width).value, width)
  {}
}
