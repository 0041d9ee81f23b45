/** Integer flags, comparison and conditional jumps at every width (simulatron-vm, cpu.rs and macros.rs). */
module Alu {
  import opened Bytes
  import opened Arithmetic

  // ----- Flags -----

  const FLAG_ZERO: nat := 0x01
  const FLAG_NEGATIVE: nat := 0x02
  const FLAG_CARRY: nat := 0x04
  const FLAG_OVERFLOW: nat := 0x08

  /** make_flags_int!; zero and negative exclude each other. */
  function MakeFlags(ans: int, carry: bool, overflow: bool): (flags: Half)
    ensures flags < 0x10
    ensures Bit(flags, 0x01) <==> ans == 0
    ensures Bit(flags, 0x02) <==> ans < 0
    ensures Bit(flags, 0x04) <==> carry
    ensures Bit(flags, 0x08) <==> overflow
  {
    (if ans == 0 then FLAG_ZERO else if ans < 0 then FLAG_NEGATIVE else 0)
    + (if carry then FLAG_CARRY else 0) + (if overflow then FLAG_OVERFLOW else 0)
  }

  // The conditional jumps.

  predicate JEqual(flags: Half) { Bit(flags, FLAG_ZERO) }

  predicate JNotEqual(flags: Half) { !Bit(flags, FLAG_ZERO) }

  predicate SJGreater(flags: Half) { !Bit(flags, FLAG_ZERO) && Bit(flags, FLAG_NEGATIVE) == Bit(flags, FLAG_OVERFLOW) }

  predicate SJGreaterEq(flags: Half) { Bit(flags, FLAG_ZERO) || Bit(flags, FLAG_NEGATIVE) == Bit(flags, FLAG_OVERFLOW) }

  predicate UJGreater(flags: Half) { !Bit(flags, FLAG_CARRY) && !Bit(flags, FLAG_ZERO) }

  predicate UJGreaterEq(flags: Half) { !Bit(flags, FLAG_CARRY) || Bit(flags, FLAG_ZERO) }

  predicate SJLesser(flags: Half) { Bit(flags, FLAG_NEGATIVE) != Bit(flags, FLAG_OVERFLOW) }

  predicate SJLesserEq(flags: Half) { Bit(flags, FLAG_ZERO) || Bit(flags, FLAG_NEGATIVE) != Bit(flags, FLAG_OVERFLOW) }

  predicate UJLesser(flags: Half) { Bit(flags, FLAG_CARRY) }

  predicate UJLesserEq(flags: Half) { Bit(flags, FLAG_CARRY) || Bit(flags, FLAG_ZERO) }

  // ----- Integers of a width -----

  /** An unsigned integer of `width` bits. */
  predicate Fits(x: nat, width: nat) { x < PowerOfTwo(width) }

  /** The same bits read as two's complement. */
  function Signed(x: nat, width: nat): int {
    if 2 * x < PowerOfTwo(width) then x else x - PowerOfTwo(width)
  }

  /** A signed integer as its bits. */
  function Unsigned(x: int, width: nat): (u: nat)
    ensures u < PowerOfTwo(width)
  {
    DivMod(x, PowerOfTwo(width));
    x % PowerOfTwo(width)
  }

  /** A signed integer that fits into the width. */
  predicate InSignedRange(x: int, width: nat) {
    2 * x + PowerOfTwo(width) >= 0 && 2 * x < PowerOfTwo(width)
  }

  /** A result and whether it overflowed. */
  datatype Overflowing = Overflowing(value: int, overflow: bool)

  datatype Operation = Add | Sub | Mul

  function Apply(op: Operation, x: int, y: int): int {
    match op
    case Add => x + y
    case Sub => x - y
    case Mul => x * y
  }

  /** The operation on unsigned integers. */
  function UnsignedOp(op: Operation, x: nat, y: nat, width: nat): Overflowing {
    var exact := Apply(op, x, y);
    Overflowing(Unsigned(exact, width), !(0 <= exact < PowerOfTwo(width)))
  }

  /** The operation on the same bits as signed integers. */
  function SignedOp(op: Operation, x: nat, y: nat, width: nat): Overflowing {
    var exact := Apply(op, Signed(x, width), Signed(y, width));
    Overflowing(Signed(Unsigned(exact, width), width), !InSignedRange(exact, width))
  }

  /** The flags of an operation: sign and overflow from the signed result, carry from the unsigned one. */
  function OpFlags(op: Operation, x: nat, y: nat, width: nat): Half {
    MakeFlags(SignedOp(op, x, y, width).value, UnsignedOp(op, x, y, width).overflow, SignedOp(op, x, y, width).overflow)
  }

  /** COMPARE is a subtraction that only sets flags. */
  function CompareFlags(x: nat, y: nat, width: nat): Half {
    OpFlags(Sub, x, y, width)
  }

  // ----- Signed and unsigned results agree -----

  lemma SignedIsCongruent(x: nat, width: nat) returns (k: int)
    ensures Signed(x, width) == x + PowerOfTwo(width) * k
  {
    k := if 2 * x < PowerOfTwo(width) then 0 else -1;
  }

  lemma CongruentOps(op: Operation, x: int, y: int, j: int, k: int, d: nat) returns (m: int)
    ensures Apply(op, x + d * j, y + d * k) == Apply(op, x, y) + d * m
  {
    match op {
      case Add => m := j + k;
        assert d * (j + k) == d * j + d * k;
      case Sub => m := j - k;
        assert d * (j - k) == d * j - d * k;
      case Mul =>
        m := x * k + y * j + d * j * k;
        Distribute(x, y, j, k, d);
    }
  }

  lemma Distribute(x: int, y: int, j: int, k: int, d: int)
    ensures (x + d * j) * (y + d * k) == x * y + d * (x * k + y * j + d * j * k)
  {
    var a, b := d * j, d * k;
    assert (x + a) * (y + b) == x * y + x * b + a * y + a * b;
    assert x * b == d * (x * k) && a * y == d * (y * j);
    assert a * b == d * (d * j * k);
    assert d * (x * k + y * j + d * j * k) == d * (x * k) + d * (y * j) + d * (d * j * k);
  }

  lemma SignedUnsigned(u: nat, width: nat)
    requires Fits(u, width)
    ensures Unsigned(Signed(u, width), width) == u
  {
    var k := SignedIsCongruent(u, width);
    ModMultiple(u, PowerOfTwo(width), k);
    SmallMod(u, PowerOfTwo(width));
  }

  /** For addition, subtraction and multiplication the signed and the unsigned result have the same
      bits, at every width: the debug assertions cannot fail. */
  lemma ResultsHaveSameBits(op: Operation, x: nat, y: nat, width: nat)
    ensures Unsigned(SignedOp(op, x, y, width).value, width) == UnsignedOp(op, x, y, width).value
  {
    var d := PowerOfTwo(width);
    var j := SignedIsCongruent(x, width);
    var k := SignedIsCongruent(y, width);
    var m := CongruentOps(op, x, y, j, k, d);
    ModMultiple(Apply(op, x, y), d, m);
    SignedUnsigned(Unsigned(Apply(op, x, y), width), width);
  }

  /** A result overflows exactly if it is not that of the integers. */
  lemma ExactUnlessOverflow(op: Operation, x: nat, y: nat, width: nat)
    requires width > 0
    ensures SignedOp(op, x, y, width).overflow <==>
      SignedOp(op, x, y, width).value != Apply(op, Signed(x, width), Signed(y, width))
    ensures UnsignedOp(op, x, y, width).overflow <==> UnsignedOp(op, x, y, width).value != Apply(op, x, y)
  {
    var d := PowerOfTwo(width);
    var s, u := Apply(op, Signed(x, width), Signed(y, width)), Apply(op, x, y);
    if 0 <= s < d {
      SmallMod(s, d);
    } else if -d <= s < 0 {
      ModStep(s, d);
      SmallMod(s + d, d);
    }
    if 0 <= u < d {
      SmallMod(u, d);
    }
  }

  // ----- Comparison -----

  /** The signed difference and its sign and overflow. */
  lemma SignedDifference(x: nat, y: nat, width: nat)
    requires width > 0 && Fits(x, width) && Fits(y, width)
    ensures var s := SignedOp(Sub, x, y, width); var a, b := Signed(x, width), Signed(y, width);
      (s.value == 0 <==> x == y) && ((s.value < 0) != s.overflow <==> a < b)
  {
    var d := PowerOfTwo(width);
    var exact := Signed(x, width) - Signed(y, width);
    assert d % 2 == 0 && -d < exact < d;
    if 0 <= exact {
      SmallMod(exact, d);
    } else {
      ModStep(exact, d);
      SmallMod(exact + d, d);
    }
  }

  /** After COMPARE every conditional jump decides the corresponding comparison of the integers, signed
      or unsigned, at every width. */
  lemma CompareDecides(x: nat, y: nat, width: nat)
    requires width > 0 && Fits(x, width) && Fits(y, width)
    ensures var flags := CompareFlags(x, y, width); var a, b := Signed(x, width), Signed(y, width);
      && (JEqual(flags) <==> x == y) && (JNotEqual(flags) <==> x != y)
      && (SJGreater(flags) <==> a > b) && (SJGreaterEq(flags) <==> a >= b)
      && (SJLesser(flags) <==> a < b) && (SJLesserEq(flags) <==> a <= b)
      && (UJGreater(flags) <==> x > y) && (UJGreaterEq(flags) <==> x >= y)
      && (UJLesser(flags) <==> x < y) && (UJLesserEq(flags) <==> x <= y)
  {
    hide SignedOp;
    SignedDifference(x, y, width);
    SignedInjective(x, y, width);
  }

  lemma SignedInjective(x: nat, y: nat, width: nat)
    requires Fits(x, width) && Fits(y, width)
    ensures Signed(x, width) == Signed(y, width) <==> x == y
  {}
}
