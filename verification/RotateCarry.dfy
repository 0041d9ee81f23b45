/** Rotation through the carry flag (simulatron-vm, rotcarry.rs and macros.rs). */
module RotateCarry {
  import opened Arithmetic
  import opened Alu

  /** A register value and the carry flag. */
  datatype Carried = Carried(value: nat, carry: bool)

  predicate Valid(v: Carried, width: nat) {
    Fits(v.value, width)
  }

  function Rcl(v: Carried, width: nat): Carried
    requires width > 0
  {
    var shifted := 2 * v.value % PowerOfTwo(width);
    Carried(shifted + (if v.carry then 1 else 0), 2 * v.value >= PowerOfTwo(width))
  }

  function Rcr(v: Carried, width: nat): Carried
    requires width > 0
  {
    Carried(v.value / 2 + (if v.carry then PowerOfTwo(width - 1) else 0), v.value % 2 == 1)
  }

  lemma DoubledRemainder(x: nat, width: nat)
    requires width > 0 && Fits(x, width)
    ensures 2 * x % PowerOfTwo(width) == if 2 * x < PowerOfTwo(width) then 2 * x else 2 * x - PowerOfTwo(width)
  {
    var d := PowerOfTwo(width);
    if 2 * x < d {
      SmallMod(2 * x, d);
    } else {
      ModStep(2 * x - d, d);
      SmallMod(2 * x - d, d);
    }
  }

  /** `Rcr` undoes `Rcl`, and the other way round. */
  lemma Inverse(v: Carried, width: nat)
    requires width > 0 && Valid(v, width)
    ensures Valid(Rcl(v, width), width) && Valid(Rcr(v, width), width)
    ensures Rcr(Rcl(v, width), width) == v && Rcl(Rcr(v, width), width) == v
  {
    DoubledRemainder(v.value, width);
    DoubledRemainder(Rcr(v, width).value, width);
    assert PowerOfTwo(width) == 2 * PowerOfTwo(width - 1);
  }

  // ----- The ring -----

  /** The bits of a value, least significant first. */
  function Bits(x: nat, width: nat): (bits: seq<bool>)
    ensures |bits| == width
  {
    if width == 0 then [] else [x % 2 == 1] + Bits(x / 2, width - 1)
  }

  /** The register with the carry flag above its most significant bit. */
  function Ring(v: Carried, width: nat): (ring: seq<bool>)
    ensures |ring| == width + 1
  {
    Bits(v.value, width) + [v.carry]
  }

  /** The ring turned left by `n`. */
  function TurnedLeft(ring: seq<bool>, n: nat): (turned: seq<bool>)
    requires ring != []
    ensures |turned| == |ring|
  {
    seq(|ring|, i requires 0 <= i < |ring| => DivMod(i - n, |ring|); ring[(i - n) % |ring|])
  }

  /** A top bit on its own. */
  lemma {:induction false} TopBit(x: nat, c: bool, width: nat)
    requires Fits(x, width)
    ensures Bits(x + (if c then PowerOfTwo(width) else 0), width + 1) == Bits(x, width) + [c]
  {
    if width == 0 {
      assert Bits(if c then 1 else 0, 1) == [c];
    } else {
      var top := if c then PowerOfTwo(width - 1) else 0;
      TopBit(x / 2, c, width - 1);
      assert (x + 2 * top) / 2 == x / 2 + top && (x + 2 * top) % 2 == x % 2;
      assert [x % 2 == 1] + (Bits(x / 2, width - 1) + [c]) == [x % 2 == 1] + Bits(x / 2, width - 1) + [c];
    }
  }

  /** The value without its top bit. */
  lemma WithoutTop(x: nat, width: nat)
    requires width > 0 && Fits(x, width)
    ensures var half := PowerOfTwo(width - 1); var low := if x < half then x else x - half;
      Fits(low, width - 1) && Bits(x, width) == Bits(low, width - 1) + [x >= half]
  {
    var half := PowerOfTwo(width - 1);
    TopBit(if x < half then x else x - half, x >= half, width - 1);
  }

  /** `Rcl` moves every bit of the ring up by one place, and the carry to the bottom. */
  lemma RclTurns(v: Carried, width: nat)
    requires width > 0 && Valid(v, width)
    ensures Ring(Rcl(v, width), width) == TurnedLeft(Ring(v, width), 1)
  {
    var half := PowerOfTwo(width - 1);
    var low := if v.value < half then v.value else v.value - half;
    DoubledRemainder(v.value, width);
    WithoutTop(v.value, width);
    var c := if v.carry then 1 else 0;
    assert Rcl(v, width).value == 2 * low + c;
    assert (2 * low + c) / 2 == low && (2 * low + c) % 2 == c;
    assert Ring(Rcl(v, width), width) == [v.carry] + Bits(low, width - 1) + [v.value >= half];
    var ring := Ring(v, width);
    forall i | 0 <= i <= width ensures Ring(Rcl(v, width), width)[i] == TurnedLeft(ring, 1)[i] {
      if i == 0 {
        ModStep(-1, width + 1);
        SmallMod(width, width + 1);
      } else {
        SmallMod(i - 1, width + 1);
      }
    }
  }

  function RclTimes(v: Carried, width: nat, n: nat): Carried
    requires width > 0
  {
    if n == 0 then v else Rcl(RclTimes(v, width, n - 1), width)
  }

  function RcrTimes(v: Carried, width: nat, n: nat): Carried
    requires width > 0
  {
    if n == 0 then v else Rcr(RcrTimes(v, width, n - 1), width)
  }

  lemma TurnedOnce(ring: seq<bool>, n: nat)
    requires ring != []
    ensures TurnedLeft(TurnedLeft(ring, n), 1) == TurnedLeft(ring, n + 1)
  {
    var m := |ring|;
    forall i | 0 <= i < m ensures TurnedLeft(TurnedLeft(ring, n), 1)[i] == TurnedLeft(ring, n + 1)[i] {
      if i == 0 {
        ModStep(-1, m);
        SmallMod(m - 1, m);
        ModStep(-1 - n, m);
      } else {
        SmallMod(i - 1, m);
      }
    }
  }

  lemma NotTurned(ring: seq<bool>)
    requires ring != []
    ensures TurnedLeft(ring, 0) == ring
  {
    forall i | 0 <= i < |ring| ensures TurnedLeft(ring, 0)[i] == ring[i] {
      SmallMod(i, |ring|);
    }
  }

  lemma {:induction false} RclTimesTurns(v: Carried, width: nat, n: nat)
    requires width > 0 && Valid(v, width)
    ensures Valid(RclTimes(v, width, n), width)
    ensures Ring(RclTimes(v, width, n), width) == TurnedLeft(Ring(v, width), n)
  {
    hide Rcl, Ring, TurnedLeft;
    if n == 0 {
      NotTurned(Ring(v, width));
    } else {
      RclTimesTurns(v, width, n - 1);
      Inverse(RclTimes(v, width, n - 1), width);
      RclTurns(RclTimes(v, width, n - 1), width);
      TurnedOnce(Ring(v, width), n - 1);
    }
  }

  lemma TurnsModuloLength(ring: seq<bool>, n: nat)
    requires ring != []
    ensures TurnedLeft(ring, n) == TurnedLeft(ring, n % |ring|)
  {
    var m := |ring|;
    DivMod(n, m);
    forall i | 0 <= i < m ensures TurnedLeft(ring, n)[i] == TurnedLeft(ring, n % m)[i] {
      ModMultiple(i - n, m, n / m);
    }
  }

  /** Rotating left `n` times through the carry turns the ring of register and carry by `n` modulo its
      `width + 1` places. */
  lemma RotateLeftIsRing(v: Carried, width: nat, n: nat)
    requires width > 0 && Valid(v, width)
    ensures Ring(RclTimes(v, width, n), width) == TurnedLeft(Ring(v, width), n % (width + 1))
  {
    hide Ring, TurnedLeft, RclTimes;
    RclTimesTurns(v, width, n);
    TurnsModuloLength(Ring(v, width), n);
  }

  lemma {:induction false} RcrTimesFirst(v: Carried, width: nat, n: nat)
    requires width > 0
    ensures RcrTimes(v, width, n + 1) == RcrTimes(Rcr(v, width), width, n)
  {
    hide Rcr;
    if n > 0 {
      RcrTimesFirst(v, width, n - 1);
    }
  }

  /** Rotating left and then right the same number of times changes nothing. */
  lemma {:induction false} RotateBack(v: Carried, width: nat, n: nat)
    requires width > 0 && Valid(v, width)
    ensures RcrTimes(RclTimes(v, width, n), width, n) == v
  {
    hide Rcl, Rcr;
    if n > 0 {
      RclTimesTurns(v, width, n - 1);
      Inverse(RclTimes(v, width, n - 1), width);
      RcrTimesFirst(RclTimes(v, width, n), width, n - 1);
      RotateBack(v, width, n - 1);
    }
  }
}
