/** Simulatron's integer widths and their big-endian byte representation. */
module Bytes {

  type Byte = x: int | 0 <= x < 0x100
  type Half = x: int | 0 <= x < 0x1_0000
  type Word = x: int | 0 <= x < 0x1_0000_0000

  const WORD_LIMIT := 0x1_0000_0000

  function Be16(x: Half): (bytes: seq<Byte>)
    ensures |bytes| == 2
  {
    [x / 0x100, x % 0x100]
  }

  function Be32(x: Word): (bytes: seq<Byte>)
    ensures |bytes| == 4
  {
    Be16(x / 0x1_0000) + Be16(x % 0x1_0000)
  }

  function FromBe16(bytes: seq<Byte>): Half
    requires |bytes| == 2
  {
    var high: int, low: int := bytes[0], bytes[1];
    high * 0x100 + low
  }

  function FromBe32(bytes: seq<Byte>): Word
    requires |bytes| == 4
  {
    var high: int, low: int := FromBe16(bytes[..2]), FromBe16(bytes[2..]);
    high * 0x1_0000 + low
  }

  lemma Be16RoundTrip(x: Half)
    ensures FromBe16(Be16(x)) == x
  {}

  lemma Be32RoundTrip(x: Word)
    ensures FromBe32(Be32(x)) == x
  {
    assert Be32(x)[..2] == Be16(x / 0x1_0000) && Be32(x)[2..] == Be16(x % 0x1_0000);
    Be16RoundTrip(x / 0x1_0000);
    Be16RoundTrip(x % 0x1_0000);
  }

  /** Is the bit worth `power` set in `x`? */
  predicate Bit(x: nat, power: nat)
    requires power > 0
  {
    x / power % 2 == 1
  }
}
