/** Five-bit pieces of bytes. The identifier packer masks, shifts and joins 8-bit
    values; the lemmas say what each mask and shift is as a division or a remainder,
    and the methods take the pieces out of the bytes with the masks and shifts and
    promise the number that comes out. */
module ByteBits {
  import opened Sequences

  // What the shifts and masks on bytes mean as divisions and remainders.

  lemma TopBits(a: bv8)
    ensures ((a & 0x80) >> 7) as int == a as int / 128
    ensures ((a & 0xC0) >> 6) as int == a as int / 64
    ensures ((a & 0xE0) >> 5) as int == a as int / 32
    ensures ((a & 0xF0) >> 4) as int == a as int / 16
    ensures ((a & 0xF8) >> 3) as int == a as int / 8
  {
  }

  lemma LowBits(a: bv8)
    ensures (a & 0x1F) as int == a as int % 32
  {
  }

  lemma HalfAndQuarter(a: bv8)
    ensures (a / 2) as int == a as int / 2 && (a / 4) as int == a as int / 4
  {
  }

  lemma Mod32(a: bv8)
    ensures (a % 32) as int == a as int % 32
  {
  }

  lemma Shift1(a: bv8) ensures ((a & 0x0F) << 1) as int == a as int % 16 * 2 {}
  lemma Shift2(a: bv8) ensures ((a & 0x07) << 2) as int == a as int % 8 * 4 {}
  lemma Shift3(a: bv8) ensures ((a & 0x03) << 3) as int == a as int % 4 * 8 {}
  lemma Shift4(a: bv8) ensures ((a & 0x01) << 4) as int == a as int % 2 * 16 {}

  lemma Or2(x: bv8, y: bv8)
    requires x & 1 == 0 && y < 2
    ensures (x | y) as int == x as int + y as int
  {
    if y == 0 {} else { assert y == 1; }
  }

  lemma Or4(x: bv8, y: bv8)
    requires x & 3 == 0 && y < 4
    ensures (x | y) as int == x as int + y as int
  {
    if y == 0 {} else if y == 1 {} else if y == 2 {} else { assert y == 3; }
  }

  lemma Or8(x: bv8, y: bv8)
    requires y < 8 && (x == 0 || x == 8 || x == 16 || x == 24)
    ensures (x | y) as int == x as int + y as int
  {
    if x == 0 {} else if x == 8 {} else if x == 16 {} else {}
  }

  lemma Or16(x: bv8, y: bv8)
    requires y < 16 && (x == 0 || x == 16)
    ensures (x | y) as int == x as int + y as int
  {
    if x == 0 {} else {}
  }

  // ---------- Bytes and numbers ----------

  lemma HalfByte(x: nat)
    requires x < 16
    ensures (x as bv8) as int == x && x as bv8 < 16
  {
  }

  lemma JoinHalves(h: bv8, l: bv8)
    requires h < 16 && l < 16
    ensures ((h << 4) | l) as int == h as int * 16 + l as int
  {
    assert (h << 4) | l == h * 16 + l;
  }

  /** A number below 256 as a byte, one half at a time. */
  method ToByte(x: byte) returns (b: bv8)
    ensures b as int == x
  {
    HalfByte(x / 16);
    HalfByte(x % 16);
    JoinHalves((x / 16) as bv8, (x % 16) as bv8);
    b := (((x / 16) as bv8) << 4) | ((x % 16) as bv8);
  }

  // ---------- The pieces ----------

  method TopThree(a: bv8) returns (d: nat)
    ensures d == a as int / 32
  {
    TopBits(a);
    d := ((a & 0xE0) >> 5) as int;
  }

  method TopFive(a: bv8) returns (d: nat)
    ensures d == a as int / 8
  {
    TopBits(a);
    d := ((a & 0xF8) >> 3) as int;
  }

  method LowFive(a: bv8) returns (d: nat)
    ensures d == a as int % 32
  {
    LowBits(a);
    d := (a & 0x1F) as int;
  }

  method MiddleFromOne(a: bv8) returns (d: nat)
    ensures d == a as int / 2 % 32
  {
    assert (a & 0x3E) >> 1 == a / 2 % 32;
    HalfAndQuarter(a);
    Mod32(a / 2);
    d := ((a & 0x3E) >> 1) as int;
  }

  method MiddleFromTwo(a: bv8) returns (d: nat)
    ensures d == a as int / 4 % 32
  {
    assert (a & 0x7C) >> 2 == a / 4 % 32;
    HalfAndQuarter(a);
    Mod32(a / 4);
    d := ((a & 0x7C) >> 2) as int;
  }

  method ThreeTwo(a: bv8, b: bv8) returns (d: nat)
    ensures d == a as int % 8 * 4 + b as int / 64
  {
    Shift2(a);
    TopBits(b);
    Or4((a & 0x07) << 2, (b & 0xC0) >> 6);
    d := (((a & 0x07) << 2) | ((b & 0xC0) >> 6)) as int;
  }

  method OneFour(a: bv8, b: bv8) returns (d: nat)
    ensures d == a as int % 2 * 16 + b as int / 16
  {
    Shift4(a);
    TopBits(b);
    Or16((a & 0x01) << 4, (b & 0xF0) >> 4);
    d := (((a & 0x01) << 4) | ((b & 0xF0) >> 4)) as int;
  }

  method FourOne(a: bv8, b: bv8) returns (d: nat)
    ensures d == a as int % 16 * 2 + b as int / 128
  {
    Shift1(a);
    TopBits(b);
    Or2((a & 0x0F) << 1, (b & 0x80) >> 7);
    d := (((a & 0x0F) << 1) | ((b & 0x80) >> 7)) as int;
  }

  method TwoThree(a: bv8, b: bv8) returns (d: nat)
    ensures d == a as int % 4 * 8 + b as int / 32
  {
    Shift3(a);
    TopBits(b);
    Or8((a & 0x03) << 3, (b & 0xE0) >> 5);
    d := (((a & 0x03) << 3) | ((b & 0xE0) >> 5)) as int;
  }
}
