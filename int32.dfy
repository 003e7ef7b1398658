/**
 * JavaScript numbers as its bitwise operators see them: the operators work
 * on 32-bit patterns (`bv32` here), and a pattern read back as a number is
 * signed (`x | 0`) or unsigned (`x >>> 0`).
 *
 * The conversions go through the four bytes of the pattern, which keeps
 * the solver's work small.
 */
module Int32 {

  /** Byte `k` (0 = least significant) of a 32-bit pattern. */
  function ByteOf(v: bv32, k: nat): bv8
    requires k < 4
  {
    if k == 0 then (v & 0xFF) as bv8
    else if k == 1 then ((v >> 8) & 0xFF) as bv8
    else if k == 2 then ((v >> 16) & 0xFF) as bv8
    else (v >> 24) as bv8
  }

  /** The pattern with the given four bytes, least significant first. */
  function FromBytes(b0: bv8, b1: bv8, b2: bv8, b3: bv8): bv32
  {
    (b0 as bv32) | ((b1 as bv32) << 8) | ((b2 as bv32) << 16) | ((b3 as bv32) << 24)
  }

  /** The unsigned reading of a pattern (`x >>> 0`): its bytes as base-256
      digits. */
  function Unsigned(v: bv32): nat
  {
    DigitsFrom(v, 0)
  }

  /** The number the bytes `k` and up of a pattern make. */
  function DigitsFrom(v: bv32, k: nat): nat
    requires k <= 4
    decreases 4 - k
  {
    if k == 4 then 0 else ByteOf(v, k) as int + 0x100 * DigitsFrom(v, k + 1)
  }

  /** `Unsigned`, digit by digit. */
  lemma UnsignedDigits(v: bv32)
    ensures Unsigned(v) == ByteOf(v, 0) as int + 0x100 * (ByteOf(v, 1) as int)
      + 0x1_0000 * (ByteOf(v, 2) as int) + 0x100_0000 * (ByteOf(v, 3) as int)
  {
    assert DigitsFrom(v, 3) == ByteOf(v, 3) as int;
    assert DigitsFrom(v, 2) == ByteOf(v, 2) as int + 0x100 * DigitsFrom(v, 3);
    assert DigitsFrom(v, 1) == ByteOf(v, 1) as int + 0x100 * DigitsFrom(v, 2);
  }

  /** The signed reading of a pattern (`x | 0`): two's complement. */
  function ToInt32(v: bv32): int
  {
    if v < 0x8000_0000 then Unsigned(v) else Unsigned(v) - 0x1_0000_0000
  }

  /** The pattern of a number, as the bitwise operators take it: the
      integer modulo 2^32. */
  function ToBv32(n: int): bv32
  {
    var m := n % 0x1_0000_0000;
    FromBytes(ByteFromInt(m % 0x100), ByteFromInt((m / 0x100) % 0x100),
              ByteFromInt((m / 0x1_0000) % 0x100), ByteFromInt(m / 0x100_0000))
  }

  /** A number below 16 as a byte. */
  function Nibble(x: int): bv8
    requires 0 <= x < 0x10
  {
    if x == 0 then 0
    else if x == 1 then 1
    else if x == 2 then 2
    else if x == 3 then 3
    else if x == 4 then 4
    else if x == 5 then 5
    else if x == 6 then 6
    else if x == 7 then 7
    else if x == 8 then 8
    else if x == 9 then 9
    else if x == 10 then 10
    else if x == 11 then 11
    else if x == 12 then 12
    else if x == 13 then 13
    else if x == 14 then 14
    else 15
  }

  /** A number below 256 as a byte, built from its two hexadecimal digits. */
  function ByteFromInt(x: int): bv8
    requires 0 <= x < 0x100
  {
    (Nibble(x / 0x10) << 4) | Nibble(x % 0x10)
  }

  /** The sign bit is the top bit of the last byte. */
  lemma SignByte(v: bv32)
    ensures v < 0x8000_0000 <==> ByteOf(v, 3) as int < 0x80
  {
    var b := ByteOf(v, 3);
    assert v < 0x8000_0000 <==> b < 0x80;
    ByteBound(b);
  }

  lemma ByteBound(b: bv8)
    ensures 0 <= b as int < 0x100
    ensures b < 0x80 <==> b as int < 0x80
  {
  }

  /** Four base-256 digits make a number below 2^32, below 2^31 exactly
      when the top digit is below 128. */
  lemma DigitsRange(d0: int, d1: int, d2: int, d3: int)
    requires 0 <= d0 < 0x100 && 0 <= d1 < 0x100 && 0 <= d2 < 0x100 && 0 <= d3 < 0x100
    ensures d0 + 0x100 * d1 + 0x1_0000 * d2 + 0x100_0000 * d3 < 0x1_0000_0000
    ensures d0 + 0x100 * d1 + 0x1_0000 * d2 + 0x100_0000 * d3 < 0x8000_0000 <==> d3 < 0x80
  {
  }

  /** The unsigned reading is below 2^32, and below 2^31 exactly when the
      sign bit is clear. */
  lemma UnsignedRange(v: bv32)
    ensures Unsigned(v) < 0x1_0000_0000
    ensures Unsigned(v) < 0x8000_0000 <==> v < 0x8000_0000
  {
    UnsignedDigits(v);
    SignByte(v);
    ByteBound(ByteOf(v, 0));
    ByteBound(ByteOf(v, 1));
    ByteBound(ByteOf(v, 2));
    ByteBound(ByteOf(v, 3));
    DigitsRange(ByteOf(v, 0) as int, ByteOf(v, 1) as int, ByteOf(v, 2) as int, ByteOf(v, 3) as int);
  }

  /** The signed reading is a 32-bit signed integer, negative exactly when
      the sign bit is set. */
  lemma ToInt32Range(v: bv32)
    ensures -0x8000_0000 <= ToInt32(v) < 0x8000_0000
    ensures 0 <= ToInt32(v) <==> v < 0x8000_0000
  {
    UnsignedRange(v);
  }

  lemma ByteOfFromBytes(b0: bv8, b1: bv8, b2: bv8, b3: bv8)
    ensures ByteOf(FromBytes(b0, b1, b2, b3), 0) == b0
    ensures ByteOf(FromBytes(b0, b1, b2, b3), 1) == b1
    ensures ByteOf(FromBytes(b0, b1, b2, b3), 2) == b2
    ensures ByteOf(FromBytes(b0, b1, b2, b3), 3) == b3
  {
  }

  lemma NibbleValue(x: int)
    requires 0 <= x < 0x10
    ensures Nibble(x) as int == x
    ensures Nibble(x) < 0x10
  {
  }

  lemma JoinNibbles(h: bv8, l: bv8)
    requires h < 0x10 && l < 0x10
    ensures ((h << 4) | l) as int == 0x10 * (h as int) + l as int
  {
  }

  /** A byte built from a number reads back as that number. */
  lemma ByteFromIntValue(x: int)
    requires 0 <= x < 0x100
    ensures ByteFromInt(x) as int == x
  {
    NibbleValue(x / 0x10);
    NibbleValue(x % 0x10);
    JoinNibbles(Nibble(x / 0x10), Nibble(x % 0x10));
  }

  /** Every integer the pattern can hold reads back unchanged: lengths and
      identifiers survive the trip through a VarInt field. */
  lemma ToBv32Inverse(n: int)
    requires 0 <= n < 0x1_0000_0000
    ensures Unsigned(ToBv32(n)) == n
    ensures n < 0x8000_0000 ==> ToInt32(ToBv32(n)) == n
  {
    var m := n % 0x1_0000_0000;
    assert m == n;
    var q1 := m / 0x100;
    var q2 := q1 / 0x100;
    assert m / 0x1_0000 == q2;
    assert m / 0x100_0000 == q2 / 0x100;
    ByteOfFromBytes(ByteFromInt(m % 0x100), ByteFromInt(q1 % 0x100),
                    ByteFromInt(q2 % 0x100), ByteFromInt(q2 / 0x100));
    ByteFromIntValue(m % 0x100);
    ByteFromIntValue(q1 % 0x100);
    ByteFromIntValue(q2 % 0x100);
    ByteFromIntValue(q2 / 0x100);
    UnsignedRange(ToBv32(n));
    UnsignedDigits(ToBv32(n));
  }

  /** The top two bytes of a pattern below 2^21. */
  lemma HighBytes(v: bv32)
    requires ByteOf(v, 3) == 0 && ByteOf(v, 2) < 0x20
    ensures v < 0x20_0000
  {
  }

  /** A pattern whose unsigned reading is below 2^21 is below 2^21: the
      lengths that take at most three VarInt bytes. */
  lemma UnsignedBelow(v: bv32)
    requires Unsigned(v) < 0x20_0000
    ensures v < 0x20_0000
  {
    UnsignedDigits(v);
    ByteBound(ByteOf(v, 0));
    ByteBound(ByteOf(v, 1));
    ByteBound(ByteOf(v, 2));
    ByteBound(ByteOf(v, 3));
    assert ByteOf(v, 3) as int == 0 && ByteOf(v, 2) as int < 0x20;
    HighBytes(v);
  }
}
