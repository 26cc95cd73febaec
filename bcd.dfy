/**
 * The BCD codec of library/src/rtc.c:108-109 and the bridge between the
 * numbers of a time record and the bit patterns of a register.
 *
 * A register byte is a `bv8`; its numeric value is read off its two nibbles
 * through a 16-entry table, so that no proof has to reason about a
 * conversion between integers and bit vectors.
 */
module Bcd {
  import opened RtcTypes

  /** The bit pattern of a nibble value 0-15. */
  function Nibble(n: int): (b: byte)
    requires 0 <= n < 16
    ensures b & 0xF0 == 0
  {
    if n == 0 then 0x0 else if n == 1 then 0x1 else if n == 2 then 0x2 else if n == 3 then 0x3
    else if n == 4 then 0x4 else if n == 5 then 0x5 else if n == 6 then 0x6 else if n == 7 then 0x7
    else if n == 8 then 0x8 else if n == 9 then 0x9 else if n == 10 then 0xA else if n == 11 then 0xB
    else if n == 12 then 0xC else if n == 13 then 0xD else if n == 14 then 0xE else 0xF
  }

  /** The value of the low nibble of a byte. */
  function NibbleValue(b: byte): (n: int)
    ensures 0 <= n < 16
    ensures Nibble(n) == b & 0xF
  {
    var x := b & 0xF;
    if x == 0x0 then 0 else if x == 0x1 then 1 else if x == 0x2 then 2 else if x == 0x3 then 3
    else if x == 0x4 then 4 else if x == 0x5 then 5 else if x == 0x6 then 6 else if x == 0x7 then 7
    else if x == 0x8 then 8 else if x == 0x9 then 9 else if x == 0xA then 10 else if x == 0xB then 11
    else if x == 0xC then 12 else if x == 0xD then 13 else if x == 0xE then 14 else 15
  }

  lemma NibbleInverse(n: int)
    requires 0 <= n < 16
    ensures NibbleValue(Nibble(n)) == n
  {
  }

  /** Two nibbles packed into a byte come apart again. */
  lemma Pack(h: byte, l: byte)
    requires h & 0xF0 == 0 && l & 0xF0 == 0
    ensures ((h << 4) | l) >> 4 == h
    ensures ((h << 4) | l) & 0xF == l
  {
  }

  /** The nibbles of two nibble values packed into a byte read back. */
  lemma PackedNibbles(h: int, l: int)
    requires 0 <= h < 16 && 0 <= l < 16
    ensures NibbleValue(((Nibble(h) << 4) | Nibble(l)) >> 4) == h
    ensures NibbleValue((Nibble(h) << 4) | Nibble(l)) == l
  {
    var x, y := Nibble(h), Nibble(l);
    Pack(x, y);
    NibbleInverse(h);
    NibbleInverse(l);
  }

  /** The register byte holding a `uint8_t` value. */
  function ByteOf(x: uint8): byte
  {
    (Nibble(x / 16) << 4) | Nibble(x % 16)
  }

  /** The `uint8_t` value of a register byte. */
  function ByteValue(b: byte): uint8
  {
    NibbleValue(b >> 4) * 16 + NibbleValue(b)
  }

  /** `ByteOf` and `ByteValue` are inverse bijections. */
  lemma ByteValueOf(x: uint8)
    ensures ByteValue(ByteOf(x)) == x
  {
    PackedNibbles(x / 16, x % 16);
  }

  lemma ByteOfValue(b: byte)
    ensures ByteOf(ByteValue(b)) == b
  {
    var h, l := NibbleValue(b >> 4), NibbleValue(b);
    assert ByteValue(b) / 16 == h && ByteValue(b) % 16 == l;
  }

  /** `BIN2BCD(val)` stored into a `uint8_t` register: tens in the high
      nibble, units in the low one; tens of 16 and more are cut off by the
      store. */
  function Bin2Bcd(v: uint8): byte
  {
    (Nibble((v / 10) % 16) << 4) | Nibble(v % 10)
  }

  /** `BCD2BIN(val)` of a register byte: low nibble plus ten times the high
      nibble, at most 15 + 150, so it fits its `uint8_t` field. */
  function Bcd2Bin(b: byte): uint8
  {
    NibbleValue(b) + NibbleValue(b >> 4) * 10
  }

  /** A byte whose two nibbles are decimal digits. */
  predicate IsBcd(b: byte)
  {
    NibbleValue(b) <= 9 && NibbleValue(b >> 4) <= 9
  }

  /** For 0 <= v <= 99 the high nibble of BIN2BCD(v) is v / 10 and the low
      one v % 10. */
  lemma Bin2BcdNibbles(v: uint8)
    requires v <= 99
    ensures NibbleValue(Bin2Bcd(v) >> 4) == v / 10
    ensures NibbleValue(Bin2Bcd(v)) == v % 10
  {
    assert (v / 10) % 16 == v / 10;
    PackedNibbles(v / 10, v % 10);
  }

  /** BCD2BIN(BIN2BCD(v)) == v for 0 <= v <= 99, and the code is a BCD byte. */
  lemma BcdRoundTrip(v: uint8)
    requires v <= 99
    ensures IsBcd(Bin2Bcd(v))
    ensures Bcd2Bin(Bin2Bcd(v)) == v
  {
    Bin2BcdNibbles(v);
  }

  /** BIN2BCD(BCD2BIN(b)) == b for every BCD byte, whose value is 0-99. */
  lemma BinRoundTrip(b: byte)
    requires IsBcd(b)
    ensures Bcd2Bin(b) <= 99
    ensures Bin2Bcd(Bcd2Bin(b)) == b
  {
    var h, l := NibbleValue(b >> 4), NibbleValue(b);
    var v, w := Bcd2Bin(b), 16 * h + l;
    assert ByteOf(w) == b by { ByteOfValue(b); }
    assert ByteOf(w) == (Nibble(h) << 4) | Nibble(l) by { assert w / 16 == h && w % 16 == l; }
    Bin2BcdDigits(v, h, l);
  }

  /** BIN2BCD of the number with decimal digits h and l puts h in the high
      nibble and l in the low one. */
  lemma Bin2BcdDigits(v: uint8, h: int, l: int)
    requires 0 <= h <= 9 && 0 <= l <= 9 && v == 10 * h + l
    ensures Bin2Bcd(v) == (Nibble(h) << 4) | Nibble(l)
  {
    assert (v / 10) % 16 == h && v % 10 == l;
  }

  /** Bin2Bcd is the value of the C expression (((v / 10) << 4) + v % 10)
      reduced to the eight bits of the register it is stored into. */
  lemma Bin2BcdValue(v: uint8)
    ensures ByteValue(Bin2Bcd(v)) == ((v / 10) * 16 + v % 10) % 256
  {
    var h, l := (v / 10) % 16, v % 10;
    var w := 16 * h + l;
    assert ByteOf(w) == Bin2Bcd(v) by { assert w / 16 == h && w % 16 == l; }
    ByteValueOf(w);
    TensCutOff(v / 10, l);
  }

  /** Storing 16 a + l into eight bits keeps a modulo 16 in the high
      nibble. */
  lemma TensCutOff(a: int, l: int)
    requires a >= 0 && 0 <= l < 16
    ensures (a * 16 + l) % 256 == (a % 16) * 16 + l
  {
    var q := a / 16;
    assert a * 16 + l == 256 * q + ((a % 16) * 16 + l);
  }

  /** Bcd2Bin is the C expression ((val & 15) + (val >> 4) * 10) on the value
      of the byte. */
  lemma Bcd2BinValue(b: byte)
    ensures Bcd2Bin(b) == ByteValue(b) % 16 + (ByteValue(b) / 16) * 10
  {
  }
}
