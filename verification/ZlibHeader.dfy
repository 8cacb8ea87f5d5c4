/** The header of a zlib stream, section 2.2 of RFC 1950. */
module ZlibHeader {
  import opened Arith
  import opened Bytes
  import opened BitReader

  /** The two-byte header of section 2.2 of RFC 1950: method 8, a window of at
      most 32K, no dictionary, and the check bits. */
  predicate HeaderOk(b0: byte, b1: byte) {
    b0 % 16 == 8 && b0 / 16 <= 7 && b1 / 32 % 2 == 0 && Join(b1, b0) % 31 == 0
  }

  /** The least check bits that make the header a multiple of 31. */
  function CheckBits(b0: nat, level: nat): nat { (31 - (256 * b0 + 64 * level) % 31) % 31 }

  /** A header as a compressor writes it, for a window of `2^(cinfo + 8)` bytes. */
  predicate HeaderFrom(cinfo: nat, level: nat, b0: byte, b1: byte) {
    cinfo <= 7 && level <= 3 && b0 == 16 * cinfo + 8 && b1 == 64 * level + CheckBits(b0, level)
  }

  lemma CheckNeverZero(cinfo: nat, level: nat)
    requires cinfo <= 7 && level <= 3
    ensures (256 * (16 * cinfo + 8) + 64 * level) % 31 == (4 * cinfo + 2 * level + 2) % 31
    ensures 0 < (4 * cinfo + 2 * level + 2) % 31
  {
    assert 256 * (16 * cinfo + 8) + 64 * level == (132 * cinfo + 2 * level + 66) * 31 + (4 * cinfo + 2 * level + 2);
    ShiftMod(4 * cinfo + 2 * level + 2, 132 * cinfo + 2 * level + 66, 31);
  }

  lemma CheckUnique(x: nat, c: nat)
    requires c < 32 && 0 < x % 31
    ensures (x + c) % 31 == 0 <==> c == 31 - x % 31
  {
    AddMod(x, c, 31);
  }

  lemma HeaderParts(cinfo: nat, level: nat, b0: byte, b1: byte)
    requires HeaderFrom(cinfo, level, b0, b1)
    ensures cinfo == b0 / 16 && level == b1 / 64
  {
    assert CheckBits(b0, level) < 31;
  }

  /** The flag byte: the level, no dictionary, and five check bits. */
  lemma FlagParts(b1: byte)
    ensures b1 == 64 * (b1 / 64) + b1 % 64 && b1 / 64 <= 3
    ensures b1 / 32 % 2 == 0 <==> b1 % 64 < 32
  {}

  lemma CheckBitsAre(x: nat)
    requires 0 < x % 31
    ensures (31 - x % 31) % 31 == 31 - x % 31
  {}

  lemma HeaderIs(b0: byte, b1: byte)
    ensures HeaderOk(b0, b1) <==> HeaderFrom(b0 / 16, b1 / 64, b0, b1)
  {
    var cinfo, level, c := b0 / 16, b1 / 64, b1 % 64;
    var x := 256 * b0 + 64 * level;
    FlagParts(b1);
    if b0 == 16 * cinfo + 8 && cinfo <= 7 {
      CheckNeverZero(cinfo, level);
      CheckBitsAre(x);
      if c < 32 { CheckUnique(x, c); }
      HeaderSame(b0, b1, cinfo, level, c, x);
    }
  }

  lemma HeaderSame(b0: byte, b1: byte, cinfo: nat, level: nat, c: nat, x: nat)
    requires b0 == 16 * cinfo + 8 && cinfo <= 7 && level <= 3 && b1 == 64 * level + c && x == 256 * b0 + 64 * level
    requires (b1 / 32 % 2 == 0 <==> c < 32) && CheckBits(b0, level) == 31 - x % 31 && 0 < x % 31
    requires c < 32 ==> ((x + c) % 31 == 0 <==> c == 31 - x % 31)
    ensures HeaderOk(b0, b1) <==> HeaderFrom(cinfo, level, b0, b1)
  {
    hide CheckBits;
    assert Join(b1, b0) == x + c;
    ModUnique(cinfo, 8, 16);
  }

  /** The headers that are accepted are exactly those. */
  lemma {:induction false} HeaderExact(b0: byte, b1: byte)
    ensures HeaderOk(b0, b1) <==> exists cinfo, level :: HeaderFrom(cinfo, level, b0, b1)
  {
    hide HeaderOk, HeaderFrom;
    HeaderIs(b0, b1);
    if cinfo: nat, level: nat :| HeaderFrom(cinfo, level, b0, b1) {
      HeaderParts(cinfo, level, b0, b1);
    }
  }
}
