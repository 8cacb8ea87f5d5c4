/** The solver behind the aligned allocator: where to put an object inside a
    64-byte line so that no secret byte lands on a line offset of 0 or 4 to 7. */
module AlignSolver {
  import opened Arith

  /** A 64-bit mask, one bit per byte of a line; arithmetic on it wraps. */
  type Line = bv64
  /** A byte offset in a line, or a rotation count: any number modulo 64. */
  type Off = bv6

  const TOP: Line := 1 << 63

  function Int(k: Off): (r: nat)
    ensures r < 64
  {
    k as int
  }

  predicate Bit(x: Line, i: Off) { (x >> i) & 1 == 1 }

  /** Bit `p` counting from the top. */
  predicate FromTop(x: Line, p: Off) { Bit(x, 63 - p) }

  predicate IsPowerOfTwo(n: nat)
  {
    n == 1 || (n % 2 == 0 && n > 0 && IsPowerOfTwo(n / 2))
  }

  // ----- the bit tricks

  function Rol(v: Line, c: Off): Line { (v << c) | (v >> (0 - c)) }

  function Ror(v: Line, c: Off): Line { Rol(v, 0 - c) }

  function GenAlignMask(al: nat, a: bv7, m: Line): Line
    requires a <= 64
    decreases a
  {
    if a as int > al then
      assert a != 0;
      GenAlignMask(al, a >> 1, m | (m >> (a >> 1)))
    else m
  }

  /** A bit for every multiple of the alignment, from the top. */
  function AlignMask(al: nat): Line { GenAlignMask(al, 64, TOP) }

  predicate Negative(x: Line) { x & TOP != 0 }

  /** Leading zero bits, or -1 for zero. */
  function CountLzb(bmp: Line): int
    decreases !bmp
  {
    if bmp == 0 then -1 else if Negative(bmp) then 0 else ShiftGrows(bmp); CountLzb(bmp << 1) + 1
  }

  lemma ShiftGrows(x: Line)
    ensures x != 0 && !Negative(x) ==> x << 1 != 0 && !(x << 1) < !x
  {}

  /** The pads that keep secrets off the forbidden line offsets, from the top bit. */
  function ClearMask(bmp: Line): Line { Flip(Both(Ror(Near(bmp), 5), Ror(bmp, 1))) }

  /** Where a marked byte is at, or up to three bytes above, the offset. */
  function Near(bmp: Line): Line { Both(Both(bmp, Ror(bmp, 1)), Both(Ror(bmp, 2), Ror(bmp, 3))) }

  function Both(a: Line, b: Line): Line { a | b }

  function Flip(a: Line): Line { !a }

  /** Those that suit the alignment as well. */
  function Candidates(al: nat, bmp: Line): Line { ClearMask(bmp) & AlignMask(al) }

  /** The least pad, or a negative number. */
  function CalcLspc(al: nat, bmp: Line): int { CountLzb(Candidates(al, bmp)) }

  // ----- bits of rotations and masks

  // A few of the rotation counts at a time keeps each query small.

  lemma RolBit0(v: Line, c: Off, i: Off)
    ensures c < 16 ==> Bit(Rol(v, c), i) == Bit(v, i - c)
  {}

  lemma RolBit1(v: Line, c: Off, i: Off)
    ensures 16 <= c && c < 32 ==> Bit(Rol(v, c), i) == Bit(v, i - c)
  {}

  lemma RolBit2(v: Line, c: Off, i: Off)
    ensures 32 <= c && c < 48 ==> Bit(Rol(v, c), i) == Bit(v, i - c)
  {}

  lemma RolBit3(v: Line, c: Off, i: Off)
    ensures 48 <= c && c < 56 ==> Bit(Rol(v, c), i) == Bit(v, i - c)
  {}

  lemma RolBit4(v: Line, c: Off, i: Off)
    ensures 56 <= c ==> Bit(Rol(v, c), i) == Bit(v, i - c)
  {}

  /** Rotating left moves bit `i - c` to bit `i`, around the line. */
  lemma RolBit(v: Line, c: Off, i: Off)
    ensures Bit(Rol(v, c), i) == Bit(v, i - c)
  {
    hide Bit, Rol;
    RolBit0(v, c, i);
    RolBit1(v, c, i);
    RolBit2(v, c, i);
    RolBit3(v, c, i);
    RolBit4(v, c, i);
  }

  /** The low `len` bits; for `len == 63` the subtraction wraps around. */
  function Ones(len: Off): Line { (1 << len) - 1 }

  lemma OnesBit(len: Off, i: Off)
    ensures Bit(Ones(len), i) <==> i < len
  {}

  lemma OrBit(a: Line, b: Line, i: Off)
    ensures Bit(a | b, i) <==> Bit(a, i) || Bit(b, i)
  {}

  /** The doubling mask for each alignment. */
  lemma MaskValue(al: nat)
    ensures al >= 64 ==> AlignMask(al) == 0x8000_0000_0000_0000
    ensures al == 32 ==> AlignMask(al) == 0x8000_0000_8000_0000
    ensures al == 16 ==> AlignMask(al) == 0x8000_8000_8000_8000
    ensures al == 8 ==> AlignMask(al) == 0x8080_8080_8080_8080
    ensures al == 4 ==> AlignMask(al) == 0x8888_8888_8888_8888
    ensures al == 2 ==> AlignMask(al) == 0xaaaa_aaaa_aaaa_aaaa
    ensures al == 1 ==> AlignMask(al) == 0xffff_ffff_ffff_ffff
  {
    assert al < 64 ==> AlignMask(al) == GenAlignMask(al, 32, 0x8000_0000_8000_0000);
    assert al < 32 ==> GenAlignMask(al, 32, 0x8000_0000_8000_0000) == GenAlignMask(al, 16, 0x8000_8000_8000_8000);
    assert al < 16 ==> GenAlignMask(al, 16, 0x8000_8000_8000_8000) == GenAlignMask(al, 8, 0x8080_8080_8080_8080);
    assert al < 8 ==> GenAlignMask(al, 8, 0x8080_8080_8080_8080) == GenAlignMask(al, 4, 0x8888_8888_8888_8888);
    assert al < 4 ==> GenAlignMask(al, 4, 0x8888_8888_8888_8888) == GenAlignMask(al, 2, 0xaaaa_aaaa_aaaa_aaaa);
    assert al < 2 ==> GenAlignMask(al, 2, 0xaaaa_aaaa_aaaa_aaaa) == GenAlignMask(al, 1, 0xffff_ffff_ffff_ffff);
  }

  lemma SmallPowers(al: nat)
    requires IsPowerOfTwo(al)
    ensures al == 1 || al == 2 || al == 4 || al == 8 || al == 16 || al == 32 || (al >= 64 && al % 64 == 0)
  {
    if al > 32 {
      PowerSplit(al, 32);
    }
  }

  lemma {:induction false} PowerSplit(al: nat, n: nat)
    requires IsPowerOfTwo(al) && IsPowerOfTwo(n) && n < al
    ensures al % (2 * n) == 0
  {
    if n > 1 {
      PowerSplit(al / 2, n / 2);
      ModDouble(al / 2, n);
      assert 2 * (n / 2) == n;
    }
  }

  lemma ModDouble(x: nat, n: nat)
    requires n > 0 && x % n == 0
    ensures (2 * x) % (2 * n) == 0
  {
    var q := x / n;
    assert 2 * x == q * (2 * n);
    MultipleMod(q, 2 * n);
  }

  lemma Marks2(p: Off)
    ensures FromTop(0xaaaa_aaaa_aaaa_aaaa, p) <==> Int(p) % 2 == 0
  {}

  lemma Marks4(p: Off)
    ensures FromTop(0x8888_8888_8888_8888, p) <==> Int(p) % 4 == 0
  {}

  lemma Marks8(p: Off)
    ensures FromTop(0x8080_8080_8080_8080, p) <==> Int(p) % 8 == 0
  {}

  lemma Marks16(p: Off)
    ensures FromTop(0x8000_8000_8000_8000, p) <==> Int(p) % 16 == 0
  {}

  lemma Marks32(p: Off)
    ensures FromTop(0x8000_0000_8000_0000, p) <==> Int(p) % 32 == 0
  {}

  lemma Marks64(p: Off)
    ensures FromTop(0x8000_0000_0000_0000, p) <==> Int(p) == 0
  {}

  lemma MarksAll(p: Off)
    ensures FromTop(0xffff_ffff_ffff_ffff, p)
  {}

  /** The doubling mask marks every multiple of the alignment, from the top. */
  lemma MaskBit(al: nat, p: Off)
    requires IsPowerOfTwo(al)
    ensures FromTop(AlignMask(al), p) <==> Int(p) % al == 0
  {
    hide FromTop, AlignMask, Int;
    MaskValue(al);
    SmallPowers(al);
    MarksAll(p);
    if
    case al == 1 =>
    case al == 2 => Marks2(p);
    case al == 4 => Marks4(p);
    case al == 8 => Marks8(p);
    case al == 16 => Marks16(p);
    case al == 32 => Marks32(p);
    case al >= 64 => Marks64(p); SmallMod(Int(p), al);
  }

  // ----- which pads are clear

  /** With pad `p`, no marked byte of the line falls on offset 0 or 4 to 7. */
  predicate Clear(bmp: Line, p: Off) {
    !Bit(bmp, 0 - p) && !Bit(bmp, 4 - p) && !Bit(bmp, 5 - p) && !Bit(bmp, 6 - p) && !Bit(bmp, 7 - p)
  }

  predicate Fits(al: nat, bmp: Line, p: Off)
    requires al > 0
  {
    Int(p) % al == 0 && Clear(bmp, p)
  }

  /** The rotations line the five forbidden offsets up under one bit. */
  lemma ClearBit(bmp: Line, p: Off)
    ensures FromTop(ClearMask(bmp), p) <==> Clear(bmp, p)
  {
    hide Bit, Ror, Near, Both, Flip;
    Offsets(p);
    FlipBit(Both(Ror(Near(bmp), 5), Ror(bmp, 1)), 63 - p);
    BothBit(Ror(Near(bmp), 5), Ror(bmp, 1), 63 - p);
    RorBit(Near(bmp), 5, 63 - p);
    RorBit(bmp, 1, 63 - p);
    NearBit(bmp, 4 - p);
  }

  lemma Offsets(p: Off)
    ensures 63 - p + 5 == 4 - p && 63 - p + 1 == 0 - p
    ensures 4 - p + 1 == 5 - p && 4 - p + 2 == 6 - p && 4 - p + 3 == 7 - p
  {}

  lemma BothBit(a: Line, b: Line, i: Off)
    ensures Bit(Both(a, b), i) <==> Bit(a, i) || Bit(b, i)
  {
    hide Bit;
    OrBit(a, b, i);
  }

  lemma FlipBit(x: Line, i: Off)
    ensures Bit(Flip(x), i) <==> !Bit(x, i)
  {}

  lemma RorBit(v: Line, c: Off, i: Off)
    ensures Bit(Ror(v, c), i) == Bit(v, i + c)
  {
    hide Bit, Rol;
    RolBit(v, 0 - c, i);
  }

  lemma NearBit(bmp: Line, i: Off)
    ensures Bit(Near(bmp), i) <==> Bit(bmp, i) || Bit(bmp, i + 1) || Bit(bmp, i + 2) || Bit(bmp, i + 3)
  {
    hide Bit, Ror, Both;
    BothBit(Both(bmp, Ror(bmp, 1)), Both(Ror(bmp, 2), Ror(bmp, 3)), i);
    BothBit(bmp, Ror(bmp, 1), i);
    BothBit(Ror(bmp, 2), Ror(bmp, 3), i);
    RorBit(bmp, 1, i);
    RorBit(bmp, 2, i);
    RorBit(bmp, 3, i);
  }

  lemma AndBit(a: Line, b: Line, p: Off)
    ensures FromTop(a & b, p) <==> FromTop(a, p) && FromTop(b, p)
  {}

  lemma CandidateBit(al: nat, bmp: Line, p: Off)
    requires IsPowerOfTwo(al)
    ensures FromTop(Candidates(al, bmp), p) <==> Fits(al, bmp, p)
  {
    hide FromTop, ClearMask, AlignMask, Clear, Int;
    AndBit(ClearMask(bmp), AlignMask(al), p);
    ClearBit(bmp, p);
    MaskBit(al, p);
  }

  // ----- the first candidate

  lemma TopBit(x: Line, p: Off)
    ensures FromTop(x << 1, p) <==> p != 63 && FromTop(x, p + 1)
  {}

  lemma SuccInt(p: Off)
    ensures p != 63 ==> Int(p + 1) == Int(p) + 1
  {}

  lemma TopNegative(x: Line)
    ensures FromTop(x, 0) == Negative(x)
  {}

  ghost predicate First(x: Line, p: Off) { FromTop(x, p) && forall q: Off :: q < p ==> !FromTop(x, q) }

  lemma FirstShift(x: Line, y: Line, p: Off)
    requires y == x << 1 && !Negative(x) && First(y, p)
    ensures p != 63 && First(x, p + 1)
  {
    hide FromTop, Negative;
    TopBit(x, p);
    TopNegative(x);
    forall q: Off | q < p + 1 ensures !FromTop(x, q) {
      TopBit(x, q - 1);
    }
  }

  /** The leading zero count is the first bit set, counting from the top, or -1. */
  lemma {:induction false} LzbFirst(x: Line) returns (p: Off)
    ensures x == 0 ==> CountLzb(x) == -1
    ensures x != 0 ==> Int(p) == CountLzb(x) && First(x, p)
    decreases !x
  {
    if x == 0 {
      p := 0;
    } else if Negative(x) {
      TopNegative(x);
      p := 0;
    } else {
      hide FromTop, Negative, First, Int;
      ShiftGrows(x);
      p := LzbFirst(x << 1);
      FirstShift(x, x << 1, p);
      SuccInt(p);
      p := p + 1;
    }
  }

  /** The solver finds the least multiple of the alignment below 64 that keeps the
      line clear; it is negative exactly when there is none. */
  lemma {:induction false} LspcExact(al: nat, bmp: Line) returns (p: Off)
    requires IsPowerOfTwo(al)
    ensures CalcLspc(al, bmp) >= 0 ==>
      Int(p) == CalcLspc(al, bmp) && Fits(al, bmp, p) && forall q: Off :: q < p ==> !Fits(al, bmp, q)
    ensures CalcLspc(al, bmp) < 0 <==> forall q: Off :: !Fits(al, bmp, q)
  {
    hide FromTop, Fits, Candidates, Int;
    var x := Candidates(al, bmp);
    forall q: Off ensures FromTop(x, q) <==> Fits(al, bmp, q) { CandidateBit(al, bmp, q); }
    if x != 0 {
      p := LzbFirst(x);
    } else {
      p := 0;
      forall q: Off ensures !FromTop(x, q) { ZeroNoBit(q); }
    }
  }

  lemma ZeroNoBit(p: Off)
    ensures !FromTop(0, p)
  {}
}
