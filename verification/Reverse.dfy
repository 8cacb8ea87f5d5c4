/** Counting in reversed bit order: the table builder steps through canonical
    codes without ever reversing one. */
module Reverse {
  import opened Bits

  lemma RevDouble(j: nat, c: nat)
    ensures Rev(j + 1, 2 * c) == Rev(j, c)
  {}

  /** The mask test on the top of `n` bits looks at the lowest bit of the code. */
  lemma {:induction false} TopOfReversed(code: nat, n: nat, h: nat)
    requires 0 < n && Low(code, n) == Rev(n, h)
    ensures And(code, Pow2(n - 1)) == (if h % 2 == 1 then Pow2(n - 1) else 0)
    ensures Low(code, n - 1) == Rev(n - 1, h / 2)
    ensures h % 2 == 1 ==> Rev(n, h + 1) == Rev(n - 1, h / 2 + 1)
    ensures h % 2 == 0 ==> Rev(n, h + 1) == Pow2(n - 1) + Rev(n - 1, h / 2)
  {
    hide Low, Shr, And, Rev, Pow2;
    LowTop(code, n);
    AndBit(code, n - 1);
    RevStep(n, h);
    RevStep(n, h + 1);
    Halves(h);
  }

  lemma Halves(h: nat)
    ensures h % 2 == 1 ==> (h + 1) % 2 == 0 && (h + 1) / 2 == h / 2 + 1
    ensures h % 2 == 0 ==> (h + 1) % 2 == 1 && (h + 1) / 2 == h / 2
  {}

  /** Replacing the low bits of a word. */
  lemma {:induction false} ReplaceLow(code: nat, width: nat, x: nat)
    requires x < Pow2(width)
    ensures Low(code, width) <= code
    ensures var r := code - Low(code, width) + x;
      Shr(r, width) == Shr(code, width) && Low(r, width) == x
  {
    ShrIsDiv(code, width);
    Glue(x, Shr(code, width), width);
  }

  /** The `n`-th bit as a mask, 0 once it has been shifted out. */
  function Bit(n: nat): nat { if n == 0 then 0 else Pow2(n - 1) }

  lemma {:induction false} SetTop(r: nat, n: nat, h: nat)
    requires 0 < n && Low(r, n) == Rev(n, h) && h % 2 == 0
    ensures And(r, Pow2(n - 1)) == 0 && Rev(n, h + 1) == Pow2(n - 1) + Rev(n, h)
    ensures Low(r, n - 1) == Rev(n, h)
  {
    TopOfReversed(r, n, h);
  }

  lemma {:induction false} ClearTop(r: nat, n: nat, h: nat)
    requires 0 < n && Low(r, n) == Rev(n, h) && h % 2 == 1
    ensures And(r, Pow2(n - 1)) != 0 && Pow2(n - 1) / 2 == Bit(n - 1)
    ensures Pow2(n - 1) <= r && Low(r - Pow2(n - 1), n - 1) == Low(r, n - 1) == Rev(n - 1, h / 2)
    ensures Rev(n, h) == Pow2(n - 1) + Rev(n - 1, h / 2) && Rev(n, h + 1) == Rev(n - 1, h / 2 + 1)
  {
    hide Low, Rev, Shr, And;
    RevStep(n, h);
    TopOfReversed(r, n, h);
    ReplaceLow(r, n, 0);
    LowStep(r - Pow2(n - 1), n - 1);
  }

  /** The top `j - n` bits of the reversed code have been found set. */
  ghost predicate Carrying(code: nat, j: nat, c: nat, n: nat, h: nat) {
    n <= j && Low(code, n) == Rev(n, h) && Rev(j, c + 1) == Rev(n, h + 1)
  }

  lemma {:induction false} CarryOn(code: nat, j: nat, c: nat, n: nat, h: nat)
    requires Carrying(code, j, c, n, h) && And(code, Bit(n)) != 0
    ensures 0 < n && Bit(n) / 2 == Bit(n - 1) < Bit(n) && Carrying(code, j, c, n - 1, h / 2)
  {
    if h % 2 == 0 { SetTop(code, n, h); } else { ClearTop(code, n, h); }
  }

  lemma {:induction false} CarryEnds(code: nat, j: nat, c: nat, n: nat, h: nat)
    requires Carrying(code, j, c, n, h) && And(code, Bit(n)) == 0
    ensures Rev(j, c + 1) == if Bit(n) == 0 then 0 else And(code, Bit(n) - 1) + Bit(n)
  {
    if 0 < n {
      hide Low, Rev, Shr, And;
      if h % 2 == 0 { SetTop(code, n, h); } else { ClearTop(code, n, h); }
      AndMask(code, n - 1);
    }
  }

  /** `code` reversed is `c`; the result reversed is `c + 1` modulo `2^j`. */
  method Increment(code: nat, j: nat, ghost c: nat) returns (r: nat)
    requires 1 <= j && code == Rev(j, c)
    ensures r == Rev(j, c + 1)
  {
    var incr := Pow2(j - 1);
    ghost var n: nat, h: nat := j, c;
    LowId(code, j);
    while And(code, incr) != 0
      invariant incr == Bit(n) && Carrying(code, j, c, n, h)
      decreases incr
    {
      CarryOn(code, j, c, n, h);
      incr := incr / 2;
      n, h := n - 1, h / 2;
    }
    CarryEnds(code, j, c, n, h);
    r := if incr == 0 then 0 else And(code, incr - 1) + incr;
  }

  lemma RevNone(h: nat)
    ensures forall v: nat :: Rev(0, v) == 0
  {}

  /** Adds one to the number whose reversal is in the low `width` bits. */
  method Carry(code: nat, width: nat, ghost h0: nat) returns (r: nat)
    requires 1 <= width && Low(code, width) == Rev(width, h0)
    ensures Shr(r, width) == Shr(code, width) && Low(r, width) == Rev(width, h0 + 1)
  {
    hide Low, Rev, Shr, And;
    RevNone(h0);
    r := code;
    var bit := Pow2(width - 1);
    var m := 0;
    ghost var n: nat, h: nat := width, h0;
    ReplaceLow(code, width, Rev(width, h0 + 1));
    while m < width
      invariant n == width - m && bit == Bit(n)
      invariant r == code - Low(code, width) + Rev(n, h) && Low(r, n) == Rev(n, h)
      invariant Rev(width, h0 + 1) == Rev(n, h + 1)
    {
      if h % 2 == 0 { SetTop(r, n, h); } else { ClearTop(r, n, h); }
      if And(r, bit) == 0 {
        r := r + bit;
        return;
      }
      r := r - bit;
      m, bit := m + 1, bit / 2;
      n, h := n - 1, h / 2;
    }
  }

  /** Adding `2^k` to a code touches only the low `j - k` reversed bits. */
  lemma {:induction false} RevAddPower(j: nat, k: nat, c: nat, code: nat, r: nat)
    requires k < j && code == Rev(j, c)
    requires Shr(r, j - k) == Shr(code, j - k) && Low(r, j - k) == Rev(j - k, Shr(c, k) + 1)
    ensures r == Rev(j, c + Pow2(k))
  {
    RevHalves(j, k, c);
    RevHalves(j, k, c + Pow2(k));
    LowStep(c, k);
    ShrStep(c, k);
    RevLow(k, k, c);
    RevLow(k, k, c + Pow2(k));
    ShrIsDiv(r, j - k);
    ShrIsDiv(Rev(j, c + Pow2(k)), j - k);
  }

  lemma {:induction false} RevHalves(j: nat, k: nat, c: nat)
    requires k <= j
    ensures Low(Rev(j, c), j - k) == Rev(j - k, Shr(c, k)) && Shr(Rev(j, c), j - k) == Rev(k, c)
  {
    hide Rev, Low, Shr;
    RevSplit(k, j - k, c);
    Glue(Rev(j - k, Shr(c, k)), Rev(k, c), j - k);
  }

  method AddPower(code: nat, j: nat, k: nat, ghost c: nat) returns (r: nat)
    requires k < j && code == Rev(j, c)
    ensures r == Rev(j, c + Pow2(k))
  {
    RevHalves(j, k, c);
    r := Carry(code, j - k, Shr(c, k));
    RevAddPower(j, k, c, code, r);
  }

  /** Adds `jcnt` to a reversed code modulo `2^j`; what does not fit in `j` bits
      is left over. */
  method Add(code: nat, j: nat, jcnt: nat, ghost c: nat) returns (r: nat, left: nat)
    requires 1 <= j && code == Rev(j, c)
    ensures r == Rev(j, c + Low(jcnt, j)) && left == jcnt - Low(jcnt, j)
  {
    r, left := code, jcnt;
    var k := 0;
    assert Low(jcnt, 0) == 0;
    hide Low, Rev, Shr, And, Pow2;
    while k < j
      invariant 0 <= k <= j
      invariant r == Rev(j, c + Low(jcnt, k)) && left == jcnt - Low(jcnt, k)
    {
      LowTop(jcnt, k + 1);
      RestBit(jcnt, k);
      AndBit(jcnt, k);
      if And(left, Pow2(k)) != 0 {
        r := AddPower(r, j, k, c + Low(jcnt, k));
        left := left - Pow2(k);
      }
      k := k + 1;
    }
  }

  lemma {:induction false} RestBit(v: nat, k: nat)
    ensures Low(v, k) <= v && And(v - Low(v, k), Pow2(k)) == And(v, Pow2(k)) <= v - Low(v, k)
  {
    ShrIsDiv(v, k);
    Glue(0, Shr(v, k), k);
    AndBit(v, k);
    AndBit(v - Low(v, k), k);
    if Shr(v, k) > 0 { MulGe(Shr(v, k), Pow2(k)); } else { assert Shr(v, k) * Pow2(k) == 0; }
  }

  lemma MulGe(a: nat, b: nat)
    requires a > 0
    ensures a * b >= b
  {}
}
