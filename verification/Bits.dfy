/** Natural numbers read as bit strings: the C operators the decoder uses on
    unsigned words, bit reversal, and the two readings of a bit sequence. */
module Bits {
  import opened Arith

  function Pow2(n: nat): (r: nat)
    ensures r > 0
  {
    if n == 0 then 1 else 2 * Pow2(n - 1)
  }

  /** `v >> k` */
  function Shr(v: nat, k: nat): nat {
    if k == 0 then v else Shr(v / 2, k - 1)
  }

  /** `v << k` */
  function Shl(v: nat, k: nat): nat { v * Pow2(k) }

  /** `v & ((1 << k) - 1)` */
  function Low(v: nat, k: nat): (r: nat)
    ensures r < Pow2(k)
  {
    if k == 0 then 0 else v % 2 + 2 * Low(v / 2, k - 1)
  }

  /** `a | b` */
  function Or(a: nat, b: nat): nat
    decreases a + b
  {
    if a == 0 then b else if b == 0 then a
    else (if a % 2 == 1 || b % 2 == 1 then 1 else 0) + 2 * Or(a / 2, b / 2)
  }

  /** `a & b` */
  function And(a: nat, b: nat): nat
    decreases a + b
  {
    if a == 0 || b == 0 then 0
    else (if a % 2 == 1 && b % 2 == 1 then 1 else 0) + 2 * And(a / 2, b / 2)
  }

  /** The low `n` bits of `v`, in the opposite order. */
  function Rev(n: nat, v: nat): (r: nat)
    ensures r < Pow2(n)
  {
    if n == 0 then 0 else (if v % 2 == 1 then Pow2(n - 1) else 0) + Rev(n - 1, v / 2)
  }

  // ----- powers, shifts and masks

  lemma Double(q: int, p: int)
    ensures q * (2 * p) == 2 * (q * p) == (2 * q) * p
  {}

  lemma {:induction false} Pow2Add(a: nat, b: nat)
    ensures Pow2(a + b) == Pow2(a) * Pow2(b)
  {
    if a > 0 {
      Pow2Add(a - 1, b);
      Double(Pow2(a - 1), Pow2(b));
    }
  }

  lemma {:induction false} Pow2Le(a: nat, b: nat)
    requires a <= b
    ensures Pow2(a) <= Pow2(b)
    decreases b
  {
    if a < b { Pow2Le(a, b - 1); }
  }

  lemma {:induction false} ShrIsDiv(v: nat, k: nat)
    ensures v == Shr(v, k) * Pow2(k) + Low(v, k)
  {
    if k > 0 {
      ShrIsDiv(v / 2, k - 1);
      Double(Shr(v, k), Pow2(k - 1));
    }
  }

  lemma {:induction false} ShrFits(v: nat, k: nat, n: nat)
    requires k <= n && v < Pow2(n)
    ensures Shr(v, k) < Pow2(n - k)
  {
    if k > 0 { ShrFits(v / 2, k - 1, n - 1); }
  }

  lemma {:induction false} LowId(v: nat, k: nat)
    requires v < Pow2(k)
    ensures Low(v, k) == v && Shr(v, k) == 0
  {
    if k > 0 { LowId(v / 2, k - 1); }
  }

  lemma {:induction false} LowLow(v: nat, j: nat, k: nat)
    requires j <= k
    ensures Low(Low(v, k), j) == Low(v, j)
  {
    if j > 0 { LowLow(v / 2, j - 1, k - 1); }
  }

  lemma {:induction false} LowSplit(v: nat, j: nat, k: nat)
    ensures Low(v, j + k) == Low(v, j) + Pow2(j) * Low(Shr(v, j), k)
  {
    if j > 0 {
      LowSplit(v / 2, j - 1, k);
      Double(Pow2(j - 1), Low(Shr(v, j), k));
    }
  }

  /** A value glued from a low and a high part falls apart again. */
  lemma {:induction false} Glue(a: nat, b: nat, k: nat)
    requires a < Pow2(k)
    ensures Low(a + b * Pow2(k), k) == a && Shr(a + b * Pow2(k), k) == b
  {
    if k > 0 {
      Double(b, Pow2(k - 1));
      Glue(a / 2, b, k - 1);
      assert (a + b * Pow2(k)) / 2 == a / 2 + b * Pow2(k - 1);
    }
  }

  /** Or-ing a shifted word above a value that fits below it is addition. */
  lemma {:induction false} OrGlue(a: nat, b: nat, k: nat)
    requires a < Pow2(k)
    ensures Or(a, b * Pow2(k)) == a + b * Pow2(k)
  {
    if k > 0 {
      Double(b, Pow2(k - 1));
      OrGlue(a / 2, b, k - 1);
    } else {
      assert a == 0;
    }
  }

  /** The same three facts, said with the shift. */
  lemma {:induction false} GlueShl(a: nat, b: nat, k: nat)
    requires a < Pow2(k)
    ensures Low(a + Shl(b, k), k) == a && Shr(a + Shl(b, k), k) == b && Or(a, Shl(b, k)) == a + Shl(b, k)
  {
    Glue(a, b, k);
    OrGlue(a, b, k);
  }

  lemma {:induction false} LowSplitShl(v: nat, j: nat, k: nat)
    ensures Low(v, j + k) == Low(v, j) + Shl(Low(Shr(v, j), k), j)
  {
    hide Low, Shr, Pow2;
    LowSplit(v, j, k);
  }

  /** Two numbers that agree in their low `k` bits are `2^k` apart or more. */
  lemma {:induction false} LowGap(a: nat, b: nat, k: nat)
    requires Low(a, k) == Low(b, k) && a < b
    ensures a + Pow2(k) <= b
  {
    if k > 0 { LowGap(a / 2, b / 2, k - 1); }
  }

  lemma {:induction false} LowStep(a: nat, k: nat)
    ensures Low(a + Pow2(k), k) == Low(a, k)
  {
    if k > 0 {
      assert (a + Pow2(k)) / 2 == a / 2 + Pow2(k - 1);
      LowStep(a / 2, k - 1);
    }
  }

  lemma {:induction false} ShrStep(a: nat, k: nat)
    ensures Shr(a + Pow2(k), k) == Shr(a, k) + 1
  {
    if k > 0 {
      assert (a + Pow2(k)) / 2 == a / 2 + Pow2(k - 1);
      ShrStep(a / 2, k - 1);
    }
  }

  /** Testing one bit with a mask. */
  lemma {:induction false} AndBit(v: nat, k: nat)
    ensures And(v, Pow2(k)) == (if Shr(v, k) % 2 == 1 then Pow2(k) else 0)
  {
    if k == 0 {
      if v != 0 { assert And(v, 1) == v % 2 + 2 * And(v / 2, 0); }
    } else {
      AndBit(v / 2, k - 1);
      if v == 0 { LowId(0, k); }
    }
  }

  /** Keeping the bits below a power of two. */
  lemma {:induction false} AndMask(v: nat, k: nat)
    ensures And(v, Pow2(k) - 1) == Low(v, k)
  {
    if k > 0 {
      AndMask(v / 2, k - 1);
      assert (Pow2(k) - 1) / 2 == Pow2(k - 1) - 1;
      if v == 0 { LowId(0, k); }
    }
  }

  lemma {:induction false} LowTop(v: nat, n: nat)
    requires 0 < n
    ensures Low(v, n) == Low(v, n - 1) + And(v, Pow2(n - 1))
  {
    AndBit(v, n - 1);
    LowTopBit(v, n - 1);
  }

  lemma {:induction false} LowTopBit(v: nat, n: nat)
    ensures Low(v, n + 1) == Low(v, n) + (if Shr(v, n) % 2 == 1 then Pow2(n) else 0)
  {
    if n > 0 { LowTopBit(v / 2, n - 1); }
  }

  /** Masking is the remainder. */
  lemma {:induction false} LowIsMod(v: nat, k: nat)
    ensures Low(v, k) == v % Pow2(k)
  {
    ShrIsDiv(v, k);
    ModUnique(Shr(v, k), Low(v, k), Pow2(k));
  }

  lemma {:induction false} Pow64()
    ensures Pow2(64) == WORD
  {
    assert Pow2(8) == 256;
    Pow2Add(8, 8);
    Pow2Add(16, 16);
    Pow2Add(32, 32);
  }

  lemma Low8(v: nat)
    ensures Low(v, 8) == v % 256 && Shr(v, 8) == v / 256
  {
    assert Low(v, 8) == v % 2 + 2 * Low(v / 2, 7);
    ShrIsDiv(v, 8);
    assert Pow2(8) == 256;
  }

  // ----- bit reversal

  lemma Distribute(p: nat, r: nat, q: nat)
    ensures (p + r) * q == p * q + r * q
  {}

  lemma {:induction false} RevLow(n: nat, k: nat, v: nat)
    requires n <= k
    ensures Rev(n, Low(v, k)) == Rev(n, v)
  {
    if n > 0 { RevLow(n - 1, k - 1, v / 2); }
  }

  /** Reversing `a + b` bits: the low `a` of them become the high ones. */
  lemma {:induction false} RevSplit(a: nat, b: nat, v: nat)
    ensures Rev(a + b, v) == Rev(a, v) * Pow2(b) + Rev(b, Shr(v, a))
  {
    if a > 0 {
      RevSplit(a - 1, b, v / 2);
      Pow2Add(a - 1, b);
      Distribute(Pow2(a - 1), Rev(a - 1, v / 2), Pow2(b));
    }
  }

  lemma RevStep(n: nat, v: nat)
    requires n > 0
    ensures Rev(n, v) == (if v % 2 == 1 then Pow2(n - 1) else 0) + Rev(n - 1, v / 2)
  {}

  lemma {:induction false} RevOfHigh(n: nat, d: bool, v: nat)
    requires v < Pow2(n)
    ensures Rev(n + 1, (if d then Pow2(n) else 0) + v) == 2 * Rev(n, v) + (if d then 1 else 0)
  {
    if n > 0 {
      hide Rev;
      var x := (if d then Pow2(n) else 0) + v;
      RevOfHigh(n - 1, d, v / 2);
      assert x / 2 == (if d then Pow2(n - 1) else 0) + v / 2 && x % 2 == v % 2;
      RevStep(n + 1, x);
      RevStep(n, v);
    }
  }

  /** Reversal is its own inverse on `n`-bit numbers. */
  lemma {:induction false} RevRev(n: nat, v: nat)
    ensures Rev(n, Rev(n, v)) == Low(v, n)
  {
    if n > 0 {
      RevRev(n - 1, v / 2);
      RevOfHigh(n - 1, v % 2 == 1, Rev(n - 1, v / 2));
    }
  }

  // ----- bit sequences

  /** The low `n` bits of `v`, least significant first. */
  function ToBits(v: nat, n: nat): (bs: seq<bool>)
    ensures |bs| == n
  {
    if n == 0 then [] else [v % 2 == 1] + ToBits(v / 2, n - 1)
  }

  /** A number sent least significant bit first. */
  function LsbFirst(bs: seq<bool>): nat {
    if bs == [] then 0 else (if bs[0] then 1 else 0) + 2 * LsbFirst(bs[1..])
  }

  /** A number sent most significant bit first. */
  function MsbFirst(bs: seq<bool>): nat {
    if bs == [] then 0
    else 2 * MsbFirst(bs[..|bs| - 1]) + (if bs[|bs| - 1] then 1 else 0)
  }

  lemma {:induction false} ToBitsLow(v: nat, k: nat, n: nat)
    requires k <= n
    ensures ToBits(v, n)[..k] == ToBits(v, k)
    ensures ToBits(v, n)[k..] == ToBits(Shr(v, k), n - k)
  {
    if k > 0 {
      ToBitsLow(v / 2, k - 1, n - 1);
      assert ToBits(v, n)[..k] == [v % 2 == 1] + ToBits(v / 2, n - 1)[..k - 1];
      assert ToBits(v, n)[k..] == ToBits(v / 2, n - 1)[k - 1..];
    }
  }

  lemma {:induction false} ToBitsGlue(a: nat, b: nat, k: nat, n: nat)
    requires a < Pow2(k)
    ensures ToBits(a + b * Pow2(k), k + n) == ToBits(a, k) + ToBits(b, n)
  {
    if k == 0 {
      assert a + b * Pow2(k) == b;
    } else {
      assert b * Pow2(k) == 2 * (b * Pow2(k - 1));
      ToBitsGlue(a / 2, b, k - 1, n);
    }
  }

  /** Reading `n` bits least significant first gives the masked value. */
  lemma {:induction false} LsbOfToBits(v: nat, n: nat)
    ensures LsbFirst(ToBits(v, n)) == Low(v, n)
  {
    if n > 0 {
      LsbOfToBits(v / 2, n - 1);
      assert ToBits(v, n)[1..] == ToBits(v / 2, n - 1);
    }
  }

  /** Any bit sequence is the bits of the number it spells. */
  lemma {:induction false} ToBitsOfLsb(bs: seq<bool>)
    ensures ToBits(LsbFirst(bs), |bs|) == bs
  {
    if bs != [] { ToBitsOfLsb(bs[1..]); }
  }

  lemma {:induction false} MsbCons(b: bool, bs: seq<bool>)
    ensures MsbFirst([b] + bs) == (if b then Pow2(|bs|) else 0) + MsbFirst(bs)
  {
    var w := [b] + bs;
    if bs == [] {
      assert w[..|w| - 1] == [];
    } else {
      assert w[..|w| - 1] == [b] + bs[..|bs| - 1];
      MsbCons(b, bs[..|bs| - 1]);
    }
  }

  /** Reading `n` bits most significant first gives the reversed value. */
  lemma {:induction false} MsbOfToBits(v: nat, n: nat)
    ensures MsbFirst(ToBits(v, n)) == Rev(n, v)
  {
    if n > 0 {
      MsbOfToBits(v / 2, n - 1);
      MsbCons(v % 2 == 1, ToBits(v / 2, n - 1));
    }
  }
}
