/** Word sizes, products, quotients and remainders. */
module Arith {
  const WORD32: nat := 0x1_0000_0000
  const WORD: nat := 0x1_0000_0000_0000_0000

  lemma Multiple(d: int, n: nat)
    ensures d >= 1 ==> d * n >= n
    ensures d >= 2 ==> d * n >= 2 * n
    ensures d <= -1 ==> d * n <= 0 - n
  {}

  lemma ModUnique(q: int, r: nat, n: nat)
    requires r < n
    ensures (q * n + r) % n == r && (q * n + r) / n == q
  {
    var v := q * n + r;
    var d := v / n - q;
    assert d * n == r - v % n;
    Multiple(d, n);
  }

  /** A multiple of `n` does not change the remainder. */
  lemma ShiftMod(x: int, d: int, n: nat)
    requires n > 0
    ensures (x + d * n) % n == x % n
  {
    assert x + d * n == (d + x / n) * n + x % n;
    ModUnique(d + x / n, x % n, n);
  }

  lemma MultipleMod(q: int, n: nat)
    requires n > 0
    ensures (q * n) % n == 0
  {
    ModUnique(q, 0, n);
  }

  lemma SmallMod(x: nat, n: nat)
    requires x < n
    ensures x % n == x
  {}

  lemma AddMod(a: int, b: int, n: nat)
    requires n > 0
    ensures (a % n + b) % n == (a + b) % n
  {
    assert a + b == (a % n + b) + (a / n) * n;
    ShiftMod(a % n + b, a / n, n);
  }

  lemma MulMod(k: int, u: int, n: nat)
    requires n > 0
    ensures (k * (u % n)) % n == (k * u) % n
  {
    assert u == u % n + (u / n) * n;
    assert k * u == k * (u % n) + (k * (u / n)) * n by {
      Regroup(k, u % n, u / n, n);
    }
    ShiftMod(k * (u % n), k * (u / n), n);
  }

  lemma Regroup(k: int, r: int, q: int, n: int)
    ensures k * (r + q * n) == k * r + (k * q) * n
  {}
}
