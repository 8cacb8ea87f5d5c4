/** The fixed codes of section 3.2.6 of RFC 1951 and their tables, made by
    running the table builder on the fixed lengths. */
module FixedCodes {
  import opened Bits
  import opened Canonical
  import opened HuffmanTable
  import opened SecondaryTable
  import opened InflateTable
  import opened Deflate

  /** The Kraft sum of the first `n` fixed literal lengths. */
  function LitSum(n: nat): nat {
    if n <= 144 then 128 * n
    else if n <= 256 then 128 * 144 + 64 * (n - 144)
    else if n <= 280 then 128 * 144 + 64 * 112 + 256 * (n - 256)
    else 128 * 144 + 64 * 112 + 256 * 24 + 128 * (n - 280)
  }

  lemma {:induction false} LitKraft(n: nat)
    requires n <= 288
    ensures KraftSum(FixedLit()[..n]) == LitSum(n)
  {
    if n > 0 {
      LitKraft(n - 1);
      assert FixedLit()[..n][..n - 1] == FixedLit()[..n - 1];
      assert Pow2(8) == 256 && Pow2(7) == 128 && Pow2(6) == 64;
    }
  }

  lemma {:induction false} DistKraft(n: nat)
    requires n <= 32
    ensures KraftSum(FixedDist()[..n]) == 1024 * n
  {
    if n > 0 {
      DistKraft(n - 1);
      assert FixedDist()[..n][..n - 1] == FixedDist()[..n - 1];
      assert Pow2(10) == 1024;
    }
  }

  /** Both fixed codes are complete. */
  lemma FixedComplete()
    ensures Valid(FixedLit()) && Complete(FixedLit()) && Valid(FixedDist()) && Complete(FixedDist())
  {
    LitKraft(288);
    DistKraft(32);
    assert FixedLit()[..288] == FixedLit() && FixedDist()[..32] == FixedDist();
    assert Pow2(8) == 256;
    assert Pow2(15) == 32768;
  }

  /** How many of the first `n` literal lengths are seven, eight and nine. */
  lemma {:induction false} LitRanks(n: nat)
    requires n <= 288
    ensures |Sel(FixedLit(), n, 7)| == if n <= 256 then 0 else if n <= 280 then n - 256 else 24
    ensures |Sel(FixedLit(), n, 8)| == if n <= 144 then n else if n <= 280 then 144 else n - 136
    ensures |Sel(FixedLit(), n, 9)| == if n <= 144 then 0 else if n <= 256 then n - 144 else 112
  {
    if n > 0 { LitRanks(n - 1); }
  }

  lemma {:induction false} NoCodesBelow(lens: Lengths, j: nat)
    requires forall s :: 0 <= s < |lens| ==> lens[s] >= j
    ensures NextCode(lens, j) == 0
  {
    hide Sel;
    if j > 0 {
      NoCodesBelow(lens, j - 1);
      SelNone(lens, |lens|, j - 1);
    }
  }

  /** The table of section 3.2.6: the literal codes are 00110000 to 10111111, 110010000 to
      111111111, 0000000 to 0010111 and 11000000 to 11000111. */
  lemma {:induction false} FixedLitCodes(s: nat)
    requires s < 288
    ensures s < 144 ==> FixedLit()[s] == 8 && CodeOf(FixedLit(), s) == 48 + s
    ensures 144 <= s < 256 ==> FixedLit()[s] == 9 && CodeOf(FixedLit(), s) == 400 + (s - 144)
    ensures 256 <= s < 280 ==> FixedLit()[s] == 7 && CodeOf(FixedLit(), s) == s - 256
    ensures 280 <= s ==> FixedLit()[s] == 8 && CodeOf(FixedLit(), s) == 192 + (s - 280)
  {
    hide Sel;
    NoCodesBelow(FixedLit(), 7);
    LitRanks(288);
    LitRanks(s);
    NextCodeStep(FixedLit(), 7);
    NextCodeStep(FixedLit(), 8);
  }

  lemma {:induction false} DistRanks(n: nat)
    requires n <= 32
    ensures |Sel(FixedDist(), n, 5)| == n
  {
    if n > 0 { DistRanks(n - 1); }
  }

  /** Distance codes are the numbers of five bits. */
  lemma {:induction false} FixedDistCodes(s: nat)
    requires s < 32
    ensures FixedDist()[s] == 5 && CodeOf(FixedDist(), s) == s
  {
    hide Sel;
    NoCodesBelow(FixedDist(), 5);
    DistRanks(s);
  }

  /** The secondary tables of the fixed codes fit. */
  lemma FixedNeed()
    ensures Need(FixedLit(), 8) <= 224 && Need(FixedDist(), 8) == 0
  {
    NeedNone(FixedLit(), 9);
    LitRanks(288);
    NeedNone(FixedDist(), 8);
  }

  /** Builds the two fixed tables; this cannot fail. */
  method FixedTables(next: array<nat>, tlit: array<nat>, tdist: array<nat>)
    requires next.Length == MAX_SYMBOLS && tlit.Length == tdist.Length == TABLE_SIZE
    requires tlit != tdist && tlit != next && tdist != next
    modifies next, tlit, tdist
    ensures Valid(FixedLit()) && Decodes(FixedLit(), tlit[..])
    ensures Valid(FixedDist()) && Decodes(FixedDist(), tdist[..])
  {
    hide Decodes, KraftSum, FixedLit, FixedDist, Need;
    FixedComplete();
    FixedNeed();
    FixedSizes();
    var ok := Build(FixedLit(), next, tlit);
    ok := Build(FixedDist(), next, tdist);
  }

  lemma FixedSizes()
    ensures |FixedLit()| == 288 && |FixedDist()| == 32
  {}
}
