/** The canonical prefix codes of section 3.2.2 of RFC 1951, the Kraft sum of a
    set of code lengths, and decoding one bit at a time. */
module Canonical {
  import opened Wrappers
  import opened Bits

  /** Code lengths, indexed by symbol; 0 means the symbol is not used. */
  type Lengths = seq<nat>

  ghost predicate Valid(lens: Lengths) {
    forall s :: 0 <= s < |lens| ==> lens[s] <= 15
  }

  /** The symbols below `n` that have length `j`, in increasing order. */
  function Sel(lens: Lengths, n: nat, j: nat): (r: seq<nat>)
    requires n <= |lens|
    ensures |r| <= n && forall k :: 0 <= k < |r| ==> r[k] < n
  {
    if n == 0 then []
    else Sel(lens, n - 1, j) + (if lens[n - 1] == j then [n - 1] else [])
  }

  /** `bl_count`, with `bl_count[0]` set to zero. */
  function Count(lens: Lengths, j: nat): nat {
    if j == 0 then 0 else |Sel(lens, |lens|, j)|
  }

  /** `next_code` before any code of length `j` is handed out. */
  function NextCode(lens: Lengths, j: nat): nat {
    if j == 0 then 0 else 2 * (NextCode(lens, j - 1) + Count(lens, j - 1))
  }

  /** The code RFC 1951 assigns to a used symbol. */
  function CodeOf(lens: Lengths, s: nat): nat
    requires s < |lens|
  {
    NextCode(lens, lens[s]) + |Sel(lens, s, lens[s])|
  }

  /** `word` is the code of `s`, packed most significant bit first. */
  ghost predicate IsCode(lens: Lengths, s: nat, word: seq<bool>) {
    s < |lens| && 0 < lens[s] == |word| && MsbFirst(word) == CodeOf(lens, s)
  }

  /** Reads `bs` bit by bit until the bits so far are a code. */
  ghost function Decode(lens: Lengths, bs: seq<bool>, j: nat): (r: Option<(nat, nat)>)
    ensures r.Some? ==> j <= r.value.1 <= 15 && r.value.1 <= |bs| && IsCode(lens, r.value.0, bs[..r.value.1])
    decreases 16 - j
  {
    if j > 15 || j > |bs| then None
    else if exists s :: IsCode(lens, s, bs[..j]) then
      var s :| IsCode(lens, s, bs[..j]);
      Some((s, j))
    else Decode(lens, bs, j + 1)
  }

  /** The window `w`, first bit lowest, begins with the code of `s`. */
  predicate Match(lens: Lengths, s: nat, w: nat) {
    s < |lens| && 0 < lens[s] && Rev(lens[s], w) == CodeOf(lens, s)
  }

  /** The code of `s` has more than eight bits, and `e` is the first eight, first bit lowest. */
  predicate Starts(lens: Lengths, s: nat, e: nat) {
    s < |lens| && 8 < lens[s] && Rev(lens[s], CodeOf(lens, s)) % 256 == e
  }

  /** A code of more than eight bits starts with `e`. */
  ghost predicate Longer(lens: Lengths, e: nat) { exists s: nat :: Starts(lens, s, e) }

  /** The bits this decoder takes where no code begins window `w`: eight when a longer code
      has the same first eight, one otherwise. */
  ghost function Gap(lens: Lengths, w: nat): (n: nat)
    ensures 1 <= n <= 8
  {
    if Longer(lens, w % 256) then 8 else 1
  }

  /** The sum of `2^(15 - length)` over the used symbols. */
  function KraftSum(lens: Lengths): nat {
    if lens == [] then 0
    else
      var l := lens[|lens| - 1];
      KraftSum(lens[..|lens| - 1]) + (if 0 < l <= 15 then Pow2(15 - l) else 0)
  }

  ghost predicate Kraft(lens: Lengths) { KraftSum(lens) <= Pow2(15) }

  ghost predicate Complete(lens: Lengths) { KraftSum(lens) == Pow2(15) }

  // ----- selecting symbols by length

  lemma {:induction false} SelMember(lens: Lengths, n: nat, j: nat, k: nat)
    requires n <= |lens| && k < |Sel(lens, n, j)|
    ensures var s := Sel(lens, n, j)[k];
      s < n && lens[s] == j && |Sel(lens, s, j)| == k
  {
    if k < |Sel(lens, n - 1, j)| { SelMember(lens, n - 1, j, k); }
  }

  lemma {:induction false} SelGrows(lens: Lengths, m: nat, n: nat, j: nat)
    requires m <= n <= |lens|
    ensures Sel(lens, m, j) <= Sel(lens, n, j)
    decreases n
  {
    if m < n { SelGrows(lens, m, n - 1, j); }
  }

  /** A symbol stands in its own list at the position given by its rank. */
  lemma SelRank(lens: Lengths, s: nat)
    requires s < |lens|
    ensures var j := lens[s];
      |Sel(lens, s, j)| < |Sel(lens, |lens|, j)| && Sel(lens, |lens|, j)[|Sel(lens, s, j)|] == s
  {
    SelGrows(lens, s + 1, |lens|, lens[s]);
  }

  // ----- how the codes of different lengths lie

  lemma NextCodeStep(lens: Lengths, j: nat)
    ensures NextCode(lens, j + 1) == 2 * (NextCode(lens, j) + Count(lens, j))
  {}

  lemma {:induction false} NextCodeGrows(lens: Lengths, i: nat, j: nat)
    requires i < j
    ensures (NextCode(lens, i) + Count(lens, i)) * Pow2(j - i) <= NextCode(lens, j)
    decreases j
  {
    hide NextCode, Count;
    var c := NextCode(lens, i) + Count(lens, i);
    NextCodeStep(lens, j - 1);
    if i + 1 == j {
      assert Pow2(j - i) == 2;
    } else {
      NextCodeGrows(lens, i, j - 1);
      Double(c, Pow2(j - 1 - i));
    }
  }

  lemma {:induction false} CodeBelow(lens: Lengths, s: nat)
    requires s < |lens| && 0 < lens[s]
    ensures CodeOf(lens, s) < NextCode(lens, lens[s]) + Count(lens, lens[s])
  {
    SelRank(lens, s);
  }

  lemma MulLe(a: nat, b: nat, c: nat)
    requires a <= b
    ensures a * c <= b * c
  {}

  lemma NoRoom(c: nat, top: nat, p: nat, r: nat)
    requires c < top && r < p
    ensures c * p + r < top * p
  {
    MulLe(c + 1, top, p);
    Distribute(c, 1, p);
  }

  /** A shorter code is never a prefix of a longer one. */
  lemma {:induction false} ShortNotPrefix(lens: Lengths, s: nat, t: nat, w: nat)
    requires Match(lens, s, w) && Match(lens, t, w)
    ensures lens[t] <= lens[s]
  {
    hide Rev, NextCode, Count, Sel, Pow2, Shr;
    var i, j := lens[s], lens[t];
    if i < j {
      RevSplit(i, j - i, w);
      CodeBelow(lens, s);
      NextCodeGrows(lens, i, j);
      NoRoom(CodeOf(lens, s), NextCode(lens, i) + Count(lens, i), Pow2(j - i), Rev(j - i, Shr(w, i)));
      assert false;
    }
  }

  /** At most one code begins a given window. */
  lemma {:induction false} PrefixFree(lens: Lengths, s: nat, t: nat, w: nat)
    requires Match(lens, s, w) && Match(lens, t, w)
    ensures s == t
  {
    ShortNotPrefix(lens, s, t, w);
    ShortNotPrefix(lens, t, s, w);
    SelRank(lens, s);
    SelRank(lens, t);
  }

  // ----- the Kraft sum

  lemma {:induction false} SelPrefix(lens: Lengths, l: nat, n: nat, j: nat)
    requires n <= |lens|
    ensures Sel(lens + [l], n, j) == Sel(lens, n, j)
  {
    if n > 0 { SelPrefix(lens, l, n - 1, j); }
  }

  lemma CountSnoc(lens: Lengths, l: nat, j: nat)
    ensures Count(lens + [l], j) == Count(lens, j) + (if 0 < l == j then 1 else 0)
  {
    SelPrefix(lens, l, |lens|, j);
  }

  lemma {:induction false} NextCodeSnoc(lens: Lengths, l: nat, j: nat)
    ensures NextCode(lens + [l], j) == NextCode(lens, j) + (if 0 < l < j then Pow2(j - l) else 0)
  {
    if j > 0 {
      NextCodeSnoc(lens, l, j - 1);
      CountSnoc(lens, l, j - 1);
    }
  }

  lemma {:induction false} NextCodeEmpty(j: nat)
    ensures NextCode([], j) == 0
  {
    if j > 0 { NextCodeEmpty(j - 1); }
  }

  /** The Kraft sum is where the code counter of RFC 1951 ends up. */
  lemma {:induction false} KraftIsLastCode(lens: Lengths)
    requires Valid(lens)
    ensures KraftSum(lens) == NextCode(lens, 15) + Count(lens, 15)
  {
    if lens == [] {
      NextCodeEmpty(15);
    } else {
      var init, l := lens[..|lens| - 1], lens[|lens| - 1];
      assert lens == init + [l];
      KraftIsLastCode(init);
      NextCodeSnoc(init, l, 15);
      CountSnoc(init, l, 15);
    }
  }

  lemma MulCancelLe(a: nat, b: nat, c: nat)
    requires a * c <= b * c && c > 0
    ensures a <= b
  {}

  lemma {:induction false} CountersFit(lens: Lengths, j: nat, n: nat)
    requires j <= n && NextCode(lens, n) + Count(lens, n) <= Pow2(n)
    ensures NextCode(lens, j) + Count(lens, j) <= Pow2(j)
  {
    if j < n {
      NextCodeGrows(lens, j, n);
      Pow2Add(j, n - j);
      MulCancelLe(NextCode(lens, j) + Count(lens, j), Pow2(j), Pow2(n - j));
    }
  }

  /** Under the Kraft inequality the codes of each length fit in that length. */
  lemma {:induction false} KraftFits(lens: Lengths, j: nat)
    requires Valid(lens) && Kraft(lens) && j <= 15
    ensures NextCode(lens, j) + Count(lens, j) <= Pow2(j)
  {
    KraftIsLastCode(lens);
    CountersFit(lens, j, 15);
  }

  lemma {:induction false} CodeFits(lens: Lengths, s: nat)
    requires Valid(lens) && Kraft(lens) && s < |lens| && 0 < lens[s]
    ensures CodeOf(lens, s) < Pow2(lens[s])
  {
    KraftFits(lens, lens[s]);
    CodeBelow(lens, s);
  }

  lemma {:induction false} RevStep(j: nat, w: nat)
    requires 0 < j
    ensures 2 * Rev(j - 1, w) <= Rev(j, w)
  {
    RevSplit(j - 1, 1, w);
    assert Pow2(1) == 2;
  }

  /** Walking down a window, the bits read so far stay at or above every code
      not longer than them, unless one of those codes has been met. */
  lemma {:induction false} Descend(lens: Lengths, w: nat, j: nat) returns (s: nat)
    ensures Match(lens, s, w) || NextCode(lens, j) + Count(lens, j) <= Rev(j, w)
  {
    s := 0;
    if j > 0 {
      s := Descend(lens, w, j - 1);
      if !Match(lens, s, w) {
        RevStep(j, w);
        var c := Rev(j, w);
        if c < NextCode(lens, j) + Count(lens, j) {
          s := Sel(lens, |lens|, j)[c - NextCode(lens, j)];
          SelMember(lens, |lens|, j, c - NextCode(lens, j));
        }
      }
    }
  }

  /** A complete code leaves no window without a code at its front. */
  lemma CompleteMatches(lens: Lengths, w: nat) returns (s: nat)
    requires Valid(lens) && Complete(lens)
    ensures Match(lens, s, w)
  {
    s := Descend(lens, w, 15);
    KraftIsLastCode(lens);
  }

  // ----- oversubscribed sets

  /** The code of `s`, cut to its length, is all zeros. */
  predicate Zero(lens: Lengths, s: nat) { s < |lens| && 0 < lens[s] && Rev(lens[s], CodeOf(lens, s)) == 0 }

  lemma {:induction false} ZeroBits(j: nat)
    ensures Rev(j, 0) == 0 && Rev(j, Pow2(j)) == 0
  {
    if j > 0 { ZeroBits(j - 1); }
  }

  /** The first code of all is zero. */
  lemma {:induction false} FirstZero(lens: Lengths, j: nat) returns (s: nat)
    requires NextCode(lens, j) + Count(lens, j) > 0
    ensures s < |lens| && 0 < lens[s] <= j && CodeOf(lens, s) == 0
  {
    hide Sel;
    if j == 0 || NextCode(lens, j - 1) + Count(lens, j - 1) > 0 {
      s := FirstZero(lens, j - 1);
    } else {
      s := Sel(lens, |lens|, j)[0];
      SelMember(lens, |lens|, j, 0);
    }
  }

  /** The first length whose codes do not fit in it. */
  lemma {:induction false} Overflow(lens: Lengths, n: nat) returns (j: nat)
    requires NextCode(lens, n) + Count(lens, n) > Pow2(n)
    ensures 0 < j && NextCode(lens, j) <= Pow2(j) < NextCode(lens, j) + Count(lens, j)
  {
    j := n;
    if NextCode(lens, n - 1) + Count(lens, n - 1) > Pow2(n - 1) { j := Overflow(lens, n - 1); }
  }

  /** An oversubscribed set has two codes of zeros: the first one, and the first that does
      not fit in its length. */
  lemma {:induction false} TwoZeros(lens: Lengths) returns (s: nat, t: nat)
    requires Valid(lens) && !Kraft(lens)
    ensures s != t && Zero(lens, s) && Zero(lens, t)
  {
    hide KraftSum, NextCode, Sel, Rev;
    KraftIsLastCode(lens);
    var j := Overflow(lens, 15);
    s := FirstZero(lens, j);
    var k := Pow2(j) - NextCode(lens, j);
    t := Sel(lens, |lens|, j)[k];
    SelMember(lens, |lens|, j, k);
    ZeroBits(lens[s]);
    ZeroBits(j);
  }

  // ----- windows and bit sequences

  lemma MatchIsCode(lens: Lengths, s: nat, w: nat, n: nat)
    requires s < |lens| && lens[s] <= n
    ensures Match(lens, s, w) <==> IsCode(lens, s, ToBits(w, n)[..lens[s]])
  {
    ToBitsLow(w, lens[s], n);
    MsbOfToBits(w, lens[s]);
  }

  /** Bit-by-bit decoding finds the code at the front of the window, however
      many bits follow it. */
  lemma {:induction false} DecodeFinds(lens: Lengths, s: nat, w: nat, bs: seq<bool>, j: nat)
    requires Match(lens, s, w) && j <= lens[s] <= 15 && 1 <= j
    requires 15 <= |bs| && bs[..15] == ToBits(w, 15)
    ensures Decode(lens, bs, j) == Some((s, lens[s]))
    decreases lens[s] - j
  {
    forall t, k | 1 <= k <= 15 && IsCode(lens, t, bs[..k]) ensures t == s && k == lens[s] {
      assert bs[..k] == ToBits(w, 15)[..k];
      MatchIsCode(lens, t, w, 15);
      PrefixFree(lens, s, t, w);
    }
    if j < lens[s] {
      DecodeFinds(lens, s, w, bs, j + 1);
    } else {
      assert bs[..j] == ToBits(w, 15)[..j];
      MatchIsCode(lens, s, w, 15);
    }
  }

  lemma {:induction false} DecodeMisses(lens: Lengths, w: nat, bs: seq<bool>, j: nat)
    requires forall s :: !Match(lens, s, w)
    requires 1 <= j && 15 <= |bs| && bs[..15] == ToBits(w, 15)
    ensures Decode(lens, bs, j) == None
    decreases 16 - j
  {
    if j <= 15 {
      forall t: nat ensures !IsCode(lens, t, bs[..j]) {
        assert bs[..j] == ToBits(w, 15)[..j];
        if t < |lens| && lens[t] == j { MatchIsCode(lens, t, w, 15); }
      }
      DecodeMisses(lens, w, bs, j + 1);
    }
  }
}
