/** The packed decoding table: counting the lengths, filling the 256-entry primary
    table and finding where the longer codes start. */
module HuffmanTable {
  import opened Bits
  import opened Canonical
  import Reverse

  const TABLE_SIZE: nat := 1024
  /** Room for the code lengths of one block, 286 literals and 30 distances. */
  const MAX_SYMBOLS: nat := 316

  // ----- counting pass

  /** The chain of symbols of length `j`: how many, the first, and each next. */
  ghost predicate Chain(lens: Lengths, n: nat, j: nat, count: nat, first: nat, next: seq<nat>)
    requires n <= |lens| && n <= |next|
  {
    var l := Sel(lens, n, j);
    count == |l| && (l != [] ==> first == l[0])
    && forall k :: 0 <= k < |l| - 1 ==> next[l[k]] == l[k + 1]
  }

  ghost predicate Chains(lens: Lengths, n: nat, count: seq<nat>, start: seq<nat>, next: seq<nat>) {
    |count| == |start| == 16 && n <= |lens| && n <= |next|
    && forall j :: 0 <= j < 16 ==> Chain(lens, n, j, count[j], start[j], next)
  }

  lemma ChainCount(lens: Lengths, j: nat, count: nat, first: nat, next: seq<nat>)
    requires 0 < j && |lens| <= |next| && Chain(lens, |lens|, j, count, first, next)
    ensures count == Count(lens, j)
  {}

  ghost predicate Lasts(lens: Lengths, n: nat, prev: seq<nat>) {
    |prev| == 16 && n <= |lens|
    && forall j :: 0 <= j < 16 && Sel(lens, n, j) != [] ==>
         prev[j] == Sel(lens, n, j)[|Sel(lens, n, j)| - 1]
  }

  /** Hooking symbol `i` to the end of its chain leaves the other links alone. */
  lemma ChainStep(lens: Lengths, i: nat, j: nat, count: nat, first: nat, next: seq<nat>, last: nat)
    requires i < |lens| && i < |next| && Chain(lens, i, j, count, first, next)
    requires Sel(lens, i, lens[i]) != [] && last == Sel(lens, i, lens[i])[|Sel(lens, i, lens[i])| - 1]
    ensures Chain(lens, i + 1, j, if lens[i] == j then count + 1 else count, first, next[last := i])
  {
    var l := Sel(lens, i, j);
    SelMember(lens, i, lens[i], |Sel(lens, i, lens[i])| - 1);
    forall k | 0 <= k < |l| - 1 ensures l[k] != last {
      SelMember(lens, i, j, k);
    }
  }

  lemma CountStep(lens: Lengths, i: nat, c: seq<nat>, f: seq<nat>, p: seq<nat>, nx: seq<nat>)
    requires i < |lens| && i < |nx| && lens[i] < 16
    requires Chains(lens, i, c, f, nx) && Lasts(lens, i, p)
    ensures var l := lens[i];
      if c[l] == 0 then Chains(lens, i + 1, c[l := 1], f[l := i], nx)
      else p[l] < i && Chains(lens, i + 1, c[l := c[l] + 1], f, nx[p[l] := i])
    ensures Lasts(lens, i + 1, p[lens[i] := i])
  {
    var l := lens[i];
    assert Chain(lens, i, l, c[l], f[l], nx);
    forall j | 0 <= j < 16
      ensures if c[l] == 0 then Chain(lens, i + 1, j, c[l := 1][j], f[l := i][j], nx)
              else p[l] < i && Chain(lens, i + 1, j, c[l := c[l] + 1][j], f[j], nx[p[l] := i])
    {
      assert Chain(lens, i, j, c[j], f[j], nx);
      if c[l] > 0 { ChainStep(lens, i, j, c[j], f[j], nx, p[l]); }
    }
  }

  /** Adds symbol `i` to the chain of its length. */
  method LinkSymbol(codes: seq<nat>, i: nat,
                    count: array<nat>, start: array<nat>, prev: array<nat>, next: array<nat>)
    requires i < |codes| && i < next.Length && codes[i] < 16
    requires count != start && count != prev && count != next && start != prev && start != next && prev != next
    requires Chains(codes, i, count[..], start[..], next[..]) && Lasts(codes, i, prev[..])
    modifies count, start, prev, next
    ensures Chains(codes, i + 1, count[..], start[..], next[..]) && Lasts(codes, i + 1, prev[..])
  {
    var l := codes[i];
    ghost var c, f, p, nx := count[..], start[..], prev[..], next[..];
    CountStep(codes, i, c, f, p, nx);
    if count[l] == 0 {
      start[l] := i;
      assert start[..] == f[l := i];
    } else {
      next[prev[l]] := i;
      assert next[..] == nx[p[l] := i];
    }
    prev[l] := i;
    count[l] := count[l] + 1;
    assert count[..] == c[l := c[l] + 1] && prev[..] == p[l := i];
  }

  lemma ChainsStart(codes: seq<nat>, c: seq<nat>, f: seq<nat>, p: seq<nat>, nx: seq<nat>)
    requires |c| == |f| == |p| == 16 && forall j :: 0 <= j < 16 ==> c[j] == 0
    ensures Chains(codes, 0, c, f, nx) && Lasts(codes, 0, p)
  {}

  /** Counts the codes of each length and chains the symbols of each length. */
  method CountLengths(codes: seq<nat>, count: array<nat>, start: array<nat>, next: array<nat>)
      returns (ok: bool)
    requires count.Length == start.Length == 16 && |codes| <= next.Length
    requires count != start && count != next && start != next
    requires forall j :: 0 <= j < 16 ==> count[j] == 0
    modifies count, start, next
    ensures ok == Valid(codes)
    ensures ok ==> Chains(codes, |codes|, count[..], start[..], next[..])
  {
    hide Chain, Chains, Lasts, Sel;
    var prev := new nat[16](_ => 0);
    ChainsStart(codes, count[..], start[..], prev[..], next[..]);
    for i: nat := 0 to |codes|
      invariant forall s :: 0 <= s < i ==> codes[s] <= 15
      invariant Chains(codes, i, count[..], start[..], next[..]) && Lasts(codes, i, prev[..])
    {
      if codes[i] >= 16 {
        return false;
      }
      LinkSymbol(codes, i, count, start, prev, next);
    }
    return true;
  }

  // ----- what an entry says

  /** A primary entry: the symbol and one less than its code length. */
  function Direct(s: nat, j: nat): nat
    requires 1 <= j
  {
    s + (j - 1) * 512
  }

  /** A secondary entry: the symbol and its code length less eight. */
  function Indirect(s: nat, j: nat): nat
    requires 8 <= j
  {
    s + (j - 8) * 512
  }

  /** A primary entry that names a secondary table of `2^sb` entries. */
  function Pointer(sec: nat, sb: nat): nat { sec + sb * 512 + 4096 }

  // ----- primary table

  /** `s` comes before the `i`-th code of length `j`. */
  predicate Before(lens: Lengths, s: nat, j: nat, i: nat) {
    s < |lens| && 0 < lens[s] && (lens[s] < j || (lens[s] == j && |Sel(lens, s, j)| < i))
  }

  ghost predicate Owned(lens: Lengths, e: nat, j: nat, i: nat) {
    exists s :: Before(lens, s, j, i) && Match(lens, s, e)
  }

  /** The codes before the `i`-th of length `j` have all their primary slots,
      and no other slot is taken. */
  ghost predicate Primary(lens: Lengths, t: seq<nat>, j: nat, i: nat) {
    |t| == TABLE_SIZE
    && (forall e: nat, s: nat :: e < 256 && Before(lens, s, j, i) && Match(lens, s, e) ==> t[e] == Direct(s, lens[s]))
    && (forall e :: 0 <= e < TABLE_SIZE && t[e] != 0 ==> e < 256 && Owned(lens, e, j, i))
  }

  /** The slots congruent to the reversed code are those the code begins. */
  lemma {:induction false} SlotsOfCode(lens: Lengths, s: nat, w: nat)
    requires Valid(lens) && Kraft(lens) && s < |lens| && 0 < lens[s]
    ensures Low(w, lens[s]) == Rev(lens[s], CodeOf(lens, s)) <==> Match(lens, s, w)
  {
    var j, c := lens[s], CodeOf(lens, s);
    CodeFits(lens, s);
    LowId(c, j);
    RevRev(j, c);
    RevRev(j, w);
    RevLow(j, j, w);
  }

  lemma {:induction false} PrimaryStep(lens: Lengths, t: seq<nat>, t': seq<nat>, j: nat, i: nat, s0: nat)
    requires Valid(lens) && Kraft(lens) && Primary(lens, t, j, i) && |t'| == TABLE_SIZE
    requires s0 < |lens| && 0 < lens[s0] == j && |Sel(lens, s0, j)| == i
    requires forall e :: 256 <= e < TABLE_SIZE ==> t'[e] == t[e]
    requires forall e :: 0 <= e < 256 ==>
      t'[e] == if Low(e, j) == Rev(j, CodeOf(lens, s0)) then Direct(s0, j) else t[e]
    ensures Primary(lens, t', j, i + 1)
  {
    forall e: nat, s: nat | e < 256 && Before(lens, s, j, i + 1) && Match(lens, s, e)
      ensures t'[e] == Direct(s, lens[s])
    {
      SlotsOfCode(lens, s0, e);
      if Match(lens, s0, e) {
        PrefixFree(lens, s, s0, e);
      } else {
        NextInChain(lens, s, s0, j, i);
      }
    }
    forall e | 0 <= e < TABLE_SIZE && t'[e] != 0 ensures e < 256 && Owned(lens, e, j, i + 1) {
      if e < 256 {
        SlotsOfCode(lens, s0, e);
        if Match(lens, s0, e) {
          assert Before(lens, s0, j, i + 1);
        } else {
          var s :| Before(lens, s, j, i) && Match(lens, s, e);
          assert Before(lens, s, j, i + 1);
        }
      }
    }
  }

  /** Only the `i`-th code of length `j` comes between the two marks. */
  lemma {:induction false} NextInChain(lens: Lengths, s: nat, s0: nat, j: nat, i: nat)
    requires s0 < |lens| && 0 < lens[s0] == j && |Sel(lens, s0, j)| == i
    requires Before(lens, s, j, i + 1)
    ensures s == s0 || Before(lens, s, j, i)
  {
    SelRank(lens, s0);
    SelRank(lens, s);
  }

  lemma {:induction false} LowLe(v: nat, k: nat)
    ensures Low(v, k) <= v
  {
    if k > 0 { LowLe(v / 2, k - 1); }
  }

  /** Every primary entry differs from 0, the mark of a free slot: only symbol 0 with a code
      of one bit has that entry. */
  predicate Marked(lens: Lengths) { lens == [] || lens[0] != 1 }

  /** At most one code before the `i`-th of length `j` is all zeros, and it has slot 0. */
  ghost predicate Front(lens: Lengths, t: seq<nat>, j: nat, i: nat) {
    |t| == TABLE_SIZE && t[0] < 4096
    && (forall s: nat :: Before(lens, s, j, i) && Zero(lens, s) ==> t[0] != 0)
    && (forall s: nat, u: nat ::
          Before(lens, s, j, i) && Zero(lens, s) && Before(lens, u, j, i) && Zero(lens, u) ==> s == u)
  }

  lemma FrontStart(lens: Lengths, t: seq<nat>)
    requires |t| == TABLE_SIZE && t[0] == 0
    ensures Front(lens, t, 1, 0)
  {}

  lemma LowZero(j: nat)
    ensures Low(0, j) == 0
  {
    LowId(0, j);
  }

  lemma {:induction false} FrontStep(lens: Lengths, t: seq<nat>, t': seq<nat>, j: nat, i: nat, s0: nat)
    requires Marked(lens) && Front(lens, t, j, i) && |t'| == TABLE_SIZE
    requires s0 < |lens| <= 512 && 1 <= lens[s0] == j <= 8 && |Sel(lens, s0, j)| == i
    requires t'[0] == if Zero(lens, s0) then Direct(s0, j) else t[0]
    requires Zero(lens, s0) ==> t[0] == 0
    ensures Front(lens, t', j, i + 1)
  {
    hide Rev, CodeOf, Sel, Zero;
    forall s: nat | Before(lens, s, j, i + 1) ensures s == s0 || Before(lens, s, j, i) {
      NextInChain(lens, s, s0, j, i);
    }
  }

  lemma {:induction false} FrontNextLength(lens: Lengths, t: seq<nat>, j: nat)
    requires 1 <= j && Front(lens, t, j, Count(lens, j))
    ensures Front(lens, t, j + 1, 0)
  {
    hide Zero, Sel;
    forall s: nat ensures Before(lens, s, j, Count(lens, j)) <==> Before(lens, s, j + 1, 0) {
      if s < |lens| { SelRank(lens, s); }
    }
  }

  /** Writes `tval` to every slot of the `size` after `base` whose low `j` bits
      are `code`, unless one of them is taken. */
  method Fill(table: array<nat>, base: nat, size: nat, code: nat, j: nat, tval: nat) returns (ok: bool)
    requires table.Length == TABLE_SIZE && base + size <= TABLE_SIZE && code < Pow2(j)
    modifies table
    ensures forall x :: 0 <= x < base || base + size <= x < TABLE_SIZE ==> table[x] == old(table[x])
    ensures ok ==> forall x :: base <= x < base + size ==>
      table[x] == if Low(x - base, j) == code then tval else old(table[x])
    ensures ok <==> forall e :: 0 <= e < size && Low(e, j) == code ==> old(table[base + e]) == 0
  {
    var ind := code;
    LowId(code, j);
    forall e: nat ensures Low(e, j) == code ==> code <= e { LowLe(e, j); }
    while ind < size
      invariant code <= ind && Low(ind, j) == code
      invariant forall x :: 0 <= x < TABLE_SIZE ==>
        table[x] == if base <= x < base + size && x - base < ind && Low(x - base, j) == code then tval
                    else old(table[x])
      invariant forall e :: 0 <= e < size && e < ind && Low(e, j) == code ==> old(table[base + e]) == 0
    {
      if table[base + ind] != 0 {
        return false;
      }
      table[base + ind] := tval;
      forall e: nat | ind < e ensures Low(e, j) == code ==> ind + Pow2(j) <= e {
        if Low(e, j) == code { LowGap(ind, e, j); }
      }
      LowStep(ind, j);
      ind := ind + Pow2(j);
    }
    return true;
  }

  /** The slots of the next code are free. */
  lemma {:induction false} PrimaryFree(lens: Lengths, t: seq<nat>, j: nat, i: nat, s0: nat, e: nat)
    requires Valid(lens) && Kraft(lens) && Primary(lens, t, j, i) && e < 256
    requires s0 < |lens| && 0 < lens[s0] == j && |Sel(lens, s0, j)| == i
    requires Low(e, j) == Rev(j, CodeOf(lens, s0))
    ensures t[e] == 0
  {
    SlotsOfCode(lens, s0, e);
    if t[e] != 0 {
      var s: nat :| Before(lens, s, j, i) && Match(lens, s, e);
      PrefixFree(lens, s, s0, e);
    }
  }

  /** Installs one code of length `j` in the primary table. */
  method PlaceShort(ghost lens: Lengths, table: array<nat>, j: nat, ghost i: nat, val: nat, code: nat)
      returns (ok: bool)
    requires Valid(lens) && |lens| <= 512 && table.Length == TABLE_SIZE
    requires val < |lens| && 1 <= lens[val] == j <= 8 && |Sel(lens, val, j)| == i
    requires code == Rev(j, CodeOf(lens, val))
    requires Kraft(lens) ==> Primary(lens, table[..], j, i)
    requires Marked(lens) ==> Front(lens, table[..], j, i)
    modifies table
    ensures Kraft(lens) ==> ok && Primary(lens, table[..], j, i + 1)
    ensures ok && Marked(lens) ==> Front(lens, table[..], j, i + 1)
  {
    hide Front, Primary, Kraft, Rev, CodeOf, Low;
    if val >= 512 {
      return false;
    }
    ghost var t := table[..];
    ok := Fill(table, 0, 256, code, j, Direct(val, j));
    LowZero(j);
    if ok && Marked(lens) { FrontStep(lens, t, table[..], j, i, val); }
    if Kraft(lens) {
      if ok {
        PrimaryStep(lens, t, table[..], j, i, val);
      } else {
        var e :| 0 <= e < 256 && Low(e, j) == code && t[e] != 0;
        PrimaryFree(lens, t, j, i, val, e);
      }
    }
  }

  /** Installs the codes of length `j`, in canonical order. */
  method PrimaryLength(ghost lens: Lengths, next: array<nat>, table: array<nat>,
                       j: nat, jcnt: nat, first: nat, code0: nat)
      returns (ok: bool, code: nat)
    requires Valid(lens) && |lens| <= 512 && |lens| <= next.Length
    requires table.Length == TABLE_SIZE && table != next
    requires 1 <= j <= 8 && Chain(lens, |lens|, j, jcnt, first, next[..])
    requires code0 == Rev(j, NextCode(lens, j))
    requires Kraft(lens) ==> Primary(lens, table[..], j, 0)
    requires Marked(lens) ==> Front(lens, table[..], j, 0)
    modifies table
    ensures ok ==> code == Rev(j, NextCode(lens, j) + jcnt)
    ensures Kraft(lens) ==> ok && Primary(lens, table[..], j, jcnt)
    ensures ok && Marked(lens) ==> Front(lens, table[..], j, jcnt)
  {
    hide Rev, NextCode, Primary, KraftSum, Front, Marked;
    code := code0;
    var val, i := first, 0;
    while i < jcnt
      invariant 0 <= i <= jcnt && (i < jcnt ==> val == Sel(lens, |lens|, j)[i])
      invariant code == Rev(j, NextCode(lens, j) + i)
      invariant Kraft(lens) ==> Primary(lens, table[..], j, i)
      invariant Marked(lens) ==> Front(lens, table[..], j, i)
    {
      SelMember(lens, |lens|, j, i);
      ok := PlaceShort(lens, table, j, i, val, code);
      if !ok {
        return;
      }
      ghost var t := table[..];
      if i + 1 < jcnt {
        val := next[val];
      }
      code := Reverse.Increment(code, j, NextCode(lens, j) + i);
      assert table[..] == t;
      i := i + 1;
    }
    ok := true;
  }

  lemma {:induction false} PrimaryNextLength(lens: Lengths, t: seq<nat>, j: nat)
    requires 1 <= j && Primary(lens, t, j, Count(lens, j))
    ensures Primary(lens, t, j + 1, 0)
  {
    forall s: nat ensures Before(lens, s, j, Count(lens, j)) <==> Before(lens, s, j + 1, 0) {
      if s < |lens| { SelRank(lens, s); }
    }
    forall e | 0 <= e < TABLE_SIZE && t[e] != 0 ensures Owned(lens, e, j + 1, 0) {
      var s: nat :| Before(lens, s, j, Count(lens, j)) && Match(lens, s, e);
      assert Before(lens, s, j + 1, 0);
    }
  }

  lemma PrimaryStart(lens: Lengths, t: seq<nat>)
    requires |t| == TABLE_SIZE && forall e :: 0 <= e < TABLE_SIZE ==> t[e] == 0
    ensures Primary(lens, t, 1, 0)
  {}

  /** Moves on from length `j` to length `j + 1`. */
  method PrimaryNext(ghost lens: Lengths, next: array<nat>, table: array<nat>,
                     j: nat, jcnt: nat, first: nat, code0: nat)
      returns (ok: bool, code: nat)
    requires Valid(lens) && |lens| <= 512 && |lens| <= next.Length
    requires table.Length == TABLE_SIZE && table != next
    requires 1 <= j <= 8 && Chain(lens, |lens|, j, jcnt, first, next[..])
    requires code0 == Rev(j, NextCode(lens, j))
    requires Kraft(lens) ==> Primary(lens, table[..], j, 0)
    requires Marked(lens) ==> Front(lens, table[..], j, 0)
    modifies table
    ensures ok ==> code == Rev(j + 1, NextCode(lens, j + 1))
    ensures Kraft(lens) ==> ok && Primary(lens, table[..], j + 1, 0)
    ensures ok && Marked(lens) ==> Front(lens, table[..], j + 1, 0)
  {
    hide Front, Primary, Marked, Rev, NextCode, Sel, KraftSum, Chain;
    ok, code := true, code0;
    ChainCount(lens, j, jcnt, first, next[..]);
    if jcnt != 0 {
      if Kraft(lens) { KraftFits(lens, j); }
      if jcnt > Pow2(j) {
        return false, code;
      }
      ok, code := PrimaryLength(lens, next, table, j, jcnt, first, code0);
    }
    if Kraft(lens) { PrimaryNextLength(lens, table[..], j); }
    if ok && Marked(lens) { FrontNextLength(lens, table[..], j); }
    Reverse.RevDouble(j, NextCode(lens, j) + jcnt);
    NextCodeStep(lens, j);
  }

  /** Installs every code of at most eight bits. */
  method PrimaryPass(ghost lens: Lengths, count: array<nat>, start: array<nat>, next: array<nat>,
                     table: array<nat>)
      returns (ok: bool, code: nat)
    requires Valid(lens) && |lens| <= 512 && |lens| <= next.Length && table.Length == TABLE_SIZE
    requires table != next && table != count && table != start
    requires Chains(lens, |lens|, count[..], start[..], next[..])
    requires forall e :: 0 <= e < TABLE_SIZE ==> table[e] == 0
    modifies table
    ensures Kraft(lens) ==> ok
    ensures ok ==> code == Rev(9, NextCode(lens, 9)) && (Kraft(lens) ==> Primary(lens, table[..], 9, 0))
    ensures ok && Marked(lens) ==> Front(lens, table[..], 9, 0)
  {
    hide Primary, Sel, KraftSum, Front, Marked;
    FrontStart(lens, table[..]);
    code := 0;
    var j := 1;
    if Kraft(lens) { PrimaryStart(lens, table[..]); }
    while j <= 8
      invariant 1 <= j <= 9 && code == Rev(j, NextCode(lens, j))
      invariant Kraft(lens) ==> Primary(lens, table[..], j, 0)
      invariant Marked(lens) ==> Front(lens, table[..], j, 0)
    {
      assert Chain(lens, |lens|, j, count[..][j], start[..][j], next[..]);
      ok, code := PrimaryNext(lens, next, table, j, count[j], start[j], code);
      if !ok {
        return;
      }
      j := j + 1;
    }
    ok := true;
  }

  // ----- first codes of the longer lengths

  /** Finds where the codes of each length above eight start. */
  method FirstCodes(ghost lens: Lengths, count: array<nat>, firstcode: array<nat>, code0: nat)
      returns (ok: bool)
    requires |lens| < 512 && count.Length == 16 && firstcode.Length == 7 && count != firstcode
    requires forall j :: 9 <= j < 16 ==> count[j] == Count(lens, j)
    requires code0 == Rev(9, NextCode(lens, 9))
    modifies firstcode
    ensures ok && forall j :: 9 <= j < 16 && count[j] != 0 ==> firstcode[j - 9] == Rev(j, NextCode(lens, j))
  {
    hide Sel, KraftSum, Low, Rev, NextCode, Pow2;
    assert Pow2(9) == 512 by { Pow512(); }
    var code, j := code0, 9;
    while j < 16
      invariant 9 <= j <= 16 && code == Rev(j, NextCode(lens, j))
      invariant forall k :: 9 <= k < j && count[k] != 0 ==> firstcode[k - 9] == Rev(k, NextCode(lens, k))
    {
      var jcnt := count[j];
      if jcnt != 0 {
        firstcode[j - 9] := code;
        var left;
        code, left := Reverse.Add(code, j, jcnt, NextCode(lens, j));
        Pow2Le(9, j);
        LowId(jcnt, j);
        if left != 0 {
          return false;
        }
      }
      Reverse.RevDouble(j, NextCode(lens, j) + jcnt);
      NextCodeStep(lens, j);
      j := j + 1;
    }
    ok := true;
  }

  lemma Pow512()
    ensures Pow2(9) == 512
  {}
}
