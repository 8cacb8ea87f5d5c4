/** The in-place quicksort: recursion on the smaller side, a loop on the larger. */
module QSort {
  import opened Bits

  /** What `compar` must be for sorting to make sense. */
  ghost predicate TotalPreorder<T(!new)>(cmp: (T, T) -> int) {
    (forall x, y :: cmp(x, y) <= 0 || cmp(y, x) <= 0)
    && (forall x, y, z :: cmp(x, y) <= 0 && cmp(y, z) <= 0 ==> cmp(x, z) <= 0)
  }

  ghost predicate Sorted<T>(s: seq<T>, lo: nat, hi: nat, cmp: (T, T) -> int) {
    hi <= |s| && forall i, j :: lo <= i < j < hi ==> cmp(s[i], s[j]) <= 0
  }

  /** `t` is `s` with the elements from `lo` to `hi` rearranged. */
  ghost predicate Rearranged<T>(s: seq<T>, t: seq<T>, lo: nat, hi: nat) {
    |s| == |t| && lo <= hi <= |s| && s[..lo] == t[..lo] && s[hi..] == t[hi..]
    && multiset(s[lo..hi]) == multiset(t[lo..hi])
  }

  // ----- rearrangements

  lemma RearrangedSelf<T>(s: seq<T>, lo: nat, hi: nat)
    requires lo <= hi <= |s|
    ensures Rearranged(s, s, lo, hi)
  {}

  lemma RearrangedTrans<T>(s: seq<T>, t: seq<T>, u: seq<T>, lo: nat, hi: nat)
    requires Rearranged(s, t, lo, hi) && Rearranged(t, u, lo, hi)
    ensures Rearranged(s, u, lo, hi)
  {}

  /** A rearrangement of a part is one of the whole. */
  lemma RearrangedWider<T>(s: seq<T>, t: seq<T>, lo: nat, a: nat, b: nat, hi: nat)
    requires Rearranged(s, t, a, b) && lo <= a && b <= hi <= |s|
    ensures Rearranged(s, t, lo, hi)
  {
    assert s[lo..hi] == s[lo..a] + s[a..b] + s[b..hi];
    assert t[lo..hi] == t[lo..a] + t[a..b] + t[b..hi];
    assert s[lo..a] == s[..a][lo..] && t[lo..a] == t[..a][lo..];
    assert s[b..hi] == s[b..][..hi - b] && t[b..hi] == t[b..][..hi - b];
    assert s[..lo] == s[..a][..lo] && t[..lo] == t[..a][..lo];
    assert s[hi..] == s[b..][hi - b..] && t[hi..] == t[b..][hi - b..];
  }

  /** What holds of every element of the range still does. */
  lemma RearrangedAll<T(!new)>(s: seq<T>, t: seq<T>, lo: nat, hi: nat, p: T -> bool)
    requires Rearranged(s, t, lo, hi) && forall i :: lo <= i < hi ==> p(s[i])
    ensures forall i :: lo <= i < hi ==> p(t[i])
  {
    forall i | lo <= i < hi ensures p(t[i]) {
      assert t[i] == t[lo..hi][i - lo];
      assert t[i] in multiset(t[lo..hi]) && t[i] in multiset(s[lo..hi]);
      assert t[i] in s[lo..hi];
    }
  }

  lemma RearrangedSame<T>(s: seq<T>, t: seq<T>, lo: nat, hi: nat, i: nat)
    requires Rearranged(s, t, lo, hi) && i < |s| && (i < lo || hi <= i)
    ensures s[i] == t[i]
  {
    if i < lo { assert s[i] == s[..lo][i] && t[i] == t[..lo][i]; } else {
      assert s[i] == s[hi..][i - hi] && t[i] == t[hi..][i - hi];
    }
  }

  // ----- the partition

  method Swap<T>(a: array<T>, i: nat, j: nat)
    requires i < a.Length && j < a.Length
    modifies a
    ensures a[..] == old(a[..])[i := old(a[j])][j := old(a[i])]
  {
    a[i], a[j] := a[j], a[i];
  }

  lemma SwapRearranges<T>(s: seq<T>, t: seq<T>, lo: nat, hi: nat, i: nat, j: nat)
    requires lo <= i <= j < hi <= |s| && t == s[i := s[j]][j := s[i]]
    ensures Rearranged(s, t, lo, hi)
  {
    if i < j {
      assert s[i..j + 1] == [s[i]] + s[i + 1..j] + [s[j]];
      assert t[i..j + 1] == [s[j]] + s[i + 1..j] + [s[i]];
      assert Rearranged(s, t, i, j + 1);
      RearrangedWider(s, t, lo, i, j + 1, hi);
    } else {
      assert t == s;
    }
  }

  /** Everything before `m` is below the pivot at `m`, everything after is not. */
  ghost predicate Split<T>(s: seq<T>, lo: nat, m: nat, hi: nat, cmp: (T, T) -> int) {
    lo <= m < hi <= |s|
    && (forall i :: lo <= i < m ==> cmp(s[m], s[i]) > 0)
    && (forall j :: m < j < hi ==> cmp(s[m], s[j]) <= 0)
  }

  /** The state of the partition loop: pivot first, then the smaller ones, then
      the others, then what has not been looked at. */
  ghost predicate Parting<T>(s: seq<T>, base: nat, mid: nat, i: nat, cmp: (T, T) -> int) {
    mid < i && base + i <= |s|
    && (forall k :: base < k <= base + mid ==> cmp(s[base], s[k]) > 0)
    && (forall k :: base + mid < k < base + i ==> cmp(s[base], s[k]) <= 0)
  }

  lemma PartingSwap<T>(s: seq<T>, t: seq<T>, base: nat, mid: nat, i: nat, cmp: (T, T) -> int)
    requires Parting(s, base, mid, i, cmp) && base + i < |s| && cmp(s[base], s[base + i]) > 0
    requires t == s[base + mid + 1 := s[base + i]][base + i := s[base + mid + 1]]
    ensures Parting(t, base, mid + 1, i + 1, cmp)
  {}

  lemma PartingDone<T(!new)>(s: seq<T>, t: seq<T>, base: nat, mid: nat, count: nat, cmp: (T, T) -> int)
    requires Parting(s, base, mid, count, cmp) && TotalPreorder(cmp)
    requires t == s[base := s[base + mid]][base + mid := s[base]]
    ensures Split(t, base, base + mid, base + count, cmp)
  {}

  /** Swaps two elements of the range, if they are different ones. */
  method SwapWithin<T>(a: array<T>, lo: nat, hi: nat, i: nat, j: nat, ghost was: seq<T>)
    requires lo <= i <= j < hi <= a.Length && Rearranged(was, a[..], lo, hi)
    modifies a
    ensures a[..] == old(a[..])[i := old(a[j])][j := old(a[i])] && Rearranged(was, a[..], lo, hi)
  {
    hide Rearranged;
    ghost var s := a[..];
    if i != j {
      Swap(a, i, j);
    } else {
      assert s == s[i := s[j]][j := s[i]];
    }
    SwapRearranges(s, a[..], lo, hi, i, j);
    RearrangedTrans(was, s, a[..], lo, hi);
  }

  /** One turn of the partition loop. */
  method Place<T(!new)>(a: array<T>, base: nat, count: nat, mid: nat, i: nat, cmp: (T, T) -> int, ghost was: seq<T>)
      returns (mid': nat)
    requires mid < i < count && base + count <= a.Length
    requires Parting(a[..], base, mid, i, cmp) && Rearranged(was, a[..], base, base + count)
    modifies a
    ensures mid' <= i && Parting(a[..], base, mid', i + 1, cmp) && Rearranged(was, a[..], base, base + count)
  {
    hide Rearranged;
    mid' := mid;
    if cmp(a[base], a[base + i]) > 0 {
      ghost var s := a[..];
      mid' := mid + 1;
      SwapWithin(a, base, base + count, base + mid', base + i, was);
      PartingSwap(s, a[..], base, mid, i, cmp);
    }
  }

  lemma PartingStart<T>(s: seq<T>, base: nat, cmp: (T, T) -> int)
    requires base + 1 <= |s|
    ensures Parting(s, base, 0, 1, cmp)
  {}

  /** Runs the partition loop with the pivot in first place. */
  method Part<T(!new)>(a: array<T>, base: nat, count: nat, cmp: (T, T) -> int, ghost was: seq<T>) returns (mid: nat)
    requires 1 <= count && base + count <= a.Length && Rearranged(was, a[..], base, base + count)
    modifies a
    ensures mid < count && Parting(a[..], base, mid, count, cmp) && Rearranged(was, a[..], base, base + count)
  {
    hide Rearranged, Parting;
    mid := 0;
    PartingStart(a[..], base, cmp);
    var i := 1;
    while i < count
      invariant 1 <= i <= count && mid < i && Parting(a[..], base, mid, i, cmp)
      invariant Rearranged(was, a[..], base, base + count)
    {
      mid := Place(a, base, count, mid, i, cmp, was);
      i := i + 1;
    }
  }

  /** Moves the middle element to where it belongs and returns how many are below it. */
  method Partition<T(!new)>(a: array<T>, base: nat, count: nat, cmp: (T, T) -> int) returns (mid: nat)
    requires 2 <= count && base + count <= a.Length && TotalPreorder(cmp)
    modifies a
    ensures mid < count && Rearranged(old(a[..]), a[..], base, base + count)
    ensures Split(a[..], base, base + mid, base + count, cmp)
  {
    hide Rearranged, Parting, Split, TotalPreorder;
    ghost var was := a[..];
    RearrangedSelf(was, base, base + count);
    SwapWithin(a, base, base + count, base, base + count / 2, was);
    mid := Part(a, base, count, cmp, was);
    ghost var s := a[..];
    SwapWithin(a, base, base + count, base, base + mid, was);
    PartingDone(s, a[..], base, mid, count, cmp);
  }

  // ----- sorting

  /** Every pair with one element outside `b .. e` is in order. */
  ghost predicate Done<T>(s: seq<T>, lo: nat, b: nat, e: nat, hi: nat, cmp: (T, T) -> int) {
    lo <= b <= e <= hi <= |s|
    && forall i, j :: lo <= i < j < hi && (i < b || e <= j) ==> cmp(s[i], s[j]) <= 0
  }

  lemma DoneRearranged<T(!new)>(s: seq<T>, t: seq<T>, lo: nat, b: nat, e: nat, hi: nat, cmp: (T, T) -> int)
    requires Done(s, lo, b, e, hi, cmp) && Rearranged(s, t, b, e)
    ensures Done(t, lo, b, e, hi, cmp)
  {
    forall i, j | lo <= i < j < hi && (i < b || e <= j) ensures cmp(t[i], t[j]) <= 0 {
      if i < b || e <= i { RearrangedSame(s, t, b, e, i); }
      if j < b || e <= j { RearrangedSame(s, t, b, e, j); }
      if i < b && b <= j < e {
        RearrangedAll(s, t, b, e, x => cmp(s[i], x) <= 0);
      } else if b <= i < e && e <= j {
        RearrangedAll(s, t, b, e, x => cmp(x, s[j]) <= 0);
      }
    }
  }

  lemma SplitRearranged<T(!new)>(s: seq<T>, t: seq<T>, b: nat, m: nat, e: nat, cmp: (T, T) -> int)
    requires Split(s, b, m, e, cmp) && (Rearranged(s, t, b, m) || Rearranged(s, t, m + 1, e))
    ensures Split(t, b, m, e, cmp)
  {
    var p := s[m];
    if Rearranged(s, t, b, m) {
      RearrangedSame(s, t, b, m, m);
      RearrangedAll(s, t, b, m, x => cmp(p, x) > 0);
      forall j | m < j < e ensures t[j] == s[j] { RearrangedSame(s, t, b, m, j); }
    } else {
      RearrangedSame(s, t, m + 1, e, m);
      RearrangedAll(s, t, m + 1, e, x => cmp(p, x) <= 0);
      forall i | b <= i < m ensures t[i] == s[i] { RearrangedSame(s, t, m + 1, e, i); }
    }
  }

  lemma SplitBelow<T(!new)>(s: seq<T>, b: nat, m: nat, e: nat, cmp: (T, T) -> int)
    requires TotalPreorder(cmp) && Split(s, b, m, e, cmp)
    ensures forall i :: b <= i < m ==> cmp(s[i], s[m]) <= 0
  {}

  lemma DoneLeft<T(!new)>(s: seq<T>, lo: nat, b: nat, m: nat, e: nat, hi: nat, cmp: (T, T) -> int)
    requires TotalPreorder(cmp) && Done(s, lo, b, e, hi, cmp) && Split(s, b, m, e, cmp) && Sorted(s, b, m, cmp)
    ensures Done(s, lo, m + 1, e, hi, cmp)
  {
    SplitBelow(s, b, m, e, cmp);
    forall i, j | lo <= i < j < hi && (i < m + 1 || e <= j) ensures cmp(s[i], s[j]) <= 0 {
      if b <= i < m && m < j < e { assert cmp(s[i], s[m]) <= 0 && cmp(s[m], s[j]) <= 0; }
    }
  }

  lemma DoneRight<T(!new)>(s: seq<T>, lo: nat, b: nat, m: nat, e: nat, hi: nat, cmp: (T, T) -> int)
    requires TotalPreorder(cmp) && Done(s, lo, b, e, hi, cmp) && Split(s, b, m, e, cmp) && Sorted(s, m + 1, e, cmp)
    ensures Done(s, lo, b, m, hi, cmp)
  {
    SplitBelow(s, b, m, e, cmp);
    forall i, j | lo <= i < j < hi && (i < b || m <= j) ensures cmp(s[i], s[j]) <= 0 {
      if b <= i < m && m < j < e { assert cmp(s[i], s[m]) <= 0 && cmp(s[m], s[j]) <= 0; }
    }
  }

  /** A nested call on half of the range or less. */
  lemma DepthStep(d: nat, n: nat, count: nat)
    requires Pow2(d) <= (if n == 0 then 1 else n) && 2 * n <= count && 2 <= count
    ensures Pow2(d + 1) <= count
  {}

  /** One side of a split sorted, the other left for the next turn. */
  lemma LeftTurn<T(!new)>(s: seq<T>, t: seq<T>, u: seq<T>, lo: nat, b: nat, m: nat, e: nat, hi: nat, cmp: (T, T) -> int)
    requires TotalPreorder(cmp) && Done(s, lo, b, e, hi, cmp)
    requires Rearranged(s, t, b, e) && Split(t, b, m, e, cmp)
    requires Rearranged(t, u, b, m) && Sorted(u, b, m, cmp)
    ensures Done(u, lo, m + 1, e, hi, cmp) && Rearranged(s, u, lo, hi)
  {
    hide TotalPreorder, Rearranged, Sorted;
    RearrangedWider(t, u, b, b, m, e);
    RearrangedTrans(s, t, u, b, e);
    DoneRearranged(s, u, lo, b, e, hi, cmp);
    SplitRearranged(t, u, b, m, e, cmp);
    DoneLeft(u, lo, b, m, e, hi, cmp);
    RearrangedWider(s, u, lo, b, e, hi);
  }

  lemma RightTurn<T(!new)>(s: seq<T>, t: seq<T>, u: seq<T>, lo: nat, b: nat, m: nat, e: nat, hi: nat,
                           cmp: (T, T) -> int)
    requires TotalPreorder(cmp) && Done(s, lo, b, e, hi, cmp)
    requires Rearranged(s, t, b, e) && Split(t, b, m, e, cmp)
    requires Rearranged(t, u, m + 1, e) && Sorted(u, m + 1, e, cmp)
    ensures Done(u, lo, b, m, hi, cmp) && Rearranged(s, u, lo, hi)
  {
    hide TotalPreorder, Rearranged, Sorted;
    RearrangedWider(t, u, b, m + 1, e, e);
    RearrangedTrans(s, t, u, b, e);
    DoneRearranged(s, u, lo, b, e, hi, cmp);
    SplitRearranged(t, u, b, m, e, cmp);
    DoneRight(u, lo, b, m, e, hi, cmp);
    RearrangedWider(s, u, lo, b, e, hi);
  }

  /** Sorts `count0` elements from `base0` on. `depth` is how deep the calls nest. */
  method Sort<T(!new)>(a: array<T>, base0: nat, count0: nat, cmp: (T, T) -> int) returns (ghost depth: nat)
    requires base0 + count0 <= a.Length && TotalPreorder(cmp)
    modifies a
    ensures Rearranged(old(a[..]), a[..], base0, base0 + count0)
    ensures Sorted(a[..], base0, base0 + count0, cmp)
    ensures Pow2(depth) <= if count0 == 0 then 1 else count0
    decreases count0
  {
    hide TotalPreorder, Rearranged, Split, Done, Sorted;
    ghost var was := a[..];
    var base, count := base0, count0;
    depth := 0;
    RearrangedSelf(was, base0, base0 + count0);
    AllOpen(was, base0, base0 + count0, cmp);
    while count >= 2
      invariant base0 <= base && 0 <= count && base + count <= base0 + count0
      invariant Rearranged(was, a[..], base0, base0 + count0)
      invariant Done(a[..], base0, base, base + count, base0 + count0, cmp)
      invariant Pow2(depth) <= if count0 == 0 then 1 else count0
      decreases count
    {
      ghost var s := a[..];
      var mid := Partition(a, base, count, cmp);
      ghost var t := a[..];
      ghost var d;
      if 2 * mid < count {
        d := Sort(a, base, mid, cmp);
        LeftTurn(s, t, a[..], base0, base, base + mid, base + count, base0 + count0, cmp);
        DepthStep(d, mid, count);
        base := base + mid + 1;
        count := count - (mid + 1);
      } else {
        d := Sort(a, base + mid + 1, count - (mid + 1), cmp);
        RightTurn(s, t, a[..], base0, base, base + mid, base + count, base0 + count0, cmp);
        DepthStep(d, count - (mid + 1), count);
        count := mid;
      }
      RearrangedTrans(was, s, a[..], base0, base0 + count0);
      depth := if depth < d + 1 then d + 1 else depth;
    }
    DoneSorted(a[..], base0, base, base + count, base0 + count0, cmp);
  }

  lemma AllOpen<T>(s: seq<T>, lo: nat, hi: nat, cmp: (T, T) -> int)
    requires lo <= hi <= |s|
    ensures Done(s, lo, lo, hi, hi, cmp)
  {}

  lemma DoneSorted<T>(s: seq<T>, lo: nat, b: nat, e: nat, hi: nat, cmp: (T, T) -> int)
    requires Done(s, lo, b, e, hi, cmp) && e < b + 2
    ensures Sorted(s, lo, hi, cmp)
  {}
}
