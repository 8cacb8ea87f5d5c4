/** The three ways the decoder copies a match, each equal to copying byte by
    byte from `dist` bytes back. */
module MatchCopy {
  import opened Bytes
  import opened Deflate

  /** The byte-by-byte rule fixes the result. */
  lemma {:induction false} CopyUnique(r: seq<byte>, out: seq<byte>, len: nat, dist: nat)
    requires 1 <= dist <= |out| && |r| == |out| + len && r[..|out|] == out
    requires forall k :: |out| <= k < |r| ==> r[k] == r[k - dist]
    ensures r == Copy(out, len, dist)
    decreases len
  {
    if len > 0 {
      var out' := out + [out[|out| - dist]];
      assert r[..|out'|] == out';
      CopyUnique(r, out', len - 1, dist);
    }
  }

  /** The array holds `was` except for the bytes from `lo` to `hi`, which repeat
      with period `dist`. */
  ghost predicate Repeats(now: seq<byte>, was: seq<byte>, lo: nat, hi: nat, dist: nat) {
    1 <= dist <= lo <= hi <= |now| == |was|
    && (forall k :: 0 <= k < lo || hi <= k < |now| ==> now[k] == was[k])
    && (forall k :: lo <= k < hi ==> now[k] == now[k - dist])
  }

  lemma {:induction false} RepeatsIsCopy(now: seq<byte>, was: seq<byte>, pout: nat, len: nat, dist: nat)
    requires Repeats(now, was, pout, pout + len, dist)
    ensures now == Copy(was[..pout], len, dist) + was[pout + len..]
  {
    assert now[..pout + len][..pout] == was[..pout];
    CopyUnique(now[..pout + len], was[..pout], len, dist);
    assert now == now[..pout + len] + now[pout + len..];
  }

  /** `now` is `was` with `n` bytes copied from `src` to `dst`. */
  ghost predicate Moved(now: seq<byte>, was: seq<byte>, dst: nat, src: nat, n: nat) {
    |now| == |was| && src + n <= dst && dst + n <= |was|
    && forall k :: 0 <= k < |now| ==> now[k] == was[if dst <= k < dst + n then k - dst + src else k]
  }

  lemma RepeatsNone(was: seq<byte>, lo: nat, dist: nat)
    requires 1 <= dist <= lo <= |was|
    ensures Repeats(was, was, lo, lo, dist)
  {}

  /** Copying at most `dist` bytes from `dist` back keeps the period going. */
  lemma {:induction false} RepeatsExtend(now: seq<byte>, mid: seq<byte>, was: seq<byte>,
                                         lo: nat, p: nat, n: nat, dist: nat)
    requires Repeats(mid, was, lo, p, dist) && n <= dist && Moved(now, mid, p, p - dist, n)
    ensures Repeats(now, was, lo, p + n, dist)
  {}

  method MemSet(a: array<byte>, dst: nat, v: byte, n: nat)
    requires dst + n <= a.Length
    modifies a
    ensures forall k :: 0 <= k < a.Length ==> a[k] == if dst <= k < dst + n then v else old(a[k])
  {
    for i := 0 to n
      invariant forall k :: 0 <= k < a.Length ==> a[k] == if dst <= k < dst + i then v else old(a[k])
    {
      a[dst + i] := v;
    }
  }

  /** The ranges must not overlap. */
  method MemCpy(a: array<byte>, dst: nat, src: nat, n: nat)
    requires src + n <= dst && dst + n <= a.Length
    modifies a
    ensures Moved(a[..], old(a[..]), dst, src, n)
  {
    for i := 0 to n
      invariant forall k :: dst <= k < dst + i ==> a[k] == old(a[k - dst + src])
      invariant forall k :: 0 <= k < dst || dst + i <= k < a.Length ==> a[k] == old(a[k])
    {
      a[dst + i] := a[src + i];
    }
  }

  /** A distance of one repeats the last byte. */
  method RepeatLast(a: array<byte>, pout: nat, len: nat)
    requires 1 <= pout && pout + len <= a.Length
    modifies a
    ensures a[..] == Copy(old(a[..pout]), len, 1) + old(a[pout + len..])
  {
    MemSet(a, pout, a[pout - 1], len);
    RepeatsIsCopy(a[..], old(a[..]), pout, len, 1);
    assert old(a[..])[..pout] == old(a[..pout]) && old(a[..])[pout + len..] == old(a[pout + len..]);
  }

  /** Any other distance: one block copy when the ranges are apart, otherwise
      blocks of at most `dist` bytes. */
  method CopyBack(a: array<byte>, pout: nat, len: nat, dist: nat)
    requires 1 <= dist <= pout && pout + len <= a.Length
    modifies a
    ensures a[..] == Copy(old(a[..pout]), len, dist) + old(a[pout + len..])
  {
    hide Repeats;
    ghost var was := a[..];
    RepeatsNone(was, pout, dist);
    if dist >= len {
      MemCpy(a, pout, pout - dist, len);
      RepeatsExtend(a[..], was, was, pout, pout, len, dist);
    } else {
      var p, left := pout, len;
      while left > 0
        invariant pout <= p && 0 <= left && p + left == pout + len
        invariant Repeats(a[..], was, pout, p, dist)
        decreases left
      {
        var copy := if left < dist then left else dist;
        ghost var mid := a[..];
        MemCpy(a, p, p - dist, copy);
        RepeatsExtend(a[..], mid, was, pout, p, copy, dist);
        left := left - copy;
        p := p + copy;
      }
    }
    RepeatsIsCopy(a[..], was, pout, len, dist);
    assert was[..pout] == old(a[..pout]) && was[pout + len..] == old(a[pout + len..]);
  }
}
