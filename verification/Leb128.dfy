/** Little-endian base-128 numbers, section 7.6 of DWARF Version 4. */
module Leb128 {
  import opened Arith
  import opened Bits
  import opened Bytes

  /** Longer encodings would wrap the 32-bit shift counter around. */
  const MAX_LEN: nat := WORD32 / 7

  /** The encoding at the front of `bs` is complete: some byte ends it. */
  predicate Ends(bs: seq<byte>) { exists i :: 0 <= i < |bs| && bs[i] < 128 }

  /** The length of the encoding at the front of `bs`. */
  function Len(bs: seq<byte>): (n: nat)
    requires Ends(bs)
    ensures 1 <= n <= |bs| && bs[n - 1] < 128 && forall i :: 0 <= i < n - 1 ==> bs[i] >= 128
  {
    if bs[0] < 128 then 1 else EndsTail(bs); 1 + Len(bs[1..])
  }

  lemma EndsTail(bs: seq<byte>)
    requires Ends(bs) && bs[0] >= 128
    ensures Ends(bs[1..])
  {
    var i :| 0 <= i < |bs| && bs[i] < 128;
    assert bs[1..][i - 1] < 128;
  }

  /** Seven bits to a byte, lowest first. */
  function Unsigned(bs: seq<byte>): nat {
    if bs == [] then 0 else bs[0] % 128 + 128 * Unsigned(bs[1..])
  }

  /** The same, with the second highest bit of the last byte as the sign. */
  function Signed(bs: seq<byte>): int
    requires bs != []
  {
    Unsigned(bs) - if bs[|bs| - 1] % 128 >= 64 then Pow2(7 * |bs|) else 0
  }

  // ----- values

  lemma {:induction false} UnsignedFits(bs: seq<byte>)
    ensures Unsigned(bs) < Pow2(7 * |bs|)
  {
    if bs != [] {
      UnsignedFits(bs[1..]);
      Pow2Add(7, 7 * (|bs| - 1));
      assert Pow2(7) == 128;
    }
  }

  lemma {:induction false} UnsignedSnoc(bs: seq<byte>, b: byte)
    ensures Unsigned(bs + [b]) == Unsigned(bs) + Shl(b % 128, 7 * |bs|)
  {
    if bs == [] {
      assert bs + [b] == [b];
      assert Unsigned([b]) == b % 128 + 128 * Unsigned([b][1..]);
    } else {
      assert (bs + [b])[1..] == bs[1..] + [b];
      UnsignedSnoc(bs[1..], b);
      Pow2Add(7, 7 * (|bs| - 1));
      assert Pow2(7) == 128;
      Regroup(b % 128, Pow2(7 * (|bs| - 1)));
    }
  }

  lemma Regroup(x: nat, p: nat)
    ensures 128 * (x * p) == x * (128 * p)
  {}

  // ----- a reference encoder

  function EncodeUnsigned(v: nat): (bs: seq<byte>)
    ensures bs != []
  {
    if v < 128 then [v] else [128 + v % 128] + EncodeUnsigned(v / 128)
  }

  /** `bs` is one encoding and nothing else. */
  ghost predicate Complete(bs: seq<byte>) {
    bs != [] && bs[|bs| - 1] < 128 && forall i :: 0 <= i < |bs| - 1 ==> bs[i] >= 128
  }

  lemma CompleteCons(b: byte, t: seq<byte>)
    requires Complete(t) && b >= 128
    ensures Complete([b] + t)
  {}

  lemma UnsignedCons(b: byte, t: seq<byte>)
    ensures Unsigned([b] + t) == b % 128 + 128 * Unsigned(t)
  {
    assert ([b] + t)[1..] == t;
  }

  /** Decoding inverts encoding, and the encoding is complete. */
  lemma {:induction false} UnsignedRoundTrip(v: nat)
    ensures Unsigned(EncodeUnsigned(v)) == v && Complete(EncodeUnsigned(v))
  {
    hide Unsigned, Complete;
    if v < 128 {
      OneByte(v);
    } else {
      UnsignedRoundTrip(v / 128);
      UnsignedCons(128 + v % 128, EncodeUnsigned(v / 128));
      CompleteCons(128 + v % 128, EncodeUnsigned(v / 128));
    }
  }

  lemma OneByte(b: byte)
    requires b < 128
    ensures Complete([b]) && Unsigned([b]) == b
  {
    UnsignedCons(b, []);
    assert [b] + [] == [b];
  }

  /** The examples of the standard. */
  lemma UnsignedExamples()
    ensures EncodeUnsigned(2) == [2] && EncodeUnsigned(127) == [127] && EncodeUnsigned(128) == [128, 1]
    ensures EncodeUnsigned(129) == [129, 1] && EncodeUnsigned(130) == [130, 1] && EncodeUnsigned(12857) == [185, 100]
  {}

  function EncodeSigned(v: int): (bs: seq<byte>)
    ensures bs != []
    decreases if v < 0 then -v else v
  {
    if -64 <= v < 64 then [v % 128] else [128 + v % 128] + EncodeSigned(v / 128)
  }

  lemma SignedCons(b: byte, t: seq<byte>)
    requires t != []
    ensures Signed([b] + t) == b % 128 + 128 * Signed(t)
  {
    UnsignedCons(b, t);
    Pow2Add(7, 7 * |t|);
    assert Pow2(7) == 128;
  }

  lemma SignedOne(v: int, b: byte)
    requires -64 <= v < 64 && b == v % 128
    ensures Complete([b]) && Signed([b]) == v
  {
    OneByte(b);
    assert Pow2(7) == 128;
  }

  lemma {:induction false} SignedRoundTrip(v: int)
    ensures Signed(EncodeSigned(v)) == v && Complete(EncodeSigned(v))
    decreases if v < 0 then -v else v
  {
    hide Signed, Complete;
    if -64 <= v < 64 {
      SignedOne(v, v % 128);
    } else {
      SignedRoundTrip(v / 128);
      SignedCons(128 + v % 128, EncodeSigned(v / 128));
      CompleteCons(128 + v % 128, EncodeSigned(v / 128));
    }
  }

  lemma SignedExamples()
    ensures EncodeSigned(2) == [2] && EncodeSigned(-2) == [126] && EncodeSigned(127) == [255, 0]
    ensures EncodeSigned(-127) == [129, 127] && EncodeSigned(128) == [128, 1] && EncodeSigned(-128) == [128, 127]
    ensures EncodeSigned(129) == [129, 1] && EncodeSigned(-129) == [255, 126]
  {}

  /** A 64-bit word read as a signed number. */
  function ToSigned(v: nat): int { if v >= WORD / 2 then v - WORD else v }

  /** `x` modulo 2^64, as a signed number. */
  function Wrap(x: int): int { ToSigned(x % WORD) }

  lemma UnsignedMod(bs: seq<byte>)
    ensures Low(Unsigned(bs), 64) == Unsigned(bs) % WORD
  {
    hide Low, Unsigned, Pow2;
    LowIsMod(Unsigned(bs), 64);
    Pow64();
  }

  /** Sign extension of a word of `s` bits. */
  function Extend(val: nat, s: nat): nat {
    if s < 64 then Or(val, Low(Shl(WORD - 1, s), 64)) else val
  }

  lemma {:induction false} AllOnesAbove(s: nat)
    requires s < 64
    ensures Low(Shl(WORD - 1, s), 64) == Shl(Pow2(64 - s) - 1, s) == WORD - Pow2(s)
  {
    hide Low, Shr;
    Pow64();
    GlueShl(0, WORD - 1, s);
    LowSplitShl(Shl(WORD - 1, s), s, 64 - s);
    AllOnes(64 - s, s);
    Pow2Add(64 - s, s);
    Distribute(Pow2(64 - s) - 1, 1, Pow2(s));
  }

  lemma OnesHalf(n: nat)
    requires 0 < n
    ensures Pow2(n) == 2 * Pow2(n - 1) && (Pow2(n) - 1) / 2 == Pow2(n - 1) - 1 && (Pow2(n) - 1) % 2 == 1
  {}

  lemma OnesLow(v: nat, k: nat)
    requires 0 < k
    ensures Low(v, k) == v % 2 + 2 * Low(v / 2, k - 1)
  {}

  lemma {:induction false} AllOnes(k: nat, s: nat)
    ensures Low(Pow2(k + s) - 1, k) == Pow2(k) - 1
  {
    if k > 0 {
      hide Low, Pow2;
      AllOnes(k - 1, s);
      OnesHalf(k + s);
      OnesLow(Pow2(k + s) - 1, k);
      OnesHalf(k);
    }
  }

  /** A negative number: its unsigned bits, extended. */
  lemma {:induction false} ExtendNegative(u: nat, s: nat)
    requires u < Pow2(s) && s < 64
    ensures Extend(u, s) == (u - Pow2(s)) % WORD
  {
    hide Low, Or, Shl;
    AllOnesAbove(s);
    GlueShl(u, Pow2(64 - s) - 1, s);
    Pow64();
    Pow2Le(s, 64);
  }

  /** The signed value of an encoding, from its unsigned one. */
  lemma {:induction false} SignedMod(bs: seq<byte>)
    requires bs != []
    ensures var u, s := Unsigned(bs) % WORD, 7 * |bs|;
      Signed(bs) % WORD == if bs[|bs| - 1] % 128 >= 64 then Extend(u, s) else u
  {
    hide Low, Or, Shl, Unsigned, Extend;
    var u, s := Unsigned(bs), 7 * |bs|;
    UnsignedFits(bs);
    if bs[|bs| - 1] % 128 >= 64 {
      Pow64();
      if s < 64 {
        Pow2Le(s, 64);
        SmallMod(u, WORD);
        ExtendNegative(u, s);
      } else {
        Pow2Add(s - 64, 64);
        ShiftMod(u, 0 - Pow2(s - 64), WORD);
        ExtendLong(u % WORD, s);
      }
    }
  }

  lemma ExtendLong(val: nat, s: nat)
    requires s >= 64
    ensures Extend(val, s) == val
  {}
}
