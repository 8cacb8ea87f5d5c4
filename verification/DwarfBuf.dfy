/** A cursor over DWARF data. Reading past the end yields zero and is remembered. */
module DwarfBuf {
  import opened Arith
  import opened Bits
  import opened Bytes
  import opened Leb128

  /** Or-ing more bits into a 64-bit word, truncated, adds them modulo 2^64. */
  lemma {:induction false} OrStep(u: nat, m: nat, s: nat)
    requires u < Pow2(s)
    ensures Low(u + Shl(m, s), 64) == if s < 64 then Or(Low(u, 64), Low(Shl(m, s), 64)) else Low(u, 64)
  {
    hide Low, Or, Pow2, Shr, Shl;
    GlueShl(u, m, s);
    if s < 64 {
      GlueShl(0, m, s);
      LowSplitShl(u + Shl(m, s), s, 64 - s);
      LowSplitShl(Shl(m, s), s, 64 - s);
      Pow2Le(s, 64);
      LowId(u, 64);
      GlueShl(u, Low(m, 64 - s), s);
    } else {
      LowLow(u + Shl(m, s), 64, s);
    }
  }

  /** One turn of the loop: seven bits of `b` at position `shift`. */
  function AddSeven(ret: nat, shift: nat, b: byte): nat {
    if shift < 64 then Or(ret, Low(Shl(b % 128, shift), 64)) else ret
  }

  /** The 32-bit shift count after `i` bytes. */
  function Shift(i: nat): nat { 7 * i % WORD32 }

  lemma ShiftNext(i: nat)
    ensures (Shift(i) + 7) % WORD32 == Shift(i + 1)
  {
    AddMod(7 * i, 7, WORD32);
  }

  /** The bits of the first `i` bytes. */
  function Sevens(bs: seq<byte>, i: nat): nat
    requires i <= |bs|
  {
    if i == 0 then 0 else AddSeven(Sevens(bs, i - 1), Shift(i - 1), bs[i - 1])
  }

  lemma SevensNext(bs: seq<byte>, i: nat)
    requires i < |bs|
    ensures Sevens(bs, i + 1) == AddSeven(Sevens(bs, i), Shift(i), bs[i])
  {}

  /** Up to the limit of the shift count that is the number itself, truncated. */
  lemma {:induction false} SevensUnsigned(bs: seq<byte>, i: nat)
    requires i <= |bs| && i <= MAX_LEN
    ensures Sevens(bs, i) == Low(Unsigned(bs[..i]), 64)
  {
    hide Low, Or, Pow2, Unsigned, Shl;
    if i == 0 {
      NoBits(bs);
    } else {
      SevensUnsigned(bs, i - 1);
      assert bs[..i] == bs[..i - 1] + [bs[i - 1]];
      UnsignedSnoc(bs[..i - 1], bs[i - 1]);
      UnsignedFits(bs[..i - 1]);
      OrStep(Unsigned(bs[..i - 1]), bs[i - 1] % 128, 7 * (i - 1));
    }
  }

  lemma SevensSigned(bs: seq<byte>, n: nat)
    requires 1 <= n <= |bs| && n <= MAX_LEN
    ensures var u := Sevens(bs, n);
      ToSigned(if bs[n - 1] % 128 >= 64 then Extend(u, Shift(n)) else u) == Wrap(Signed(bs[..n]))
  {
    hide Low, Unsigned, Signed, Extend, Sevens, ToSigned;
    SevensUnsigned(bs, n);
    UnsignedMod(bs[..n]);
    SignedMod(bs[..n]);
    SmallMod(7 * n, WORD32);
  }

  lemma NoBits(bs: seq<byte>)
    ensures Low(Unsigned(bs[..0]), 64) == 0
  {
    LowId(0, 64);
  }

  class Buf {
    const data: seq<byte>
    const bigEndian: bool
    var pos: nat
    var left: nat
    var underflow: bool

    ghost predicate Valid()
      reads this
    {
      pos + left <= |data| < WORD
    }

    /** The bytes still to be read. */
    ghost function Rest(): seq<byte>
      requires Valid()
      reads this
    {
      data[pos..pos + left]
    }

    constructor (data: seq<byte>, pos: nat, left: nat, bigEndian: bool)
      requires pos + left <= |data| < WORD
      ensures Valid() && Rest() == data[pos..pos + left] && !underflow && this.bigEndian == bigEndian
      ensures fresh(this)
    {
      this.data, this.bigEndian := data, bigEndian;
      this.pos, this.left, underflow := pos, left, false;
    }

    /** A copy of the cursor. */
    method Copy() returns (b: Buf)
      requires Valid()
      ensures fresh(b) && b.Valid() && b.Rest() == Rest() && b.underflow == underflow && b.bigEndian == bigEndian
    {
      b := new Buf(data, pos, left, bigEndian);
      b.underflow := underflow;
    }

    /** Moves on by `count` bytes, or notes an underflow. */
    method Advance(count: nat) returns (ok: bool)
      requires Valid()
      modifies this
      ensures Valid() && ok == (count <= |old(Rest())|)
      ensures ok ==> Rest() == old(Rest())[count..] && underflow == old(underflow) && pos == old(pos) + count
      ensures !ok ==> Rest() == old(Rest()) && underflow && pos == old(pos)
    {
      if left < count {
        underflow := true;
        return false;
      }
      pos := pos + count;
      left := left - count;
      return true;
    }

    method TryByte() returns (more: bool, b: byte)
      requires Valid()
      modifies this
      ensures Valid() && more == (old(Rest()) != [])
      ensures more ==> b == old(Rest())[0] && Rest() == old(Rest())[1..] && underflow == old(underflow)
      ensures !more ==> b == 0 && Rest() == [] && underflow
    {
      var p := pos;
      more := Advance(1);
      b := if more then data[p] else 0;
    }

    method ReadByte() returns (b: byte)
      requires Valid()
      modifies this
      ensures Valid()
      ensures old(Rest()) != [] ==> b == old(Rest())[0] && Rest() == old(Rest())[1..] && underflow == old(underflow)
      ensures old(Rest()) == [] ==> b == 0 && Rest() == [] && underflow
    {
      var more;
      more, b := TryByte();
    }

    /** Adds the next byte of the encoding `bs` to what its first `i` bytes gave. */
    method TakeSeven(ghost bs: seq<byte>, ghost i: nat, ret0: nat, shift0: nat)
        returns (more: bool, ret: nat, shift: nat, b: byte)
      requires Valid() && i <= |bs| && Rest() == bs[i..] && ret0 == Sevens(bs, i) && shift0 == Shift(i)
      modifies this
      ensures Valid() && more == (i < |bs|)
      ensures more ==>
        && Rest() == bs[i + 1..] && underflow == old(underflow) && b == bs[i]
        && ret == Sevens(bs, i + 1) && shift == Shift(i + 1)
      ensures !more ==> Rest() == [] && underflow
    {
      hide AddSeven, Shift, Sevens, Valid, Rest;
      ret, shift := ret0, shift0;
      more, b := TryByte();
      if more {
        DropOne(bs, i);
        ShiftNext(i);
        SevensNext(bs, i);
        ret := AddSeven(ret, shift, b);
        shift := (shift + 7) % WORD32;
      }
    }

    /** Reads the bytes of an encoding, seven bits at a time; what does not fit in
        64 bits is lost. Returns the last byte and the shift count as well. */
    method ReadSevens() returns (ok: bool, ret: nat, shift: nat, last: byte)
      requires Valid()
      modifies this
      ensures Valid() && ok == Ends(old(Rest()))
      ensures ok ==>
        var n := Len(old(Rest()));
        && Rest() == old(Rest())[n..] && underflow == old(underflow)
        && last == old(Rest())[n - 1]
        && ret == Sevens(old(Rest()), n) && shift == Shift(n)
      ensures !ok ==> Rest() == [] && underflow
    {
      ghost var bs := Rest();
      assert Shift(0) == 0 && Sevens(bs, 0) == 0 && Going(bs, 0, 128);
      hide Len, Ends, Shift, Sevens, Valid, Rest, Going;
      ret, shift, last := 0, 0, 128;
      ghost var i: nat := 0;
      while last >= 128
        invariant Valid() && i <= |bs| && Rest() == bs[i..] && underflow == old(underflow)
        invariant Going(bs, i, last) && ret == Sevens(bs, i) && shift == Shift(i)
        decreases |bs| - i, last >= 128
      {
        var more;
        GoesOn(bs, i, last);
        more, ret, shift, last := TakeSeven(bs, i, ret, shift);
        if !more {
          return false, 0, shift, last;
        }
        i := i + 1;
      }
      Stops(bs, i, last);
      ok := true;
    }

    /** An unsigned number modulo 2^64; zero when the data runs out. */
    method ReadUleb() returns (v: nat)
      requires Valid()
      modifies this
      ensures Valid()
      ensures Ends(old(Rest())) ==>
        var n := Len(old(Rest()));
        && Rest() == old(Rest())[n..] && underflow == old(underflow)
        && v == Sevens(old(Rest()), n)
        && (n <= MAX_LEN ==> v == Unsigned(old(Rest())[..n]) % WORD)
      ensures !Ends(old(Rest())) ==> v == 0 && Rest() == [] && underflow
    {
      hide Unsigned, Low, Len, Ends, Sevens;
      var ok, ret, shift, last := ReadSevens();
      if !ok {
        return 0;
      }
      ghost var bs, n := old(Rest()), Len(old(Rest()));
      if n <= MAX_LEN { SevensUnsigned(bs, n); }
      UnsignedMod(bs[..n]);
      return ret;
    }

    /** A signed number modulo 2^64; zero when the data runs out. */
    method ReadSleb() returns (v: int)
      requires Valid()
      modifies this
      ensures Valid()
      ensures Ends(old(Rest())) ==>
        var n := Len(old(Rest()));
        && Rest() == old(Rest())[n..] && underflow == old(underflow)
        && (n <= MAX_LEN ==> v == Wrap(Signed(old(Rest())[..n])))
      ensures !Ends(old(Rest())) ==> v == 0 && Rest() == [] && underflow
    {
      hide Signed, Len, Ends, Extend, Sevens, Shift, Wrap, ToSigned;
      var ok, ret, shift, last := ReadSevens();
      if !ok {
        return 0;
      }
      if Len(old(Rest())) <= MAX_LEN { SevensSigned(old(Rest()), Len(old(Rest()))); }
      var val := if last % 128 >= 64 then Extend(ret, shift) else ret;
      return ToSigned(val);
    }

    /** A number of `size` bytes in the byte order of the data. */
    method ReadFixed(size: nat) returns (v: nat)
      requires Valid()
      modifies this
      ensures Valid()
      ensures size <= |old(Rest())| ==>
        v == Ordered(old(Rest())[..size], bigEndian) && Rest() == old(Rest())[size..] && underflow == old(underflow)
      ensures |old(Rest())| < size ==> v == 0 && Rest() == old(Rest()) && underflow
    {
      var p := pos;
      ghost var bs := Rest();
      var ok := Advance(size);
      if !ok {
        return 0;
      }
      assert data[p..p + size] == bs[..size];
      v := Collect(data[p..p + size], bigEndian);
    }
  }

  /** Bytes as a number, lowest first or highest first. */
  function Ordered(bs: seq<byte>, bigEndian: bool): nat {
    var n := |bs| - 1;
    if bs == [] then 0
    else if bigEndian then Shl(bs[0], 8 * n) + Ordered(bs[1..], true)
    else Ordered(bs[..n], false) + Shl(bs[n], 8 * n)
  }

  lemma {:induction false} OrderedFits(bs: seq<byte>, bigEndian: bool)
    ensures Ordered(bs, bigEndian) < Pow2(8 * |bs|)
  {
    if bs != [] {
      var n := |bs| - 1;
      OrderedFits(bs[1..], bigEndian);
      OrderedFits(bs[..n], bigEndian);
      Pow2Add(8, 8 * n);
      assert Pow2(8) == 256;
      ByteBelow(if bigEndian then bs[0] else bs[n], Pow2(8 * n));
    }
  }

  lemma ByteBelow(b: byte, p: nat)
    ensures b * p <= 255 * p
  {}

  /** The `i` lowest bytes. */
  function Lowest(bs: seq<byte>, bigEndian: bool, i: nat): seq<byte>
    requires i <= |bs|
  {
    if bigEndian then bs[|bs| - i..] else bs[..i]
  }

  lemma OrderedStep(bs: seq<byte>, bigEndian: bool, i: nat)
    requires i < |bs|
    ensures var b := if bigEndian then bs[|bs| - 1 - i] else bs[i];
      Ordered(Lowest(bs, bigEndian, i + 1), bigEndian) == Ordered(Lowest(bs, bigEndian, i), bigEndian) + Shl(b, 8 * i)
  {
    hide Shl;
    var t := Lowest(bs, bigEndian, i + 1);
    if bigEndian {
      assert t[1..] == Lowest(bs, true, i);
    } else {
      assert t[..i] == Lowest(bs, false, i);
    }
  }

  /** Shifts each byte to its place and ors it in. */
  method Collect(bs: seq<byte>, bigEndian: bool) returns (v: nat)
    ensures v == Ordered(bs, bigEndian)
  {
    v := 0;
    assert Ordered(Lowest(bs, bigEndian, 0), bigEndian) == 0;
    hide Ordered, Shl, Or, Pow2, Lowest;
    for i := 0 to |bs|
      invariant v == Ordered(Lowest(bs, bigEndian, i), bigEndian)
    {
      var b := if bigEndian then bs[|bs| - 1 - i] else bs[i];
      OrderedStep(bs, bigEndian, i);
      OrderedFits(Lowest(bs, bigEndian, i), bigEndian);
      LowestLen(bs, bigEndian, i);
      GlueShl(v, b, 8 * i);
      v := Or(v, Shl(b, 8 * i));
    }
    LowestAll(bs, bigEndian);
  }

  lemma LowestLen(bs: seq<byte>, bigEndian: bool, i: nat)
    requires i <= |bs|
    ensures |Lowest(bs, bigEndian, i)| == i
  {}

  lemma LowestAll(bs: seq<byte>, bigEndian: bool)
    ensures Lowest(bs, bigEndian, |bs|) == bs
  {}

  lemma DropOne(bs: seq<byte>, i: nat)
    requires i < |bs|
    ensures bs[i..][0] == bs[i] && bs[i..][1..] == bs[i + 1..]
  {}

  lemma LenIs(bs: seq<byte>, n: nat)
    requires 1 <= n <= |bs| && bs[n - 1] < 128 && forall i :: 0 <= i < n - 1 ==> bs[i] >= 128
    ensures Ends(bs) && Len(bs) == n
  {}

  /** None of the first `i` bytes ends the encoding, except perhaps the last of them. */
  predicate Going(bs: seq<byte>, i: nat, last: byte) {
    i <= |bs| && (forall k :: 0 <= k < i - 1 ==> bs[k] >= 128) && last == if i == 0 then 128 else bs[i - 1]
  }

  lemma GoesOn(bs: seq<byte>, i: nat, last: byte)
    requires Going(bs, i, last) && last >= 128
    ensures if i == |bs| then !Ends(bs) else Going(bs, i + 1, bs[i])
  {}

  lemma Stops(bs: seq<byte>, n: nat, last: byte)
    requires Going(bs, n, last) && last < 128
    ensures Ends(bs) && Len(bs) == n && last == bs[n - 1]
  {
    LenIs(bs, n);
  }

  /** The length of an encoding, found by looking for its last byte. */
  method FindLen(p: seq<byte>) returns (n: nat)
    requires Ends(p)
    ensures n == Len(p)
  {
    n := 1;
    while p[n - 1] >= 128
      invariant 1 <= n <= |p| && forall i :: 0 <= i < n - 1 ==> p[i] >= 128
      decreases |p| - n
    {
      NotLast(p, n);
      n := n + 1;
    }
    LenIs(p, n);
  }

  lemma NotLast(p: seq<byte>, n: nat)
    requires Ends(p) && 1 <= n <= |p| && forall i :: 0 <= i < n ==> p[i] >= 128
    ensures n < |p|
  {}

  // ----- reading back what the reference encoder writes

  lemma {:induction false} EncodeUnsignedLen(v: nat, k: nat)
    requires k > 0 && v < Pow2(7 * k)
    ensures |EncodeUnsigned(v)| <= k
  {
    if v >= 128 {
      assert Pow2(7) == 128;
      Pow2Add(7, 7 * (k - 1));
      EncodeUnsignedLen(v / 128, k - 1);
    }
  }

  lemma {:induction false} EncodeSignedLen(v: int, k: nat)
    requires k > 0 && 0 - Pow2(7 * k - 1) <= v < Pow2(7 * k - 1)
    ensures |EncodeSigned(v)| <= k
    decreases k
  {
    assert Pow2(6) == 64 && Pow2(7) == 128;
    if k > 1 {
      Pow2Add(7, 7 * (k - 1) - 1);
      if !(-64 <= v < 64) { EncodeSignedLen(v / 128, k - 1); }
    }
  }

  /** Every 64-bit value, encoded and followed by anything, is read back. */
  method ReadBackUnsigned(v: nat, tail: seq<byte>) returns (r: nat)
    requires v < WORD && |EncodeUnsigned(v) + tail| < WORD
    ensures r == v
  {
    hide EncodeUnsigned, Unsigned, Complete;
    var bs := EncodeUnsigned(v) + tail;
    UnsignedRoundTrip(v);
    EncodedFirst(EncodeUnsigned(v), tail);
    Pow64();
    Pow2Le(64, 70);
    EncodeUnsignedLen(v, 10);
    SmallMod(v, WORD);
    var b := new Buf(bs, 0, |bs|, false);
    assert b.Rest() == bs;
    r := b.ReadUleb();
  }

  method ReadBackSigned(v: int, tail: seq<byte>) returns (r: int)
    requires 0 - WORD / 2 <= v < WORD / 2 && |EncodeSigned(v) + tail| < WORD
    ensures r == v
  {
    hide EncodeSigned, Signed, Complete;
    var bs := EncodeSigned(v) + tail;
    SignedRoundTrip(v);
    EncodedFirst(EncodeSigned(v), tail);
    Pow64();
    Pow2Le(64, 69);
    EncodeSignedLen(v, 10);
    WrapSmall(v);
    var b := new Buf(bs, 0, |bs|, false);
    assert b.Rest() == bs;
    r := b.ReadSleb();
  }

  lemma WrapSmall(v: int)
    requires 0 - WORD / 2 <= v < WORD / 2
    ensures Wrap(v) == v
  {
    if v < 0 { ShiftMod(v, 1, WORD); }
  }

  lemma EncodedFirst(bs: seq<byte>, tail: seq<byte>)
    requires Complete(bs)
    ensures Ends(bs + tail) && Len(bs + tail) == |bs| && (bs + tail)[..|bs|] == bs
  {
    LenIs(bs + tail, |bs|);
  }
}
