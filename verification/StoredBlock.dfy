/** Stored blocks: copied byte for byte, after a detour to a byte boundary. */
module StoredBlock {
  import opened Arith
  import opened Bits
  import opened Bytes
  import opened Deflate
  import opened BitReader

  /** Two bytes, low one first, as a 16-bit number. */
  lemma {:induction false} TwoBytes(m: seq<byte>, p: nat)
    requires p + 2 <= |m|
    ensures Number(BytesToBits(m[p..]), 16) == Good(Join(m[p], m[p + 1]), BytesToBits(m[p + 2..]))
  {
    hide BytesToBits, ToBits, LsbFirst;
    var v := Join(m[p], m[p + 1]);
    BytesFrom(m, p);
    BytesFrom(m, p + 1);
    Pow8();
    ToBitsGlue(m[p], m[p + 1], 8, 8);
    assert BytesToBits(m[p..]) == ToBits(v, 16) + BytesToBits(m[p + 2..]);
    LsbOfToBits(v, 16);
    Pow2Add(8, 8);
    LowId(v, 16);
  }

  lemma {:induction false} ByteRoundTrip(b: byte)
    ensures LsbFirst(ToBits(b, 8)) == b
  {
    LsbOfToBits(b, 8);
    Pow8();
    LowId(b, 8);
  }

  /** Whole bytes come back from their bits. */
  lemma {:induction false} BytesRoundTrip(m: seq<byte>)
    ensures BitsToBytes(BytesToBits(m)) == m
  {
    hide ToBits, LsbFirst;
    if m != [] {
      var bs := BytesToBits(m);
      ByteRoundTrip(m[0]);
      BytesRoundTrip(m[1..]);
      assert bs[..8] == ToBits(m[0], 8) && bs[8..] == BytesToBits(m[1..]);
    }
  }

  lemma BytesCons(b: byte, t: seq<byte>)
    ensures BytesToBits([b] + t) == ToBits(b, 8) + BytesToBits(t)
  {
    assert ([b] + t)[1..] == t;
  }

  lemma Regroup(x: seq<bool>, y: seq<bool>, z: seq<bool>)
    ensures (x + y) + z == x + (y + z)
  {}

  lemma {:induction false} BytesAppend(a: seq<byte>, b: seq<byte>)
    ensures BytesToBits(a + b) == BytesToBits(a) + BytesToBits(b)
  {
    if a == [] {
      assert a + b == b;
    } else {
      hide BytesToBits, ToBits;
      var t := a[1..];
      BytesAppend(t, b);
      assert a == [a[0]] + t && a + b == [a[0]] + (t + b);
      BytesCons(a[0], t);
      BytesCons(a[0], t + b);
      Regroup(ToBits(a[0], 8), BytesToBits(t), BytesToBits(b));
    }
  }

  lemma {:induction false} StoredBytes(m: seq<byte>, p: nat, len: nat)
    requires p + len <= |m|
    ensures var bs := BytesToBits(m[p..]);
      BitsToBytes(bs[..8 * len]) == m[p..p + len] && bs[8 * len..] == BytesToBits(m[p + len..])
  {
    assert m[p..] == m[p..p + len] + m[p + len..];
    BytesAppend(m[p..p + len], m[p + len..]);
    BytesRoundTrip(m[p..p + len]);
    assert BytesToBits(m[p..])[..8 * len] == BytesToBits(m[p..p + len]);
  }

  /** A stored block read from whole bytes. */
  lemma {:induction false} StoredFromBytes(m: seq<byte>, p: nat, out: seq<byte>, len: nat)
    requires p + 4 <= |m| && len == Join(m[p], m[p + 1]) == 65535 - Join(m[p + 2], m[p + 3]) && p + 4 + len <= |m|
    ensures StoredData(BytesToBits(m[p..]), out) ==
      Good(out + m[p + 4..p + 4 + len], BytesToBits(m[p + 4 + len..]))
  {
    hide BytesToBits, BitsToBytes, Join, Number;
    TwoBytes(m, p);
    TwoBytes(m, p + 2);
    StoredBytes(m, p + 4, len);
  }

  lemma AppendNone(out: seq<byte>, m: seq<byte>, q: nat)
    requires q <= |m|
    ensures out + m[q..q] == out
  {
    assert m[q..q] == [];
  }

  /** An empty stored block: the bytes 0, 0, 255, 255. */
  lemma {:induction false} EmptyStored(m: seq<byte>, p: nat, out: seq<byte>)
    requires p + 4 <= |m| && m[p] == m[p + 1] == 0 && m[p + 2] == m[p + 3] == 255
    ensures StoredData(BytesToBits(m[p..]), out) == Good(out, BytesToBits(m[p + 4..]))
  {
    hide StoredData, BytesToBits, Join;
    EmptyLength(m[p], m[p + 2]);
    AppendNone(out, m, p + 4);
    StoredFromBytes(m, p, out, 0);
  }

  lemma EmptyLength(low: nat, high: nat)
    requires low == 0 && high == 255
    ensures Join(low, low) == 0 && Join(high, high) == 65535
  {}

  /** Copies `len` input bytes to the output. */
  method CopyIn(out: array<byte>, pout: nat, src: seq<byte>)
    requires pout + |src| <= out.Length
    modifies out
    ensures out[..pout + |src|] == old(out[..pout]) + src
  {
    for i := 0 to |src|
      invariant out[..pout] == old(out[..pout]) && out[pout..pout + i] == src[..i]
    {
      out[pout + i] := src[i];
    }
  }

  /** Copies `len` input bytes and goes on behind them. */
  method CopyStored(r: Reader, out: array<byte>, pout: nat, pin: nat, len: nat)
    requires r.Valid() && pin + len <= r.end && pout + len <= out.Length
    modifies r, out
    ensures r.Valid() && r.Unread() == BytesToBits(r.input[pin + len..]) && r.JustAligned()
    ensures out[..pout + len] == old(out[..pout]) + r.input[pin..pin + len]
  {
    hide BytesToBits;
    BytesDrop(r.input, pin + len);
    CopyIn(out, pout, r.input[pin..pin + len]);
    r.Seek(pin + len);
    r.Align();
  }

  /** A stored block of `len` bytes starts at byte `pin` and fits. */
  ghost predicate LengthAt(input: seq<byte>, end: nat, pin: nat, len: nat) {
    && pin + 4 + len <= end <= |input|
    && len == Join(input[pin], input[pin + 1]) == 65535 - Join(input[pin + 2], input[pin + 3])
  }

  /** Checks the length of a stored block and its complement. */
  method TakeStoredLength(input: seq<byte>, end: nat, pin: nat, room: nat) returns (ok: bool, len: nat)
    requires end <= |input| && pin <= |input|
    ensures ok ==> LengthAt(input, end, pin, len) && len <= room
    ensures !ok && end < WORD32 && room < WORD32 && pin + 4 <= |input| ==>
      var n := Join(input[pin], input[pin + 1]);
      n != 65535 - Join(input[pin + 2], input[pin + 3]) || pin + 4 + n > end || n > room
  {
    hide Join, Narrow;
    if end - pin < 4 {
      return false, 0;
    }
    len := Join(input[pin], input[pin + 1]);
    var lenc: int := Join(input[pin + 2], input[pin + 3]);
    NarrowLess(end - pin - 4);
    NarrowLess(room);
    if len != 65535 - lenc || len > Narrow(end - pin - 4) || len > Narrow(room) {
      return false, 0;
    }
    ok := true;
  }

  /** Why a stored block may be refused: it has no reading, does not fit in the buffer, runs
      past the end, or a size is cut by narrowing. */
  ghost predicate StoredPast(r: Reader, p: Parse<seq<byte>>, length: nat) {
    p.Bad? || !Fits(|p.value|, length) || !(r.end < WORD32) || 8 * |r.input| - |p.rest| > 8 * r.end
  }

  /** What a stored block at byte `pin` says of itself. */
  lemma {:induction false} StoredSays(m: seq<byte>, pin: nat, out: seq<byte>)
    requires pin <= |m|
    ensures var p := StoredData(BytesToBits(m[pin..]), out);
      p.Good? ==>
        && pin + 4 <= |m|
        && var n := Join(m[pin], m[pin + 1]);
           n == 65535 - Join(m[pin + 2], m[pin + 3]) && |p.value| == |out| + n && |p.rest| == 8 * (|m| - pin - 4 - n)
  {
    hide BytesToBits, TakeBytes, Number, Join;
    if pin + 4 > |m| {
      StoredTooShort(BytesToBits(m[pin..]), out);
    } else {
      TwoBytes(m, pin);
      TwoBytes(m, pin + 2);
      BytesLength(BytesToBits(m[pin + 4..]), Join(m[pin], m[pin + 1]), out);
    }
  }

  lemma BytesLength(bs: seq<bool>, len: nat, out: seq<byte>)
    ensures var p := TakeBytes(bs, len, out); p.Good? ==> |p.value| == |out| + len && |p.rest| == |bs| - 8 * len
  {
    hide BitsToBytes;
  }

  /** Decodes a stored block from the byte boundary in front of its length. */
  method InflateBytes(r: Reader, out: array<byte>, pout: nat) returns (ok: bool, pout': nat)
    requires r.Valid() && r.bits == 0 && pout <= out.Length
    modifies r, out
    ensures r.Valid()
    ensures ok ==>
      && pout <= pout' <= out.Length && r.JustAligned()
      && StoredData(old(r.Unread()), old(out[..pout])) == Good(out[..pout'], r.Unread())
    ensures !ok ==> StoredPast(r, StoredData(old(r.Unread()), old(out[..pout])), out.Length)
  {
    hide BytesToBits, ToBits, Pow2, StoredData, Join, AlignedAt;
    var pin, len := r.pin, 0;
    StoredSays(r.input, pin, out[..pout]);
    BytesDrop(r.input, pin);
    ok, len := TakeStoredLength(r.input, r.end, pin, out.Length - pout);
    if !ok {
      return false, pout;
    }
    StoredFromBytes(r.input, pin, out[..pout], len);
    CopyStored(r, out, pout, pin + 4, len);
    return true, pout + len;
  }

  /** Decodes a stored block whose header has just been taken. */
  method InflateStored(r: Reader, out: array<byte>, pout: nat) returns (ok: bool, pout': nat)
    requires r.Valid() && 1 <= r.bits && pout <= out.Length
    modifies r, out
    ensures r.Valid()
    ensures ok ==>
      && pout <= pout' <= out.Length && r.JustAligned()
      && Stored(CodePadding, old(r.Unread()), old(out[..pout])) == Good(out[..pout'], r.Unread())
    ensures !ok ==> StoredPast(r, Stored(CodePadding, old(r.Unread()), old(out[..pout])), out.Length)
  {
    hide BytesToBits, StoredData, CodePadding, AlignedAt, Fits;
    r.Rewind();
    ok, pout' := InflateBytes(r, out, pout);
  }

  // ----- how the skipped bits differ from the standard

  /** What a stored block takes: a header of 32 bits and its bytes. */
  lemma StoredLength(bs: seq<bool>, out: seq<byte>)
    ensures var r := StoredData(bs, out);
      r.Good? ==> |out| <= |r.value| && 8 * (|r.value| - |out|) + |r.rest| + 32 == |bs|
  {
    hide LsbFirst, BitsToBytes;
  }

  /** On a byte boundary the decoder reads the block as if it started one byte later. */
  lemma BoundarySkips(bs: seq<bool>, out: seq<byte>)
    requires |bs| % 8 == 0 && 8 <= |bs|
    ensures Stored(CodePadding, bs, out) == StoredData(bs[8..], out)
    ensures Stored(RfcPadding, bs, out) == StoredData(bs, out)
  {
    assert bs[0..] == bs;
  }

  /** A stored block that RFC 1951 accepts is read alike if and only if its header
      ends inside a byte. */
  lemma {:induction false} PaddingExact(bs: seq<bool>, out: seq<byte>)
    ensures |bs| % 8 != 0 ==> Stored(CodePadding, bs, out) == Stored(RfcPadding, bs, out)
    ensures Stored(RfcPadding, bs, out).Good? ==>
      (Stored(CodePadding, bs, out) == Stored(RfcPadding, bs, out) <==> |bs| % 8 != 0)
  {
    hide StoredData;
    if |bs| % 8 == 0 && 8 <= |bs| {
      BoundarySkips(bs, out);
      StoredLength(bs, out);
      StoredLength(bs[8..], out);
    } else if |bs| == 0 {
      StoredTooShort(bs, out);
      assert bs[0..] == bs;
    }
  }

  /** An empty stored block with more data behind it: the bytes 0, 0, 255, 255 on a
      byte boundary. RFC 1951 goes on with that data, the decoder does not. */
  lemma {:induction false} PaddingDiffers(m: seq<byte>, out: seq<byte>)
    requires |m| >= 4 && m[0] == m[1] == 0 && m[2] == m[3] == 255
    ensures Stored(RfcPadding, BytesToBits(m), out) == Good(out, BytesToBits(m[4..]))
    ensures Stored(CodePadding, BytesToBits(m), out) != Good(out, BytesToBits(m[4..]))
  {
    hide BytesToBits, StoredData, Stored;
    assert m[0..] == m;
    EmptyStored(m, 0, out);
    BoundarySkips(BytesToBits(m), out);
    PaddingExact(BytesToBits(m), out);
  }

  lemma StoredTooShort(bs: seq<bool>, out: seq<byte>)
    requires |bs| < 32
    ensures StoredData(bs, out) == Bad(Truncated)
  {}
}
