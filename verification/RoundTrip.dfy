/** What is compressed is restored: the decoder gives back the data of every stream the writer
    makes, and every sequence of bytes has such a stream. */
module RoundTrip {
  import opened Arith
  import opened Bits
  import opened Bytes
  import opened Canonical
  import opened Deflate
  import opened BitReader
  import opened FixedCodes
  import opened StoredBlock
  import opened ZlibStream
  import opened Adler
  import opened DeflateWriter
  import opened BlockWriter

  /** A stream of any blocks is inflated to its data. */
  method InflateWritten(input: seq<byte>, end: nat, base: nat, ghost bs: seq<BlockOut>, ghost fill: seq<bool>,
                        out: array<byte>)
      returns (ok: bool)
    requires Holds(input, end, bs, fill) && CodesTaken(bs) && (HasStored(bs) ==> end < WORD32)
    requires bs[|bs| - 1].StoredOut? || EndBits(bs[|bs| - 1]) + |fill| >= 7
    requires |HeldData(input, end, bs, fill)| == out.Length < WORD32
    modifies out
    ensures ok && out[..] == HeldData(input, end, bs, fill)
  {
    hide HeldData, CodesTaken, HasStored, Streams, Acceptable, EndBits, AllReadable, AllCodable;
    hide WriteBlocks, BytesToBits;
    StreamAccepted(input, end, base, bs, fill);
    ok := InflateAll(input, end, base, out);
  }

  // ----- a compressor

  /** Bits come back from their bytes. */
  lemma {:induction false} BitsRoundTrip(bs: seq<bool>)
    requires |bs| % 8 == 0
    ensures BytesToBits(BitsToBytes(bs)) == bs
  {
    hide ToBits, LsbFirst;
    if bs != [] {
      BitsRoundTrip(bs[8..]);
      ToBitsOfLsb(bs[..8]);
      LsbFirstFits(bs[..8]);
      assert Pow2(8) == 256;
      BytesCons(LsbFirst(bs[..8]), BitsToBytes(bs[8..]));
      assert bs == bs[..8] + bs[8..];
    }
  }

  /** All literals, in the fixed code. */
  function Literals(data: seq<byte>): seq<Token> { seq(|data|, i requires 0 <= i < |data| => Literal(data[i])) }

  lemma {:induction false} LiteralsExpand(out: seq<byte>, data: seq<byte>)
    ensures Reaches(out, Literals(data)) && Expand(out, Literals(data)) == out + data
    decreases |data|
  {
    if data == [] {
      assert Literals(data) == [] && out + data == out;
    } else {
      assert Literals(data)[1..] == Literals(data[1..]);
      LiteralsExpand(out + [data[0]], data[1..]);
      assert out + data == out + [data[0]] + data[1..];
    }
  }

  lemma {:induction false} FixedUses(s: nat)
    requires s < 288
    ensures Uses(FixedLit(), s)
  {
    hide KraftSum;
    FixedComplete();
  }

  lemma {:induction false} LiteralsCodable(data: seq<byte>)
    ensures AllCodable([FixedOut(Literals(data))])
  {
    hide Uses, FixedLit, FixedDist;
    FixedUses(256);
    forall i | 0 <= i < |data| ensures Writable(FixedLit(), FixedDist(), Literals(data)[i]) {
      FixedUses(data[i]);
    }
  }

  ghost function LiteralBits(data: seq<byte>): seq<bool> {
    LiteralsCodable(data);
    WriteBlocks([FixedOut(Literals(data))])
  }

  /** The bits that fill the last byte. */
  function FillBits(n: nat): (fill: seq<bool>)
    ensures |fill| < 8 && (n + |fill|) % 8 == 0
  {
    seq((8 - n % 8) % 8, _ => false)
  }

  ghost function Deflated(data: seq<byte>): seq<byte> {
    hide LiteralBits, FillBits, BitsToBytes;
    BitsToBytes(LiteralBits(data) + FillBits(|LiteralBits(data)|))
  }

  /** A number of four bytes, most significant first. */
  function CheckBytes(v: nat): (bs: seq<byte>)
    requires v < WORD32
    ensures |bs| == 4
  {
    [v / 16777216, v / 65536 % 256, v / 256 % 256, v % 256]
  }

  lemma {:induction false} FourBytes(bs: seq<byte>, a: int, b: int, c: int, d: int)
    requires bs == [a, b, c, d]
    ensures BigEndian(bs) == ((a * 256 + b) * 256 + c) * 256 + d
  {
    assert bs[..3][..2] == bs[..2] && bs[..2][..1] == bs[..1] && bs[..1][..0] == [];
    assert BigEndian(bs[..1]) == a;
    assert BigEndian(bs[..2]) == a * 256 + b;
    assert BigEndian(bs[..3]) == (a * 256 + b) * 256 + c;
  }

  lemma Quotient(v: nat, m: nat)
    requires 0 < m
    ensures v / m / 256 == v / (256 * m) && v / m == v / m / 256 * 256 + v / m % 256
  {
    var q, r := v / m / 256, v / m % 256;
    assert v == q * (256 * m) + (r * m + v % m) by {
      assert v == v / m * m + v % m && v / m == q * 256 + r;
      assert (q * 256 + r) * m == q * (256 * m) + r * m;
    }
    assert r * m + v % m < 256 * m by { MulLe(r, 255, m); }
    ModUnique(q, r * m + v % m, 256 * m);
  }

  lemma Regrouped(v: nat)
    ensures ((v / 16777216 * 256 + v / 65536 % 256) * 256 + v / 256 % 256) * 256 + v % 256 == v
  {
    Quotient(v, 65536);
    Quotient(v, 256);
  }

  lemma CheckBytesRead(v: nat)
    requires v < WORD32
    ensures BigEndian(CheckBytes(v)) == v
  {
    hide BigEndian;
    FourBytes(CheckBytes(v), v / 16777216, v / 65536 % 256, v / 256 % 256, v % 256);
    Regrouped(v);
  }

  lemma ChecksumFits(data: seq<byte>)
    ensures Checksum(data) < WORD32
  {
    hide AdlerSums;
  }

  /** The zlib stream of the data: header, compressed data and checksum. */
  ghost function Zlib(data: seq<byte>): seq<byte> {
    ChecksumFits(data);
    [120, 156] + Deflated(data) + CheckBytes(Checksum(data))
  }

  lemma {:induction false} ZlibHolds(data: seq<byte>, input: seq<byte>, end: nat)
    requires end + 3 <= |input| && input[..end] == Zlib(data)
    ensures var bs, fill := [FixedOut(Literals(data))], FillBits(|LiteralBits(data)|);
      && Holds(input, end, bs, fill) && HeldData(input, end, bs, fill) == data
      && BigEndian(input[end - 4..end]) == Checksum(data)
  {
    hide WriteBlocks, BytesToBits, BitsToBytes, Checksum, BigEndian, Literals, CheckBytes, FillBits;
    var bs, fill := [FixedOut(Literals(data))], FillBits(|LiteralBits(data)|);
    ChecksumFits(data);
    LiteralsCodable(data);
    LiteralsExpand([], data);
    BitsRoundTrip(LiteralBits(data) + fill);
    var d := Deflated(data);
    var w := CheckBytes(Checksum(data));
    assert input[2..end - 4] == d by { assert input[..end][2..2 + |d|] == d; }
    assert input[end - 4..end] == w by { assert input[..end][2 + |d|..] == w; }
    CheckBytesRead(Checksum(data));
    assert input[0] == input[..end][0] == 120 && input[1] == input[..end][1] == 156;
    assert [] + data == data;
  }

  /** Every sequence of bytes, compressed, comes back with its checksum verified. */
  method Restore(ghost data: seq<byte>, input: seq<byte>, end: nat, base: nat, out: array<byte>) returns (ok: bool)
    requires |data| == out.Length < WORD32 && end + 3 <= |input| && input[..end] == Zlib(data)
    modifies out
    ensures ok && out[..] == data
  {
    hide Zlib, HeldData, Streams, Acceptable, Holds, BigEndian, Checksum, Literals, LiteralBits;
    ZlibHolds(data, input, end);
    HoldsRoom(input, end, [FixedOut(Literals(data))], FillBits(|LiteralBits(data)|));
    FixedEnd();
    StreamAccepted(input, end, base, [FixedOut(Literals(data))], FillBits(|LiteralBits(data)|));
    ok := InflateAndVerify(input, end, base, out);
  }

  lemma HoldsRoom(input: seq<byte>, end: nat, bs: seq<BlockOut>, fill: seq<bool>)
    requires Holds(input, end, bs, fill)
    ensures 6 <= end && |fill| < 8
  {}

  lemma FixedEnd()
    ensures EndCode(FixedLit()) == 7
  {}
}
