/** Blocks of all three types, one behind the other, are read back; and the decoder accepts
    the zlib stream made of them and gives the data. */
module BlockWriter {
  import opened Arith
  import opened Bits
  import opened Bytes
  import opened Canonical
  import opened Deflate
  import opened BitReader
  import opened Inflate
  import opened StoredBlock
  import opened ZlibHeader
  import opened ZlibStream
  import opened DeflateWriter

  /** A block to be written. A stored one has the bits it skips with it. */
  datatype BlockOut =
    | StoredOut(skipped: seq<bool>, data: seq<byte>)
    | FixedOut(toks: seq<Token>)
    | DynamicOut(codes: Codes, toks: seq<Token>)

  ghost predicate AllWritable(lit: Lengths, dist: Lengths, toks: seq<Token>) {
    Uses(lit, 256) && forall i :: 0 <= i < |toks| ==> Writable(lit, dist, toks[i])
  }

  /** The block can be written. */
  ghost predicate Codable(b: BlockOut) {
    match b
    case StoredOut(_, data) => |data| <= 65535
    case FixedOut(toks) => AllWritable(FixedLit(), FixedDist(), toks)
    case DynamicOut(c, toks) => CodesOk(c) && AllWritable(c.lit, c.dist, toks)
  }

  /** And read after `out`, with `left` bits behind it. */
  ghost predicate Readable(rules: Rules, b: BlockOut, out: seq<byte>, left: nat) {
    match b
    case StoredOut(skipped, data) => rules.pad(|skipped| + 32 + 8 * |data| + left) == |skipped|
    case _ => Reaches(out, b.toks)
  }

  function Type(b: BlockOut): nat { if b.StoredOut? then 0 else if b.FixedOut? then 1 else 2 }

  function StoredBits(data: seq<byte>): seq<bool>
    requires |data| <= 65535
  {
    ToBits(|data|, 16) + (ToBits(65535 - |data|, 16) + BytesToBits(data))
  }

  ghost function WriteData(b: BlockOut): seq<bool>
    requires Codable(b)
  {
    match b
    case StoredOut(skipped, data) => skipped + StoredBits(data)
    case FixedOut(toks) => WriteTokens(FixedLit(), FixedDist(), toks)
    case DynamicOut(c, toks) => WriteCodes(c) + WriteTokens(c.lit, c.dist, toks)
  }

  /** The output after the block. */
  ghost function After(rules: Rules, b: BlockOut, out: seq<byte>, left: nat): seq<byte>
    requires Readable(rules, b, out, left)
  {
    match b
    case StoredOut(_, data) => out + data
    case _ => Expand(out, b.toks)
  }

  lemma {:induction false} StoredRead(rules: Rules, skipped: seq<bool>, data: seq<byte>, out: seq<byte>, t: seq<bool>)
    requires |data| <= 65535 && rules.pad(|skipped| + 32 + 8 * |data| + |t|) == |skipped|
    ensures Stored(rules.pad, skipped + StoredBits(data) + t, out) == Good(out + data, t)
  {
    hide Number, ToBits, BytesToBits, BitsToBytes;
    var a, b, d := ToBits(|data|, 16), ToBits(65535 - |data|, 16), BytesToBits(data);
    var bs := skipped + StoredBits(data) + t;
    assert |bs| == |skipped| + 32 + 8 * |data| + |t|;
    assert bs[|skipped|..] == a + (b + (d + t));
    Pow16();
    NumberRead(|data|, 16, b + (d + t));
    NumberRead(65535 - |data|, 16, d + t);
    BytesRoundTrip(data);
    assert (d + t)[..8 * |data|] == d && (d + t)[8 * |data|..] == t;
  }

  lemma Pow16()
    ensures Pow2(16) == 65536
  {
    assert Pow2(8) == 256;
    Pow2Add(8, 8);
  }

  /** The data of a block is read back. */
  lemma {:induction false} DataRead(rules: Rules, b: BlockOut, out: seq<byte>, t: seq<bool>)
    requires Codable(b) && Readable(rules, b, out, |t|)
    ensures Block(rules, Type(b), WriteData(b) + t, out) == Good(After(rules, b, out, |t|), t)
  {
    hide Stored, StoredBits, Symbols, DynamicCodes, FixedLit, FixedDist, WriteTokens, WriteCodes, CodesOk, Reaches;
    match b
    case StoredOut(skipped, data) => StoredRead(rules, skipped, data, out, t);
    case FixedOut(toks) => TokensRead(rules.lenient, FixedLit(), FixedDist(), toks, t, out);
    case DynamicOut(c, toks) =>
      var w := WriteTokens(c.lit, c.dist, toks);
      assert WriteData(b) + t == WriteCodes(c) + (w + t);
      CodesRead(rules.lenient, c, w + t);
      TokensRead(rules.lenient, c.lit, c.dist, toks, t, out);
  }

  // ----- several blocks

  ghost predicate AllCodable(bs: seq<BlockOut>) { bs != [] && forall i :: 0 <= i < |bs| ==> Codable(bs[i]) }

  ghost function WriteBlock(b: BlockOut, last: bool): seq<bool>
    requires Codable(b)
  {
    [last] + (ToBits(Type(b), 2) + WriteData(b))
  }

  ghost function WriteBlocks(bs: seq<BlockOut>): seq<bool>
    requires AllCodable(bs)
  {
    if |bs| == 1 then WriteBlock(bs[0], true) else WriteBlock(bs[0], false) + WriteBlocks(bs[1..])
  }

  /** How many bits lie behind the first block. */
  ghost function Behind(bs: seq<BlockOut>, left: nat): nat
    requires AllCodable(bs)
  {
    if |bs| == 1 then left else |WriteBlocks(bs[1..])| + left
  }

  ghost predicate AllReadable(rules: Rules, bs: seq<BlockOut>, out: seq<byte>, left: nat)
    requires AllCodable(bs)
  {
    && Readable(rules, bs[0], out, Behind(bs, left))
    && (|bs| > 1 ==> AllReadable(rules, bs[1..], After(rules, bs[0], out, Behind(bs, left)), left))
  }

  /** The data of the blocks, after `out`. */
  ghost function Contents(rules: Rules, bs: seq<BlockOut>, out: seq<byte>, left: nat): seq<byte>
    requires AllCodable(bs) && AllReadable(rules, bs, out, left)
  {
    var o := After(rules, bs[0], out, Behind(bs, left));
    if |bs| == 1 then o else Contents(rules, bs[1..], o, left)
  }

  /** The header of a block is read back. */
  lemma {:induction false} BlockHeaderRead(last: bool, y: nat, t: seq<bool>)
    requires y < 3
    ensures Number([last] + (ToBits(y, 2) + t), 1) == Good(if last then 1 else 0, ToBits(y, 2) + t)
    ensures Number(ToBits(y, 2) + t, 2) == Good(y, t)
  {
    hide ToBits;
    var bs := [last] + (ToBits(y, 2) + t);
    assert bs[..1] == [last] && bs[1..] == ToBits(y, 2) + t;
    assert [last][1..] == [] && LsbFirst([last]) == if last then 1 else 0;
    assert Pow2(2) == 4;
    NumberRead(y, 2, t);
  }

  /** What is said of the blocks when they are read: their data, how the last one ends, where
      its last symbol is, and that the decoder takes them. */
  ghost predicate BlocksRead(rules: Rules, bs: seq<BlockOut>, out: seq<byte>, t: seq<bool>)
    requires AllCodable(bs) && AllReadable(rules, bs, out, |t|)
  {
    var w, last := WriteBlocks(bs) + t, bs[|bs| - 1];
    && Blocks(rules, w, out) == Good(Contents(rules, bs, out, |t|), t)
    && LastEnd(rules, w, out) == EndBits(last)
    && (last.StoredOut? ==> LastFetch(rules, w, out) >= 35 + |t|)
    && (!last.StoredOut? ==> LastFetch(rules, w, out) == EndBits(last) + |t|)
  }

  /** The length of the end code of a block. */
  function EndBits(b: BlockOut): nat {
    match b
    case StoredOut(_, _) => 0
    case FixedOut(_) => EndCode(FixedLit())
    case DynamicOut(c, _) => EndCode(c.lit)
  }

  lemma {:induction false} EndRead(rules: Rules, b: BlockOut, out: seq<byte>, t: seq<bool>)
    requires Codable(b) && Readable(rules, b, out, |t|)
    ensures Block(rules, Type(b), WriteData(b) + t, out).Good?
    ensures EndLength(rules, Type(b), WriteData(b) + t, out) == EndBits(b)
  {
    hide Block, FixedLit, FixedDist, DynamicCodes, WriteCodes, CodesOk, Reaches, StoredBits, WriteTokens;
    DataRead(rules, b, out, t);
    if b.DynamicOut? {
      var w := WriteTokens(b.codes.lit, b.codes.dist, b.toks);
      assert WriteData(b) + t == WriteCodes(b.codes) + (w + t);
      CodesRead(rules.lenient, b.codes, w + t);
    }
  }

  lemma StoredLong(b: BlockOut)
    requires Codable(b) && b.StoredOut?
    ensures |WriteData(b)| >= 32
  {}

  /** The bits behind the data of the first block. */
  ghost function Tail(bs: seq<BlockOut>, t: seq<bool>): (r: seq<bool>)
    requires AllCodable(bs)
    ensures |r| == Behind(bs, |t|)
  {
    if |bs| == 1 then t else WriteBlocks(bs[1..]) + t
  }

  lemma {:induction false} FirstBits(bs: seq<BlockOut>, t: seq<bool>)
    requires AllCodable(bs)
    ensures WriteBlocks(bs) + t == [|bs| == 1] + (ToBits(Type(bs[0]), 2) + (WriteData(bs[0]) + Tail(bs, t)))
  {
    hide Codable, WriteData, Type, ToBits;
  }

  /** Blocks are read back. */
  lemma {:induction false} ReadBlocks(rules: Rules, bs: seq<BlockOut>, out: seq<byte>, t: seq<bool>)
    requires AllCodable(bs) && AllReadable(rules, bs, out, |t|)
    ensures BlocksRead(rules, bs, out, t)
    decreases |bs|
  {
    hide Block, Number, Codable, Readable, WriteData, EndBits, After, Type, EndLength, WriteBlocks, ToBits;
    var b, tail := bs[0], Tail(bs, t);
    FirstBits(bs, t);
    TypeSmall(b);
    BlockHeaderRead(|bs| == 1, Type(b), WriteData(b) + tail);
    DataRead(rules, b, out, tail);
    EndRead(rules, b, out, tail);
    if |bs| > 1 {
      ReadBlocks(rules, bs[1..], After(rules, b, out, |tail|), t);
    } else if b.StoredOut? {
      StoredLong(b);
    }
  }

  // ----- what the decoder takes

  /** The decoder takes the codes of the dynamic blocks. */
  ghost predicate CodesTaken(bs: seq<BlockOut>) {
    forall i :: 0 <= i < |bs| && bs[i].DynamicOut? ==> HeaderTaken(bs[i].codes.lit, bs[i].codes.dist)
  }

  /** There are stored blocks. */
  predicate HasStored(bs: seq<BlockOut>) { exists i :: 0 <= i < |bs| && bs[i].StoredOut? }

  lemma {:induction false} DataTaken(input: seq<byte>, end: nat, b: BlockOut, out: seq<byte>, t: seq<bool>)
    requires Codable(b) && Readable(CODE, b, out, |t|)
    requires b.DynamicOut? ==> HeaderTaken(b.codes.lit, b.codes.dist)
    requires b.StoredOut? ==> end < WORD32 && Consumed(input, t) <= 8 * end
    ensures Block(CODE, Type(b), WriteData(b) + t, out).Good?
    ensures BlockTaken(input, end, Type(b), WriteData(b) + t, out)
  {
    hide Block, DynamicCodes, WriteCodes, CodesOk, Reaches, StoredBits, WriteTokens, HeaderTaken;
    DataRead(CODE, b, out, t);
    if b.DynamicOut? {
      var w := WriteTokens(b.codes.lit, b.codes.dist, b.toks);
      assert WriteData(b) + t == WriteCodes(b.codes) + (w + t);
      CodesRead(true, b.codes, w + t);
    }
  }

  lemma {:induction false} TakenBlocks(input: seq<byte>, end: nat, bs: seq<BlockOut>, out: seq<byte>, t: seq<bool>)
    requires AllCodable(bs) && AllReadable(CODE, bs, out, |t|) && CodesTaken(bs)
    requires HasStored(bs) ==> end < WORD32 && Consumed(input, t) <= 8 * end
    ensures Blocks(CODE, WriteBlocks(bs) + t, out).Good? && BlocksTaken(input, end, WriteBlocks(bs) + t, out)
    decreases |bs|
  {
    hide Block, Number, Codable, Readable, WriteData, After, Type, BlockTaken, HeaderTaken, WriteBlocks, ToBits;
    hide LastEnd, LastFetch, Contents;
    ReadBlocks(CODE, bs, out, t);
    var b, tail := bs[0], Tail(bs, t);
    FirstBits(bs, t);
    TypeSmall(b);
    BlockHeaderRead(|bs| == 1, Type(b), WriteData(b) + tail);
    DataRead(CODE, b, out, tail);
    DataTaken(input, end, b, out, tail);
    if |bs| > 1 {
      assert HasStored(bs[1..]) ==> HasStored(bs);
      TakenBlocks(input, end, bs[1..], After(CODE, b, out, |tail|), t);
    }
  }

  lemma TypeSmall(b: BlockOut)
    ensures Type(b) < 3 && (Type(b) == 0 <==> b.StoredOut?)
  {}

  // ----- one zlib stream

  /** `input` holds a stream of these blocks, filled up to a byte, with a checksum before
      `end`. */
  ghost predicate Holds(input: seq<byte>, end: nat, bs: seq<BlockOut>, fill: seq<bool>) {
    && 6 <= end && end + 3 <= |input| && HeaderOk(input[0], input[1]) && |fill| < 8
    && AllCodable(bs) && BytesToBits(input[2..end - 4]) == WriteBlocks(bs) + fill
    && AllReadable(CODE, bs, [], |fill| + 8 * (|input| - end + 4))
  }

  ghost function HeldData(input: seq<byte>, end: nat, bs: seq<BlockOut>, fill: seq<bool>): seq<byte>
    requires Holds(input, end, bs, fill)
  {
    hide AllCodable, AllReadable, WriteBlocks, BytesToBits, Contents, HeaderOk;
    Contents(CODE, bs, [], |fill| + 8 * (|input| - end + 4))
  }

  lemma {:induction false} HeldBits(input: seq<byte>, end: nat, bs: seq<BlockOut>, fill: seq<bool>)
    requires Holds(input, end, bs, fill)
    ensures BytesToBits(input[2..]) == WriteBlocks(bs) + (fill + BytesToBits(input[end - 4..]))
  {
    hide BytesToBits, WriteBlocks, AllReadable, HeaderOk;
    assert input[2..] == input[2..end - 4] + input[end - 4..];
    BytesAppend(input[2..end - 4], input[end - 4..]);
  }

  /** The decoder reads it and accepts it, when it takes the codes, sizes are not cut, and the
      end code and the fill bits are seven bits together. */
  lemma {:induction false} StreamAccepted(input: seq<byte>, end: nat, base: nat, bs: seq<BlockOut>, fill: seq<bool>)
    requires Holds(input, end, bs, fill) && CodesTaken(bs) && (HasStored(bs) ==> end < WORD32)
    requires |HeldData(input, end, bs, fill)| < WORD32
    requires bs[|bs| - 1].StoredOut? || EndBits(bs[|bs| - 1]) + |fill| >= 7
    ensures Streams(input, end, base, 0, []) == Good(HeldData(input, end, bs, fill), [])
    ensures Acceptable(input, end, base, |HeldData(input, end, bs, fill)|)
  {
    hide BytesToBits, WriteBlocks, AllReadable, Contents, HeaderOk, Blocks, LastEnd, LastFetch, BlocksTaken, CodesTaken;
    hide AllCodable, EndBits, NextByte;
    HeldBits(input, end, bs, fill);
    var t := fill + BytesToBits(input[end - 4..]);
    ReadBlocks(CODE, bs, [], t);
    TakenBlocks(input, end, bs, [], t);
    var n, c := LastEnd(CODE, WriteBlocks(bs) + t, []), Consumed(input, t);
    NextExact(n, base, c);
    assert DataEnd(c) == end - 4;
    StreamNext(input, end, base, 0, []);
    assert !LateAt(|input|, end, LastFetch(CODE, WriteBlocks(bs) + t, []));
    LastStream(input, end, base, NextByte(n, base, c), HeldData(input, end, bs, fill));
  }

  lemma LastStream(input: seq<byte>, end: nat, base: nat, p: nat, out: seq<byte>)
    requires end + 3 <= |input| && end - p <= 4
    ensures Streams(input, end, base, p, out) == Good(out, []) && StreamsTaken(input, end, base, p, out)
  {}
}
