/** A bit-by-bit reading of the DEFLATE format of RFC 1951, the reference the
    decoder is compared with. */
module Deflate {
  import opened Bits
  import opened Bytes
  import opened Canonical

  /** Why a stream is not valid DEFLATE data. */
  datatype Flaw =
    | NoHeader         // no zlib header where a stream should start
    | Truncated        // the bits run out
    | ReservedType     // block type 3
    | StoredMismatch   // the length of a stored block and its complement differ
    | BadHeader        // more than 286 literal/length codes
    | NoPrevious       // a repeat with nothing to repeat
    | TooManyLengths   // a repeat runs past the last code length
    | BadSymbol        // a symbol that never occurs in valid data
    | TooFar           // a match starts before the output
    | Unassigned       // bits that no code begins, in an incomplete code
    | Oversubscribed(lens: Lengths) // a set of lengths that breaks the Kraft inequality

  datatype Parse<+T> = Good(value: T, rest: seq<bool>) | Bad(flaw: Flaw) {
    predicate IsFailure() { Bad? }
    function PropagateFailure<U>(): Parse<U>
      requires Bad?
    {
      Bad(flaw)
    }
    function Extract(): (T, seq<bool>)
      requires Good?
    {
      (value, rest)
    }
  }

  /** Bytes are packed starting from their least significant bit. */
  function BytesToBits(bytes: seq<byte>): (bs: seq<bool>)
    ensures |bs| == 8 * |bytes|
  {
    if bytes == [] then [] else ToBits(bytes[0], 8) + BytesToBits(bytes[1..])
  }

  function BitsToBytes(bs: seq<bool>): (bytes: seq<byte>)
    requires |bs| % 8 == 0
    ensures 8 * |bytes| == |bs|
  {
    if bs == [] then [] else
      LsbFirstFits(bs[..8]);
      assert Pow2(8) == 256;
      [LsbFirst(bs[..8])] + BitsToBytes(bs[8..])
  }

  lemma {:induction false} LsbFirstFits(bs: seq<bool>)
    ensures LsbFirst(bs) < Pow2(|bs|)
  {
    if bs != [] { LsbFirstFits(bs[1..]); }
  }

  // ----- the tables of sections 3.2.5 and 3.2.7

  /** The base and the number of extra bits of length symbol `s`. */
  function LengthBase(s: nat): nat
    requires 257 <= s <= 285
  {
    [3, 4, 5, 6, 7, 8, 9, 10, 11, 13, 15, 17, 19, 23, 27, 31, 35, 43, 51, 59, 67, 83, 99, 115, 131, 163, 195, 227,
     258][s - 257]
  }

  function LengthExtra(s: nat): nat
    requires 257 <= s <= 285
  {
    [0, 0, 0, 0, 0, 0, 0, 0, 1, 1, 1, 1, 2, 2, 2, 2, 3, 3, 3, 3, 4, 4, 4, 4, 5, 5, 5, 5, 0][s - 257]
  }

  /** The base and the number of extra bits of distance symbol `d`. */
  function DistBase(d: nat): (r: nat)
    requires d <= 29
    ensures 1 <= r
  {
    [1, 2, 3, 4, 5, 7, 9, 13, 17, 25, 33, 49, 65, 97, 129, 193, 257, 385, 513, 769,
     1025, 1537, 2049, 3073, 4097, 6145, 8193, 12289, 16385, 24577][d]
  }

  function DistExtra(d: nat): nat
    requires d <= 29
  {
    [0, 0, 0, 0, 1, 1, 2, 2, 3, 3, 4, 4, 5, 5, 6, 6, 7, 7, 8, 8, 9, 9, 10, 10, 11, 11, 12, 12, 13, 13][d]
  }

  /** The order in which the code length code is sent. */
  function Order(i: nat): (r: nat)
    requires i < 19
    ensures r < 19
  {
    [16, 17, 18, 0, 8, 7, 9, 6, 10, 5, 11, 4, 12, 3, 13, 2, 14, 1, 15][i]
  }

  function FixedLit(): Lengths {
    seq(288, i => if i < 144 then 8 else if i < 256 then 9 else if i < 280 then 7 else 8)
  }

  function FixedDist(): Lengths { seq(32, _ => 5) }

  // ----- numbers and symbols

  /** An `n`-bit number, least significant bit first. */
  function Number(bs: seq<bool>, n: nat): (r: Parse<nat>)
    ensures r.Good? ==> |r.rest| == |bs| - n
  {
    if |bs| < n then Bad(Truncated) else Good(LsbFirst(bs[..n]), bs[n..])
  }

  /** How the data is read: which bits a stored block skips to reach a byte boundary, and
      whether bits that no code begins are read as symbol 0. */
  datatype Rules = Rules(pad: nat -> nat, lenient: bool)

  /** The next symbol of a code. */
  ghost function Symbol(lenient: bool, lens: Lengths, bs: seq<bool>): (r: Parse<nat>)
    ensures r.Good? ==> |r.rest| < |bs|
    ensures r.Good? && r.value != 0 ==> r.value < |lens| && 1 <= lens[r.value] <= 15 && |r.rest| + lens[r.value] == |bs|
  {
    match Decode(lens, bs, 1)
    case Some((s, n)) => Good(s, bs[n..])
    case None =>
      if |bs| < 15 then Bad(Truncated)
      else if lenient then Good(0, bs[Gap(lens, LsbFirst(bs[..8]))..])
      else Bad(Unassigned)
  }

  // ----- section 3.2.7, dynamic Huffman codes

  function Repeat(x: nat, n: nat): (r: seq<nat>)
    ensures |r| == n
  {
    seq(n, _ => x)
  }

  /** The lengths of the code length code, three bits each, in `Order`. */
  function CodeLengthCode(bs: seq<bool>, i: nat, n: nat, cl: Lengths): (r: Parse<Lengths>)
    requires n <= 19 == |cl|
    ensures r.Good? ==> |r.value| == 19 && |r.rest| <= |bs|
    decreases n - i
  {
    if i >= n then Good(cl, bs) else
      var (x, r) :- Number(bs, 3);
      CodeLengthCode(r, i + 1, n, cl[Order(i) := x])
  }

  /** The value and the number of the code lengths that symbol `v` stands for, after
      those in `acc`. */
  function Run(v: nat, acc: Lengths, bs: seq<bool>): (r: Parse<(nat, nat)>)
    ensures r.Good? ==> |r.rest| <= |bs| && 1 <= r.value.1
  {
    if v < 16 then Good((v, 1), bs)
    else if v == 16 then
      if acc == [] then Bad(NoPrevious) else
        var (x, r) :- Number(bs, 2);
        Good((acc[|acc| - 1], 3 + x), r)
    else if v == 17 then
      var (x, r) :- Number(bs, 3);
      Good((0, 3 + x), r)
    else if v == 18 then
      var (x, r) :- Number(bs, 7);
      Good((0, 11 + x), r)
    else Bad(BadSymbol)
  }

  /** Code lengths, compressed with the code length code. */
  ghost function CodeLengths(lenient: bool, cl: Lengths, n: nat, bs: seq<bool>, acc: Lengths): (r: Parse<Lengths>)
    ensures r.Good? ==> |r.value| == n && |r.rest| <= |bs|
    decreases |bs|
  {
    if |acc| > n then Bad(TooManyLengths)
    else if |acc| == n then Good(acc, bs)
    else
      var (v, r) :- Symbol(lenient, cl, bs);
      var (run, r2) :- Run(v, acc, r);
      CodeLengths(lenient, cl, n, r2, acc + Repeat(run.0, run.1))
  }

  datatype Counts = Counts(nlit: nat, ndist: nat, nclen: nat)

  /** How many codes of each kind a dynamic block defines. */
  function ReadCounts(bs: seq<bool>): (r: Parse<Counts>)
    ensures r.Good? ==> |r.rest| <= |bs| && r.value.nclen <= 19
  {
    var (hlit, r1) :- Number(bs, 5);
    var (hdist, r2) :- Number(r1, 5);
    var (hclen, r3) :- Number(r2, 4);
    LsbFirstFits(r2[..4]);
    assert Pow2(4) == 16;
    Good(Counts(hlit + 257, hdist + 1, hclen + 4), r3)
  }

  /** All code lengths of a dynamic block. */
  ghost function AllLengths(lenient: bool, c: Counts, bs: seq<bool>): (r: Parse<Lengths>)
    requires c.nclen <= 19
    ensures r.Good? ==> |r.value| == c.nlit + c.ndist && |r.rest| <= |bs|
  {
    var (cl, r) :- CodeLengthCode(bs, 0, c.nclen, Repeat(0, 19));
    if !Kraft(cl) then Bad(Oversubscribed(cl)) else CodeLengths(lenient, cl, c.nlit + c.ndist, r, [])
  }

  /** The two codes of a dynamic block. */
  ghost function DynamicCodes(lenient: bool, bs: seq<bool>): (r: Parse<(Lengths, Lengths)>)
    ensures r.Good? ==> |r.rest| <= |bs|
  {
    var (c, r1) :- ReadCounts(bs);
    if c.nlit > 286 then Bad(BadHeader) else
      var (all, r2) :- AllLengths(lenient, c, r1);
      var lit, dist := all[..c.nlit], all[c.nlit..];
      if !Kraft(lit) then Bad(Oversubscribed(lit))
      else if !Kraft(dist) then Bad(Oversubscribed(dist))
      else Good((lit, dist), r2)
  }

  // ----- section 3.2.5, compressed blocks

  /** A match copies one byte at a time, so it may overlap what it writes. */
  function Copy(out: seq<byte>, len: nat, dist: nat): (r: seq<byte>)
    requires 1 <= dist <= |out|
    ensures |r| == |out| + len && r[..|out|] == out
    decreases len
  {
    if len == 0 then out else Copy(out + [out[|out| - dist]], len - 1, dist)
  }

  /** The length of the code that ends a block. */
  function EndCode(lit: Lengths): nat { if |lit| <= 256 then 0 else lit[256] }

  /** The length and distance that follow length symbol `s`. */
  ghost function LengthDistance(lenient: bool, dist: Lengths, s: nat, bs: seq<bool>): (r: Parse<(nat, nat)>)
    requires 257 <= s
    ensures r.Good? ==> |r.rest| <= |bs| && 1 <= r.value.1
  {
    hide LengthBase, LengthExtra, DistBase, DistExtra;
    if s > 285 then Bad(BadSymbol) else
      var (x, r1) :- Number(bs, LengthExtra(s));
      var (d, r2) :- Symbol(lenient, dist, r1);
      if d > 29 then Bad(BadSymbol) else
        var (y, r3) :- Number(r2, DistExtra(d));
        Good((LengthBase(s) + x, DistBase(d) + y), r3)
  }

  /** Literals and matches up to the end of the block. */
  ghost function Symbols(lenient: bool, lit: Lengths, dist: Lengths, bs: seq<bool>, out: seq<byte>)
      : (r: Parse<seq<byte>>)
    ensures r.Good? ==> |r.rest| + EndCode(lit) <= |bs| && 1 <= EndCode(lit) <= 15 && |out| <= |r.value|
    decreases |bs|
  {
    var (s, r) :- Symbol(lenient, lit, bs);
    if s < 256 then Symbols(lenient, lit, dist, r, out + [s])
    else if s == 256 then Good(out, r)
    else
      var (ld, r2) :- LengthDistance(lenient, dist, s, r);
      if ld.1 > |out| then Bad(TooFar) else Symbols(lenient, lit, dist, r2, Copy(out, ld.0, ld.1))
  }

  // ----- section 3.2.4, stored blocks, and section 3.2.3, the block header

  /** RFC 1951: a stored block skips the bits left in the current byte. */
  function RfcPadding(left: nat): nat { left % 8 }

  /** The rules of RFC 1951. */
  const RFC: Rules := Rules(RfcPadding, false)

  /** Length, its complement and that many bytes. */
  function StoredData(bs: seq<bool>, out: seq<byte>): (r: Parse<seq<byte>>)
    ensures r.Good? ==> |r.rest| <= |bs| && |out| <= |r.value|
  {
    var (len, r1) :- Number(bs, 16);
    var (nlen, r2) :- Number(r1, 16);
    if nlen != 65535 - len then Bad(StoredMismatch)
    else TakeBytes(r2, len, out)
  }

  function TakeBytes(bs: seq<bool>, len: nat, out: seq<byte>): (r: Parse<seq<byte>>)
    ensures r.Good? ==> |r.rest| <= |bs| && |out| <= |r.value|
  {
    if |bs| < 8 * len then Bad(Truncated) else Good(out + BitsToBytes(bs[..8 * len]), bs[8 * len..])
  }

  function Stored(pad: nat -> nat, bs: seq<bool>, out: seq<byte>): (r: Parse<seq<byte>>)
    ensures r.Good? ==> |r.rest| <= |bs| && |out| <= |r.value|
  {
    if |bs| < pad(|bs|) then Bad(Truncated) else StoredData(bs[pad(|bs|)..], out)
  }

  /** The data of a block of type `t`. */
  ghost function Block(rules: Rules, t: nat, bs: seq<bool>, out: seq<byte>): (r: Parse<seq<byte>>)
    ensures r.Good? ==> |r.rest| <= |bs| && |out| <= |r.value|
  {
    if t == 0 then Stored(rules.pad, bs, out)
    else if t == 1 then Symbols(rules.lenient, FixedLit(), FixedDist(), bs, out)
    else if t == 2 then
      var (codes, r) :- DynamicCodes(rules.lenient, bs);
      Symbols(rules.lenient, codes.0, codes.1, r, out)
    else Bad(ReservedType)
  }

  /** Blocks up to the one marked last. */
  ghost function Blocks(rules: Rules, bs: seq<bool>, out: seq<byte>): (r: Parse<seq<byte>>)
    ensures r.Good? ==> |r.rest| < |bs| && |out| <= |r.value|
    decreases |bs|
  {
    var (last, r1) :- Number(bs, 1);
    var (t, r2) :- Number(r1, 2);
    var (out', r3) :- Block(rules, t, r2, out);
    if last == 1 then Good(out', r3) else Blocks(rules, r3, out')
  }
  // ----- how the last block ends

  /** The length of the code that ends a block of type `t`; a stored block has none. */
  ghost function EndLength(rules: Rules, t: nat, bs: seq<bool>, out: seq<byte>): (n: nat)
    requires Block(rules, t, bs, out).Good?
    ensures n <= 15 && (n == 0 <==> t == 0) && |Block(rules, t, bs, out).rest| + n <= |bs|
  {
    hide FixedLit, FixedDist, Stored, DynamicCodes;
    if t == 0 then 0 else EndCode(if t == 1 then FixedLit() else DynamicCodes(rules.lenient, bs).value.0)
  }

  /** How many bits are left where the last block reads its last symbol, or its header when
      it is stored. */
  ghost function LastFetch(rules: Rules, bs: seq<bool>, out: seq<byte>): (n: nat)
    requires Blocks(rules, bs, out).Good?
    ensures n <= |bs|
    decreases |bs|
  {
    hide Block;
    var h := Number(bs, 1);
    var t := Number(h.rest, 2);
    var b := Block(rules, t.value, t.rest, out);
    if h.value != 1 then LastFetch(rules, b.rest, b.value)
    else if t.value == 0 then |bs|
    else |b.rest| + EndLength(rules, t.value, t.rest, out)
  }

  /** The length of the code that ends the last block. */
  ghost function LastEnd(rules: Rules, bs: seq<bool>, out: seq<byte>): (n: nat)
    requires Blocks(rules, bs, out).Good?
    ensures n <= 15
    decreases |bs|
  {
    hide Block;
    var h := Number(bs, 1);
    var t := Number(h.rest, 2);
    var b := Block(rules, t.value, t.rest, out);
    if h.value == 1 then EndLength(rules, t.value, t.rest, out) else LastEnd(rules, b.rest, b.value)
  }
}
