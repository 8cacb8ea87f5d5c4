/** When the decoder's reading is that of RFC 1951: no stored block header that ends
    on a byte boundary, and no bits that no code begins. */
module Conformance {
  import opened Bits
  import opened Bytes
  import opened Canonical
  import opened Deflate
  import opened HuffmanTable
  import opened BitReader
  import opened FixedCodes
  import opened Inflate
  import opened StoredBlock
  import opened Prefix
  import opened ZlibStream

  /** Data that breaks one of the two rules this decoder does not check. */
  ghost predicate Flawed<T>(p: Parse<T>) { p.Bad? && (p.flaw == Unassigned || p.flaw.Oversubscribed?) }

  // ----- complete codes

  /** A complete code never meets an unassigned bit pattern. */
  lemma {:induction false} SymbolAssigned(lens: Lengths, bs: seq<bool>)
    requires Valid(lens) && Complete(lens)
    ensures !Flawed(Symbol(false, lens, bs))
  {
    hide Decode, ToBits, LsbFirst, KraftSum;
    if 15 <= |bs| {
      var w := LsbFirst(bs[..15]);
      ToBitsOfLsb(bs[..15]);
      var s := CompleteMatches(lens, w);
      DecodeFinds(lens, s, w, bs, 1);
    }
  }

  lemma {:induction false} LengthDistanceAssigned(dist: Lengths, s: nat, bs: seq<bool>)
    requires 257 <= s && Valid(dist) && Complete(dist)
    ensures !Flawed(LengthDistance(false, dist, s, bs))
  {
    hide Symbol, KraftSum, LengthBase, LengthExtra, DistBase, DistExtra;
    if s <= 285 && Number(bs, LengthExtra(s)).Good? {
      SymbolAssigned(dist, Number(bs, LengthExtra(s)).rest);
    }
  }

  lemma {:induction false} SymbolsAssigned(lit: Lengths, dist: Lengths, bs: seq<bool>, out: seq<byte>)
    requires Valid(lit) && Complete(lit) && Valid(dist) && Complete(dist)
    ensures !Flawed(Symbols(false, lit, dist, bs, out))
    decreases |bs|
  {
    hide Symbol, KraftSum, LengthDistance, Copy;
    SymbolAssigned(lit, bs);
    var p := Symbol(false, lit, bs);
    if p.Good? {
      if p.value < 256 {
        SymbolsAssigned(lit, dist, p.rest, out + [p.value]);
      } else if p.value > 256 {
        LengthDistanceAssigned(dist, p.value, p.rest);
        var q := LengthDistance(false, dist, p.value, p.rest);
        if q.Good? && q.value.1 <= |out| {
          SymbolsAssigned(lit, dist, q.rest, Copy(out, q.value.0, q.value.1));
        }
      }
    }
  }

  // ----- dynamic headers

  lemma {:induction false} CodeLengthsAssigned(cl: Lengths, n: nat, bs: seq<bool>, acc: Lengths)
    requires Valid(cl) && Complete(cl)
    ensures !Flawed(CodeLengths(false, cl, n, bs, acc))
    decreases |bs|
  {
    hide Symbol, KraftSum, LsbFirst;
    SymbolAssigned(cl, bs);
    var p := Symbol(false, cl, bs);
    if |acc| < n && p.Good? {
      var q := Run(p.value, acc, p.rest);
      if q.Good? { CodeLengthsAssigned(cl, n, q.rest, acc + Repeat(q.value.0, q.value.1)); }
    }
  }

  /** The three codes of a dynamic block are complete. */
  ghost predicate ProperHeader(bs: seq<bool>) {
    match ReadCounts(bs)
    case Bad(_) => true
    case Good(c, r1) =>
      match CodeLengthCode(r1, 0, c.nclen, Repeat(0, 19))
      case Bad(_) => true
      case Good(cl, r2) =>
        && Complete(cl)
        && match CodeLengths(false, cl, c.nlit + c.ndist, r2, [])
           case Bad(_) => true
           case Good(all, _) => Complete(all[..c.nlit]) && Complete(all[c.nlit..])
  }

  lemma {:induction false} HeaderProper(bs: seq<bool>)
    requires ProperHeader(bs)
    ensures var r := DynamicCodes(false, bs);
      && !Flawed(r)
      && (r.Good? ==> Valid(r.value.0) && Complete(r.value.0) && Valid(r.value.1) && Complete(r.value.1))
  {
    hide CodeLengthCode, CodeLengths, KraftSum;
    var h := ReadCounts(bs);
    if h.Good? {
      var p := CodeLengthCode(h.rest, 0, h.value.nclen, Repeat(0, 19));
      CodeLengthCodeNeeds(h.rest, h.value.nclen);
      CodeLengthCodeClean(h.rest, 0, h.value.nclen, Repeat(0, 19));
      if p.Good? {
        CodeLengthsAssigned(p.value, h.value.nlit + h.value.ndist, p.rest, []);
        CodeLengthsValid(false, p.value, h.value.nlit + h.value.ndist, p.rest, []);
      }
    }
  }

  lemma {:induction false} CodeLengthCodeClean(bs: seq<bool>, i: nat, n: nat, cl: Lengths)
    requires n <= 19 == |cl|
    ensures !Flawed(CodeLengthCode(bs, i, n, cl))
    decreases n - i
  {
    hide Order, LsbFirst;
    if i < n && 3 <= |bs| {
      CodeLengthCodeClean(bs[3..], i + 1, n, cl[Order(i) := LsbFirst(bs[..3])]);
    }
  }

  // ----- whole streams

  /** No stored block header ends on a byte boundary. */
  ghost predicate Unaligned(bs: seq<bool>, out: seq<byte>)
    decreases |bs|
  {
    |bs| < 3 ||
    var t, r := LsbFirst(bs[1..3]), bs[3..];
    && (t == 0 ==> |r| % 8 != 0)
    && match Block(RFC, t, r, out)
       case Bad(_) => true
       case Good(out', r') => bs[0] || Unaligned(r', out')
  }

  /** Where RFC 1951 finds a code in front of the bits, so does the decoder, and likewise
      for everything that is read through codes. */
  lemma SymbolSame(lens: Lengths, bs: seq<bool>)
    ensures Symbol(false, lens, bs) != Bad(Unassigned) ==> Symbol(true, lens, bs) == Symbol(false, lens, bs)
  {
    hide Decode, LsbFirst;
  }

  lemma {:induction false} LengthDistanceSame(dist: Lengths, s: nat, bs: seq<bool>)
    requires 257 <= s
    ensures LengthDistance(false, dist, s, bs) != Bad(Unassigned) ==>
      LengthDistance(true, dist, s, bs) == LengthDistance(false, dist, s, bs)
  {
    hide Symbol, LengthBase, LengthExtra, DistBase, DistExtra;
    if s <= 285 && Number(bs, LengthExtra(s)).Good? {
      SymbolSame(dist, Number(bs, LengthExtra(s)).rest);
    }
  }

  lemma {:induction false} SymbolsSame(lit: Lengths, dist: Lengths, bs: seq<bool>, out: seq<byte>)
    requires Symbols(false, lit, dist, bs, out) != Bad(Unassigned)
    ensures Symbols(true, lit, dist, bs, out) == Symbols(false, lit, dist, bs, out)
    decreases |bs|
  {
    hide Symbol, LengthDistance, Copy;
    SymbolSame(lit, bs);
    var p := Symbol(false, lit, bs);
    if p.Good? {
      if p.value < 256 {
        SymbolsSame(lit, dist, p.rest, out + [p.value]);
      } else if p.value > 256 {
        LengthDistanceSame(dist, p.value, p.rest);
        var q := LengthDistance(false, dist, p.value, p.rest);
        if q.Good? && q.value.1 <= |out| {
          SymbolsSame(lit, dist, q.rest, Copy(out, q.value.0, q.value.1));
        }
      }
    }
  }

  lemma {:induction false} CodeLengthsSame(cl: Lengths, n: nat, bs: seq<bool>, acc: Lengths)
    requires CodeLengths(false, cl, n, bs, acc) != Bad(Unassigned)
    ensures CodeLengths(true, cl, n, bs, acc) == CodeLengths(false, cl, n, bs, acc)
    decreases |bs|
  {
    hide Symbol, Run;
    SymbolSame(cl, bs);
    var p := Symbol(false, cl, bs);
    if |acc| < n && p.Good? {
      var q := Run(p.value, acc, p.rest);
      if q.Good? { CodeLengthsSame(cl, n, q.rest, acc + Repeat(q.value.0, q.value.1)); }
    }
  }

  lemma {:induction false} DynamicSame(bs: seq<bool>)
    requires DynamicCodes(false, bs) != Bad(Unassigned)
    ensures DynamicCodes(true, bs) == DynamicCodes(false, bs)
  {
    hide CodeLengthCode, CodeLengths, Kraft;
    var h := ReadCounts(bs);
    if h.Good? && h.value.nlit <= 286 {
      var p := CodeLengthCode(h.rest, 0, h.value.nclen, Repeat(0, 19));
      if p.Good? && Kraft(p.value) { CodeLengthsSame(p.value, h.value.nlit + h.value.ndist, p.rest, []); }
    }
  }

  lemma {:induction false} BlockSame(t: nat, bs: seq<bool>, out: seq<byte>)
    requires (t == 0 ==> |bs| % 8 != 0) && Block(RFC, t, bs, out) != Bad(Unassigned)
    ensures Block(CODE, t, bs, out) == Block(RFC, t, bs, out)
  {
    hide Symbols, DynamicCodes, Stored, FixedLit, FixedDist;
    if t == 0 {
      PaddingExact(bs, out);
    } else if t == 1 {
      SymbolsSame(FixedLit(), FixedDist(), bs, out);
    } else if t == 2 {
      DynamicSame(bs);
      var d := DynamicCodes(false, bs);
      if d.Good? { SymbolsSame(d.value.0, d.value.1, d.rest, out); }
    }
  }

  /** The header of a block, bit by bit. */
  lemma HeaderBits(bs: seq<bool>)
    requires 3 <= |bs|
    ensures bs[1..][..2] == bs[1..3] && bs[1..][2..] == bs[3..] && (LsbFirst(bs[..1]) == 1 <==> bs[0])
  {}

  /** Then the decoder reads what RFC 1951 reads, unless that meets bits no code begins. */
  lemma {:induction false} BlocksSame(bs: seq<bool>, out: seq<byte>)
    requires Unaligned(bs, out) && Blocks(RFC, bs, out) != Bad(Unassigned)
    ensures Blocks(CODE, bs, out) == Blocks(RFC, bs, out)
    decreases |bs|
  {
    hide Block;
    if 3 <= |bs| {
      var t, r := LsbFirst(bs[1..3]), bs[3..];
      HeaderBits(bs);
      BlockSame(t, r, out);
      var b := Block(RFC, t, r, out);
      if b.Good? && !bs[0] { BlocksSame(b.rest, b.value); }
    }
  }

  /** Valid data that ends before byte `m` is the data of the bytes before `m` alone. */
  lemma {:induction false} DataBefore(input: seq<byte>, m: nat)
    requires 2 <= m <= |input|
    requires var b := Blocks(RFC, BytesToBits(input[2..]), []);
      b.Good? && Consumed(input, b.rest) <= 8 * m
    ensures var b := Blocks(RFC, BytesToBits(input[2..]), []);
      var d := Blocks(RFC, BytesToBits(input[2..m]), []);
      d.Good? && d.value == b.value && |d.rest| == 8 * m - Consumed(input, b.rest)
  {
    hide Blocks, BytesToBits;
    assert input[2..] == input[2..m] + input[m..];
    BytesAppend(input[2..m], input[m..]);
    BlocksCut(BytesToBits(input[2..m]), [], BytesToBits(input[m..]));
  }

  /** The bytes between the header and the checksum are deflate data for `out`, to the
      last byte. */
  ghost predicate Exactly(input: seq<byte>, end: nat, out: seq<byte>) {
    && 6 <= end <= |input|
    && var d := Blocks(RFC, BytesToBits(input[2..end - 4]), []); d.Good? && d.value == out && |d.rest| < 8
  }

  /** Success on one zlib stream without a stored block header on a byte boundary:
      RFC 1951 accepts the stream if and only if it meets neither bits that no code
      begins nor an oversubscribed code with a one-bit symbol 0, and then gives the same
      output. Data that ends in the last byte before the checksum needs nothing behind it. */
  lemma {:induction false} InflateSound(input: seq<byte>, end: nat, base: nat, out: seq<byte>)
    requires 4 < end && end + 3 <= |input| && Inflated(input, end, base, out)
    requires Unaligned(BytesToBits(input[2..]), [])
    ensures var b := Blocks(RFC, BytesToBits(input[2..]), []);
      && (b.Good? <==> b != Bad(Unassigned) && !Excused(b))
      && (b.Good? && Consumed(input, b.rest) > 8 * (end - 5) ==> b.value == out)
      && (b.Good? && 8 * (end - 5) < Consumed(input, b.rest) <= 8 * (end - 4) ==> Exactly(input, end, out))
  {
    hide Blocks, Unaligned, BytesToBits, Inflated, Marked;
    FirstStream(input, end, base, out);
    var b := Blocks(RFC, BytesToBits(input[2..]), []);
    if b != Bad(Unassigned) { BlocksSame(BytesToBits(input[2..]), []); }
    if b.Good? && 8 * (end - 5) < Consumed(input, b.rest) <= 8 * (end - 4) { DataBefore(input, end - 4); }
  }

  /** With a single code of one bit, a set bit is no code. RFC 1951 stops there, the
      decoder reads symbol 0. */
  lemma {:induction false} UnassignedRead(u: seq<bool>)
    requires 15 <= |u| && u[0]
    ensures Symbol(false, [1], u) == Bad(Unassigned) && Symbol(true, [1], u) == Good(0, u[1..])
  {
    hide Decode, ToBits;
    var val := LsbFirst(u[..15]);
    ToBitsOfLsb(u[..15]);
    OneCode(val);
    DecodeMisses([1], val, u, 1);
  }

  lemma OneCode(val: nat)
    requires val % 2 == 1
    ensures Valid([1]) && forall s: nat :: !Match([1], s, val)
  {
    forall s: nat ensures !Match([1], s, val) {
      if s == 0 {
        assert Count([1], 0) == 0 && NextCode([1], 1) == 0;
        assert CodeOf([1], 0) == 0;
      }
    }
  }

  /** All codes of the dynamic blocks are complete. */
  ghost predicate CompleteCodes(bs: seq<bool>, out: seq<byte>)
    decreases |bs|
  {
    |bs| < 3 ||
    var t, r := LsbFirst(bs[1..3]), bs[3..];
    && (t == 2 ==> ProperHeader(r))
    && match Block(RFC, t, r, out)
       case Bad(_) => true
       case Good(out', r') => bs[0] || CompleteCodes(r', out')
  }

  lemma {:induction false} BlockAssigned(t: nat, bs: seq<bool>, out: seq<byte>)
    requires t == 2 ==> ProperHeader(bs)
    ensures !Flawed(Block(RFC, t, bs, out))
  {
    hide Symbols, DynamicCodes, KraftSum, FixedLit, FixedDist, BitsToBytes;
    if t == 1 {
      FixedComplete();
      SymbolsAssigned(FixedLit(), FixedDist(), bs, out);
    } else if t == 2 {
      HeaderProper(bs);
      var d := DynamicCodes(false, bs);
      if d.Good? { SymbolsAssigned(d.value.0, d.value.1, d.rest, out); }
    }
  }

  /** With complete codes RFC 1951 meets neither flaw. */
  lemma {:induction false} BlocksAssigned(bs: seq<bool>, out: seq<byte>)
    requires CompleteCodes(bs, out)
    ensures !Flawed(Blocks(RFC, bs, out))
    decreases |bs|
  {
    hide Block, ProperHeader;
    if 3 <= |bs| {
      var t, r := LsbFirst(bs[1..3]), bs[3..];
      HeaderBits(bs);
      BlockAssigned(t, r, out);
      var b := Block(RFC, t, r, out);
      if b.Good? && !bs[0] { BlocksAssigned(b.rest, b.value); }
    }
  }

  /** In particular with complete codes. */
  lemma {:induction false} InflateComplete(input: seq<byte>, end: nat, base: nat, out: seq<byte>)
    requires 4 < end && end + 3 <= |input| && Inflated(input, end, base, out)
    requires Unaligned(BytesToBits(input[2..]), []) && CompleteCodes(BytesToBits(input[2..]), [])
    ensures var b := Blocks(RFC, BytesToBits(input[2..]), []);
      && b.Good? && (Consumed(input, b.rest) > 8 * (end - 5) ==> b.value == out)
      && (8 * (end - 5) < Consumed(input, b.rest) <= 8 * (end - 4) ==> Exactly(input, end, out))
  {
    hide Blocks, Unaligned, CompleteCodes, BytesToBits, Inflated, Exactly, Marked;
    BlocksAssigned(BytesToBits(input[2..]), []);
    InflateSound(input, end, base, out);
  }
}
