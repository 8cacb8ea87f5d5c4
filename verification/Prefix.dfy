/** A good reading depends only on the bits it consumes: the bits behind them may be
    dropped, in whole bytes. */
module Prefix {
  import opened Bits
  import opened Bytes
  import opened Canonical
  import opened Deflate

  /** The reading `q` of some bits with `t` behind them is the reading `p` of the bits alone. */
  ghost predicate Extends<T(!new)>(p: Parse<T>, q: Parse<T>, t: seq<bool>) {
    p.Good? && q.Good? && p.value == q.value && q.rest == p.rest + t
  }

  /** The reading ends at or before `t`. */
  ghost predicate Spares<T(!new)>(q: Parse<T>, t: seq<bool>) { q.Good? && |t| <= |q.rest| }

  lemma {:induction false} NumberCut(bs: seq<bool>, n: nat, t: seq<bool>)
    requires Spares(Number(bs + t, n), t)
    ensures Extends(Number(bs, n), Number(bs + t, n), t)
  {
    hide LsbFirst;
    assert (bs + t)[..n] == bs[..n] && (bs + t)[n..] == bs[n..] + t;
  }

  /** Different symbols have different codes. */
  lemma {:induction false} CodeUnique(lens: Lengths, s: nat, u: nat, word: seq<bool>)
    requires IsCode(lens, s, word) && IsCode(lens, u, word)
    ensures s == u
  {
    SelRank(lens, s);
    SelRank(lens, u);
  }

  lemma {:induction false} DecodeCut(lens: Lengths, bs: seq<bool>, t: seq<bool>, j: nat)
    requires Decode(lens, bs + t, j).Some? && Decode(lens, bs + t, j).value.1 <= |bs|
    ensures Decode(lens, bs, j) == Decode(lens, bs + t, j)
    decreases 16 - j
  {
    hide IsCode;
    assert (bs + t)[..j] == bs[..j];
    if exists s :: IsCode(lens, s, bs[..j]) {
      CodeUnique(lens, Decode(lens, bs, j).value.0, Decode(lens, bs + t, j).value.0, bs[..j]);
    } else {
      DecodeCut(lens, bs, t, j + 1);
    }
  }

  lemma {:induction false} SymbolCut(lens: Lengths, bs: seq<bool>, t: seq<bool>)
    requires Spares(Symbol(false, lens, bs + t), t)
    ensures Extends(Symbol(false, lens, bs), Symbol(false, lens, bs + t), t)
  {
    hide Decode;
    DecodeCut(lens, bs, t, 1);
    var n := Decode(lens, bs, 1).value.1;
    assert (bs + t)[n..] == bs[n..] + t;
  }

  // ----- dynamic headers

  lemma {:induction false} CodeLengthCodeCut(bs: seq<bool>, i: nat, n: nat, cl: Lengths, t: seq<bool>)
    requires n <= 19 == |cl| && Spares(CodeLengthCode(bs + t, i, n, cl), t)
    ensures Extends(CodeLengthCode(bs, i, n, cl), CodeLengthCode(bs + t, i, n, cl), t)
    decreases n - i
  {
    hide Order, Number;
    if i < n {
      NumberCut(bs, 3, t);
      var p := Number(bs, 3);
      CodeLengthCodeCut(p.rest, i + 1, n, cl[Order(i) := p.value], t);
    }
  }

  lemma {:induction false} RunCut(v: nat, acc: Lengths, bs: seq<bool>, t: seq<bool>)
    requires Spares(Run(v, acc, bs + t), t)
    ensures Extends(Run(v, acc, bs), Run(v, acc, bs + t), t)
  {
    hide Number;
    if v >= 16 { NumberCut(bs, if v == 16 then 2 else if v == 17 then 3 else 7, t); }
  }

  lemma {:induction false} CodeLengthsCut(cl: Lengths, n: nat, bs: seq<bool>, acc: Lengths, t: seq<bool>)
    requires Spares(CodeLengths(false, cl, n, bs + t, acc), t)
    ensures Extends(CodeLengths(false, cl, n, bs, acc), CodeLengths(false, cl, n, bs + t, acc), t)
    decreases |bs|
  {
    hide Symbol, Run;
    if |acc| < n {
      SymbolCut(cl, bs, t);
      var p := Symbol(false, cl, bs);
      RunCut(p.value, acc, p.rest, t);
      var q := Run(p.value, acc, p.rest);
      CodeLengthsCut(cl, n, q.rest, acc + Repeat(q.value.0, q.value.1), t);
    }
  }

  lemma {:induction false} CountsCut(bs: seq<bool>, t: seq<bool>)
    requires Spares(ReadCounts(bs + t), t)
    ensures Extends(ReadCounts(bs), ReadCounts(bs + t), t)
  {
    hide Number;
    NumberCut(bs, 5, t);
    var a := Number(bs, 5);
    NumberCut(a.rest, 5, t);
    var b := Number(a.rest, 5);
    NumberCut(b.rest, 4, t);
  }

  lemma {:induction false} AllLengthsCut(c: Counts, bs: seq<bool>, t: seq<bool>)
    requires c.nclen <= 19 && Spares(AllLengths(false, c, bs + t), t)
    ensures Extends(AllLengths(false, c, bs), AllLengths(false, c, bs + t), t)
  {
    hide CodeLengthCode, CodeLengths, Kraft;
    CodeLengthCodeCut(bs, 0, c.nclen, Repeat(0, 19), t);
    var p := CodeLengthCode(bs, 0, c.nclen, Repeat(0, 19));
    CodeLengthsCut(p.value, c.nlit + c.ndist, p.rest, [], t);
  }

  lemma {:induction false} DynamicCut(bs: seq<bool>, t: seq<bool>)
    requires Spares(DynamicCodes(false, bs + t), t)
    ensures Extends(DynamicCodes(false, bs), DynamicCodes(false, bs + t), t)
  {
    hide ReadCounts, AllLengths, Kraft;
    CountsCut(bs, t);
    var p := ReadCounts(bs);
    AllLengthsCut(p.value, p.rest, t);
  }

  // ----- blocks

  lemma {:induction false} MatchCut(dist: Lengths, s: nat, bs: seq<bool>, t: seq<bool>)
    requires 257 <= s && Spares(LengthDistance(false, dist, s, bs + t), t)
    ensures Extends(LengthDistance(false, dist, s, bs), LengthDistance(false, dist, s, bs + t), t)
  {
    hide Number, Symbol, LengthBase, LengthExtra, DistBase, DistExtra;
    NumberCut(bs, LengthExtra(s), t);
    var p := Number(bs, LengthExtra(s));
    SymbolCut(dist, p.rest, t);
    var q := Symbol(false, dist, p.rest);
    NumberCut(q.rest, DistExtra(q.value), t);
  }

  lemma {:induction false} SymbolsCut(lit: Lengths, dist: Lengths, bs: seq<bool>, out: seq<byte>, t: seq<bool>)
    requires Spares(Symbols(false, lit, dist, bs + t, out), t)
    ensures Extends(Symbols(false, lit, dist, bs, out), Symbols(false, lit, dist, bs + t, out), t)
    decreases |bs|
  {
    hide Symbol, LengthDistance, Copy;
    SymbolCut(lit, bs, t);
    var p := Symbol(false, lit, bs);
    if p.value < 256 {
      SymbolsCut(lit, dist, p.rest, out + [p.value], t);
    } else if p.value > 256 {
      MatchCut(dist, p.value, p.rest, t);
      var q := LengthDistance(false, dist, p.value, p.rest);
      SymbolsCut(lit, dist, q.rest, Copy(out, q.value.0, q.value.1), t);
    }
  }

  lemma {:induction false} BytesCut(bs: seq<bool>, len: nat, out: seq<byte>, t: seq<bool>)
    requires Spares(TakeBytes(bs + t, len, out), t)
    ensures Extends(TakeBytes(bs, len, out), TakeBytes(bs + t, len, out), t)
  {
    hide BitsToBytes;
    assert (bs + t)[..8 * len] == bs[..8 * len] && (bs + t)[8 * len..] == bs[8 * len..] + t;
  }

  lemma {:induction false} StoredDataCut(bs: seq<bool>, out: seq<byte>, t: seq<bool>)
    requires Spares(StoredData(bs + t, out), t)
    ensures Extends(StoredData(bs, out), StoredData(bs + t, out), t)
  {
    hide Number, TakeBytes;
    NumberCut(bs, 16, t);
    var p := Number(bs, 16);
    NumberCut(p.rest, 16, t);
    var q := Number(p.rest, 16);
    BytesCut(q.rest, p.value, out, t);
  }

  lemma {:induction false} StoredCut(bs: seq<bool>, out: seq<byte>, t: seq<bool>)
    requires |t| % 8 == 0 && Spares(Stored(RfcPadding, bs + t, out), t)
    ensures Extends(Stored(RfcPadding, bs, out), Stored(RfcPadding, bs + t, out), t)
  {
    hide StoredData;
    var n := RfcPadding(|bs|);
    assert RfcPadding(|bs + t|) == n && (bs + t)[n..] == bs[n..] + t;
    StoredDataCut(bs[n..], out, t);
  }

  lemma {:induction false} BlockCut(y: nat, bs: seq<bool>, out: seq<byte>, t: seq<bool>)
    requires |t| % 8 == 0 && Spares(Block(RFC, y, bs + t, out), t)
    ensures Extends(Block(RFC, y, bs, out), Block(RFC, y, bs + t, out), t)
  {
    hide Stored, Symbols, DynamicCodes, FixedLit, FixedDist;
    if y == 0 {
      StoredCut(bs, out, t);
    } else if y == 1 {
      SymbolsCut(FixedLit(), FixedDist(), bs, out, t);
    } else {
      DynamicCut(bs, t);
      var p := DynamicCodes(false, bs);
      SymbolsCut(p.value.0, p.value.1, p.rest, out, t);
    }
  }

  /** Dropping whole bytes behind the last block leaves its data. */
  lemma {:induction false} BlocksCut(bs: seq<bool>, out: seq<byte>, t: seq<bool>)
    requires |t| % 8 == 0 && Spares(Blocks(RFC, bs + t, out), t)
    ensures Extends(Blocks(RFC, bs, out), Blocks(RFC, bs + t, out), t)
    decreases |bs|
  {
    hide Number, Block;
    NumberCut(bs, 1, t);
    var h := Number(bs, 1);
    NumberCut(h.rest, 2, t);
    var y := Number(h.rest, 2);
    BlockCut(y.value, y.rest, out, t);
    var b := Block(RFC, y.value, y.rest, out);
    if h.value != 1 { BlocksCut(b.rest, b.value, t); }
  }
}
