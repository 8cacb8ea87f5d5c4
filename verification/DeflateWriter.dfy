/** A writer of DEFLATE data, section 3.2 of RFC 1951, and the proof that the reference reads
    back what it writes: blocks of all three types, with any codes, any division into matches
    and any runs of code lengths. */
module DeflateWriter {
  import opened Bits
  import opened Bytes
  import opened Canonical
  import opened Deflate
  import opened BitReader
  import opened Inflate
  import opened Prefix

  // ----- numbers and symbols

  lemma {:induction false} NumberRead(v: nat, n: nat, t: seq<bool>)
    requires v < Pow2(n)
    ensures Number(ToBits(v, n) + t, n) == Good(v, t)
  {
    hide ToBits, LsbFirst;
    var bs := ToBits(v, n) + t;
    assert bs[..n] == ToBits(v, n) && bs[n..] == t;
    LsbOfToBits(v, n);
    LowId(v, n);
  }

  /** The code of `s`, most significant bit first. */
  function CodeWord(lens: Lengths, s: nat): (w: seq<bool>)
    requires s < |lens|
    ensures |w| == lens[s]
  {
    ToBits(Rev(lens[s], CodeOf(lens, s)), lens[s])
  }

  /** A proper code in which `s` is used. */
  ghost predicate Uses(lens: Lengths, s: nat) { Valid(lens) && Kraft(lens) && s < |lens| && 0 < lens[s] }

  lemma {:induction false} WindowOfWord(lens: Lengths, s: nat, t: seq<bool>) returns (w: nat)
    requires Uses(lens, s) && 15 <= lens[s] + |t|
    ensures Match(lens, s, w) && (CodeWord(lens, s) + t)[..15] == ToBits(w, 15)
  {
    hide Rev, CodeOf, KraftSum, ToBits, LsbFirst;
    var bs := (CodeWord(lens, s) + t)[..15];
    w := LsbFirst(bs);
    ToBitsOfLsb(bs);
    var n, c := lens[s], CodeOf(lens, s);
    assert bs[..n] == CodeWord(lens, s);
    ToBitsLow(w, n, 15);
    LsbOfToBits(w, n);
    LsbOfToBits(Rev(n, c), n);
    LowId(Rev(n, c), n);
    RevLow(n, n, w);
    CodeFits(lens, s);
    LowId(c, n);
    RevRev(n, c);
  }

  /** The word of a symbol is read as that symbol, whatever follows. */
  lemma {:induction false} SymbolRead(lenient: bool, lens: Lengths, s: nat, t: seq<bool>)
    requires Uses(lens, s)
    ensures Symbol(lenient, lens, CodeWord(lens, s) + t) == Good(s, t)
  {
    hide Decode, CodeWord, KraftSum;
    var bs, zeros := CodeWord(lens, s) + t, seq(15, _ => false);
    assert bs + zeros == CodeWord(lens, s) + (t + zeros);
    var w := WindowOfWord(lens, s, t + zeros);
    DecodeFinds(lens, s, w, bs + zeros, 1);
    DecodeCut(lens, bs, zeros, 1);
    assert bs[lens[s]..] == t;
  }

  // ----- literals and matches

  datatype Token = Literal(b: byte) | Back(len: nat, dist: nat)

  lemma LongLengthForm(l: nat)
    ensures LongLength(l) ==
      3 + (if l % 4 == 0 then 4 else if l % 4 == 1 then 5 else if l % 4 == 2 then 6 else 7) * Pow2(l / 4 + 1)
  {
    hide Pow2;
    PowDouble(l / 4 + 1);
  }

  /** Lengths follow each other without a gap, up to 258. */
  lemma LengthStep(s: nat)
    requires 257 <= s < 284
    ensures LengthBase(s + 1) == LengthBase(s) + Pow2(LengthExtra(s))
  {
    hide LengthBase, LengthExtra, LongLength, Pow2;
    LengthTable(s);
    LengthTable(s + 1);
    PowTable(0);
    PowTable(1);
    if s >= 264 {
      var l := s - 264;
      LongLengthForm(l);
      if l > 0 {
        LongLengthForm(l - 1);
        PowDouble(l / 4 + 1);
      }
    }
  }

  lemma LongDistanceForm(d: nat)
    ensures LongDistance(d) == 1 + (if d % 2 == 0 then 2 else 3) * Pow2(d / 2 + 1)
  {
    hide Pow2;
    PowDouble(d / 2 + 1);
  }

  /** And so do distances, up to 32768. */
  lemma DistStep(d: nat)
    requires d < 29
    ensures DistBase(d + 1) == DistBase(d) + Pow2(DistExtra(d))
  {
    hide DistBase, DistExtra, LongDistance, Pow2;
    DistanceTable(d);
    DistanceTable(d + 1);
    PowTable(0);
    PowTable(1);
    if d >= 3 {
      var l := d - 3;
      LongDistanceForm(l);
      if l > 0 {
        LongDistanceForm(l - 1);
        PowDouble(l / 2 + 1);
      }
    }
  }

  lemma LastSteps()
    ensures LengthBase(257) == 3 && LengthBase(284) == 227 && Pow2(LengthExtra(284)) == 32
    ensures LengthBase(285) == 258 && Pow2(LengthExtra(285)) == 1
    ensures DistBase(0) == 1 && DistBase(29) == 24577 && Pow2(DistExtra(29)) == 8192
  {
    hide LengthBase, LengthExtra, LongLength, DistBase, DistExtra, LongDistance, Pow2;
    LengthTable(257);
    LengthTable(284);
    LengthTable(285);
    LongLengthForm(19);
    DistanceTable(0);
    DistanceTable(29);
    LongDistanceForm(25);
    PowTable(0);
    PowTable(5);
    PowTable(12);
    PowDouble(13);
  }

  lemma FirstLength()
    ensures LengthBase(257) == 3
  {
    LastSteps();
  }

  predicate LengthIn(len: nat, s: nat) {
    257 <= s <= 285 && LengthBase(s) <= len < LengthBase(s) + Pow2(LengthExtra(s))
  }

  predicate DistIn(dist: nat, d: nat) { d <= 29 && DistBase(d) <= dist < DistBase(d) + Pow2(DistExtra(d)) }

  /** The length symbol of a length. */
  function LengthSymbol(len: nat): (s: nat)
    requires 3 <= len <= 258
    ensures LengthIn(len, s)
  {
    hide LengthBase, LengthExtra, Pow2;
    LastSteps();
    if len == 258 then 285 else LengthFrom(len, 284)
  }

  function LengthFrom(len: nat, s: nat): (r: nat)
    requires 257 <= s <= 284 && 3 <= len < LengthBase(s) + Pow2(LengthExtra(s))
    ensures LengthIn(len, r)
  {
    hide LengthBase, LengthExtra, Pow2;
    FirstLength();
    if LengthBase(s) <= len then s else
      LengthStep(s - 1);
      LengthFrom(len, s - 1)
  }

  /** The distance symbol of a distance. */
  function DistSymbol(dist: nat): (d: nat)
    requires 1 <= dist <= 32768
    ensures DistIn(dist, d)
  {
    hide DistBase, DistExtra, Pow2;
    LastSteps();
    DistFrom(dist, 29)
  }

  function DistFrom(dist: nat, d: nat): (r: nat)
    requires d <= 29 && 1 <= dist < DistBase(d) + Pow2(DistExtra(d))
    ensures DistIn(dist, r)
  {
    hide DistBase, DistExtra, Pow2;
    LastSteps();
    if DistBase(d) <= dist then d else
      DistStep(d - 1);
      DistFrom(dist, d - 1)
  }

  // ----- tokens

  predicate Sized(tok: Token) { tok.Back? ==> 3 <= tok.len <= 258 && 1 <= tok.dist <= 32768 }

  /** The codes have words for the token. */
  ghost predicate Writable(lit: Lengths, dist: Lengths, tok: Token) {
    Sized(tok) &&
    match tok
    case Literal(b) => Uses(lit, b)
    case Back(len, d) => Uses(lit, LengthSymbol(len)) && Uses(dist, DistSymbol(d))
  }

  ghost function WriteToken(lit: Lengths, dist: Lengths, tok: Token): seq<bool>
    requires Writable(lit, dist, tok)
  {
    match tok
    case Literal(b) => CodeWord(lit, b)
    case Back(len, d) =>
      hide LengthBase, LengthExtra, DistBase, DistExtra, Pow2;
      var s, e := LengthSymbol(len), DistSymbol(d);
      CodeWord(lit, s) + (ToBits(len - LengthBase(s), LengthExtra(s))
        + (CodeWord(dist, e) + ToBits(d - DistBase(e), DistExtra(e))))
  }

  ghost function WriteTokens(lit: Lengths, dist: Lengths, toks: seq<Token>): seq<bool>
    requires Uses(lit, 256) && forall i :: 0 <= i < |toks| ==> Writable(lit, dist, toks[i])
  {
    if toks == [] then CodeWord(lit, 256)
    else WriteToken(lit, dist, toks[0]) + WriteTokens(lit, dist, toks[1..])
  }

  /** Matches start in the output. */
  predicate Reaches(out: seq<byte>, toks: seq<Token>)
    decreases |toks|
  {
    toks == [] || ((toks[0].Back? ==> 1 <= toks[0].dist <= |out|) && Reaches(Apply(out, toks[0]), toks[1..]))
  }

  function Apply(out: seq<byte>, tok: Token): seq<byte>
    requires tok.Back? ==> 1 <= tok.dist <= |out|
  {
    match tok
    case Literal(b) => out + [b]
    case Back(len, d) => Copy(out, len, d)
  }

  function Expand(out: seq<byte>, toks: seq<Token>): seq<byte>
    requires Reaches(out, toks)
    decreases |toks|
  {
    if toks == [] then out else Expand(Apply(out, toks[0]), toks[1..])
  }

  lemma {:induction false} BackRead(lenient: bool, dist: Lengths, len: nat, d: nat, s: nat, e: nat, t: seq<bool>)
    requires LengthIn(len, s) && DistIn(d, e) && Uses(dist, e)
    ensures LengthDistance(lenient, dist, s,
        ToBits(len - LengthBase(s), LengthExtra(s)) + (CodeWord(dist, e) + (ToBits(d - DistBase(e), DistExtra(e)) + t)))
      == Good((len, d), t)
  {
    hide LengthBase, LengthExtra, DistBase, DistExtra, Pow2, ToBits, CodeWord, Symbol, Number;
    var b3 := ToBits(d - DistBase(e), DistExtra(e)) + t;
    NumberRead(len - LengthBase(s), LengthExtra(s), CodeWord(dist, e) + b3);
    SymbolRead(lenient, dist, e, b3);
    NumberRead(d - DistBase(e), DistExtra(e), t);
  }

  /** What a token becomes when it is read. */
  lemma {:induction false} TokenRead(lenient: bool, lit: Lengths, dist: Lengths, tok: Token,
                                     t: seq<bool>, out: seq<byte>)
    requires Writable(lit, dist, tok) && (tok.Back? ==> tok.dist <= |out|)
    ensures Symbols(lenient, lit, dist, WriteToken(lit, dist, tok) + t, out)
      == Symbols(lenient, lit, dist, t, Apply(out, tok))
  {
    hide LengthBase, LengthExtra, DistBase, DistExtra, Pow2, ToBits, CodeWord, Symbol, LengthDistance, Copy, KraftSum;
    match tok
    case Literal(b) => SymbolRead(lenient, lit, b, t);
    case Back(len, d) =>
      var s, e := LengthSymbol(len), DistSymbol(d);
      var b1, b2 := ToBits(len - LengthBase(s), LengthExtra(s)), CodeWord(dist, e);
      var b3 := ToBits(d - DistBase(e), DistExtra(e));
      assert WriteToken(lit, dist, tok) + t == CodeWord(lit, s) + (b1 + (b2 + (b3 + t)));
      SymbolRead(lenient, lit, s, b1 + (b2 + (b3 + t)));
      LastSteps();
      BackRead(lenient, dist, len, d, s, e, t);
  }

  /** The data of a compressed block is read back. */
  lemma {:induction false} TokensRead(lenient: bool, lit: Lengths, dist: Lengths, toks: seq<Token>,
                                      t: seq<bool>, out: seq<byte>)
    requires Uses(lit, 256) && Reaches(out, toks) && forall i :: 0 <= i < |toks| ==> Writable(lit, dist, toks[i])
    ensures Symbols(lenient, lit, dist, WriteTokens(lit, dist, toks) + t, out) == Good(Expand(out, toks), t)
    decreases |toks|
  {
    hide WriteToken, Symbols, CodeWord, Uses, Writable, Copy;
    if toks == [] {
      EndRead(lenient, lit, dist, t, out);
    } else {
      var a, b := WriteToken(lit, dist, toks[0]), WriteTokens(lit, dist, toks[1..]);
      assert WriteTokens(lit, dist, toks) + t == a + (b + t);
      TokenRead(lenient, lit, dist, toks[0], b + t, out);
      TokensRead(lenient, lit, dist, toks[1..], t, Apply(out, toks[0]));
    }
  }

  lemma {:induction false} EndRead(lenient: bool, lit: Lengths, dist: Lengths, t: seq<bool>, out: seq<byte>)
    requires Uses(lit, 256)
    ensures Symbols(lenient, lit, dist, CodeWord(lit, 256) + t, out) == Good(out, t)
  {
    hide Symbol, CodeWord;
    SymbolRead(lenient, lit, 256, t);
  }

  // ----- runs of code lengths

  /** One length, the length before again, or zeros. */
  datatype Piece = One(v: nat) | Again(c: nat) | Zeros(c: nat)

  predicate PieceOk(acc: Lengths, p: Piece) {
    match p
    case One(v) => v <= 15
    case Again(c) => 3 <= c <= 6 && acc != []
    case Zeros(c) => 3 <= c <= 138
  }

  /** The symbol of a piece: 16 repeats, 17 and 18 are zeros. */
  function PieceSymbol(p: Piece): nat {
    match p
    case One(v) => v
    case Again(_) => 16
    case Zeros(c) => if c <= 10 then 17 else 18
  }

  function PieceBits(p: Piece): seq<bool>
    requires p.One? || 3 <= p.c
  {
    match p
    case One(_) => []
    case Again(c) => ToBits(c - 3, 2)
    case Zeros(c) => if c <= 10 then ToBits(c - 3, 3) else ToBits(c - 11, 7)
  }

  /** The lengths a piece adds. */
  function Added(acc: Lengths, p: Piece): seq<nat>
    requires PieceOk(acc, p)
  {
    match p
    case One(v) => [v]
    case Again(c) => Repeat(acc[|acc| - 1], c)
    case Zeros(c) => Repeat(0, c)
  }

  lemma {:induction false} PieceRead(acc: Lengths, p: Piece, t: seq<bool>)
    requires PieceOk(acc, p)
    ensures var r := Run(PieceSymbol(p), acc, PieceBits(p) + t);
      r.Good? && r.rest == t && Repeat(r.value.0, r.value.1) == Added(acc, p)
  {
    hide Number, ToBits;
    assert Pow2(2) == 4 && Pow2(3) == 8 && Pow2(7) == 128;
    match p
    case One(v) => assert [] + t == t;
    case Again(c) => NumberRead(c - 3, 2, t);
    case Zeros(c) => if c <= 10 { NumberRead(c - 3, 3, t); } else { NumberRead(c - 11, 7, t); }
  }

  predicate PiecesOk(acc: Lengths, ps: seq<Piece>)
    decreases |ps|
  {
    ps == [] || (PieceOk(acc, ps[0]) && PiecesOk(acc + Added(acc, ps[0]), ps[1..]))
  }

  /** The lengths the pieces stand for, after `acc`. */
  function Spelled(acc: Lengths, ps: seq<Piece>): (r: Lengths)
    requires PiecesOk(acc, ps)
    ensures |acc| <= |r| && (ps != [] ==> |acc| < |r|)
    decreases |ps|
  {
    if ps == [] then acc else Spelled(acc + Added(acc, ps[0]), ps[1..])
  }

  /** The code length code has a word for every piece. */
  ghost predicate Sendable(cl: Lengths, ps: seq<Piece>) {
    ps == [] || (Uses(cl, PieceSymbol(ps[0])) && Sendable(cl, ps[1..]))
  }

  ghost function WritePieces(cl: Lengths, acc: Lengths, ps: seq<Piece>): seq<bool>
    requires PiecesOk(acc, ps) && Sendable(cl, ps)
    decreases |ps|
  {
    if ps == [] then []
    else CodeWord(cl, PieceSymbol(ps[0])) + (PieceBits(ps[0]) + WritePieces(cl, acc + Added(acc, ps[0]), ps[1..]))
  }

  /** A sequence of code lengths, divided into any runs, is read back. */
  lemma {:induction false} PiecesRead(lenient: bool, cl: Lengths, acc: Lengths, ps: seq<Piece>, t: seq<bool>)
    requires PiecesOk(acc, ps) && Sendable(cl, ps)
    ensures CodeLengths(lenient, cl, |Spelled(acc, ps)|, WritePieces(cl, acc, ps) + t, acc) == Good(Spelled(acc, ps), t)
    decreases |ps|
  {
    hide Symbol, Run, CodeWord, PieceBits, KraftSum, Added;
    if ps == [] {
      assert [] + t == t;
    } else {
      var w, x := CodeWord(cl, PieceSymbol(ps[0])), PieceBits(ps[0]);
      var acc' := acc + Added(acc, ps[0]);
      var b := WritePieces(cl, acc', ps[1..]);
      assert WritePieces(cl, acc, ps) + t == w + (x + (b + t));
      SymbolRead(lenient, cl, PieceSymbol(ps[0]), x + (b + t));
      PieceRead(acc, ps[0], b + t);
      PiecesRead(lenient, cl, acc', ps[1..], t);
    }
  }

  // ----- the code length code

  /** Where the length of symbol `j` is sent. */
  function Place(j: nat): (i: nat)
    requires j < 19
    ensures i < 19
  {
    if j >= 16 then j - 16 else if j == 0 then 3 else if j >= 8 then 2 * (j - 6) else 19 - 2 * j
  }

  lemma PlaceOf(i: nat)
    requires i < 19
    ensures Place(Order(i)) == i && Order(Place(i)) == i
  {
    hide Order;
    OrderIs(i);
    OrderIs(Place(i));
  }

  ghost function WriteOrder(cl: Lengths, i: nat, n: nat): seq<bool>
    requires n <= 19 == |cl|
    decreases n - i
  {
    if i >= n then [] else ToBits(cl[Order(i)], 3) + WriteOrder(cl, i + 1, n)
  }

  /** The lengths not sent yet are zero in `acc`, the others are there. */
  ghost predicate Sent(cl: Lengths, acc: Lengths, i: nat) {
    |cl| == |acc| == 19 && forall j :: 0 <= j < 19 ==> acc[j] == if Place(j) < i then cl[j] else 0
  }

  lemma {:induction false} OrderRead(cl: Lengths, acc: Lengths, i: nat, n: nat, t: seq<bool>)
    requires i <= n <= 19 && Sent(cl, acc, i) && Short(cl) && forall j :: 0 <= j < 19 && n <= Place(j) ==> cl[j] == 0
    ensures CodeLengthCode(WriteOrder(cl, i, n) + t, i, n, acc) == Good(cl, t)
    decreases n - i
  {
    hide Order, Number, ToBits;
    if i == n {
      assert acc == cl;
      assert [] + t == t;
    } else {
      var j, b := Order(i), WriteOrder(cl, i + 1, n);
      assert WriteOrder(cl, i, n) + t == ToBits(cl[j], 3) + (b + t);
      assert Pow2(3) == 8;
      NumberRead(cl[j], 3, b + t);
      SentNext(cl, acc, i);
      OrderRead(cl, acc[j := cl[j]], i + 1, n, t);
    }
  }

  lemma SentNext(cl: Lengths, acc: Lengths, i: nat)
    requires i < 19 && Sent(cl, acc, i)
    ensures Sent(cl, acc[Order(i) := cl[Order(i)]], i + 1)
  {
    hide Order, Place;
    forall j: nat | j < 19 ensures (j == Order(i)) == (Place(j) == i) {
      PlaceOf(i);
      PlaceOf(j);
    }
  }

  // ----- dynamic headers

  /** The codes of a dynamic block, and how they are sent: the code length code, of which the
      first `nclen` lengths are, and the pieces of the two codes together. */
  datatype Codes = Codes(lit: Lengths, dist: Lengths, nclen: nat, cl: Lengths, pieces: seq<Piece>)

  ghost predicate CodesOk(c: Codes) {
    && 257 <= |c.lit| <= 286 && 1 <= |c.dist| <= 32 && 4 <= c.nclen <= 19
    && |c.cl| == 19 && Short(c.cl) && Kraft(c.cl) && Kraft(c.lit) && Kraft(c.dist)
    && (forall j :: 0 <= j < 19 && c.nclen <= Place(j) ==> c.cl[j] == 0)
    && PiecesOk([], c.pieces) && Spelled([], c.pieces) == c.lit + c.dist
    && Sendable(c.cl, c.pieces)
  }

  function WriteCounts(c: Codes): seq<bool>
    requires 257 <= |c.lit| && 1 <= |c.dist| && 4 <= c.nclen
  {
    ToBits(|c.lit| - 257, 5) + (ToBits(|c.dist| - 1, 5) + ToBits(c.nclen - 4, 4))
  }

  ghost function WriteCodes(c: Codes): seq<bool>
    requires CodesOk(c)
  {
    WriteCounts(c) + (WriteOrder(c.cl, 0, c.nclen) + WritePieces(c.cl, [], c.pieces))
  }

  lemma {:induction false} CountsRead(c: Codes, t: seq<bool>)
    requires 257 <= |c.lit| <= 286 && 1 <= |c.dist| <= 32 && 4 <= c.nclen <= 19
    ensures ReadCounts(WriteCounts(c) + t) == Good(Counts(|c.lit|, |c.dist|, c.nclen), t)
  {
    hide Number, ToBits;
    assert Pow2(4) == 16 && Pow2(5) == 32;
    var a, b, d := ToBits(|c.lit| - 257, 5), ToBits(|c.dist| - 1, 5), ToBits(c.nclen - 4, 4);
    assert WriteCounts(c) + t == a + (b + (d + t));
    NumberRead(|c.lit| - 257, 5, b + (d + t));
    NumberRead(|c.dist| - 1, 5, d + t);
    NumberRead(c.nclen - 4, 4, t);
  }

  /** The header of a dynamic block is read back. */
  lemma {:induction false} CodesRead(lenient: bool, c: Codes, t: seq<bool>)
    requires CodesOk(c)
    ensures DynamicCodes(lenient, WriteCodes(c) + t) == Good((c.lit, c.dist), t)
  {
    hide ReadCounts, CodeLengthCode, CodeLengths, WriteCounts, WriteOrder, WritePieces, Kraft, Sendable, Short, Place;
    var a, b, d := WriteCounts(c), WriteOrder(c.cl, 0, c.nclen), WritePieces(c.cl, [], c.pieces);
    assert WriteCodes(c) + t == a + (b + (d + t));
    CountsRead(c, b + (d + t));
    assert Sent(c.cl, Repeat(0, 19), 0);
    OrderRead(c.cl, Repeat(0, 19), 0, c.nclen, d + t);
    PiecesRead(lenient, c.cl, [], c.pieces, t);
    assert (c.lit + c.dist)[..|c.lit|] == c.lit && (c.lit + c.dist)[|c.lit|..] == c.dist;
  }
}
