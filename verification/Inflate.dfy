/** Compressed blocks and the headers of dynamic codes, against the reference in
    `Deflate`. */
module Inflate {
  import opened Bits
  import opened Bytes
  import opened Canonical
  import opened HuffmanTable
  import opened SecondaryTable
  import opened InflateTable
  import opened Deflate
  import opened BitReader
  import opened MatchCopy

  // ----- matches

  /** The least length with the `l`-th length symbol that has extra bits. */
  function LongLength(l: nat): nat {
    var extra := l / 4 + 1;
    l % 4 * Pow2(extra) + 11 + (Pow2(extra - 1) - 1) * 8
  }

  /** The least distance with the `d`-th distance symbol that has extra bits. */
  function LongDistance(d: nat): nat {
    var extra := d / 2 + 1;
    d % 2 * Pow2(extra) + 5 + (Pow2(extra - 1) - 1) * 4
  }

  /** Closed forms for the tables of section 3.2.5 of RFC 1951. */
  lemma LengthTable(s: nat)
    requires 257 <= s <= 285
    ensures s < 265 ==> LengthExtra(s) == 0 && LengthBase(s) == s - 257 + 3
    ensures s == 285 ==> LengthExtra(s) == 0 && LengthBase(s) == 258
    ensures 265 <= s < 285 ==>
      LengthExtra(s) == (s - 265) / 4 + 1 <= 5 && LengthBase(s) == LongLength(s - 265)
  {
    hide LengthExtra, LengthBase, LongLength;
    if s < 265 || s == 285 { LengthPlain(s); } else { LengthLong(s); }
  }

  lemma LengthPlain(s: nat)
    requires 257 <= s < 265 || s == 285
    ensures LengthExtra(s) == 0 && LengthBase(s) == if s == 285 then 258 else s - 257 + 3
  {}

  lemma LengthLong(s: nat)
    requires 265 <= s < 285
    ensures LengthExtra(s) == (s - 265) / 4 + 1 <= 5 && LengthBase(s) == LongLength(s - 265)
  {
    hide LengthBase, LongLength;
    LongLengthBase(s);
  }

  lemma LongLengthBase(s: nat)
    requires 265 <= s < 285
    ensures LengthBase(s) == LongLength(s - 265)
  {
    hide LongLength;
    LongLengthIs(s - 265, (s - 265) / 4 + 1);
  }

  lemma LongLengthIs(l: nat, extra: nat)
    requires extra == l / 4 + 1 <= 5
    ensures LongLength(l) ==
      var q := [2, 4, 8, 16, 32][extra - 1]; (l - 4 * (extra - 1)) * q + 3 + 4 * q
  {
    assert Pow2(0) == 1 && Pow2(1) == 2 && Pow2(2) == 4 && Pow2(3) == 8 && Pow2(4) == 16 && Pow2(5) == 32;
  }

  lemma DistanceExtra(d: nat)
    requires 4 <= d <= 29
    ensures DistExtra(d) == (d - 4) / 2 + 1
  {}

  lemma DistanceBase(d: nat, e: nat)
    requires 4 <= d <= 29 && e == (d - 4) / 2 + 1
    ensures DistBase(d) == LongDistance(d - 4)
  {
    hide LongDistance;
    LongDistanceIs(d - 4, e);
  }

  lemma LongDistanceIs(d: nat, extra: nat)
    requires extra == d / 2 + 1 <= 13
    ensures LongDistance(d) ==
      var q := [1, 2, 4, 8, 16, 32, 64, 128, 256, 512, 1024, 2048, 4096][extra - 1];
      (if d % 2 == 0 then 4 * q else 6 * q) + 1
  {
    hide Pow2;
    PowTable(extra - 1);
    PowDouble(extra);
  }

  lemma PowDouble(n: nat)
    requires 0 < n
    ensures Pow2(n) == 2 * Pow2(n - 1)
  {}

  lemma PowTable(n: nat)
    requires n <= 12
    ensures Pow2(n) == [1, 2, 4, 8, 16, 32, 64, 128, 256, 512, 1024, 2048, 4096][n]
  {
    if 5 <= n { assert Pow2(n) == 32 * Pow2(n - 5); }
    if 10 <= n { assert Pow2(n - 5) == 32 * Pow2(n - 10); }
  }

  lemma DistanceTable(d: nat)
    requires d <= 29
    ensures d < 4 ==> DistExtra(d) == 0 && DistBase(d) == d + 1
    ensures 4 <= d ==> DistExtra(d) == (d - 4) / 2 + 1 <= 13 && DistBase(d) == LongDistance(d - 4)
  {
    if 4 <= d {
      hide DistExtra, DistBase, LongDistance;
      DistanceExtra(d);
      DistanceBase(d, (d - 4) / 2 + 1);
    }
  }

  lemma NoBits(bs: seq<bool>)
    ensures Number(bs, 0) == Good(0, bs)
  {}

  /** Turns a length symbol into a length. */
  method ReadLength(r: Reader, lit: nat) returns (ok: bool, len: nat)
    requires r.Ready() && 257 <= lit
    modifies r
    ensures r.Ready()
    ensures ok ==>
      && lit <= 285
      && Number(old(r.Unread()), LengthExtra(lit)) == Good(len - LengthBase(lit), r.Unread())
    ensures !ok ==> lit > 285 || r.Late(|old(r.Unread())|)
  {
    hide LengthBase, LengthExtra, LongLength, BytesToBits, Pow2, WordAt, Number;
    if lit <= 285 { LengthTable(lit); }
    NoBits(r.Unread());
    if lit < 265 {
      return true, lit - 257 + 3;
    } else if lit == 285 {
      return true, 258;
    } else if lit > 285 {
      return false, 0;
    }
    ok := r.Fetch();
    if !ok {
      return false, 0;
    }
    var x := r.Take((lit - 265) / 4 + 1);
    len := LongLength(lit - 265) + x;
  }

  /** Turns a distance symbol other than 0 into a distance. */
  method ReadDistance(r: Reader, sym: nat) returns (ok: bool, dist: nat)
    requires r.Ready() && 1 <= sym
    modifies r
    ensures r.Ready()
    ensures ok ==> sym <= 29 && Number(old(r.Unread()), DistExtra(sym)) == Good(dist - DistBase(sym), r.Unread())
    ensures !ok ==> sym > 29 || r.Late(|old(r.Unread())|)
  {
    hide DistBase, DistExtra, LongDistance, BytesToBits, Pow2, WordAt, Number;
    if sym <= 29 { DistanceTable(sym); }
    NoBits(r.Unread());
    if sym > 29 {
      return false, 0;
    } else if sym < 4 {
      return true, sym + 1;
    }
    ok := r.Fetch();
    if !ok {
      return false, 0;
    }
    var y := r.Take((sym - 4) / 2 + 1);
    dist := LongDistance(sym - 4) + y;
  }

  /** The table decodes a proper code. */
  ghost predicate Usable(lens: Lengths, table: seq<nat>) { Valid(lens) && Decodes(lens, table) }

  /** Writes a match whose distance symbol is `sym`. */
  method WriteMatch(r: Reader, out: array<byte>, pout: nat, len: nat, sym: nat) returns (ok: bool)
    requires r.Ready() && pout <= out.Length
    modifies r, out
    ensures r.Ready()
    ensures ok ==>
      && sym <= 29 && pout + len <= out.Length
      && (match Number(old(r.Unread()), DistExtra(sym))
          case Good(y, rest) =>
            var d := DistBase(sym) + y;
            d <= pout && r.Unread() == rest && out[..pout + len] == Copy(old(out[..pout]), len, d)
          case Bad(_) => false)
    ensures !ok && sym <= 29 && Fits(pout + len, out.Length) ==>
      match Number(old(r.Unread()), DistExtra(sym))
      case Good(y, rest) => DistBase(sym) + y > pout || r.Late(|rest|)
      case Bad(_) => true
  {
    hide DistBase, DistExtra, Copy, BytesToBits, Number, WordAt, Narrow;
    NoBits(r.Unread());
    NarrowLess(pout);
    NarrowLess(out.Length - pout);
    if sym == 0 {
      DistanceTable(0);
      if pout == 0 || Narrow(out.Length - pout) < len {
        return false;
      }
      RepeatLast(out, pout, len);
      return true;
    }
    var dist;
    ok, dist := ReadDistance(r, sym);
    if !ok || Narrow(pout) < dist || Narrow(out.Length - pout) < len {
      return false;
    }
    CopyBack(out, pout, len, dist);
    return true;
  }

  /** Reads and writes the match that length symbol `lit` starts. */
  method ReadMatch(r: Reader, out: array<byte>, pout: nat, lit: nat, tdist: array<nat>, ghost dist: Lengths)
      returns (ok: bool, pout': nat)
    requires r.Ready() && pout <= out.Length && 257 <= lit && tdist.Length == TABLE_SIZE
    modifies r, out
    ensures r.Ready()
    ensures ok ==> pout <= pout' <= out.Length && |r.Unread()| <= |old(r.Unread())|
    ensures ok && Usable(dist, tdist[..]) ==>
      match LengthDistance(true, dist, lit, old(r.Unread()))
      case Good(ld, rest) =>
        && r.Unread() == rest && ld.1 <= pout && pout' == pout + ld.0
        && out[..pout'] == Copy(old(out[..pout]), ld.0, ld.1)
      case Bad(_) => false
    ensures !ok && Usable(dist, tdist[..]) ==>
      match LengthDistance(true, dist, lit, old(r.Unread()))
      case Good(ld, rest) => ld.1 > pout || !Fits(pout + ld.0, out.Length) || r.Late(|rest|)
      case Bad(_) => true
  {
    hide DistBase, DistExtra, LengthBase, LengthExtra, Copy, BytesToBits, Decodes, Symbol, Number, WordAt, Fits;
    var len, sym;
    ok, len := ReadLength(r, lit);
    if !ok {
      return false, pout;
    }
    ok, sym := r.NextSymbol(tdist, dist);
    if !ok {
      return false, pout;
    }
    ok := WriteMatch(r, out, pout, len, sym);
    pout' := pout + len;
  }

  // ----- compressed blocks

  /** The bits buffered behind a code of `n` bits that a fetch has just made room for. */
  predicate AfterCode(n: nat, bits: nat) { 1 <= n <= 15 && 15 <= n + bits <= 46 }

  /** Why a compressed block may be refused: it has no reading, does not fit in the buffer, or
      its end code comes late. */
  ghost predicate SymbolsLate(r: Reader, lit: Lengths, dist: Lengths, bs: seq<bool>, out: seq<byte>, length: nat) {
    match Symbols(true, lit, dist, bs, out)
    case Good(o, rest) => !Fits(|o|, length) || r.Late(|rest| + EndCode(lit))
    case Bad(_) => true
  }

  /** One turn of the main loop: a literal, a match or the end of the block. */
  method InflateSymbol(r: Reader, out: array<byte>, pout: nat,
                       tlit: array<nat>, tdist: array<nat>, ghost lit: Lengths, ghost dist: Lengths)
      returns (ok: bool, done: bool, pout': nat)
    requires r.Ready() && pout <= out.Length && tlit.Length == tdist.Length == TABLE_SIZE
    modifies r, out
    ensures r.Ready()
    ensures ok ==> pout <= pout' <= out.Length && |r.Unread()| < |old(r.Unread())|
    ensures ok && Usable(lit, tlit[..]) && Usable(dist, tdist[..]) ==>
      Symbols(true, lit, dist, old(r.Unread()), old(out[..pout])) ==
        if done then Good(out[..pout'], r.Unread()) else Symbols(true, lit, dist, r.Unread(), out[..pout'])
    ensures ok && done && Usable(lit, tlit[..]) ==> AfterCode(EndCode(lit), r.bits)
    ensures !ok && Usable(lit, tlit[..]) && Usable(dist, tdist[..]) ==>
      SymbolsLate(r, lit, dist, old(r.Unread()), old(out[..pout]), out.Length)
  {
    hide Copy, BytesToBits, Decodes, Symbol, LengthDistance, WordAt;
    var s;
    done, pout' := false, pout;
    ok, s := r.NextSymbol(tlit, lit);
    if !ok {
      return;
    }
    if s < 256 {
      if pout == out.Length {
        return false, false, pout;
      }
      out[pout] := s;
      pout' := pout + 1;
      assert out[..pout'] == old(out[..pout]) + [s];
    } else if s == 256 {
      done := true;
    } else {
      ok, pout' := ReadMatch(r, out, pout, s, tdist, dist);
    }
  }

  /** Decodes literals and matches up to the end of the block. */
  method InflateSymbols(r: Reader, out: array<byte>, pout0: nat,
                        tlit: array<nat>, tdist: array<nat>, ghost lit: Lengths, ghost dist: Lengths)
      returns (ok: bool, pout: nat)
    requires r.Ready() && pout0 <= out.Length && tlit.Length == tdist.Length == TABLE_SIZE
    modifies r, out
    ensures r.Ready()
    ensures ok ==> pout0 <= pout <= out.Length && |r.Unread()| < |old(r.Unread())|
    ensures ok && Usable(lit, tlit[..]) && Usable(dist, tdist[..]) ==>
      Symbols(true, lit, dist, old(r.Unread()), old(out[..pout0])) == Good(out[..pout], r.Unread())
    ensures ok && Usable(lit, tlit[..]) ==> AfterCode(EndCode(lit), r.bits)
    ensures !ok && Usable(lit, tlit[..]) && Usable(dist, tdist[..]) ==>
      SymbolsLate(r, lit, dist, old(r.Unread()), old(out[..pout0]), out.Length)
  {
    hide Usable, Symbols, BytesToBits, AfterCode, Fits;
    var done;
    ok, done, pout := InflateSymbol(r, out, pout0, tlit, tdist, lit, dist);
    while ok && !done
      invariant r.Ready()
      invariant ok ==> pout0 <= pout <= out.Length && |r.Unread()| < |old(r.Unread())|
      invariant ok && Usable(lit, tlit[..]) && Usable(dist, tdist[..]) ==>
        Symbols(true, lit, dist, old(r.Unread()), old(out[..pout0])) ==
          if done then Good(out[..pout], r.Unread()) else Symbols(true, lit, dist, r.Unread(), out[..pout])
      invariant ok && done && Usable(lit, tlit[..]) ==> AfterCode(EndCode(lit), r.bits)
      invariant !ok && Usable(lit, tlit[..]) && Usable(dist, tdist[..]) ==>
        SymbolsLate(r, lit, dist, old(r.Unread()), old(out[..pout0]), out.Length)
      decreases ok, |r.Unread()|
    {
      ok, done, pout := InflateSymbol(r, out, pout, tlit, tdist, lit, dist);
    }
  }

  // ----- dynamic code headers

  /** What the decoder accepts although it has no reading: an oversubscribed set in which
      symbol 0 has a code of one bit. */
  ghost predicate Excused<T>(p: Parse<T>) { p.Bad? && p.flaw.Oversubscribed? && !Marked(p.flaw.lens) }

  /** Why a header may be refused: it has no reading or ends late. */
  ghost predicate LateOrBad<T>(r: Reader, p: Parse<T>) { p.Bad? || r.Late(|p.rest|) }

  /** A fetch before every fifth length holds three bits for each up to the next fetch. */
  predicate Held(i: nat, bits: nat) { i % 5 == 0 || 15 - 3 * (i % 5) <= bits }

  lemma HeldNext(i: nat, bits: nat)
    requires if i % 5 == 0 then 15 <= bits else Held(i, bits)
    ensures 3 <= bits && Held(i + 1, bits - 3)
  {}

  /** The order of section 3.2.7 of RFC 1951: 16, 17, 18, 0, and then 8, 7, 9, 6 and so on,
      outwards from 8. */
  lemma OrderIs(i: nat)
    requires i < 19
    ensures Order(i) == if i < 3 then 16 + i else if i == 3 then 0 else if i % 2 == 0 then 6 + i / 2 else (19 - i) / 2
  {}

  /** The symbol whose length the decoder reads as the `i`-th. */
  function Target(i: nat): (r: nat)
    requires i < 19
    ensures r < 19
  {
    match i
    case 0 => 16 case 1 => 17 case 2 => 18 case 3 => 0 case 4 => 8
    case 5 => 7 case 6 => 9 case 7 => 6 case 8 => 10 case 9 => 5
    case 10 => 11 case 11 => 4 case 12 => 12 case 13 => 3 case 14 => 13
    case 15 => 2 case 16 => 14 case 17 => 1 case _ => 15
  }

  lemma TargetIs(i: nat)
    requires i < 19
    ensures Target(i) == Order(i)
  {
    hide Order;
    OrderIs(i);
  }

  /** Reads the length of the `i`-th symbol; a fetch serves five of them. */
  method TakeLength(r: Reader, i: nat, ghost nclen: nat, cl: Lengths) returns (ok: bool, cl': Lengths)
    requires r.Ready() && i < nclen <= 19 == |cl| && Held(i, r.bits)
    modifies r
    ensures r.Ready() && |cl'| == 19 && (ok ==> Held(i + 1, r.bits))
    ensures ok ==> CodeLengthCode(old(r.Unread()), i, nclen, cl) == CodeLengthCode(r.Unread(), i + 1, nclen, cl')
    ensures !ok ==> r.Late(|old(r.Unread())|)
  {
    hide BytesToBits, Order, Target, Held, WordAt;
    TargetIs(i);
    if i % 5 == 0 {
      ok := r.Fetch();
      if !ok {
        return false, cl;
      }
    }
    HeldNext(i, r.bits);
    var x := r.Take(3);
    return true, cl[Target(i) := x];
  }

  /** Reads the code length code. */
  method ReadCodeLengthCode(r: Reader, nclen: nat) returns (ok: bool, cl: Lengths)
    requires r.Ready() && nclen <= 19
    modifies r
    ensures r.Ready() && |cl| == 19
    ensures ok ==> CodeLengthCode(old(r.Unread()), 0, nclen, Repeat(0, 19)) == Good(cl, r.Unread())
    ensures !ok ==> LateOrBad(r, CodeLengthCode(old(r.Unread()), 0, nclen, Repeat(0, 19)))
  {
    hide BytesToBits, CodeLengthCode, WordAt;
    cl := Repeat(0, 19);
    var i := 0;
    while i < nclen
      invariant 0 <= i <= nclen && r.Ready() && |cl| == 19
      invariant Held(i, r.bits)
      invariant CodeLengthCode(old(r.Unread()), 0, nclen, Repeat(0, 19)) == CodeLengthCode(r.Unread(), i, nclen, cl)
    {
      ok, cl := TakeLength(r, i, nclen, cl);
      if !ok {
        return;
      }
      i := i + 1;
    }
    CodeLengthCodeEnd(r.Unread(), nclen, cl);
    ok := true;
  }

  lemma CodeLengthCodeEnd(bs: seq<bool>, n: nat, cl: Lengths)
    requires n <= 19 == |cl|
    ensures CodeLengthCode(bs, n, n, cl) == Good(cl, bs)
  {}

  /** Appends `c` copies of `v` to the first `p` lengths. */
  method SetRun(lens: array<nat>, p: nat, c: nat, v: nat)
    requires p + c <= lens.Length
    modifies lens
    ensures lens[..p + c] == old(lens[..p]) + Repeat(v, c)
  {
    for i := 0 to c
      invariant lens[..p] == old(lens[..p]) && forall k :: p <= k < p + i ==> lens[k] == v
    {
      lens[p + i] := v;
    }
  }

  /** Reads the extra bits of symbol `v`: how many code lengths it stands for, and which. */
  method ReadRun(r: Reader, v: nat, lens: array<nat>, p: nat) returns (ok: bool, c: nat, x: nat)
    requires r.Ready() && 7 <= r.bits && p <= lens.Length
    modifies r
    ensures r.Ready() && (ok ==> |r.Unread()| <= |old(r.Unread())| && 1 <= c)
    ensures ok ==> Run(v, lens[..p], old(r.Unread())) == Good((x, c), r.Unread())
    ensures !ok ==> Run(v, lens[..p], old(r.Unread())).Bad?
  {
    hide BytesToBits, WordAt, Number;
    if v < 16 {
      return true, 1, v;
    } else if v == 16 {
      if p == 0 {
        return false, 0, 0;
      }
      c := r.Take(2);
      return true, 3 + c, lens[p - 1];
    } else if v == 17 {
      c := r.Take(3);
      return true, 3 + c, 0;
    } else if v == 18 {
      c := r.Take(7);
      return true, 11 + c, 0;
    }
    return false, 0, 0;
  }

  /** Reads one code length or one run of them. */
  method ReadLengthRun(r: Reader, table: array<nat>, ghost cl: Lengths, lens: array<nat>, p: nat, n: nat)
      returns (ok: bool, p': nat)
    requires r.Ready() && p < n <= lens.Length && table.Length == TABLE_SIZE && table != lens
    modifies r, lens
    ensures r.Ready() && (ok ==> p < p' <= n && |r.Unread()| < |old(r.Unread())|)
    ensures ok && Usable(cl, table[..]) ==>
      CodeLengths(true, cl, n, old(r.Unread()), old(lens[..p])) == CodeLengths(true, cl, n, r.Unread(), lens[..p'])
    ensures !ok && Usable(cl, table[..]) && Short(cl) ==>
      LateOrBad(r, CodeLengths(true, cl, n, old(r.Unread()), old(lens[..p])))
  {
    hide BytesToBits, Decodes, Symbol, Run, WordAt, Short;
    var v, c, x;
    p' := p;
    ok, v := r.NextDirect(table, cl);
    if !ok {
      return;
    }
    ok, c, x := ReadRun(r, v, lens, p);
    if !ok || n - p < c {
      return false, p;
    }
    SetRun(lens, p, c, x);
    p' := p + c;
  }

  /** Reads the `n` code lengths of a dynamic block. */
  method ReadCodeLengths(r: Reader, table: array<nat>, ghost cl: Lengths, lens: array<nat>, n: nat) returns (ok: bool)
    requires r.Ready() && n <= lens.Length && table.Length == TABLE_SIZE && table != lens
    modifies r, lens
    ensures r.Ready() && (ok ==> |r.Unread()| <= |old(r.Unread())|)
    ensures ok && Usable(cl, table[..]) ==>
      CodeLengths(true, cl, n, old(r.Unread()), []) == Good(lens[..n], r.Unread())
    ensures !ok && Usable(cl, table[..]) && Short(cl) ==> LateOrBad(r, CodeLengths(true, cl, n, old(r.Unread()), []))
  {
    hide BytesToBits, Usable, Short;
    var p := 0;
    ok := true;
    while ok && p < n
      invariant 0 <= p <= n && r.Ready() && (ok ==> |r.Unread()| <= |old(r.Unread())|)
      invariant ok && Usable(cl, table[..]) ==>
        CodeLengths(true, cl, n, old(r.Unread()), []) == CodeLengths(true, cl, n, r.Unread(), lens[..p])
      invariant !ok && Usable(cl, table[..]) && Short(cl) ==>
        LateOrBad(r, CodeLengths(true, cl, n, old(r.Unread()), []))
      decreases ok, n - p
    {
      var p';
      ok, p' := ReadLengthRun(r, table, cl, lens, p, n);
      if ok {
        p := p';
      }
    }
  }

  method TakeCounts(r: Reader) returns (ok: bool, c: Counts)
    requires r.Ready()
    modifies r
    ensures r.Ready() && (ok ==> ReadCounts(old(r.Unread())) == Good(c, r.Unread()) && 257 <= c.nlit && 1 <= c.ndist)
    ensures !ok ==> r.Late(|old(r.Unread())|)
  {
    hide BytesToBits, Number;
    assert Pow2(4) == 16 && Pow2(5) == 32;
    ok := r.Fetch();
    if !ok {
      return false, Counts(0, 0, 0);
    }
    var nlit := r.Take(5);
    var ndist := r.Take(5);
    var nclen := r.Take(4);
    c := Counts(nlit + 257, ndist + 1, nclen + 4);
  }

  /** Three bits give at most seven. */
  lemma {:induction false} CodeLengthCodeShort(bs: seq<bool>, i: nat, n: nat, cl: Lengths)
    requires n <= 19 == |cl| && Short(cl)
    ensures var p := CodeLengthCode(bs, i, n, cl); p.Good? ==> Short(p.value)
    decreases n - i
  {
    hide Order, LsbFirst;
    if i < n && 3 <= |bs| {
      LsbFirstFits(bs[..3]);
      assert Pow2(3) == 8;
      CodeLengthCodeShort(bs[3..], i + 1, n, cl[Order(i) := LsbFirst(bs[..3])]);
    }
  }

  /** So the code length code has no secondary tables. */
  lemma CodeLengthCodeNeeds(bs: seq<bool>, n: nat)
    requires n <= 19
    ensures var p := CodeLengthCode(bs, 0, n, Repeat(0, 19));
      p.Good? ==> Short(p.value) && Valid(p.value) && Need(p.value, 8) == 0
  {
    hide CodeLengthCode, Need;
    CodeLengthCodeShort(bs, 0, n, Repeat(0, 19));
    var p := CodeLengthCode(bs, 0, n, Repeat(0, 19));
    if p.Good? { NeedNone(p.value, 8); }
  }

  /** Symbols below 16 are lengths of at most 15. */
  lemma {:induction false} CodeLengthsValid(lenient: bool, cl: Lengths, n: nat, bs: seq<bool>, acc: Lengths)
    requires Valid(acc)
    ensures var p := CodeLengths(lenient, cl, n, bs, acc); p.Good? ==> Valid(p.value)
    decreases |bs|
  {
    hide Symbol, LsbFirst;
    var p := Symbol(lenient, cl, bs);
    if |acc| < n && p.Good? {
      var q := Run(p.value, acc, p.rest);
      if q.Good? { CodeLengthsValid(lenient, cl, n, q.rest, acc + Repeat(q.value.0, q.value.1)); }
    }
  }

  lemma AllLengthsValid(lenient: bool, c: Counts, bs: seq<bool>)
    requires c.nclen <= 19
    ensures var p := AllLengths(lenient, c, bs); p.Good? ==> Valid(p.value)
  {
    hide CodeLengthCode, CodeLengths, Kraft;
    var p := CodeLengthCode(bs, 0, c.nclen, Repeat(0, 19));
    if p.Good? { CodeLengthsValid(lenient, p.value, c.nlit + c.ndist, p.rest, []); }
  }

  /** What the decoder asks of the codes of a dynamic block beyond the format: at most thirty
      distance codes, an end code, and secondary tables that fit. */
  ghost predicate HeaderTaken(lit: Lengths, dist: Lengths) {
    |dist| <= 30 && 0 < EndCode(lit) && Need(lit, 8) <= 511 && Need(dist, 8) <= 511
  }

  /** Why a dynamic header may be refused. */
  ghost predicate HeaderLate(r: Reader, p: Parse<(Lengths, Lengths)>) {
    p.Bad? || !HeaderTaken(p.value.0, p.value.1) || r.Late(|p.rest|)
  }

  /** Reads all code lengths of a dynamic block. */
  method ReadAllLengths(r: Reader, c: Counts, next: array<nat>, lens: array<nat>, table: array<nat>) returns (ok: bool)
    requires r.Ready() && next.Length == lens.Length == MAX_SYMBOLS && table.Length == TABLE_SIZE
    requires table != lens && next != lens && table != next && c.nclen <= 19 && c.nlit + c.ndist <= MAX_SYMBOLS
    modifies r, next, lens, table
    ensures r.Ready() && (ok ==> |r.Unread()| <= |old(r.Unread())|)
    ensures ok && !Excused(AllLengths(true, c, old(r.Unread()))) ==>
      AllLengths(true, c, old(r.Unread())) == Good(lens[..c.nlit + c.ndist], r.Unread())
    ensures !ok ==> LateOrBad(r, AllLengths(true, c, old(r.Unread())))
  {
    hide BytesToBits, ToBits, Pow2, Decodes, KraftSum, CodeLengths, CodeLengthCode, Need, Marked, Short, WordAt;
    var cl;
    ok, cl := ReadCodeLengthCode(r, c.nclen);
    if !ok {
      return;
    }
    CodeLengthCodeNeeds(old(r.Unread()), c.nclen);
    ok := Build(cl, next, table);
    if !ok {
      return;
    }
    ok := ReadCodeLengths(r, table, cl, lens, c.nlit + c.ndist);
  }

  /** Reads the header of a dynamic block and builds its two tables. */
  method ReadDynamic(r: Reader, next: array<nat>, lens: array<nat>, tlit: array<nat>, tdist: array<nat>)
      returns (ok: bool, ghost lit: Lengths, ghost dist: Lengths)
    requires r.Ready() && next.Length == lens.Length == MAX_SYMBOLS && tlit.Length == tdist.Length == TABLE_SIZE
    requires tlit != lens && tdist != lens && tlit != tdist && next != lens && tlit != next && tdist != next
    modifies r, next, lens, tlit, tdist
    ensures r.Ready() && (ok ==> |r.Unread()| <= |old(r.Unread())|)
    ensures ok && !Excused(DynamicCodes(true, old(r.Unread()))) ==>
      && DynamicCodes(true, old(r.Unread())) == Good((lit, dist), r.Unread())
      && Usable(lit, tlit[..]) && Usable(dist, tdist[..])
    ensures !ok ==> HeaderLate(r, DynamicCodes(true, old(r.Unread())))
  {
    hide BytesToBits, Decodes, KraftSum, AllLengths, ReadCounts, Need, Marked;
    lit, dist := [], [];
    var c;
    ok, c := TakeCounts(r);
    if !ok || c.nlit > 286 || c.ndist > 30 {
      return false, lit, dist;
    }
    AllLengthsValid(true, c, r.Unread());
    ok := ReadAllLengths(r, c, next, lens, tlit);
    if !ok || lens[256] == 0 {
      return false, lit, dist;
    }
    var all := lens[..c.nlit + c.ndist];
    lit, dist := all[..c.nlit], all[c.nlit..];
    ok := Build(all[..c.nlit], next, tlit);
    if !ok {
      return;
    }
    ok := Build(all[c.nlit..], next, tdist);
  }
}
