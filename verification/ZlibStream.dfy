/** Blocks, zlib streams and the whole of `elf_zlib_inflate`. */
module ZlibStream {
  import opened Arith
  import opened Bits
  import opened Bytes
  import opened HuffmanTable
  import opened InflateTable
  import opened Deflate
  import opened BitReader
  import opened FixedCodes
  import opened Inflate
  import opened StoredBlock
  import opened ZlibHeader

  /** The work area of the decoder, and the tables of the fixed codes. */
  class Work {
    const next: array<nat>
    const lens: array<nat>
    const tlit: array<nat>
    const tdist: array<nat>
    const fixedLit: array<nat>
    const fixedDist: array<nat>

    ghost predicate Valid()
      reads fixedLit, fixedDist
    {
      && next.Length == lens.Length == MAX_SYMBOLS
      && tlit.Length == tdist.Length == fixedLit.Length == fixedDist.Length == TABLE_SIZE
      && tlit != lens && tdist != lens && tlit != tdist && next != lens && tlit != next && tdist != next
      && fixedLit !in {next, lens, tlit, tdist} && fixedDist !in {next, lens, tlit, tdist}
      && Usable(FixedLit(), fixedLit[..]) && Usable(FixedDist(), fixedDist[..])
    }

    constructor ()
      ensures Valid()
      ensures fresh(this) && fresh({next, lens, tlit, tdist, fixedLit, fixedDist})
    {
      next := new nat[MAX_SYMBOLS](_ => 0);
      lens := new nat[MAX_SYMBOLS](_ => 0);
      tlit := new nat[TABLE_SIZE](_ => 0);
      tdist := new nat[TABLE_SIZE](_ => 0);
      fixedLit := new nat[TABLE_SIZE](_ => 0);
      fixedDist := new nat[TABLE_SIZE](_ => 0);
      new;
      hide Decodes, FixedLit, FixedDist;
      FixedTables(next, fixedLit, fixedDist);
    }
  }

  // ----- where the reader stands when a block ends

  /** The reader's position and buffer behind a code of `n` bits, or behind a stored
      block when `n` is 0. */
  predicate Ended(n: nat, base: nat, pin: nat, bits: nat) {
    if n == 0 then AlignedAt(base, pin, bits) else WordAt(base, pin) && AfterCode(n, bits)
  }

  /** Where the blocks that start with `bs` end. */
  ghost predicate BlocksEnded(bs: seq<bool>, out: seq<byte>, base: nat, pin: nat, bits: nat) {
    Blocks(CODE, bs, out).Good? ==> Ended(LastEnd(CODE, bs, out), base, pin, bits)
  }

  /** The last of the blocks that start with `bs` is the last of those that start with `bs'`. */
  ghost predicate SameEnd(bs: seq<bool>, out: seq<byte>, bs': seq<bool>, out': seq<byte>) {
    Blocks(CODE, bs, out).Good? ==>
      && Blocks(CODE, bs', out').Good? && LastEnd(CODE, bs, out) == LastEnd(CODE, bs', out')
      && LastFetch(CODE, bs, out) == LastFetch(CODE, bs', out')
      && forall input, end :: BlocksTaken(input, end, bs, out) ==> BlocksTaken(input, end, bs', out')
  }

  // ----- what is refused

  /** The bits from the start of the input to the end of the data. */
  function Consumed(input: seq<byte>, rest: seq<bool>): int { 8 * |input| - |rest| }

  /** What the decoder asks of a block beyond the format: a stored one must end before `end`,
      and a dynamic one have codes that the decoder takes. */
  ghost predicate BlockTaken(input: seq<byte>, end: nat, t: nat, bs: seq<bool>, out: seq<byte>)
    requires Block(CODE, t, bs, out).Good?
  {
    if t == 0 then end < WORD32 && Consumed(input, Block(CODE, t, bs, out).rest) <= 8 * end
    else t == 2 ==>
      var d := DynamicCodes(true, bs);
      d.Good? && HeaderTaken(d.value.0, d.value.1)
  }

  ghost predicate BlocksTaken(input: seq<byte>, end: nat, bs: seq<bool>, out: seq<byte>)
    requires Blocks(CODE, bs, out).Good?
    decreases |bs|
  {
    hide Block;
    var h := Number(bs, 1);
    var t := Number(h.rest, 2);
    var b := Block(CODE, t.value, t.rest, out);
    BlockTaken(input, end, t.value, t.rest, out) && (h.value == 1 || BlocksTaken(input, end, b.rest, b.value))
  }

  /** Why the data of a block may be refused: it has no reading, does not fit in the buffer,
      is not taken, or its end code comes late. */
  ghost predicate DataLate(r: Reader, t: nat, bs: seq<bool>, out: seq<byte>, length: nat) {
    var b := Block(CODE, t, bs, out);
    b.Good? && Fits(|b.value|, length) && BlockTaken(r.input, r.end, t, bs, out) ==>
      t != 0 && r.Late(|b.rest| + EndLength(CODE, t, bs, out))
  }

  /** And why blocks may be refused. */
  ghost predicate BlocksLate(r: Reader, bs: seq<bool>, out: seq<byte>, length: nat) {
    var b := Blocks(CODE, bs, out);
    b.Good? && Fits(|b.value|, length) && BlocksTaken(r.input, r.end, bs, out) ==> r.Late(LastFetch(CODE, bs, out))
  }

  /** A dynamic block after its header. */
  method InflateDynamic(r: Reader, w: Work, out: array<byte>, pout: nat) returns (ok: bool, pout': nat)
    requires r.Ready() && w.Valid() && pout <= out.Length
    modifies r, out, w.next, w.lens, w.tlit, w.tdist
    ensures r.Ready() && w.Valid()
    ensures ok ==> pout <= pout' <= out.Length && |r.Unread()| <= |old(r.Unread())|
    ensures ok ==>
      var b := Block(CODE, 2, old(r.Unread()), old(out[..pout]));
      && (b == Good(out[..pout'], r.Unread()) || Excused(b))
      && (b.Good? ==> Ended(EndLength(CODE, 2, old(r.Unread()), old(out[..pout])), r.base, r.pin, r.bits))
    ensures !ok ==> DataLate(r, 2, old(r.Unread()), old(out[..pout]), out.Length)
  {
    hide Usable, HeaderTaken, Fits, BytesToBits, DynamicCodes, Symbols, FixedLit, FixedDist, WordAt, AfterCode;
    ghost var lit, dist;
    pout' := pout;
    ok, lit, dist := ReadDynamic(r, w.next, w.lens, w.tlit, w.tdist);
    if !ok {
      return;
    }
    ok, pout' := InflateSymbols(r, out, pout, w.tlit, w.tdist, lit, dist);
  }

  /** One block of type `t` after its header. */
  method InflateData(r: Reader, w: Work, t: nat, out: array<byte>, pout: nat) returns (ok: bool, pout': nat)
    requires r.Ready() && w.Valid() && pout <= out.Length && 1 <= r.bits
    modifies r, out, w.next, w.lens, w.tlit, w.tdist
    ensures r.Valid() && (ok ==> r.Ready()) && w.Valid()
    ensures ok ==> pout <= pout' <= out.Length && |r.Unread()| <= |old(r.Unread())|
    ensures ok ==>
      var b := Block(CODE, t, old(r.Unread()), old(out[..pout]));
      && (b == Good(out[..pout'], r.Unread()) || Excused(b))
      && (b.Good? ==> Ended(EndLength(CODE, t, old(r.Unread()), old(out[..pout])), r.base, r.pin, r.bits))
    ensures !ok ==> DataLate(r, t, old(r.Unread()), old(out[..pout]), out.Length)
  {
    hide Usable, HeaderTaken, Fits, BytesToBits, DynamicCodes, Symbols, FixedLit, FixedDist, Stored, WordAt, AfterCode;
    if t == 0 {
      ok, pout' := InflateStored(r, out, pout);
    } else if t == 1 {
      ok, pout' := InflateSymbols(r, out, pout, w.fixedLit, w.fixedDist, FixedLit(), FixedDist());
    } else if t == 2 {
      ok, pout' := InflateDynamic(r, w, out, pout);
    } else {
      ok, pout' := false, pout;
    }
  }

  /** One block. */
  method InflateBlock(r: Reader, w: Work, out: array<byte>, pout: nat) returns (ok: bool, last: bool, pout': nat)
    requires r.Ready() && w.Valid() && pout <= out.Length
    modifies r, out, w.next, w.lens, w.tlit, w.tdist
    ensures r.Valid() && (ok ==> r.Ready()) && w.Valid()
    ensures ok ==> pout <= pout' <= out.Length && |r.Unread()| < |old(r.Unread())|
    ensures ok ==>
      var b := Blocks(CODE, old(r.Unread()), old(out[..pout]));
      || b == (if last then Good(out[..pout'], r.Unread()) else Blocks(CODE, r.Unread(), out[..pout']))
      || Excused(b)
    ensures ok ==>
      if last then BlocksEnded(old(r.Unread()), old(out[..pout]), r.base, r.pin, r.bits)
      else SameEnd(old(r.Unread()), old(out[..pout]), r.Unread(), out[..pout'])
    ensures !ok ==> BlocksLate(r, old(r.Unread()), old(out[..pout]), out.Length)
  {
    hide Usable, BytesToBits, Block, EndLength, FixedLit, FixedDist, WordAt, Ended, CodePadding, BlockTaken;
    pout', last := pout, false;
    ok := r.Fetch();
    if !ok {
      return;
    }
    var l := r.Take(1);
    last := l == 1;
    var t := r.Take(2);
    ok, pout' := InflateData(r, w, t, out, pout);
  }

  /** Blocks up to the one marked last. */
  method InflateBlocks(r: Reader, w: Work, out: array<byte>, pout0: nat) returns (ok: bool, pout: nat)
    requires r.Ready() && w.Valid() && pout0 <= out.Length
    modifies r, out, w.next, w.lens, w.tlit, w.tdist
    ensures r.Valid() && w.Valid()
    ensures ok ==> pout0 <= pout <= out.Length && |r.Unread()| < |old(r.Unread())|
    ensures ok ==>
      var b := Blocks(CODE, old(r.Unread()), old(out[..pout0]));
      b == Good(out[..pout], r.Unread()) || Excused(b)
    ensures ok ==> BlocksEnded(old(r.Unread()), old(out[..pout0]), r.base, r.pin, r.bits)
    ensures !ok ==> BlocksLate(r, old(r.Unread()), old(out[..pout0]), out.Length)
  {
    hide Usable, BytesToBits, Blocks, LastEnd, LastFetch, BlocksTaken, FixedLit, FixedDist, WordAt, Ended, Fits;
    var last;
    ok, last, pout := InflateBlock(r, w, out, pout0);
    while ok && !last
      invariant r.Valid() && (ok ==> r.Ready()) && w.Valid()
      invariant ok ==> pout0 <= pout <= out.Length && |r.Unread()| < |old(r.Unread())|
      invariant ok ==>
        var b := Blocks(CODE, old(r.Unread()), old(out[..pout0]));
        || b == (if last then Good(out[..pout], r.Unread()) else Blocks(CODE, r.Unread(), out[..pout]))
        || Excused(b)
      invariant ok ==>
        if last then BlocksEnded(old(r.Unread()), old(out[..pout0]), r.base, r.pin, r.bits)
        else SameEnd(old(r.Unread()), old(out[..pout0]), r.Unread(), out[..pout])
      invariant !ok ==> BlocksLate(r, old(r.Unread()), old(out[..pout0]), out.Length)
      decreases ok, |r.Unread()|
    {
      ok, last, pout := InflateBlock(r, w, out, pout);
    }
  }

  // ----- streams

  /** How many bits are buffered when the data ends with bit `c`, behind a code of `n` bits:
      the reader takes whole words, and only while it holds less than fifteen bits. */
  function Ahead(n: nat, base: nat, c: int): nat
    requires n <= 15
  {
    if n == 0 then (0 - 8 * base - c) % 32 else 15 - n + (0 - 8 * base - c - (15 - n)) % 32
  }

  /** The byte the reader goes on with then. */
  function NextByte(n: nat, base: nat, c: nat): nat
    requires n <= 15
  {
    (c + Ahead(n, base, c)) / 8
  }

  lemma AheadExact(n: nat, base: nat, pin: nat, bits: nat)
    requires n <= 15 && Ended(n, base, pin, bits) && bits <= 8 * pin
    ensures Ahead(n, base, 8 * pin - bits) == bits && NextByte(n, base, 8 * pin - bits) == pin
  {
    var q := (base + pin) / 4;
    var m := if n == 0 then 0 else 15 - n;
    assert 0 - 8 * base - (8 * pin - bits) - m == (0 - q) * 32 + (bits - m);
    ModUnique(0 - q, bits - m, 32);
  }

  /** The zlib streams from byte `p` on, as long as more than a checksum is left. Each
      appends its data to `out`. */
  ghost function Streams(input: seq<byte>, end: nat, base: nat, p: nat, out: seq<byte>): (r: Parse<seq<byte>>)
    requires end + 3 <= |input|
    ensures r.Good? ==> |out| <= |r.value|
    decreases end - p
  {
    if end - p <= 4 then Good(out, [])
    else if !HeaderOk(input[p], input[p + 1]) then Bad(NoHeader)
    else
      var bs := BytesToBits(input[p + 2..]);
      var (out', rest) :- Blocks(CODE, bs, out);
      Streams(input, end, base, NextByte(LastEnd(CODE, bs, out), base, Consumed(input, rest)), out')
  }

  /** What the decoder asks of streams beyond the format: their blocks are taken, and the last
      symbol of each is not read late. */
  ghost predicate StreamsTaken(input: seq<byte>, end: nat, base: nat, p: nat, out: seq<byte>)
    requires end + 3 <= |input| && Streams(input, end, base, p, out).Good?
    decreases end - p
  {
    end - p <= 4 ||
    var bs := BytesToBits(input[p + 2..]);
    var b := Blocks(CODE, bs, out);
    && BlocksTaken(input, end, bs, out) && !LateAt(|input|, end, LastFetch(CODE, bs, out))
    && StreamsTaken(input, end, base, NextByte(LastEnd(CODE, bs, out), base, Consumed(input, b.rest)), b.value)
  }

  /** The streams from byte `p` on have a reading, which fits in a buffer of `length`, and are
      taken. */
  ghost predicate Accepted(input: seq<byte>, end: nat, base: nat, p: nat, out: seq<byte>, length: nat)
    requires end + 3 <= |input|
  {
    var s := Streams(input, end, base, p, out);
    s.Good? && Fits(|s.value|, length) && StreamsTaken(input, end, base, p, out)
  }

  /** Then the first of them has a header and blocks that are not refused. */
  lemma {:induction false} AcceptedFirst(input: seq<byte>, end: nat, base: nat, p: nat, out: seq<byte>, length: nat)
    requires end + 3 <= |input| && p + 4 < end && Accepted(input, end, base, p, out, length)
    ensures var bs := BytesToBits(input[p + 2..]);
      var b := Blocks(CODE, bs, out);
      && HeaderOk(input[p], input[p + 1]) && b.Good? && Fits(|b.value|, length)
      && BlocksTaken(input, end, bs, out) && !LateAt(|input|, end, LastFetch(CODE, bs, out))
      && Accepted(input, end, base, NextByte(LastEnd(CODE, bs, out), base, Consumed(input, b.rest)), b.value, length)
  {
    hide BytesToBits, Blocks, LastEnd, LastFetch, BlocksTaken, HeaderOk, NextByte, LateAt;
  }

  lemma {:induction false} StreamNext(input: seq<byte>, end: nat, base: nat, p: nat, out: seq<byte>)
    requires end + 3 <= |input| && p + 4 < end && HeaderOk(input[p], input[p + 1])
    ensures var bs := BytesToBits(input[p + 2..]);
      var b := Blocks(CODE, bs, out);
      Streams(input, end, base, p, out) ==
        if b.Bad? then Bad(b.flaw)
        else Streams(input, end, base, NextByte(LastEnd(CODE, bs, out), base, Consumed(input, b.rest)), b.value)
  {
    hide BytesToBits, Blocks, LastEnd, HeaderOk, NextByte;
  }

  /** A stream whose blocks have been read is one step. */
  lemma {:induction false} StreamStep(input: seq<byte>, end: nat, base: nat, p: nat, out: seq<byte>,
                                      pin: nat, bits: nat, out': seq<byte>, rest: seq<bool>, length: nat)
    requires end + 3 <= |input| && p + 4 < end && HeaderOk(input[p], input[p + 1])
    requires pin <= |input| && bits <= 8 * pin && |rest| == 8 * (|input| - pin) + bits
    requires var b := Blocks(CODE, BytesToBits(input[p + 2..]), out); b == Good(out', rest) || Excused(b)
    requires BlocksEnded(BytesToBits(input[p + 2..]), out, base, pin, bits)
    ensures var s := Streams(input, end, base, p, out); s == Streams(input, end, base, pin, out') || Excused(s)
    ensures Accepted(input, end, base, p, out, length) ==> Accepted(input, end, base, pin, out', length)
  {
    hide BytesToBits, Blocks, LastEnd, LastFetch, BlocksTaken, HeaderOk, Ended, NextByte, Marked, Accepted, Streams;
    hide Fits, LateAt;
    StreamNext(input, end, base, p, out);
    if Accepted(input, end, base, p, out, length) { AcceptedFirst(input, end, base, p, out, length); }
    var bs := BytesToBits(input[p + 2..]);
    if Blocks(CODE, bs, out).Good? { AheadExact(LastEnd(CODE, bs, out), base, pin, bits); }
  }

  /** One zlib stream, starting at the reader's byte position. */
  method InflateStream(r: Reader, w: Work, out: array<byte>, pout0: nat) returns (ok: bool, pout: nat)
    requires r.Valid() && w.Valid() && pout0 <= out.Length && r.end - r.pin > 4
    modifies r, out, w.next, w.lens, w.tlit, w.tdist
    ensures r.Valid() && w.Valid()
    ensures ok ==> pout0 <= pout <= out.Length && old(r.pin) < r.pin
    ensures ok ==>
      var s := Streams(r.input, r.end, r.base, old(r.pin), old(out[..pout0]));
      s == Streams(r.input, r.end, r.base, r.pin, out[..pout]) || Excused(s)
    ensures Accepted(r.input, r.end, r.base, old(r.pin), old(out[..pout0]), out.Length) ==>
      ok && Accepted(r.input, r.end, r.base, r.pin, out[..pout], out.Length)
  {
    hide Usable, BytesToBits, ToBits, Pow2, Blocks, FixedLit, FixedDist, HeaderOk, WordAt;
    hide BlocksEnded, Streams, Excused, Accepted, LastFetch, LastEnd, BlocksTaken, Fits, NextByte;
    var p := r.pin;
    if Accepted(r.input, r.end, r.base, p, out[..pout0], out.Length) {
      AcceptedFirst(r.input, r.end, r.base, p, out[..pout0], out.Length);
    }
    if !HeaderOk(r.input[p], r.input[p + 1]) {
      return false, pout0;
    }
    r.Seek(p + 2);
    BytesDrop(r.input, p + 2);
    r.Align();
    ghost var before := out[..pout0];
    ok, pout := InflateBlocks(r, w, out, pout0);
    if ok { StreamStep(r.input, r.end, r.base, p, before, r.pin, r.bits, out[..pout], r.Unread(), out.Length); }
  }

  /** Goes on with further streams as long as more than a checksum is left. */
  method InflateStreams(r: Reader, w: Work, out: array<byte>, pout0: nat) returns (ok: bool, pout: nat)
    requires r.Valid() && w.Valid() && pout0 <= out.Length
    modifies r, out, w.next, w.lens, w.tlit, w.tdist
    ensures ok ==> pout <= out.Length
    ensures ok ==>
      var s := Streams(r.input, r.end, r.base, old(r.pin), old(out[..pout0]));
      s == Good(out[..pout], []) || Excused(s)
    ensures Accepted(r.input, r.end, r.base, old(r.pin), old(out[..pout0]), out.Length) ==> ok
  {
    hide Usable, BytesToBits, HeaderOk, Blocks, LastEnd, Accepted;
    ok, pout := true, pout0;
    while r.end - r.pin > 4
      invariant r.Valid() && w.Valid() && pout <= out.Length
      invariant
        var s := Streams(r.input, r.end, r.base, old(r.pin), old(out[..pout0]));
        s == Streams(r.input, r.end, r.base, r.pin, out[..pout]) || Excused(s)
      invariant Accepted(r.input, r.end, r.base, old(r.pin), old(out[..pout0]), out.Length) ==>
        Accepted(r.input, r.end, r.base, r.pin, out[..pout], out.Length)
      decreases |r.input| - r.pin
    {
      ok, pout := InflateStream(r, w, out, pout);
      if !ok {
        return;
      }
    }
    ok := true;
  }

  /** What success says: the output is the data of all streams, unless one of them has
      an oversubscribed code with a one-bit symbol 0. */
  ghost predicate Inflated(input: seq<byte>, end: nat, base: nat, out: seq<byte>)
    requires end + 3 <= |input|
  {
    var s := Streams(input, end, base, 0, []);
    s == Good(out, []) || Excused(s)
  }

  /** The streams have a reading that fills a buffer of `length` bytes, and are taken. */
  ghost predicate Acceptable(input: seq<byte>, end: nat, base: nat, length: nat)
    requires end + 3 <= |input|
  {
    Accepted(input, end, base, 0, [], length) && |Streams(input, end, base, 0, []).value| == length
  }

  /** Behind a compressed last block the data is late by the bit it ends with. */
  lemma {:induction false} LateExact(input: seq<byte>, end: nat, bs: seq<bool>, out: seq<byte>)
    requires Blocks(CODE, bs, out).Good? && LastEnd(CODE, bs, out) > 0
    ensures var c, n := Consumed(input, Blocks(CODE, bs, out).rest), LastEnd(CODE, bs, out);
      LateAt(|input|, end, LastFetch(CODE, bs, out)) <==> c + 14 - n >= 8 * (end - 3)
    decreases |bs|
  {
    hide Block, EndLength;
    var h := Number(bs, 1);
    var t := Number(h.rest, 2);
    var b := Block(CODE, t.value, t.rest, out);
    if h.value != 1 {
      LateExact(input, end, b.rest, b.value);
    }
  }

  /** Inflates the zlib streams in the first `end` bytes of `input`. */
  method InflateAll(input: seq<byte>, end: nat, base: nat, out: array<byte>) returns (ok: bool)
    requires end + 3 <= |input|
    modifies out
    ensures ok ==> Inflated(input, end, base, out[..])
    ensures Acceptable(input, end, base, out.Length) ==> ok
  {
    hide Accepted, Acceptable, Inflated, BytesToBits, ToBits, Pow2, Usable, FixedLit, FixedDist;
    var r := new Reader(input, end, base);
    var w := new Work();
    ok := InflateFrom(r, w, out);
  }

  /** All streams from the start of the input, into the whole buffer. */
  method InflateFrom(r: Reader, w: Work, out: array<byte>) returns (ok: bool)
    requires r.Valid() && w.Valid() && r.pin == 0
    modifies r, out, w.next, w.lens, w.tlit, w.tdist
    ensures ok ==> Inflated(r.input, r.end, r.base, out[..])
    ensures Acceptable(r.input, r.end, r.base, out.Length) ==> ok
  {
    hide Streams, Accepted, Acceptable, Inflated, Excused, BytesToBits, ToBits, Pow2, Usable, FixedLit, FixedDist;
    assert out[..0] == [];
    Filled(r.input, r.end, r.base, out.Length);
    var pout;
    ok, pout := InflateStreams(r, w, out, 0);
    if ok { FilledBy(r.input, r.end, r.base, out.Length, out[..pout]); }
    ok := ok && pout == out.Length;
    assert ok ==> out[..pout] == out[..];
  }

  lemma Filled(input: seq<byte>, end: nat, base: nat, length: nat)
    requires end + 3 <= |input|
    ensures Acceptable(input, end, base, length) ==> Accepted(input, end, base, 0, [], length)
  {}

  lemma FilledBy(input: seq<byte>, end: nat, base: nat, length: nat, out: seq<byte>)
    requires end + 3 <= |input|
    requires var s := Streams(input, end, base, 0, []); s == Good(out, []) || Excused(s)
    ensures Inflated(input, end, base, out) && (Acceptable(input, end, base, length) ==> |out| == length)
  {}

  // ----- where the next stream is looked for

  /** The data ends in the byte before this one. */
  function DataEnd(c: nat): nat { (c + 7) / 8 }

  /** The next header is looked for just behind the four bytes of the checksum if and only
      if 32 to 39 bits are buffered when the data ends. A stored block never leaves that
      many. */
  lemma {:induction false} NextExact(n: nat, base: nat, c: nat)
    requires n <= 15
    ensures NextByte(n, base, c) == DataEnd(c) + 4 <==> 32 <= Ahead(n, base, c) <= 39
    ensures DataEnd(c) <= NextByte(n, base, c) && (n == 0 ==> NextByte(n, base, c) < DataEnd(c) + 4)
  {
    var a := Ahead(n, base, c);
    var m := if n == 0 then 0 else 15 - n;
    var x := 0 - 8 * base - c - m;
    var k := 0 - base - 4 * (x / 32);
    assert c + a == 8 * k;
  }

  /** After a stream with valid data the decoder goes on with that byte, whatever it is. */
  lemma {:induction false} SecondStream(input: seq<byte>, end: nat, base: nat, p: nat, out: seq<byte>)
    requires end + 3 <= |input| && p + 4 < end && HeaderOk(input[p], input[p + 1])
    requires Blocks(CODE, BytesToBits(input[p + 2..]), out).Good?
    ensures var bs := BytesToBits(input[p + 2..]);
      var b := Blocks(CODE, bs, out);
      var n, c := LastEnd(CODE, bs, out), Consumed(input, b.rest);
      var q := NextByte(n, base, c);
      && Streams(input, end, base, p, out) == Streams(input, end, base, q, b.value)
      && (q == DataEnd(c) + 4 <==> 32 <= Ahead(n, base, c) <= 39)
      && (end - q > 4 && !HeaderOk(input[q], input[q + 1]) ==> Streams(input, end, base, p, out) == Bad(NoHeader))
  {
    hide Blocks, LastEnd, BytesToBits, HeaderOk, Ahead, NextByte;
    var bs := BytesToBits(input[p + 2..]);
    var b := Blocks(CODE, bs, out);
    NextExact(LastEnd(CODE, bs, out), base, Consumed(input, b.rest));
  }

  lemma NoFirstHeader(input: seq<byte>, end: nat, base: nat)
    requires 4 < end && end + 3 <= |input|
    ensures !HeaderOk(input[0], input[1]) ==> Streams(input, end, base, 0, []) == Bad(NoHeader)
  {
    hide Blocks, LastEnd, BytesToBits, HeaderOk;
  }

  /** The first stream alone: its header is valid and, unless it has such a code, its data;
      when it ends within a checksum of the end, it is all of the output. */
  lemma {:induction false} FirstStream(input: seq<byte>, end: nat, base: nat, out: seq<byte>)
    requires 4 < end && end + 3 <= |input| && Inflated(input, end, base, out)
    ensures var b := Blocks(CODE, BytesToBits(input[2..]), []);
      && HeaderOk(input[0], input[1])
      && (b.Good? <==> !Excused(b)) && (b.Good? && Consumed(input, b.rest) > 8 * (end - 5) ==> out == b.value)
  {
    hide Blocks, LastEnd, BytesToBits, HeaderOk, Ahead, NextByte;
    var bs := BytesToBits(input[2..]);
    var b := Blocks(CODE, bs, []);
    NoFirstHeader(input, end, base);
    if b.Good? && HeaderOk(input[0], input[1]) {
      SecondStream(input, end, base, 0, []);
      var c := Consumed(input, b.rest);
      var q := NextByte(LastEnd(CODE, bs, []), base, c);
      NextExact(LastEnd(CODE, bs, []), base, c);
      if c > 8 * (end - 5) { assert Streams(input, end, base, q, b.value) == Good(b.value, []); }
    }
  }

  /** An empty stream of one stored block, with more than a checksum behind it. */
  ghost predicate EmptyFirst(input: seq<byte>, end: nat) {
    && 12 < end && end + 3 <= |input|
    && input[2] == 1 && input[3] == input[4] == 0 && input[5] == input[6] == 255
  }

  /** The header of a last stored block: a one and two zeros. */
  lemma {:induction false} LastStoredHeader(bs: seq<bool>, out: seq<byte>)
    requires 3 <= |bs| && bs[0] && !bs[1] && !bs[2]
    ensures Blocks(CODE, bs, out) == Stored(CodePadding, bs[3..], out)
    ensures Stored(CodePadding, bs[3..], out).Good? ==> LastEnd(CODE, bs, out) == 0
  {
    hide Stored, CodePadding;
    assert bs[..1] == [true] && LsbFirst([true]) == 1;
    assert bs[1..][..2] == [false, false] && bs[1..][2..] == bs[3..];
    assert [false, false][1..] == [false] && LsbFirst([false]) == 0;
  }

  /** A byte 1 on a byte boundary: such a header, and then the next byte. */
  lemma {:induction false} ByteOne(m: seq<byte>, p: nat)
    requires p < |m| && m[p] == 1
    ensures var bs := BytesToBits(m[p..]);
      |bs| == 8 * (|m| - p) && bs[0] && !bs[1] && !bs[2] && bs[8..] == BytesToBits(m[p + 1..])
  {
    hide BytesToBits, ToBits;
    BytesFrom(m, p);
    OneBit(m[p]);
  }

  lemma OneBit(b: nat)
    requires b == 1
    ensures var t := ToBits(b, 8); t[0] && !t[1] && !t[2]
  {
    assert ToBits(b, 8)[1..] == ToBits(b / 2, 7) && ToBits(b / 2, 7)[1..] == ToBits(b / 2 / 2, 6);
  }

  lemma {:induction false} OnePadding(bs: seq<bool>, out: seq<byte>)
    requires 8 <= |bs| && |bs| % 8 == 0
    ensures Stored(CodePadding, bs[3..], out) == StoredData(bs[8..], out)
  {
    hide StoredData;
    assert bs[3..][5..] == bs[8..];
  }

  /** The first stream ends with its stored block, behind byte 6. */
  lemma {:induction false} EmptyFirstEnds(input: seq<byte>, end: nat)
    requires EmptyFirst(input, end)
    ensures var bs := BytesToBits(input[2..]);
      Blocks(CODE, bs, []) == Good([], BytesToBits(input[7..])) && LastEnd(CODE, bs, []) == 0
  {
    hide BytesToBits, StoredData, Stored, Blocks, LastEnd, CodePadding;
    ByteOne(input, 2);
    LastStoredHeader(BytesToBits(input[2..]), []);
    OnePadding(BytesToBits(input[2..]), []);
    EmptyStored(input, 3, []);
  }

  lemma AheadOfEmpty(base: nat)
    requires base % 4 == 0
    ensures NextByte(0, base, 56) == 8
  {}

  /** Two streams one behind the other are refused when the first is such an empty
      one: the second header is looked for in byte 8, the second of the checksum. */
  method RefusesSecond(input: seq<byte>, end: nat, base: nat, out: array<byte>) returns (ok: bool)
    requires EmptyFirst(input, end) && base % 4 == 0 && input[8] % 16 != 8
    modifies out
    ensures !ok
  {
    hide Blocks, LastEnd, BytesToBits, Streams, Ahead, NextByte;
    EmptyFirstEnds(input, end);
    AheadOfEmpty(base);
    if HeaderOk(input[0], input[1]) { SecondStream(input, end, base, 0, []); }
    NoFirstHeader(input, end, base);
    ok := InflateAll(input, end, base, out);
  }
}
