/** The decoder's input: a reservoir of up to 46 buffered bits in front of the
    unread bytes. */
module BitReader {
  import opened Arith
  import opened Bits
  import opened Bytes
  import opened Canonical
  import opened HuffmanTable
  import opened SecondaryTable
  import opened InflateTable
  import opened Deflate

  function Join(low: nat, high: nat): nat { low + high * 256 }

  /** The four bytes at `p` as a little-endian word. */
  function Word(m: seq<byte>, p: nat): (r: nat)
    requires p + 4 <= |m|
    ensures r < WORD32
  {
    Join(m[p], Join(m[p + 1], Join(m[p + 2], m[p + 3])))
  }

  lemma {:induction false} BytesFrom(m: seq<byte>, p: nat)
    requires p < |m|
    ensures BytesToBits(m[p..]) == ToBits(m[p], 8) + BytesToBits(m[p + 1..])
  {
    assert m[p..][1..] == m[p + 1..];
  }

  lemma {:induction false} WordBits(m: seq<byte>, p: nat)
    requires p + 4 <= |m|
    ensures BytesToBits(m[p..]) == ToBits(Word(m, p), 32) + BytesToBits(m[p + 4..])
  {
    hide ToBits, BytesToBits;
    BytesFrom(m, p);
    BytesFrom(m, p + 1);
    BytesFrom(m, p + 2);
    BytesFrom(m, p + 3);
    assert Pow2(8) == 256;
    ToBitsGlue(m[p + 2], m[p + 3], 8, 8);
    ToBitsGlue(m[p + 1], Join(m[p + 2], m[p + 3]), 8, 16);
    ToBitsGlue(m[p], Join(m[p + 1], Join(m[p + 2], m[p + 3])), 8, 24);
  }

  /** Buffering a chunk of `k` bits above the `bits` already held. */
  lemma {:induction false} Buffer(val: nat, bits: nat, x: nat, k: nat)
    requires val < Pow2(bits) && x < Pow2(k)
    ensures var v := Or(val, x * Pow2(bits));
      v < Pow2(bits + k) && ToBits(v, bits + k) == ToBits(val, bits) + ToBits(x, k)
  {
    hide ToBits, Or;
    OrGlue(val, x, bits);
    ToBitsGlue(val, x, bits, k);
    Pow2Add(bits, k);
    MulLe(x + 1, Pow2(k), Pow2(bits));
    Distribute(x, 1, Pow2(bits));
  }

  lemma Pow32()
    ensures Pow2(32) == WORD32
  {
    assert Pow2(12) == 4096;
    assert Pow2(24) == 16777216;
  }

  lemma {:induction false} BytesDrop(m: seq<byte>, p: nat)
    requires p <= |m|
    ensures BytesToBits(m)[8 * p..] == BytesToBits(m[p..])
  {
    if p > 0 {
      BytesDrop(m[1..], p - 1);
      assert m[1..][p - 1..] == m[p..];
      assert BytesToBits(m)[8 * p..] == BytesToBits(m[1..])[8 * (p - 1)..];
    }
  }

  lemma {:induction false} FirstByte(val: nat, bits: nat, u: seq<bool>)
    requires 8 <= bits <= |u| && u[..bits] == ToBits(val, bits)
    ensures LsbFirst(u[..8]) == val % 256
  {
    hide ToBits, LsbFirst;
    ToBitsLow(val, 8, bits);
    assert u[..8] == u[..bits][..8];
    LsbOfToBits(val, 8);
    Low8(val);
  }

  /** What the table gives for a window is what decoding its bits gives, symbol 0 being read
      where no code begins them. */
  lemma {:induction false} SymbolOfLookup(lens: Lengths, t: seq<nat>, val: nat, bits: nat, u: seq<bool>)
    requires Valid(lens) && Decodes(lens, t) && 15 <= bits <= |u| && u[..bits] == ToBits(val, bits)
    ensures Symbol(true, lens, u) == Good(Lookup(t, val).0, u[Lookup(t, val).1..])
  {
    hide ToBits, Decode, Lookup, Longer, LsbFirst;
    ToBitsLow(val, 15, bits);
    assert u[..15] == u[..bits][..15];
    if s: nat :| Match(lens, s, val) {
      DecodeFinds(lens, s, val, u, 1);
    } else {
      DecodeMisses(lens, val, u, 1);
      FirstByte(val, bits, u);
      GapSame(lens, val);
    }
  }

  lemma GapSame(lens: Lengths, w: nat)
    ensures Gap(lens, w % 256) == Gap(lens, w)
  {}

  /** No length exceeds seven. */
  ghost predicate Short(lens: Lengths) { forall s :: 0 <= s < |lens| ==> lens[s] <= 7 }

  /** A code of at most seven bits has no second level. */
  lemma {:induction false} ShortDirect(lens: Lengths, t: seq<nat>, w: nat)
    requires Decodes(lens, t) && Short(lens)
    ensures !IsPointer(t[w % 256])
  {
    hide Low;
    assert !Longer(lens, w % 256);
    if s: nat :| Match(lens, s, w) {
      assert Lookup(t, w) == (s, lens[s]);
    } else {
      assert Lookup(t, w) == (0, Gap(lens, w));
    }
  }

  class Reader {
    /** The bytes that may be read; the stream proper ends at `end`. */
    const input: seq<byte>
    const end: nat
    /** The address of `input[0]`. */
    const base: nat

    var pin: nat
    var val: nat
    var bits: nat

    /** Conservation: the buffered bits followed by the unread bytes spell the
        suffix of the input that has not been consumed. */
    ghost predicate Valid()
      reads this
    {
      && end + 3 <= |input| && pin <= |input| && bits <= 46 && bits <= 8 * pin
      && val < Pow2(bits) && ToBits(val, bits) + BytesToBits(input[pin..]) == Unread()
    }

    /** Between reads the next byte is at a multiple of four. */
    ghost predicate Ready()
      reads this
    {
      Valid() && WordAt(base, pin)
    }

    /** A fetch where `left` bits are left may find less than four bytes before the end. */
    ghost predicate Late(left: nat) { LateAt(|input|, end, left) }

    /** What remains to be decoded. */
    ghost function Unread(): seq<bool>
      requires pin <= |input| && bits <= 8 * pin
      reads this
    {
      BytesToBits(input)[8 * pin - bits..]
    }

    constructor (input: seq<byte>, end: nat, base: nat)
      requires end + 3 <= |input|
      ensures Valid() && fresh(this) && bits == 0 && pin == 0
      ensures this.input == input && this.end == end && this.base == base
    {
      this.input, this.end, this.base := input, end, base;
      pin, val, bits := 0, 0, 0;
    }

    /** Empties the buffer and goes on at byte `p`. */
    method Seek(p: nat)
      requires end + 3 <= |input| && p <= |input|
      modifies this
      ensures Valid() && pin == p && bits == 0
    {
      hide BytesToBits;
      pin, val, bits := p, 0, 0;
      BytesDrop(input, p);
    }

    /** Makes sure that at least fifteen bits are buffered. */
    method Fetch() returns (ok: bool)
      requires Ready()
      modifies this
      ensures Ready() && Unread() == old(Unread())
      ensures ok ==> bits >= 15
      ensures !ok ==> pin == old(pin) && val == old(val) && bits == old(bits) < 15 && end - pin < 4
      ensures !ok ==> Late(|Unread()|)
    {
      hide ToBits, BytesToBits, Or, Pow2, Word, WordAt;
      if bits >= 15 {
        return true;
      }
      if end - pin < 4 {
        return false;
      }
      var next := Word(input, pin);
      WordBits(input, pin);
      Pow32();
      Buffer(val, bits, next, 32);
      NextWordAt(base, pin);
      val := Or(val, next * Pow2(bits));
      bits := bits + 32;
      pin := pin + 4;
      return true;
    }

    /** Drops `n` buffered bits. */
    method Drop(n: nat)
      requires Ready() && n <= bits
      modifies this
      ensures Ready() && bits == old(bits) - n && pin == old(pin) && val == Shr(old(val), n)
      ensures Unread() == old(Unread())[n..]
    {
      hide ToBits, BytesToBits, Shr, WordAt;
      ghost var u := Unread();
      ToBitsLow(val, n, bits);
      ShrFits(val, n, bits);
      val := Shr(val, n);
      bits := bits - n;
      assert u[n..] == old(ToBits(val, bits))[n..] + BytesToBits(input[pin..]);
    }

    /** Takes `n` buffered bits as a number. */
    method Take(n: nat) returns (x: nat)
      requires Ready() && n <= bits
      modifies this
      ensures Ready() && bits == old(bits) - n && pin == old(pin)
      ensures Number(old(Unread()), n) == Good(x, Unread()) && x < Pow2(n)
    {
      hide ToBits, BytesToBits, LsbFirst, Shr, WordAt;
      x := Low(val, n);
      ToBitsLow(val, n, bits);
      LsbOfToBits(val, n);
      assert Unread()[..n] == ToBits(val, bits)[..n];
      Drop(n);
    }

    /** Decodes one symbol through the table; the buffer always has enough bits. */
    method NextSymbol(table: array<nat>, ghost lens: Lengths) returns (ok: bool, s: nat)
      requires Ready() && table.Length == TABLE_SIZE
      modifies this
      ensures Ready() && (ok ==> s < 512 && |Unread()| < |old(Unread())|)
      ensures ok ==> 15 <= bits + (|old(Unread())| - |Unread()|) <= 46
      ensures !ok ==> Late(|old(Unread())|)
      ensures ok && Canonical.Valid(lens) && Decodes(lens, table[..]) ==>
        Symbol(true, lens, old(Unread())) == Good(s, Unread())
    {
      hide ToBits, BytesToBits, Decodes, Low, WordAt, Late;
      ok := Fetch();
      if !ok {
        return false, 0;
      }
      var t := table[val % 256];
      var n;
      if !IsPointer(t) {
        s, n := t % 512, t / 512 % 8 + 1;
      } else {
        assert Cell(t, val) < TABLE_SIZE by {
          Pow2Le(Sb(t), 7);
          assert Pow2(7) == 128;
        }
        t := table[Cell(t, val)];
        s, n := t % 512, t / 512 % 8 + 8;
      }
      assert (s, n) == Lookup(table[..], val);
      if Canonical.Valid(lens) && Decodes(lens, table[..]) {
        SymbolOfLookup(lens, table[..], val, bits, Unread());
      }
      Drop(n);
    }

    /** The same for a code of at most seven bits, whose table is never split. */
    method NextDirect(table: array<nat>, ghost lens: Lengths) returns (ok: bool, s: nat)
      requires Ready() && table.Length == TABLE_SIZE
      modifies this
      ensures Ready() && (ok ==> s < 512 && |Unread()| < |old(Unread())| && bits >= 7)
      ensures ok && Canonical.Valid(lens) && Decodes(lens, table[..]) ==>
        Symbol(true, lens, old(Unread())) == Good(s, Unread())
      ensures !ok && Decodes(lens, table[..]) && Short(lens) ==> Late(|old(Unread())|)
    {
      hide ToBits, BytesToBits, Decodes, Low, WordAt, Short, Late, Pow2;
      ok := Fetch();
      if !ok {
        return false, 0;
      }
      var t := table[val % 256];
      ghost var w := val;
      if Decodes(lens, table[..]) && Short(lens) { ShortDirect(lens, table[..], w); }
      if IsPointer(t) {
        return false, 0;
      }
      var b := t / 512 % 8;
      s := t % 512;
      assert (s, b + 1) == Lookup(table[..], val);
      if Canonical.Valid(lens) && Decodes(lens, table[..]) {
        SymbolOfLookup(lens, table[..], val, bits, Unread());
      }
      Drop(b + 1);
    }

    /** Only the bytes before the next multiple of four are buffered. */
    ghost predicate JustAligned()
      reads this
    {
      AlignedAt(base, pin, bits)
    }

    /** Buffers one byte. */
    method AddByte()
      requires Valid() && pin < |input| && bits <= 38
      modifies this
      ensures Valid() && Unread() == old(Unread()) && pin == old(pin) + 1 && bits == old(bits) + 8
    {
      hide ToBits, BytesToBits, Or, Pow2;
      BytesFrom(input, pin);
      Pow8();
      Buffer(val, bits, input[pin], 8);
      val := Or(val, input[pin] * Pow2(bits));
      bits := bits + 8;
      pin := pin + 1;
    }

    /** Buffers bytes until the next one is at a multiple of four. */
    method Align()
      requires Valid() && bits == 0 && pin + 3 <= |input|
      modifies this
      ensures Valid() && Unread() == old(Unread()) && pin <= old(pin) + 3 && JustAligned()
    {
      hide Valid, Unread, WordAt, ToWord;
      ghost var n := ToWord(base, pin);
      WordDistance(base, pin);
      while !WordAt(base, pin)
        invariant Valid() && pin <= |input| && bits <= 8 * pin && Unread() == old(Unread())
        invariant old(pin) <= pin && bits == 8 * (pin - old(pin)) && pin - old(pin) + ToWord(base, pin) == n
        decreases ToWord(base, pin)
      {
        WordDistance(base, pin);
        AddByte();
      }
      WordDistance(base, pin);
    }

    /** Gives back whole buffered bytes, drops the rest of the current one. */
    method Rewind()
      requires Valid() && 1 <= bits
      modifies this
      ensures Valid() && bits == 0 && CodePadding(|old(Unread())|) <= |old(Unread())|
      ensures Unread() == old(Unread())[CodePadding(|old(Unread())|)..]
    {
      hide BytesToBits, CodePadding, ToBits, Pow2;
      while bits > 8
        invariant 1 <= bits && pin <= |input| && bits <= 8 * pin && 8 * pin - bits == old(8 * pin - bits)
      {
        pin := pin - 1;
        bits := bits - 8;
      }
      ghost var u, b := Unread(), bits;
      assert |u| == 8 * (|input| - pin) + b;
      PaddingIs(|input| - pin, b);
      Seek(pin);
      assert Unread() == u[b..];
    }
  }

  /** Of `length` bytes all but `left` bits have been read, and less than 15 bits more come
      before the last four bytes that end at `end`. */
  predicate LateAt(length: nat, end: nat, left: nat) { 8 * length - left + 14 >= 8 * (end - 3) }

  /** Byte `pin` is at a multiple of four. */
  predicate WordAt(base: nat, pin: nat) { (base + pin) % 4 == 0 }

  lemma NextWordAt(base: nat, pin: nat)
    requires WordAt(base, pin)
    ensures WordAt(base, pin + 4)
  {}

  /** How many bytes on the next multiple of four is. */
  function ToWord(base: nat, pin: nat): nat { (4 - (base + pin) % 4) % 4 }

  lemma WordDistance(base: nat, pin: nat)
    ensures ToWord(base, pin) <= 3
    ensures if WordAt(base, pin) then ToWord(base, pin) == 0 else ToWord(base, pin + 1) == ToWord(base, pin) - 1
  {}

  /** Byte `pin` is at a multiple of four, and less than four whole bytes are buffered. */
  predicate AlignedAt(base: nat, pin: nat, bits: nat) { WordAt(base, pin) && bits <= 24 && bits % 8 == 0 }

  /** Pointer differences are narrowed to 32 bits before they are compared. */
  function Narrow(x: nat): nat { x % WORD32 }

  /** `n` bytes fit in a buffer of `length`, whose size is not cut by narrowing. */
  predicate Fits(n: nat, length: nat) { n <= length < WORD32 }

  lemma NarrowLess(x: nat)
    ensures Narrow(x) <= x && (x < WORD32 ==> Narrow(x) == x)
  {}

  /** The bits a stored block skips in this decoder: a whole byte when it should
      skip nothing. */
  function CodePadding(left: nat): nat { if left % 8 == 0 then 8 else left % 8 }

  /** The rules this decoder follows. */
  const CODE: Rules := Rules(CodePadding, true)

  lemma PaddingIs(k: nat, b: nat)
    requires 1 <= b <= 8
    ensures CodePadding(8 * k + b) == b
  {}

  lemma Pow8()
    ensures Pow2(8) == 256
  {}
}
