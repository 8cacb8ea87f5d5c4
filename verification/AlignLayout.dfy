/** The padded layout: exactly the least pad that works, and where the secret
    bytes end up. */
module AlignLayout {
  import opened Arith
  import opened AlignSolver
  import opened AlignAlloc

  /** A number modulo 64 as a line offset. */
  function OffOf(n: nat): Off { (n % 64) as bv6 }

  lemma OffInt(n: nat)
    ensures Int(OffOf(n)) == n % 64
  {
    SmallInt(n % 64);
  }

  lemma SmallInt(i: nat)
    requires i < 64
    ensures Int(i as bv6) == i
  {}

  lemma SubInt(k: Off, c: Off)
    ensures Int(k - c) == if Int(k) >= Int(c) then Int(k) - Int(c) else Int(k) - Int(c) + 64
  {}

  lemma LessInt(k: Off, c: Off)
    ensures k < c <==> Int(k) < Int(c)
  {}

  // ----- the bitmap of the requests

  /** Some byte of the request falls on line offset `k` when the object starts at
      the beginning of a line. */
  ghost predicate LineHit(r: AlignReq, k: nat) { exists b: nat :: Covers(r, b) && b % 64 == k }

  lemma LineHitIff(r: AlignReq, k: nat)
    requires k < 64
    ensures LineHit(r, k) <==> (k - r.offset) % 64 < r.len
  {
    var t := (k - r.offset) % 64;
    if t < r.len {
      assert Covers(r, r.offset + t) && (r.offset + t) % 64 == k;
    }
    forall b: nat | Covers(r, b) && b % 64 == k ensures t < r.len {
      assert t == (b - r.offset) % 64;
    }
  }

  lemma RunOff(l: Off, c: Off, k: Off)
    ensures Bit(Rol(Ones(l), c), k) <==> k - c < l
  {
    hide Bit, Rol, Ones;
    RolBit(Ones(l), c, k);
    OnesBit(l, k - c);
  }

  lemma SubMod(d: int, k: int, offset: nat)
    requires 0 <= k < 64
    requires d == if k >= offset % 64 then k - offset % 64 else k - offset % 64 + 64
    ensures d == (k - offset) % 64
  {}

  lemma RunInt(r: AlignReq, k: Off, l: Off, c: Off)
    requires r.len <= 63 && l == OffOf(r.len) && c == OffOf(r.offset)
    ensures Int(k - c) < Int(l) <==> LineHit(r, Int(k))
  {
    hide OffOf, Int;
    OffInt(r.len);
    OffInt(r.offset);
    SubInt(k, c);
    SubMod(Int(k - c), Int(k), r.offset);
    LineHitIff(r, Int(k));
  }

  /** The ones of a request, rotated to their place in the line. */
  function Run(r: AlignReq): Line { Rol(Ones(OffOf(r.len)), OffOf(r.offset)) }

  lemma RunBit(r: AlignReq, k: Off)
    requires r.len <= 63
    ensures Bit(Run(r), k) <==> LineHit(r, Int(k))
  {
    hide Bit, Rol, Ones, Int;
    var l, c := OffOf(r.len), OffOf(r.offset);
    RunOff(l, c, k);
    LessInt(k - c, l);
    RunInt(r, k, l, c);
  }

  ghost predicate AnyHit(reqs: seq<AlignReq>, n: nat, k: nat)
    requires n <= |reqs|
  {
    exists i :: 0 <= i < n && LineHit(reqs[i], k)
  }

  /** The bitmap has the line offsets of the first `n` requests. */
  ghost predicate Shows(bmp: Line, reqs: seq<AlignReq>, n: nat)
    requires n <= |reqs|
  {
    forall k: Off :: Bit(bmp, k) <==> AnyHit(reqs, n, Int(k))
  }

  lemma AnyHitNext(reqs: seq<AlignReq>, n: nat, k: nat)
    requires n < |reqs|
    ensures AnyHit(reqs, n + 1, k) <==> AnyHit(reqs, n, k) || LineHit(reqs[n], k)
  {}

  lemma ShowsBit(bmp: Line, run: Line, reqs: seq<AlignReq>, n: nat, k: Off)
    requires n < |reqs| && reqs[n].len <= 63 && run == Run(reqs[n])
    requires Bit(bmp, k) <==> AnyHit(reqs, n, Int(k))
    ensures Bit(bmp | run, k) <==> AnyHit(reqs, n + 1, Int(k))
  {
    hide Bit, AnyHit, LineHit, Run, Int;
    OrBit(bmp, run, k);
    RunBit(reqs[n], k);
    AnyHitNext(reqs, n, Int(k));
  }

  lemma ShowsNext(bmp: Line, bmp': Line, reqs: seq<AlignReq>, n: nat)
    requires n < |reqs| && reqs[n].len <= 63 && Shows(bmp, reqs, n) && bmp' == bmp | Run(reqs[n])
    ensures Shows(bmp', reqs, n + 1)
  {
    hide Bit, AnyHit, Run, Int;
    forall k: Off ensures Bit(bmp', k) <==> AnyHit(reqs, n + 1, Int(k)) {
      ShowsBit(bmp, Run(reqs[n]), reqs, n, k);
    }
  }

  lemma AllBits(k: Off)
    ensures Bit(0xffff_ffff_ffff_ffff, k)
  {}

  lemma NoBits(k: Off)
    ensures !Bit(0, k)
  {}

  /** A request of 64 bytes or more touches every line offset. */
  lemma ShowsAll(bmp: Line, reqs: seq<AlignReq>, n: nat)
    requires n < |reqs| && reqs[n].len > 63 && bmp == 0xffff_ffff_ffff_ffff
    ensures Shows(bmp, reqs, |reqs|)
  {
    hide Bit, LineHit, Int;
    forall k: Off ensures Bit(bmp, k) && LineHit(reqs[n], Int(k)) {
      LineHitIff(reqs[n], Int(k));
      AllBits(k);
    }
  }

  lemma ShowsNone(bmp: Line, reqs: seq<AlignReq>)
    requires bmp == 0
    ensures Shows(bmp, reqs, 0)
  {
    hide Bit;
    forall k: Off ensures !Bit(bmp, k) { NoBits(k); }
  }

  /** Marks the line offsets of all requests; a request too long to fit in a line
      marks everything. */
  method MakeBitmap(reqs: seq<AlignReq>) returns (bmp: Line)
    ensures Shows(bmp, reqs, |reqs|)
  {
    hide Shows, Run;
    bmp := 0;
    ShowsNone(bmp, reqs);
    var n := 0;
    while n < |reqs|
      invariant 0 <= n <= |reqs| && Shows(bmp, reqs, n)
    {
      if reqs[n].len > 63 {
        ShowsAll(0xffff_ffff_ffff_ffff, reqs, n);
        return 0xffff_ffff_ffff_ffff;
      }
      ShowsNext(bmp, bmp | Run(reqs[n]), reqs, n);
      bmp := bmp | Run(reqs[n]);
      n := n + 1;
    }
  }

  // ----- pads

  /** A line offset no secret byte may have. */
  predicate Forbidden(k: nat) { k == 0 || 4 <= k <= 7 }

  /** Moved up by `pad` bytes, no requested byte has a forbidden line offset. */
  ghost predicate PadOk(reqs: seq<AlignReq>, pad: nat) {
    forall b: nat :: Covered(reqs, b) ==> !Forbidden((b + pad) % 64)
  }

  ghost predicate PadFits(al: nat, reqs: seq<AlignReq>, pad: nat)
    requires al > 0
  {
    pad < 64 && pad % al == 0 && PadOk(reqs, pad)
  }

  lemma SumMod(b: nat, j: nat, p: nat, d: int)
    requires j < 64 && p < 64 && d == if j >= p then j - p else j - p + 64
    ensures b % 64 == d <==> (b + p) % 64 == j
  {}

  /** Some requested byte lands on line offset `j` under pad `p`. */
  ghost predicate Lands(reqs: seq<AlignReq>, j: nat, p: nat) {
    exists b: nat :: Covered(reqs, b) && (b + p) % 64 == j
  }

  lemma HitLands(reqs: seq<AlignReq>, j: Off, p: Off)
    ensures AnyHit(reqs, |reqs|, Int(j - p)) <==> Lands(reqs, Int(j), Int(p))
  {
    hide Int;
    SubInt(j, p);
    forall b: nat ensures b % 64 == Int(j - p) <==> (b + Int(p)) % 64 == Int(j) {
      SumMod(b, Int(j), Int(p), Int(j - p));
    }
    if AnyHit(reqs, |reqs|, Int(j - p)) {
      var i :| 0 <= i < |reqs| && LineHit(reqs[i], Int(j - p));
      var b: nat :| Covers(reqs[i], b) && b % 64 == Int(j - p);
      assert Covered(reqs, b);
    }
    if Lands(reqs, Int(j), Int(p)) {
      var b: nat :| Covered(reqs, b) && (b + Int(p)) % 64 == Int(j);
      var i :| 0 <= i < |reqs| && Covers(reqs[i], b);
      assert LineHit(reqs[i], Int(j - p));
    }
  }

  lemma BitLands(bmp: Line, reqs: seq<AlignReq>, j: Off, p: Off)
    requires Shows(bmp, reqs, |reqs|)
    ensures Bit(bmp, j - p) <==> Lands(reqs, Int(j), Int(p))
  {
    hide Bit, Int, AnyHit, Lands;
    HitLands(reqs, j, p);
  }

  lemma Literals()
    ensures Int(0) == 0 && Int(4) == 4 && Int(5) == 5 && Int(6) == 6 && Int(7) == 7
  {}

  /** The five bits the solver looks at are the five forbidden offsets. */
  lemma ClearIff(bmp: Line, reqs: seq<AlignReq>, p: Off)
    requires Shows(bmp, reqs, |reqs|)
    ensures Clear(bmp, p) <==> PadOk(reqs, Int(p))
  {
    hide Bit, Int, Shows, Lands;
    Literals();
    BitLands(bmp, reqs, 0, p);
    BitLands(bmp, reqs, 4, p);
    BitLands(bmp, reqs, 5, p);
    BitLands(bmp, reqs, 6, p);
    BitLands(bmp, reqs, 7, p);
    PadOkIff(reqs, Int(p));
  }

  lemma PadOkIff(reqs: seq<AlignReq>, p: nat)
    ensures PadOk(reqs, p) <==>
      !Lands(reqs, 0, p) && !Lands(reqs, 4, p) && !Lands(reqs, 5, p) && !Lands(reqs, 6, p) && !Lands(reqs, 7, p)
  {
    if b: nat :| Covered(reqs, b) && Forbidden((b + p) % 64) {
      assert Lands(reqs, (b + p) % 64, p);
    }
  }

  // ----- the solver on requests

  lemma OffExists(pad: nat) returns (p: Off)
    requires pad < 64
    ensures Int(p) == pad
  {
    p := OffOf(pad);
    OffInt(pad);
  }

  lemma FitsIff(al: nat, bmp: Line, reqs: seq<AlignReq>, p: Off)
    requires al > 0 && Shows(bmp, reqs, |reqs|)
    ensures Fits(al, bmp, p) <==> PadFits(al, reqs, Int(p))
  {
    hide Clear, PadOk, Int, Shows;
    ClearIff(bmp, reqs, p);
  }

  lemma LeastPad(al: nat, bmp: Line, reqs: seq<AlignReq>)
    requires IsPowerOfTwo(al) && Shows(bmp, reqs, |reqs|)
    ensures var r := CalcLspc(al, bmp);
      r >= 0 ==> PadFits(al, reqs, r) && forall q: nat :: q < r ==> !PadFits(al, reqs, q)
    ensures CalcLspc(al, bmp) < 0 <==> forall q: nat :: !PadFits(al, reqs, q)
  {
    hide Fits, CalcLspc, Shows, PadOk, Int;
    var p := LspcExact(al, bmp);
    forall k: Off ensures Fits(al, bmp, k) <==> PadFits(al, reqs, Int(k)) { FitsIff(al, bmp, reqs, k); }
    forall q: nat | PadFits(al, reqs, q)
      ensures CalcLspc(al, bmp) >= 0 && CalcLspc(al, bmp) <= q
    {
      var k := OffExists(q);
      LessInt(k, p);
    }
  }

  predicate CheckLayout(l: Layout) {
    l.size != 0 && IsPowerOfTwo(l.align) && l.size <= WORD - 1 - (l.align - 1)
  }

  ghost predicate InUsize(reqs: seq<AlignReq>) {
    forall i :: 0 <= i < |reqs| ==> reqs[i].offset < WORD && reqs[i].len < WORD
  }

  /** The object with the largest pad and its alignment can be added up in a `usize`. */
  predicate SumsFit(l: Layout) { l.size + 64 + (if l.align > 64 then l.align else 64) <= WORD }

  /** The least pad that fits. */
  ghost predicate LeastFit(al: nat, reqs: seq<AlignReq>, pad: nat)
    requires al > 0
  {
    PadFits(al, reqs, pad) && forall q: nat :: q < pad ==> !PadFits(al, reqs, q)
  }

  /** The least pad, exactly when the layout and the requests are valid and some
      pad fits. */
  method PaddingNeededFor(l: Layout, reqs: seq<AlignReq>, got: bool) returns (r: Result<nat>)
    requires l.size < WORD - 7 && InUsize(reqs)
    ensures r.Ok? ==> CheckLayout(l) && LeastFit(l.align, reqs, r.value)
    ensures r.Ok? <==> got && CheckLayout(l) && ValidReqs(l.size, reqs) && exists q: nat :: PadFits(l.align, reqs, q)
  {
    hide PadFits, CalcLspc, Shows, ValidReqs;
    if !CheckLayout(l) {
      return Err;
    }
    var ok := CheckAlignReq(l.size, reqs, got);
    if !ok {
      return Err;
    }
    var bmp := MakeBitmap(reqs);
    LeastPad(l.align, bmp, reqs);
    var offset := CalcLspc(l.align, bmp);
    if offset < 0 {
      return Err;
    }
    return Ok(offset);
  }

  // ----- the padded layout

  function HalveAlign(size: nat, a: nat): nat {
    if a > 8 && size <= a / 2 then HalveAlign(size, a / 2) else a
  }

  function CalcAlgn(al: nat, size: nat): nat { if al > 64 then al else HalveAlign(size, 64) }

  function AlignUp(raw: nat, align: nat): nat
    requires align > 0
  {
    (raw + align - 1) / align * align
  }

  function AlignedPtr(raw: nat, align: nat, offset: nat): nat
    requires align > 0
  {
    AlignUp(raw, align) + offset
  }

  /** `l'` adds the least pad and the alignment that goes with it. */
  ghost predicate Padded(l: Layout, reqs: seq<AlignReq>, l': Layout) {
    var pad := l'.size - l'.align - l.size;
    && CheckLayout(l) && ValidReqs(l.size, reqs)
    && 0 <= pad && LeastFit(l.align, reqs, pad)
    && l'.align == CalcAlgn(l.align, l.size + pad)
  }

  lemma AlignChoices(al: nat, size: nat)
    ensures al <= 64 ==>
      CalcAlgn(al, size) == if size <= 8 then 8 else if size <= 16 then 16 else if size <= 32 then 32 else 64
  {
    if al <= 64 {
      assert HalveAlign(size, 64) == if size <= 32 then HalveAlign(size, 32) else 64;
      assert HalveAlign(size, 32) == if size <= 16 then HalveAlign(size, 16) else 32;
      assert HalveAlign(size, 16) == if size <= 8 then HalveAlign(size, 8) else 16;
    }
  }

  method PadAlignTo(l: Layout, reqs: seq<AlignReq>, got: bool) returns (r: Result<Layout>)
    requires SumsFit(l) && InUsize(reqs)
    ensures r.Ok? ==> Padded(l, reqs, r.value)
    ensures r.Ok? <==> got && CheckLayout(l) && ValidReqs(l.size, reqs) && exists pad: nat :: Paddable(l, reqs, pad)
  {
    hide PadFits, ValidReqs, LeastFit, CalcAlgn;
    var p := PaddingNeededFor(l, reqs, got);
    if p.Err? {
      PaddableFits(l, reqs);
      return Err;
    }
    var pad := p.value;
    assert pad < 64 by { SmallPad(l.align, reqs, pad); }
    var align := CalcAlgn(l.align, l.size + pad);
    AlignChoices(l.align, l.size + pad);
    ChosenPower(l.align, l.size + pad);
    OnePad(l, reqs, pad);
    assert align <= if l.align > 64 then l.align else 64 by { AlignAtMost(l.align, l.size + pad); }
    var size := pad + align + l.size;
    if !IsPowerOfTwo(align) || size + (align - 1) >= WORD {
      return Err;
    }
    assert Paddable(l, reqs, pad);
    return Ok(Layout(size, align));
  }

  /** The least pad, and the layout with it still has room to be aligned. */
  ghost predicate Paddable(l: Layout, reqs: seq<AlignReq>, pad: nat) {
    l.align > 0 && LeastFit(l.align, reqs, pad) && pad + 2 * CalcAlgn(l.align, l.size + pad) + l.size <= WORD
  }

  lemma PaddableFits(l: Layout, reqs: seq<AlignReq>)
    ensures (exists pad: nat :: Paddable(l, reqs, pad)) ==> l.align > 0 && exists q: nat :: PadFits(l.align, reqs, q)
  {
    hide PadFits, CalcAlgn;
    if pad: nat :| Paddable(l, reqs, pad) { assert PadFits(l.align, reqs, pad); }
  }

  lemma OnePad(l: Layout, reqs: seq<AlignReq>, pad: nat)
    requires l.align > 0 && LeastFit(l.align, reqs, pad)
    ensures forall q: nat :: Paddable(l, reqs, q) ==> q == pad
    ensures exists q: nat :: PadFits(l.align, reqs, q)
  {
    hide PadFits;
    assert PadFits(l.align, reqs, pad);
  }

  lemma AlignAtMost(al: nat, size: nat)
    ensures CalcAlgn(al, size) <= if al > 64 then al else 64
  {
    AlignChoices(al, size);
  }

  lemma SmallPad(al: nat, reqs: seq<AlignReq>, pad: nat)
    requires al > 0 && LeastFit(al, reqs, pad)
    ensures pad < 64
  {}

  lemma PowersBelow64()
    ensures IsPowerOfTwo(8) && IsPowerOfTwo(16) && IsPowerOfTwo(32) && IsPowerOfTwo(64)
  {}

  // ----- where the object ends up

  lemma AlignUpProperties(raw: nat, align: nat)
    requires align > 0
    ensures AlignUp(raw, align) % align == 0 && raw <= AlignUp(raw, align) < raw + align
  {
    var q := (raw + align - 1) / align;
    MultipleMod(q, align);
    assert raw + align - 1 == q * align + (raw + align - 1) % align;
  }

  lemma MultipleTrans(x: nat, a: nat, b: nat)
    requires a > 0 && b > 0 && x % a == 0 && a % b == 0
    ensures x % b == 0
  {
    var q, d := x / a, a / b;
    assert x == (q * d) * b;
    MultipleMod(q * d, b);
  }

  /** A block of 8, 16 or 32 bytes that is not at the start of its line is clear of
      the forbidden offsets; otherwise the pad keeps the byte off them. */
  lemma SmallBlock(start: nat, a: nat, x: nat)
    requires (a == 8 || a == 16 || a == 32) && start % a == 0 && x < a && !Forbidden(x % 64)
    ensures !Forbidden((start + x) % 64)
  {
    if
    case a == 8 => Block8(start, x);
    case a == 16 => Block16(start, x);
    case a == 32 => Block32(start, x);
  }

  lemma Block8(start: nat, x: nat)
    requires start % 8 == 0 && x < 8 && !Forbidden(x)
    ensures !Forbidden((start + x) % 64)
  {
    var q := start / 8;
    assert start + x == q / 8 * 64 + (8 * (q % 8) + x);
    ModUnique(q / 8, 8 * (q % 8) + x, 64);
  }

  lemma Block16(start: nat, x: nat)
    requires start % 16 == 0 && x < 16 && !Forbidden(x)
    ensures !Forbidden((start + x) % 64)
  {
    var q := start / 16;
    assert start + x == q / 4 * 64 + (16 * (q % 4) + x);
    ModUnique(q / 4, 16 * (q % 4) + x, 64);
  }

  lemma Block32(start: nat, x: nat)
    requires start % 32 == 0 && x < 32 && !Forbidden(x)
    ensures !Forbidden((start + x) % 64)
  {
    var q := start / 32;
    assert start + x == q / 2 * 64 + (32 * (q % 2) + x);
    ModUnique(q / 2, 32 * (q % 2) + x, 64);
  }

  lemma LineBlock(start: nat, x: nat)
    requires start % 64 == 0 && !Forbidden(x % 64)
    ensures !Forbidden((start + x) % 64)
  {}

  /** Secret placement: whatever address the allocator starts from, no requested
      byte has an address congruent to 0, 4, 5, 6 or 7 modulo 64. */
  lemma SecretPlacement(l: Layout, reqs: seq<AlignReq>, l': Layout, raw: nat, b: nat)
    requires Padded(l, reqs, l') && Covered(reqs, b)
    ensures l'.align > 0 && !Forbidden((AlignedPtr(raw, l'.align, l'.size - l'.align - l.size) + b) % 64)
  {
    hide AlignUp, IsPowerOfTwo;
    var a, pad := l'.align, l'.size - l'.align - l.size;
    AlignChoices(l.align, l.size + pad);
    AlignUpProperties(raw, a);
    var start := AlignUp(raw, a);
    var i :| 0 <= i < |reqs| && Covers(reqs[i], b);
    if l.align > 64 || a == 64 {
      LineMultiple(l, a, start);
      LineBlock(start, pad + b);
    } else {
      SmallBlock(start, a, pad + b);
    }
  }

  lemma LineMultiple(l: Layout, a: nat, start: nat)
    requires CheckLayout(l) && (a == 64 || (l.align > 64 && a == l.align)) && start % a == 0
    ensures start % 64 == 0
  {
    if a > 64 {
      SmallPowers(a);
      MultipleTrans(start, a, 64);
    }
  }

  /** The object and its pad stay inside the block. */
  lemma InsideBlock(l: Layout, reqs: seq<AlignReq>, l': Layout, raw: nat)
    requires Padded(l, reqs, l') && l'.align > 0
    ensures var p := AlignedPtr(raw, l'.align, l'.size - l'.align - l.size);
      raw <= p && p + l.size < raw + l'.size
  {
    AlignUpProperties(raw, l'.align);
  }

  lemma MultiplesAdd(x: nat, y: nat, n: nat)
    requires n > 0 && x % n == 0 && y % n == 0
    ensures (x + y) % n == 0
  {
    var q, d := x / n, y / n;
    assert x + y == (q + d) * n;
    MultipleMod(q + d, n);
  }

  lemma PowersDivide(a: nat, b: nat)
    requires IsPowerOfTwo(a) && IsPowerOfTwo(b) && b <= a
    ensures a % b == 0
  {
    if b < a {
      PowerSplit(a, b);
      MultipleMod(2, b);
      MultipleTrans(a, 2 * b, b);
    }
  }

  /** The chosen alignment reaches the layout's exactly when that is above 64, at
      most 8, or less than twice the padded size. */
  lemma ReachesIff(al: nat, size: nat)
    requires IsPowerOfTwo(al)
    ensures al <= CalcAlgn(al, size) <==> al > 64 || al <= 8 || size > al / 2
  {
    hide IsPowerOfTwo, HalveAlign;
    SmallPowers(al);
    AlignChoices(al, size);
  }

  lemma ChosenPower(al: nat, size: nat)
    requires IsPowerOfTwo(al)
    ensures IsPowerOfTwo(CalcAlgn(al, size))
  {
    hide HalveAlign, IsPowerOfTwo;
    AlignChoices(al, size);
    PowersBelow64();
  }

  lemma AlignedAt(al: nat, a: nat, pad: nat, raw: nat)
    requires IsPowerOfTwo(al) && IsPowerOfTwo(a) && al <= a && pad % al == 0
    ensures AlignedPtr(raw, a, pad) % al == 0
  {
    hide AlignUp;
    PowersDivide(a, al);
    AlignUpProperties(raw, a);
    MultipleTrans(AlignUp(raw, a), a, al);
    MultiplesAdd(AlignUp(raw, a), pad, al);
  }

  /** Whatever address the block has, the pointer is a multiple of `al`. */
  ghost predicate AlwaysAligned(a: nat, pad: nat, al: nat)
    requires a > 0 && al > 0
  {
    forall raw: nat :: AlignedPtr(raw, a, pad) % al == 0
  }

  lemma AlwaysAlignedIff(a: nat, pad: nat, al: nat)
    requires IsPowerOfTwo(a) && IsPowerOfTwo(al) && a > 0 && al > 0 && pad % al == 0
    ensures AlwaysAligned(a, pad, al) <==> al <= a
  {
    hide AlignedPtr, IsPowerOfTwo;
    if al <= a {
      forall raw: nat ensures AlignedPtr(raw, a, pad) % al == 0 { AlignedAt(al, a, pad, raw); }
    } else {
      OwnAddressMisses(a, pad, al);
    }
  }

  lemma OwnAddressMisses(a: nat, pad: nat, al: nat)
    requires 0 < a < al && pad % al == 0
    ensures AlignedPtr(a, a, pad) % al != 0
  {
    hide AlignUp;
    SelfUp(a);
    Misaligned(a, pad, al);
  }

  /** The same of the layout that was returned. */
  lemma PaddedAligned(l: Layout, reqs: seq<AlignReq>, l': Layout)
    requires Padded(l, reqs, l') && l'.align > 0
    ensures var pad := l'.size - l'.align - l.size;
      l.align > 0 && (AlwaysAligned(l'.align, pad, l.align)
                      <==> l.align > 64 || l.align <= 8 || l.size + pad > l.align / 2)
  {
    assert l.align > 0;
    hide PadOk, ValidReqs, CalcAlgn, IsPowerOfTwo, AlwaysAligned;
    var pad := l'.size - l'.align - l.size;
    ReachesIff(l.align, l.size + pad);
    ChosenPower(l.align, l.size + pad);
    AlwaysAlignedIff(l'.align, pad, l.align);
  }

  /** The pad is a multiple of the alignment, and none is needed exactly when the
      object may start its line. */
  lemma NoPad(al: nat, reqs: seq<AlignReq>, pad: nat)
    requires al > 0 && LeastFit(al, reqs, pad)
    ensures pad == 0 <==> PadOk(reqs, 0)
    ensures pad > 0 ==> pad >= al
  {
    hide PadOk;
    assert 0 % al == 0 by { MultipleMod(0, al); }
    if PadOk(reqs, 0) { assert PadFits(al, reqs, 0); }
    if 0 < pad < al { SmallMod(pad, al); }
  }

  /** The pointer is aligned for every block address if and only if the alignment is
      above 64, at most 8, or less than twice the size, or the object may not start
      its line. */
  lemma PointerAligned(l: Layout, reqs: seq<AlignReq>, l': Layout)
    requires Padded(l, reqs, l') && l'.align > 0
    ensures var pad := l'.size - l'.align - l.size;
      l.align > 0 && (AlwaysAligned(l'.align, pad, l.align)
                      <==> l.align > 64 || l.align <= 8 || 2 * l.size > l.align || !PadOk(reqs, 0))
  {
    hide PadOk, ValidReqs, CalcAlgn, AlwaysAligned, LeastFit;
    PaddedAligned(l, reqs, l');
    NoPad(l.align, reqs, l'.size - l'.align - l.size);
    if l.align > 1 { EvenPower(l.align); }
  }

  lemma EvenPower(al: nat)
    requires IsPowerOfTwo(al) && al > 1
    ensures al % 2 == 0
  {}

  lemma SelfUp(a: nat)
    requires a > 0
    ensures AlignUp(a, a) == a
  {
    ModUnique(1, a - 1, a);
  }

  lemma Misaligned(a: nat, pad: nat, al: nat)
    requires 0 < a < al && pad % al == 0
    ensures (a + pad) % al != 0
  {
    ShiftMod(a, pad / al, al);
    SmallMod(a, al);
  }

  /** In particular whenever the object is at least as large as its alignment. */
  lemma LargeEnough(l: Layout, reqs: seq<AlignReq>, l': Layout, raw: nat)
    requires Padded(l, reqs, l') && l'.align > 0 && l.size >= l.align
    ensures l.align > 0 && AlignedPtr(raw, l'.align, l'.size - l'.align - l.size) % l.align == 0
  {
    hide PadOk, ValidReqs, CalcAlgn, AlignedPtr;
    PointerAligned(l, reqs, l');
  }

  /** A smaller object can miss its alignment: three bytes aligned to 16 with a
      secret in the second get a block alignment of 8. */
  lemma SmallMisses(l: Layout, reqs: seq<AlignReq>)
    requires l == Layout(3, 16) && |reqs| == 1 && reqs[0] == AlignReq(1, 1)
    ensures Padded(l, reqs, Layout(11, 8)) && AlignedPtr(8, 8, 0) % 16 != 0
  {
    PowersBelow64();
    assert CheckLayout(l) && ValidReqs(3, reqs);
    OnlySecond(reqs);
    AlignChoices(16, 3);
  }

  lemma OnlySecond(reqs: seq<AlignReq>)
    requires |reqs| == 1 && reqs[0] == AlignReq(1, 1)
    ensures PadFits(16, reqs, 0)
  {
    forall b: nat | Covered(reqs, b) ensures !Forbidden((b + 0) % 64) {
      assert Covers(reqs[0], b);
    }
  }

  // ----- the second copy of the solver

  /** The overflow test of the attribute macro, on wrapped sums. */
  predicate WrapsAround(offset: nat, len: nat) {
    (offset + len) % WORD < len || (offset + len) % WORD < offset
  }

  /** It agrees with the checked addition of the allocator. */
  lemma OverflowTestsAgree(offset: nat, len: nat)
    requires offset < WORD && len < WORD
    ensures WrapsAround(offset, len) <==> offset + len >= WORD
  {}
}
