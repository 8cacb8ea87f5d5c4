/** The allocator: first fit over a short free list, pages from the system. */
module Freelist {
  import opened Arith
  import opened Bytes
  import opened Heap

  const MAX_ENTRIES: nat := 16
  /** Sizes from here on may go back to the system. */
  const LARGE: nat := 16 * 4096

  predicate Aligned(n: nat) { n % 8 == 0 }

  lemma AlignedAdd(a: nat, b: nat)
    requires Aligned(a) && Aligned(b)
    ensures Aligned(a + b)
  {}

  lemma AlignedLarge(n: nat)
    requires Aligned(n) && n > 0
    ensures n >= 8
  {}

  /** What the system gives for a request of pages. */
  datatype Page = NoPage | Page(addr: nat)
  datatype Pointer = Null | Pointer(addr: nat)

  /** Rounded up to a power of two by a mask. */
  function RoundUp(size: nat, unit: nat): nat
    requires unit > 0
  {
    var n := (size + unit - 1) % WORD;
    n - n % unit
  }

  lemma RoundUpExact(size: nat, unit: nat)
    requires unit > 0 && size + unit <= WORD
    ensures size <= RoundUp(size, unit) < size + unit && RoundUp(size, unit) % unit == 0
  {
    var n := size + unit - 1;
    SmallMod(n, WORD);
    ShiftMod(n - n % unit, 0 - n / unit, unit);
    assert n - n % unit == n / unit * unit;
    MultipleMod(n / unit, unit);
  }

  /** Rounding up covers the size exactly when the sum does not wrap around. */
  lemma RoundUpCovers(size: nat, unit: nat)
    requires 0 < unit < WORD && size < WORD
    ensures RoundUp(size, unit) >= size <==> size + unit <= WORD
  {
    if size + unit <= WORD {
      RoundUpExact(size, unit);
    } else {
      RoundUpWraps(size, unit);
    }
  }

  // ----- free lists

  predicate Proper(b: Block) { Aligned(b.addr) && b.size >= HEADER }

  /** Free blocks are aligned, hold their header, belong to the system's pages but
      not to a caller, and do not overlap. */
  ghost predicate Sound(free: seq<Block>, owned: set<nat>, mapped: set<nat>) {
    |free| <= MAX_ENTRIES
    && (forall i :: 0 <= i < |free| ==> Proper(free[i]) && Within(free[i], mapped) && Outside(free[i], owned))
    && (forall i, j :: 0 <= i < j < |free| ==> Apart(free[i], free[j]))
  }

  /** Every address the system gives is one, and none is in the first word. */
  ghost predicate Addresses(mapped: set<nat>) { forall x :: x in mapped ==> 8 <= x < WORD }

  lemma {:induction false} SoundLinkable(free: seq<Block>, owned: set<nat>, mapped: set<nat>)
    requires Sound(free, owned, mapped) && Addresses(mapped)
    ensures Linkable(free)
  {
    hide Outside;
    forall i | 0 <= i < |free| ensures 0 < free[i].addr < WORD && HEADER <= free[i].size < WORD {
      FitsInSpace(free[i], mapped);
    }
    forall i, j | 0 <= i < |free| && 0 <= j < |free| && i != j ensures Apart(free[i], free[j]) {
      assert Apart(free[if i < j then i else j], free[if i < j then j else i]);
    }
  }

  /** A block that may join the list. */
  ghost predicate Spare(b: Block, free: seq<Block>, owned: set<nat>, mapped: set<nat>) {
    Aligned(b.addr) && Within(b, mapped) && Outside(b, owned)
    && forall i :: 0 <= i < |free| ==> Apart(b, free[i])
  }

  lemma SoundPush(b: Block, free: seq<Block>, owned: set<nat>, mapped: set<nat>)
    requires Sound(free, owned, mapped) && |free| < MAX_ENTRIES
    requires Spare(b, free, owned, mapped) && b.size >= HEADER
    ensures Sound([b] + free, owned, mapped)
  {
    hide Proper, Within, Outside;
    forall i, j | 0 <= i < j < |free| + 1 ensures Apart(([b] + free)[i], ([b] + free)[j]) {
      if i == 0 { assert Apart(b, free[j - 1]); } else { assert Apart(free[i - 1], free[j - 1]); }
    }
    assert Proper(b) by { ProperSpare(b, free, owned, mapped); }
  }

  lemma ProperSpare(b: Block, free: seq<Block>, owned: set<nat>, mapped: set<nat>)
    requires Spare(b, free, owned, mapped) && b.size >= HEADER
    ensures Proper(b)
  {}

  lemma SoundRemove(free: seq<Block>, i: nat, owned: set<nat>, mapped: set<nat>)
    requires Sound(free, owned, mapped) && i < |free|
    ensures Sound(Without(free, i), owned, mapped) && Spare(free[i], Without(free, i), owned, mapped)
  {
    hide Within, Outside;
    var t := Without(free, i);
    forall j, k | 0 <= j < k < |t| ensures Apart(t[j], t[k]) {
      assert t[j] == free[if j < i then j else j + 1] && t[k] == free[if k < i then k else k + 1];
    }
    forall j | 0 <= j < |t| ensures Apart(free[i], t[j]) {
      assert t[j] == free[if j < i then j else j + 1];
    }
  }

  lemma SpareRemove(b: Block, free: seq<Block>, i: nat, owned: set<nat>, mapped: set<nat>)
    requires Spare(b, free, owned, mapped) && i < |free|
    ensures Spare(b, Without(free, i), owned, mapped)
  {}

  /** One block is gone, and none that stayed is smaller. */
  ghost predicate KeepsLargest(all: seq<Block>, kept: seq<Block>) {
    |kept| + 1 == |all|
    && exists d :: d in all && multiset(kept) + multiset{d} == multiset(all)
                   && forall k :: 0 <= k < |kept| ==> d.size <= kept[k].size
  }

  /** The list after `b` is given to it: it takes blocks of two words and more, and keeps the
      largest sixteen. */
  ghost predicate Listed(b: Block, before: seq<Block>, after: seq<Block>) {
    && (b.size < 16 ==> after == before)
    && (b.size >= 16 && |before| < 16 ==> after == [b] + before)
    && (b.size >= 16 && |before| >= 16 ==> KeepsLargest([b] + before, after))
  }

  lemma DropNew(b: Block, free: seq<Block>)
    requires forall k :: 0 <= k < |free| ==> b.size <= free[k].size
    ensures KeepsLargest([b] + free, free)
  {
    assert ([b] + free)[0] == b;
    assert multiset(free) + multiset{b} == multiset([b] + free);
  }

  lemma DropSmallest(b: Block, free: seq<Block>, i: nat)
    requires i < |free| && free[i].size < b.size
    requires forall k :: 0 <= k < |free| ==> free[i].size <= free[k].size
    ensures KeepsLargest([b] + free, [b] + Without(free, i))
  {
    var all, kept := [b] + free, [b] + Without(free, i);
    assert all[i + 1] == free[i];
    assert free == free[..i] + [free[i]] + free[i + 1..];
    assert multiset(kept) + multiset{free[i]} == multiset(all);
    forall k | 0 <= k < |kept| ensures free[i].size <= kept[k].size {
      if k > 0 { assert kept[k] == free[if k - 1 < i then k - 1 else k]; }
    }
  }

  /** The first block of at least `size` bytes, or the length of the list. */
  function FirstFit(free: seq<Block>, size: nat): (i: nat)
    ensures i <= |free| && (forall k :: 0 <= k < i ==> free[k].size < size)
    ensures i < |free| ==> free[i].size >= size
  {
    if free == [] || free[0].size >= size then 0 else 1 + FirstFit(free[1..], size)
  }

  lemma FirstFitIs(free: seq<Block>, size: nat, i: nat)
    requires i <= |free| && (forall k :: 0 <= k < i ==> free[k].size < size)
    requires i < |free| ==> free[i].size >= size
    ensures FirstFit(free, size) == i
  {}

  class State {
    const pagesize: nat
    /** The first block of the list, or 0. */
    var head: nat
    var mem: Memory
    /** The blocks on the list. */
    ghost var free: seq<Block>
    /** The bytes callers have, and all bytes the system has given. */
    ghost var owned: set<nat>
    ghost var mapped: set<nat>

    /** The headers in memory spell the list. */
    ghost predicate Valid()
      reads this
    {
      0 < pagesize < WORD && Aligned(pagesize) && owned <= mapped && Sound(free, owned, mapped)
      && Addresses(mapped) && Linked(mem, head, free)
    }

    constructor (pagesize: nat)
      requires 0 < pagesize < WORD && Aligned(pagesize)
      ensures Valid() && free == [] && owned == {} && this.pagesize == pagesize
    {
      this.pagesize, head, free, owned, mapped := pagesize, 0, [], {}, {};
      mem := (_: nat) => 0;
    }

    /** A walk stands at the `i`-th block. */
    lemma At(p: nat, i: nat)
      requires Valid() && i <= |free| && p == Link(free, i)
      ensures p == 0 <==> i == |free|
      ensures i < |free| ==>
        p == free[i].addr > 0 && ReadWord(mem, p) == Link(free, i + 1) && ReadWord(mem, p + 8) == free[i].size
    {
      hide ReadWord, Sound;
      SoundLinkable(free, owned, mapped);
      assert i < |free| ==> HeaderAt(mem, free[i], Link(free, i + 1));
    }

    /** Counts the blocks and finds the first of the smallest, and the block before it. */
    method Smallest() returns (c: nat, small: nat, prev: nat, ghost k: nat)
      requires Valid()
      ensures c == |free|
      ensures free != [] ==>
        && k < |free| && small == free[k].addr && prev == Pred(free, k)
        && forall j :: 0 <= j < |free| ==> free[k].size <= free[j].size
    {
      hide Sound, Linked, ReadWord;
      c, small, prev, k := 0, 0, 0, 0;
      var p, last := head, 0;
      HeadIs(mem, head, free);
      while p != 0
        invariant c <= |free| && p == Link(free, c) && last == Pred(free, c)
        invariant c > 0 ==>
          && k < c && small == free[k].addr && prev == Pred(free, k)
          && forall j :: 0 <= j < c ==> free[k].size <= free[j].size
        decreases |free| - c
      {
        At(p, c);
        if c > 0 { At(small, k); }
        if c == 0 || ReadWord(mem, p + 8) < ReadWord(mem, small + 8) {
          small, prev, k := p, last, c;
        }
        last, p, c := p, ReadWord(mem, p), c + 1;
      }
      At(p, c);
    }

    /** Takes the `i`-th block, at `p`, off the list: the next one becomes the head or is
        written into the block before. */
    method Unlink(p: nat, prev: nat, ghost i: nat)
      requires Valid() && i < |free| && p == free[i].addr && prev == Pred(free, i)
      modifies this`head, this`mem, this`free
      ensures Valid() && free == Without(old(free), i) && Same(old(mem), mem, owned)
      ensures Spare(old(free)[i], free, owned, mapped)
    {
      hide Sound, Linked, ReadWord, WriteWord, Spare, Without;
      SoundLinkable(free, owned, mapped);
      HeadIs(mem, head, free);
      SoundRemove(free, i, owned, mapped);
      var next := ReadWord(mem, p);
      if prev == 0 {
        assert i == 0;
        UnlinkFirst(mem, head, free);
        head := next;
      } else {
        assert i > 0;
        UnlinkLater(mem, head, free, i);
        SoundAt(free, i - 1, owned, mapped);
        NextInside(mem, free[i - 1], next, owned);
        mem := WriteWord(mem, prev, next);
      }
      free := Without(free, i);
    }

    /** Puts a block in front of the list, its header in the block. */
    method Push(b: Block)
      requires Valid() && Spare(b, free, owned, mapped) && b.size >= HEADER && |free| < MAX_ENTRIES
      modifies this`head, this`mem, this`free
      ensures Valid() && free == [b] + old(free) && Same(old(mem), mem, owned)
    {
      hide Sound, Linked, WriteHeader, Spare;
      SoundPush(b, free, owned, mapped);
      SoundLinkable([b] + free, owned, mapped);
      SpareOutside(b, free, owned, mapped);
      LinkedPush(mem, head, free, b);
      HeaderInside(mem, b, head, owned);
      mem := WriteHeader(mem, b, head);
      head := b.addr;
      free := [b] + free;
    }

    /** Adds a block to the list, which keeps the largest sixteen; a block too small
        for its header is leaked. */
    method FreeLocked(b: Block)
      requires Valid() && Spare(b, free, owned, mapped)
      modifies this`head, this`mem, this`free
      ensures Valid() && Listed(b, old(free), free) && Same(old(mem), mem, owned)
    {
      hide Sound, Spare, KeepsLargest, Linked, Without, ReadWord;
      if b.size >= HEADER {
        SoundLen(free, owned, mapped);
        var c, small, prev;
        ghost var k;
        c, small, prev, k := Smallest();
        if c >= MAX_ENTRIES {
          At(small, k);
          if b.size <= ReadWord(mem, small + 8) {
            DropNew(b, free);
            return;
          }
          DropSmallest(b, free, k);
          SpareRemove(b, free, k, owned, mapped);
          WithoutShorter(free, k);
          Unlink(small, prev, k);
        }
        ghost var m1 := mem;
        Push(b);
        SameTrans(old(mem), m1, mem, owned, owned);
      }
    }

    /** A caller writes into bytes it has. */
    method Store(a: nat, bs: seq<byte>)
      requires Valid() && Within(Block(a, |bs|), owned)
      modifies this`mem
      ensures Valid() && mem == Write(old(mem), a, bs)
    {
      hide Sound, Linked, Write;
      StoreLinked(mem, head, a, bs, free, owned, mapped);
      mem := Write(mem, a, bs);
    }

    /** Takes back a block of a caller's. Large whole pages go back to the system,
        `unmapped` telling whether it took them. */
    method Free(b: Block, unmapped: bool)
      requires Valid() && Aligned(b.addr) && Within(b, owned)
      modifies this
      ensures Valid() && owned == old(owned) - Range(b) && Same(old(mem), mem, owned)
      ensures var away := b.size >= 65536 && b.addr % pagesize == 0 && b.size % pagesize == 0 && unmapped;
        if away then mapped == old(mapped) - Range(b) && free == old(free)
        else mapped == old(mapped) && Listed(b, old(free), free)
    {
      hide Sound, Spare, Listed, Linked;
      Return(b, free, owned, mapped);
      owned := owned - Range(b);
      if b.size >= LARGE && b.addr % pagesize == 0 && b.size % pagesize == 0 && unmapped {
        Unmap(b, free, owned, mapped);
        mapped := mapped - Range(b);
        return;
      }
      FreeLocked(b);
    }

    /** Hands out a block: the front of the first fit, what is left of it going back
        on the list, or else of new pages. `got` is what the caller then has. */
    method Alloc(size: nat, page: Page, unmapped: bool) returns (r: Pointer, ghost got: Block)
      requires Valid() && size < WORD
      requires page.Page? ==> NewPages(page.addr, RoundUp(size, pagesize))
      modifies this
      ensures Valid() && Same(old(mem), mem, old(owned))
      ensures r.Null? <==> FirstFit(old(free), size) == |old(free)| && page.NoPage?
      ensures r.Null? ==> owned == old(owned) && free == old(free) && mapped == old(mapped)
      ensures r.Pointer? ==>
        && r.addr == got.addr && Aligned(got.addr)
        && Outside(got, old(owned)) && owned == old(owned) + Range(got)
        && got.size < size + 8 && (size + pagesize <= WORD ==> got.size >= size)
      ensures r.Pointer? && FirstFit(old(free), size) == |old(free)| && size + pagesize <= WORD ==>
        r.addr == page.addr && Trimmed(got, size, unmapped, old(free))
      ensures FirstFit(old(free), size) < |old(free)| ==>
        var p := old(free)[FirstFit(old(free), size)];
        r == Pointer(p.addr) && mapped == old(mapped) && got.size == Share(p, size) >= size
        && free == Rest(p, got.size) + Without(old(free), FirstFit(old(free), size))
        && (p.size - got.size >= HEADER ==> Block(p.addr + got.size, p.size - got.size) in free)
    {
      hide Sound, Spare, Linked, ReadWord, Without, RoundUp, Aligned, Outside, Addresses, Listed;
      ghost var i := 0;
      var p, prev := head, 0;
      HeadIs(mem, head, free);
      while p != 0 && ReadWord(mem, p + 8) < size
        invariant 0 <= i <= |free| && p == Link(free, i) && prev == Pred(free, i)
        invariant forall k :: 0 <= k < i ==> free[k].size < size
        modifies {}
        decreases |free| - i
      {
        At(p, i);
        prev, p := p, ReadWord(mem, p);
        i := i + 1;
      }
      At(p, i);
      FirstFitIs(free, size, i);
      if p != 0 {
        r, got := TakeFree(p, prev, size, i);
        return;
      }
      if page.NoPage? {
        return Null, Block(0, 0);
      }
      r, got := TakePages(size, page.addr, unmapped);
    }

    /** What the system may return: whole pages it has not given before. */
    ghost predicate NewPages(addr: nat, size: nat)
      requires pagesize > 0
      reads this
    {
      addr % pagesize == 0 && 0 < addr && addr + size <= WORD && Outside(Block(addr, size), mapped)
    }

    /** `got` is the rounded request, and what is left of its pages has been freed. */
    ghost predicate Trimmed(got: Block, size: nat, unmapped: bool, before: seq<Block>)
      requires pagesize > 0
      reads this
    {
      var ask := RoundUp(size, pagesize);
      got.size == RoundUp(size, 8) <= ask
      && (Listed(Block(got.addr + got.size, ask - got.size), before, free) || (ask - got.size >= LARGE && unmapped))
    }

    method TakePages(size: nat, addr: nat, unmapped: bool) returns (r: Pointer, ghost got: Block)
      requires Valid() && size < WORD && NewPages(addr, RoundUp(size, pagesize))
      modifies this
      ensures Valid() && Same(old(mem), mem, old(owned))
      ensures r == Pointer(addr) && got.addr == addr && Aligned(addr)
      ensures Outside(got, old(owned)) && owned == old(owned) + Range(got)
      ensures got.size < size + 8
      ensures size + pagesize <= WORD ==> got.size >= size && Trimmed(got, size, unmapped, old(free))
    {
      hide Sound, Spare, RoundUp, Aligned, Listed, Linked;
      var ask, rounded := RoundUp(size, pagesize), RoundUp(size, 8);
      ghost var whole := Block(addr, ask);
      Asked(size, pagesize);
      PageAligned(addr, pagesize);
      MapMore(whole, free, owned, mapped);
      mapped, owned := mapped + Range(whole), owned + Range(whole);
      r := Pointer(addr);
      if rounded < ask {
        got := Block(addr, rounded);
        WholeSplit(old(owned), whole, rounded);
        AlignedAdd(addr, rounded);
        Free(Block(addr + rounded, ask - rounded), unmapped);
      } else {
        got := whole;
        NothingListed(addr + ask, free);
      }
    }

    /** Takes the `i`-th block, at `p`, for a request. */
    method TakeFree(p: nat, prev: nat, size: nat, ghost i: nat) returns (r: Pointer, ghost got: Block)
      requires Valid() && i < |free| && p == free[i].addr && prev == Pred(free, i) && free[i].size >= size
      modifies this
      ensures Valid() && mapped == old(mapped) && Same(old(mem), mem, old(owned))
      ensures r == Pointer(old(free)[i].addr) && got.addr == r.addr && Aligned(got.addr) && got.size >= size
      ensures got.size == Share(old(free)[i], size) < size + 8
      ensures free == Rest(old(free)[i], got.size) + Without(old(free), i)
      ensures Outside(got, old(owned)) && owned == old(owned) + Range(got)
    {
      hide Sound, Spare, Linked, ReadWord, Without;
      ghost var b := free[i];
      SoundAt(free, i, owned, mapped);
      SoundLen(free, owned, mapped);
      FitsInSpace(b, mapped);
      RoundUpExact(size, 8);
      WithoutShorter(free, i);
      At(p, i);
      var whole := ReadWord(mem, p + 8);
      Unlink(p, prev, i);
      ghost var m1 := mem;
      var rounded := RoundUp(size, 8);
      r := Pointer(p);
      if rounded < whole {
        got := Block(p, rounded);
        SplitSpare(b, rounded, free, owned, mapped);
        Take(got, free, owned, mapped);
        owned := owned + Range(got);
        FreeLocked(Block(p + rounded, whole - rounded));
        SameLess(m1, mem, owned, old(owned));
        SameTrans(old(mem), m1, mem, old(owned), old(owned));
      } else {
        got := b;
        Take(got, free, owned, mapped);
        owned := owned + Range(got);
      }
    }
  }

  /** What callers write leaves the headers alone. */
  lemma {:induction false} StoreLinked(m: Memory, head: nat, a: nat, bs: seq<byte>,
                                       free: seq<Block>, owned: set<nat>, mapped: set<nat>)
    requires Linked(m, head, free) && Sound(free, owned, mapped) && Addresses(mapped)
    requires Within(Block(a, |bs|), owned)
    ensures Linked(Write(m, a, bs), head, free)
  {
    hide Linked, Linkable;
    SoundLinkable(free, owned, mapped);
    forall i | 0 <= i < |free| ensures Kept(m, Write(m, a, bs), free[i]) {
      OwnedKept(m, a, bs, free[i], owned);
    }
    LinkedKept(m, Write(m, a, bs), head, free);
  }

  lemma OwnedKept(m: Memory, a: nat, bs: seq<byte>, b: Block, owned: set<nat>)
    requires Within(Block(a, |bs|), owned) && Outside(b, owned)
    ensures Kept(m, Write(m, a, bs), b)
  {
    forall x: nat | In(x, b) ensures Write(m, a, bs)(x) == m(x) {
      assert !In(x, Block(a, |bs|));
    }
  }

  lemma HeadIs(m: Memory, head: nat, free: seq<Block>)
    requires Linked(m, head, free)
    ensures head == Link(free, 0)
  {}

  lemma WithoutShorter(free: seq<Block>, i: nat)
    requires i < |free|
    ensures |Without(free, i)| == |free| - 1
  {}

  /** How much of a block a request takes. */
  function Share(p: Block, size: nat): nat { if RoundUp(size, 8) < p.size then RoundUp(size, 8) else p.size }

  /** What goes back on the list when the first `n` bytes of a block are taken. */
  function Rest(p: Block, n: nat): seq<Block> {
    if n + HEADER <= p.size then [Block(p.addr + n, p.size - n)] else []
  }

  lemma SoundAt(free: seq<Block>, i: nat, owned: set<nat>, mapped: set<nat>)
    requires Sound(free, owned, mapped) && i < |free|
    ensures Proper(free[i]) && Within(free[i], mapped) && Outside(free[i], owned)
  {}

  lemma FitsInSpace(p: Block, mapped: set<nat>)
    requires p.size > 0 && Within(p, mapped) && Addresses(mapped)
    ensures p.size + 8 <= WORD && 8 <= p.addr < WORD
  {
    assert p.addr in mapped && p.addr + p.size - 1 in mapped;
  }

  /** The two parts of a spare block. */
  lemma SplitSpare(p: Block, n: nat, free: seq<Block>, owned: set<nat>, mapped: set<nat>)
    requires Spare(p, free, owned, mapped) && Aligned(n) && n <= p.size
    ensures Spare(Block(p.addr, n), free, owned, mapped)
    ensures Spare(Block(p.addr + n, p.size - n), free, owned + Range(Block(p.addr, n)), mapped)
  {
    AlignedAdd(p.addr, n);
    hide Aligned;
    var front, back := Block(p.addr, n), Block(p.addr + n, p.size - n);
    forall x: nat | In(x, front) ensures In(x, p) {}
    forall x: nat | In(x, back) ensures In(x, p) && !In(x, front) {}
  }

  /** A spare block can be handed out. */
  lemma Take(b: Block, free: seq<Block>, owned: set<nat>, mapped: set<nat>)
    requires Sound(free, owned, mapped) && Spare(b, free, owned, mapped) && owned <= mapped
    ensures Sound(free, owned + Range(b), mapped) && owned + Range(b) <= mapped && Outside(b, owned)
  {}

  lemma NothingListed(addr: nat, free: seq<Block>)
    ensures Listed(Block(addr, 0), free, free)
  {}

  lemma SpareOutside(b: Block, free: seq<Block>, owned: set<nat>, mapped: set<nat>)
    requires Spare(b, free, owned, mapped)
    ensures Outside(b, owned)
  {}

  lemma SoundLen(free: seq<Block>, owned: set<nat>, mapped: set<nat>)
    requires Sound(free, owned, mapped)
    ensures |free| <= MAX_ENTRIES
  {}

  /** A block a caller gives up can join the list. */
  lemma Return(b: Block, free: seq<Block>, owned: set<nat>, mapped: set<nat>)
    requires Sound(free, owned, mapped) && owned <= mapped && Aligned(b.addr) && Within(b, owned)
    ensures Sound(free, owned - Range(b), mapped) && Spare(b, free, owned - Range(b), mapped)
  {
    forall i | 0 <= i < |free| ensures Apart(b, free[i]) { OwnedApart(b, free[i], owned); }
  }

  lemma OwnedApart(b: Block, f: Block, owned: set<nat>)
    requires Within(b, owned) && Outside(f, owned)
    ensures Apart(b, f)
  {
    var x := if b.addr >= f.addr then b.addr else f.addr;
    assert In(x, b) ==> x in owned;
    assert In(x, f) ==> x !in owned;
  }

  lemma Unmap(b: Block, free: seq<Block>, owned: set<nat>, mapped: set<nat>)
    requires Sound(free, owned, mapped) && Spare(b, free, owned, mapped)
    ensures Sound(free, owned, mapped - Range(b))
  {}

  /** The pages asked for hold the rounded size, unless the sum wraps around. */
  lemma Asked(size: nat, pagesize: nat)
    requires 0 < pagesize < WORD && Aligned(pagesize) && size < WORD
    ensures var ask, rounded := RoundUp(size, pagesize), RoundUp(size, 8);
      && (size + pagesize <= WORD ==> size <= rounded <= ask) && (rounded < size + 8 || ask < size + 8)
      && (ask <= rounded ==> ask < size + 8)
      && (rounded < ask ==> Aligned(rounded) && size <= rounded)
  {
    hide RoundUp, Aligned;
    if size + pagesize <= WORD {
      AlignedLarge(pagesize);
      RoundUpExact(size, pagesize);
      RoundUpExact(size, 8);
      PageAligned(RoundUp(size, pagesize), pagesize);
      LeastMultiple(size, RoundUp(size, 8), RoundUp(size, pagesize));
    } else {
      RoundUpWraps(size, pagesize);
    }
  }

  lemma LeastMultiple(size: nat, a: nat, b: nat)
    requires size <= a < size + 8 && a % 8 == 0 && size <= b && Aligned(b)
    ensures Aligned(a) && a <= b
  {}

  lemma RoundUpWraps(size: nat, unit: nat)
    requires 0 < unit < WORD && size < WORD && size + unit > WORD
    ensures RoundUp(size, unit) == 0
  {
    ModUnique(1, size + unit - 1 - WORD, WORD);
    SmallMod(size + unit - 1 - WORD, unit);
  }

  lemma PageAligned(addr: nat, pagesize: nat)
    requires 0 < pagesize && Aligned(pagesize) && addr % pagesize == 0
    ensures Aligned(addr) && (addr > 0 ==> addr >= 8)
  {
    var q, m := addr / pagesize, pagesize / 8;
    assert addr == q * pagesize && pagesize == 8 * m;
    assert addr == (q * m) * 8;
    MultipleMod(q * m, 8);
  }

  lemma MapMore(b: Block, free: seq<Block>, owned: set<nat>, mapped: set<nat>)
    requires Sound(free, owned, mapped) && owned <= mapped && Outside(b, mapped)
    ensures Sound(free, owned + Range(b), mapped + Range(b)) && Outside(b, owned)
  {}

  lemma WholeSplit(owned: set<nat>, whole: Block, n: nat)
    requires Outside(whole, owned) && n <= whole.size
    ensures var got, rest := Block(whole.addr, n), Block(whole.addr + n, whole.size - n);
      && Within(rest, owned + Range(whole)) && owned + Range(whole) - Range(rest) == owned + Range(got)
      && Outside(got, owned)
  {}
}
