/** Growable memory on top of the allocator. */
module Vector {
  import opened Arith
  import opened Bytes
  import opened Heap
  import opened Freelist

  /** The capacity a vector of `size` bytes is given for `n` more. */
  function NewCapacity(size: nat, n: nat, pagesize: nat): nat
    requires pagesize > 0
  {
    var need := size + n;
    if size == 0 then 16 * n
    else if need < pagesize then (if 2 * need > pagesize then pagesize else 2 * need)
    else RoundUp(2 * need, pagesize)
  }

  lemma CapacityEnough(size: nat, n: nat, pagesize: nat)
    requires pagesize > 0 && 16 * n + 2 * size + 2 * pagesize <= WORD
    ensures size + n <= NewCapacity(size, n, pagesize) && NewCapacity(size, n, pagesize) + pagesize <= WORD
  {
    RoundUpExact(2 * (size + n), pagesize);
  }

  /** A new vector has room for sixteen elements; others at least double, small ones up to a
      page, large ones to whole pages. */
  lemma CapacityDoubles(size: nat, n: nat, pagesize: nat)
    requires pagesize > 0 && 16 * n + 2 * size + 2 * pagesize <= WORD
    ensures var need, cap := size + n, NewCapacity(size, n, pagesize);
      && (size == 0 ==> cap == 16 * n)
      && (0 < size && 2 * need <= pagesize ==> cap == 2 * need)
      && (0 < size && need < pagesize < 2 * need ==> cap == pagesize)
      && (0 < size && pagesize <= need ==> 2 * need <= cap < 2 * need + pagesize && cap % pagesize == 0)
  {
    RoundUpExact(2 * (size + n), pagesize);
  }

  /** What a release gives back behind the aligned end of the contents; the
      subtraction wraps around. */
  function Tail(size: nat, alc: nat): nat { (alc - (RoundUp(size, 8) - size)) % WORD }

  /** It stays inside the vector exactly when the vector reaches its aligned end. */
  lemma TailInside(size: nat, alc: nat)
    requires size + alc + 8 <= WORD
    ensures RoundUp(size, 8) + Tail(size, alc) <= size + alc <==> RoundUp(size, 8) <= size + alc
    ensures RoundUp(size, 8) <= size + alc ==> RoundUp(size, 8) + Tail(size, alc) == size + alc
  {
    hide RoundUp;
    RoundUpExact(size, 8);
    var d := alc - (RoundUp(size, 8) - size);
    if d < 0 { assert d % WORD == d + WORD; }
  }

  /** It always does when the elements are multiples of eight bytes. */
  lemma AlignedReaches(size: nat, alc: nat)
    requires Aligned(size) && size + 8 <= WORD
    ensures RoundUp(size, 8) <= size + alc
  {
    RoundUpExact(size, 8);
  }

  /** A vector of thirty-four elements of three bytes, which grew once, does not. The
      vectors of this program hold structures whose sizes are multiples of eight. */
  lemma TailWraps()
    ensures NewCapacity(48, 3, 4096) == 34 * 3 && RoundUp(34 * 3, 8) + Tail(34 * 3, 0) > 34 * 3
  {}

  class Vec {
    const st: State
    var base: nat
    var size: nat
    var alc: nat

    ghost predicate Valid()
      reads this, st
    {
      st.Valid() && Aligned(base) && size + alc + 8 <= WORD
      && (base == 0 ==> size == 0 && alc == 0) && Within(Block(base, size + alc), st.owned)
    }

    /** The bytes that have been put in. */
    ghost function Contents(): seq<byte>
      reads this, st
    {
      Slice(st.mem, base, size)
    }

    constructor (st: State)
      requires st.Valid()
      ensures Valid() && size == 0 && alc == 0 && this.st == st
    {
      this.st, base, size, alc := st, 0, 0, 0;
    }

    /** Moves the contents to a new block of `capacity` bytes. */
    method Move(capacity: nat, page: Page, unmapped: bool, unmappedOld: bool) returns (p: Pointer)
      requires Valid() && size <= capacity && 0 < capacity && capacity + st.pagesize <= WORD
      requires page.Page? ==> st.NewPages(page.addr, RoundUp(capacity, st.pagesize))
      modifies this`base, this`alc, st
      ensures Valid()
      ensures p.Null? <==> FirstFit(old(st.free), capacity) == |old(st.free)| && page.NoPage?
      ensures p.Null? ==> base == old(base) && alc == old(alc)
      ensures p.Pointer? ==>
        base == p.addr && size + alc == capacity && Outside(Block(base, capacity), old(st.owned))
      ensures Contents() == old(Contents())
      ensures Same(old(st.mem), st.mem, old(st.owned) - Range(Block(old(base), size + old(alc))))
    {
      hide Sound, RoundUp, Within, Outside, Aligned, FirstFit, Slice, Write, Same, Listed, Linked, Without;
      AlignedLarge(st.pagesize);
      ghost var was := st.owned;
      ghost var block := Block(base, size + alc);
      ghost var got: Block;
      p, got := st.Alloc(capacity, page, unmapped);
      ghost var others := was - Range(block);
      ghost var m0, m1 := old(st.mem), st.mem;
      SliceSame(m0, m1, base, size, was, size + alc);
      SameLess(m0, m1, was, others);
      if p.Null? {
        return;
      }
      Given(block, got, capacity, was, st.mapped);
      if base != 0 {
        var bytes := Slice(st.mem, base, size);
        CopyKeeps(m1, p.addr, bytes, Block(p.addr, capacity), was);
        WithinLess(p.addr, capacity, size, st.owned);
        st.Store(p.addr, bytes);
        ghost var m2 := st.mem;
        SameTrans(m0, m1, m2, was, was);
        st.Free(Block(base, size + alc), unmappedOld);
        SliceSame(m2, st.mem, p.addr, size, st.owned, capacity);
        OthersStay(was, block, got);
        SameLess(m2, st.mem, st.owned, others);
        SameTrans(m0, m2, st.mem, was, others);
      } else {
        NoBytes(m0, m1, base, p.addr);
      }
      base, alc := p.addr, capacity - size;
    }

    /** Room for `n` more bytes behind the contents, moving them if need be. */
    method Grow(n: nat, page: Page, unmapped: bool, unmappedOld: bool) returns (r: Pointer)
      requires Valid() && 16 * n + 2 * size + 2 * st.pagesize <= WORD
      requires page.Page? ==> st.NewPages(page.addr, RoundUp(NewCapacity(size, n, st.pagesize), st.pagesize))
      modifies this, st
      ensures Valid()
      ensures r.Null? <==>
        && n > old(alc) && page.NoPage?
        && FirstFit(old(st.free), NewCapacity(old(size), n, st.pagesize)) == |old(st.free)|
      ensures r.Null? ==> base == old(base) && size == old(size) && alc == old(alc)
      ensures r.Pointer? ==> r.addr == base + old(size) && size == old(size) + n
      ensures n <= old(alc) ==> r.Pointer? && base == old(base) && alc == old(alc) - n && unchanged(st)
      ensures n > old(alc) && r.Pointer? ==>
        Outside(Block(base, size + alc), old(st.owned)) && size + alc == NewCapacity(old(size), n, st.pagesize)
      ensures r.Pointer? ==> Contents()[..old(size)] == old(Contents())
      ensures Same(old(st.mem), st.mem, old(st.owned) - Range(Block(old(base), old(size) + old(alc))))
    {
      hide Sound, RoundUp, Within, Outside, Aligned, NewCapacity, Linked, Addresses, Slice;
      if n > alc {
        var capacity := NewCapacity(size, n, st.pagesize);
        CapacityEnough(size, n, st.pagesize);
        var p := Move(capacity, page, unmapped, unmappedOld);
        if p.Null? {
          return Null;
        }
      }
      r := Pointer(base + size);
      SliceMore(st.mem, base, size, n);
      size, alc := size + n, alc - n;
    }

    /** Detaches the contents. What remains is a vector only if it starts aligned. */
    method Finish() returns (r: nat)
      requires Valid()
      modifies this
      ensures r == old(base) && base == old(base) + old(size) && size == 0 && alc == old(alc)
      ensures Valid() <==> Aligned(old(size))
    {
      r := base;
      base := base + size;
      size := 0;
    }

    /** Gives back what lies behind the aligned end of the contents. */
    method Release(unmapped: bool)
      requires Valid() && RoundUp(size, 8) <= size + alc
      modifies this, st
      ensures Valid() && base == old(base) && size == old(size) && alc == 0
      ensures st.owned == old(st.owned) - Range(Block(base + RoundUp(size, 8), old(alc) - (RoundUp(size, 8) - size)))
      ensures Contents() == old(Contents()) && Same(old(st.mem), st.mem, st.owned)
    {
      hide Sound, RoundUp, Aligned, Slice, Same, Linked, Addresses, Listed;
      RoundUpExact(size, 8);
      RoundUpAligned(size);
      TailInside(size, alc);
      AlignedAdd(base, RoundUp(size, 8));
      var aligned := RoundUp(size, 8);
      st.Free(Block(base + aligned, Tail(size, alc)), unmapped);
      SliceSame(old(st.mem), st.mem, base, size, st.owned, size);
      alc := 0;
    }
  }

  lemma WithinLess(a: nat, n: nat, k: nat, s: set<nat>)
    requires Within(Block(a, n), s) && k <= n
    ensures Within(Block(a, k), s)
  {
    forall x: nat | In(x, Block(a, k)) ensures x in s { assert In(x, Block(a, n)); }
  }

  lemma RoundUpAligned(size: nat)
    requires size + 8 <= WORD
    ensures Aligned(RoundUp(size, 8))
  {
    RoundUpExact(size, 8);
  }

  /** Bytes a caller has stay the same in its slices. */
  lemma SliceSame(m: Memory, m': Memory, a: nat, n: nat, s: set<nat>, size: nat)
    requires Same(m, m', s) && n <= size && Within(Block(a, size), s)
    ensures Slice(m', a, n) == Slice(m, a, n)
  {
    forall i | 0 <= i < n ensures Slice(m', a, n)[i] == Slice(m, a, n)[i] { assert In(a + i, Block(a, size)); }
  }

  /** A copy into a block writes nothing outside it and can be read there. */
  lemma CopyKeeps(m: Memory, a: nat, bs: seq<byte>, block: Block, s: set<nat>)
    requires block.addr == a && |bs| <= block.size && Outside(block, s)
    ensures Same(m, Write(m, a, bs), s) && Slice(Write(m, a, bs), a, |bs|) == bs
  {
    forall x | x in s ensures Write(m, a, bs)(x) == m(x) { assert !In(x, block); }
  }

  lemma OthersStay(was: set<nat>, block: Block, got: Block)
    requires Within(block, was) && Outside(got, was)
    ensures was - Range(block) <= was + Range(got) - Range(block)
  {}

  lemma SliceMore(m: Memory, a: nat, k: nat, n: nat)
    ensures Slice(m, a, k + n)[..k] == Slice(m, a, k)
  {}

  lemma NoBytes(m: Memory, m': Memory, a: nat, b: nat)
    ensures Slice(m, a, 0) == Slice(m', b, 0) == []
  {}

  /** A new block is the caller's, and stays so when the old one goes. */
  lemma Given(block: Block, got: Block, n: nat, was: set<nat>, mapped: set<nat>)
    requires Within(block, was) && Outside(got, was) && 0 < n <= got.size
    ensures var now := was + Range(got);
      && Within(block, now) && Within(Block(got.addr, n), now) && Within(Block(got.addr, n), now - Range(block))
      && Outside(Block(got.addr, n), was) && In(got.addr, got) && got.addr in now
  {}
}
