/** Blocks of addresses, the memory behind them, and lists of blocks that are linked
    through headers in that memory. */
module Heap {
  import opened Arith
  import opened Bytes

  datatype Block = Block(addr: nat, size: nat)

  /** The size of the header kept in a free block. */
  const HEADER: nat := 16

  // ----- sets of bytes

  predicate In(x: nat, b: Block) { b.addr <= x < b.addr + b.size }

  ghost function Range(b: Block): set<nat> { set x: nat | b.addr <= x < b.addr + b.size && In(x, b) }

  predicate Apart(a: Block, b: Block) {
    a.size == 0 || b.size == 0 || a.addr + a.size <= b.addr || b.addr + b.size <= a.addr
  }

  ghost predicate Within(b: Block, s: set<nat>) { forall x: nat :: In(x, b) ==> x in s }

  ghost predicate Outside(b: Block, s: set<nat>) { forall x: nat :: In(x, b) ==> x !in s }

  // ----- memory

  type Memory = nat -> byte

  /** `bs` written from address `a` on. */
  function Write(m: Memory, a: nat, bs: seq<byte>): Memory {
    (x: nat) => if a <= x < a + |bs| then bs[x - a] else m(x)
  }

  function Slice(m: Memory, a: nat, n: nat): (bs: seq<byte>)
    ensures |bs| == n && forall i :: 0 <= i < n ==> bs[i] == m(a + i)
  {
    seq(n, i requires 0 <= i < n => m(a + i))
  }

  /** The bytes in `s` are the same. */
  ghost predicate Same(m: Memory, m': Memory, s: set<nat>) { forall x :: x in s ==> m'(x) == m(x) }

  lemma SameLess(m: Memory, m': Memory, s: set<nat>, t: set<nat>)
    requires Same(m, m', s) && t <= s
    ensures Same(m, m', t)
  {}

  lemma SameTrans(a: Memory, b: Memory, c: Memory, s: set<nat>, t: set<nat>)
    requires Same(a, b, s) && Same(b, c, t) && t <= s
    ensures Same(a, c, t)
  {}

  /** The bytes of `b` are the same. */
  ghost predicate Kept(m: Memory, m': Memory, b: Block) { forall x: nat :: In(x, b) ==> m'(x) == m(x) }

  lemma WriteApart(m: Memory, a: nat, bs: seq<byte>, b: Block)
    requires a + |bs| <= b.addr || b.addr + b.size <= a
    ensures Kept(m, Write(m, a, bs), b)
  {}

  // ----- words

  /** The lowest `n` bytes of a number, lowest first. */
  function Digits(v: nat, n: nat): (bs: seq<byte>)
    ensures |bs| == n
  {
    if n == 0 then [] else [v % 256] + Digits(v / 256, n - 1)
  }

  function Value(bs: seq<byte>): nat { if bs == [] then 0 else bs[0] + 256 * Value(bs[1..]) }

  function Power256(n: nat): nat { if n == 0 then 1 else 256 * Power256(n - 1) }

  lemma {:induction false} ValueOfDigits(v: nat, n: nat)
    requires v < Power256(n)
    ensures Value(Digits(v, n)) == v
  {
    if n > 0 {
      ValueOfDigits(v / 256, n - 1);
      assert Digits(v, n)[1..] == Digits(v / 256, n - 1);
    }
  }

  function ReadWord(m: Memory, a: nat): nat { Value(Slice(m, a, 8)) }

  function WriteWord(m: Memory, a: nat, v: nat): Memory { Write(m, a, Digits(v, 8)) }

  lemma WordPower()
    ensures Power256(8) == WORD
  {
    assert Power256(4) == WORD32;
  }

  /** A word is read as it was written. */
  lemma {:induction false} ReadBack(m: Memory, a: nat, v: nat)
    requires v < WORD
    ensures ReadWord(WriteWord(m, a, v), a) == v
  {
    hide Value, Digits, Power256;
    WordPower();
    ValueOfDigits(v, 8);
    assert Slice(WriteWord(m, a, v), a, 8) == Digits(v, 8);
  }

  lemma ReadKept(m: Memory, m': Memory, a: nat)
    requires Kept(m, m', Block(a, 8))
    ensures ReadWord(m', a) == ReadWord(m, a)
  {
    hide Value;
    forall i | 0 <= i < 8 ensures Slice(m', a, 8)[i] == Slice(m, a, 8)[i] { assert In(a + i, Block(a, 8)); }
    assert Slice(m', a, 8) == Slice(m, a, 8);
  }

  // ----- linked lists of blocks

  /** The address of the `i`-th block; 0 behind the last one. */
  function Link(list: seq<Block>, i: nat): nat { if i < |list| then list[i].addr else 0 }

  /** The address of the block before the `i`-th; 0 for the head of the list. */
  function Pred(list: seq<Block>, i: nat): nat
    requires i <= |list|
  {
    if i == 0 then 0 else list[i - 1].addr
  }

  /** The two words a free block holds: the next block and the size. */
  predicate HeaderAt(m: Memory, b: Block, next: nat) {
    ReadWord(m, b.addr) == next && ReadWord(m, b.addr + 8) == b.size
  }

  /** Following the headers from `head` gives `list`. */
  ghost predicate Linked(m: Memory, head: nat, list: seq<Block>) {
    head == Link(list, 0) && forall i :: 0 <= i < |list| ==> HeaderAt(m, list[i], Link(list, i + 1))
  }

  /** Blocks that can be linked: each has an address and room for its header, and they do
      not overlap. */
  ghost predicate Linkable(list: seq<Block>) {
    (forall i :: 0 <= i < |list| ==> 0 < list[i].addr < WORD && HEADER <= list[i].size < WORD)
    && (forall i, j :: 0 <= i < |list| && 0 <= j < |list| && i != j ==> Apart(list[i], list[j]))
  }

  lemma {:induction false} LinkedTail(m: Memory, head: nat, a: seq<Block>)
    requires Linked(m, head, a) && Linkable(a) && a != []
    ensures Linked(m, Link(a, 1), a[1..]) && Linkable(a[1..])
  {
    hide HeaderAt, Apart;
    forall i | 0 <= i < |a| - 1 ensures HeaderAt(m, a[1..][i], Link(a[1..], i + 1)) {
      assert HeaderAt(m, a[i + 1], Link(a, i + 2));
    }
  }

  lemma {:induction false} FirstSame(m: Memory, head: nat, a: seq<Block>, b: seq<Block>)
    requires Linked(m, head, a) && Linked(m, head, b) && Linkable(a) && Linkable(b)
    ensures (a == [] <==> b == []) && (a != [] ==> a[0] == b[0] && Link(a, 1) == Link(b, 1))
  {
    hide ReadWord, Apart;
    assert a != [] ==> HeaderAt(m, a[0], Link(a, 1));
    assert b != [] ==> HeaderAt(m, b[0], Link(b, 1));
  }

  /** Memory spells one list only. */
  lemma {:induction false} LinkedUnique(m: Memory, head: nat, a: seq<Block>, b: seq<Block>)
    requires Linked(m, head, a) && Linked(m, head, b) && Linkable(a) && Linkable(b)
    ensures a == b
    decreases |a|
  {
    hide Linked, Linkable, Link;
    FirstSame(m, head, a, b);
    if a != [] {
      LinkedTail(m, head, a);
      LinkedTail(m, head, b);
      LinkedUnique(m, Link(a, 1), a[1..], b[1..]);
      assert a == [a[0]] + a[1..] && b == [b[0]] + b[1..];
    }
  }

  lemma HeaderKept(m: Memory, m': Memory, b: Block, next: nat)
    requires HeaderAt(m, b, next) && Kept(m, m', b) && b.size >= HEADER
    ensures HeaderAt(m', b, next)
  {
    hide ReadWord;
    forall x: nat | In(x, Block(b.addr, 8)) || In(x, Block(b.addr + 8, 8)) ensures m'(x) == m(x) { assert In(x, b); }
    ReadKept(m, m', b.addr);
    ReadKept(m, m', b.addr + 8);
  }

  /** Memory that differs only outside the blocks spells the same list. */
  lemma {:induction false} LinkedKept(m: Memory, m': Memory, head: nat, list: seq<Block>)
    requires Linked(m, head, list) && Linkable(list)
    requires forall i :: 0 <= i < |list| ==> Kept(m, m', list[i])
    ensures Linked(m', head, list)
  {
    hide HeaderAt, Kept, Apart;
    forall i | 0 <= i < |list| ensures HeaderAt(m', list[i], Link(list, i + 1)) {
      HeaderKept(m, m', list[i], Link(list, i + 1));
    }
  }

  function WriteHeader(m: Memory, b: Block, next: nat): Memory {
    WriteWord(WriteWord(m, b.addr, next), b.addr + 8, b.size)
  }

  lemma {:induction false} HeaderWritten(m: Memory, b: Block, next: nat)
    requires next < WORD && b.size < WORD
    ensures HeaderAt(WriteHeader(m, b, next), b, next)
  {
    hide ReadWord, Digits, Write;
    var m1 := WriteWord(m, b.addr, next);
    ReadBack(m, b.addr, next);
    ReadBack(m1, b.addr + 8, b.size);
    WriteApart(m1, b.addr + 8, Digits(b.size, 8), Block(b.addr, 8));
    ReadKept(m1, WriteHeader(m, b, next), b.addr);
  }

  lemma HeaderStays(m: Memory, b: Block, next: nat, c: Block)
    requires HEADER <= b.size && 0 < c.size && Apart(b, c)
    ensures Kept(m, WriteHeader(m, b, next), c)
  {
    hide Digits;
  }

  /** A header is written inside its block. */
  lemma HeaderInside(m: Memory, b: Block, next: nat, s: set<nat>)
    requires b.size >= HEADER && Outside(b, s)
    ensures Same(m, WriteHeader(m, b, next), s)
  {
    hide Digits;
    forall x | x in s ensures WriteHeader(m, b, next)(x) == m(x) {
      assert !In(x, b);
    }
  }

  /** A new block in front. */
  lemma {:induction false} LinkedPush(m: Memory, head: nat, list: seq<Block>, b: Block)
    requires Linked(m, head, list) && Linkable([b] + list)
    ensures Linked(WriteHeader(m, b, head), b.addr, [b] + list)
  {
    hide HeaderAt, Kept, Apart, WriteHeader;
    var all, m' := [b] + list, WriteHeader(m, b, head);
    assert all[0] == b;
    assert head < WORD by { assert list == [] || all[1] == list[0]; }
    HeaderWritten(m, b, head);
    forall i | 0 <= i < |all| ensures HeaderAt(m', all[i], Link(all, i + 1)) {
      if i > 0 {
        assert all[i] == list[i - 1] && HeaderAt(m, list[i - 1], Link(list, i));
        assert Link(all, i + 1) == Link(list, i);
        HeaderStays(m, b, head, all[i]);
        HeaderKept(m, m', all[i], Link(all, i + 1));
      } else {
        assert Link(all, 1) == Link(list, 0);
      }
    }
  }

  function Without(list: seq<Block>, i: nat): seq<Block>
    requires i < |list|
  {
    list[..i] + list[i + 1..]
  }

  lemma {:induction false} WithoutAt(list: seq<Block>, i: nat, j: nat)
    requires i < |list| && j < |list| - 1
    ensures |Without(list, i)| == |list| - 1 && Without(list, i)[j] == list[if j < i then j else j + 1]
    ensures Link(Without(list, i), j + 1) == if j + 1 < i then Link(list, j + 1) else Link(list, j + 2)
  {}

  /** The first block is left out by moving the head. */
  lemma {:induction false} UnlinkFirst(m: Memory, head: nat, list: seq<Block>)
    requires Linked(m, head, list) && Linkable(list) && list != []
    ensures Linked(m, ReadWord(m, head), Without(list, 0))
  {
    LinkedTail(m, head, list);
    assert HeaderAt(m, list[0], Link(list, 1));
    assert Without(list, 0) == list[1..];
  }

  lemma {:induction false} NewNext(m: Memory, b: Block, next: nat, was: nat)
    requires HeaderAt(m, b, was) && next < WORD
    ensures HeaderAt(WriteWord(m, b.addr, next), b, next)
  {
    hide ReadWord, Digits, Write;
    ReadBack(m, b.addr, next);
    WriteApart(m, b.addr, Digits(next, 8), Block(b.addr + 8, 8));
    ReadKept(m, WriteWord(m, b.addr, next), b.addr + 8);
  }

  lemma NextStays(m: Memory, b: Block, next: nat, c: Block)
    requires HEADER <= b.size && 0 < c.size && Apart(b, c)
    ensures Kept(m, WriteWord(m, b.addr, next), c)
  {
    hide Digits;
  }

  lemma NextInside(m: Memory, b: Block, next: nat, s: set<nat>)
    requires b.size >= HEADER && Outside(b, s)
    ensures Same(m, WriteWord(m, b.addr, next), s)
  {
    hide Digits;
    forall x | x in s ensures WriteWord(m, b.addr, next)(x) == m(x) {
      assert !In(x, b);
    }
  }

  /** Any other block is left out by writing its next one into the block before it. */
  lemma {:induction false} UnlinkLater(m: Memory, head: nat, list: seq<Block>, i: nat)
    requires Linked(m, head, list) && Linkable(list) && 0 < i < |list|
    ensures Linked(WriteWord(m, list[i - 1].addr, ReadWord(m, list[i].addr)), head, Without(list, i))
  {
    hide HeaderAt, Kept, Apart, WriteWord, Without;
    var t, next := Without(list, i), Link(list, i + 1);
    assert next < WORD;
    HeaderNext(m, list, i);
    var m' := WriteWord(m, list[i - 1].addr, next);
    forall j | 0 <= j < |list| - 1 ensures |t| == |list| - 1 && HeaderAt(m', t[j], Link(t, j + 1)) {
      UnlinkAt(m, head, list, i, j);
    }
    WithoutHead(list, i);
  }

  lemma HeaderNext(m: Memory, list: seq<Block>, i: nat)
    requires i < |list| && HeaderAt(m, list[i], Link(list, i + 1))
    ensures ReadWord(m, list[i].addr) == Link(list, i + 1)
  {}

  lemma WithoutHead(list: seq<Block>, i: nat)
    requires 0 < i < |list|
    ensures |Without(list, i)| == |list| - 1 && Link(Without(list, i), 0) == Link(list, 0)
  {}

  lemma {:induction false} UnlinkAt(m: Memory, head: nat, list: seq<Block>, i: nat, j: nat)
    requires Linked(m, head, list) && Linkable(list) && 0 < i < |list| && j < |list| - 1
    ensures var t := Without(list, i);
      |t| == |list| - 1
      && HeaderAt(WriteWord(m, list[i - 1].addr, Link(list, i + 1)), t[j], Link(t, j + 1))
  {
    hide HeaderAt, Kept, Apart, WriteWord, Without;
    WithoutAt(list, i, j);
    var m' := WriteWord(m, list[i - 1].addr, Link(list, i + 1));
    if j == i - 1 {
      NewNext(m, list[j], Link(list, i + 1), Link(list, i));
    } else {
      var k := if j < i then j else j + 1;
      NextStays(m, list[i - 1], Link(list, i + 1), list[k]);
      HeaderKept(m, m', list[k], Link(list, k + 1));
    }
  }
}
