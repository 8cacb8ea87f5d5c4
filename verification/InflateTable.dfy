/** Building the decoding table of a set of code lengths, and looking a symbol
    up in it with a window of fifteen bits. */
module InflateTable {
  import opened Bits
  import opened Canonical
  import opened HuffmanTable
  import opened SecondaryTable

  /** The symbol and the number of bits the table gives for window `w`. */
  function Lookup(t: seq<nat>, w: nat): (r: (nat, nat))
    requires |t| == TABLE_SIZE
    ensures r.0 < 512 && 1 <= r.1 <= 15
  {
    var p := t[w % 256];
    if !IsPointer(p) then (p % 512, p / 512 % 8 + 1)
    else
      Pow2Le(Sb(p), 7);
      assert Pow2(7) == 128;
      var u := t[Cell(p, w)];
      (u % 512, u / 512 % 8 + 8)
  }

  /** The table decodes every window as the canonical code does: the symbol whose
      code begins the window and the length of that code; a window that no code
      begins reads as symbol 0. */
  ghost predicate Decodes(lens: Lengths, t: seq<nat>) {
    |t| == TABLE_SIZE
    && (forall s: nat, w: nat :: Match(lens, s, w) ==> Lookup(t, w) == (s, lens[s]))
    && (forall w: nat :: (forall s: nat :: !Match(lens, s, w)) ==> Lookup(t, w) == (0, Gap(lens, w)))
  }

  lemma {:induction false} HitLookup(t: seq<nat>, s: nat, j: nat, w: nat)
    requires |t| == TABLE_SIZE && s < 512 && 1 <= j <= 15 && Hit(t, s, j, w)
    ensures Lookup(t, w) == (s, j)
  {
    hide Direct, Indirect, IsPointer, Cell, Sb;
    if j <= 8 { DirectParts(s, j); } else { IndirectParts(s, j); }
  }

  lemma DirectParts(s: nat, j: nat)
    requires s < 512 && 1 <= j <= 8
    ensures var p := Direct(s, j);
      !IsPointer(p) && p % 512 == s && p / 512 % 8 + 1 == j
  {}

  lemma IndirectParts(s: nat, j: nat)
    requires s < 512 && 8 <= j <= 15
    ensures var p := Indirect(s, j);
      p % 512 == s && p / 512 % 8 + 8 == j
  {}

  /** The entry of a long code's first eight bits is a pointer. */
  lemma {:induction false} LongPointer(lens: Lengths, t: seq<nat>, ns: nat, e: nat)
    requires Valid(lens) && Kraft(lens) && Secondary(lens, t, ns, 8, 0) && e < 256
    ensures IsPointer(t[e]) <==> Longer(lens, e)
  {
    hide Rev, NextCode, Sel, KraftSum, Low, NoStray, Match;
    if s: nat :| Starts(lens, s, e) {
      var w := Rev(lens[s], CodeOf(lens, s));
      OwnWindow(lens, s);
      assert Done(lens, s, 8, 0);
      assert Hit(t, s, lens[s], w);
    }
  }

  lemma {:induction false} MissLookup(lens: Lengths, t: seq<nat>, ns: nat, w: nat)
    requires Valid(lens) && Kraft(lens) && Secondary(lens, t, ns, 8, 0) && forall s: nat :: !Match(lens, s, w)
    ensures Lookup(t, w) == (0, Gap(lens, w))
  {
    hide Low, Match, Sound, Pointed, Longer;
    LongPointer(lens, t, ns, w % 256);
    var p := t[w % 256];
    if p != 0 && !IsPointer(p) {
      var s: nat :| s < |lens| && lens[s] <= 8 && Match(lens, s, w % 256);
      ShortSlots(lens, s, w);
    }
  }

  lemma {:induction false} TableDecodes(lens: Lengths, t: seq<nat>, ns: nat)
    requires Valid(lens) && Kraft(lens) && |lens| <= 512 && Secondary(lens, t, ns, 8, 0)
    ensures Decodes(lens, t)
  {
    hide Lookup, Hit, Low, NoStray, Rev, CodeOf, Gap, KraftSum;
    forall s: nat, w: nat | Match(lens, s, w) ensures Lookup(t, w) == (s, lens[s]) {
      MatchedDone(lens, s, w);
      HitLookup(t, s, lens[s], w);
    }
    forall w: nat | forall s: nat :: !Match(lens, s, w) ensures Lookup(t, w) == (0, Gap(lens, w)) {
      MissLookup(lens, t, ns, w);
    }
  }

  lemma MatchedDone(lens: Lengths, s: nat, w: nat)
    requires Match(lens, s, w)
    ensures Done(lens, s, 8, 0)
  {}

  /** When all codes have been installed the set was not oversubscribed. */
  lemma {:induction false} AllInstalled(lens: Lengths, t: seq<nat>)
    requires Valid(lens) && FrontLong(lens, t, 8, 0)
    ensures Kraft(lens)
  {
    hide Zero, KraftSum, Taken;
    forall s: nat | Zero(lens, s) ensures Done(lens, s, 8, 0) {
      ZeroUsed(lens, s);
    }
    if !Kraft(lens) {
      var s, u := TwoZeros(lens);
    }
  }

  lemma ZeroUsed(lens: Lengths, s: nat)
    requires Zero(lens, s)
    ensures Done(lens, s, 8, 0)
  {}

  /** Builds the decoding table of `codes`. */
  method Build(codes: Lengths, next: array<nat>, table: array<nat>) returns (ok: bool)
    requires |codes| <= MAX_SYMBOLS == next.Length && table.Length == TABLE_SIZE && table != next
    modifies next, table
    ensures ok ==> Valid(codes) && (Kraft(codes) || !Marked(codes))
    ensures ok && Kraft(codes) ==> Decodes(codes, table[..])
    ensures Valid(codes) && Kraft(codes) && Need(codes, 8) <= 511 ==> ok
  {
    hide Rev, NextCode, Sel, KraftSum, Need, Secondary, Primary, Decodes, Chain, Front, FrontLong, Marked;
    var count := new nat[16](_ => 0);
    var start := new nat[16](_ => 0);
    var firstcode := new nat[7](_ => 0);
    ok := CountLengths(codes, count, start, next);
    if !ok {
      return;
    }
    ghost var c, f, nx := count[..], start[..], next[..];
    for e := 0 to TABLE_SIZE
      invariant count[..] == c && start[..] == f && next[..] == nx
      invariant forall x :: 0 <= x < e ==> table[x] == 0
    {
      table[e] := 0;
    }
    var code;
    ok, code := PrimaryPass(codes, count, start, next, table);
    if !ok {
      return;
    }
    assert count[..] == c && start[..] == f && next[..] == nx;
    forall j | 9 <= j < 16 ensures count[j] == Count(codes, j) {
      ChainCount(codes, j, c[j], f[j], nx);
    }
    ghost var t := table[..];
    if Kraft(codes) { SecondaryStart(codes, t); }
    if Marked(codes) { FrontLongStart(codes, t); }
    ok := FirstCodes(codes, count, firstcode, code);
    assert table[..] == t && count[..] == c && start[..] == f && next[..] == nx;
    var ns;
    ok, ns := SecondaryPass(codes, count, start, next, firstcode, table);
    if ok && Marked(codes) { AllInstalled(codes, table[..]); }
    if ok && Kraft(codes) { TableDecodes(codes, table[..], ns); }
  }

  /** The codes of [1, 1, 2]: 0, 1 and, one past the last code of two bits, 4. */
  lemma {:induction false} OneOneTwo(lens: Lengths)
    requires lens == [1, 1, 2]
    ensures Rev(1, CodeOf(lens, 0)) == 0 && Rev(1, CodeOf(lens, 1)) == 1 && Rev(2, CodeOf(lens, 2)) == 0
    ensures !Kraft(lens) && !Marked(lens)
  {
    assert Sel(lens, 1, 1) == [0] && Sel(lens, 2, 1) == [0, 1] && Sel(lens, 3, 1) == [0, 1];
    assert Sel(lens, 0, 2) == Sel(lens, 1, 2) == Sel(lens, 2, 2) == [];
    assert NextCode(lens, 1) == 0 && NextCode(lens, 2) == 4;
    assert Rev(1, 0) == 0 && Rev(1, 1) == 1 && Rev(2, 4) == 0;
    assert KraftSum(lens[..1]) == Pow2(14) && lens[..2][..1] == lens[..1];
    assert KraftSum(lens[..2]) == 2 * Pow2(14);
  }

  lemma LowTwo(e: nat)
    ensures Low(e, 2) == 0 ==> Low(e, 1) == 0
  {}

  /** That oversubscribed set is installed all the same: the entry of symbol 0 is 0, which
      reads as a free slot. */
  method InstallsOversubscribed(table: array<nat>) returns (ok: bool)
    requires table.Length == TABLE_SIZE && forall e :: 0 <= e < 256 ==> table[e] == 0
    modifies table
    ensures ok && !Kraft([1, 1, 2])
  {
    hide Low, Rev, CodeOf, Kraft;
    var lens: Lengths := [1, 1, 2];
    OneOneTwo(lens);
    ok := Fill(table, 0, 256, Rev(1, CodeOf(lens, 0)), 1, Direct(0, 1));
    assert forall e :: 0 <= e < 256 ==> table[e] == 0;
    var ok1 := Fill(table, 0, 256, Rev(1, CodeOf(lens, 1)), 1, Direct(1, 1));
    forall e: nat ensures Low(e, 2) == 0 ==> Low(e, 1) == 0 { LowTwo(e); }
    var ok2 := Fill(table, 0, 256, Rev(2, CodeOf(lens, 2)), 2, Direct(2, 2));
    ok := ok && ok1 && ok2;
  }
}
