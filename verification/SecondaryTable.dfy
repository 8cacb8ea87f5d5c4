/** Secondary tables for codes of nine to fifteen bits, longest codes first. */
module SecondaryTable {
  import opened Bits
  import opened Canonical
  import opened HuffmanTable
  import Reverse

  predicate IsPointer(p: nat) { p / 4096 % 2 == 1 }

  /** Where the secondary table starts, after the primary one. */
  function Sec(p: nat): nat { p % 512 }

  /** How many bits index the secondary table. */
  function Sb(p: nat): nat { p / 512 % 8 }

  /** The entry consulted after the primary entry `p` for window `w`. */
  function Cell(p: nat, w: nat): nat { 256 + Sec(p) + Low(w / 256, Sb(p)) }

  /** `s` is longer than eight bits and was installed before the `i`-th code of
      length `j`, counting lengths down. */
  predicate LongDone(lens: Lengths, s: nat, j: nat, i: nat) {
    s < |lens| && 9 <= lens[s] && (lens[s] > j || (lens[s] == j && |Sel(lens, s, j)| < i))
  }

  predicate Done(lens: Lengths, s: nat, j: nat, i: nat) {
    s < |lens| && (1 <= lens[s] <= 8 || LongDone(lens, s, j, i))
  }

  /** Window `w` finds symbol `s` of length `j` in the table. */
  predicate Hit(t: seq<nat>, s: nat, j: nat, w: nat)
    requires |t| == TABLE_SIZE
  {
    var p := t[w % 256];
    if 1 <= j <= 8 then p == Direct(s, j)
    else
      && 9 <= j && IsPointer(p) && j - 8 <= Sb(p)
      && Cell(p, w) < TABLE_SIZE && t[Cell(p, w)] == Indirect(s, j)
  }

  ghost predicate Apart(p: nat, q: nat) {
    Sec(p) + Pow2(Sb(p)) <= Sec(q) || Sec(q) + Pow2(Sb(q)) <= Sec(p)
  }

  /** Secondary tables lie one after the other in the first `ns` entries after
      the primary table, with at least `j - 8` index bits each. */
  ghost predicate Shape(t: seq<nat>, ns: nat, j: nat) {
    |t| == TABLE_SIZE && ns <= 639
    && (forall e :: 0 <= e < 256 && IsPointer(t[e]) ==>
          Sec(t[e]) + Pow2(Sb(t[e])) <= ns && 1 <= Sb(t[e]) && j <= Sb(t[e]) + 8)
    && (forall e, f :: 0 <= e < f < 256 && IsPointer(t[e]) && IsPointer(t[f]) ==> Apart(t[e], t[f]))
    && (forall x :: 256 + ns <= x < TABLE_SIZE ==> t[x] == 0)
  }

  ghost predicate Sound(lens: Lengths, t: seq<nat>, j: nat, i: nat)
    requires |t| == TABLE_SIZE
  {
    forall s: nat, w: nat :: Done(lens, s, j, i) && Match(lens, s, w) ==> Hit(t, s, lens[s], w)
  }

  ghost predicate OwnedShort(lens: Lengths, e: nat) {
    exists s: nat :: s < |lens| && lens[s] <= 8 && Match(lens, s, e)
  }

  ghost predicate OwnedLong(lens: Lengths, w: nat, j: nat, i: nat, bits: nat) {
    exists s: nat :: LongDone(lens, s, j, i) && lens[s] <= bits && Match(lens, s, w)
  }

  /** Every entry in use belongs to a code. */
  ghost predicate NoStray(lens: Lengths, t: seq<nat>, j: nat, i: nat)
    requires |t| == TABLE_SIZE
  {
    (forall e :: 0 <= e < 256 && t[e] != 0 && !IsPointer(t[e]) ==> OwnedShort(lens, e))
    && (forall w: nat :: IsPointer(t[w % 256]) && Cell(t[w % 256], w) < TABLE_SIZE && t[Cell(t[w % 256], w)] != 0 ==>
          OwnedLong(lens, w, j, i, 8 + Sb(t[w % 256])))
  }

  /** A secondary table is there for a long code. */
  ghost predicate Pointed(lens: Lengths, t: seq<nat>)
    requires |t| == TABLE_SIZE
  {
    forall e :: 0 <= e < 256 && IsPointer(t[e]) ==> Longer(lens, e)
  }

  ghost predicate Secondary(lens: Lengths, t: seq<nat>, ns: nat, j: nat, i: nat) {
    Shape(t, ns, j) && Sound(lens, t, j, i) && NoStray(lens, t, j, i) && Pointed(lens, t)
  }

  // ----- windows

  lemma {:induction false} MatchNarrow(lens: Lengths, s: nat, w: nat, v: nat, k: nat)
    requires s < |lens| && lens[s] <= k && Low(w, k) == Low(v, k)
    ensures Match(lens, s, w) <==> Match(lens, s, v)
  {
    RevLow(lens[s], k, w);
    RevLow(lens[s], k, v);
  }

  lemma {:induction false} LowFrom8(w: nat, k: nat)
    ensures Low(w, 8 + k) == w % 256 + 256 * Low(w / 256, k)
  {
    LowSplit(w, 8, k);
    Low8(w);
    assert Pow2(8) == 256;
  }

  /** A long code begins exactly the windows that agree with its reversal in the
      low eight bits and in the bits above them. */
  lemma {:induction false} LongSlots(lens: Lengths, s: nat, w: nat)
    requires Valid(lens) && Kraft(lens) && s < |lens| && 9 <= lens[s]
    ensures var code := Rev(lens[s], CodeOf(lens, s));
      Match(lens, s, w) <==> w % 256 == code % 256 && Low(w / 256, lens[s] - 8) == code / 256
  {
    hide Low, Rev, NextCode, Sel, KraftSum;
    SlotsOfCode(lens, s, w);
    LowFrom8(w, lens[s] - 8);
  }

  lemma {:induction false} ShortSlots(lens: Lengths, s: nat, w: nat)
    requires s < |lens| && lens[s] <= 8
    ensures Match(lens, s, w) <==> Match(lens, s, w % 256)
  {
    hide Low, Match;
    Low8(w);
    Low8(w % 256);
    MatchNarrow(lens, s, w, w % 256, 8);
  }

  // ----- from the primary table

  lemma {:induction false} SecondaryStart(lens: Lengths, t: seq<nat>)
    requires Valid(lens) && |lens| <= 512 && Primary(lens, t, 9, 0)
    ensures Secondary(lens, t, 0, 15, 0)
  {
    hide Rev, Low, CodeOf, Sel, Match, IsPointer;
    forall e | 0 <= e < 256 ensures !IsPointer(t[e]) && (t[e] != 0 ==> OwnedShort(lens, e)) {
      StartEntry(lens, t, e);
    }
    forall s: nat, w: nat | Done(lens, s, 15, 0) && Match(lens, s, w) ensures Hit(t, s, lens[s], w) {
      ShortSlots(lens, s, w);
      assert Before(lens, s, 9, 0);
    }
  }

  lemma {:induction false} StartEntry(lens: Lengths, t: seq<nat>, e: nat)
    requires Valid(lens) && |lens| <= 512 && Primary(lens, t, 9, 0) && e < 256
    ensures !IsPointer(t[e]) && (t[e] != 0 ==> OwnedShort(lens, e))
  {
    hide Sel, Match;
    if t[e] != 0 {
      var s: nat :| Before(lens, s, 9, 0) && Match(lens, s, e);
      assert t[e] == Direct(s, lens[s]) < 4096;
    }
  }

  // ----- opening a secondary table

  /** A code begins the window that is its own reversal. */
  lemma {:induction false} OwnWindow(lens: Lengths, s: nat)
    requires Valid(lens) && Kraft(lens) && s < |lens| && 0 < lens[s]
    ensures Match(lens, s, Rev(lens[s], CodeOf(lens, s)))
  {
    LowId(Rev(lens[s], CodeOf(lens, s)), lens[s]);
    SlotsOfCode(lens, s, Rev(lens[s], CodeOf(lens, s)));
  }

  /** A code whose eight-bit prefix is that of a long code is long itself. */
  lemma {:induction false} SharedPrefix(lens: Lengths, s0: nat, s: nat, w: nat)
    requires Valid(lens) && Kraft(lens) && s0 < |lens| && 9 <= lens[s0]
    requires w % 256 == Rev(lens[s0], CodeOf(lens, s0)) % 256 && Match(lens, s, w)
    ensures 9 <= lens[s]
  {
    hide Rev, NextCode, Sel, KraftSum;
    if lens[s] <= 8 {
      var v := Rev(lens[s0], CodeOf(lens, s0));
      OwnWindow(lens, s0);
      ShortSlots(lens, s, w);
      ShortSlots(lens, s, v);
      PrefixFree(lens, s0, s, v);
    }
  }

  lemma PointerParts(sec: nat, sb: nat)
    requires sec < 512 && sb < 8
    ensures var p := Pointer(sec, sb); IsPointer(p) && Sec(p) == sec && Sb(p) == sb
  {}

  lemma {:induction false} OpenShape(t: seq<nat>, ns: nat, j: nat, e: nat)
    requires Shape(t, ns, j) && ns <= 511 && 9 <= j <= 15 && e < 256 && t[e] == 0
    ensures Shape(t[e := Pointer(ns, j - 8)], ns + Pow2(j - 8), j)
  {
    hide IsPointer, Sec, Sb, Pointer;
    Pow2Le(j - 8, 7);
    assert Pow2(7) == 128;
    PointerParts(ns, j - 8);
  }

  lemma ZeroNotPointer()
    ensures !IsPointer(0)
  {}

  lemma {:induction false} OpenSound(lens: Lengths, t: seq<nat>, j: nat, i: nat, s0: nat, e: nat, p: nat)
    requires Valid(lens) && Kraft(lens) && |t| == TABLE_SIZE && Sound(lens, t, j, i)
    requires s0 < |lens| && 9 <= lens[s0] && e == Rev(lens[s0], CodeOf(lens, s0)) % 256 && t[e] == 0
    ensures Sound(lens, t[e := p], j, i)
  {
    hide Rev, CodeOf, KraftSum, Low, Sel, IsPointer, Sec, Sb, Direct, Indirect;
    forall s: nat, w: nat | Done(lens, s, j, i) && Match(lens, s, w) ensures Hit(t[e := p], s, lens[s], w) {
      assert Hit(t, s, lens[s], w);
      if w % 256 == e {
        SharedPrefix(lens, s0, s, w);
        ZeroNotPointer();
      }
    }
  }

  /** Opening an empty secondary table for a new long code. */
  lemma {:induction false} OpenTable(lens: Lengths, t: seq<nat>, ns: nat, j: nat, i: nat, s0: nat, e: nat)
    requires Valid(lens) && Kraft(lens) && Secondary(lens, t, ns, j, i) && ns <= 511 && 9 <= j <= 15
    requires s0 < |lens| && lens[s0] == j && e == Rev(j, CodeOf(lens, s0)) % 256 && t[e] == 0
    ensures Secondary(lens, t[e := Pointer(ns, j - 8)], ns + Pow2(j - 8), j, i)
  {
    hide Rev, CodeOf, KraftSum, Low, Match, Sound, NoStray, Pointed, IsPointer, Sec, Sb, Pointer;
    OpenShape(t, ns, j, e);
    OpenSound(lens, t, j, i, s0, e, Pointer(ns, j - 8));
    OpenNoStray(lens, t, ns, j, i, e);
    OpenPointed(lens, t, s0, e, Pointer(ns, j - 8));
  }

  lemma OpenPointed(lens: Lengths, t: seq<nat>, s: nat, e: nat, p: nat)
    requires |t| == TABLE_SIZE && Pointed(lens, t) && e < 256 && Starts(lens, s, e)
    ensures Pointed(lens, t[e := p])
  {
    hide IsPointer, Starts;
  }

  lemma {:induction false} OpenNoStray(lens: Lengths, t: seq<nat>, ns: nat, j: nat, i: nat, e: nat)
    requires Shape(t, ns, j) && NoStray(lens, t, j, i) && ns <= 511 && 9 <= j <= 15 && e < 256 && t[e] == 0
    ensures |t| == TABLE_SIZE && NoStray(lens, t[e := Pointer(ns, j - 8)], j, i)
  {
    hide Low, IsPointer, Sec, Sb, Pointer, OwnedLong, OwnedShort;
    var p := Pointer(ns, j - 8);
    var t' := t[e := p];
    PointerParts(ns, j - 8);
    forall w: nat | IsPointer(t'[w % 256]) && Cell(t'[w % 256], w) < TABLE_SIZE && t'[Cell(t'[w % 256], w)] != 0
      ensures OwnedLong(lens, w, j, i, 8 + Sb(t'[w % 256]))
    {
      assert Cell(p, w) >= 256 + ns;
      assert w % 256 != e;
    }
  }

  // ----- filling it

  /** `t'` is `t` with the new code's slots of the secondary table of `p` set. */
  ghost predicate Filled(t: seq<nat>, t': seq<nat>, p: nat, hi: nat, width: nat, v: nat) {
    var base, end := 256 + Sec(p), 256 + Sec(p) + Pow2(Sb(p));
    |t| == |t'| == TABLE_SIZE && end <= TABLE_SIZE
    && (forall x :: 0 <= x < base || end <= x < TABLE_SIZE ==> t'[x] == t[x])
    && (forall x :: base <= x < end ==> t'[x] == if Low(x - base, width) == hi then v else t[x])
  }

  /** Where a lookup through entry `q` lands after filling the table of `p`. */
  lemma {:induction false} CellAfter(t: seq<nat>, t': seq<nat>, ns: nat, j: nat, e: nat, hi: nat, v: nat, w: nat)
    requires Shape(t, ns, j) && 9 <= j && e < 256 && IsPointer(t[e]) && Filled(t, t', t[e], hi, j - 8, v)
    requires IsPointer(t[w % 256])
    ensures t'[w % 256] == t[w % 256] && Cell(t[w % 256], w) < TABLE_SIZE
    ensures t'[Cell(t[w % 256], w)] ==
      if w % 256 == e && Low(w / 256, j - 8) == hi then v else t[Cell(t[w % 256], w)]
  {
    var q := t[w % 256];
    assert Low(w / 256, Sb(q)) < Pow2(Sb(q));
    if w % 256 == e {
      LowLow(w / 256, j - 8, Sb(q));
    } else {
      assert Apart(q, t[e]);
    }
  }

  lemma {:induction false} NextLong(lens: Lengths, s: nat, s0: nat, j: nat, i: nat)
    requires s0 < |lens| && 9 <= lens[s0] == j && |Sel(lens, s0, j)| == i
    ensures Done(lens, s, j, i + 1) ==> s == s0 || Done(lens, s, j, i)
    ensures LongDone(lens, s, j, i) ==> LongDone(lens, s, j, i + 1) && s != s0
    ensures LongDone(lens, s0, j, i + 1)
  {
    if s < |lens| {
      SelRank(lens, s0);
      SelRank(lens, s);
    }
  }

  lemma {:induction false} FillSound(lens: Lengths, t: seq<nat>, t': seq<nat>, ns: nat, j: nat, i: nat, s0: nat,
                                     s: nat, w: nat)
    requires Valid(lens) && Kraft(lens) && Secondary(lens, t, ns, j, i)
    requires s0 < |lens| && 9 <= lens[s0] == j && |Sel(lens, s0, j)| == i
    requires var code := Rev(j, CodeOf(lens, s0));
      IsPointer(t[code % 256]) && Filled(t, t', t[code % 256], code / 256, j - 8, Indirect(s0, j))
    requires Done(lens, s, j, i + 1) && Match(lens, s, w)
    ensures Hit(t', s, lens[s], w)
  {
    hide Rev, NextCode, Sel, KraftSum, Low, Match, NoStray;
    var code := Rev(j, CodeOf(lens, s0));
    NextLong(lens, s, s0, j, i);
    LongSlots(lens, s0, w);
    if s == s0 {
      CellAfter(t, t', ns, j, code % 256, code / 256, Indirect(s0, j), w);
    } else {
      assert Hit(t, s, lens[s], w);
      if Match(lens, s0, w) { PrefixFree(lens, s0, s, w); }
      if 9 <= lens[s] { CellAfter(t, t', ns, j, code % 256, code / 256, Indirect(s0, j), w); }
    }
  }

  lemma {:induction false} FillNoStray(lens: Lengths, t: seq<nat>, t': seq<nat>, ns: nat, j: nat, i: nat, s0: nat,
                                       w: nat)
    requires Valid(lens) && Kraft(lens) && Secondary(lens, t, ns, j, i)
    requires s0 < |lens| && 9 <= lens[s0] == j && |Sel(lens, s0, j)| == i
    requires var code := Rev(j, CodeOf(lens, s0));
      IsPointer(t[code % 256]) && Filled(t, t', t[code % 256], code / 256, j - 8, Indirect(s0, j))
    requires IsPointer(t'[w % 256]) && Cell(t'[w % 256], w) < TABLE_SIZE && t'[Cell(t'[w % 256], w)] != 0
    ensures OwnedLong(lens, w, j, i + 1, 8 + Sb(t'[w % 256]))
  {
    hide Rev, NextCode, Sel, KraftSum, Low, Match, Sound;
    var code := Rev(j, CodeOf(lens, s0));
    NextLong(lens, s0, s0, j, i);
    LongSlots(lens, s0, w);
    CellAfter(t, t', ns, j, code % 256, code / 256, Indirect(s0, j), w);
    if !Match(lens, s0, w) {
      var s: nat :| LongDone(lens, s, j, i) && lens[s] <= 8 + Sb(t[w % 256]) && Match(lens, s, w);
      NextLong(lens, s, s0, j, i);
    }
  }

  /** Installing the `i`-th code of length `j` in its secondary table. */
  lemma {:induction false} FillTable(lens: Lengths, t: seq<nat>, t': seq<nat>, ns: nat, j: nat, i: nat, s0: nat)
    requires Valid(lens) && Kraft(lens) && Secondary(lens, t, ns, j, i)
    requires s0 < |lens| && 9 <= lens[s0] == j && |Sel(lens, s0, j)| == i
    requires var code := Rev(j, CodeOf(lens, s0));
      IsPointer(t[code % 256]) && Filled(t, t', t[code % 256], code / 256, j - 8, Indirect(s0, j))
    ensures Secondary(lens, t', ns, j, i + 1)
  {
    hide Rev, NextCode, Sel, KraftSum, Low, Match, Longer;
    forall s: nat, w: nat | Done(lens, s, j, i + 1) && Match(lens, s, w) ensures Hit(t', s, lens[s], w) {
      FillSound(lens, t, t', ns, j, i, s0, s, w);
    }
    forall w: nat | IsPointer(t'[w % 256]) && Cell(t'[w % 256], w) < TABLE_SIZE && t'[Cell(t'[w % 256], w)] != 0
      ensures OwnedLong(lens, w, j, i + 1, 8 + Sb(t'[w % 256]))
    {
      FillNoStray(lens, t, t', ns, j, i, s0, w);
    }
  }

  lemma WindowParts(e: nat, ind: nat)
    requires e < 256
    ensures (e + 256 * ind) % 256 == e && (e + 256 * ind) / 256 == ind
  {}

  lemma SecondaryCells(lens: Lengths, t: seq<nat>, ns: nat, j: nat, i: nat, e: nat)
    requires Secondary(lens, t, ns, j, i) && e < 256 && IsPointer(t[e])
    ensures 256 + Sec(t[e]) + Pow2(Sb(t[e])) <= TABLE_SIZE
  {
    hide Sec, Sb, IsPointer, Pointed, Sound, NoStray;
  }

  /** A clash would be a second code at the front of the same window. */
  lemma {:induction false} SecondaryFree(lens: Lengths, t: seq<nat>, ns: nat, j: nat, i: nat, s0: nat, ind: nat)
    requires Valid(lens) && Kraft(lens) && Secondary(lens, t, ns, j, i)
    requires s0 < |lens| && 9 <= lens[s0] == j && |Sel(lens, s0, j)| == i
    requires var code := Rev(j, CodeOf(lens, s0));
      IsPointer(t[code % 256]) && ind < Pow2(Sb(t[code % 256])) && Low(ind, j - 8) == code / 256
    ensures t[256 + Sec(t[Rev(j, CodeOf(lens, s0)) % 256]) + ind] == 0
  {
    hide Rev, NextCode, Sel, KraftSum, Low, Match, Sound, Sec, Sb, IsPointer, Pointed, Kraft;
    var code := Rev(j, CodeOf(lens, s0));
    var p := t[code % 256];
    var w := code % 256 + 256 * ind;
    WindowParts(code % 256, ind);
    LowId(ind, Sb(p));
    assert Cell(p, w) == 256 + Sec(p) + ind;
    SecondaryCells(lens, t, ns, j, i, code % 256);
    if t[Cell(p, w)] != 0 {
      assert OwnedLong(lens, w, j, i, 8 + Sb(p));
      var s: nat :| LongDone(lens, s, j, i) && lens[s] <= 8 + Sb(p) && Match(lens, s, w);
      LongSlots(lens, s0, w);
      PrefixFree(lens, s0, s, w);
      NextLong(lens, s, s0, j, i);
    }
  }

  lemma {:induction false} PrefixIsPointer(lens: Lengths, t: seq<nat>, ns: nat, j: nat, i: nat, s0: nat)
    requires Valid(lens) && Kraft(lens) && Secondary(lens, t, ns, j, i)
    requires s0 < |lens| && 9 <= lens[s0] == j
    ensures var p := t[Rev(j, CodeOf(lens, s0)) % 256];
      p == 0 || (IsPointer(p) && j - 8 <= Sb(p))
  {
    hide Rev, NextCode, Sel, KraftSum, Low, Match, Sound;
    var e := Rev(j, CodeOf(lens, s0)) % 256;
    if t[e] != 0 && !IsPointer(t[e]) {
      var s: nat :| s < |lens| && lens[s] <= 8 && Match(lens, s, e);
      SharedPrefix(lens, s0, s, e);
    }
  }

  // ----- at most one code of zeros

  /** Window 0 finds an entry. */
  predicate Taken(t: seq<nat>)
    requires |t| == TABLE_SIZE
  {
    t[0] != 0 && (IsPointer(t[0]) ==> t[256 + Sec(t[0])] != 0)
  }

  /** At most one installed code is all zeros, and it has window 0. */
  ghost predicate FrontLong(lens: Lengths, t: seq<nat>, j: nat, i: nat) {
    |t| == TABLE_SIZE
    && (forall s: nat :: Done(lens, s, j, i) && Zero(lens, s) ==> Taken(t))
    && (forall s: nat, u: nat ::
          Done(lens, s, j, i) && Zero(lens, s) && Done(lens, u, j, i) && Zero(lens, u) ==> s == u)
  }

  lemma FrontLongStart(lens: Lengths, t: seq<nat>)
    requires Valid(lens) && Front(lens, t, 9, 0)
    ensures FrontLong(lens, t, 15, 0)
  {
    hide Zero, Sel;
    forall s: nat | Done(lens, s, 15, 0) ensures Before(lens, s, 9, 0) {}
  }

  lemma {:induction false} FrontLongStep(lens: Lengths, t: seq<nat>, t': seq<nat>, j: nat, i: nat, s0: nat)
    requires FrontLong(lens, t, j, i) && |t'| == TABLE_SIZE
    requires s0 < |lens| && 9 <= lens[s0] == j && |Sel(lens, s0, j)| == i
    requires Taken(t) ==> Taken(t')
    requires Zero(lens, s0) ==> !Taken(t) && Taken(t')
    ensures FrontLong(lens, t', j, i + 1)
  {
    hide Zero, Sel, Taken, Done;
    forall s: nat | Done(lens, s, j, i + 1) ensures s == s0 || Done(lens, s, j, i) {
      NextLong(lens, s, s0, j, i);
    }
  }

  lemma {:induction false} FrontLongNext(lens: Lengths, t: seq<nat>, j: nat)
    requires 9 <= j && FrontLong(lens, t, j, Count(lens, j))
    ensures FrontLong(lens, t, j - 1, 0)
  {
    hide Zero, Sel, Taken;
    forall s: nat | Done(lens, s, j - 1, 0) ensures Done(lens, s, j, Count(lens, j)) {
      SelRank(lens, s);
    }
  }

  /** An entry that is in use stays, and a code of zeros needs a free one. */
  lemma {:induction false} FillTaken(t: seq<nat>, t': seq<nat>, code: nat, width: nat, v: nat)
    requires |t| == |t'| == TABLE_SIZE && IsPointer(t[code % 256]) && 0 < v
    requires Filled(t, t', t[code % 256], code / 256, width, v)
    requires forall e :: 0 <= e < Pow2(Sb(t[code % 256])) && Low(e, width) == code / 256 ==>
      t[256 + Sec(t[code % 256]) + e] == 0
    ensures Taken(t) ==> Taken(t')
    ensures code == 0 ==> !Taken(t) && Taken(t')
  {
    hide Low, Sb;
    LowZero(width);
    var x := 256 + Sec(t[0]);
    assert t'[0] == t[0] && (t'[x] == t[x] || t'[x] == v);
    if code == 0 {
      assert t[256 + Sec(t[code % 256]) + 0] == 0;
      assert t'[x] == v;
    }
  }

  // ----- the pass over the longer lengths

  /** Finds the secondary table for a code, opening it when there is none. */
  method FindTable(ghost lens: Lengths, table: array<nat>, ns: nat, j: nat, ghost i: nat, ghost s0: nat, code: nat)
      returns (ok: bool, secondary: nat, bits: nat, ns': nat)
    requires Valid(lens) && table.Length == TABLE_SIZE
    requires s0 < |lens| && 9 <= lens[s0] == j && code == Rev(j, CodeOf(lens, s0))
    requires Kraft(lens) ==> Secondary(lens, table[..], ns, j, i)
    modifies table
    ensures ok ==> ns <= ns' <= ns + Pow2(j - 8)
    ensures ok ==> var p := table[code % 256];
      IsPointer(p) && secondary == Sec(p) && bits == Sb(p) && j - 8 <= bits
    ensures Kraft(lens) ==> if ok then Secondary(lens, table[..], ns', j, i) else ns > 511
    ensures ok && Taken(old(table[..])) ==> Taken(table[..])
  {
    hide Rev, NextCode, Sel, KraftSum, Secondary, Kraft, Sb, IsPointer, Pointer, Low;
    ns' := ns;
    var primary := code % 256;
    var tprimary := table[primary];
    if Kraft(lens) { PrefixIsPointer(lens, table[..], ns, j, i, s0); }
    if tprimary == 0 {
      if ns > 511 {
        return false, 0, 0, ns;
      }
      secondary, bits := ns, j - 8;
      ns' := ns + Pow2(j - 8);
      PointerParts(ns, j - 8);
      if Kraft(lens) { OpenTable(lens, table[..], ns, j, i, s0, primary); }
      ghost var t := table[..];
      table[primary] := Pointer(ns, j - 8);
      assert table[..] == t[primary := Pointer(ns, j - 8)];
    } else {
      if !IsPointer(tprimary) {
        return false, 0, 0, ns;
      }
      secondary, bits := Sec(tprimary), Sb(tprimary);
      if bits < j - 8 {
        return false, 0, 0, ns;
      }
    }
    ok := true;
  }

  /** Installs one long code in a secondary table. */
  method PlaceLong(ghost lens: Lengths, table: array<nat>, ghost ns: nat, j: nat, ghost i: nat, val: nat, code: nat,
                   secondary: nat, bits: nat)
      returns (ok: bool)
    requires Valid(lens) && table.Length == TABLE_SIZE
    requires val < |lens| && 9 <= lens[val] == j && |Sel(lens, val, j)| == i && code == Rev(j, CodeOf(lens, val))
    requires var p := table[code % 256];
      IsPointer(p) && secondary == Sec(p) && bits == Sb(p) && j - 8 <= bits
    requires Kraft(lens) ==> Secondary(lens, table[..], ns, j, i)
    requires Marked(lens) ==> FrontLong(lens, table[..], j, i)
    modifies table
    ensures forall e :: 0 <= e < 256 ==> table[e] == old(table[e])
    ensures Kraft(lens) ==> ok && Secondary(lens, table[..], ns, j, i + 1)
    ensures ok && Marked(lens) ==> FrontLong(lens, table[..], j, i + 1)
  {
    hide Rev, NextCode, Sel, KraftSum, Secondary, FrontLong, Taken, Marked, Kraft, Low;
    ghost var t := table[..];
    Pow2Le(bits, 7);
    assert Pow2(7) == 128;
    Pow2Add(8, j - 8);
    assert Pow2(8) == 256;
    ok := Fill(table, 256 + secondary, Pow2(bits), code / 256, j - 8, Indirect(val, j));
    if ok {
      FillTaken(t, table[..], code, j - 8, Indirect(val, j));
      if Marked(lens) { FrontLongStep(lens, t, table[..], j, i, val); }
    }
    if Kraft(lens) {
      if ok {
        FillTable(lens, t, table[..], ns, j, i, val);
      } else {
        var e :| 0 <= e < Pow2(bits) && Low(e, j - 8) == code / 256 && t[256 + secondary + e] != 0;
        SecondaryFree(lens, t, ns, j, i, val, e);
      }
    }
  }

  /** An upper bound for the secondary entries the codes longer than `j` need. */
  function Need(lens: Lengths, j: nat): nat
    requires 8 <= j
    decreases 15 - j
  {
    if j >= 15 then 0 else Need(lens, j + 1) + Count(lens, j + 1) * Pow2(j - 7)
  }

  lemma {:induction false} NeedStep(lens: Lengths, j: nat, i: nat)
    requires 9 <= j <= 15
    ensures Need(lens, j) + (i + 1) * Pow2(j - 8) == Need(lens, j) + i * Pow2(j - 8) + Pow2(j - 8)
    ensures i <= Count(lens, j) ==> Need(lens, j) + i * Pow2(j - 8) <= Need(lens, j - 1) <= Need(lens, 8)
  {
    if i <= Count(lens, j) { MulLe(i, Count(lens, j), Pow2(j - 8)); }
    NeedMono(lens, j - 1);
  }

  lemma {:induction false} NeedMono(lens: Lengths, j: nat)
    requires 8 <= j <= 15
    ensures Need(lens, j) <= Need(lens, 8)
  {
    hide Count;
    if j > 8 { NeedMono(lens, j - 1); }
  }

  lemma {:induction false} SelNone(lens: Lengths, n: nat, j: nat)
    requires n <= |lens| && forall s :: 0 <= s < n ==> lens[s] != j
    ensures Sel(lens, n, j) == []
  {
    if n > 0 { SelNone(lens, n - 1, j); }
  }

  lemma {:induction false} NeedNone(lens: Lengths, j: nat)
    requires 8 <= j <= 15 && forall s :: 0 <= s < |lens| ==> lens[s] <= j
    ensures Need(lens, j) == 0
    decreases 15 - j
  {
    if j < 15 {
      SelNone(lens, |lens|, j + 1);
      NeedNone(lens, j + 1);
    }
  }

  /** Between lengths: nothing of length `j` is missing any more. */
  lemma {:induction false} SecondaryNextLength(lens: Lengths, t: seq<nat>, ns: nat, j: nat)
    requires 9 <= j && Secondary(lens, t, ns, j, Count(lens, j))
    ensures Secondary(lens, t, ns, j - 1, 0)
  {
    hide Match, Cell, Sel, Pointed;
    forall s: nat ensures LongDone(lens, s, j, Count(lens, j)) <==> LongDone(lens, s, j - 1, 0) {
      if s < |lens| { SelRank(lens, s); }
    }
    forall w: nat, b: nat | OwnedLong(lens, w, j, Count(lens, j), b) ensures OwnedLong(lens, w, j - 1, 0, b) {
      var s: nat :| LongDone(lens, s, j, Count(lens, j)) && lens[s] <= b && Match(lens, s, w);
      assert LongDone(lens, s, j - 1, 0);
    }
    assert NoStray(lens, t, j - 1, 0);
  }

  /** The secondary table remembered from the previous code. */
  predicate Cached(t: seq<nat>, j: nat, primary: nat, secondary: nat, bits: nat)
    requires |t| == TABLE_SIZE
  {
    primary < 256 ==>
      IsPointer(t[primary]) && secondary == Sec(t[primary]) && bits == Sb(t[primary]) && j <= bits + 8
  }

  /** Installs one long code, looking its table up only when the prefix changes. */
  method InstallLong(ghost lens: Lengths, table: array<nat>, j: nat, ghost i: nat, val: nat, code: nat,
                     primary0: nat, secondary0: nat, bits0: nat, ns0: nat)
      returns (ok: bool, primary: nat, secondary: nat, bits: nat, ns: nat)
    requires Valid(lens) && table.Length == TABLE_SIZE && Cached(table[..], j, primary0, secondary0, bits0)
    requires val < |lens| && 9 <= lens[val] == j && |Sel(lens, val, j)| == i && code == Rev(j, CodeOf(lens, val))
    requires Kraft(lens) ==> Secondary(lens, table[..], ns0, j, i)
    requires Marked(lens) ==> FrontLong(lens, table[..], j, i)
    modifies table
    ensures ok ==> ns <= ns0 + Pow2(j - 8) && Cached(table[..], j, primary, secondary, bits)
    ensures Kraft(lens) ==> if ok then Secondary(lens, table[..], ns, j, i + 1) else ns0 > 511
    ensures ok && Marked(lens) ==> FrontLong(lens, table[..], j, i + 1)
  {
    hide Rev, NextCode, Sel, KraftSum, Secondary, Taken, Marked, Done, Zero;
    primary, secondary, bits, ns := primary0, secondary0, bits0, ns0;
    if code % 256 != primary {
      ok, secondary, bits, ns := FindTable(lens, table, ns, j, i, val, code);
      if !ok {
        return;
      }
      primary := code % 256;
    }
    ok := PlaceLong(lens, table, ns, j, i, val, code, secondary, bits);
  }

  /** Installs the codes of length `j`, in canonical order. */
  method SecondaryLength(ghost lens: Lengths, next: array<nat>, table: array<nat>,
                         j: nat, jcnt: nat, first: nat, code0: nat, ns0: nat)
      returns (ok: bool, ns: nat)
    requires Valid(lens) && |lens| <= next.Length && table.Length == TABLE_SIZE && table != next
    requires 9 <= j <= 15 && Chain(lens, |lens|, j, jcnt, first, next[..])
    requires jcnt != 0 && code0 == Rev(j, NextCode(lens, j))
    requires ns0 <= Need(lens, j)
    requires Kraft(lens) ==> Secondary(lens, table[..], ns0, j, 0)
    requires Marked(lens) ==> FrontLong(lens, table[..], j, 0)
    modifies table
    ensures ok ==> ns <= Need(lens, j - 1)
    ensures Kraft(lens) ==> if ok then Secondary(lens, table[..], ns, j, jcnt) else Need(lens, 8) > 511
    ensures ok && Marked(lens) ==> FrontLong(lens, table[..], j, jcnt)
  {
    hide Rev, NextCode, Sel, KraftSum, Secondary, Need, Cached, FrontLong, Marked;
    ns := ns0;
    var code, val, i := code0, first, 0;
    var primary, secondary, bits := 256, 0, 0;
    NoneCached(table[..], j);
    NeedStep(lens, j, 0);
    while i < jcnt
      invariant 0 <= i <= jcnt && (i < jcnt ==> val == Sel(lens, |lens|, j)[i])
      invariant code == Rev(j, NextCode(lens, j) + i)
      invariant Cached(table[..], j, primary, secondary, bits)
      invariant ns <= Need(lens, j) + i * Pow2(j - 8)
      invariant Kraft(lens) ==> Secondary(lens, table[..], ns, j, i)
      invariant Marked(lens) ==> FrontLong(lens, table[..], j, i)
    {
      SelMember(lens, |lens|, j, i);
      NeedStep(lens, j, i);
      ok, primary, secondary, bits, ns := InstallLong(lens, table, j, i, val, code, primary, secondary, bits, ns);
      if !ok {
        return;
      }
      ghost var t := table[..];
      if i + 1 < jcnt {
        val := next[val];
      }
      code := Reverse.Increment(code, j, NextCode(lens, j) + i);
      assert table[..] == t;
      i := i + 1;
    }
    NeedStep(lens, j, jcnt);
    ok := true;
  }

  lemma NoneCached(t: seq<nat>, j: nat)
    requires |t| == TABLE_SIZE
    ensures Cached(t, j, 256, 0, 0)
  {}

  /** Installs every code of nine bits or more, longest lengths first. */
  method SecondaryPass(ghost lens: Lengths, count: array<nat>, start: array<nat>, next: array<nat>,
                       firstcode: array<nat>, table: array<nat>)
      returns (ok: bool, ns: nat)
    requires Valid(lens) && table.Length == TABLE_SIZE && firstcode.Length == 7
    requires table != next && table != count && table != start && table != firstcode
    requires Chains(lens, |lens|, count[..], start[..], next[..])
    requires forall j :: 9 <= j < 16 && count[j] != 0 ==> firstcode[j - 9] == Rev(j, NextCode(lens, j))
    requires Kraft(lens) ==> Secondary(lens, table[..], 0, 15, 0)
    requires Marked(lens) ==> FrontLong(lens, table[..], 15, 0)
    modifies table
    ensures Kraft(lens) ==>
      if ok then Secondary(lens, table[..], ns, 8, 0) else Need(lens, 8) > 511
    ensures ok && Marked(lens) ==> FrontLong(lens, table[..], 8, 0)
  {
    hide Rev, NextCode, Sel, KraftSum, Secondary, Need, Chain, FrontLong, Marked;
    ns := 0;
    var j := 15;
    while j >= 9
      invariant 8 <= j <= 15 && ns <= Need(lens, j)
      invariant Kraft(lens) ==> Secondary(lens, table[..], ns, j, 0)
      invariant Marked(lens) ==> FrontLong(lens, table[..], j, 0)
    {
      ghost var c, f, nx := count[..], start[..], next[..];
      assert Chain(lens, |lens|, j, c[j], f[j], nx);
      ChainCount(lens, j, c[j], f[j], nx);
      NeedStep(lens, j, 0);
      var jcnt := count[j];
      if jcnt != 0 {
        ok, ns := SecondaryLength(lens, next, table, j, jcnt, start[j], firstcode[j - 9], ns);
        if !ok {
          return;
        }
      }
      if Kraft(lens) { SecondaryNextLength(lens, table[..], ns, j); }
      if Marked(lens) { FrontLongNext(lens, table[..], j); }
      j := j - 1;
    }
    ok := true;
  }
}
