/** From emitted line rows to a searchable index: tag, sort, sentinel, binary
    search, compared with a linear scan of the rows. */
module LineIndex {
  import opened QSort

  /** The highest address, and the PC of the sentinel. */
  const MAX_PC: nat := 0xffff_ffff_ffff_ffff

  /** File names are compared by address, so an identity will do: none, that of an
      entry of the file table, or that of a name found so many bytes from the end of
      the program. */
  datatype FileName = NoName | Listed(number: nat) | Defined(place: nat)

  datatype Row = Row(pc: nat, filename: FileName, lineno: int)
  datatype Line = Line(pc: nat, filename: FileName, lineno: int, idx: nat)

  function LineCompare(a: Line, b: Line): int {
    if a.pc < b.pc then -1 else if a.pc > b.pc then 1
    else if a.idx < b.idx then -1 else if a.idx > b.idx then 1 else 0
  }

  lemma LineOrder()
    ensures TotalPreorder(LineCompare)
  {}

  /** Row `i` with its index. */
  function Tag(rows: seq<Row>, i: nat): Line
    requires i < |rows|
  {
    Line(rows[i].pc, rows[i].filename, rows[i].lineno, i)
  }

  // ----- the reference: a linear scan

  /** The row in force at `key` among the first `n`: the greatest PC not above it,
      the last such row among equals. */
  function Scan(rows: seq<Row>, n: nat, key: nat): (r: int)
    requires n <= |rows|
    ensures -1 <= r < n
  {
    if n == 0 then -1
    else
      var r := Scan(rows, n - 1, key);
      if rows[n - 1].pc <= key && (r < 0 || rows[r].pc <= rows[n - 1].pc) then n - 1 else r
  }

  /** Row `i` is at or below the key and no later row of the order is. */
  ghost predicate InForce(rows: seq<Row>, n: nat, key: nat, i: nat)
    requires n <= |rows|
  {
    i < n && rows[i].pc <= key
    && forall k :: 0 <= k < n && rows[k].pc <= key ==> rows[k].pc < rows[i].pc || (rows[k].pc == rows[i].pc && k <= i)
  }

  lemma {:induction false} ScanCorrect(rows: seq<Row>, n: nat, key: nat)
    requires n <= |rows|
    ensures var r := Scan(rows, n, key);
      if r < 0 then forall k :: 0 <= k < n ==> key < rows[k].pc else InForce(rows, n, key, r)
  {
    if n > 0 { ScanCorrect(rows, n - 1, key); }
  }

  lemma InForceUnique(rows: seq<Row>, n: nat, key: nat, i: nat, j: nat)
    requires n <= |rows| && InForce(rows, n, key, i) && InForce(rows, n, key, j)
    ensures i == j
  {}

  // ----- the index

  /** The first `n` entries are the tagged rows in order, the last is the sentinel. */
  ghost predicate Indexes(ln: seq<Line>, rows: seq<Row>) {
    |ln| == |rows| + 1 && Sorted(ln, 0, |rows|, LineCompare) && ln[|rows|].pc == MAX_PC
    && (forall i :: 0 <= i < |rows| ==> ln[i].idx < |rows| && ln[i] == Tag(rows, ln[i].idx))
    && (forall k :: 0 <= k < |rows| ==> Tag(rows, k) in ln[..|rows|])
  }

  ghost predicate Bounded(rows: seq<Row>) { forall k :: 0 <= k < |rows| ==> rows[k].pc <= MAX_PC }

  /** Sorting the tagged rows keeps each of them. */
  lemma IndexesSorted(s: seq<Line>, t: seq<Line>, rows: seq<Row>)
    requires |s| == |rows| + 1 && forall i :: 0 <= i < |rows| ==> s[i] == Tag(rows, i)
    requires s[|rows|].pc == MAX_PC
    requires Rearranged(s, t, 0, |rows|) && Sorted(t, 0, |rows|, LineCompare)
    ensures Indexes(t, rows)
  {
    var n := |rows|;
    assert s[0..n] == s[..n] && t[0..n] == t[..n];
    RearrangedSame(s, t, 0, n, n);
    forall i | 0 <= i < n ensures t[i].idx < n && t[i] == Tag(rows, t[i].idx) {
      assert t[i] in multiset(t[..n]) && t[i] in multiset(s[..n]);
      var k :| 0 <= k < n && s[..n][k] == t[i];
    }
    forall k | 0 <= k < n ensures Tag(rows, k) in t[..n] {
      assert s[..n][k] == Tag(rows, k);
      assert Tag(rows, k) in multiset(s[..n]);
      assert Tag(rows, k) in multiset(t[..n]);
    }
  }

  /** Tags the rows, adds the sentinel and sorts. */
  method BuildIndex(rows: seq<Row>) returns (ln: array<Line>)
    ensures fresh(ln) && Indexes(ln[..], rows)
  {
    var n := |rows|;
    ln := new Line[n + 1](_ => Line(MAX_PC, NoName, 0, 0));
    for i := 0 to n
      invariant forall k :: 0 <= k < i ==> ln[k] == Tag(rows, k)
      invariant ln[n] == Line(MAX_PC, NoName, 0, 0)
    {
      ln[i] := Tag(rows, i);
    }
    ghost var s := ln[..];
    LineOrder();
    hide Rearranged, Sorted, TotalPreorder, Indexes;
    ghost var depth := Sort(ln, 0, n, LineCompare);
    IndexesSorted(s, ln[..], rows);
  }

  // ----- searching

  /** Compares a PC with the range from an entry to the next one. */
  function LineSearch(key: nat, ln: seq<Line>, i: nat): int
    requires i + 1 < |ln|
  {
    if key < ln[i].pc then -1 else if key >= ln[i + 1].pc then 1 else 0
  }

  lemma IndexLen(ln: seq<Line>, rows: seq<Row>)
    requires Indexes(ln, rows)
    ensures |ln| == |rows| + 1 && ln[|rows|].pc == MAX_PC
  {}

  lemma EntryAt(ln: seq<Line>, rows: seq<Row>, f: nat)
    requires Indexes(ln, rows) && f < |rows|
    ensures f < |ln| && ln[f].idx < |rows| && ln[f] == Tag(rows, ln[f].idx)
  {}

  lemma PlaceOf(ln: seq<Line>, rows: seq<Row>, k: nat) returns (q: nat)
    requires Indexes(ln, rows) && k < |rows|
    ensures q < |rows| < |ln| && ln[q] == Tag(rows, k)
  {
    q :| 0 <= q < |rows| && ln[..|rows|][q] == Tag(rows, k);
  }

  lemma InOrder(ln: seq<Line>, rows: seq<Row>, i: nat, j: nat)
    requires Indexes(ln, rows) && i < j < |rows|
    ensures j < |ln| && LineCompare(ln[i], ln[j]) <= 0
  {}

  lemma PcsAscend(ln: seq<Line>, rows: seq<Row>, i: nat, j: nat)
    requires Indexes(ln, rows) && Bounded(rows) && i <= j < |ln|
    ensures ln[i].pc <= ln[j].pc
  {
    hide Indexes;
    IndexLen(ln, rows);
    if i < j < |rows| { InOrder(ln, rows, i, j); } else if i < j { EntryAt(ln, rows, i); }
  }

  /** The entry whose range holds the key is the row in force. */
  lemma FoundInForce(ln: seq<Line>, rows: seq<Row>, key: nat, f: nat)
    requires Indexes(ln, rows) && Bounded(rows) && f < |rows| && f + 1 < |ln| && LineSearch(key, ln, f) == 0
    ensures f < |ln| && InForce(rows, |rows|, key, ln[f].idx)
  {
    hide Indexes, Bounded;
    EntryAt(ln, rows, f);
    var i := ln[f].idx;
    forall k | 0 <= k < |rows| && rows[k].pc <= key
      ensures rows[k].pc < rows[i].pc || (rows[k].pc == rows[i].pc && k <= i)
    {
      var q := PlaceOf(ln, rows, k);
      if q > f {
        PcsAscend(ln, rows, f + 1, q);
      } else if q < f {
        InOrder(ln, rows, q, f);
      }
    }
  }

  lemma AllAbove(ln: seq<Line>, rows: seq<Row>, key: nat)
    requires Indexes(ln, rows) && Bounded(rows) && ln != [] && key < ln[0].pc
    ensures forall k :: 0 <= k < |rows| ==> key < rows[k].pc
  {
    hide Indexes, Bounded;
    forall k | 0 <= k < |rows| ensures key < rows[k].pc {
      var q := PlaceOf(ln, rows, k);
      PcsAscend(ln, rows, 0, q);
    }
  }

  /** An entry whose range holds the key is the one the scan finds. */
  lemma FoundByScan(ln: seq<Line>, rows: seq<Row>, key: nat, f: nat)
    requires Indexes(ln, rows) && Bounded(rows) && f < |rows| && f + 1 < |ln| && LineSearch(key, ln, f) == 0
    ensures var r := Scan(rows, |rows|, key);
      r >= 0 && ln[f] == Tag(rows, r)
  {
    hide Indexes, Bounded, LineSearch, Scan;
    FoundInForce(ln, rows, key, f);
    EntryAt(ln, rows, f);
    ScanCorrect(rows, |rows|, key);
    var r := Scan(rows, |rows|, key);
    if r >= 0 { InForceUnique(rows, |rows|, key, r, ln[f].idx); }
  }

  /** Binary search for the entry in force; -1 when there is none. */
  method Find(ln: array<Line>, ghost rows: seq<Row>, count: nat, key: nat) returns (f: int)
    requires Indexes(ln[..], rows) && Bounded(rows) && count == |rows| && key < MAX_PC
    ensures -1 <= f < count
    ensures var r := Scan(rows, |rows|, key);
      if f < 0 then r < 0 else r >= 0 && ln[f] == Tag(rows, r)
  {
    hide Indexes, Bounded, Scan, InForce;
    ghost var s := ln[..];
    IndexLen(s, rows);
    var l, u := 0, count;
    while l < u
      invariant 0 <= l <= u <= count
      invariant l > 0 ==> s[l].pc <= key
      invariant key < s[u].pc
    {
      var i := (l + u) / 2;
      var c := LineSearch(key, ln[..], i);
      if c < 0 {
        u := i;
      } else if c > 0 {
        l := i + 1;
      } else {
        FoundByScan(s, rows, key, i);
        return i;
      }
    }
    AllAbove(s, rows, key);
    ScanCorrect(rows, |rows|, key);
    NoneInForce(rows, key);
    f := -1;
  }

  lemma NoneInForce(rows: seq<Row>, key: nat)
    requires forall k :: 0 <= k < |rows| ==> key < rows[k].pc
    ensures forall i: nat :: !InForce(rows, |rows|, key, i)
  {}

  /** Index and search together agree with the linear scan. */
  method RowAt(rows: seq<Row>, key: nat) returns (r: int)
    requires Bounded(rows) && key < MAX_PC
    ensures r == Scan(rows, |rows|, key)
  {
    var ln := BuildIndex(rows);
    var f := Find(ln, rows, |rows|, key);
    r := if f < 0 then -1 else ln[f].idx;
  }
}
