/** The vector of line rows: what storing a row keeps, with and without relocation,
    and what a lookup then finds. */
module LineTable {
  import opened Arith
  import opened LineIndex

  function Relocated(row: Row, base: nat): Row { row.(pc := (row.pc + base) % WORD) }

  /** Appends a row, unless it equals the last one stored. */
  function AddLine(rows: seq<Row>, base: nat, row: Row): seq<Row> {
    if rows != [] && rows[|rows| - 1] == row then rows else rows + [Relocated(row, base)]
  }

  /** The rows stored for a sequence of emitted ones. */
  function Stored(rows: seq<Row>, base: nat): seq<Row> {
    if rows == [] then [] else AddLine(Stored(rows[..|rows| - 1], base), base, rows[|rows| - 1])
  }

  lemma StoredSnoc(rows: seq<Row>, base: nat, row: Row)
    ensures Stored(rows + [row], base) == AddLine(Stored(rows, base), base, row)
  {
    assert (rows + [row])[..|rows|] == rows;
  }

  ghost predicate InRange(rows: seq<Row>) { forall k :: 0 <= k < |rows| ==> rows[k].pc < WORD }

  // ----- without relocation

  /** Without the rows that repeat the one before them. */
  function Collapse(rows: seq<Row>): seq<Row> {
    var n := |rows|;
    if n == 0 then []
    else Collapse(rows[..n - 1]) + if n > 1 && rows[n - 1] == rows[n - 2] then [] else [rows[n - 1]]
  }

  lemma {:induction false} CollapseLast(rows: seq<Row>)
    requires rows != []
    ensures Collapse(rows) != [] && Collapse(rows)[|Collapse(rows)| - 1] == rows[|rows| - 1]
  {
    if |rows| > 1 { CollapseLast(rows[..|rows| - 1]); }
  }

  /** With base zero, comparing with the last stored row drops the repetitions. */
  lemma {:induction false} StoredPlain(rows: seq<Row>)
    requires InRange(rows)
    ensures Stored(rows, 0) == Collapse(rows)
  {
    if rows != [] {
      var front := rows[..|rows| - 1];
      StoredPlain(front);
      if front != [] { CollapseLast(front); }
    }
  }

  /** Dropping repetitions does not change what is in force at an address. */
  lemma {:induction false} CollapseScan(rows: seq<Row>, key: nat)
    ensures var c := Collapse(rows);
      var i, j := Scan(rows, |rows|, key), Scan(c, |c|, key);
      (i < 0 <==> j < 0) && (i >= 0 ==> rows[i] == c[j])
  {
    var n := |rows|;
    if n > 0 {
      var front := rows[..n - 1];
      CollapseScan(front, key);
      ScanPrefix(front, rows, n - 1, key);
      if n > 1 && rows[n - 1] == rows[n - 2] {
        assert Collapse(rows) == Collapse(front);
        CollapseLast(front);
        LastWins(Collapse(front), key);
      } else {
        ScanPrefix(Collapse(front), Collapse(rows), |Collapse(front)|, key);
      }
    }
  }

  /** The scan settles for the last row if nothing at or below the key is above it. */
  lemma LastWins(rows: seq<Row>, key: nat)
    requires rows != []
    ensures var n := |rows|;
      var r := Scan(rows, n, key);
      rows[n - 1].pc <= key && (r < 0 || rows[r].pc <= rows[n - 1].pc) ==> r == n - 1
  {
    ScanCorrect(rows, |rows|, key);
  }

  lemma {:induction false} ScanPrefix(a: seq<Row>, b: seq<Row>, n: nat, key: nat)
    requires n <= |a| && a <= b
    ensures Scan(a, n, key) == Scan(b, n, key)
  {
    if n > 0 { ScanPrefix(a, b, n - 1, key); }
  }

  // ----- with relocation

  function RelocateAll(rows: seq<Row>, base: nat): (r: seq<Row>)
    ensures |r| == |rows| && forall k :: 0 <= k < |rows| ==> r[k] == Relocated(rows[k], base)
  {
    if rows == [] then [] else RelocateAll(rows[..|rows| - 1], base) + [Relocated(rows[|rows| - 1], base)]
  }

  /** No row equals the one before it with the base added. */
  ghost predicate Distinct(rows: seq<Row>, base: nat) {
    forall k :: 0 < k < |rows| ==> rows[k] != Relocated(rows[k - 1], base)
  }

  lemma DistinctSnoc(rows: seq<Row>, base: nat)
    requires rows != []
    ensures var n := |rows|;
      Distinct(rows, base) <==>
        Distinct(rows[..n - 1], base) && (n > 1 ==> rows[n - 1] != Relocated(rows[n - 2], base))
  {
    var n := |rows|;
    var front := rows[..n - 1];
    if Distinct(rows, base) {
      forall k | 0 < k < n - 1 ensures front[k] != Relocated(front[k - 1], base) {
        assert rows[k] != Relocated(rows[k - 1], base);
      }
    }
    if Distinct(front, base) && (n > 1 ==> rows[n - 1] != Relocated(rows[n - 2], base)) {
      forall k | 0 < k < n ensures rows[k] != Relocated(rows[k - 1], base) {
        if k < n - 1 { assert front[k] != Relocated(front[k - 1], base); }
      }
    }
  }

  /** The comparison is with a relocated row. Every row is stored if and only if none
      equals its predecessor with the base added; then the table is the relocated rows. */
  lemma {:induction false} StoredExact(rows: seq<Row>, base: nat)
    ensures |Stored(rows, base)| <= |rows|
    ensures |Stored(rows, base)| == |rows| <==> Distinct(rows, base)
    ensures Distinct(rows, base) ==> Stored(rows, base) == RelocateAll(rows, base)
  {
    hide Distinct;
    if rows == [] {
      NothingDistinct(base);
    } else {
      StoredExact(rows[..|rows| - 1], base);
      DistinctSnoc(rows, base);
    }
  }

  lemma NothingDistinct(base: nat)
    ensures Distinct([], base)
  {}

  /** In particular a repeated row is dropped exactly when nothing is relocated. */
  lemma RepeatDropped(rows: seq<Row>, base: nat, row: Row)
    requires base < WORD && row.pc < WORD && (rows == [] || rows[|rows| - 1] != row)
    ensures |AddLine(AddLine(rows, base, row), base, row)| == |rows| + 1 <==> base == 0
  {
    var once := AddLine(rows, base, row);
    assert once[|once| - 1].pc == (row.pc + base) % WORD;
    if base > 0 { assert (row.pc + base) % WORD != row.pc; }
  }

  lemma {:induction false} RelocateNone(rows: seq<Row>)
    requires InRange(rows)
    ensures RelocateAll(rows, 0) == rows
  {
    if rows != [] { RelocateNone(rows[..|rows| - 1]); }
  }

  /** What is in force at an address is what the relocated rows say, when nothing is
      relocated or every row is stored. */
  lemma StoredScan(rows: seq<Row>, base: nat, key: nat)
    requires InRange(rows) && (base == 0 || Distinct(rows, base))
    ensures var s, all := Stored(rows, base), RelocateAll(rows, base);
      var i, j := Scan(all, |all|, key), Scan(s, |s|, key);
      (i < 0 <==> j < 0) && (i >= 0 ==> all[i] == s[j])
  {
    hide Scan, Stored, Collapse, Distinct;
    if base == 0 {
      RelocateNone(rows);
      StoredPlain(rows);
      CollapseScan(rows, key);
    } else {
      StoredExact(rows, base);
    }
  }

  /** With base 16 a row is lost that repeats nothing, and a lookup shows it: at 33
      the table answers line 7 where the relocated rows say line 1. */
  lemma RelocationDrops(rows: seq<Row>, file: FileName)
    requires |rows| == 3 && rows[0] == Row(4, file, 7) && rows[1] == Row(0, file, 1) && rows[2] == Row(16, file, 1)
    ensures rows[2] != rows[1] && |Stored(rows, 16)| == 2
    ensures var s, all := Stored(rows, 16), RelocateAll(rows, 16);
      Scan(s, 2, 33) == 0 && s[0].lineno == 7 && Scan(all, 3, 33) == 2 && all[2].lineno == 1
  {
    var a, b := rows[..1], rows[..2];
    assert b[..1] == a && rows[..2] == b && a[..0] == [];
    assert Stored(a, 16) == [Row(20, file, 7)];
    assert Stored(b, 16) == [Row(20, file, 7), Row(16, file, 1)];
    var s, all := Stored(rows, 16), RelocateAll(rows, 16);
    assert Scan(s, 1, 33) == 0;
    assert Scan(all, 1, 33) == 0 && Scan(all, 2, 33) == 0;
  }
}
