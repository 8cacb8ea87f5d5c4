/** The abbreviation table of a unit, section 7.5.3 of DWARF Version 4: counted,
    then read, sorted and searched. */
module Abbrevs {
  import opened Arith
  import opened Bytes
  import opened Leb128
  import opened DwarfBuf
  import opened QSort

  /** Tags, names and forms are kept in 32-bit enumerations. */
  datatype Attr = Attr(name: nat, form: nat)
  datatype Abbrev = Abbrev(code: nat, tag: nat, hasChildren: byte, attrs: seq<Attr>)

  // ----- the reference: one pass over the bytes

  datatype Parsed<T> = Truncated | Parsed(value: T, rest: seq<byte>)

  function Number(bs: seq<byte>): (p: Parsed<nat>)
    ensures p.Parsed? ==> |p.rest| < |bs|
  {
    if Ends(bs) then Parsed(Sevens(bs, Len(bs)), bs[Len(bs)..]) else Truncated
  }

  /** Pairs of a name and a form, ended by a pair with a zero name. */
  function Attrs(bs: seq<byte>, acc: seq<Attr>): (p: Parsed<seq<Attr>>)
    ensures p.Parsed? ==> |p.rest| < |bs|
    decreases |bs|
  {
    var name := Number(bs);
    if name.Truncated? then Truncated
    else
      var form := Number(name.rest);
      if form.Truncated? then Truncated
      else if name.value == 0 then Parsed(acc, form.rest)
      else Attrs(form.rest, acc + [Attr(name.value % WORD32, form.value % WORD32)])
  }

  /** An entry after its code. */
  function Entry(code: nat, bs: seq<byte>): (p: Parsed<Abbrev>)
    ensures p.Parsed? ==> |p.rest| < |bs|
  {
    var tag := Number(bs);
    if tag.Truncated? || tag.rest == [] then Truncated
    else
      var attrs := Attrs(tag.rest[1..], []);
      if attrs.Truncated? then Truncated
      else Parsed(Abbrev(code, tag.value % WORD32, tag.rest[0], attrs.value), attrs.rest)
  }

  /** Entries, ended by a zero code. */
  function Table(bs: seq<byte>, acc: seq<Abbrev>): Parsed<seq<Abbrev>>
    decreases |bs|
  {
    var code := Number(bs);
    if code.Truncated? then Truncated
    else if code.value == 0 then Parsed(acc, code.rest)
    else
      var entry := Entry(code.value, code.rest);
      if entry.Truncated? then Truncated else Table(entry.rest, acc + [entry.value])
  }

  lemma {:induction false} AttrsGrow(bs: seq<byte>, acc: seq<Attr>)
    ensures Attrs(bs, acc).Parsed? ==> |acc| <= |Attrs(bs, acc).value|
    decreases |bs|
  {
    hide Number;
    var name := Number(bs);
    if name.Parsed? && Number(name.rest).Parsed? && name.value != 0 {
      var form := Number(name.rest);
      AttrsGrow(form.rest, acc + [Attr(name.value % WORD32, form.value % WORD32)]);
    }
  }

  lemma {:induction false} TableGrows(bs: seq<byte>, acc: seq<Abbrev>)
    ensures Table(bs, acc).Parsed? ==> |acc| <= |Table(bs, acc).value|
    decreases |bs|
  {
    hide Number, Entry;
    var code := Number(bs);
    if code.Parsed? && code.value != 0 && Entry(code.value, code.rest).Parsed? {
      var entry := Entry(code.value, code.rest);
      TableGrows(entry.rest, acc + [entry.value]);
    }
  }

  // ----- reading

  method TakeNumber(buf: Buf) returns (v: nat)
    requires buf.Valid()
    modifies buf
    ensures buf.Valid()
    ensures match Number(old(buf.Rest())) {
      case Truncated => v == 0 && buf.Rest() == [] && buf.underflow
      case Parsed(value, rest) => v == value && buf.Rest() == rest && buf.underflow == old(buf.underflow)
    }
  {
    v := buf.ReadUleb();
  }

  /** Nothing is left and the lack has been noticed. */
  ghost predicate Exhausted(buf: Buf)
    requires buf.Valid()
    reads buf
  {
    buf.Rest() == [] && buf.underflow
  }

  lemma NothingLeft()
    ensures Number([]) == Truncated
  {}

  /** Skips the names and forms up to a zero name, and counts them. */
  method CountAttrs(buf: Buf, ghost acc: seq<Attr>) returns (n: nat)
    requires buf.Valid()
    modifies buf
    ensures buf.Valid()
    ensures match Attrs(old(buf.Rest()), acc) {
      case Truncated => Number(buf.Rest()).Truncated?
      case Parsed(value, rest) =>
        n == |value| - |acc| && Number(buf.Rest()).Parsed? && Number(buf.Rest()).rest == rest
        && buf.underflow == old(buf.underflow)
    }
  {
    hide Number;
    NothingLeft();
    ghost var all, now := Attrs(buf.Rest(), acc), acc;
    n := 0;
    ghost var bs := buf.Rest();
    var name := TakeNumber(buf);
    while name != 0
      invariant buf.Valid() && all == Attrs(bs, now) && (all.Parsed? ==> |now| == |acc| + n)
      invariant match Number(bs) {
        case Truncated => name == 0 && buf.Rest() == []
        case Parsed(value, rest) => name == value && buf.Rest() == rest
      }
      invariant all.Parsed? ==> buf.underflow == old(buf.underflow)
      decreases buf.left, name
    {
      n := n + 1;
      ghost var form := Number(buf.Rest());
      var v := TakeNumber(buf);
      if form.Parsed? { now := now + [Attr(name % WORD32, v % WORD32)]; }
      bs := buf.Rest();
      name := TakeNumber(buf);
    }
  }

  /** Skips an entry after its code. */
  method SkipEntry(buf: Buf, ghost code: nat)
    requires buf.Valid()
    modifies buf
    ensures buf.Valid()
    ensures match Entry(code, old(buf.Rest())) {
      case Truncated => Exhausted(buf)
      case Parsed(_, rest) => buf.Rest() == rest && buf.underflow == old(buf.underflow)
    }
  {
    hide Number;
    NothingLeft();
    var tag := TakeNumber(buf);
    var hasChildren := buf.ReadByte();
    var n := CountAttrs(buf, []);
    var form := TakeNumber(buf);
  }

  /** The first pass counts the entries, and fails exactly when they are truncated. */
  method CountEntries(buf: Buf) returns (ok: bool, n: nat)
    requires buf.Valid() && !buf.underflow
    modifies buf
    ensures match Table(old(buf.Rest()), []) {
      case Truncated => !ok
      case Parsed(value, _) => ok && n == |value|
    }
  {
    hide Number, Entry;
    NothingLeft();
    ghost var all, now := Table(buf.Rest(), []), [];
    n := 0;
    ghost var bs := buf.Rest();
    var code := TakeNumber(buf);
    while code != 0
      invariant buf.Valid() && all == Table(bs, now) && (all.Parsed? ==> |now| == n)
      invariant match Number(bs) {
        case Truncated => code == 0 && Exhausted(buf)
        case Parsed(value, rest) => code == value && buf.Rest() == rest
      }
      invariant if buf.underflow then all.Truncated? else all.Parsed? || Number(bs).Parsed?
      decreases buf.left, code
    {
      if buf.underflow {
        return false, 0;
      }
      n := n + 1;
      ghost var entry := Entry(code, buf.Rest());
      SkipEntry(buf, code);
      if entry.Parsed? { now := now + [entry.value]; }
      bs := buf.Rest();
      code := TakeNumber(buf);
    }
    ok := !buf.underflow;
  }

  /** Reads as many attributes as were counted. */
  method FillAttrs(buf: Buf, n: nat) returns (attrs: seq<Attr>)
    requires buf.Valid()
    requires var p := Attrs(buf.Rest(), []);
      p.Parsed? && n == |p.value|
    modifies buf
    ensures buf.Valid() && buf.underflow == old(buf.underflow)
    ensures Attrs(old(buf.Rest()), []) == Parsed(attrs, buf.Rest())
  {
    hide Number;
    ghost var all := Attrs(buf.Rest(), []);
    var a := new Attr[n](_ => Attr(0, 0));
    var i := 0;
    assert a[..0] == [];
    while true
      invariant buf.Valid() && buf.underflow == old(buf.underflow)
      invariant 0 <= i <= n && all == Attrs(buf.Rest(), a[..i])
      decreases buf.left
    {
      ghost var bs, acc := buf.Rest(), a[..i];
      var name := TakeNumber(buf);
      var form := TakeNumber(buf);
      if name == 0 {
        attrs := a[..i];
        break;
      }
      AttrsGrow(buf.Rest(), acc + [Attr(name % WORD32, form % WORD32)]);
      a[i] := Attr(name % WORD32, form % WORD32);
      i := i + 1;
      assert a[..i] == acc + [Attr(name % WORD32, form % WORD32)];
    }
  }

  /** Counts the attributes ahead, then reads them. */
  method ReadAttrs(buf: Buf) returns (attrs: seq<Attr>)
    requires buf.Valid() && Attrs(buf.Rest(), []).Parsed?
    modifies buf
    ensures buf.Valid() && buf.underflow == old(buf.underflow)
    ensures Attrs(old(buf.Rest()), []) == Parsed(attrs, buf.Rest())
  {
    var ahead := buf.Copy();
    var n := CountAttrs(ahead, []);
    if n == 0 {
      NoAttrs(buf.Rest());
      var name := TakeNumber(buf);
      var form := TakeNumber(buf);
      attrs := [];
    } else {
      attrs := FillAttrs(buf, n);
    }
  }

  lemma NoAttrs(bs: seq<byte>)
    requires Attrs(bs, []).Parsed? && Attrs(bs, []).value == []
    ensures Number(bs).value == 0
  {
    hide Number;
    if Number(bs).value != 0 {
      var name := Number(bs);
      var form := Number(name.rest);
      AttrsGrow(form.rest, [] + [Attr(name.value % WORD32, form.value % WORD32)]);
    }
  }

  /** The second pass stays within what was counted and reads the whole table. */
  method FillEntries(buf: Buf, a: array<Abbrev>) returns (ok: bool)
    requires buf.Valid() && !buf.underflow
    requires var p := Table(buf.Rest(), []);
      p.Parsed? && a.Length == |p.value|
    modifies buf, a
    ensures ok && Table(old(buf.Rest()), []).value == a[..]
  {
    hide Number, Attrs;
    ghost var all := Table(buf.Rest(), []);
    var i := 0;
    assert a[..0] == [];
    while true
      invariant buf.Valid() && !buf.underflow
      invariant 0 <= i <= a.Length && all == Table(buf.Rest(), a[..i])
      decreases buf.left
    {
      if buf.underflow {
        return false;
      }
      ghost var acc := a[..i];
      var code := TakeNumber(buf);
      if code == 0 {
        break;
      }
      ghost var entry := Entry(code, buf.Rest());
      var tag := TakeNumber(buf);
      var hasChildren := buf.ReadByte();
      var attrs := ReadAttrs(buf);
      assert entry.value == Abbrev(code, tag % WORD32, hasChildren, attrs);
      TableGrows(buf.Rest(), acc + [entry.value]);
      a[i] := Abbrev(code, tag % WORD32, hasChildren, attrs);
      i := i + 1;
      assert a[..i] == acc + [entry.value];
    }
    assert a[..i] == a[..];
    ok := true;
  }

  // ----- sorting and searching

  function AbbrevCompare(a: Abbrev, b: Abbrev): int {
    if a.code < b.code then -1 else if a.code > b.code then 1 else 0
  }

  lemma AbbrevOrder()
    ensures TotalPreorder(AbbrevCompare)
  {}

  /** Reads the table at `offset`. It succeeds exactly on a table that is complete,
      and then holds all its entries in the order of their codes. */
  method ReadAbbrevs(data: seq<byte>, offset: nat, bigEndian: bool) returns (ok: bool, a: array<Abbrev>)
    requires |data| < WORD
    ensures ok <==> offset < |data| && Table(data[offset..], []).Parsed?
    ensures ok ==> fresh(a) && Holds(a[..], Table(data[offset..], []).value)
  {
    hide Table;
    a := new Abbrev[0];
    if offset >= |data| {
      return false, a;
    }
    var buf := new Buf(data, offset, |data| - offset, bigEndian);
    assert buf.Rest() == data[offset..];
    var counting := buf.Copy();
    var n: nat;
    ok, n := CountEntries(counting);
    if !ok {
      return;
    }
    a := new Abbrev[n](_ => Abbrev(0, 0, 0, []));
    if n == 0 {
      NothingHeld(a[..]);
      return;
    }
    ok := FillEntries(buf, a);
    AbbrevOrder();
    ghost var s := a[..];
    hide TotalPreorder, Rearranged, Sorted;
    ghost var depth := Sort(a, 0, n, AbbrevCompare);
    HoldsSorted(s, a[..]);
  }

  /** `s` has the entries of `t`, sorted by code. */
  ghost predicate Holds(s: seq<Abbrev>, t: seq<Abbrev>) {
    Sorted(s, 0, |s|, AbbrevCompare) && |s| == |t| && multiset(s) == multiset(t)
  }

  lemma NothingHeld(s: seq<Abbrev>)
    requires s == []
    ensures Holds(s, [])
  {}

  lemma HoldsSorted(s: seq<Abbrev>, t: seq<Abbrev>)
    requires Rearranged(s, t, 0, |s|) && Sorted(t, 0, |s|, AbbrevCompare)
    ensures Holds(t, s)
  {
    assert s[0..|s|] == s && t[0..|s|] == t;
  }

  ghost predicate Unique(t: seq<Abbrev>) {
    forall i, j :: 0 <= i < j < |t| ==> t[i].code != t[j].code
  }

  /** Direct index first, then binary search: finds an entry with the code exactly
      when there is one, and the one entry when codes do not repeat. */
  method LookupAbbrev(a: array<Abbrev>, ghost t: seq<Abbrev>, code: nat) returns (f: int)
    requires Holds(a[..], t) && a.Length < WORD && code < WORD
    ensures f < a.Length && (f < 0 <==> forall k :: 0 <= k < |t| ==> t[k].code != code)
    ensures f >= 0 ==> a[f].code == code && a[f] in t
    ensures f >= 0 && Unique(t) ==> forall k :: 0 <= k < |t| && t[k].code == code ==> a[f] == t[k]
  {
    var direct := (code - 1) % WORD;
    if direct < a.Length && a[direct].code == code {
      f := direct;
      Member(a[..], t, f);
      return;
    }
    var l, u := 0, a.Length;
    while l < u
      invariant 0 <= l <= u <= a.Length
      invariant forall k :: 0 <= k < l ==> a[k].code < code
      invariant forall k :: u <= k < a.Length ==> code < a[k].code
    {
      var i := (l + u) / 2;
      var c := AbbrevCompare(Abbrev(code, 0, 0, []), a[i]);
      Around(a[..], t, i);
      if c < 0 {
        u := i;
      } else if c > 0 {
        l := i + 1;
      } else {
        f := i;
        Member(a[..], t, f);
        return;
      }
    }
    f := -1;
    Absent(a[..], t, code);
  }

  lemma Around(s: seq<Abbrev>, t: seq<Abbrev>, i: nat)
    requires Holds(s, t) && i < |s|
    ensures forall k :: 0 <= k < i ==> s[k].code <= s[i].code
    ensures forall k :: i < k < |s| ==> s[i].code <= s[k].code
  {
    forall k | 0 <= k < i ensures s[k].code <= s[i].code { assert AbbrevCompare(s[k], s[i]) <= 0; }
    forall k | i < k < |s| ensures s[i].code <= s[k].code { assert AbbrevCompare(s[i], s[k]) <= 0; }
  }

  lemma Member(s: seq<Abbrev>, t: seq<Abbrev>, f: nat)
    requires Holds(s, t) && f < |s|
    ensures s[f] in t
    ensures !(forall k :: 0 <= k < |t| ==> t[k].code != s[f].code)
    ensures Unique(t) ==> forall k :: 0 <= k < |t| && t[k].code == s[f].code ==> s[f] == t[k]
  {
    assert s[f] in multiset(s) && s[f] in multiset(t);
    var j :| 0 <= j < |t| && t[j] == s[f];
  }

  lemma Absent(s: seq<Abbrev>, t: seq<Abbrev>, code: nat)
    requires Holds(s, t) && forall k :: 0 <= k < |s| ==> s[k].code != code
    ensures forall k :: 0 <= k < |t| ==> t[k].code != code
  {
    forall k | 0 <= k < |t| ensures t[k].code != code {
      assert t[k] in multiset(t) && t[k] in multiset(s);
      var j :| 0 <= j < |s| && s[j] == t[k];
    }
  }
}
