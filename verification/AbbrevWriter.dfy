/** A writer of abbreviation tables, section 7.5.3 of DWARF Version 4, whose tables are read
    back. */
module AbbrevWriter {
  import opened Arith
  import opened Bits
  import opened Bytes
  import opened Leb128
  import opened DwarfBuf
  import opened Abbrevs

  /** A number below 2^64 is read back, whatever follows. */
  lemma {:induction false} NumberRead(v: nat, t: seq<byte>)
    requires v < WORD
    ensures Number(EncodeUnsigned(v) + t) == Parsed(v, t)
  {
    hide EncodeUnsigned, Unsigned, Leb128.Complete, Sevens, Low;
    var bs := EncodeUnsigned(v);
    UnsignedRoundTrip(v);
    EncodedFirst(bs, t);
    Pow64();
    Pow2Le(64, 70);
    EncodeUnsignedLen(v, 10);
    SevensUnsigned(bs + t, |bs|);
    LowId(v, 64);
    assert (bs + t)[|bs|..] == t;
  }

  function WriteAttrs(attrs: seq<Attr>): seq<byte> {
    if attrs == [] then EncodeUnsigned(0) + EncodeUnsigned(0)
    else EncodeUnsigned(attrs[0].name) + (EncodeUnsigned(attrs[0].form) + WriteAttrs(attrs[1..]))
  }

  function WriteEntry(a: Abbrev): seq<byte> { EncodeUnsigned(a.tag) + ([a.hasChildren] + WriteAttrs(a.attrs)) }

  function WriteTable(table: seq<Abbrev>): seq<byte> {
    if table == [] then EncodeUnsigned(0)
    else EncodeUnsigned(table[0].code) + (WriteEntry(table[0]) + WriteTable(table[1..]))
  }

  predicate AttrOk(a: Attr) { 0 < a.name < WORD32 && a.form < WORD32 }

  predicate AbbrevOk(a: Abbrev) {
    0 < a.code < WORD && a.tag < WORD32 && forall i :: 0 <= i < |a.attrs| ==> AttrOk(a.attrs[i])
  }

  lemma {:induction false} AttrsRead(attrs: seq<Attr>, acc: seq<Attr>, t: seq<byte>)
    requires forall i :: 0 <= i < |attrs| ==> AttrOk(attrs[i])
    ensures Attrs(WriteAttrs(attrs) + t, acc) == Parsed(acc + attrs, t)
    decreases |attrs|
  {
    hide Number, EncodeUnsigned;
    if attrs == [] {
      assert WriteAttrs(attrs) + t == EncodeUnsigned(0) + (EncodeUnsigned(0) + t);
      NumberRead(0, EncodeUnsigned(0) + t);
      NumberRead(0, t);
      assert acc + attrs == acc;
    } else {
      var a, rest := attrs[0], WriteAttrs(attrs[1..]) + t;
      assert WriteAttrs(attrs) + t == EncodeUnsigned(a.name) + (EncodeUnsigned(a.form) + rest);
      NumberRead(a.name, EncodeUnsigned(a.form) + rest);
      NumberRead(a.form, rest);
      SmallMod(a.name, WORD32);
      SmallMod(a.form, WORD32);
      AttrsRead(attrs[1..], acc + [a], t);
      assert acc + attrs == acc + [a] + attrs[1..];
    }
  }

  lemma {:induction false} EntryRead(a: Abbrev, t: seq<byte>)
    requires AbbrevOk(a)
    ensures Entry(a.code, WriteEntry(a) + t) == Parsed(a, t)
  {
    hide Number, EncodeUnsigned, Attrs, WriteAttrs;
    var w := WriteAttrs(a.attrs);
    assert WriteEntry(a) + t == EncodeUnsigned(a.tag) + ([a.hasChildren] + (w + t));
    NumberRead(a.tag, [a.hasChildren] + (w + t));
    SmallMod(a.tag, WORD32);
    assert ([a.hasChildren] + (w + t))[1..] == w + t;
    AttrsRead(a.attrs, [], t);
    assert [] + a.attrs == a.attrs;
  }

  /** Every table is read back: codes, tags, names and forms, in order. */
  lemma {:induction false} TableRead(table: seq<Abbrev>, acc: seq<Abbrev>, t: seq<byte>)
    requires forall i :: 0 <= i < |table| ==> AbbrevOk(table[i])
    ensures Table(WriteTable(table) + t, acc) == Parsed(acc + table, t)
    decreases |table|
  {
    hide Number, EncodeUnsigned, Entry, WriteEntry;
    if table == [] {
      NumberRead(0, t);
      assert acc + table == acc;
    } else {
      var a, rest := table[0], WriteTable(table[1..]) + t;
      assert WriteTable(table) + t == EncodeUnsigned(a.code) + (WriteEntry(a) + rest);
      NumberRead(a.code, WriteEntry(a) + rest);
      EntryRead(a, rest);
      TableRead(table[1..], acc + [a], t);
      assert acc + table == acc + [a] + table[1..];
    }
  }
}
