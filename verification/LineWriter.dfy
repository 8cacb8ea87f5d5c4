/** A writer of line number programs, section 6.2 of DWARF Version 4: what it asks for is
    what the machine of section 6.2.5 does with the bytes. */
module LineWriter {
  import opened Arith
  import opened Bits
  import opened Bytes
  import opened Leb128
  import opened DwarfBuf
  import opened LineIndex
  import opened LineProgram

  // ----- operands

  lemma {:induction false} UlebRead(v: nat, t: seq<byte>)
    requires v < WORD
    ensures UlebAt(EncodeUnsigned(v) + t) == Operand(v, t)
  {
    hide EncodeUnsigned, Unsigned, Leb128.Complete;
    var bs := EncodeUnsigned(v);
    UnsignedRoundTrip(v);
    EncodedFirst(bs, t);
    Pow64();
    Pow2Le(64, 70);
    EncodeUnsignedLen(v, 10);
    assert (bs + t)[|bs|..] == t;
  }

  lemma {:induction false} SlebRead(d: int, t: seq<byte>)
    requires 0 - WORD / 2 <= d < WORD / 2
    ensures SlebAt(EncodeSigned(d) + t) == Operand(d, t)
  {
    hide EncodeSigned, Signed, Leb128.Complete;
    var bs := EncodeSigned(d);
    SignedRoundTrip(d);
    EncodedFirst(bs, t);
    Pow64();
    Pow2Le(64, 69);
    EncodeSignedLen(d, 10);
    assert (bs + t)[|bs|..] == t;
  }

  /** A number of `n` bytes, highest first or last. */
  function FixedBytes(v: nat, n: nat, bigEndian: bool): (bs: seq<byte>)
    requires v < Pow2(8 * n)
    ensures |bs| == n
    decreases n
  {
    if n == 0 then []
    else
      ShrFits(v, 8 * (n - 1), 8 * n);
      assert Pow2(8) == 256;
      var top, low := Shr(v, 8 * (n - 1)), FixedBytes(Low(v, 8 * (n - 1)), n - 1, bigEndian);
      if bigEndian then [top] + low else low + [top]
  }

  lemma {:induction false} FixedRead(v: nat, n: nat, bigEndian: bool)
    requires v < Pow2(8 * n)
    ensures Ordered(FixedBytes(v, n, bigEndian), bigEndian) == v
    decreases n
  {
    if n > 0 {
      var k := 8 * (n - 1);
      ShrFits(v, k, 8 * n);
      assert Pow2(8) == 256;
      ShrIsDiv(v, k);
      FixedRead(Low(v, k), n - 1, bigEndian);
      var bs, low := FixedBytes(v, n, bigEndian), FixedBytes(Low(v, k), n - 1, bigEndian);
      assert (if bigEndian then bs[1..] else bs[..n - 1]) == low;
    }
  }

  // ----- instructions

  /** What can be written; a file that a program defines is not. */
  ghost predicate Writable(h: Header, i: Instr) {
    match i
    case Special(op) => op + h.opcodeBase <= 255
    case Copy => 1 < h.opcodeBase
    case AdvancePc(n) => 2 < h.opcodeBase && n < WORD
    case AdvanceLine(d) => 3 < h.opcodeBase && 0 - WORD / 2 <= d < WORD / 2
    case SetFile(n) => 4 < h.opcodeBase && n < WORD
    case ConstAddPc => 8 < h.opcodeBase
    case FixedAdvancePc(n) => 9 < h.opcodeBase && n < Pow2(16)
    case EndSequence => true
    case SetAddress(a) => h.addrSize in {1, 2, 4, 8} && a < Pow2(8 * h.addrSize)
    case _ => false
  }

  /** An instruction as sections 6.2.5.1 to 6.2.5.3 lay it out. */
  ghost function Write(h: Header, i: Instr): seq<byte>
    requires Writable(h, i)
  {
    match i
    case Special(op) => [op + h.opcodeBase]
    case Copy => [1]
    case AdvancePc(n) => [2] + EncodeUnsigned(n)
    case AdvanceLine(d) => [3] + EncodeSigned(d)
    case SetFile(n) => [4] + EncodeUnsigned(n)
    case ConstAddPc => [8]
    case FixedAdvancePc(n) => [9] + FixedBytes(n, 2, h.bigEndian)
    case EndSequence => [0] + (EncodeUnsigned(1) + [1])
    case SetAddress(a) => [0] + (EncodeUnsigned(1 + h.addrSize) + ([2] + FixedBytes(a, h.addrSize, h.bigEndian)))
    case _ => []
  }

  lemma First(b: byte, u: seq<byte>)
    ensures ([b] + u)[0] == b && ([b] + u)[1..] == u
  {}

  lemma StandardAt(h: Header, op: byte, u: seq<byte>)
    requires WellFormed(h) && 0 < op < h.opcodeBase
    ensures InstrAt(h, [op] + u) == StandardInstr(h, op, u)
  {
    hide StandardInstr, ExtendedInstr;
    First(op, u);
  }

  lemma {:induction false} StandardRead(h: Header, i: Instr, t: seq<byte>)
    requires WellFormed(h) && Writable(h, i) && (i.AdvancePc? || i.AdvanceLine? || i.SetFile? || i.FixedAdvancePc?)
    ensures InstrAt(h, Write(h, i) + t) == Decoded(i, t)
  {
    hide UlebAt, SlebAt, SkipUlebs, Ordered, EncodeUnsigned, EncodeSigned, FixedBytes, InstrAt, WellFormed;
    match i
    case AdvancePc(n) =>
      assert Write(h, i) + t == [2] + (EncodeUnsigned(n) + t);
      StandardAt(h, 2, EncodeUnsigned(n) + t);
      UlebRead(n, t);
    case AdvanceLine(d) =>
      assert Write(h, i) + t == [3] + (EncodeSigned(d) + t);
      StandardAt(h, 3, EncodeSigned(d) + t);
      SlebRead(d, t);
    case SetFile(n) =>
      assert Write(h, i) + t == [4] + (EncodeUnsigned(n) + t);
      StandardAt(h, 4, EncodeUnsigned(n) + t);
      UlebRead(n, t);
    case FixedAdvancePc(n) => FixedAdvanceRead(h, n, t);
  }

  lemma {:induction false} FixedAdvanceRead(h: Header, n: nat, t: seq<byte>)
    requires WellFormed(h) && Writable(h, FixedAdvancePc(n))
    ensures InstrAt(h, Write(h, FixedAdvancePc(n)) + t) == Decoded(FixedAdvancePc(n), t)
  {
    hide UlebAt, SlebAt, SkipUlebs, Ordered, FixedBytes, InstrAt, WellFormed;
    var b := FixedBytes(n, 2, h.bigEndian);
    assert Write(h, FixedAdvancePc(n)) + t == [9] + (b + t) && (b + t)[..2] == b && (b + t)[2..] == t;
    StandardAt(h, 9, b + t);
    FixedRead(n, 2, h.bigEndian);
  }

  lemma {:induction false} ExtendedRead(h: Header, i: Instr, t: seq<byte>)
    requires WellFormed(h) && Writable(h, i) && (i.EndSequence? || i.SetAddress?)
    ensures InstrAt(h, Write(h, i) + t) == Decoded(i, t)
  {
    hide UlebAt, Ordered, EncodeUnsigned, FixedBytes, StandardInstr, DefinedAt;
    match i
    case EndSequence =>
      assert Write(h, i) + t == [0] + (EncodeUnsigned(1) + ([1] + t));
      First(0, EncodeUnsigned(1) + ([1] + t));
      UlebRead(1, [1] + t);
      First(1, t);
    case SetAddress(a) =>
      var b := FixedBytes(a, h.addrSize, h.bigEndian);
      var u := [2] + (b + t);
      assert Write(h, i) + t == [0] + (EncodeUnsigned(1 + h.addrSize) + u);
      First(0, EncodeUnsigned(1 + h.addrSize) + u);
      UlebRead(1 + h.addrSize, u);
      First(2, b + t);
      assert (b + t)[..h.addrSize] == b && (b + t)[h.addrSize..] == t;
      FixedRead(a, h.addrSize, h.bigEndian);
  }

  /** Every instruction is read back, whatever follows. */
  lemma {:induction false} InstrRead(h: Header, i: Instr, t: seq<byte>)
    requires WellFormed(h) && Writable(h, i)
    ensures InstrAt(h, Write(h, i) + t) == Decoded(i, t)
  {
    if i.EndSequence? || i.SetAddress? {
      ExtendedRead(h, i, t);
    } else if i.Special? || i.Copy? || i.ConstAddPc? {
      hide ExtendedInstr;
      First(Write(h, i)[0], t);
    } else {
      StandardRead(h, i, t);
    }
  }

  ghost function WriteAll(h: Header, instrs: seq<Instr>): seq<byte>
    requires forall k :: 0 <= k < |instrs| ==> Writable(h, instrs[k])
  {
    if instrs == [] then [] else Write(h, instrs[0]) + WriteAll(h, instrs[1..])
  }

  /** And so is every program. */
  lemma {:induction false} ProgramRead(h: Header, instrs: seq<Instr>, done: seq<Instr>)
    requires WellFormed(h) && forall k :: 0 <= k < |instrs| ==> Writable(h, instrs[k])
    ensures ProgramAt(h, WriteAll(h, instrs), done) == Program(done + instrs)
    decreases |instrs|
  {
    hide InstrAt, Write, Writable;
    if instrs == [] {
      assert done + instrs == done;
    } else {
      var rest := WriteAll(h, instrs[1..]);
      InstrRead(h, instrs[0], rest);
      WriteNonEmpty(h, instrs[0]);
      ProgramRead(h, instrs[1..], done + [instrs[0]]);
      assert done + instrs == done + [instrs[0]] + instrs[1..];
    }
  }

  lemma WriteNonEmpty(h: Header, i: Instr)
    requires Writable(h, i)
    ensures Write(h, i) != []
  {}

  // ----- special opcodes

  /** The opcode that advances by `n` operations and `d` lines. */
  function SpecialOpcode(h: Header, n: nat, d: int): int { (d - h.lineBase) + h.lineRange * n + h.opcodeBase }

  lemma {:induction false} SpecialParts(h: Header, n: nat, d: int)
    requires WellFormed(h) && h.lineBase <= d < h.lineBase + h.lineRange
    ensures var op := SpecialOpcode(h, n, d) - h.opcodeBase;
      0 <= op && op / h.lineRange == n && h.lineBase + op % h.lineRange == d
  {
    ModUnique(n, d - h.lineBase, h.lineRange);
    assert h.lineRange * n >= 0;
  }

  /** Section 6.2.5.1: where there is such an opcode, it advances by `n` operations and `d`
      lines and appends that row, in both machines. */
  lemma {:induction false} SpecialRead(h: Header, n: nat, d: int, t: seq<byte>, s: Std, c: Code)
    requires WellFormed(h) && h.lineBase <= d < h.lineBase + h.lineRange && SpecialOpcode(h, n, d) <= 255
    requires s.Std? && c.Code?
    ensures var op := SpecialOpcode(h, n, d);
      && 0 <= op
      && var i := InstrAt(h, [op] + t);
         && i.Decoded? && i.rest == t
         && (var r := Regs(s.regs.address + h.minInsnLen * n, s.regs.line + d);
             StdExec(h, s, i.instr) == s.(regs := r, rows := s.rows + [StdRow(r, NameIn(h, s.defined, s.file), false)]))
         && (var r := Regs(c.regs.address + h.minInsnLen * n, c.regs.line + d);
             CodeExec(h, c, i.instr) == c.(regs := r, rows := c.rows + [RowFor(r, c.name)]))
  {
    hide NameIn, RowFor, StandardInstr, ExtendedInstr, SpecialOpcode;
    SpecialParts(h, n, d);
    var op := SpecialOpcode(h, n, d);
    assert ([op] + t)[1..] == t;
  }

  /** The constant advance is that of opcode 255, without its line and its row. */
  lemma {:induction false} ConstAddRead(h: Header, t: seq<byte>, r: Regs)
    requires WellFormed(h) && 8 < h.opcodeBase
    ensures var i, j := InstrAt(h, [8] + t), InstrAt(h, [255] + t);
      && i.Decoded? && i.rest == t && j.Decoded? && j.rest == t
      && Moved(h, i.instr, r) == Regs(Moved(h, j.instr, r).address, r.line)
      && Emits(j.instr) && !Emits(i.instr)
  {
    assert ([8] + t)[1..] == t && ([255] + t)[1..] == t;
  }

  // ----- longer ways to say the same

  lemma StdSnoc(h: Header, instrs: seq<Instr>, i: Instr)
    requires WellFormed(h)
    ensures StdAfter(h, instrs + [i]) == StdExec(h, StdAfter(h, instrs), i)
  {
    assert (instrs + [i])[..|instrs|] == instrs;
  }

  /** Advancing the address, advancing the line and copying is what a special opcode does. */
  lemma {:induction false} LongForm(h: Header, n: nat, d: int, s: Std)
    requires WellFormed(h) && h.lineBase <= d < h.lineBase + h.lineRange && s.Std?
    ensures var op := SpecialOpcode(h, n, d) - h.opcodeBase;
      && 0 <= op
      && StdExec(h, StdExec(h, StdExec(h, s, AdvancePc(n)), AdvanceLine(d)), Copy) == StdExec(h, s, Special(op))
  {
    hide NameIn, SpecialOpcode;
    SpecialParts(h, n, d);
  }

  /** A fixed advance by as many bytes moves the address as an advance by operations. */
  lemma FixedForm(h: Header, n: nat, s: Std)
    requires WellFormed(h) && s.Std?
    ensures StdExec(h, s, FixedAdvancePc(h.minInsnLen * n)) == StdExec(h, s, AdvancePc(n))
  {
    hide NameIn;
  }

  /** The files a program defines are numbered from behind those of the header. */
  lemma {:induction false} DefinedRow(h: Header, s: Std, name: FileName)
    requires WellFormed(h) && s.Std?
    ensures var d := StdExec(h, StdExec(h, s, DefineFile(name)), SetFile(h.files + |s.defined| + 1));
      && d.Std? && StdExec(h, d, LineProgram.Copy).rows == s.rows + [StdRow(s.regs, name, false)]
      && StdExec(h, s, DefineFile(name)).rows == s.rows && StdExec(h, s, DefineFile(name)).file == s.file
  {}

  // ----- rows

  /** A row as a compiler wants it. */
  datatype Wanted = Wanted(address: nat, file: nat, line: int)

  /** The instructions for one row, with the line register at `line`. */
  function RowInstrs(line: int, w: Wanted): seq<Instr> {
    [SetAddress(w.address), AdvanceLine(w.line - line), SetFile(w.file), Copy]
  }

  function RowsInstrs(line: int, ws: seq<Wanted>): seq<Instr>
    decreases |ws|
  {
    if ws == [] then [EndSequence] else RowInstrs(line, ws[0]) + RowsInstrs(ws[0].line, ws[1..])
  }

  function RowOf(h: Header, w: Wanted): StdRow {
    StdRow(Regs(w.address, w.line), NameIn(h, [], w.file), false)
  }

  function RowsOf(h: Header, ws: seq<Wanted>): seq<StdRow> {
    if ws == [] then [] else [RowOf(h, ws[0])] + RowsOf(h, ws[1..])
  }

  lemma {:induction false} OneRow(h: Header, before: seq<Instr>, w: Wanted)
    requires WellFormed(h) && w.file <= h.files
    requires StdAfter(h, before).Std? && StdAfter(h, before).defined == []
    ensures var s := StdAfter(h, before);
      StdAfter(h, before + RowInstrs(s.regs.line, w)) ==
        Std(Regs(w.address, w.line), w.file, [], s.rows + [RowOf(h, w)])
  {
    hide NameIn, StdAfter, WellFormed;
    var s := StdAfter(h, before);
    var a, l, f := SetAddress(w.address), AdvanceLine(w.line - s.regs.line), SetFile(w.file);
    StdSnoc(h, before, a);
    StdSnoc(h, before + [a], l);
    StdSnoc(h, before + [a] + [l], f);
    StdSnoc(h, before + [a] + [l] + [f], LineProgram.Copy);
    assert before + RowInstrs(s.regs.line, w) == before + [a] + [l] + [f] + [LineProgram.Copy];
  }

  /** The rows of the table are the rows that were wanted, with an end of sequence behind. */
  lemma {:induction false} RowsWritten(h: Header, before: seq<Instr>, ws: seq<Wanted>)
    requires WellFormed(h) && forall i :: 0 <= i < |ws| ==> ws[i].file <= h.files
    requires StdAfter(h, before).Std? && StdAfter(h, before).defined == []
    ensures var s := StdAfter(h, before);
      var r := StdAfter(h, before + RowsInstrs(s.regs.line, ws));
      && r.Std? && r.regs == START && r.file == 1 && |r.rows| == |s.rows| + |ws| + 1
      && r.rows[..|s.rows| + |ws|] == s.rows + RowsOf(h, ws) && r.rows[|s.rows| + |ws|].endSequence
    decreases |ws|
  {
    hide NameIn, StdAfter, WellFormed, RowOf, RowInstrs;
    var s := StdAfter(h, before);
    if ws == [] {
      StdSnoc(h, before, EndSequence);
      assert s.rows + [] == s.rows;
    } else {
      var one := RowInstrs(s.regs.line, ws[0]);
      OneRow(h, before, ws[0]);
      RowsWritten(h, before + one, ws[1..]);
      assert before + RowsInstrs(s.regs.line, ws) == before + one + RowsInstrs(ws[0].line, ws[1..]);
      assert s.rows + RowsOf(h, ws) == s.rows + [RowOf(h, ws[0])] + RowsOf(h, ws[1..]);
    }
  }

  /** The wanted rows can be written. */
  ghost predicate WantedOk(h: Header, line: int, ws: seq<Wanted>)
    decreases |ws|
  {
    ws == [] ||
    (&& ws[0].file <= h.files && Writable(h, SetAddress(ws[0].address)) && Writable(h, AdvanceLine(ws[0].line - line))
     && WantedOk(h, ws[0].line, ws[1..]))
  }

  lemma {:induction false} WantedWritable(h: Header, line: int, ws: seq<Wanted>)
    requires WellFormed(h) && 4 < h.opcodeBase && WantedOk(h, line, ws)
    ensures forall k :: 0 <= k < |RowsInstrs(line, ws)| ==> Writable(h, RowsInstrs(line, ws)[k])
    ensures forall i :: 0 <= i < |ws| ==> ws[i].file <= h.files
    decreases |ws|
  {
    if ws != [] {
      WantedWritable(h, ws[0].line, ws[1..]);
      var all, rest := RowsInstrs(line, ws), RowsInstrs(ws[0].line, ws[1..]);
      forall k | 0 <= k < |all| ensures Writable(h, all[k]) {
        if k >= 4 { assert all[k] == rest[k - 4]; }
      }
    }
  }

  /** A program written for a list of rows gives these rows. */
  lemma {:induction false} WantedRows(h: Header, ws: seq<Wanted>)
    requires WellFormed(h) && 4 < h.opcodeBase && WantedOk(h, 1, ws)
    ensures var instrs := RowsInstrs(1, ws);
      && (forall k :: 0 <= k < |instrs| ==> Writable(h, instrs[k]))
      && ProgramAt(h, WriteAll(h, instrs), []) == Program(instrs)
      && StdAfter(h, instrs).Std? && |StdAfter(h, instrs).rows| == |ws| + 1
      && StdAfter(h, instrs).rows[..|ws|] == RowsOf(h, ws)
  {
    hide WellFormed, Writable, WantedOk, RowsOf;
    var instrs := RowsInstrs(1, ws);
    WantedWritable(h, 1, ws);
    ProgramRead(h, instrs, []);
    RowsWritten(h, [], ws);
    assert [] + instrs == instrs;
    assert [] + RowsOf(h, ws) == RowsOf(h, ws);
  }
}
