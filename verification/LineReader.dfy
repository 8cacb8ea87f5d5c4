/** The reader of line number programs: registers, the instruction loop, and a lookup
    in the table it builds. */
module LineReader {
  import opened Arith
  import opened Bytes
  import opened Leb128
  import opened DwarfBuf
  import opened LineIndex
  import opened LineTable
  import opened LineProgram

  class Machine {
    const h: Header
    /** What is added to every address. */
    const base: nat
    var address: nat
    var opIndex: nat
    var filename: FileName
    var lineno: int
    var rows: seq<Row>

    constructor (h: Header, base: nat)
      requires WellFormed(h)
      ensures this.h == h && this.base == base && Agrees(CodeAfter(h, []))
    {
      this.h, this.base := h, base;
      address, opIndex, lineno, rows := 0, 0, 1, [];
      filename := if h.files > 0 then Listed(1) else NoName;
    }

    /** The registers are those of the machine `c`, as far as they fit, and the rows
        are what is stored of its rows. */
    ghost predicate Agrees(c: Code)
      reads this
    {
      c.Code? && address == c.regs.address % WORD && opIndex == 0 && filename == c.name
      && lineno == Int32(c.regs.line) && rows == Stored(c.rows, base)
    }

    /** One operation per instruction, and the registers of `c`. */
    ghost predicate InStep(c: Code)
      reads this
    {
      WellFormed(h) && h.maxOps == 1 && c.Code? && Agrees(c)
    }

    /** The reader has failed, as `c` has, or has the registers of `c` and goes on at
        `rest`. */
    ghost predicate Follows(ok: bool, c: Code, rest: seq<byte>, buf: Buf, underflow: bool)
      reads this, buf
    {
      if c.Rejected? then !ok
      else ok && InStep(c) && buf.Valid() && buf.Rest() == rest && buf.underflow == underflow
    }

    method AddRow(ghost c: Code)
      modifies this`rows
      ensures rows == AddLine(old(rows), base, Row(address, filename, lineno))
      ensures old(Bounded(rows)) ==> Bounded(rows)
      ensures old(InStep(c)) ==> InStep(c.(rows := c.rows + [RowFor(c.regs, c.name)]))
    {
      hide Stored, Int32;
      if c.Code? { StoredSnoc(c.rows, base, RowFor(c.regs, c.name)); }
      rows := AddLine(rows, base, Row(address, filename, lineno));
    }

    /** Advances the address by `n` operations modulo 2^64. */
    method AdvanceBy(advance: nat, ghost c: Code, ghost n: nat)
      requires WellFormed(h)
      modifies this`address, this`opIndex
      ensures old(InStep(c)) && advance == n % WORD ==> InStep(c.(regs := Advanced(h, c.regs, n)))
    {
      hide NextAddress, NextIndex, Stored, Int32;
      if InStep(c) && advance == n % WORD { PlainAdvance(h, c.regs.address, advance, n); }
      address, opIndex := NextAddress(h, address, opIndex, advance), NextIndex(h, opIndex, advance);
    }

    method DoSpecial(op: nat, ghost c: Code)
      requires WellFormed(h) && op < 256
      modifies this
      ensures old(Bounded(rows)) ==> Bounded(rows)
      ensures old(InStep(c)) ==> InStep(CodeExec(h, c, Special(op)))
    {
      hide Advanced, Stored, Int32, Bounded;
      var advance := op / h.lineRange;
      SmallMod(advance, WORD);
      AdvanceBy(advance, c, advance);
      ghost var r := if c.Code? then c.regs else START;
      Int32Add(r.line, h.lineBase + op % h.lineRange);
      lineno := Int32(lineno + h.lineBase + op % h.lineRange);
      AddRow(if c.Code? then c.(regs := Moved(h, Special(op), c.regs)) else c);
    }

    /** A standard opcode, or one to skip; fails on a file number out of range. */
    method Standard(op: nat, buf: Buf, ghost c: Code) returns (ok: bool)
      requires WellFormed(h) && 0 < op < h.opcodeBase && buf.Valid() && buf.bigEndian == h.bigEndian
      modifies this, buf
      ensures buf.Valid() && |buf.Rest()| <= old(|buf.Rest()|)
      ensures old(Bounded(rows)) ==> Bounded(rows)
      ensures var d := StandardInstr(h, op, old(buf.Rest()));
        old(InStep(c)) && d.Decoded? ==> Follows(ok, CodeExec(h, c, d.instr), d.rest, buf, old(buf.underflow))
    {
      hide UlebAt, SlebAt, SkipUlebs, Ordered, Int32, Wrap, AddLine, Stored, NameIn, Bounded, Advanced, RowFor;
      ok := true;
      if op == 1 {
        AddRow(c);
      } else if op == 2 {
        ghost var o := UlebAt(buf.Rest());
        var u := TakeUleb(buf);
        AdvanceBy(u, c, if o.Operand? then o.value else u);
      } else if op == 3 {
        ghost var o := SlebAt(buf.Rest());
        var v := TakeSleb(buf);
        lineno := Int32(lineno + Int32(v));
        if o.Operand? && c.Code? { LineAdvance(c.regs.line, o.value); }
      } else if op == 4 {
        ok := DoSetFile(buf);
      } else if op == 5 || op == 12 {
        var v := TakeUleb(buf);
      } else if op == 6 || op == 7 || op == 10 || op == 11 {
      } else if op == 8 {
        var advance := ConstAdvance(h);
        SmallMod(advance, WORD);
        AdvanceBy(advance, c, advance);
      } else if op == 9 {
        var v := buf.ReadFixed(2);
        if c.Code? { AddMod(c.regs.address, v, WORD); }
        address, opIndex := (address + v) % WORD, 0;
      } else {
        DropUlebs(buf, h.opcodeLengths[op - 1]);
      }
    }

    /** Sets a file of the header; other numbers are an error. */
    method DoSetFile(buf: Buf) returns (ok: bool)
      requires WellFormed(h) && buf.Valid()
      modifies this`filename, buf
      ensures buf.Valid() && |buf.Rest()| <= old(|buf.Rest()|)
      ensures var o := UlebAt(old(buf.Rest()));
        o.Operand? && o.value < WORD ==>
          && buf.Rest() == o.rest && buf.underflow == old(buf.underflow) && ok == (o.value <= h.files)
          && filename == if ok then NameIn(h, [], o.value) else old(filename)
    {
      hide UlebAt;
      ghost var o := UlebAt(buf.Rest());
      var file := TakeUleb(buf);
      if o.Operand? && o.value < WORD { SmallMod(o.value, WORD); }
      if file == 0 {
        filename := NoName;
      } else if file - 1 >= h.files {
        return false;
      } else {
        filename := Listed(file);
      }
      ok := true;
    }

    /** A length, an opcode and its operands; the length counts only for unknown
        opcodes. */
    method Extended(buf: Buf, ghost c: Code) returns (ok: bool)
      requires WellFormed(h) && buf.Valid() && buf.bigEndian == h.bigEndian
      modifies this, buf
      ensures buf.Valid() && |buf.Rest()| <= old(|buf.Rest()|)
      ensures old(Bounded(rows)) ==> Bounded(rows)
      ensures var d := ExtendedInstr(h, old(buf.Rest()));
        old(InStep(c)) && d.Decoded? ==> Follows(ok, CodeExec(h, c, d.instr), d.rest, buf, old(buf.underflow))
    {
      hide UlebAt, ExtendedOp, Bounded, CodeExec, Agrees;
      var len := TakeUleb(buf);
      var sub := buf.ReadByte();
      ghost var o := UlebAt(old(buf.Rest()));
      ok := Operate(len, sub, buf, c, if o.Operand? && o.value > 0 then o.value else 1);
    }

    method Operate(len: nat, sub: byte, buf: Buf, ghost c: Code, ghost fullLen: nat) returns (ok: bool)
      requires WellFormed(h) && buf.Valid() && buf.bigEndian == h.bigEndian && fullLen > 0
      modifies this, buf
      ensures buf.Valid() && |buf.Rest()| <= old(|buf.Rest()|)
      ensures old(Bounded(rows)) ==> Bounded(rows)
      ensures var d := ExtendedOp(h, fullLen, sub, old(buf.Rest()));
        old(InStep(c)) && d.Decoded? && Truncates(len, fullLen) ==>
          Follows(ok, CodeExec(h, c, d.instr), d.rest, buf, old(buf.underflow))
    {
      hide UlebAt, Ordered, DefinedAt, NameIn, Bounded, Agrees, Truncates, ExtendedOp, CodeExec, WellFormed;
      ghost var t := buf.Rest();
      ok := true;
      if sub == 1 {
        EndOp(h, fullLen, t, c);
        Restart(c);
      } else if sub == 2 {
        AddressOp(h, fullLen, t, c);
        DoSetAddress(buf, c);
      } else if sub == 3 {
        DefineOp(h, fullLen, t, c);
        ok := DoDefineFile(buf, c);
      } else if sub == 4 {
        DiscriminatorOp(h, fullLen, t, c);
        var v := TakeUleb(buf);
      } else {
        UnknownOp(h, fullLen, sub, t, c);
        ok := SkipUnknown(buf, len, fullLen);
      }
    }

    method Restart(ghost c: Code)
      requires WellFormed(h)
      modifies this`address, this`opIndex, this`lineno, this`filename
      ensures old(Agrees(c)) ==> Agrees(c.(regs := START, name := NameIn(h, [], 1)))
    {
      address, opIndex, lineno := 0, 0, 1;
      filename := if h.files > 0 then Listed(1) else NoName;
    }

    method DoSetAddress(buf: Buf, ghost c: Code)
      requires buf.Valid()
      modifies this`address, buf
      ensures buf.Valid() && |buf.Rest()| <= old(|buf.Rest()|)
      ensures h.addrSize in {1, 2, 4, 8} && h.addrSize <= |old(buf.Rest())| ==>
        && buf.Rest() == old(buf.Rest())[h.addrSize..] && buf.underflow == old(buf.underflow)
        && (old(Agrees(c)) ==>
              var a := Ordered(old(buf.Rest())[..h.addrSize], buf.bigEndian);
              Agrees(c.(regs := c.regs.(address := a))))
    {
      hide Ordered, Int32, Stored;
      var v := ReadAddress(buf, h.addrSize);
      address := v % WORD;
    }

    /** Names a file and makes it the current one. */
    method DoDefineFile(buf: Buf, ghost c: Code) returns (ok: bool)
      requires buf.Valid()
      modifies this`filename, buf
      ensures buf.Valid() && |buf.Rest()| <= old(|buf.Rest()|)
      ensures var d := DefinedAt(h, old(buf.Rest()));
        d.Decoded? ==>
          && ok && buf.Rest() == d.rest && buf.underflow == old(buf.underflow)
          && (old(Agrees(c)) ==> Agrees(c.(name := d.instr.name)))
    {
      hide UlebAt, Stored, Int32;
      var p, left, n := buf.pos, buf.left, StringLen(buf.data[buf.pos..buf.pos + buf.left]);
      ghost var t := buf.Rest();
      ok := buf.Advance(n + 1);
      if !ok {
        return;
      }
      ghost var u := buf.Rest();
      assert t[0] == buf.data[p];
      var dir := TakeUleb(buf);
      var time := TakeUleb(buf);
      var size := TakeUleb(buf);
      ThreeUlebs(u);
      // An absolute name starts with a slash; any other needs a directory.
      if UlebAt(u).Operand? { SmallDir(UlebAt(u).value); }
      if buf.data[p] == 47 || dir % WORD32 <= h.dirs {
        filename := Defined(left);
      } else {
        ok := false;
      }
    }

    /** One instruction. */
    method Next(buf: Buf, ghost c: Code) returns (ok: bool)
      requires WellFormed(h) && buf.Valid() && buf.bigEndian == h.bigEndian && buf.left > 0
      modifies this, buf
      ensures buf.Valid() && |buf.Rest()| < old(|buf.Rest()|)
      ensures old(Bounded(rows)) ==> Bounded(rows)
      ensures var d := InstrAt(h, old(buf.Rest()));
        old(InStep(c)) && d.Decoded? ==> Follows(ok, CodeExec(h, c, d.instr), d.rest, buf, old(buf.underflow))
    {
      hide StandardInstr, ExtendedInstr, CodeExec, Agrees, Bounded;
      var op := buf.ReadByte();
      if op >= h.opcodeBase {
        DoSpecial(op - h.opcodeBase, c);
        ok := true;
        SpecialAccepted(h, c, op - h.opcodeBase);
      } else if op == 0 {
        ok := Extended(buf, c);
      } else {
        ok := Standard(op, buf, c);
      }
    }
  }

  lemma SpecialAccepted(h: Header, c: Code, op: nat)
    requires WellFormed(h)
    ensures CodeExec(h, c, Special(op)).Rejected? <==> c.Rejected?
  {}

  // ----- the extended opcodes, one by one

  lemma EndOp(h: Header, len: nat, t: seq<byte>, c: Code)
    requires WellFormed(h) && len > 0
    ensures var d := ExtendedOp(h, len, 1, t);
      d.Decoded? && c.Code? ==>
        d.rest == t && CodeExec(h, c, d.instr) == c.(regs := START, name := NameIn(h, [], 1))
  {
    hide NameIn;
  }

  lemma AddressOp(h: Header, len: nat, t: seq<byte>, c: Code)
    requires WellFormed(h) && len > 0
    ensures var d := ExtendedOp(h, len, 2, t);
      d.Decoded? ==>
        && h.addrSize in {1, 2, 4, 8} && h.addrSize <= |t| && d.rest == t[h.addrSize..]
        && (c.Code? ==>
              CodeExec(h, c, d.instr) == c.(regs := c.regs.(address := Ordered(t[..h.addrSize], h.bigEndian))))
  {
    hide Ordered;
  }

  lemma DefineOp(h: Header, len: nat, t: seq<byte>, c: Code)
    requires WellFormed(h) && len > 0
    ensures var d := ExtendedOp(h, len, 3, t);
      d.Decoded? ==>
        && d == DefinedAt(h, t) && d.instr.DefineFile?
        && (c.Code? ==> CodeExec(h, c, d.instr) == c.(name := d.instr.name))
  {
    hide UlebAt, SkipUlebs;
  }

  lemma DiscriminatorOp(h: Header, len: nat, t: seq<byte>, c: Code)
    requires WellFormed(h) && len > 0
    ensures var d := ExtendedOp(h, len, 4, t);
      d.Decoded? ==> UlebAt(t).Operand? && d.rest == UlebAt(t).rest && CodeExec(h, c, d.instr) == c
  {
    hide UlebAt;
  }

  lemma UnknownOp(h: Header, len: nat, sub: byte, t: seq<byte>, c: Code)
    requires WellFormed(h) && len > 0 && sub !in {1, 2, 3, 4}
    ensures var d := ExtendedOp(h, len, sub, t);
      d.Decoded? ==> len - 1 <= |t| && d.rest == t[len - 1..] && CodeExec(h, c, d.instr) == c
  {}

  lemma ThreeUlebs(u: seq<byte>)
    ensures var a := UlebAt(u);
      SkipUlebs(u, 3) ==
        if a.NoOperand? then NoOperand
        else
          var b := UlebAt(a.rest);
          if b.NoOperand? then NoOperand
          else
            var c := UlebAt(b.rest);
            if c.NoOperand? then NoOperand else Operand(0, c.rest)
  {
    hide UlebAt;
    var a := UlebAt(u);
    if a.Operand? {
      var b := UlebAt(a.rest);
      if b.Operand? {
        var c := UlebAt(b.rest);
        if c.Operand? { assert SkipUlebs(c.rest, 0) == Operand(0, c.rest); }
        assert SkipUlebs(b.rest, 1) == if c.NoOperand? then NoOperand else Operand(0, c.rest);
      }
      assert SkipUlebs(a.rest, 2) == if b.NoOperand? then NoOperand else SkipUlebs(b.rest, 1);
    }
  }

  lemma SmallDir(v: nat)
    ensures v % WORD % WORD32 <= v
  {}

  predicate Truncates(len: nat, fullLen: nat) { len == fullLen % WORD }

  /** Skips the operands of an unknown opcode; a length of zero wraps around. */
  method SkipUnknown(buf: Buf, len: nat, ghost fullLen: nat) returns (ok: bool)
    requires buf.Valid() && fullLen > 0
    modifies buf
    ensures buf.Valid() && |buf.Rest()| <= old(|buf.Rest()|)
    ensures Truncates(len, fullLen) && fullLen - 1 <= |old(buf.Rest())| ==>
      ok && buf.Rest() == old(buf.Rest())[fullLen - 1..] && buf.underflow == old(buf.underflow)
  {
    if fullLen <= |buf.Rest()| { SmallMod(fullLen, WORD); }
    ok := buf.Advance(if len == 0 then WORD - 1 else len - 1);
  }

  /** An address; sizes other than 1, 2, 4 and 8 are an error and read nothing. */
  method ReadAddress(buf: Buf, size: nat) returns (v: nat)
    requires buf.Valid()
    modifies buf
    ensures buf.Valid() && |buf.Rest()| <= old(|buf.Rest()|)
    ensures size in {1, 2, 4, 8} && size <= |old(buf.Rest())| ==>
      v == Ordered(old(buf.Rest())[..size], buf.bigEndian) && buf.Rest() == old(buf.Rest())[size..]
      && buf.underflow == old(buf.underflow)
    ensures size !in {1, 2, 4, 8} ==> v == 0 && buf.Rest() == old(buf.Rest()) && buf.underflow == old(buf.underflow)
  {
    if size in {1, 2, 4, 8} {
      v := buf.ReadFixed(size);
    } else {
      v := 0;
    }
  }

  lemma LineAdvance(line: int, v: int)
    ensures Int32(Int32(line) + Int32(Wrap(v))) == Int32(line + v)
  {
    Int32Wrap(v);
    Int32Add(v, Int32(line));
    Int32Add(line, v);
  }

  /** The reader's advance, which multiplies before it divides. */
  function NextAddress(h: Header, address: nat, opIndex: nat, advance: nat): nat
    requires WellFormed(h)
  {
    (address + (h.minInsnLen * ((opIndex + advance) % WORD)) % WORD / h.maxOps) % WORD
  }

  function NextIndex(h: Header, opIndex: nat, advance: nat): nat
    requires WellFormed(h)
  {
    (opIndex + advance) % WORD % h.maxOps
  }

  lemma PlainAdvance(h: Header, a: nat, advance: nat, n: nat)
    requires WellFormed(h) && h.maxOps == 1 && advance == n % WORD
    ensures NextAddress(h, a % WORD, 0, advance) == (a + h.minInsnLen * n) % WORD
    ensures NextIndex(h, 0, advance) == 0
  {
    SmallMod(advance, WORD);
    AddMod(h.minInsnLen * advance, a % WORD, WORD);
    AdvanceMod(a, h.minInsnLen, n);
  }

  lemma AdvanceMod(a: nat, k: nat, u: nat)
    ensures (a % WORD + k * (u % WORD)) % WORD == (a + k * u) % WORD
  {
    AddMod(a, k * (u % WORD), WORD);
    MulMod(k, u, WORD);
    AddMod(k * (u % WORD), a, WORD);
    AddMod(k * u, a, WORD);
  }

  method TakeUleb(buf: Buf) returns (v: nat)
    requires buf.Valid()
    modifies buf
    ensures buf.Valid() && |buf.Rest()| <= old(|buf.Rest()|)
    ensures var o := UlebAt(old(buf.Rest()));
      o.Operand? ==> o.value >= 0 && v == o.value % WORD && buf.Rest() == o.rest && buf.underflow == old(buf.underflow)
  {
    v := buf.ReadUleb();
  }

  method TakeSleb(buf: Buf) returns (v: int)
    requires buf.Valid()
    modifies buf
    ensures buf.Valid() && |buf.Rest()| <= old(|buf.Rest()|)
    ensures var o := SlebAt(old(buf.Rest()));
      o.Operand? ==> v == Wrap(o.value) && buf.Rest() == o.rest && buf.underflow == old(buf.underflow)
  {
    v := buf.ReadSleb();
  }

  /** Reads and drops `n` operands. */
  method DropUlebs(buf: Buf, n: nat)
    requires buf.Valid()
    modifies buf
    ensures buf.Valid() && |buf.Rest()| <= old(|buf.Rest()|)
    ensures var o := SkipUlebs(old(buf.Rest()), n);
      o.Operand? ==> buf.Rest() == o.rest && buf.underflow == old(buf.underflow)
  {
    hide UlebAt;
    ghost var o := SkipUlebs(buf.Rest(), n);
    var i := n;
    while i > 0
      invariant buf.Valid() && |buf.Rest()| <= old(|buf.Rest()|)
      invariant o.Operand? ==> o == SkipUlebs(buf.Rest(), i) && buf.underflow == old(buf.underflow)
    {
      var v := TakeUleb(buf);
      i := i - 1;
    }
  }

  /** Reads the whole program. When it decodes, the reader fails exactly when its
      machine does, and otherwise has stored that machine's rows. */
  method ReadLineProgram(buf: Buf, h: Header, base: nat) returns (ok: bool, rows: seq<Row>)
    requires WellFormed(h) && buf.Valid() && buf.bigEndian == h.bigEndian
    modifies buf
    ensures buf.Valid() && Bounded(rows)
    ensures var p := ProgramAt(h, old(buf.Rest()), []);
      h.maxOps == 1 && p.Program? ==>
        var c := CodeAfter(h, p.instrs);
        && ok == c.Code?
        && (ok ==> buf.Rest() == [] && buf.underflow == old(buf.underflow) && rows == Stored(c.rows, base))
  {
    hide InstrAt, CodeAfter, CodeExec, Stored, Bounded;
    ghost var p := ProgramAt(h, buf.Rest(), []);
    ghost var follow := h.maxOps == 1 && p.Program?;
    ghost var done := [];
    var m := new Machine(h, base);
    NothingStored(h, base);
    while buf.left > 0
      invariant buf.Valid() && m.h == h && m.base == base && Bounded(m.rows)
      invariant follow ==>
        m.InStep(CodeAfter(h, done)) && p == ProgramAt(h, buf.Rest(), done) && buf.underflow == old(buf.underflow)
      decreases buf.left
    {
      ghost var d := InstrAt(h, buf.Rest());
      ok := m.Next(buf, CodeAfter(h, done));
      if follow {
        CodeSnoc(h, done, d.instr);
        ProgramExtends(h, d.rest, done + [d.instr]);
        if !ok { RejectedStays(h, done + [d.instr], p.instrs); }
      }
      if !ok {
        return false, m.rows;
      }
      if follow { done := done + [d.instr]; }
    }
    return true, m.rows;
  }

  lemma NothingStored(h: Header, base: nat)
    requires WellFormed(h)
    ensures CodeAfter(h, []).Code? && CodeAfter(h, []).rows == [] && Stored([], base) == [] && Bounded([])
  {}

  /** Reads the program, indexes its lines and looks an address up. Where the standard
      defines the rows, their instructions are harmless and relocation drops none of
      them, the answer is the row in force among them. */
  method LookupLine(buf: Buf, h: Header, base: nat, key: nat) returns (found: bool, row: Row)
    requires WellFormed(h) && buf.Valid() && buf.bigEndian == h.bigEndian && !buf.underflow && key < MAX_PC
    modifies buf
    ensures var p := ProgramAt(h, old(buf.Rest()), []);
      h.maxOps == 1 && p.Program? && StdAfter(h, p.instrs).Std? && AllHarmless(h, p.instrs) ==>
        var kept := Kept(StdAfter(h, p.instrs).rows);
        base == 0 || Distinct(kept, base) ==>
          var all := RelocateAll(kept, base);
          var i := Scan(all, |all|, key);
          found == (i >= 0) && (found ==> row == all[i])
  {
    hide ProgramAt, StdAfter, CodeAfter, AllHarmless, Kept, Stored, Scan, Bounded, Distinct, RelocateAll;
    ghost var p := ProgramAt(h, buf.Rest(), []);
    ProgramRows(h, buf.Rest());
    var ok, rows := ReadLineProgram(buf, h, base);
    found, row := false, Row(0, NoName, 0);
    if h.maxOps == 1 && p.Program? && CodeAfter(h, p.instrs).Code? {
      RowsInRange(h, p.instrs);
      ghost var emitted := CodeAfter(h, p.instrs).rows;
      if base == 0 || Distinct(emitted, base) { StoredScan(emitted, base, key); }
    }
    if !ok || buf.underflow {
      return;
    }
    var i := RowAt(rows, key);
    if i >= 0 {
      return true, rows[i];
    }
  }
}
