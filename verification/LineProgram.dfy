/** The line number program of section 6.2 of DWARF Version 4: its instructions, the
    state machine of section 6.2.5, the reader's version of it, and when the two agree. */
module LineProgram {
  import opened Wrappers
  import opened Arith
  import opened Bytes
  import opened Leb128
  import opened DwarfBuf
  import opened LineIndex

  /** What the program's header and its unit say; `files` and `dirs` are the lengths
      of the two tables. */
  datatype Header = Header(minInsnLen: byte, maxOps: nat, lineBase: int, lineRange: nat, opcodeBase: byte,
                           opcodeLengths: seq<byte>, files: nat, dirs: nat, addrSize: nat, bigEndian: bool)

  predicate WellFormed(h: Header) {
    0 < h.lineRange && 0 < h.maxOps && 0 < h.opcodeBase && |h.opcodeLengths| == h.opcodeBase - 1
    && h.files < WORD
  }

  // ----- instructions

  datatype Instr =
    | Special(op: nat)
    | Copy
    | AdvancePc(n: nat)
    | AdvanceLine(d: int)
    | SetFile(file: nat)
    | ConstAddPc
    | FixedAdvancePc(n: nat)
    | EndSequence
    | SetAddress(a: nat)
    | DefineFile(name: FileName)
    | Ignored

  datatype Decoded = Malformed | Decoded(instr: Instr, rest: seq<byte>)
  datatype Operand = NoOperand | Operand(value: int, rest: seq<byte>)
  datatype Program = NoProgram | Program(instrs: seq<Instr>)

  predicate HasLeb(bs: seq<byte>) { Ends(bs) && Len(bs) <= MAX_LEN }

  function UlebAt(bs: seq<byte>): (o: Operand)
    ensures o.Operand? ==> o.value >= 0 && |o.rest| < |bs|
  {
    if HasLeb(bs) then Operand(Unsigned(bs[..Len(bs)]), bs[Len(bs)..]) else NoOperand
  }

  function SlebAt(bs: seq<byte>): (o: Operand)
    ensures o.Operand? ==> |o.rest| < |bs|
  {
    if HasLeb(bs) then Operand(Signed(bs[..Len(bs)]), bs[Len(bs)..]) else NoOperand
  }

  function SkipUlebs(bs: seq<byte>, n: nat): (o: Operand)
    ensures o.Operand? ==> |o.rest| <= |bs|
  {
    if n == 0 then Operand(0, bs)
    else
      var o := UlebAt(bs);
      if o.NoOperand? then NoOperand else SkipUlebs(o.rest, n - 1)
  }

  /** Where a string of at most |bs| bytes ends. */
  function StringLen(bs: seq<byte>): (n: nat)
    ensures n <= |bs|
  {
    if bs == [] || bs[0] == 0 then 0 else 1 + StringLen(bs[1..])
  }

  /** Section 6.2.5.2, opcodes 1 to 12; others are skipped with their operands. */
  function StandardInstr(h: Header, op: nat, t: seq<byte>): (d: Decoded)
    requires WellFormed(h) && 0 < op < h.opcodeBase
    ensures d.Decoded? ==> |d.rest| <= |t|
  {
    if op == 1 then Decoded(Copy, t)
    else if op == 2 then
      var o := UlebAt(t);
      if o.NoOperand? then Malformed else Decoded(AdvancePc(o.value), o.rest)
    else if op == 3 then
      var o := SlebAt(t);
      if o.NoOperand? then Malformed else Decoded(AdvanceLine(o.value), o.rest)
    else if op == 4 then
      var o := UlebAt(t);
      if o.NoOperand? || o.value >= WORD then Malformed else Decoded(SetFile(o.value), o.rest)
    else if op == 5 || op == 12 then
      var o := UlebAt(t);
      if o.NoOperand? then Malformed else Decoded(Ignored, o.rest)
    else if op == 6 || op == 7 || op == 10 || op == 11 then Decoded(Ignored, t)
    else if op == 8 then Decoded(ConstAddPc, t)
    else if op == 9 then
      if |t| < 2 then Malformed else Decoded(FixedAdvancePc(Ordered(t[..2], h.bigEndian)), t[2..])
    else
      var o := SkipUlebs(t, h.opcodeLengths[op - 1]);
      if o.NoOperand? then Malformed else Decoded(Ignored, o.rest)
  }

  /** Section 6.2.5.3: a length, then an opcode and operands of that length. */
  function ExtendedInstr(h: Header, t: seq<byte>): (d: Decoded)
    ensures d.Decoded? ==> |d.rest| <= |t|
  {
    var len := UlebAt(t);
    if len.NoOperand? || len.value == 0 || len.rest == [] then Malformed
    else ExtendedOp(h, len.value, len.rest[0], len.rest[1..])
  }

  function ExtendedOp(h: Header, len: int, sub: byte, t: seq<byte>): (d: Decoded)
    requires len > 0
    ensures d.Decoded? ==> |d.rest| <= |t|
  {
    if sub == 1 then
      if len != 1 then Malformed else Decoded(EndSequence, t)
    else if sub == 2 then
      if len != 1 + h.addrSize || h.addrSize !in {1, 2, 4, 8} || |t| < h.addrSize then Malformed
      else Decoded(SetAddress(Ordered(t[..h.addrSize], h.bigEndian)), t[h.addrSize..])
    else if sub == 3 then
      var d := DefinedAt(h, t);
      if d.Malformed? || len != 1 + |t| - |d.rest| then Malformed else d
    else if sub == 4 then
      var o := UlebAt(t);
      if o.NoOperand? || len != 1 + |t| - |o.rest| then Malformed else Decoded(Ignored, o.rest)
    else if |t| < len - 1 then Malformed
    else Decoded(Ignored, t[len - 1..])
  }

  /** A name, its directory, a time and a length. A name that does not start with a
      slash needs a directory of the table. */
  function DefinedAt(h: Header, t: seq<byte>): (d: Decoded)
    ensures d.Decoded? ==> |d.rest| < |t|
  {
    var n := StringLen(t);
    if n >= |t| then Malformed
    else
      var dir := UlebAt(t[n + 1..]);
      var o := SkipUlebs(t[n + 1..], 3);
      if o.NoOperand? || dir.NoOperand? || (t[0] != 47 && dir.value > h.dirs) then Malformed
      else Decoded(DefineFile(Defined(|t|)), o.rest)
  }

  function InstrAt(h: Header, bs: seq<byte>): (d: Decoded)
    requires WellFormed(h) && bs != []
    ensures d.Decoded? ==> |d.rest| < |bs|
  {
    if bs[0] >= h.opcodeBase then Decoded(Special(bs[0] - h.opcodeBase), bs[1..])
    else if bs[0] == 0 then ExtendedInstr(h, bs[1..])
    else StandardInstr(h, bs[0], bs[1..])
  }

  /** The instructions of a whole program, after those in `done`. */
  function ProgramAt(h: Header, bs: seq<byte>, done: seq<Instr>): Program
    requires WellFormed(h)
    decreases |bs|
  {
    if bs == [] then Program(done)
    else
      var d := InstrAt(h, bs);
      if d.Malformed? then NoProgram else ProgramAt(h, d.rest, done + [d.instr])
  }

  lemma {:induction false} ProgramExtends(h: Header, bs: seq<byte>, done: seq<Instr>)
    requires WellFormed(h)
    ensures ProgramAt(h, bs, done).Program? ==> done <= ProgramAt(h, bs, done).instrs
    decreases |bs|
  {
    hide InstrAt;
    if bs != [] {
      var d := InstrAt(h, bs);
      if d.Decoded? { ProgramExtends(h, d.rest, done + [d.instr]); }
    }
  }

  // ----- address and line, one operation per instruction

  datatype Regs = Regs(address: nat, line: int)

  const START := Regs(0, 1)

  /** Section 6.2.5.1: an advance by `n` operations. */
  function Advanced(h: Header, r: Regs, n: nat): Regs { r.(address := r.address + h.minInsnLen * n) }

  /** The advance of special opcode 255. */
  function ConstAdvance(h: Header): nat
    requires WellFormed(h)
  {
    (255 - h.opcodeBase) / h.lineRange
  }

  function Moved(h: Header, i: Instr, r: Regs): Regs
    requires WellFormed(h)
  {
    match i
    case Special(op) => Advanced(h, r, op / h.lineRange).(line := r.line + h.lineBase + op % h.lineRange)
    case AdvancePc(n) => Advanced(h, r, n)
    case AdvanceLine(d) => r.(line := r.line + d)
    case ConstAddPc => Advanced(h, r, ConstAdvance(h))
    case FixedAdvancePc(n) => r.(address := r.address + n)
    case EndSequence => START
    case SetAddress(a) => r.(address := a)
    case _ => r
  }

  /** The instructions that append a row to the table. */
  predicate Emits(i: Instr) { i.Special? || i.Copy? }

  /** A number as a 32-bit `int`. */
  function Int32(x: int): int { (x + WORD32 / 2) % WORD32 - WORD32 / 2 }

  function RowFor(r: Regs, name: FileName): Row { Row(r.address % WORD, name, Int32(r.line)) }

  // ----- the machine of the standard

  /** `file` is the number of the current file, `defined` what the program has added
      to the file table. */
  datatype Std = Undefined | Std(regs: Regs, file: nat, defined: seq<FileName>, rows: seq<StdRow>)
  datatype StdRow = StdRow(regs: Regs, name: FileName, endSequence: bool)

  /** The name of entry `file` of the file table. */
  function NameIn(h: Header, defined: seq<FileName>, file: nat): FileName {
    if 1 <= file <= h.files then Listed(file)
    else if h.files < file <= h.files + |defined| then defined[file - h.files - 1]
    else NoName
  }

  function StdExec(h: Header, s: Std, i: Instr): Std
    requires WellFormed(h)
  {
    if s.Undefined? then Undefined
    else
      var r := Moved(h, i, s.regs);
      match i
      case SetFile(n) => if n > h.files + |s.defined| then Undefined else s.(regs := r, file := n)
      case DefineFile(name) => s.(regs := r, defined := s.defined + [name])
      case EndSequence =>
        Std(r, 1, s.defined, s.rows + [StdRow(s.regs, NameIn(h, s.defined, s.file), true)])
      case _ =>
        s.(regs := r, rows := if Emits(i) then s.rows + [StdRow(r, NameIn(h, s.defined, s.file), false)] else s.rows)
  }

  function StdAfter(h: Header, instrs: seq<Instr>): Std
    requires WellFormed(h)
  {
    if instrs == [] then Std(START, 1, [], [])
    else StdExec(h, StdAfter(h, instrs[..|instrs| - 1]), instrs[|instrs| - 1])
  }

  /** The rows that do not end a sequence. */
  function Kept(std: seq<StdRow>): seq<Row> {
    if std == [] then []
    else
      var s := std[|std| - 1];
      Kept(std[..|std| - 1]) + if s.endSequence then [] else [RowFor(s.regs, s.name)]
  }

  lemma KeptSnoc(std: seq<StdRow>, s: StdRow)
    ensures Kept(std + [s]) == if s.endSequence then Kept(std) else Kept(std) + [RowFor(s.regs, s.name)]
  {
    assert (std + [s])[..|std|] == std;
    assert Kept(std) + [] == Kept(std);
  }

  // ----- the machine of the reader

  /** The reader keeps a name instead of a number: a defined file becomes current at
      once, and only the header's files can be set. */
  datatype Code = Rejected | Code(regs: Regs, name: FileName, rows: seq<Row>)

  function CodeExec(h: Header, c: Code, i: Instr): Code
    requires WellFormed(h)
  {
    if c.Rejected? then Rejected
    else
      var r := Moved(h, i, c.regs);
      match i
      case SetFile(n) => if n > h.files then Rejected else c.(regs := r, name := NameIn(h, [], n))
      case DefineFile(name) => c.(regs := r, name := name)
      case EndSequence => c.(regs := r, name := NameIn(h, [], 1))
      case _ => c.(regs := r, rows := if Emits(i) then c.rows + [RowFor(r, c.name)] else c.rows)
  }

  function CodeAfter(h: Header, instrs: seq<Instr>): Code
    requires WellFormed(h)
  {
    if instrs == [] then Code(START, NameIn(h, [], 1), [])
    else CodeExec(h, CodeAfter(h, instrs[..|instrs| - 1]), instrs[|instrs| - 1])
  }

  lemma CodeSnoc(h: Header, instrs: seq<Instr>, i: Instr)
    requires WellFormed(h)
    ensures CodeAfter(h, instrs + [i]) == CodeExec(h, CodeAfter(h, instrs), i)
  {
    assert (instrs + [i])[..|instrs|] == instrs;
  }

  /** Once rejected, always rejected. */
  lemma {:induction false} RejectedStays(h: Header, some: seq<Instr>, all: seq<Instr>)
    requires WellFormed(h) && some <= all && CodeAfter(h, some).Rejected?
    ensures CodeAfter(h, all).Rejected?
    decreases |all|
  {
    if |some| < |all| {
      RejectedStays(h, some, all[..|all| - 1]);
    } else {
      assert some == all;
    }
  }

  lemma {:induction false} RowsInRange(h: Header, instrs: seq<Instr>)
    requires WellFormed(h)
    ensures var c := CodeAfter(h, instrs);
      c.Code? ==> forall k :: 0 <= k < |c.rows| ==> c.rows[k].pc < WORD
  {
    hide Moved, Int32;
    if instrs != [] { RowsInRange(h, instrs[..|instrs| - 1]); }
  }

  // ----- when the two machines give the same rows

  /** The file number set last in the current sequence. */
  function FileNumber(instrs: seq<Instr>): nat {
    if instrs == [] then 1
    else
      match instrs[|instrs| - 1]
      case SetFile(n) => n
      case EndSequence => 1
      case _ => FileNumber(instrs[..|instrs| - 1])
  }

  /** The names the program has defined so far. */
  function DefinedNames(instrs: seq<Instr>): seq<FileName> {
    if instrs == [] then []
    else
      var front := DefinedNames(instrs[..|instrs| - 1]);
      match instrs[|instrs| - 1]
      case DefineFile(name) => front + [name]
      case _ => front
  }

  /** The name defined last, if no file has been set and no sequence ended since. */
  function Pending(instrs: seq<Instr>): Option<FileName> {
    if instrs == [] then None
    else
      match instrs[|instrs| - 1]
      case DefineFile(name) => Some(name)
      case SetFile(_) => None
      case EndSequence => None
      case _ => Pending(instrs[..|instrs| - 1])
  }

  /** After `before`, instruction `i` sets no file the program has defined, and emits
      no row while a defined name is pending, unless that is the name of the current
      file. A header without files is special: its first file is the first one
      defined. */
  predicate Harmless(h: Header, before: seq<Instr>, i: Instr) {
    && (i.SetFile? ==> i.file <= h.files)
    && (Emits(i) ==>
          match Pending(before)
          case Some(name) => name == NameIn(h, DefinedNames(before), FileNumber(before))
          case None => h.files > 0 || FileNumber(before) != 1 || DefinedNames(before) == [])
  }

  ghost predicate AllHarmless(h: Header, instrs: seq<Instr>) {
    forall k :: 0 <= k < |instrs| ==> Harmless(h, instrs[..k], instrs[k])
  }

  lemma HarmlessSnoc(h: Header, instrs: seq<Instr>)
    requires instrs != []
    ensures var n := |instrs| - 1;
      AllHarmless(h, instrs) <==> AllHarmless(h, instrs[..n]) && Harmless(h, instrs[..n], instrs[n])
  {
    hide Harmless;
    var n := |instrs| - 1;
    var front := instrs[..n];
    forall k | 0 <= k < n ensures front[..k] == instrs[..k] && front[k] == instrs[k] {}
    if AllHarmless(h, front) && Harmless(h, front, instrs[n]) {
      forall k | 0 <= k < |instrs| ensures Harmless(h, instrs[..k], instrs[k]) {
        if k < n { assert Harmless(h, front[..k], front[k]); }
      }
    }
    if AllHarmless(h, instrs) {
      forall k | 0 <= k < n ensures Harmless(h, front[..k], front[k]) {
        assert Harmless(h, instrs[..k], instrs[k]);
      }
    }
  }

  /** The file registers of the standard's machine. */
  lemma {:induction false} StdFiles(h: Header, instrs: seq<Instr>)
    requires WellFormed(h)
    ensures var s := StdAfter(h, instrs);
      s.Std? ==> s.file == FileNumber(instrs) && s.defined == DefinedNames(instrs)
  {
    hide Moved;
    if instrs != [] { StdFiles(h, instrs[..|instrs| - 1]); }
  }

  /** The name the reader has: the pending one, or that of the header's file. */
  lemma {:induction false} CodeName(h: Header, instrs: seq<Instr>)
    requires WellFormed(h)
    ensures var c := CodeAfter(h, instrs);
      c.Code? ==>
        && (FileNumber(instrs) <= h.files || FileNumber(instrs) == 1)
        && c.name == match Pending(instrs)
                     case Some(name) => name
                     case None => NameIn(h, [], FileNumber(instrs))
  {
    hide Moved;
    if instrs != [] { CodeName(h, instrs[..|instrs| - 1]); }
  }

  /** Names that come from a program are those of its own places. */
  ghost predicate Named(instrs: seq<Instr>) {
    forall k :: 0 <= k < |instrs| && instrs[k].DefineFile? ==> instrs[k].name.Defined?
  }

  lemma {:induction false} DefinedAreDefined(instrs: seq<Instr>)
    requires Named(instrs)
    ensures forall k :: 0 <= k < |DefinedNames(instrs)| ==> DefinedNames(instrs)[k].Defined?
  {
    if instrs != [] { DefinedAreDefined(instrs[..|instrs| - 1]); }
  }

  /** At a row, the two machines have the same name exactly when the row is harmless. */
  lemma SameName(h: Header, before: seq<Instr>, i: Instr)
    requires WellFormed(h) && Named(before) && Emits(i)
    requires StdAfter(h, before).Std? && CodeAfter(h, before).Code?
    ensures var s, c := StdAfter(h, before), CodeAfter(h, before);
      c.name == NameIn(h, s.defined, s.file) <==> Harmless(h, before, i)
  {
    hide StdAfter, CodeAfter, FileNumber, DefinedNames, Pending;
    StdFiles(h, before);
    CodeName(h, before);
    DefinedAreDefined(before);
  }

  /** The two machines have moved alike and emitted as many rows. */
  lemma {:induction false} SameShape(h: Header, instrs: seq<Instr>)
    requires WellFormed(h)
    ensures var s, c := StdAfter(h, instrs), CodeAfter(h, instrs);
      s.Std? && c.Code? ==> c.regs == s.regs && |c.rows| == |Kept(s.rows)|
  {
    hide Moved, Kept;
    if instrs == [] {
      KeptNone();
    } else {
      var n := |instrs| - 1;
      SameShape(h, instrs[..n]);
      if StdAfter(h, instrs).Std? { StdRows(h, instrs); }
    }
  }

  lemma KeptNone()
    ensures Kept([]) == []
  {}

  /** The rows the standard's machine has kept after one more instruction. */
  lemma StdRows(h: Header, instrs: seq<Instr>)
    requires WellFormed(h) && instrs != [] && StdAfter(h, instrs).Std?
    ensures var n := |instrs| - 1;
      var s, i := StdAfter(h, instrs[..n]), instrs[n];
      && s.Std?
      && Kept(StdAfter(h, instrs).rows) ==
         if Emits(i) then Kept(s.rows) + [RowFor(Moved(h, i, s.regs), NameIn(h, s.defined, s.file))] else Kept(s.rows)
  {
    hide Moved, Kept, NameIn, StdAfter;
    var n := |instrs| - 1;
    var s, i := StdAfter(h, instrs[..n]), instrs[n];
    StdLast(h, instrs);
    if s.Std? {
      var name := NameIn(h, s.defined, s.file);
      KeptSnoc(s.rows, StdRow(s.regs, name, true));
      KeptSnoc(s.rows, StdRow(Moved(h, i, s.regs), name, false));
    }
  }

  lemma StdLast(h: Header, instrs: seq<Instr>)
    requires WellFormed(h) && instrs != []
    ensures StdAfter(h, instrs) == StdExec(h, StdAfter(h, instrs[..|instrs| - 1]), instrs[|instrs| - 1])
  {}

  lemma CodeLast(h: Header, instrs: seq<Instr>)
    requires WellFormed(h) && instrs != []
    ensures CodeAfter(h, instrs) == CodeExec(h, CodeAfter(h, instrs[..|instrs| - 1]), instrs[|instrs| - 1])
  {}

  /** The reader accepts the program and emits the standard's rows. */
  ghost predicate SameRows(h: Header, instrs: seq<Instr>)
    requires WellFormed(h)
  {
    var s, c := StdAfter(h, instrs), CodeAfter(h, instrs);
    s.Std? && c.Code? && c.rows == Kept(s.rows)
  }

  lemma SnocEqual<T>(a: seq<T>, x: T, b: seq<T>, y: T)
    requires |a| == |b|
    ensures a + [x] == b + [y] <==> a == b && x == y
  {
    if a + [x] == b + [y] {
      assert a == (a + [x])[..|a|] && b == (b + [y])[..|b|];
      assert (a + [x])[|a|] == x && (b + [y])[|b|] == y;
    }
  }

  /** One more instruction keeps the rows the same exactly when it is harmless. */
  lemma SameRowsStep(h: Header, instrs: seq<Instr>)
    requires WellFormed(h) && Named(instrs) && instrs != [] && StdAfter(h, instrs).Std?
    ensures var n := |instrs| - 1;
      SameRows(h, instrs) <==> SameRows(h, instrs[..n]) && Harmless(h, instrs[..n], instrs[n])
  {
    hide Moved, Kept, NameIn, StdAfter, CodeAfter, Harmless, Int32;
    var n := |instrs| - 1;
    var before, i := instrs[..n], instrs[n];
    CodeLast(h, instrs);
    StdRows(h, instrs);
    var s, c := StdAfter(h, before), CodeAfter(h, before);
    if c.Code? {
      SameShape(h, before);
      if Emits(i) {
        SameName(h, before, i);
        var r := Moved(h, i, s.regs);
        SnocEqual(c.rows, RowFor(r, c.name), Kept(s.rows), RowFor(r, NameIn(h, s.defined, s.file)));
      } else {
        Silent(h, before, i);
      }
    }
  }

  lemma Silent(h: Header, before: seq<Instr>, i: Instr)
    requires !Emits(i)
    ensures Harmless(h, before, i) <==> (i.SetFile? ==> i.file <= h.files)
  {}

  /** Where the standard defines the rows, the reader emits them if and only if every
      instruction is harmless. */
  lemma {:induction false} SameRowsExact(h: Header, instrs: seq<Instr>)
    requires WellFormed(h) && Named(instrs) && StdAfter(h, instrs).Std?
    ensures SameRows(h, instrs) <==> AllHarmless(h, instrs)
  {
    hide SameRows, Harmless, AllHarmless, StdAfter;
    if instrs == [] {
      NothingEmitted(h);
    } else {
      StdLast(h, instrs);
      HarmlessSnoc(h, instrs);
      SameRowsExact(h, instrs[..|instrs| - 1]);
      SameRowsStep(h, instrs);
    }
  }

  lemma NothingEmitted(h: Header)
    requires WellFormed(h)
    ensures SameRows(h, []) && AllHarmless(h, [])
  {}

  /** Programs without defined files in particular: only files of the header occur. */
  lemma {:induction false} PlainHarmless(h: Header, instrs: seq<Instr>)
    requires WellFormed(h) && StdAfter(h, instrs).Std? && forall k :: 0 <= k < |instrs| ==> !instrs[k].DefineFile?
    ensures AllHarmless(h, instrs) && Pending(instrs) == None && DefinedNames(instrs) == []
  {
    hide Harmless, AllHarmless, StdAfter;
    if instrs == [] {
      NothingEmitted(h);
    } else {
      var n := |instrs| - 1;
      StdLast(h, instrs);
      PlainHarmless(h, instrs[..n]);
      StdFiles(h, instrs[..n]);
      HarmlessSnoc(h, instrs);
      PlainStep(h, instrs[..n], instrs[n]);
    }
  }

  lemma PlainStep(h: Header, before: seq<Instr>, i: Instr)
    requires Pending(before) == None && DefinedNames(before) == [] && (i.SetFile? ==> i.file <= h.files)
    ensures Harmless(h, before, i)
  {}

  /** The names of a decoded program are those of its own places. */
  lemma {:induction false} ProgramNamed(h: Header, bs: seq<byte>, done: seq<Instr>)
    requires WellFormed(h) && Named(done)
    ensures ProgramAt(h, bs, done).Program? ==> Named(ProgramAt(h, bs, done).instrs)
    decreases |bs|
  {
    hide InstrAt;
    if bs != [] {
      var d := InstrAt(h, bs);
      InstrNamed(h, bs);
      if d.Decoded? { ProgramNamed(h, d.rest, done + [d.instr]); }
    }
  }

  lemma InstrNamed(h: Header, bs: seq<byte>)
    requires WellFormed(h) && bs != []
    ensures var d := InstrAt(h, bs);
      d.Decoded? && d.instr.DefineFile? ==> d.instr.name.Defined?
  {
    hide UlebAt, SlebAt, SkipUlebs, Ordered;
  }

  /** So the reader emits the rows of a program the standard defines if and only if
      its instructions are harmless. */
  lemma ProgramRows(h: Header, bs: seq<byte>)
    requires WellFormed(h)
    ensures var p := ProgramAt(h, bs, []);
      p.Program? && StdAfter(h, p.instrs).Std? ==> (SameRows(h, p.instrs) <==> AllHarmless(h, p.instrs))
  {
    hide ProgramAt, StdAfter, SameRows, AllHarmless;
    var p := ProgramAt(h, bs, []);
    if p.Program? && StdAfter(h, p.instrs).Std? {
      ProgramNamed(h, bs, []);
      SameRowsExact(h, p.instrs);
    }
  }

  // ----- a program on which they differ

  lemma SmallUleb(b: byte, t: seq<byte>)
    requires b < 128
    ensures UlebAt([b] + t) == Operand(b, t)
  {
    var bs := [b] + t;
    assert bs[0] == b && Len(bs) == 1;
    assert bs[..1] == [b] && bs[1..] == t;
    UnsignedCons(b, []);
    assert [b] + [] == [b];
  }

  /** Defining the file "a" and copying: the reader's row names that file, the row of
      the standard the first file of the header. */
  lemma {:induction false} DefineFileDiffers(h: Header, bs: seq<byte>)
    requires WellFormed(h) && h.files > 0 && h.opcodeBase > 1
    requires bs == [0, 6, 3, 97, 0, 0, 0, 0, 1]
    ensures var p := ProgramAt(h, bs, []);
      && p.Program?
      && CodeAfter(h, p.instrs) == Code(START, Defined(6), [Row(0, Defined(6), 1)])
      && StdAfter(h, p.instrs).Std? && Kept(StdAfter(h, p.instrs).rows) == [Row(0, Listed(1), 1)]
  {
    hide InstrAt, ProgramAt, CodeAfter, StdAfter, Kept;
    var name := Defined(6);
    FirstWitness(h, bs);
    ProgramStep(h, bs, []);
    LastWitness(h);
    ProgramStep(h, [1], [DefineFile(name)]);
    ProgramEnds(h, [DefineFile(name), Copy]);
    assert [] + [DefineFile(name)] == [DefineFile(name)];
    assert [DefineFile(name)] + [Copy] == [DefineFile(name), Copy];
    WitnessRows(h, name);
  }

  lemma ProgramStep(h: Header, bs: seq<byte>, done: seq<Instr>)
    requires WellFormed(h) && bs != [] && InstrAt(h, bs).Decoded?
    ensures ProgramAt(h, bs, done) == ProgramAt(h, InstrAt(h, bs).rest, done + [InstrAt(h, bs).instr])
  {}

  lemma ProgramEnds(h: Header, done: seq<Instr>)
    requires WellFormed(h)
    ensures ProgramAt(h, [], done) == Program(done)
  {}

  lemma FirstWitness(h: Header, bs: seq<byte>)
    requires WellFormed(h) && h.opcodeBase > 1 && bs == [0, 6, 3, 97, 0, 0, 0, 0, 1]
    ensures InstrAt(h, bs) == Decoded(DefineFile(Defined(6)), [1])
  {
    hide UlebAt, DefinedAt;
    var t: seq<byte> := [97, 0, 0, 0, 0, 1];
    DefinedAtWitness(h, t);
    SmallUleb(6, [3] + t);
    assert bs[1..] == [6] + ([3] + t) && ([3] + t)[1..] == t;
  }

  lemma LastWitness(h: Header)
    requires WellFormed(h) && h.opcodeBase > 1
    ensures InstrAt(h, [1]) == Decoded(Copy, [])
  {
    assert [1][1..] == [];
  }

  lemma DefinedAtWitness(h: Header, t: seq<byte>)
    requires t == [97, 0, 0, 0, 0, 1]
    ensures DefinedAt(h, t) == Decoded(DefineFile(Defined(6)), [1])
  {
    assert t[1..][0] == 0 && StringLen(t[1..]) == 0 && StringLen(t) == 1;
    var u: seq<byte> := t[2..];
    assert u == [0] + ([0] + ([0] + [1]));
    SmallUleb(0, [0] + ([0] + [1]));
    SmallUleb(0, [0] + [1]);
    SmallUleb(0, [1]);
    assert SkipUlebs([0] + [1], 1) == Operand(0, [1]);
    assert SkipUlebs([0] + ([0] + [1]), 2) == Operand(0, [1]);
  }

  lemma WitnessRows(h: Header, name: FileName)
    requires WellFormed(h) && h.files > 0
    ensures var instrs := [DefineFile(name), Copy];
      && CodeAfter(h, instrs) == Code(START, name, [Row(0, name, 1)])
      && StdAfter(h, instrs).Std? && Kept(StdAfter(h, instrs).rows) == [Row(0, Listed(1), 1)]
  {
    var one: seq<Instr> := [DefineFile(name)];
    var instrs := one + [Copy];
    assert instrs == [DefineFile(name), Copy] && instrs[..1] == one && one[..0] == [];
    assert CodeAfter(h, one) == Code(START, name, []);
    assert StdAfter(h, one) == Std(START, 1, [name], []);
    var row := StdRow(START, Listed(1), false);
    assert StdAfter(h, instrs) == Std(START, 1, [name], [row]);
    KeptSnoc([], row);
    assert [] + [row] == [row];
    assert Int32(1) == 1;
  }

  // ----- machine arithmetic

  lemma Int32Add(x: int, y: int)
    ensures Int32(Int32(x) + y) == Int32(x + y)
  {
    var half := WORD32 / 2;
    AddMod(x + half, y, WORD32);
  }

  lemma Int32Wrap(x: int)
    ensures Int32(Wrap(x)) == Int32(x)
  {
    var d := x / WORD;
    var e := if x % WORD >= WORD / 2 then d + 1 else d;
    assert Wrap(x) == x - e * WORD;
    ShiftMod(Wrap(x) + WORD32 / 2, e * WORD32, WORD32);
  }

  /** The reader multiplies before it divides. That is the standard's address
      advance for every count exactly when instructions hold one operation each or
      are one byte long. */
  lemma AdvanceExact(minInsnLen: nat, maxOps: nat)
    requires maxOps > 0
    ensures (forall x: nat :: AdvanceAgrees(minInsnLen, maxOps, x)) <==> maxOps == 1 || minInsnLen <= 1
  {
    hide AdvanceAgrees;
    if maxOps > 1 && minInsnLen > 1 {
      LateDivision(minInsnLen, maxOps);
    } else {
      forall x: nat ensures AdvanceAgrees(minInsnLen, maxOps, x) { EarlyOrLate(minInsnLen, maxOps, x); }
    }
  }

  lemma LateDivision(minInsnLen: nat, maxOps: nat)
    requires maxOps > 1 && minInsnLen > 1
    ensures !AdvanceAgrees(minInsnLen, maxOps, maxOps - 1)
  {
    var x := maxOps - 1;
    Multiple(minInsnLen, x);
    SmallDiv(x, maxOps);
    if minInsnLen * x / maxOps == 0 { SmallDivConverse(minInsnLen * x, maxOps); }
  }

  lemma SmallDiv(x: nat, n: nat)
    requires x < n
    ensures x / n == 0
  {
    ModUnique(0, x, n);
  }

  lemma SmallDivConverse(x: nat, n: nat)
    requires n > 0 && x / n == 0
    ensures x < n
  {
    assert x == x / n * n + x % n;
  }

  lemma EarlyOrLate(minInsnLen: nat, maxOps: nat, x: nat)
    requires maxOps == 1 || (maxOps > 0 && minInsnLen <= 1)
    ensures AdvanceAgrees(minInsnLen, maxOps, x)
  {
    if minInsnLen == 0 { SmallDiv(0, maxOps); }
  }

  ghost predicate AdvanceAgrees(minInsnLen: nat, maxOps: nat, x: nat)
    requires maxOps > 0
  {
    minInsnLen * x / maxOps == minInsnLen * (x / maxOps)
  }
}
