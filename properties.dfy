/** What the LC-3 machine promises, proved about the functions of module
    `Machine`: the device bridge, condition codes, branches and subroutine
    calls, traps and faults, the loader and the run loop. */
module Properties {
  import opened Bits
  import opened Machine

  // ---- Memory bridge ----

  /** The keyboard registers and DSR are read-only: writing them changes nothing. */
  lemma WriteReadOnlyDevice(s: State, addr: bv16, val: bv16)
    requires WellFormed(s)
    requires addr == KBSR || addr == KBDR || addr == DSR
    ensures Write(s, addr, val) == s
  {
  }

  /** Writing DDR prints exactly one character, the low byte of the value,
      and changes no memory cell and no register. */
  lemma WriteDisplayPrints(s: State, val: bv16)
    requires WellFormed(s)
    ensures Write(s, DDR, val).mem == s.mem
    ensures Write(s, DDR, val).reg == s.reg
    ensures Write(s, DDR, val).input == s.input
    ensures Write(s, DDR, val).output == s.output + [(val & 0xFF) as bv8]
  {
  }

  /** Any other write changes exactly the addressed cell. */
  lemma WriteMemoryCell(s: State, addr: bv16, val: bv16)
    requires WellFormed(s) && !IsDevice(addr)
    ensures Write(s, addr, val).mem[addr as int] == val
    ensures forall a :: 0 <= a < MEM_SIZE && a != addr as int ==> Write(s, addr, val).mem[a] == s.mem[a]
    ensures Write(s, addr, val).reg == s.reg
    ensures Write(s, addr, val).input == s.input && Write(s, addr, val).output == s.output
  {
  }

  /** The display is always ready and DDR reads as zero; neither read has an effect. */
  lemma ReadDisplay(s: State)
    requires WellFormed(s)
    ensures Read(s, DSR) == (STATUS_BIT, s)
    ensures Read(s, DDR) == (0, s)
  {
  }

  /** KBSR reports whether a character is waiting without consuming it; KBDR
      returns and consumes the next character when one is waiting, and reads
      as zero otherwise. */
  lemma ReadKeyboard(s: State)
    requires WellFormed(s)
    ensures Read(s, KBSR) == (if |s.input| > 0 then STATUS_BIT else 0, s)
    ensures |s.input| > 0 ==> Read(s, KBDR) == (s.input[0] as bv16, s.(input := s.input[1..]))
    ensures |s.input| == 0 ==> Read(s, KBDR) == (0, s)
  {
  }

  lemma WordToIntToWord(a: bv16)
    ensures (a as int) as bv16 == a
  {
  }

  /** Updating the cell of one word leaves the cell of every other word as
      it was. */
  lemma UpdateOtherCell(m: seq<bv16>, a: bv16, b: bv16, v: bv16)
    requires |m| == MEM_SIZE && a != b
    ensures m[a as int := v][b as int] == m[b as int]
  {
    WordToIntToWord(a);
    WordToIntToWord(b);
  }

  lemma ReadMemory(s: State, a: bv16)
    requires WellFormed(s) && !IsDevice(a)
    ensures Read(s, a) == (s.mem[a as int], s)
  {
  }

  lemma WriteMemory(s: State, a: bv16, v: bv16)
    requires WellFormed(s) && !IsDevice(a)
    ensures Write(s, a, v) == s.(mem := s.mem[a as int := v])
  {
  }

  /** Reading memory through the bridge returns what the last write through
      the bridge stored there, at every address that is not a device,
      0xFFFF included, and a write leaves every other address as it was. */
  lemma ReadAfterWrite(s: State, addr: bv16, val: bv16, other: bv16)
    requires WellFormed(s) && !IsDevice(addr) && !IsDevice(other)
    ensures Read(Write(s, addr, val), addr) == (val, Write(s, addr, val))
    ensures other != addr ==> Read(Write(s, addr, val), other).0 == Read(s, other).0
  {
    WriteMemory(s, addr, val);
    ReadMemory(Write(s, addr, val), addr);
    if other != addr {
      UpdateOtherCell(s.mem, addr, other, val);
      ReadMemory(s, other);
      ReadMemory(Write(s, addr, val), other);
    }
  }

  // ---- Condition codes ----

  // Which case of the executor an instruction takes, one fact per opcode,
  // in four groups.

  lemma PerformOperateCases(s: State, instr: bv16)
    requires WellFormed(s) && (IsGetc(instr) ==> |s.input| > 0)
    ensures Decode(instr) == ADD ==> Perform(s, instr) == (RunSuccess, ExecAdd(s, instr))
    ensures Decode(instr) == AND ==> Perform(s, instr) == (RunSuccess, ExecAnd(s, instr))
    ensures Decode(instr) == LEA ==> Perform(s, instr) == (RunSuccess, ExecLea(s, instr))
    ensures Decode(instr) == NOT ==> Perform(s, instr) == (RunSuccess, ExecNot(s, instr))
  {
  }

  lemma PerformLoadCases(s: State, instr: bv16)
    requires WellFormed(s) && (IsGetc(instr) ==> |s.input| > 0)
    ensures Decode(instr) == LD ==> Perform(s, instr) == (RunSuccess, ExecLd(s, instr))
    ensures Decode(instr) == LDI ==> Perform(s, instr) == (RunSuccess, ExecLdi(s, instr))
    ensures Decode(instr) == LDR ==> Perform(s, instr) == (RunSuccess, ExecLdr(s, instr))
  {
  }

  lemma PerformStoreCases(s: State, instr: bv16)
    requires WellFormed(s) && (IsGetc(instr) ==> |s.input| > 0)
    ensures Decode(instr) == ST ==> Perform(s, instr) == (RunSuccess, ExecSt(s, instr))
    ensures Decode(instr) == STI ==> Perform(s, instr) == (RunSuccess, ExecSti(s, instr))
    ensures Decode(instr) == STR ==> Perform(s, instr) == (RunSuccess, ExecStr(s, instr))
  {
  }

  lemma PerformControlCases(s: State, instr: bv16)
    requires WellFormed(s) && (IsGetc(instr) ==> |s.input| > 0)
    ensures Decode(instr) == BR ==> Perform(s, instr) == (RunSuccess, ExecBr(s, instr))
    ensures Decode(instr) == JMP ==> Perform(s, instr) == (RunSuccess, ExecJmp(s, instr))
    ensures Decode(instr) == JSR ==> Perform(s, instr) == (RunSuccess, ExecJsr(s, instr))
    ensures Decode(instr) == TRAP ==> Perform(s, instr) == (RunSuccess, ExecTrap(s, instr))
    ensures Decode(instr) == RTI ==> Perform(s, instr) == (UnimplementedOpcode, s)
    ensures Decode(instr) == RESERVED ==> Perform(s, instr) == (UnimplementedOpcode, s)
  {
  }

  /** A fault (RTI or the reserved opcode) changes nothing. */
  lemma PerformFaults(s: State, instr: bv16)
    requires WellFormed(s) && (IsGetc(instr) ==> |s.input| > 0)
    ensures Perform(s, instr).0 == UnimplementedOpcode ==> Perform(s, instr).1 == s
  {
    PerformOperateCases(s, instr);
    PerformLoadCases(s, instr);
    PerformStoreCases(s, instr);
    PerformControlCases(s, instr);
  }

  /** No instruction takes back output or returns input. */
  lemma PerformConsole(s: State, instr: bv16)
    requires WellFormed(s) && (IsGetc(instr) ==> |s.input| > 0)
    ensures ConsoleExtends(s, Perform(s, instr).1)
  {
    PerformOperateCases(s, instr);
    PerformLoadCases(s, instr);
    PerformStoreCases(s, instr);
    PerformControlCases(s, instr);
  }

  /** After ADD, AND, LD, LDI, LDR, LEA or NOT the whole PSR is replaced by
      the flag of the register just written; every other instruction keeps
      the PSR as it was. */
  lemma PerformConditionCode(s: State, instr: bv16)
    requires WellFormed(s) && (IsGetc(instr) ==> |s.input| > 0)
    ensures Perform(s, instr).1.reg[PSR] ==
      if SetsConditionCode(Decode(instr)) then SignFlag(Perform(s, instr).1.reg[Dr(instr)]) else s.reg[PSR]
  {
    PerformOperateCases(s, instr);
    PerformLoadCases(s, instr);
    PerformStoreCases(s, instr);
    PerformControlCases(s, instr);
  }

  /** After ADD, AND, LD, LDI, LDR, LEA or NOT the PSR is exactly one flag:
      zero when the written register is 0, negative when its bit 15 is set,
      positive otherwise. */
  lemma ConditionCodeAfterWrite(s: State, instr: bv16)
    requires WellFormed(s) && SetsConditionCode(Decode(instr))
    ensures Perform(s, instr).0 == RunSuccess
    ensures IsFlag(Perform(s, instr).1.reg[PSR])
    ensures Perform(s, instr).1.reg[PSR] == FLAG_ZERO <==> Perform(s, instr).1.reg[Dr(instr)] == 0
    ensures Perform(s, instr).1.reg[PSR] == FLAG_NEGATIVE <==> Bit(Perform(s, instr).1.reg[Dr(instr)], 15)
  {
    PerformConditionCode(s, instr);
  }

  /** No instruction takes the PSR out of the three flag values. */
  lemma PerformKeepsFlag(s: State, instr: bv16)
    requires WellFormed(s) && (IsGetc(instr) ==> |s.input| > 0)
    requires IsFlag(s.reg[PSR])
    ensures IsFlag(Perform(s, instr).1.reg[PSR])
  {
    PerformConditionCode(s, instr);
  }

  // ---- Values written ----

  /** Setting a register and then the flags from it leaves the value in place. */
  lemma SetThenFlag(s: State, r: nat, v: bv16)
    requires WellFormed(s) && r < 8
    ensures SetCC(SetReg(s, r, v), r).reg[r] == v
  {
  }

  /** ADD writes `sr1 + imm5` in immediate mode (bit 5, mask 0x20, set) and
      `sr1 + sr2` otherwise, modulo 2^16. */
  lemma AddWrites(s: State, instr: bv16)
    requires WellFormed(s)
    ensures instr & 0x20 != 0 ==> ExecAdd(s, instr).reg[Dr(instr)] == Add16(s.reg[Sr1(instr)], SignExtend(instr, 5))
    ensures instr & 0x20 == 0 ==> ExecAdd(s, instr).reg[Dr(instr)] == Add16(s.reg[Sr1(instr)], s.reg[Sr2(instr)])
  {
    if instr & 0x20 != 0 {
      SetThenFlag(s, Dr(instr), Add16(s.reg[Sr1(instr)], SignExtend(instr, 5)));
    } else {
      SetThenFlag(s, Dr(instr), Add16(s.reg[Sr1(instr)], s.reg[Sr2(instr)]));
    }
  }

  /** AND: the same operands as ADD, combined bitwise. */
  lemma AndWrites(s: State, instr: bv16)
    requires WellFormed(s)
    ensures instr & 0x20 != 0 ==> ExecAnd(s, instr).reg[Dr(instr)] == s.reg[Sr1(instr)] & SignExtend(instr, 5)
    ensures instr & 0x20 == 0 ==> ExecAnd(s, instr).reg[Dr(instr)] == s.reg[Sr1(instr)] & s.reg[Sr2(instr)]
  {
    if instr & 0x20 != 0 {
      SetThenFlag(s, Dr(instr), s.reg[Sr1(instr)] & SignExtend(instr, 5));
    } else {
      SetThenFlag(s, Dr(instr), s.reg[Sr1(instr)] & s.reg[Sr2(instr)]);
    }
  }

  /** NOT writes the complement of the source register. */
  lemma NotWrites(s: State, instr: bv16)
    requires WellFormed(s)
    ensures ExecNot(s, instr).reg[Dr(instr)] == !s.reg[Sr1(instr)]
  {
    assert ExecNot(s, instr) == SetCC(SetReg(s, Dr(instr), !s.reg[Sr1(instr)]), Dr(instr));
  }

  /** NOT applied twice to one register gives the register back. */
  lemma NotTwice(s: State, instr: bv16)
    requires WellFormed(s) && Dr(instr) == Sr1(instr)
    ensures ExecNot(ExecNot(s, instr), instr).reg[Dr(instr)] == s.reg[Dr(instr)]
  {
    NotWrites(s, instr);
    NotWrites(ExecNot(s, instr), instr);
  }

  /** LEA writes the address `PC + offset9` itself, without reading memory. */
  lemma LeaWrites(s: State, instr: bv16)
    requires WellFormed(s)
    ensures ExecLea(s, instr).reg[Dr(instr)] == Add16(s.reg[PC], SignExtend(instr, 9))
  {
  }

  /** JMP sets PC to the base register's value. */
  lemma JmpTarget(s: State, instr: bv16)
    requires WellFormed(s)
    ensures ExecJmp(s, instr).reg[PC] == s.reg[Sr1(instr)]
  {
  }

  /** LD writes what the bridge reads at `PC + offset9`. */
  lemma LdReads(s: State, instr: bv16)
    requires WellFormed(s)
    ensures ExecLd(s, instr).reg[Dr(instr)] == Read(s, Add16(s.reg[PC], SignExtend(instr, 9))).0
  {
    var (v, s1) := Read(s, Add16(s.reg[PC], SignExtend(instr, 9)));
    assert ExecLd(s, instr) == SetCC(SetReg(s1, Dr(instr), v), Dr(instr));
  }

  /** At a memory address LD writes the cell's word and leaves the console alone. */
  lemma LdReadsMemory(s: State, instr: bv16)
    requires WellFormed(s) && !IsDevice(Add16(s.reg[PC], SignExtend(instr, 9)))
    ensures ExecLd(s, instr).reg[Dr(instr)] == s.mem[Add16(s.reg[PC], SignExtend(instr, 9)) as int]
    ensures ExecLd(s, instr).input == s.input && ExecLd(s, instr).output == s.output
  {
    var a := Add16(s.reg[PC], SignExtend(instr, 9));
    ReadMemory(s, a);
    LdReads(s, instr);
    assert ExecLd(s, instr) == SetCC(SetReg(s, Dr(instr), s.mem[a as int]), Dr(instr));
  }

  /** LDR writes what the bridge reads at `baseR + offset6`. */
  lemma LdrReads(s: State, instr: bv16)
    requires WellFormed(s)
    ensures ExecLdr(s, instr).reg[Dr(instr)] == Read(s, Add16(s.reg[Sr1(instr)], SignExtend(instr, 6))).0
  {
    var (v, s1) := Read(s, Add16(s.reg[Sr1(instr)], SignExtend(instr, 6)));
    assert ExecLdr(s, instr) == SetCC(SetReg(s1, Dr(instr), v), Dr(instr));
  }

  /** At a memory address LDR writes the cell's word and leaves the console alone. */
  lemma LdrReadsMemory(s: State, instr: bv16)
    requires WellFormed(s) && !IsDevice(Add16(s.reg[Sr1(instr)], SignExtend(instr, 6)))
    ensures ExecLdr(s, instr).reg[Dr(instr)] == s.mem[Add16(s.reg[Sr1(instr)], SignExtend(instr, 6)) as int]
    ensures ExecLdr(s, instr).input == s.input && ExecLdr(s, instr).output == s.output
  {
    var a := Add16(s.reg[Sr1(instr)], SignExtend(instr, 6));
    ReadMemory(s, a);
    LdrReads(s, instr);
    assert ExecLdr(s, instr) == SetCC(SetReg(s, Dr(instr), s.mem[a as int]), Dr(instr));
  }

  /** LDI reads a pointer through the bridge at `PC + offset9`, then writes
      what the bridge reads where the pointer points, devices included. */
  lemma LdiReads(s: State, instr: bv16)
    requires WellFormed(s)
    ensures var (p, s1) := Read(s, Add16(s.reg[PC], SignExtend(instr, 9)));
      ExecLdi(s, instr).reg[Dr(instr)] == Read(s1, p).0
  {
    var (p, s1) := Read(s, Add16(s.reg[PC], SignExtend(instr, 9)));
    var (v, s2) := Read(s1, p);
    assert ExecLdi(s, instr) == SetCC(SetReg(s2, Dr(instr), v), Dr(instr));
  }

  /** With the pointer in memory, LDI writes what the bridge reads at the
      address the pointer cell holds, which may be a console register, and
      the console moves only as that read moves it. */
  lemma LdiReadsPointer(s: State, instr: bv16)
    requires WellFormed(s) && !IsDevice(Add16(s.reg[PC], SignExtend(instr, 9)))
    ensures var p := s.mem[Add16(s.reg[PC], SignExtend(instr, 9)) as int];
      ExecLdi(s, instr).reg[Dr(instr)] == Read(s, p).0 &&
      ExecLdi(s, instr).input == Read(s, p).1.input && ExecLdi(s, instr).output == s.output
  {
    var a := Add16(s.reg[PC], SignExtend(instr, 9));
    ReadMemory(s, a);
    var (v, s2) := Read(s, s.mem[a as int]);
    assert ExecLdi(s, instr) == SetCC(SetReg(s2, Dr(instr), v), Dr(instr));
  }

  /** Through memory both reads of LDI are plain cells. */
  lemma LdiReadsMemory(s: State, instr: bv16)
    requires WellFormed(s)
    requires !IsDevice(Add16(s.reg[PC], SignExtend(instr, 9)))
    requires !IsDevice(s.mem[Add16(s.reg[PC], SignExtend(instr, 9)) as int])
    ensures ExecLdi(s, instr).reg[Dr(instr)] == s.mem[s.mem[Add16(s.reg[PC], SignExtend(instr, 9)) as int] as int]
    ensures ExecLdi(s, instr).input == s.input && ExecLdi(s, instr).output == s.output
  {
    var a := Add16(s.reg[PC], SignExtend(instr, 9));
    LdiReadsPointer(s, instr);
    ReadMemory(s, s.mem[a as int]);
  }

  /** Polling the keyboard the usual way, LDI through a memory cell holding
      KBSR, returns the status bit and consumes no input. */
  lemma LdiPollsKeyboard(s: State, instr: bv16)
    requires WellFormed(s) && !IsDevice(Add16(s.reg[PC], SignExtend(instr, 9)))
    requires s.mem[Add16(s.reg[PC], SignExtend(instr, 9)) as int] == KBSR
    ensures ExecLdi(s, instr).reg[Dr(instr)] == if |s.input| > 0 then STATUS_BIT else 0
    ensures ExecLdi(s, instr).input == s.input && ExecLdi(s, instr).output == s.output
  {
    LdiReadsPointer(s, instr);
    ReadKeyboard(s);
  }

  /** What a store of `val` at `addr` does: a memory address receives the
      value, DDR prints its low byte, the other device registers ignore it. */
  predicate Stored(s: State, t: State, addr: bv16, val: bv16)
    requires WellFormed(s) && WellFormed(t)
  {
    t.reg == s.reg && t.input == s.input &&
    (!IsDevice(addr) ==> t.mem == s.mem[addr as int := val] && t.output == s.output) &&
    (addr == DDR ==> t.mem == s.mem && t.output == s.output + [(val & 0xFF) as bv8]) &&
    (addr == KBSR || addr == KBDR || addr == DSR ==> t == s)
  }

  lemma WriteStores(s: State, addr: bv16, val: bv16)
    requires WellFormed(s)
    ensures Stored(s, Write(s, addr, val), addr, val)
  {
  }

  /** ST stores the source register at `PC + offset9`. */
  lemma StWrites(s: State, instr: bv16)
    requires WellFormed(s)
    ensures Stored(s, ExecSt(s, instr), Add16(s.reg[PC], SignExtend(instr, 9)), s.reg[Dr(instr)])
  {
    WriteStores(s, Add16(s.reg[PC], SignExtend(instr, 9)), s.reg[Dr(instr)]);
  }

  /** STR stores the source register at `baseR + offset6`. */
  lemma StrWrites(s: State, instr: bv16)
    requires WellFormed(s)
    ensures Stored(s, ExecStr(s, instr), Add16(s.reg[Sr1(instr)], SignExtend(instr, 6)), s.reg[Dr(instr)])
  {
    WriteStores(s, Add16(s.reg[Sr1(instr)], SignExtend(instr, 6)), s.reg[Dr(instr)]);
  }

  /** STI reads a pointer at `PC + offset9` and stores the source register
      where it points. */
  lemma StiWrites(s: State, instr: bv16)
    requires WellFormed(s)
    requires !IsDevice(Add16(s.reg[PC], SignExtend(instr, 9)))
    ensures Stored(s, ExecSti(s, instr), s.mem[Add16(s.reg[PC], SignExtend(instr, 9)) as int], s.reg[Dr(instr)])
  {
    var a := Add16(s.reg[PC], SignExtend(instr, 9));
    ReadMemory(s, a);
    WriteStores(s, s.mem[a as int], s.reg[Dr(instr)]);
  }

  /** ST then LD with the same 9-bit offset from the same PC reads the
      stored register back, at every memory address. */
  lemma StoreThenLoad(s: State, st: bv16, ld: bv16)
    requires WellFormed(s) && st & 0x1FF == ld & 0x1FF
    requires !IsDevice(Add16(s.reg[PC], SignExtend(st, 9)))
    ensures ExecLd(ExecSt(s, st), ld).reg[Dr(ld)] == s.reg[Dr(st)]
  {
    var a := Add16(s.reg[PC], SignExtend(st, 9));
    SignExtendReadsField(st, ld, 9);
    StWrites(s, st);
    var t := ExecSt(s, st);
    ReadAfterWrite(s, a, s.reg[Dr(st)], a);
    LdReadsMemory(t, ld);
  }

  // ---- Control transfer ----

  /** BR jumps by the sign-extended 9-bit offset, modulo 2^16, when the PSR
      has one of the flags that bits [11:9] ask for, and otherwise changes
      nothing; either way no general register, PSR, memory cell or console
      changes. */
  lemma Branch(s: State, instr: bv16)
    requires WellFormed(s)
    ensures ExecBr(s, instr).reg[PC] ==
      if (s.reg[PSR] & 0x7) & ((instr >> 9) & 0x7) != 0
      then Add16(s.reg[PC], SignExtend(instr, 9)) else s.reg[PC]
    ensures forall r :: 0 <= r < REG_COUNT && r != PC ==> ExecBr(s, instr).reg[r] == s.reg[r]
    ensures ExecBr(s, instr).mem == s.mem
    ensures ExecBr(s, instr).input == s.input && ExecBr(s, instr).output == s.output
    ensures (s.reg[PSR] & 0x7) & ((instr >> 9) & 0x7) == 0 ==> ExecBr(s, instr) == s
  {
  }

  /** With a single flag in the PSR, bit 11 of BR asks for negative, bit 10
      for zero and bit 9 for positive: the branch is taken exactly when the
      bit of the flag the PSR holds is set. */
  lemma BranchTakenIff(s: State, instr: bv16)
    requires WellFormed(s) && IsFlag(s.reg[PSR])
    ensures (s.reg[PSR] & 0x7) & ((instr >> 9) & 0x7) != 0 <==>
      (s.reg[PSR] == FLAG_NEGATIVE && Bit(instr, 11)) ||
      (s.reg[PSR] == FLAG_ZERO && Bit(instr, 10)) ||
      (s.reg[PSR] == FLAG_POSITIVE && Bit(instr, 9))
  {
    var psr := s.reg[PSR];
    if psr == FLAG_NEGATIVE {
      assert (psr & 0x7) & ((instr >> 9) & 0x7) == (instr >> 9) & 0x4;
    } else if psr == FLAG_ZERO {
      assert (psr & 0x7) & ((instr >> 9) & 0x7) == (instr >> 9) & 0x2;
    } else {
      assert (psr & 0x7) & ((instr >> 9) & 0x7) == (instr >> 9) & 0x1;
    }
  }

  /** JSR saves the PC it was entered with in R7 and jumps either by the
      sign-extended 11-bit offset or to the base register's value read before
      R7 is overwritten; nothing else changes. */
  lemma JumpToSubroutine(s: State, instr: bv16)
    requires WellFormed(s)
    ensures ExecJsr(s, instr).reg[R7] == s.reg[PC]
    ensures ExecJsr(s, instr).reg[PC] ==
      if instr & 0x800 != 0 then Add16(s.reg[PC], SignExtend(instr, 11)) else s.reg[Sr1(instr)]
  {
  }

  /** JSRR through R7 swaps PC and R7: the jump goes to R7's old value and R7
      receives the old PC. */
  lemma JumpToSubroutineThroughR7(s: State, instr: bv16)
    requires WellFormed(s) && instr & 0x800 == 0 && Sr1(instr) == R7
    ensures ExecJsr(s, instr).reg[PC] == s.reg[R7]
    ensures ExecJsr(s, instr).reg[R7] == s.reg[PC]
  {
    JumpToSubroutine(s, instr);
  }

  // ---- Traps ----

  /** GETC reads exactly one character into R0 (zero-extended); it neither
      saves a return address nor consults the vector table. */
  lemma GetcReadsOneCharacter(s: State, instr: bv16)
    requires WellFormed(s) && TrapVector(instr) == TRAP_GETC && |s.input| > 0
    ensures ExecTrap(s, instr).reg[R0] == s.input[0] as bv16
    ensures ExecTrap(s, instr).input == s.input[1..]
    ensures forall r :: 0 <= r < REG_COUNT && r != R0 ==> ExecTrap(s, instr).reg[r] == s.reg[r]
    ensures ExecTrap(s, instr).output == s.output
  {
  }

  /** Every other trap saves the PC in R7 and jumps through the vector table
      entry `mem[trapvect8]`; nothing else changes. */
  lemma TrapThroughVectorTable(s: State, instr: bv16)
    requires WellFormed(s) && TrapVector(instr) != TRAP_GETC
    ensures ExecTrap(s, instr).reg[R7] == s.reg[PC]
    ensures ExecTrap(s, instr).reg[PC] == s.mem[TrapVector(instr) as int]
    ensures forall r :: 0 <= r < REG_COUNT && r != R7 && r != PC ==> ExecTrap(s, instr).reg[r] == s.reg[r]
    ensures ExecTrap(s, instr).input == s.input && ExecTrap(s, instr).output == s.output
  {
  }

  // ---- Loader ----

  /** The origin is the first two bytes read big-endian. */
  lemma OriginValue(data: seq<bv8>)
    requires |data| >= 2
    ensures Origin(data) as int == data[0] as int * 256 + data[1] as int
  {
    SwapHostWordIsBigEndian(data[0], data[1]);
    BigEndianValue(data[0], data[1]);
  }

  /** A load succeeds exactly when the image ends strictly below `ADDR_MAX`,
      and a rejected load leaves the machine as it was. */
  lemma LoadAcceptsIff(s: State, data: seq<bv8>)
    requires WellFormed(s) && |data| >= 2
    ensures Load(s, data).0 == LoadSuccess <==> Origin(data) as int + WordCount(data) < ADDR_MAX
    ensures Load(s, data).0 == InputTooLarge ==> Load(s, data).1 == s
  {
  }

  /** What a successful load leaves behind, in one place. */
  lemma LoadSucceeds(s: State, data: seq<bv8>)
    requires WellFormed(s) && |data| >= 2
    requires Load(s, data).0 == LoadSuccess
    ensures Origin(data) as int + WordCount(data) < ADDR_MAX
    ensures Load(s, data).1 ==
      s.(mem := Copied(s.mem, Origin(data) as int, data, WordCount(data)), reg := s.reg[PC := Origin(data)])
  {
  }

  /** Copying one more word changes exactly the next cell. */
  lemma CopiedStep(mem: seq<bv16>, origin: nat, data: seq<bv8>, k: nat)
    requires |data| >= 2 && k < WordCount(data) && origin + k < |mem|
    ensures Copied(mem, origin, data, k + 1) == Copied(mem, origin, data, k)[origin + k := ImageWord(data, k)]
  {
  }

  /** After a successful load, cell `origin + i` holds bytes `2 + 2i` and
      `3 + 2i` of the image read big-endian. */
  lemma LoadPlacesWord(s: State, data: seq<bv8>, i: nat)
    requires WellFormed(s) && |data| >= 2 && i < WordCount(data)
    requires Load(s, data).0 == LoadSuccess
    ensures Origin(data) as int + i < MEM_SIZE
    ensures Load(s, data).1.mem[Origin(data) as int + i] as int ==
      data[2 + 2 * i] as int * 256 + data[3 + 2 * i] as int
  {
    LoadSucceeds(s, data);
    var o := Origin(data) as int;
    assert Load(s, data).1.mem[o + i] == ImageWord(data, i);
    ImageWordValue(data, i);
  }

  /** Image word `i` is bytes `2 + 2i` and `3 + 2i` read big-endian. */
  lemma ImageWordValue(data: seq<bv8>, i: nat)
    requires |data| >= 2 && i < WordCount(data)
    ensures ImageWord(data, i) as int == data[2 + 2 * i] as int * 256 + data[3 + 2 * i] as int
  {
    SwapHostWordIsBigEndian(data[2 + 2 * i], data[3 + 2 * i]);
    BigEndianValue(data[2 + 2 * i], data[3 + 2 * i]);
  }

  /** A successful load sets PC to the origin and changes no other register,
      no cell outside the image and neither console stream. */
  lemma LoadChangesOnlyImageAndPc(s: State, data: seq<bv8>)
    requires WellFormed(s) && |data| >= 2
    requires Load(s, data).0 == LoadSuccess
    ensures Load(s, data).1.reg[PC] == Origin(data)
    ensures forall r :: 0 <= r < REG_COUNT && r != PC ==> Load(s, data).1.reg[r] == s.reg[r]
    ensures forall a :: 0 <= a < MEM_SIZE && !(Origin(data) as int <= a < Origin(data) as int + WordCount(data)) ==>
      Load(s, data).1.mem[a] == s.mem[a]
    ensures Load(s, data).1.input == s.input && Load(s, data).1.output == s.output
  {
    LoadSucceeds(s, data);
  }

  /** Loading keeps the PSR a single flag. */
  lemma LoadKeepsFlag(s: State, data: seq<bv8>)
    requires WellFormed(s) && |data| >= 2 && IsFlag(s.reg[PSR])
    ensures IsFlag(Load(s, data).1.reg[PSR])
  {
  }

  // ---- The loop, for any guard and body ----

  /** Running out of fuel and then going on is the same as one longer run. */
  lemma {:induction false} IterateSplit(running: State -> bool, cycle: State --> Cycled, s: State, a: nat, b: nat)
    requires forall t :: running(t) ==> cycle.requires(t)
    requires Iterate(running, cycle, s, a).0 == OutOfFuel
    ensures Iterate(running, cycle, s, a + b) == Iterate(running, cycle, Iterate(running, cycle, s, a).1, b)
    decreases a
  {
    if a > 0 {
      match cycle(s)
      case Continue(t) =>
        IterateSplit(running, cycle, t, a - 1, b);
        assert a + b - 1 == (a - 1) + b;
      case Faulted(_) =>
      case Blocked(_) =>
    }
  }

  /** Once a loop has ended for any reason but fuel, more fuel changes nothing. */
  lemma {:induction false} IterateEndIsFinal(running: State -> bool, cycle: State --> Cycled, s: State, a: nat, b: nat)
    requires forall t :: running(t) ==> cycle.requires(t)
    requires Iterate(running, cycle, s, a).0 != OutOfFuel
    ensures Iterate(running, cycle, s, a + b) == Iterate(running, cycle, s, a)
    decreases a
  {
    if running(s) {
      match cycle(s)
      case Continue(t) =>
        IterateEndIsFinal(running, cycle, t, a - 1, b);
        assert a + b - 1 == (a - 1) + b;
      case Faulted(_) =>
      case Blocked(_) =>
    }
  }

  /** A property that every pass of the body keeps holds when the loop ends. */
  lemma {:induction false} IterateKeeps(running: State -> bool, cycle: State --> Cycled, inv: State -> bool, s: State, fuel: nat)
    requires forall t :: running(t) ==> cycle.requires(t)
    requires forall t :: running(t) && inv(t) ==> inv(cycle(t).state)
    requires inv(s)
    ensures inv(Iterate(running, cycle, s, fuel).1)
    decreases fuel
  {
    if running(s) && fuel > 0 {
      match cycle(s)
      case Continue(t) => IterateKeeps(running, cycle, inv, t, fuel - 1);
      case Faulted(_) =>
      case Blocked(_) =>
    }
  }

  /** One pass of the loop body decides how the loop goes on: from the state
      it reaches with one pass less, or not at all after a fault or a wait. */
  lemma IterateStep(running: State -> bool, cycle: State --> Cycled, s: State, fuel: nat)
    requires forall t :: running(t) ==> cycle.requires(t)
    requires running(s) && fuel > 0
    ensures Iterate(running, cycle, s, fuel) ==
      match cycle(s)
      case Continue(t) => Iterate(running, cycle, t, fuel - 1)
      case Faulted(t) => (Finished(UnimplementedOpcode), t)
      case Blocked(t) => (AwaitingInput, t)
  {
  }

  // ---- Run loop ----

  /** With MCR's run bit clear the loop fetches nothing and reports success. */
  lemma RunWhenHalted(s: State, fuel: nat)
    requires !Running(s)
    ensures Run(s, fuel) == (Finished(RunSuccess), s)
  {
  }

  /** Running out of fuel and then going on is the same as one longer run. */
  lemma RunSplit(s: State, a: nat, b: nat)
    requires Run(s, a).0 == OutOfFuel
    ensures Run(s, a + b) == Run(Run(s, a).1, b)
  {
    IterateSplit(Running, Cycle, s, a, b);
  }

  /** Once a run has ended for any reason but fuel, more fuel changes nothing. */
  lemma RunEndIsFinal(s: State, a: nat, b: nat)
    requires Run(s, a).0 != OutOfFuel
    ensures Run(s, a + b) == Run(s, a)
  {
    IterateEndIsFinal(Running, Cycle, s, a, b);
  }

  /** Fetching from a memory address reads that cell and only advances PC. */
  lemma FetchMemory(s: State)
    requires WellFormed(s) && !IsDevice(s.reg[PC])
    ensures Fetch(s) == (s.mem[s.reg[PC] as int], SetReg(s, PC, Add16(s.reg[PC], 1)))
  {
    ReadMemory(SetReg(s, PC, Add16(s.reg[PC], 1)), s.reg[PC]);
  }

  /** A pass over RTI or the reserved opcode faults right after the fetch. */
  lemma CycleFaults(s: State)
    requires WellFormed(s) && !IsDevice(s.reg[PC])
    requires Decode(s.mem[s.reg[PC] as int]) == RTI || Decode(s.mem[s.reg[PC] as int]) == RESERVED
    ensures Cycle(s) == Faulted(SetReg(s, PC, Add16(s.reg[PC], 1)))
  {
    FetchMemory(s);
    PerformControlCases(SetReg(s, PC, Add16(s.reg[PC], 1)), s.mem[s.reg[PC] as int]);
  }

  /** Fetching RTI or the reserved opcode ends the run with the fault; the
      only effect of that last pass is the advanced PC. */
  lemma RunStopsAtUnimplemented(s: State, fuel: nat)
    requires Running(s) && fuel > 0
    requires !IsDevice(s.reg[PC])
    requires Decode(s.mem[s.reg[PC] as int]) == RTI || Decode(s.mem[s.reg[PC] as int]) == RESERVED
    ensures Run(s, fuel) == (Finished(UnimplementedOpcode), SetReg(s, PC, Add16(s.reg[PC], 1)))
  {
    CycleFaults(s);
    IterateStep(Running, Cycle, s, fuel);
  }

  /** A pass over GETC with no input waiting stops right after the fetch. */
  lemma CycleBlocks(s: State)
    requires WellFormed(s) && |s.input| == 0
    requires !IsDevice(s.reg[PC]) && IsGetc(s.mem[s.reg[PC] as int])
    ensures Cycle(s) == Blocked(SetReg(s, PC, Add16(s.reg[PC], 1)))
  {
    FetchMemory(s);
  }

  /** A GETC fetched with no input waiting suspends the run right after the
      fetch, which is where the source would block in `getchar`. */
  lemma RunAwaitsInput(s: State, fuel: nat)
    requires Running(s) && fuel > 0 && |s.input| == 0
    requires !IsDevice(s.reg[PC]) && IsGetc(s.mem[s.reg[PC] as int])
    ensures Run(s, fuel) == (AwaitingInput, SetReg(s, PC, Add16(s.reg[PC], 1)))
  {
    CycleBlocks(s);
    IterateStep(Running, Cycle, s, fuel);
  }

  lemma ConsoleExtendsTransitive(s: State, t: State, u: State)
    requires ConsoleExtends(s, t) && ConsoleExtends(t, u)
    ensures ConsoleExtends(s, u)
  {
    assert u.input == s.input[|s.input| - |t.input|..][|t.input| - |u.input|..];
  }

  /** A running machine with fuel left makes one pass of the loop body,
      which reaches `t`: a pass that blocks or faults ends the run there, and
      a pass that goes on leaves the rest of the run to `t` with one pass
      less to spend. */
  lemma RunAfterPass(s: State, t: State, blocked: bool, res: RunResult, fuel: nat)
    requires Running(s) && fuel > 0
    requires Cycle(s) == if blocked then Blocked(t) else if res == RunSuccess then Continue(t) else Faulted(t)
    ensures blocked ==> Run(s, fuel) == (AwaitingInput, t)
    ensures !blocked && res != RunSuccess ==> Run(s, fuel) == (Finished(UnimplementedOpcode), t)
    ensures !blocked && res == RunSuccess ==> Run(s, fuel) == Run(t, fuel - 1)
  {
    IterateStep(Running, Cycle, s, fuel);
  }

  /** A running machine with no fuel left stops as it is. */
  lemma RunOutOfFuel(s: State)
    requires Running(s)
    ensures Run(s, 0) == (OutOfFuel, s)
  {
  }

  /** A pass either stops at a GETC that finds no input, right after the
      fetch, or ends where the executor leaves the fetched state. */
  lemma CycleState(s: State)
    requires WellFormed(s)
    ensures IsGetc(Fetch(s).0) && |Fetch(s).1.input| == 0 ==> Cycle(s) == Blocked(Fetch(s).1)
    ensures !(IsGetc(Fetch(s).0) && |Fetch(s).1.input| == 0) ==>
      Cycle(s) == if Perform(Fetch(s).1, Fetch(s).0).0 == RunSuccess
                  then Continue(Perform(Fetch(s).1, Fetch(s).0).1)
                  else Faulted(Perform(Fetch(s).1, Fetch(s).0).1)
  {
  }

  /** One pass of the loop body only moves the console forward. */
  lemma CycleConsole(s: State)
    requires WellFormed(s)
    ensures ConsoleExtends(s, Cycle(s).state)
  {
    CycleState(s);
    var (instr, s1) := Fetch(s);
    if !(IsGetc(instr) && |s1.input| == 0) {
      PerformConsole(s1, instr);
      ConsoleExtendsTransitive(s, s1, Perform(s1, instr).1);
    }
  }

  /** Output is only ever appended to, and input only ever consumed from the front. */
  lemma RunConsole(s: State, fuel: nat)
    ensures ConsoleExtends(s, Run(s, fuel).1)
  {
    forall t | Running(t) && ConsoleExtends(s, t)
      ensures ConsoleExtends(s, Cycle(t).state)
    {
      CycleConsole(t);
      ConsoleExtendsTransitive(s, t, Cycle(t).state);
    }
    IterateKeeps(Running, Cycle, t => ConsoleExtends(s, t), s, fuel);
  }

  /** The PSR holds a single flag. */
  predicate FlagHeld(s: State)
  {
    WellFormed(s) && IsFlag(s.reg[PSR])
  }

  lemma CycleKeepsFlag(s: State)
    requires FlagHeld(s)
    ensures FlagHeld(Cycle(s).state)
  {
    CycleState(s);
    var (instr, s1) := Fetch(s);
    if !(IsGetc(instr) && |s1.input| == 0) {
      PerformKeepsFlag(s1, instr);
    }
  }

  /** The PSR holds a single flag throughout a run that starts with one. */
  lemma RunKeepsFlag(s: State, fuel: nat)
    requires FlagHeld(s)
    ensures FlagHeld(Run(s, fuel).1)
  {
    forall t | Running(t) && FlagHeld(t)
      ensures FlagHeld(Cycle(t).state)
    {
      CycleKeepsFlag(t);
    }
    IterateKeeps(Running, Cycle, FlagHeld, s, fuel);
  }

  /** A new machine starts running with the zero flag. */
  lemma InitialState(input: seq<bv8>)
    ensures Running(Initial(input)) && IsFlag(Initial(input).reg[PSR])
    ensures Initial(input).reg[PC] == ADDR_INITIAL
  {
  }

  // ---- A complete session ----

  /** An image holding `AND R0,R0,#0; ADD R0,R0,#5` at origin 0x3000. */
  const IMAGE: seq<bv8> := [0x30, 0x00, 0x50, 0x20, 0x10, 0x25]

  /** Loading the image into a new machine places both words at 0x3000 and
      points PC at them. */
  lemma LoadImage()
    ensures Load(Initial([]), IMAGE).0 == LoadSuccess
    ensures Load(Initial([]), IMAGE).1.reg[PC] == 0x3000
    ensures Load(Initial([]), IMAGE).1.reg[R0] == 0
    ensures Load(Initial([]), IMAGE).1.mem[0x3000] == 0x5020
    ensures Load(Initial([]), IMAGE).1.mem[0x3001] == 0x1025
    ensures Load(Initial([]), IMAGE).1.mem[MCR as int] == STATUS_BIT
  {
    var s0 := Initial([]);
    assert Origin(IMAGE) == 0x3000;
    assert WordCount(IMAGE) == 2;
    LoadAcceptsIff(s0, IMAGE);
    LoadSucceeds(s0, IMAGE);
    assert ImageWord(IMAGE, 0) == 0x5020;
    assert ImageWord(IMAGE, 1) == 0x1025;
  }

  /** A pass over a word from memory that neither faults nor waits for input
      continues with the state the executor leaves. */
  lemma CycleExecutes(s: State, instr: bv16)
    requires WellFormed(s) && !IsDevice(s.reg[PC]) && s.mem[s.reg[PC] as int] == instr
    requires !IsGetc(instr) && Decode(instr) != RTI && Decode(instr) != RESERVED
    ensures Cycle(s) == Continue(Perform(SetReg(s, PC, Add16(s.reg[PC], 1)), instr).1)
  {
    FetchMemory(s);
    PerformFaults(SetReg(s, PC, Add16(s.reg[PC], 1)), instr);
  }

  /** MCR is plain memory to the bridge, so the run bit is the cell's bit 15. */
  lemma RunningIsMcrBit(s: State)
    requires WellFormed(s)
    ensures Running(s) <==> s.mem[MCR as int] & STATUS_BIT != 0
  {
    ReadMemory(s, MCR);
  }

  /** `AND R0,R0,#0` clears R0 and sets the zero flag. */
  lemma ClearR0(s: State)
    requires WellFormed(s)
    ensures ExecAnd(s, 0x5020).reg[R0] == 0 && ExecAnd(s, 0x5020).reg[PSR] == FLAG_ZERO
  {
    assert Dr(0x5020) == 0 && Sr1(0x5020) == 0;
    assert SignExtend(0x5020, 5) == 0;
  }

  /** `ADD R0,R0,#5` on R0 = 0 leaves 5 in R0 and sets the positive flag. */
  lemma AddFive(s: State)
    requires WellFormed(s) && s.reg[R0] == 0
    ensures ExecAdd(s, 0x1025).reg[R0] == 5 && ExecAdd(s, 0x1025).reg[PSR] == FLAG_POSITIVE
  {
    assert Dr(0x1025) == 0 && Sr1(0x1025) == 0;
    assert SignExtend(0x1025, 5) == 5;
    assert Add16(0, 5) == 5;
  }

  /** The first pass: `AND R0,R0,#0` at 0x3000. */
  lemma PassClearR0(s: State)
    requires WellFormed(s) && s.reg[PC] == 0x3000 && s.mem[0x3000] == 0x5020
    ensures Cycle(s) == Continue(ExecAnd(SetReg(s, PC, 0x3001), 0x5020))
    ensures ExecAnd(SetReg(s, PC, 0x3001), 0x5020).reg[PC] == 0x3001
    ensures ExecAnd(SetReg(s, PC, 0x3001), 0x5020).mem == s.mem
    ensures ExecAnd(SetReg(s, PC, 0x3001), 0x5020).reg[R0] == 0
  {
    assert Decode(0x5020) == AND;
    CycleExecutes(s, 0x5020);
    PerformOperateCases(SetReg(s, PC, 0x3001), 0x5020);
    ClearR0(SetReg(s, PC, 0x3001));
  }

  /** The second pass: `ADD R0,R0,#5` at 0x3001 with R0 = 0. */
  lemma PassAddFive(s: State)
    requires WellFormed(s) && s.reg[PC] == 0x3001 && s.mem[0x3001] == 0x1025 && s.reg[R0] == 0
    ensures Cycle(s) == Continue(ExecAdd(SetReg(s, PC, 0x3002), 0x1025))
    ensures ExecAdd(SetReg(s, PC, 0x3002), 0x1025).mem == s.mem
    ensures ExecAdd(SetReg(s, PC, 0x3002), 0x1025).reg[R0] == 5
    ensures ExecAdd(SetReg(s, PC, 0x3002), 0x1025).reg[PSR] == FLAG_POSITIVE
  {
    assert Decode(0x1025) == ADD;
    CycleExecutes(s, 0x1025);
    PerformOperateCases(SetReg(s, PC, 0x3002), 0x1025);
    AddFive(SetReg(s, PC, 0x3002));
  }

  /** Two passes over `AND R0,R0,#0; ADD R0,R0,#5` from a running machine. */
  lemma RunClearAndAdd(s: State)
    requires WellFormed(s) && s.reg[PC] == 0x3000 && s.mem[MCR as int] == STATUS_BIT
    requires s.mem[0x3000] == 0x5020 && s.mem[0x3001] == 0x1025
    ensures Run(s, 2).0 == OutOfFuel && WellFormed(Run(s, 2).1)
    ensures Run(s, 2).1.reg[R0] == 5 && Run(s, 2).1.reg[PSR] == FLAG_POSITIVE
  {
    PassClearR0(s);
    var s2 := ExecAnd(SetReg(s, PC, 0x3001), 0x5020);
    PassAddFive(s2);
    var s4 := ExecAdd(SetReg(s2, PC, 0x3002), 0x1025);
    RunningIsMcrBit(s);
    RunningIsMcrBit(s2);
    RunningIsMcrBit(s4);
    IterateStep(Running, Cycle, s, 2);
    IterateStep(Running, Cycle, s2, 1);
  }

  /** Loading `AND R0,R0,#0; ADD R0,R0,#5` at 0x3000 into a new machine and
      running two instructions leaves 5 in R0 and the positive flag in PSR. */
  lemma LoadAndRunTwoInstructions()
    ensures Load(Initial([]), IMAGE).0 == LoadSuccess
    ensures Run(Load(Initial([]), IMAGE).1, 2).0 == OutOfFuel && WellFormed(Run(Load(Initial([]), IMAGE).1, 2).1)
    ensures Run(Load(Initial([]), IMAGE).1, 2).1.reg[R0] == 5
    ensures Run(Load(Initial([]), IMAGE).1, 2).1.reg[PSR] == FLAG_POSITIVE
  {
    LoadImage();
    RunClearAndAdd(Load(Initial([]), IMAGE).1);
  }

  // ---- Memory size in the source ----

  /** The number of cells the source allocates: `VM_ADDR_MAX` = `UINT16_MAX`. */
  const SOURCE_MEM_CELLS: nat := ADDR_MAX

  /** Whether the source's `vm_read` / `vm_write` stay inside their
      `SOURCE_MEM_CELLS`-cell array for `addr`: devices never index it,
      every other address indexes `mem[addr]`. */
  predicate SourceAccessInBounds(addr: bv16)
  {
    IsDevice(addr) || addr as int < SOURCE_MEM_CELLS
  }

  /** As written, address 0xFFFF is passed through to memory and indexes one
      cell past the end of the source's array. */
  lemma SourceAccessOutOfBounds()
    ensures !IsDevice(0xFFFF) && !SourceAccessInBounds(0xFFFF)
  {
  }
}
