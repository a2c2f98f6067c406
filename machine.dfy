/** The LC-3 machine as values: its state, the memory-mapped device bridge,
    the loader, the instruction executor and the bounded run loop. The class
    in module `Vm` performs the same operations in place on arrays and is
    proved to agree with the functions here. */
module Machine {
  import opened Bits

  // ---- Sizes and special values ----

  /** Number of memory cells: one per 16-bit address. The source declares
      `VM_ADDR_MAX` = 65535 cells, one short; see `SourceMemoryCells`. */
  const MEM_SIZE: nat := 0x1_0000

  /** `VM_ADDR_MAX` (`UINT16_MAX`): the cell count the source declares and the
      bound its loader tests against. */
  const ADDR_MAX: nat := 0xFFFF

  const ADDR_INITIAL: bv16 := 0x3000
  const SIGN_BIT: bv16 := 0x8000
  const STATUS_BIT: bv16 := 0x8000

  // Device registers and the machine control register.
  const KBSR: bv16 := 0xFE00
  const KBDR: bv16 := 0xFE02
  const DSR: bv16 := 0xFE04
  const DDR: bv16 := 0xFE06
  const MCR: bv16 := 0xFFFE

  /** The four addresses that are console registers rather than memory. */
  predicate IsDevice(addr: bv16)
  {
    addr == KBSR || addr == KBDR || addr == DSR || addr == DDR
  }

  // Register file layout: R0..R7, then PC and PSR.
  const R0: nat := 0
  const R7: nat := 7
  const PC: nat := 8
  const PSR: nat := 9
  const REG_COUNT: nat := 10

  // Condition flags; the PSR holds exactly one of them.
  const FLAG_NEGATIVE: bv16 := 0x4
  const FLAG_ZERO: bv16 := 0x2
  const FLAG_POSITIVE: bv16 := 0x1

  /** The trap vector that reads one character straight into R0 (GETC). */
  const TRAP_GETC: bv16 := 0x20

  // ---- Results ----

  datatype LoadResult = LoadSuccess | InputTooLarge

  datatype RunResult = RunSuccess | UnimplementedOpcode

  /** How a fuel-bounded run ends: the source's own result, or one of the two
      ways the bounded model stops where the source would go on (more
      instructions than the fuel allows, or a GETC with no input left, where
      the source blocks). */
  datatype RunOutcome = Finished(result: RunResult) | OutOfFuel | AwaitingInput

  // ---- Opcodes ----

  datatype Opcode =
    | ADD | AND | BR | JMP | JSR | LD | LDI | LDR
    | LEA | NOT | RTI | ST | STI | STR | TRAP | RESERVED

  /** The 4-bit code of each opcode. */
  function Code(op: Opcode): bv16
  {
    match op
    case ADD => 0x1
    case AND => 0x5
    case BR => 0x0
    case JMP => 0xC
    case JSR => 0x4
    case LD => 0x2
    case LDI => 0xA
    case LDR => 0x6
    case LEA => 0xE
    case NOT => 0x9
    case RTI => 0x8
    case ST => 0x3
    case STI => 0xB
    case STR => 0x7
    case TRAP => 0xF
    case RESERVED => 0xD
  }

  /** The opcodes in the order of their codes, 0x0 to 0xF. */
  const OPCODES: seq<Opcode> :=
    [BR, ADD, LD, ST, JSR, AND, LDR, STR, RTI, NOT, LDI, STI, JMP, RESERVED, LEA, TRAP]

  /** The opcode selected by bits [15:12] of an instruction. Every one of the
      16 codes names an opcode, so decoding never fails. */
  function Decode(instr: bv16): (op: Opcode)
    ensures Code(op) == instr >> 12
  {
    OPCODES[(instr >> 12) as int]
  }

  // ---- Instruction fields ----

  /** Bits [11:9]: destination register, or source register of a store. */
  function Dr(instr: bv16): (r: nat)
    ensures r < 8
  {
    ((instr >> 9) & 0x7) as nat
  }

  /** Bits [8:6]: first source register, or base register. */
  function Sr1(instr: bv16): (r: nat)
    ensures r < 8
  {
    ((instr >> 6) & 0x7) as nat
  }

  /** Bits [2:0]: second source register. */
  function Sr2(instr: bv16): (r: nat)
    ensures r < 8
  {
    (instr & 0x7) as nat
  }

  /** Bits [7:0]: trap vector, zero-extended. */
  function TrapVector(instr: bv16): (v: bv16)
    ensures v < 0x100
  {
    instr & 0xFF
  }

  predicate IsGetc(instr: bv16)
  {
    Decode(instr) == TRAP && TrapVector(instr) == TRAP_GETC
  }

  // ---- State ----

  /** Memory, registers and the console: `input` holds the characters still to
      be read, `output` every character written so far. */
  datatype State = State(mem: seq<bv16>, reg: seq<bv16>, input: seq<bv8>, output: seq<bv8>)

  predicate WellFormed(s: State)
  {
    |s.mem| == MEM_SIZE && |s.reg| == REG_COUNT
  }

  /** A freshly created machine reading `input`: memory and registers zero,
      PC at 0x3000, PSR holding the zero flag, and the run bit of MCR set. */
  function Initial(input: seq<bv8>): (s: State)
    ensures WellFormed(s)
    ensures s.mem[MCR as int] == STATUS_BIT
    ensures forall a :: 0 <= a < MEM_SIZE && a != MCR as int ==> s.mem[a] == 0
    ensures forall r :: 0 <= r < 8 ==> s.reg[r] == 0
    ensures s.reg[PC] == ADDR_INITIAL && s.reg[PSR] == FLAG_ZERO
    ensures s.input == input && s.output == []
  {
    State(seq(MEM_SIZE, a => if a == MCR as int then STATUS_BIT else 0),
          seq(REG_COUNT, r => if r == PC then ADDR_INITIAL else if r == PSR then FLAG_ZERO else 0),
          input, [])
  }

  function SetReg(s: State, r: nat, v: bv16): (t: State)
    requires WellFormed(s) && r < REG_COUNT
    ensures WellFormed(t)
  {
    s.(reg := s.reg[r := v])
  }

  // ---- Condition codes ----

  /** One of the three flags, as a PSR value. */
  predicate IsFlag(f: bv16)
  {
    f == FLAG_NEGATIVE || f == FLAG_ZERO || f == FLAG_POSITIVE
  }

  /** The flag describing `v` read as a signed 16-bit number. */
  function SignFlag(v: bv16): (f: bv16)
    ensures IsFlag(f)
    ensures f == FLAG_ZERO <==> ToInt16(v) == 0
    ensures f == FLAG_NEGATIVE <==> ToInt16(v) < 0
    ensures f == FLAG_POSITIVE <==> ToInt16(v) > 0
  {
    if v == 0 then FLAG_ZERO
    else if v & SIGN_BIT != 0 then FLAG_NEGATIVE
    else FLAG_POSITIVE
  }

  /** Replaces the whole PSR by the flag of register `r`. */
  function SetCC(s: State, r: nat): (t: State)
    requires WellFormed(s) && r < 8
    ensures WellFormed(t)
    ensures IsFlag(t.reg[PSR]) && t.reg[PSR] == SignFlag(s.reg[r])
    ensures forall i :: 0 <= i < REG_COUNT && i != PSR ==> t.reg[i] == s.reg[i]
    ensures t.mem == s.mem && t.input == s.input && t.output == s.output
  {
    s.(reg := s.reg[PSR := SignFlag(s.reg[r])])
  }

  // ---- Memory bridge ----

  /** `t`'s console follows on from `s`'s: output is only appended to and
      input only consumed from the front. */
  predicate ConsoleExtends(s: State, t: State)
  {
    s.output <= t.output && |t.input| <= |s.input| && t.input == s.input[|s.input| - |t.input|..]
  }

  /** KBSR's answer: the status bit when a character is waiting. */
  function KeyboardStatus(s: State): bv16
  {
    if |s.input| > 0 then STATUS_BIT else 0
  }

  /** Reading `addr`: the four device registers answer for the console and
      KBDR consumes the character it returns; every other address is memory. */
  function Read(s: State, addr: bv16): (out: (bv16, State))
    requires WellFormed(s)
    ensures WellFormed(out.1)
    ensures out.1.mem == s.mem && out.1.reg == s.reg && out.1.output == s.output
    ensures out.1.input == s.input || (|s.input| > 0 && out.1.input == s.input[1..])
  {
    if addr == KBSR then (KeyboardStatus(s), s)
    else if addr == KBDR then
      if KeyboardStatus(s) != 0 then (s.input[0] as bv16, s.(input := s.input[1..]))
      else (0, s)
    else if addr == DSR then (STATUS_BIT, s)
    else if addr == DDR then (0, s)
    else (s.mem[addr as int], s)
  }

  /** Writing `val` to `addr`: the keyboard registers and DSR ignore it, DDR
      prints its low byte, and every other address is memory. */
  function Write(s: State, addr: bv16, val: bv16): (t: State)
    requires WellFormed(s)
    ensures WellFormed(t)
    ensures t.reg == s.reg && t.input == s.input
    ensures t.output == s.output || t.output == s.output + [(val & 0xFF) as bv8]
  {
    if addr == KBSR || addr == KBDR || addr == DSR then s
    else if addr == DDR then s.(output := s.output + [(val & 0xFF) as bv8])
    else s.(mem := s.mem[addr as int := val])
  }

  // ---- Loader ----

  /** The origin: the first two bytes of the image, read in host order and
      byte-swapped. */
  function Origin(data: seq<bv8>): (r: bv16)
    requires |data| >= 2
    ensures r >> 8 == data[0] as bv16 && r & 0xFF == data[1] as bv16
  {
    Swap16(HostWord(data[0], data[1]))
  }

  /** Words after the origin; an odd trailing byte is not part of any word. */
  function WordCount(data: seq<bv8>): (n: nat)
    requires |data| >= 2
    ensures 2 + 2 * n <= |data| <= 2 + 2 * n + 1
  {
    (|data| - 2) / 2
  }

  /** Word `i` of the image, after the origin. */
  function ImageWord(data: seq<bv8>, i: nat): (r: bv16)
    requires |data| >= 2 && i < WordCount(data)
    ensures r >> 8 == data[2 + 2 * i] as bv16 && r & 0xFF == data[3 + 2 * i] as bv16
  {
    Swap16(HostWord(data[2 + 2 * i], data[3 + 2 * i]))
  }

  /** `mem` with the first `k` words of the image placed from `origin` on. */
  function Copied(mem: seq<bv16>, origin: nat, data: seq<bv8>, k: nat): (m: seq<bv16>)
    requires |data| >= 2 && k <= WordCount(data) && origin + k <= |mem|
    ensures |m| == |mem|
  {
    seq(|mem|, a requires 0 <= a < |mem| =>
      if origin <= a < origin + k then ImageWord(data, a - origin) else mem[a])
  }

  /** Loading an image: rejected as a whole when it would not end below
      `ADDR_MAX`; otherwise its words are copied from the origin on and PC
      is set to the origin. */
  function Load(s: State, data: seq<bv8>): (out: (LoadResult, State))
    requires WellFormed(s) && |data| >= 2
    ensures WellFormed(out.1)
    ensures out.0 == InputTooLarge ==> out.1 == s
    ensures out.1.input == s.input && out.1.output == s.output
  {
    var origin := Origin(data);
    var start: nat := origin as nat;
    assert start < 0x1_0000;
    var count := WordCount(data);
    if start + count >= ADDR_MAX then (InputTooLarge, s)
    else (LoadSuccess, s.(mem := Copied(s.mem, start, data, count),
                          reg := s.reg[PC := origin]))
  }

  // ---- Executor ----

  /** The opcodes that write a general register and then set the condition code. */
  predicate SetsConditionCode(op: Opcode)
  {
    op == ADD || op == AND || op == LD || op == LDI || op == LDR || op == LEA || op == NOT
  }

  /** Executes one instruction against a state whose PC already points past
      it, one case per opcode. GETC needs a character to read: the source
      blocks otherwise. Only RTI and the reserved opcode fault, and they
      change nothing; the console only moves forward. */
  function Perform(s: State, instr: bv16): (out: (RunResult, State))
    requires WellFormed(s)
    requires IsGetc(instr) ==> |s.input| > 0
    ensures WellFormed(out.1)
    ensures out.0 == UnimplementedOpcode <==> Decode(instr) == RTI || Decode(instr) == RESERVED
  {
    match Decode(instr)
    case ADD => (RunSuccess, ExecAdd(s, instr))
    case AND => (RunSuccess, ExecAnd(s, instr))
    case BR => (RunSuccess, ExecBr(s, instr))
    case JMP => (RunSuccess, ExecJmp(s, instr))
    case JSR => (RunSuccess, ExecJsr(s, instr))
    case LD => (RunSuccess, ExecLd(s, instr))
    case LDI => (RunSuccess, ExecLdi(s, instr))
    case LDR => (RunSuccess, ExecLdr(s, instr))
    case LEA => (RunSuccess, ExecLea(s, instr))
    case NOT => (RunSuccess, ExecNot(s, instr))
    case RTI => (UnimplementedOpcode, s)
    case ST => (RunSuccess, ExecSt(s, instr))
    case STI => (RunSuccess, ExecSti(s, instr))
    case STR => (RunSuccess, ExecStr(s, instr))
    case TRAP => (RunSuccess, ExecTrap(s, instr))
    case RESERVED => (UnimplementedOpcode, s)
  }

  /** ADD: `dr = sr1 + imm5` when bit 5 is set, else `dr = sr1 + sr2`, modulo 2^16. */
  function ExecAdd(s: State, instr: bv16): (t: State)
    requires WellFormed(s)
    ensures WellFormed(t)
    ensures t.mem == s.mem && t.input == s.input && t.output == s.output && ConsoleExtends(s, t)
    ensures t.reg[PSR] == SignFlag(t.reg[Dr(instr)])
    ensures forall r :: 0 <= r < REG_COUNT && r != Dr(instr) && r != PSR ==> t.reg[r] == s.reg[r]
  {
    var v := if instr & 0x20 != 0 then Add16(s.reg[Sr1(instr)], SignExtend(instr, 5))
             else Add16(s.reg[Sr1(instr)], s.reg[Sr2(instr)]);
    SetCC(SetReg(s, Dr(instr), v), Dr(instr))
  }

  /** AND: the same operands as ADD, combined bitwise. */
  function ExecAnd(s: State, instr: bv16): (t: State)
    requires WellFormed(s)
    ensures WellFormed(t)
    ensures t.mem == s.mem && t.input == s.input && t.output == s.output && ConsoleExtends(s, t)
    ensures t.reg[PSR] == SignFlag(t.reg[Dr(instr)])
    ensures forall r :: 0 <= r < REG_COUNT && r != Dr(instr) && r != PSR ==> t.reg[r] == s.reg[r]
  {
    var v := if instr & 0x20 != 0 then s.reg[Sr1(instr)] & SignExtend(instr, 5)
             else s.reg[Sr1(instr)] & s.reg[Sr2(instr)];
    SetCC(SetReg(s, Dr(instr), v), Dr(instr))
  }

  /** BR: jump by the 9-bit offset when the PSR has a flag bits [11:9] ask for. */
  function ExecBr(s: State, instr: bv16): (t: State)
    requires WellFormed(s)
    ensures WellFormed(t)
    ensures t.reg[PSR] == s.reg[PSR]
    ensures t.mem == s.mem && t.input == s.input && t.output == s.output && ConsoleExtends(s, t)
    ensures forall r :: 0 <= r < REG_COUNT && r != PC ==> t.reg[r] == s.reg[r]
  {
    if (s.reg[PSR] & 0x7) & ((instr >> 9) & 0x7) != 0
    then SetReg(s, PC, Add16(s.reg[PC], SignExtend(instr, 9)))
    else s
  }

  /** JMP (and RET, which is JMP through R7): PC receives the base register. */
  function ExecJmp(s: State, instr: bv16): (t: State)
    requires WellFormed(s)
    ensures WellFormed(t)
    ensures t.reg[PSR] == s.reg[PSR]
    ensures t.mem == s.mem && t.input == s.input && t.output == s.output && ConsoleExtends(s, t)
    ensures forall r :: 0 <= r < REG_COUNT && r != PC ==> t.reg[r] == s.reg[r]
  {
    SetReg(s, PC, s.reg[Sr1(instr)])
  }

  /** JSR/JSRR: the target is computed before R7 receives the old PC. */
  function ExecJsr(s: State, instr: bv16): (t: State)
    requires WellFormed(s)
    ensures WellFormed(t)
    ensures t.reg[PSR] == s.reg[PSR]
    ensures t.mem == s.mem && t.input == s.input && t.output == s.output && ConsoleExtends(s, t)
    ensures forall r :: 0 <= r < REG_COUNT && r != PC && r != R7 ==> t.reg[r] == s.reg[r]
  {
    var pc := s.reg[PC];
    var target := if instr & 0x800 != 0 then Add16(pc, SignExtend(instr, 11))
                  else s.reg[Sr1(instr)];
    SetReg(SetReg(s, PC, target), R7, pc)
  }

  /** LD: `dr = read(PC + offset9)`. */
  function ExecLd(s: State, instr: bv16): (t: State)
    requires WellFormed(s)
    ensures WellFormed(t)
    ensures t.mem == s.mem && ConsoleExtends(s, t)
    ensures t.reg[PSR] == SignFlag(t.reg[Dr(instr)])
    ensures forall r :: 0 <= r < REG_COUNT && r != Dr(instr) && r != PSR ==> t.reg[r] == s.reg[r]
  {
    var (v, s1) := Read(s, Add16(s.reg[PC], SignExtend(instr, 9)));
    SetCC(SetReg(s1, Dr(instr), v), Dr(instr))
  }

  /** LDI: `dr = read(read(PC + offset9))`. */
  function ExecLdi(s: State, instr: bv16): (t: State)
    requires WellFormed(s)
    ensures WellFormed(t)
    ensures t.mem == s.mem && ConsoleExtends(s, t)
    ensures t.reg[PSR] == SignFlag(t.reg[Dr(instr)])
    ensures forall r :: 0 <= r < REG_COUNT && r != Dr(instr) && r != PSR ==> t.reg[r] == s.reg[r]
  {
    var (a, s1) := Read(s, Add16(s.reg[PC], SignExtend(instr, 9)));
    var (v, s2) := Read(s1, a);
    SetCC(SetReg(s2, Dr(instr), v), Dr(instr))
  }

  /** LDR: `dr = read(baseR + offset6)`. */
  function ExecLdr(s: State, instr: bv16): (t: State)
    requires WellFormed(s)
    ensures WellFormed(t)
    ensures t.mem == s.mem && ConsoleExtends(s, t)
    ensures t.reg[PSR] == SignFlag(t.reg[Dr(instr)])
    ensures forall r :: 0 <= r < REG_COUNT && r != Dr(instr) && r != PSR ==> t.reg[r] == s.reg[r]
  {
    var (v, s1) := Read(s, Add16(s.reg[Sr1(instr)], SignExtend(instr, 6)));
    SetCC(SetReg(s1, Dr(instr), v), Dr(instr))
  }

  /** LEA: `dr = PC + offset9`. */
  function ExecLea(s: State, instr: bv16): (t: State)
    requires WellFormed(s)
    ensures WellFormed(t)
    ensures t.mem == s.mem && t.input == s.input && t.output == s.output && ConsoleExtends(s, t)
    ensures t.reg[PSR] == SignFlag(t.reg[Dr(instr)])
    ensures forall r :: 0 <= r < REG_COUNT && r != Dr(instr) && r != PSR ==> t.reg[r] == s.reg[r]
  {
    SetCC(SetReg(s, Dr(instr), Add16(s.reg[PC], SignExtend(instr, 9))), Dr(instr))
  }

  /** NOT: `dr = ~sr`. */
  function ExecNot(s: State, instr: bv16): (t: State)
    requires WellFormed(s)
    ensures WellFormed(t)
    ensures t.mem == s.mem && t.input == s.input && t.output == s.output && ConsoleExtends(s, t)
    ensures t.reg[PSR] == SignFlag(t.reg[Dr(instr)])
    ensures forall r :: 0 <= r < REG_COUNT && r != Dr(instr) && r != PSR ==> t.reg[r] == s.reg[r]
  {
    SetCC(SetReg(s, Dr(instr), !s.reg[Sr1(instr)]), Dr(instr))
  }

  /** ST: `write(PC + offset9, sr)`. */
  function ExecSt(s: State, instr: bv16): (t: State)
    requires WellFormed(s)
    ensures WellFormed(t)
    ensures t.reg == s.reg && ConsoleExtends(s, t)
  {
    Write(s, Add16(s.reg[PC], SignExtend(instr, 9)), s.reg[Dr(instr)])
  }

  /** STI: `write(read(PC + offset9), sr)`. */
  function ExecSti(s: State, instr: bv16): (t: State)
    requires WellFormed(s)
    ensures WellFormed(t)
    ensures t.reg == s.reg && ConsoleExtends(s, t)
  {
    var (a, s1) := Read(s, Add16(s.reg[PC], SignExtend(instr, 9)));
    Write(s1, a, s1.reg[Dr(instr)])
  }

  /** STR: `write(baseR + offset6, sr)`. */
  function ExecStr(s: State, instr: bv16): (t: State)
    requires WellFormed(s)
    ensures WellFormed(t)
    ensures t.reg == s.reg && ConsoleExtends(s, t)
  {
    Write(s, Add16(s.reg[Sr1(instr)], SignExtend(instr, 6)), s.reg[Dr(instr)])
  }

  /** TRAP: GETC reads one character into R0; every other vector saves PC in
      R7 and jumps through the vector table. */
  function ExecTrap(s: State, instr: bv16): (t: State)
    requires WellFormed(s)
    requires TrapVector(instr) == TRAP_GETC ==> |s.input| > 0
    ensures WellFormed(t)
    ensures t.reg[PSR] == s.reg[PSR]
    ensures t.mem == s.mem && ConsoleExtends(s, t)
    ensures forall r :: 0 <= r < REG_COUNT && r != PC && r != R7 && r != R0 ==> t.reg[r] == s.reg[r]
  {
    if TrapVector(instr) == TRAP_GETC then ExecGetc(s)
    else ExecTrapVector(s, TrapVector(instr))
  }

  /** GETC: the next input character, zero-extended, into R0. */
  function ExecGetc(s: State): (t: State)
    requires WellFormed(s) && |s.input| > 0
    ensures WellFormed(t)
    ensures t.mem == s.mem && t.output == s.output && ConsoleExtends(s, t)
    ensures forall r :: 0 <= r < REG_COUNT && r != R0 ==> t.reg[r] == s.reg[r]
  {
    SetReg(s.(input := s.input[1..]), R0, s.input[0] as bv16)
  }

  /** A trap through the vector table: R7 receives PC, then PC receives the
      word read at `vector`. */
  function ExecTrapVector(s: State, vector: bv16): (t: State)
    requires WellFormed(s)
    ensures WellFormed(t)
    ensures t.mem == s.mem && ConsoleExtends(s, t)
    ensures forall r :: 0 <= r < REG_COUNT && r != PC && r != R7 ==> t.reg[r] == s.reg[r]
  {
    var s1 := SetReg(s, R7, s.reg[PC]);
    var (target, s2) := Read(s1, vector);
    SetReg(s2, PC, target)
  }

  // ---- Run loop ----

  /** The loop's guard: MCR's run bit, read through the bridge. MCR is not a
      device register, so the read has no effect on the state. */
  predicate Running(s: State)
  {
    WellFormed(s) && Read(s, MCR).0 & STATUS_BIT != 0
  }

  /** Where one pass of the loop body leaves the machine: the loop goes on,
      the instruction faulted, or a GETC found no input (the source blocks). */
  datatype Cycled = Continue(state: State) | Faulted(state: State) | Blocked(state: State)

  /** The fetch: the word at PC, read through the bridge, with PC
      incremented before the read, modulo 2^16. It changes no register but
      PC. */
  function Fetch(s: State): (out: (bv16, State))
    requires WellFormed(s)
    ensures WellFormed(out.1)
    ensures out.1.reg[PC] == Add16(s.reg[PC], 1)
    ensures forall r :: 0 <= r < REG_COUNT && r != PC ==> out.1.reg[r] == s.reg[r]
    ensures out.1.mem == s.mem && ConsoleExtends(s, out.1)
  {
    var pc := s.reg[PC];
    Read(SetReg(s, PC, Add16(pc, 1)), pc)
  }

  /** One pass of the loop body: fetch the word at PC, advance PC, execute. */
  function Cycle(s: State): (c: Cycled)
    requires WellFormed(s)
    ensures WellFormed(c.state)
  {
    var (instr, s1) := Fetch(s);
    if IsGetc(instr) && |s1.input| == 0 then Blocked(s1)
    else
      var (res, s2) := Perform(s1, instr);
      if res == RunSuccess then Continue(s2) else Faulted(s2)
  }

  /** The loop itself, over its guard and its body: while `running` holds,
      run the body, at most `fuel` times. It is stated for any guard and body
      so that facts about the loop are proved once, apart from the
      instruction set. */
  function Iterate(running: State -> bool, cycle: State --> Cycled, s: State, fuel: nat): (out: (RunOutcome, State))
    requires forall t :: running(t) ==> cycle.requires(t)
    ensures out.0 == Finished(RunSuccess) ==> !running(out.1)
    ensures out.0 == OutOfFuel ==> running(out.1)
    decreases fuel
  {
    if !running(s) then (Finished(RunSuccess), s)
    else if fuel == 0 then (OutOfFuel, s)
    else
      match cycle(s)
      case Continue(t) => Iterate(running, cycle, t, fuel - 1)
      case Faulted(t) => (Finished(UnimplementedOpcode), t)
      case Blocked(t) => (AwaitingInput, t)
  }

  /** The machine's run loop with at most `fuel` passes of the body. */
  function Run(s: State, fuel: nat): (out: (RunOutcome, State))
    ensures out.0 == Finished(RunSuccess) ==> !Running(out.1)
    ensures out.0 == OutOfFuel ==> Running(out.1)
  {
    Iterate(Running, Cycle, s, fuel)
  }
}
