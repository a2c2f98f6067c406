/** The machine as the source holds it: memory and the register file are
    arrays that the operations update in place, and the console is an input
    queue and an output log. Every method is proved to leave exactly the
    state that the function of module `Machine` specifying it describes. */
module Vm {
  import opened Bits
  import opened Machine
  import Properties

  class Vm {
    var mem: array<bv16>
    var reg: array<bv16>
    /** Characters typed but not read yet. */
    var input: seq<bv8>
    /** Characters printed so far. */
    var output: seq<bv8>

    ghost predicate Valid()
      reads this
    {
      mem.Length == MEM_SIZE && reg.Length == REG_COUNT && mem != reg
    }

    /** The machine's state as a value. */
    ghost function Snapshot(): (s: State)
      reads this, mem, reg
      requires Valid()
      ensures WellFormed(s)
    {
      State(mem[..], reg[..], input, output)
    }

    /** A new machine reading `input`: zeroed memory and registers, then PC,
        PSR and MCR's run bit set. */
    constructor (input: seq<bv8>)
      ensures Valid() && fresh(mem) && fresh(reg)
      ensures Snapshot() == Initial(input)
    {
      mem := new bv16[MEM_SIZE](_ => 0);
      reg := new bv16[REG_COUNT](_ => 0);
      this.input := input;
      output := [];
      new;
      reg[PC] := ADDR_INITIAL;
      reg[PSR] := FLAG_ZERO;
      mem[MCR as int] := STATUS_BIT;
      assert mem[..] == Initial(input).mem;
      assert reg[..] == Initial(input).reg;
    }

    // ---- Memory bridge ----

    /** Reads `addr` through the device layer; reading KBDR consumes the
        character it returns. */
    method Read(addr: bv16) returns (val: bv16)
      requires Valid()
      modifies this`input
      ensures Valid()
      ensures (val, Snapshot()) == Machine.Read(old(Snapshot()), addr)
      decreases if addr == KBDR then 1 else 0
    {
      if addr == KBSR {
        val := if |input| > 0 then STATUS_BIT else 0;
      } else if addr == KBDR {
        var status := Read(KBSR);
        if status != 0 {
          val := input[0] as bv16;
          input := input[1..];
        } else {
          val := 0;
        }
      } else if addr == DSR {
        val := STATUS_BIT;
      } else if addr == DDR {
        val := 0;
      } else {
        val := mem[addr as int];
      }
    }

    /** Writes `val` to `addr` through the device layer: DDR prints the low
        byte, the other device registers ignore the write. */
    method Write(addr: bv16, val: bv16)
      requires Valid()
      modifies this`output, mem
      ensures Valid()
      ensures Snapshot() == Machine.Write(old(Snapshot()), addr, val)
    {
      if addr == DDR {
        output := output + [(val & 0xFF) as bv8];
      } else if addr != KBSR && addr != KBDR && addr != DSR {
        mem[addr as int] := val;
      }
    }

    // ---- Loader ----

    /** Loads an image: a big-endian origin, then big-endian words copied
        from the origin on, provided they end below `ADDR_MAX`; PC is set to
        the origin. A rejected image changes nothing. */
    method LoadData(data: seq<bv8>) returns (res: LoadResult)
      requires Valid() && |data| >= 2
      modifies mem, reg
      ensures Valid()
      ensures (res, Snapshot()) == Machine.Load(old(Snapshot()), data)
    {
      ghost var s := Snapshot();
      var origin := Origin(data);
      var count := WordCount(data);
      Properties.LoadAcceptsIff(s, data);
      if origin as int + count >= ADDR_MAX {
        return InputTooLarge;
      }
      CopyImage(data, origin as int, count);
      Properties.LoadSucceeds(s, data);
      reg[PC] := origin;
      res := LoadSuccess;
    }

    /** The loader's copy loop: image words `0 .. count` go to cells
        `origin .. origin + count`, every other cell keeps its word. */
    method CopyImage(data: seq<bv8>, origin: nat, count: nat)
      requires Valid() && |data| >= 2 && count <= WordCount(data) && origin + count <= MEM_SIZE
      modifies mem
      ensures Valid()
      ensures mem[..] == Copied(old(mem[..]), origin, data, count)
    {
      ghost var m := mem[..];
      var i := 0;
      while i < count
        invariant 0 <= i <= count
        invariant mem[..] == Copied(m, origin, data, i)
      {
        Properties.CopiedStep(m, origin, data, i);
        mem[origin + i] := ImageWord(data, i);
        i := i + 1;
      }
    }

    // ---- Executor ----

    /** Replaces the PSR by the flag of register `r`. */
    method SetCC(r: nat)
      requires Valid() && r < 8
      modifies reg
      ensures Valid()
      ensures Snapshot() == Machine.SetCC(old(Snapshot()), r)
    {
      reg[PSR] := SignFlag(reg[r]);
    }

    /** Executes `instr`, whose PC has already been advanced past it. */
    method Step(instr: bv16) returns (res: RunResult)
      requires Valid() && (IsGetc(instr) ==> |input| > 0)
      modifies this`input, this`output, mem, reg
      ensures Valid()
      ensures (res, Snapshot()) == Perform(old(Snapshot()), instr)
    {
      ghost var s := Snapshot();
      Properties.PerformOperateCases(s, instr);
      Properties.PerformLoadCases(s, instr);
      Properties.PerformStoreCases(s, instr);
      Properties.PerformControlCases(s, instr);
      res := RunSuccess;
      match Decode(instr)
      case ADD => Add(instr);
      case AND => And(instr);
      case BR => Br(instr);
      case JMP => Jmp(instr);
      case JSR => Jsr(instr);
      case LD => Ld(instr);
      case LDI => Ldi(instr);
      case LDR => Ldr(instr);
      case LEA => Lea(instr);
      case NOT => Not(instr);
      case RTI => res := UnimplementedOpcode;
      case ST => St(instr);
      case STI => Sti(instr);
      case STR => Str(instr);
      case TRAP => Trap(instr);
      case RESERVED => res := UnimplementedOpcode;
    }

    method Add(instr: bv16)
      requires Valid()
      modifies reg
      ensures Valid()
      ensures Snapshot() == ExecAdd(old(Snapshot()), instr)
    {
      var dr, sr1 := Dr(instr), Sr1(instr);
      var v: bv16;
      if instr & 0x20 != 0 {
        var imm5 := SignExtend(instr, 5);
        v := Add16(reg[sr1], imm5);
      } else {
        var sr2 := Sr2(instr);
        v := Add16(reg[sr1], reg[sr2]);
      }
      reg[dr] := v;
      assert Snapshot() == SetReg(old(Snapshot()), dr, v);
      SetCC(dr);
    }

    method And(instr: bv16)
      requires Valid()
      modifies reg
      ensures Valid()
      ensures Snapshot() == ExecAnd(old(Snapshot()), instr)
    {
      var dr, sr1 := Dr(instr), Sr1(instr);
      var v: bv16;
      if instr & 0x20 != 0 {
        var imm5 := SignExtend(instr, 5);
        v := reg[sr1] & imm5;
      } else {
        var sr2 := Sr2(instr);
        v := reg[sr1] & reg[sr2];
      }
      reg[dr] := v;
      assert Snapshot() == SetReg(old(Snapshot()), dr, v);
      SetCC(dr);
    }

    method Br(instr: bv16)
      requires Valid()
      modifies reg
      ensures Valid()
      ensures Snapshot() == ExecBr(old(Snapshot()), instr)
    {
      var currentNzp := reg[PSR] & 0x7;
      var desiredNzp := (instr >> 9) & 0x7;
      var offset9 := SignExtend(instr, 9);
      if currentNzp & desiredNzp != 0 {
        reg[PC] := Add16(reg[PC], offset9);
      }
    }

    method Jmp(instr: bv16)
      requires Valid()
      modifies reg
      ensures Valid()
      ensures Snapshot() == ExecJmp(old(Snapshot()), instr)
    {
      reg[PC] := reg[Sr1(instr)];
    }

    method Jsr(instr: bv16)
      requires Valid()
      modifies reg
      ensures Valid()
      ensures Snapshot() == ExecJsr(old(Snapshot()), instr)
    {
      var originalPc := reg[PC];
      if instr & 0x800 != 0 {
        var offset11 := SignExtend(instr, 11);
        reg[PC] := Add16(reg[PC], offset11);
      } else {
        var baseValue := reg[Sr1(instr)];
        reg[PC] := baseValue;
      }
      reg[R7] := originalPc;
    }

    method Ld(instr: bv16)
      requires Valid()
      modifies this`input, reg
      ensures Valid()
      ensures Snapshot() == ExecLd(old(Snapshot()), instr)
    {
      var dr := Dr(instr);
      var v := Read(Add16(reg[PC], SignExtend(instr, 9)));
      reg[dr] := v;
      SetCC(dr);
    }

    method Ldi(instr: bv16)
      requires Valid()
      modifies this`input, reg
      ensures Valid()
      ensures Snapshot() == ExecLdi(old(Snapshot()), instr)
    {
      var dr := Dr(instr);
      var a := Read(Add16(reg[PC], SignExtend(instr, 9)));
      var v := Read(a);
      reg[dr] := v;
      SetCC(dr);
    }

    method Ldr(instr: bv16)
      requires Valid()
      modifies this`input, reg
      ensures Valid()
      ensures Snapshot() == ExecLdr(old(Snapshot()), instr)
    {
      var dr := Dr(instr);
      var v := Read(Add16(reg[Sr1(instr)], SignExtend(instr, 6)));
      reg[dr] := v;
      SetCC(dr);
    }

    method Lea(instr: bv16)
      requires Valid()
      modifies reg
      ensures Valid()
      ensures Snapshot() == ExecLea(old(Snapshot()), instr)
    {
      var dr := Dr(instr);
      reg[dr] := Add16(reg[PC], SignExtend(instr, 9));
      SetCC(dr);
    }

    method Not(instr: bv16)
      requires Valid()
      modifies reg
      ensures Valid()
      ensures Snapshot() == ExecNot(old(Snapshot()), instr)
    {
      var dr := Dr(instr);
      reg[dr] := !reg[Sr1(instr)];
      SetCC(dr);
    }

    method St(instr: bv16)
      requires Valid()
      modifies this`output, mem
      ensures Valid()
      ensures Snapshot() == ExecSt(old(Snapshot()), instr)
    {
      Write(Add16(reg[PC], SignExtend(instr, 9)), reg[Dr(instr)]);
    }

    method Sti(instr: bv16)
      requires Valid()
      modifies this`input, this`output, mem
      ensures Valid()
      ensures Snapshot() == ExecSti(old(Snapshot()), instr)
    {
      var a := Read(Add16(reg[PC], SignExtend(instr, 9)));
      Write(a, reg[Dr(instr)]);
    }

    method Str(instr: bv16)
      requires Valid()
      modifies this`output, mem
      ensures Valid()
      ensures Snapshot() == ExecStr(old(Snapshot()), instr)
    {
      Write(Add16(reg[Sr1(instr)], SignExtend(instr, 6)), reg[Dr(instr)]);
    }

    method Trap(instr: bv16)
      requires Valid() && (TrapVector(instr) == TRAP_GETC ==> |input| > 0)
      modifies this`input, reg
      ensures Valid()
      ensures Snapshot() == ExecTrap(old(Snapshot()), instr)
    {
      var vector := TrapVector(instr);
      if vector == TRAP_GETC {
        reg[R0] := input[0] as bv16;
        input := input[1..];
      } else {
        reg[R7] := reg[PC];
        var target := Read(vector);
        reg[PC] := target;
      }
    }

    // ---- Run loop ----

    /** One pass of the loop body: fetch the word at PC, advancing PC past
        it, and execute it. A GETC that finds no input is not executed: the
        pass reports `blocked`, where the source waits for a key. A pass that
        blocks or faults is where a run with `fuel` passes left ends; one
        that succeeds leaves the rest of the run to the new state, with one
        pass less. */
    method Pass(ghost fuel: nat) returns (blocked: bool, res: RunResult)
      requires Valid() && Running(Snapshot()) && fuel > 0
      modifies this`input, this`output, mem, reg
      ensures Valid()
      ensures blocked ==> Machine.Run(old(Snapshot()), fuel) == (AwaitingInput, Snapshot())
      ensures !blocked && res != RunSuccess ==> Machine.Run(old(Snapshot()), fuel) == (Finished(UnimplementedOpcode), Snapshot())
      ensures !blocked && res == RunSuccess ==> Machine.Run(old(Snapshot()), fuel) == Machine.Run(Snapshot(), fuel - 1)
    {
      ghost var s := Snapshot();
      Properties.CycleState(s);
      var pc := reg[PC];
      reg[PC] := Add16(pc, 1);
      assert Snapshot() == SetReg(s, PC, Add16(pc, 1));
      var instr := Read(pc);
      assert (instr, Snapshot()) == Fetch(s);
      blocked := IsGetc(instr) && |input| == 0;
      if blocked {
        Properties.RunAfterPass(s, Snapshot(), blocked, RunSuccess, fuel);
        return blocked, RunSuccess;
      }
      res := Step(instr);
      Properties.RunAfterPass(s, Snapshot(), blocked, res, fuel);
    }

    /** One turn of the run loop: test MCR's run bit, then make a pass
        unless the machine has halted or the fuel is spent. A turn that
        stops says how the run ends; one that goes on leaves the rest of
        the run to the new state with one unit of fuel less. */
    method Turn(fuel: nat) returns (stop: bool, outcome: RunOutcome)
      requires Valid()
      modifies this`input, this`output, mem, reg
      ensures Valid()
      ensures stop ==> (outcome, Snapshot()) == Machine.Run(old(Snapshot()), fuel)
      ensures !stop ==> fuel > 0 && Machine.Run(old(Snapshot()), fuel) == Machine.Run(Snapshot(), fuel - 1)
    {
      ghost var s := Snapshot();
      var status := Read(MCR);
      if status & STATUS_BIT == 0 {
        Properties.RunWhenHalted(s, fuel);
        return true, Finished(RunSuccess);
      }
      if fuel == 0 {
        Properties.RunOutOfFuel(s);
        return true, OutOfFuel;
      }
      var blocked, res := Pass(fuel);
      if blocked {
        return true, AwaitingInput;
      }
      if res != RunSuccess {
        return true, Finished(res);
      }
      return false, OutOfFuel;
    }

    /** Runs while MCR's run bit is set, executing at most `fuel`
        instructions; the first fault ends the run. */
    method Run(fuel: nat) returns (outcome: RunOutcome)
      requires Valid()
      modifies this`input, this`output, mem, reg
      ensures Valid()
      ensures (outcome, Snapshot()) == Machine.Run(old(Snapshot()), fuel)
    {
      var remaining := fuel;
      while true
        invariant Valid()
        invariant Machine.Run(Snapshot(), remaining) == Machine.Run(old(Snapshot()), fuel)
        decreases remaining
      {
        var stop;
        stop, outcome := Turn(remaining);
        if stop {
          return;
        }
        remaining := remaining - 1;
      }
    }
  }
}
