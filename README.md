# LC-3 virtual machine in Dafny

A model of the LC-3 emulator core in `vm.c`: a 16-bit educational machine
with a word-addressed memory, eight general registers, a program counter and
a processor status register (PSR) holding one of the condition flags N, Z or
P. Four addresses are device registers of a console: the keyboard status
(KBSR, 0xFE00) and data (KBDR, 0xFE02) registers and the display status (DSR,
0xFE04) and data (DDR, 0xFE06) registers. The machine control register (MCR,
0xFFFE) holds the run bit (bit 15).

The project has four modules:

- `Bits` (`bits.dfy`): byte swapping, the big-endian reading of two bytes,
  and sign extension of an n-bit field, all on `bv16`. Arithmetic therefore
  wraps modulo 2^16 as the source's `uint16_t` arithmetic does.
- `Machine` (`machine.dfy`): the machine as values. It holds the `State`
  (memory, registers, console input queue and output log), the device bridge
  (`Read`, `Write`), the loader (`Load`), the executor (`Perform`, one
  function per opcode) and the run loop (`Run`). `Run` is bounded by fuel.
- `Properties` (`properties.dfy`): the behaviour the source promises, proved
  as lemmas about those functions.
- `Vm` (`vm.dfy`): class `Vm.Vm` performs the same operations in place.
  Memory and registers are `array<bv16>` fields, and the console is two
  sequence fields. Each method is proved to leave exactly the state that the
  matching `Machine` function describes.

The console is two sequences. `input` holds the characters not read yet: KBSR
reports whether it is non-empty, and KBDR and TRAP x20 (GETC) take its first
character. `output` logs every character written to DDR.

The run loop tests MCR's run bit before every fetch. It advances PC before
executing, so PC-relative addresses and saved return addresses use the
incremented PC. It stops at the first fault. `Run(s, fuel)` executes at most
`fuel` instructions. It reports `Finished(result)` when the source's loop
would return, and `OutOfFuel` when the fuel runs out first. It reports
`AwaitingInput` when a GETC finds no input; the source blocks in `getchar` at
that point.

In these places the model follows the code:

- `vm_setcc` replaces the whole PSR with the flag (vm.c:241). In the LC-3
  architecture the PSR also holds the privilege bit (bit 15) and the
  priority level (bits 10:8), which condition-code updates leave alone; here
  they are wiped.
- The loader accepts an image only when `origin + word_count < 65535`, a
  strict test against `VM_ADDR_MAX` (vm.c:211). The model takes the build in
  which the `assert` at vm.c:206 is compiled out, so an oversized image is
  reported as `InputTooLarge` and changes nothing.

The memory size is the one place where the model departs from the code: it
has one cell per 16-bit address (see Findings).

The host is assumed to be little-endian, so `swap16` of a host-order load
yields the big-endian word (`Bits.SwapHostWordIsBigEndian`).

## Model

| member | source | states |
|---|---|---|
| `Bits.Swap16` | vm.c:95-97 | the high byte of the result is the low byte of the input and the other way round |
| `Bits.Swap16Involutive` | vm.c:95-97 | swapping twice gives the word back |
| `Bits.SwapHostWordIsBigEndian` | vm.c:203 | swapping a little-endian load of two bytes gives their big-endian word |
| `Bits.HostWord` | vm.c:203 | a little-endian `uint16_t` load of bytes `b0, b1` has `b0` as its low byte and `b1` as its high byte |
| `Bits.BigEndian` | vm.c:203 | the big-endian word of `b0, b1` has `b0` as its high byte: `b0 * 256 + b1` modulo 2^16 |
| `Bits.BigEndianValue` | vm.c:203 | the big-endian word of `b0, b1` is `b0 * 256 + b1` |
| `Bits.SignExtend` | vm.c:99-103 | for 1 <= n <= 16, the result agrees with the input on its low n bits |
| `Bits.SignExtendKeepsField` | vm.c:99-103 | for 1 <= n <= 16, sign extension keeps the low n bits, so truncating gives the field back; every bit above is the field's sign bit n-1 |
| `Bits.SignExtendReplicatesSign` | vm.c:99-103 | each bit i with n <= i < 16 of the result equals bit n-1 of the input, so the result is negative exactly when the field's sign bit is set |
| `Bits.SignExtendReadsField` | vm.c:99-103 | the result depends on the low n bits of the input only: inputs that agree there extend to the same word |
| `Bits.SignExtendExamples` | vm.c:99-103 | `sextend(0b11111, 5) = 0xFFFF`, `sextend(0b01111, 5) = 0x000F`, and two 9-bit cases |
| `Bits.ToInt16` | vm.c:226-236 | the two's-complement reading of a word lies in [-2^15, 2^15); it is negative iff bit 15 is set and zero iff the word is zero |
| `Machine.Initial` | vm.c:107-115 | a new machine is well formed: memory and registers are zero except PC = 0x3000, PSR = Z and MCR = 0x8000 |
| `Vm.Vm.constructor` | vm.c:107-115 | the new object's state is `Machine.Initial` over fresh arrays |
| `Properties.InitialState` | vm.c:107-115 | a new machine is running, holds a single flag and starts at 0x3000 |
| `Machine.SignFlag` | vm.c:226-236 | the flag is exactly one of N, Z, P: Z iff the value is 0, N iff it is negative as a 16-bit signed number, P iff it is positive |
| `Vm.Vm.SetCC` | vm.c:238-242 | the PSR is replaced by the flag of the register and nothing else changes |
| `Machine.SetCC` | vm.c:238-242 | the PSR becomes the flag of register `r`, a single flag, and no other register, no memory and no console stream changes |
| `Properties.SetThenFlag` | vm.c:238-242 | setting a register and then the flags from it leaves the value in the register |
| `Machine.Read` | vm.c:123-153 | a read changes no memory, register or output, and consumes at most the first input character |
| `Vm.Vm.Read` | vm.c:123-153 | the in-place read returns and leaves what `Machine.Read` does |
| `Properties.ReadKeyboard` | vm.c:126-144 | KBSR reports whether input is waiting without consuming it; KBDR returns and consumes the next character when one waits, and reads as 0 otherwise |
| `Properties.ReadDisplay` | vm.c:145-150 | DSR reads 0x8000 and DDR reads 0, with no effect |
| `Properties.ReadMemory` | vm.c:152 | any other address reads its memory cell, with no effect |
| `Machine.Write` | vm.c:155-168 | a write changes no register or input, and appends at most the written value's low byte to output |
| `Vm.Vm.Write` | vm.c:155-168 | the in-place write leaves what `Machine.Write` does |
| `Properties.WriteReadOnlyDevice` | vm.c:158-160 | writes to KBSR, KBDR or DSR change nothing |
| `Properties.WriteDisplayPrints` | vm.c:161-165 | a write to DDR changes no memory or register and appends exactly one character, the value's low byte, to output |
| `Properties.WriteMemoryCell` | vm.c:167 | any other write changes exactly the addressed cell |
| `Properties.WriteMemory` | vm.c:167 | a write to any other address is a plain update of that cell |
| `Properties.WriteStores` | vm.c:155-168 | a write of `val` at a memory address puts `val` in that cell only; at DDR it appends the low byte of `val` to output; at KBSR, KBDR or DSR it changes nothing; it never changes a register or input |
| `Properties.ReadAfterWrite` | vm.c:152-167 | reading a non-device address returns the last value written there, 0xFFFF included; a write leaves every other address as it was |
| `Properties.CopiedStep` | vm.c:215-217 | copying one more word changes exactly the next cell after those already copied |
| `Machine.Origin` | vm.c:203 | the origin's high byte is `data[0]` and its low byte is `data[1]` |
| `Machine.WordCount` | vm.c:204 | the word count is `(length - 2) / 2`: two bytes per word fit after the origin, with at most one byte left over |
| `Machine.ImageWord` | vm.c:216 | image word i has `data[2 + 2i]` as its high byte and `data[3 + 2i]` as its low byte |
| `Properties.ImageWordValue` | vm.c:216 | image word i is `data[2 + 2i] * 256 + data[3 + 2i]` |
| `Machine.Copied` | vm.c:215-217 | placing k image words keeps the memory's size; `Properties.CopiedStep` and `Properties.LoadChangesOnlyImageAndPc` state which cells change |
| `Machine.Load` | vm.c:200-222 | a load leaves a well-formed state and the console untouched, and a rejected load (`InputTooLarge`) leaves the machine unchanged |
| `Vm.Vm.CopyImage` | vm.c:215-217 | the in-place copy loop puts image words `0 .. count` at cells `origin .. origin + count` and leaves every other cell as it was |
| `Vm.Vm.LoadData` | vm.c:200-222 | the in-place loader returns and leaves what `Machine.Load` does: it rejects before copying, then copies word by word and sets PC |
| `Properties.OriginValue` | vm.c:203 | the origin is `data[0] * 256 + data[1]` |
| `Properties.LoadAcceptsIff` | vm.c:204-213 | a load succeeds iff `origin + (length - 2) / 2 < 65535`; a rejected load leaves the machine unchanged |
| `Properties.LoadSucceeds` | vm.c:211-221 | a successful load passed the bound test, copied the image's words from the origin on and set PC to the origin |
| `Properties.LoadPlacesWord` | vm.c:215-217 | after a successful load, `mem[origin + i] = data[2 + 2i] * 256 + data[3 + 2i]` for every word i |
| `Properties.LoadChangesOnlyImageAndPc` | vm.c:215-219 | a successful load sets PC to the origin and changes no other register, no cell outside the image and neither console stream |
| `Properties.LoadKeepsFlag` | vm.c:219 | loading never disturbs a single flag in the PSR |
| `Machine.Decode` | vm.c:249 | the decoded opcode's 4-bit code is bits [15:12] of the instruction |
| `Machine.Dr` | vm.c:251 | the destination field names one of R0..R7 |
| `Machine.Sr1` | vm.c:252 | the first source or base field names one of R0..R7 |
| `Machine.Sr2` | vm.c:261 | the second source field names one of R0..R7 |
| `Machine.TrapVector` | vm.c:432 | the trap vector is below 0x100 |
| `Machine.ExecAdd` | vm.c:250-269 | ADD writes only the destination and the PSR, sets the PSR to the destination's flag, and leaves memory and console alone |
| `Machine.ExecAnd` | vm.c:271-290 | AND writes only the destination and the PSR, sets the PSR to the destination's flag, and leaves memory and console alone |
| `Machine.ExecBr` | vm.c:292-303 | BR changes no register but PC, and no memory or console |
| `Machine.ExecJmp` | vm.c:305-311 | JMP changes no register but PC, and no memory or console |
| `Machine.ExecJsr` | vm.c:313-337 | JSR changes no register but PC and R7, and no memory or console |
| `Machine.ExecLd` | vm.c:339-348 | LD writes only the destination and the PSR (the destination's flag), leaves memory alone and only moves the console forward |
| `Machine.ExecLdi` | vm.c:350-359 | LDI writes only the destination and the PSR (the destination's flag), leaves memory alone and only moves the console forward |
| `Machine.ExecLdr` | vm.c:361-371 | LDR writes only the destination and the PSR (the destination's flag), leaves memory alone and only moves the console forward |
| `Machine.ExecLea` | vm.c:373-382 | LEA writes only the destination and the PSR (the destination's flag), and leaves memory and console alone |
| `Machine.ExecNot` | vm.c:384-393 | NOT writes only the destination and the PSR (the destination's flag), and leaves memory and console alone |
| `Machine.ExecSt` | vm.c:400-408 | ST changes no register and only moves the console forward |
| `Machine.ExecSti` | vm.c:410-418 | STI changes no register and only moves the console forward |
| `Machine.ExecStr` | vm.c:420-429 | STR changes no register and only moves the console forward |
| `Machine.ExecTrap` | vm.c:431-446 | TRAP changes no register but R0, R7 and PC, keeps the PSR and memory, and only moves the console forward |
| `Machine.ExecGetc` | vm.c:435-438 | GETC changes no register but R0, consumes input only, and leaves memory and output alone |
| `Machine.ExecTrapVector` | vm.c:439-443 | a vectored trap changes no register but R7 and PC, and no memory |
| `Properties.AddWrites` | vm.c:250-269 | ADD writes `sr1 + sextend(imm5)` when bit 5 is set and `sr1 + sr2` otherwise, modulo 2^16, to the destination |
| `Properties.AndWrites` | vm.c:271-290 | AND writes `sr1 & sextend(imm5)` when bit 5 is set and `sr1 & sr2` otherwise to the destination |
| `Properties.NotWrites` | vm.c:384-393 | NOT writes the complement of the source register to the destination |
| `Properties.NotTwice` | vm.c:384-393 | NOT applied twice to one register gives its value back |
| `Properties.LeaWrites` | vm.c:373-382 | LEA writes the address `PC + sextend(offset9)` itself to the destination |
| `Properties.JmpTarget` | vm.c:305-311 | JMP sets PC to the base register's value |
| `Properties.LdReads` | vm.c:339-348 | LD writes the word read through the device bridge at `PC + sextend(offset9)` to the destination |
| `Properties.LdReadsMemory` | vm.c:339-348 | at a memory address LD writes that cell's word and leaves the console alone |
| `Properties.LdiReads` | vm.c:350-359 | LDI writes to the destination what the bridge reads at the pointer that the bridge reads at `PC + sextend(offset9)`, devices included |
| `Properties.LdiReadsPointer` | vm.c:350-359 | with the pointer cell in memory, LDI writes what the bridge reads at the address that cell holds (a console register included), and the console moves only as that read moves it |
| `Properties.LdiReadsMemory` | vm.c:350-359 | when neither the pointer cell nor its target is a device, LDI writes the target cell's word and leaves the console alone |
| `Properties.LdiPollsKeyboard` | vm.c:350-359 | LDI through a memory cell holding KBSR returns 0x8000 when input is waiting and 0 otherwise, and consumes nothing |
| `Properties.LdrReads` | vm.c:361-371 | LDR writes the word read through the device bridge at `base + sextend(offset6)` to the destination |
| `Properties.LdrReadsMemory` | vm.c:361-371 | at a memory address LDR writes that cell's word and leaves the console alone |
| `Properties.StWrites` | vm.c:400-408 | ST stores the source register at `PC + sextend(offset9)`: the cell receives it at a memory address, DDR prints its low byte, KBSR, KBDR and DSR ignore it; no register changes |
| `Properties.StiWrites` | vm.c:410-418 | when the pointer cell at `PC + sextend(offset9)` is memory, STI stores the source register where the pointer points, with the same device cases as ST |
| `Properties.StrWrites` | vm.c:420-429 | STR stores the source register at `base + sextend(offset6)`, with the same device cases as ST |
| `Properties.StoreThenLoad` | vm.c:339-408 | an ST followed by an LD with the same 9-bit offset from the same PC reads the stored register back at every memory address |
| `Machine.Perform` | vm.c:244-454 | executing an instruction leaves a well-formed state and faults (`UnimplementedOpcode`) exactly for RTI and the reserved opcode |
| `Vm.Vm.Step` | vm.c:244-454 | executing an instruction in place returns and leaves what `Machine.Perform` does |
| `Vm.Vm.Add` | vm.c:250-269 | in-place ADD leaves what `Machine.ExecAdd` does |
| `Vm.Vm.And` | vm.c:271-290 | in-place AND leaves what `Machine.ExecAnd` does |
| `Vm.Vm.Br` | vm.c:292-303 | in-place BR leaves what `Machine.ExecBr` does |
| `Vm.Vm.Jmp` | vm.c:305-311 | in-place JMP leaves what `Machine.ExecJmp` does |
| `Vm.Vm.Jsr` | vm.c:313-337 | in-place JSR leaves what `Machine.ExecJsr` does |
| `Vm.Vm.Ld` | vm.c:339-348 | in-place LD leaves what `Machine.ExecLd` does |
| `Vm.Vm.Ldi` | vm.c:350-359 | in-place LDI leaves what `Machine.ExecLdi` does |
| `Vm.Vm.Ldr` | vm.c:361-371 | in-place LDR leaves what `Machine.ExecLdr` does |
| `Vm.Vm.Lea` | vm.c:373-382 | in-place LEA leaves what `Machine.ExecLea` does |
| `Vm.Vm.Not` | vm.c:384-393 | in-place NOT leaves what `Machine.ExecNot` does |
| `Vm.Vm.St` | vm.c:400-408 | in-place ST leaves what `Machine.ExecSt` does |
| `Vm.Vm.Sti` | vm.c:410-418 | in-place STI leaves what `Machine.ExecSti` does |
| `Vm.Vm.Str` | vm.c:420-429 | in-place STR leaves what `Machine.ExecStr` does |
| `Vm.Vm.Trap` | vm.c:431-446 | in-place TRAP leaves what `Machine.ExecTrap` does |
| `Properties.PerformOperateCases` | vm.c:249-393 | ADD, AND, LEA and NOT succeed with their case's effect |
| `Properties.PerformLoadCases` | vm.c:339-371 | LD, LDI and LDR succeed with their case's effect |
| `Properties.PerformStoreCases` | vm.c:400-429 | ST, STI and STR succeed with their case's effect |
| `Properties.PerformControlCases` | vm.c:292-337 | BR, JMP, JSR and TRAP succeed with their case's effect; RTI and RESERVED fail and change nothing |
| `Properties.PerformFaults` | vm.c:395-398 | a faulting instruction (RTI or RESERVED) changes nothing |
| `Properties.PerformConsole` | vm.c:244-454 | no instruction takes back output or returns input |
| `Properties.PerformConditionCode` | vm.c:226-242 | ADD, AND, LD, LDI, LDR, LEA and NOT replace the PSR by the written register's flag; every other instruction keeps the PSR |
| `Properties.ConditionCodeAfterWrite` | vm.c:267-390 | after ADD, AND, LD, LDI, LDR, LEA or NOT the PSR is exactly one flag: Z iff the written register is 0, N iff its bit 15 is set |
| `Properties.PerformKeepsFlag` | vm.c:244-454 | no instruction takes the PSR out of the three flag values |
| `Properties.Branch` | vm.c:292-303 | BR adds `sextend(instr, 9)` to PC, modulo 2^16, iff `(PSR & 7) & instr[11:9] != 0`, and otherwise changes nothing; it never changes another register, memory or console |
| `Properties.BranchTakenIff` | vm.c:293-298 | with a single flag in the PSR, BR is taken iff bit 11 is set and the flag is N, bit 10 and Z, or bit 9 and P |
| `Properties.JumpToSubroutine` | vm.c:313-337 | after JSR, R7 holds the PC on entry and PC is either PC + `sextend(offset11)` or the base register's value read before R7 is overwritten |
| `Properties.JumpToSubroutineThroughR7` | vm.c:326-334 | JSRR through R7 jumps to R7's old value and leaves the old PC in R7 |
| `Properties.GetcReadsOneCharacter` | vm.c:435-438 | TRAP x20 puts exactly the next input character in R0, consumes it, and changes no other register and no output |
| `Properties.TrapThroughVectorTable` | vm.c:439-443 | any other TRAP sets R7 to PC and PC to `mem[trapvect8]`, and changes no other register and no console stream |
| `Machine.Fetch` | vm.c:460 | the fetch increments PC modulo 2^16, changes no other register or memory, and only moves the console forward |
| `Machine.Cycle` | vm.c:460-464 | a pass leaves a well-formed state; `Properties.CycleState` states what it does |
| `Properties.FetchMemory` | vm.c:460 | fetching from a memory address reads that cell and only advances PC |
| `Properties.CycleState` | vm.c:460-464 | a pass stops at a GETC that finds no input right after the fetch; otherwise it ends where `vm_perform` leaves the fetched state, continuing on success |
| `Properties.CycleExecutes` | vm.c:460-464 | a pass over any instruction but RTI, RESERVED and GETC continues from the executor's result on the incremented PC |
| `Properties.CycleFaults` | vm.c:460-463 | a pass over RTI or RESERVED faults with only PC advanced |
| `Properties.CycleBlocks` | vm.c:437 | a pass over GETC with no input stops right after the fetch |
| `Properties.CycleConsole` | vm.c:459-464 | a pass only moves the console forward |
| `Properties.CycleKeepsFlag` | vm.c:459-464 | a pass keeps a single flag in the PSR |
| `Vm.Vm.Pass` | vm.c:460-464 | the in-place pass leaves the rest of the run to the new state with one pass less when it succeeds, and ends the run when it blocks or faults |
| `Vm.Vm.Turn` | vm.c:459-464 | one turn of the in-place loop either ends the run the way `Machine.Run` does (halted, out of fuel, waiting, faulted) or leaves the rest of the run to the new state with one unit of fuel less |
| `Vm.Vm.Run` | vm.c:456-468 | the in-place run loop returns and leaves what `Machine.Run` does |
| `Properties.IterateStep` | vm.c:459-464 | one iteration of a running loop with fuel left: go on from the pass's state, or stop on a fault or a wait |
| `Machine.Iterate` | vm.c:459-467 | a loop that reports success stopped because its guard was false, and one that runs out of fuel stops with the guard still true |
| `Machine.Run` | vm.c:456-468 | a run that reports success stopped because MCR's run bit was clear, and one that runs out of fuel stops with the bit still set |
| `Properties.IterateSplit` | vm.c:459-465 | running out of fuel and then going on is the same as one longer run |
| `Properties.IterateEndIsFinal` | vm.c:459-467 | once a loop has ended for any reason but fuel, more fuel changes nothing |
| `Properties.IterateKeeps` | vm.c:459-465 | a property every pass keeps holds when the loop ends |
| `Properties.RunWhenHalted` | vm.c:459 | with MCR's run bit clear the loop fetches nothing and reports success |
| `Properties.RunningIsMcrBit` | vm.c:459 | the loop's guard is bit 15 of memory cell 0xFFFE |
| `Properties.RunOutOfFuel` | vm.c:459 | a running machine with no fuel left stops unchanged |
| `Properties.RunStopsAtUnimplemented` | vm.c:460-463 | fetching RTI or RESERVED ends the run with `UnimplementedOpcode`, and the only effect of that pass is the advanced PC |
| `Properties.RunAwaitsInput` | vm.c:437 | a GETC fetched with no input suspends the run right after the fetch |
| `Properties.RunAfterPass` | vm.c:459-464 | after one pass a run goes on from the pass's state with one pass less, or ends there on a fault or a wait |
| `Properties.RunSplit` | vm.c:459-465 | running out of fuel and then going on is the same as one longer run |
| `Properties.RunEndIsFinal` | vm.c:459-467 | once a run has ended for any reason but fuel, more fuel changes nothing |
| `Properties.RunConsole` | vm.c:459-465 | over a whole run output is only appended to and input only consumed from the front |
| `Properties.RunKeepsFlag` | vm.c:459-465 | the PSR holds a single flag throughout a run that starts with one |
| `Properties.LoadImage` | vm.c:200-222 | loading `[0x30,0x00, 0x50,0x20, 0x10,0x25]` into a new machine puts 0x5020 at 0x3000 and 0x1025 at 0x3001 and sets PC to 0x3000 |
| `Properties.ClearR0` | vm.c:271-290 | `AND R0,R0,#0` clears R0 and sets Z |
| `Properties.AddFive` | vm.c:250-269 | `ADD R0,R0,#5` on R0 = 0 leaves 5 and sets P |
| `Properties.PassClearR0` | vm.c:460-464 | the first pass over that image executes `AND R0,R0,#0` at 0x3000 |
| `Properties.PassAddFive` | vm.c:460-464 | the second pass executes `ADD R0,R0,#5` at 0x3001 |
| `Properties.RunClearAndAdd` | vm.c:456-468 | two passes over `AND R0,R0,#0; ADD R0,R0,#5` leave R0 = 5 and PSR = P |
| `Properties.LoadAndRunTwoInstructions` | vm.c:200-222 | loading that image into a new machine and running two instructions leaves R0 = 5 and PSR = P |
| `Properties.SourceAccessOutOfBounds` | vm.c:89 | address 0xFFFF is not a device, so `vm_read` and `vm_write` index `mem[0xFFFF]`, one past the 65535 cells allocated |

## Left out

- `vm_load_file` (vm.c:175-198) opens, `fstat`s and `mmap`s a file. This is operating-system I/O; only `vm_load_data` over a byte sequence is modelled.
- `vm_load_os` (vm.c:170-173) loads an embedded operating-system image, which is not part of this model.
- `vm_destroy` and a failing `calloc` in `vm_create` are allocation details and are not modelled.
- The `DEBUG_TRACE` output is not modelled.
- `main.c` is not part of this model: argument checking, terminal raw mode, the interrupt handler and the exit-code mapping are process and terminal plumbing. `vm.h` holds prototypes only.
- Console calls (`select`, `getchar`, `putchar`, `fflush`) are replaced by the `input` and `output` sequences. `getchar` returning EOF is not modelled.
- A blocking `getchar` is not modelled. With no input, a GETC is not executed and `Run` reports `AwaitingInput`. `Machine.Perform` and `Vm.Vm.Step` require a character to be waiting for GETC.
- `Machine.Run` and `Vm.Vm.Run` are bounded by fuel, because a program may loop forever. A run that would go on past the fuel reports `OutOfFuel`.
- `vm_load_data` with fewer than two bytes reads past the buffer and underflows the word count (vm.c:203-204). `Machine.Load` and `Vm.Vm.LoadData` require at least two bytes. An odd trailing byte is ignored, as in the source.
- Memory has 65536 cells, not the 65535 the source allocates; see Findings. The loader's bound test is kept as written, so an image must still end below 0xFFFF.

## Findings

| source | as written | input that shows it | evidently intended | confidence | as-written member | corrected member |
|---|---|---|---|---|---|---|
| vm.c:32, vm.c:89, vm.c:152, vm.c:167 | `mem` has `VM_ADDR_MAX = UINT16_MAX` = 65535 cells, but `vm_read` and `vm_write` pass every non-device 16-bit address to `mem[addr]`. With `struct vm_impl` laid out as declared (vm.c:88-91), the word past the end of `mem` is `reg[0]`, so a store to 0xFFFF overwrites R0 and a load from 0xFFFF reads R0 | address 0xFFFF, reached by any load, store or fetch there (e.g. `LDR` with base 0xFFFF and offset 0) | one cell per 16-bit address, 65536 cells, so that 0xFFFF is ordinary memory | not executed; high | `Properties.SourceAccessOutOfBounds` | `Properties.ReadAfterWrite` |
