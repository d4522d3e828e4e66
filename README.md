# A verified model of the RV32IM chip simulator

The model covers the chip layer of a cycle-level RV32IM simulator. The machine is
built from clocked chips. Each chip has two steps. `compute` reads its input
wires and stages a pending value. `clk` commits that value to its output wire.
Everything is modelled: the storage primitives (D flip-flop, register, register
file, program counter), the decoder, the ALU and the execute stage, the ROM, the
RAM, the memory map, the memory stage, the fetch stage, and the CPU that steps
fetch, decode, execute and the PC in a fixed order.

Modelling decisions:

- A word is a `bv32`. The source's `Wrapping<u32>` arithmetic wraps, and so does
  `bv32` arithmetic.
- Signed readings (`as i32`) and the 64-bit products of MULH, MULHSU and MULHU
  are stated over `int`, then cast back with `FromInt`.
- A wire (`RefCell`) that several chips name is one shared `Wire<T>` object, as
  the source's comments intend. A register's output is its flip-flop's output.
  The PC's output is what the fetch stage reads. The ROM's output is both the
  fetch stage's instruction and the decoder's input.
- Input ports that only the owning chip writes are plain fields.
- A panic of the source is a `Fail(fault)` outcome, and the method returns at
  that point. There are five faults: an index out of range, `alu` returning
  `None`, an unknown funct7, the i32 division overflow, and a misaligned branch
  target.
- Arithmetic is that of a release build: `!imm + 1` and `pc + 1` wrap.
- Each chip is a class. `compute` and `clk` are methods specified against pure
  state functions (`DffCompute`, `RegCompute`, `NextPc`, `DecodeWord`, `Issue`,
  `Loaded`). The lemmas state the source's promises about those functions.

Behaviour the model keeps, as the code has it:

- When bit 31 is set, every immediate is the two's-complement negation of its
  reconstructed magnitude. This is not sign extension: `ImmIVersusSignExtension`
  says exactly when the two agree.
- The word 0xFFF00093 (`addi x1, x0, -1`) decodes to imm_i 0xFFFFF801 and
  funct7 0x7F.
- OP-IMM dispatches on funct7 too, so that word makes the ALU panic
  (`AddiMinusOnePanics`).
- A not-taken branch loads the current PC, and a branch never sets the PC's load
  flag.
- The PC increments by 1.
- AUIPC loads the PC instead of writing rd.
- STORE takes its source register from the rd field.
- The execute stage never steps its own output flip-flop, so its output stays
  the default request. `Execution.Execute.Clk` states this.
- Unlike the RISC-V ISA, the code advances the PC by 1 and sends a not-taken
  branch to the current PC rather than to PC + 4. It also forms negative
  immediates as 0 minus the field, so 0xFFF00093 is not ADDI -1
  (`Decoder.ImmIVersusSignExtension`, `Execution.AddiMinusOnePanics`).

## Model

| member | source | states |
|---|---|---|
| Chips.ToSigned | src/chips/execute.rs:113-114 | `x as i32` lies in the i32 range, is negative exactly when bit 31 is set, and is zero only for the zero word |
| Chips.ToSignedMin | src/chips/execute.rs:183 | the i32 reading is i32::MIN exactly for 0x80000000 |
| Chips.ToSignedMinusOne | src/chips/execute.rs:183 | the i32 reading is -1 exactly for 0xFFFFFFFF |
| Chips.Index | src/chips/execute.rs:53-62 | a field read as a `usize` index is 0 exactly when the field is the zero word, so only x0 reaches the slot that `get` resets |
| Chips.IndexOfSmall | src/chips/execute.rs:53-62 | a field below 32, such as a decoded register number, indexes the slot of its own number |
| Chips.Mux2Laws | src/chips.rs:27-32 | `mux2(a, b, true) = b`, `mux2(a, b, false) = a`, and `mux2(a, a, s) = a` |
| Chips.Wire.constructor | src/chips.rs:25 | a new wire holds the value it was given |
| Dff.DffRoundTrip | src/chips/dff.rs:29-35 | `compute` then `clk` publishes the input seen at `compute` and keeps the input |
| Dff.DffComputeKeepsOutput | src/chips/dff.rs:29-35 | `compute` never changes the output; `clk` changes neither the input nor the pending value |
| Dff.DffIdempotent | src/chips/dff.rs:29-35 | repeating `compute`, or repeating `clk`, has no further effect |
| Dff.DffCompute | src/chips/dff.rs:29-31 | the state function of `compute`: the pending value becomes the input (its laws are the three rows above) |
| Dff.DffClk | src/chips/dff.rs:33-35 | the state function of `clk`: the output becomes the pending value |
| Dff.DFF.constructor | src/chips/dff.rs:16-22 | the pending value starts at the default; the input and output are the given ones |
| Dff.DFF.Compute | src/chips/dff.rs:29-31 | the pending value becomes the input; the output wire is unchanged |
| Dff.DFF.Clk | src/chips/dff.rs:33-35 | the output wire becomes the pending value; nothing else changes |
| Registers.RegHolds | src/chips/register.rs:47-60 | with load clear, `compute; clk` keeps the output |
| Registers.RegLoads | src/chips/register.rs:47-60 | with load set, `compute; clk` makes the output the input |
| Registers.RegComputeLaws | src/chips/register.rs:47-55 | `compute` never changes the output, and repeating it changes nothing more |
| Registers.RegCompute | src/chips/register.rs:47-55 | the state function of `compute`: the pending value becomes `mux2(output, input, load)` (its laws are the rows above) |
| Registers.RegClk | src/chips/register.rs:57-60 | the state function of `clk`: the output becomes the pending value |
| Registers.Register.constructor | src/chips/register.rs:16-23 | the flip-flop is fresh and wired to the given output; input and load are the given ones |
| Registers.Register.Default | src/chips/register.rs:30-40 | a default register has input 0, output 0, pending value 0 and load clear, on fresh wires |
| Registers.Register.Compute | src/chips/register.rs:47-55 | the flip-flop's input is `mux2(output, input, load)`, and its pending value becomes that |
| Registers.Register.Clk | src/chips/register.rs:57-60 | the output becomes the pending value |
| RegisterFile.RegFile.constructor | src/chips/register_file.rs:15-21 | `new(n)` builds n separate default registers |
| RegisterFile.RegFile.Get | src/chips/register_file.rs:23-28 | `get(0)` replaces slot 0 with a fresh default register and returns it; `get(i)` for i ≠ 0 changes no slot; an index at or beyond the size is a fault |
| RegisterFile.RegFile.StageSlot | src/chips/memory_access.rs:47-51 | driving a slot's input and load, then stepping it, moves that slot to its staged `RegCompute` state and leaves every other slot unchanged |
| RegisterFile.RegFile.ClockSlot | src/chips/memory_access.rs:54-58 | `get(k)` then `clk` commits slot k, which is a fresh default register when k = 0; an index beyond the size is a fault; no other slot changes |
| RegisterFile.RegFile.Compute | src/chips/register_file.rs:35-37 | every slot takes its `RegCompute` state, and no object outside the file changes |
| RegisterFile.RegFile.Clk | src/chips/register_file.rs:39-41 | every slot takes its `RegClk` state, and no object outside the file changes |
| ProgramCounter.NextPc | src/chips/pc.rs:35-43 | reset forces 0; otherwise load takes the input; otherwise inc gives output + 1, wrapping; otherwise the output holds |
| ProgramCounter.ResetDominates | src/chips/pc.rs:35-36 | with reset set, the next value is 0 whatever the other inputs are |
| ProgramCounter.NextPcChoices | src/chips/pc.rs:35-43 | the next value is one of 0, the input, the successor, or the held value |
| ProgramCounter.PC.constructor | src/chips/pc.rs:15-30 | the inner register is always load-enabled, starts with input 0, and shares the PC's output wire |
| ProgramCounter.PC.Compute | src/chips/pc.rs:34-47 | the inner register's input and pending value become `NextPc` of the controls and the current output; the output does not change |
| ProgramCounter.PC.Clk | src/chips/pc.rs:49-51 | the output becomes the pending value |
| Decoder.BitRange | src/chips/decode.rs:21-24 | `bit_range(v, msb, lsb)` is below 2^(msb-lsb+1) |
| Decoder.ImmediatePieces | src/chips/decode.rs:31-37 | each of the seven bit ranges the immediates use is the word shifted down and masked to its width |
| Decoder.DecodeWord | src/chips/decode.rs:45-58 | rd, rs1, rs2 and shamtw are below 32, funct3 below 8, funct7 and opcode below 128, and shamtw equals rs2 |
| Decoder.DecodeFields | src/chips/decode.rs:46-57 | opcode, rd, funct3, rs1, rs2 and funct7 are the word shifted down, reduced modulo 2 to their widths |
| Decoder.ImmediateI | src/chips/decode.rs:39-51 | imm_i is bits 30:20, negated when bit 31 is set |
| Decoder.ImmediateS | src/chips/decode.rs:40-52 | imm_s is bits 30:25 above bits 11:7, negated when bit 31 is set |
| Decoder.ImmediateB | src/chips/decode.rs:41-53 | imm_b is bit 7 at bit 11, bits 30:25 at 10:5 and bits 11:8 at 4:1, negated when bit 31 is set |
| Decoder.ImmediateU | src/chips/decode.rs:42-54 | imm_u is bits 30:12 in place, negated when bit 31 is set |
| Decoder.ImmediateJ | src/chips/decode.rs:43-55 | imm_j is bits 19:12 in place, bit 20 at 11 and bits 30:21 at 10:1, negated when bit 31 is set |
| Decoder.SignedCases | src/chips/decode.rs:51-55 | the bit-31 choice gives the magnitude when bit 31 is clear and 0 - magnitude, modulo 2^32, when it is set |
| Decoder.SignedEven | src/chips/decode.rs:53-55 | negation keeps an even magnitude even |
| Decoder.SignedPage | src/chips/decode.rs:54 | negation keeps a multiple of 4096 a multiple of 4096 |
| Decoder.ImmediatesPositive | src/chips/decode.rs:39-55 | with bit 31 clear, every immediate equals its format's magnitude |
| Decoder.ImmediatesNegative | src/chips/decode.rs:29-55 | with bit 31 set, every immediate equals 2^32 minus its magnitude, modulo 2^32 |
| Decoder.ImmediateAlignment | src/chips/decode.rs:41-55 | imm_b and imm_j are even and imm_u is a multiple of 4096, whatever bit 31 is |
| Decoder.ImmIVersusSignExtension | src/chips/decode.rs:51 | imm_i equals the sign-extended I immediate exactly when bit 31 is clear or bits 30:20 are 0x400 |
| Decoder.DecodeAddiMinusOne | src/chips/decode.rs:29-57 | 0xFFF00093 decodes to rd 1, rs1 0, opcode 0x13, funct7 0x7F and imm_i 0xFFFFF801, and fixes every other field |
| Decoder.Decode.constructor | src/chips/decode.rs:12-18 | the flip-flop is fresh, wired to the output, and starts with the default instruction |
| Decoder.Decode.Compute | src/chips/decode.rs:27-61 | the flip-flop's input and pending value become `DecodeWord` of the input word; the output is unchanged |
| Decoder.Decode.Clk | src/chips/decode.rs:63-65 | the output becomes the pending decoded instruction |
| ArithmeticLogic.BaseGroup | src/chips/execute.rs:155-166 | the funct7 = 0 group never panics, and returns `None` exactly for a funct3 of 8 or more |
| ArithmeticLogic.AlternateGroup | src/chips/execute.rs:167-172 | the funct7 = 0b0100000 group never panics, and returns `None` for every funct3 except SUB and SRA |
| ArithmeticLogic.MulDivGroup | src/chips/execute.rs:173-208 | the M group's only panic is the division overflow, raised only by DIV and REM (funct3 4 and 6), and it returns `None` exactly for a funct3 of 8 or more |
| ArithmeticLogic.Alu | src/chips/execute.rs:154-213 | `alu` panics only on an unknown funct7 or on the DIV/REM overflow, and the overflow comes only from funct7 1 with funct3 4 or 6 |
| ArithmeticLogic.Div | src/chips/execute.rs:179-185 | DIV by a nonzero divisor panics exactly for 0x80000000 by 0xFFFFFFFF; otherwise it is the truncated i32 quotient (`SignedDivision`) |
| ArithmeticLogic.Rem | src/chips/execute.rs:193-199 | REM by a nonzero divisor panics exactly for the same pair; otherwise it is the truncated i32 remainder (`SignedDivision`) |
| ArithmeticLogic.Mulh | src/chips/execute.rs:176 | MULH as written, through an i64 product; `MulhNoWrap` shows that it is the high word of the true product |
| ArithmeticLogic.Mulhsu | src/chips/execute.rs:177 | MULHSU as written; `MulhsuNoWrap` shows that it is the high word of the true product |
| ArithmeticLogic.Mulhu | src/chips/execute.rs:178 | MULHU as written, through a wrapping i64 product; `MulhuHighWord` shows that it is bits 63:32 of the unsigned product |
| ArithmeticLogic.Sra | src/chips/execute.rs:170 | SRA, `(x as i32) >> k`; `SraLowBits`, `SraNonNegative` and `SraNegative` show that it is the arithmetic shift |
| ArithmeticLogic.BaseGroupTotal | src/chips/execute.rs:155-166 | with funct7 = 0, all eight funct3 values give a value |
| ArithmeticLogic.Funct7Panics | src/chips/execute.rs:209-210 | `alu` panics on funct7 exactly when funct7 is outside {0, 0x20, 0x01} |
| ArithmeticLogic.UnsupportedExactly | src/chips/execute.rs:155-208 | `alu` returns `None` exactly for a funct3 the selected group lacks |
| ArithmeticLogic.SetLessThan | src/chips/execute.rs:159-160 | SLT and SLTU give 1 for a signed, respectively unsigned, less-than and 0 otherwise |
| ArithmeticLogic.ShiftAmounts | src/chips/execute.rs:158-162 | SLL and SRL shift by the amount modulo 32 |
| ArithmeticLogic.SraLowBits | src/chips/execute.rs:170 | SRA agrees with the logical shift on the bits that shift keeps |
| ArithmeticLogic.SraNonNegative | src/chips/execute.rs:170 | SRA of a word with bit 31 clear is the logical shift |
| ArithmeticLogic.SraNegative | src/chips/execute.rs:170 | SRA of a word with bit 31 set keeps bit 31 and sets every vacated high bit |
| ArithmeticLogic.DivisionIdentity | src/chips/execute.rs:183-197 | the truncating quotient and remainder recombine to the dividend; the remainder is smaller than the divisor and takes the dividend's sign |
| ArithmeticLogic.QuotientBound | src/chips/execute.rs:183 | the truncating quotient is never larger in magnitude than the dividend |
| ArithmeticLogic.QuotientOverflow | src/chips/execute.rs:183 | a quotient of two i32 values leaves the i32 range exactly for i32::MIN by -1 |
| ArithmeticLogic.DivideOverflowExactly | src/chips/execute.rs:183 | signed division of words overflows exactly for 0x80000000 by 0xFFFFFFFF |
| ArithmeticLogic.DivideByZero | src/chips/execute.rs:179-206 | DIV and DIVU by zero give MAX; REM and REMU by zero give rs1 |
| ArithmeticLogic.SignedDivision | src/chips/execute.rs:179-199 | with a nonzero divisor, DIV and REM panic exactly for 0x80000000 by 0xFFFFFFFF, and otherwise give the truncated quotient and remainder |
| ArithmeticLogic.MulhuHighWord | src/chips/execute.rs:178 | MULHU gives bits 63:32 of the unsigned product, even though the i64 product it computes can wrap |
| ArithmeticLogic.MulhNoWrap | src/chips/execute.rs:176 | MULH's signed product fits an i64, so its high word is bits 63:32 of the true product |
| ArithmeticLogic.MulhsuNoWrap | src/chips/execute.rs:177 | MULHSU's signed-by-unsigned product fits an i64 likewise |
| Execution.ShiftOutBit0 | src/chips/execute.rs:104 | `(x >> 1) << 1` clears bit 0, so the result is even |
| Execution.AluStep | src/chips/execute.rs:68-81 | the `.expect` on `alu`: a value goes to rd's input, `None` is an invalid-instruction panic, and a panic of `alu` propagates |
| Execution.BranchCondition | src/chips/execute.rs:110-117 | the branch table names no condition exactly for funct3 2, 3 and 8 or more |
| Execution.BranchStep | src/chips/execute.rs:107-123 | the branch's PC input and its two panics (`BranchEffect`, `BranchUnknownFunct3`) |
| Execution.Issue | src/chips/execute.rs:66-139 | the opcode dispatch: only OP, OP-IMM and BRANCH can panic, never with an index fault, and only BRANCH with a misaligned target |
| Execution.RdWrittenExactly | src/chips/execute.rs:66-139 | a value reaches rd's input exactly for OP, OP-IMM, LUI, JAL and JALR |
| Execution.PcLoadExactly | src/chips/execute.rs:89-123 | the PC's load flag is set exactly for AUIPC, JAL and JALR, and never for a branch |
| Execution.PcInputExactly | src/chips/execute.rs:89-123 | the PC's input is driven exactly for AUIPC, JAL, JALR and BRANCH |
| Execution.MemoryRequest | src/chips/execute.rs:124-138 | LOAD and STORE request the rd field at rs1 + imm_i and rs1 + imm_s, with store clear and set; every other opcode leaves the default request |
| Execution.UnknownOpcode | src/chips/execute.rs:138 | an opcode outside the nine recognised ones has no effect |
| Execution.Jumps | src/chips/execute.rs:94-106 | JAL links pc + 4 and loads pc + imm_j; JALR links pc + 4 and loads (rs1 + imm_i) with bit 0 cleared; both set the load flags |
| Execution.BranchConditionPairs | src/chips/execute.rs:110-117 | BEQ/BNE, BLT/BGE and BLTU/BGEU are complementary, and funct3 2 and 3 name no branch |
| Execution.BranchEffect | src/chips/execute.rs:107-123 | a branch drives the PC's input with pc + imm_b when taken and with the current PC when not, writes nothing else, and panics on a target that is not a multiple of 4 |
| Execution.BranchUnknownFunct3 | src/chips/execute.rs:110-117 | a branch whose funct3 is 2, 3 or 8 or more panics with "invalid instruction" |
| Execution.AddiMinusOnePanics | src/chips/execute.rs:73-81 | executing 0xFFF00093 panics on funct7 |
| Execution.Execute.constructor | src/chips/execute.rs:25-40 | the output flip-flop is fresh and wired to the output, with the default request as input and pending value; rd starts at 0 |
| Execution.Execute.Expected | src/chips/execute.rs:44-141 | what `compute` does, from the state before it: an index fault when rs1, rs2 or rd lies outside the file, and otherwise `Issue` on the values read (slot 0 reads 0) and the PC |
| Execution.Execute.DecodedNeverIndexFaults | src/chips/execute.rs:51-62 | with 32 registers, an instruction whose register fields are below 32, as every decoded one is, never makes `compute` fault on an index |
| Execution.Execute.ReadOperands | src/chips/execute.rs:51-62 | the three `get` calls fault exactly when an index is outside the file; rs1 and rs2 are what `Read` gave before the call, so slot 0 reads 0; only slot 0 changes, when one of the indices is 0 |
| Execution.Execute.Dispatch | src/chips/execute.rs:64-139 | rd is recorded; the outcome and the new state of rd's slot, the PC's ports and the request are those `Issue` gives |
| Execution.Execute.StageEffect | src/chips/execute.rs:66-140 | rd's slot takes the staged value, the PC's input and load flag take the effect's, and the request is the effect's |
| Execution.Execute.Compute | src/chips/execute.rs:44-141 | the step panics exactly when `Expected` stops, with its fault; otherwise rd, the request, the PC's ports and rd's slot follow the dispatch, and only slot 0 among the others changes |
| Execution.Execute.Clk | src/chips/execute.rs:143-151 | only the recorded rd is committed, slot 0 becoming a fresh register first; the output stays the default request |
| Rom.Loaded | src/chips/rom.rs:21-27 | after loading, word i is p[i] for every i the program reaches and keeps its old value beyond; the size does not change |
| Rom.LoadedLaws | src/chips/rom.rs:21-27 | loading the same program twice gives what one load gives, and an empty program changes nothing |
| Rom.ROM.constructor | src/chips/rom.rs:13-19 | `new(size)` holds size zero words |
| Rom.ROM.Load | src/chips/rom.rs:21-27 | the contents become `Loaded` of the old contents and the program, and the load faults exactly when the program is longer than the ROM |
| Rom.ROM.Compute | src/chips/rom.rs:31-33 | nothing changes |
| Rom.ROM.Clk | src/chips/rom.rs:35-38 | the output becomes the word at address / 4, and an address beyond the contents is a fault that leaves the output unchanged |
| Ram.WriteCycle | src/chips/ram.rs:49-65 | one word over one cycle: not visible before `clk`; after it, the input when load is set and the old word otherwise |
| Ram.RAM.constructor | src/chips/ram.rs:18-38 | `new(size)` builds size separate default words, with the recorded address 0 |
| Ram.RAM.Peek | src/chips/ram.rs:40-42 | `peek(a)` is word a >> 2, read without side effects; an address beyond the memory is a fault |
| Ram.RAM.Compute | src/chips/ram.rs:49-57 | the address is recorded; only word address >> 2 is staged, from the input and load ports; the output is unchanged |
| Ram.RAM.Clk | src/chips/ram.rs:59-65 | only the recorded word is committed, and the output becomes that word |
| MemoryMap.Select | src/chips/memory.rs:35-46 | an address goes to the screen exactly when it is 4 MiB or more, at offset address - 4 MiB; a lower one goes to the RAM unchanged |
| MemoryMap.ScreenOffsetBound | src/chips/memory.rs:40-41 | the screen offset's subtraction never wraps |
| MemoryMap.SelectInjective | src/chips/memory.rs:39-46 | distinct addresses land in distinct places |
| MemoryMap.Screen.constructor | src/chips/screen.rs:22 | the screen sink holds the given data and address ports, with no frame presented yet |
| MemoryMap.Screen.Clk | src/chips/screen.rs:71-74 | each clock of the screen presents one more frame; the count ignores the `app.wait()` test of the GUI loop |
| MemoryMap.Memory.constructor | src/chips/memory.rs:17-32 | the memory's output wire is the RAM's output wire |
| MemoryMap.Memory.Compute | src/chips/memory.rs:38-47 | from 4 MiB up the screen receives the offset address and the input and the RAM keeps its ports; below, the RAM receives the address and the input and the screen keeps its ports; the load port is not forwarded |
| MemoryMap.Memory.Clk | src/chips/memory.rs:49-52 | the RAM is clocked first: only its recorded word is committed and its output is that word; then the screen presents a frame; a RAM fault stops before the screen |
| MemoryStage.MemoryAccess.constructor | src/chips/memory_access.rs:14-21 | the stage holds the given request wire, register file and RAM, with rd 0 |
| MemoryStage.MemoryAccess.ReadSource | src/chips/memory_access.rs:33-41 | a store's value is the register read as `get` reads it, with slot 0 reading 0; it faults beyond the file |
| MemoryStage.MemoryAccess.StepRam | src/chips/memory_access.rs:42-43 | the RAM `compute` and `clk` once the ports are driven: the addressed word takes the input when load is set and is published; no other word and no register changes |
| MemoryStage.MemoryAccess.CycleRam | src/chips/memory_access.rs:27-43 | the RAM's ports are driven from the request; inside this one `compute`, a store is committed to word address >> 2 and a load publishes that word; no other word changes |
| MemoryStage.MemoryAccess.StageTarget | src/chips/memory_access.rs:45-51 | the target slot is stepped, with the given input and load set when there is one; no other slot changes |
| MemoryStage.MemoryAccess.Transfer | src/chips/memory_access.rs:42-51 | the RAM cycle followed by the target's step: a load stages the RAM's output into the target, a store gives it no new input |
| MemoryStage.MemoryAccess.Compute | src/chips/memory_access.rs:25-52 | the RAM address and load come from the request and rd is recorded; a store writes register rd into the RAM word; a load stages the RAM word into rd; faults come exactly from an index outside the file or the RAM |
| MemoryStage.MemoryAccess.Clk | src/chips/memory_access.rs:54-58 | only the register recorded by `compute` is committed |
| FetchStage.Fetch.constructor | src/chips/fetch.rs:15-21 | the instruction wire is the ROM's output wire |
| FetchStage.Fetch.Compute | src/chips/fetch.rs:25-29 | the ROM's address becomes the PC value, and the instruction is unchanged |
| FetchStage.Fetch.Clk | src/chips/fetch.rs:31-34 | the instruction becomes the ROM word at pc / 4, or the step faults beyond the ROM |
| Processor.CPU.constructor | src/chips/cpu.rs:18-39 | a PC with output 0, a 32-register file, and the stages wired so that the PC feeds fetch, the ROM feeds decode and decode feeds execute |
| Processor.CPU.ComputeFront | src/chips/cpu.rs:44-45 | fetch and decode `compute` set the ROM address to the PC and stage the decoded word, changing nothing the execute stage reads and no register |
| Processor.CPU.ExecuteStep | src/chips/cpu.rs:46 | the execute stage's `compute` acts on the decoded instruction: outcome, rd, the PC's ports, rd's slot staged with the issued value, slot 0 reset when x0 is read, other slots unchanged; nothing fetch, decode or the PC's register holds changes |
| Processor.CPU.PcStep | src/chips/cpu.rs:47 | the PC stages `NextPc` of its ports; no wire and no register changes |
| Processor.CPU.Compute | src/chips/cpu.rs:43-48 | in order fetch, decode, execute, PC: the ROM address is the PC of the previous `clk`; decode stages the word fetched then; execute acts on the instruction decoded then: rd's slot is staged with the value `Issue` gives it, slot 0 is reset when x0 is read, and every other slot is unchanged; the PC stages its next value; the PC's output does not change |
| Processor.CPU.ClkFront | src/chips/cpu.rs:51-52 | fetch and decode `clk`: the instruction becomes the ROM word at the address `compute` set, or the step faults; the decoder publishes its pending instruction; no register and no PC state changes |
| Processor.CPU.ClkBack | src/chips/cpu.rs:53-54 | execute and PC `clk`: rd's slot commits its pending value (slot 0 becomes a fresh register first), or the step faults; every other slot is unchanged; the PC publishes its pending value |
| Processor.CPU.Clk | src/chips/cpu.rs:50-55 | in the same order: the instruction becomes the ROM word at the address `compute` set; the decoder publishes its pending instruction; rd's slot commits and every other slot is unchanged; the PC publishes its pending value; faults come exactly from the ROM address or rd outside the file |

## Left out

- The screen window (`src/chips/screen.rs`): pixels, the GUI event loop and scaling. It is a write-only sink with an address port, a data port and a frame count. Its `compute` is not modelled.
- `src/main.rs`: the entry point, the program image and the endless loop.
- `println!` tracing in the execute and memory stages.
- `RefCell` borrow checking, including the nested borrow in AUIPC. Wires are plain shared cells.
- Copy semantics of `RefCell::clone`: each wire is one shared cell, as the source's comments intend.
- `Chip`'s default `compute` and `clk`: there are no traits here, and every chip supplies both methods. `ROM::compute` is the explicit no-op.
- ECALL and EBREAK: SYSTEM opcodes fall into the "no effect" case like any unknown opcode.
- Byte and half-word memory widths: loads and stores move whole words, and funct3 is ignored, as in the source.
- Debug-build overflow panics: arithmetic wraps as in a release build, including `!imm + 1` and `pc + 1`.
- `MAX` is not defined in the shown code, so it is an unspecified 32-bit constant.
- `Execute::new` arguments: `cpu.rs:25-31` passes five (the decoder's output, the RAM, the ROM, the register file and the PC), but `Execute::new` takes four (input, output, register file, PC). The model passes the decoder's output, a fresh request wire, the register file and the PC. The RAM and ROM arguments are dropped and the RAM is not used.
- `PC::default()` (`cpu.rs:19`): no file shown defines it. The model reads it as a PC with reset, load and inc clear, input 0 and a fresh output wire holding 0. Nothing in the core ever sets `inc`, so the CPU's PC never increments. It moves only when AUIPC, JAL or JALR loads it.
- The decoder's input (`cpu.rs:24`): the source passes `rom.clone()`, the wired ROM itself, where `Decode::new` expects a `Wire<U32>`. The model reads it as the ROM's output wire, the same cell the fetch stage exposes as its instruction.
- Execution.Execute.Compute: the write that resets the request to the default happens on each path instead of first. The source's other writes are reordered where they touch disjoint state. The final state is the same.
- MemoryStage.MemoryAccess.Compute: the store's register read happens before the RAM's ports are driven. They touch disjoint state, so the final state is the same.
- Processor.CPU.Compute: the PC's reset and increment controls keep their values, and the contract states the pending PC in terms of their current values.
- Decoder.BitRange: the bound is proved for every width. The `mod 2^width` identity is proved only at the seven widths the decoder uses (`ImmediatePieces`, `DecodeFields`), not for a symbolic width.
- ArithmeticLogic.MulDivGroup: MUL is the low word of the `bv32` product. It is not related to the integer product by a lemma.
- ArithmeticLogic.Sra: written branch-free as the logical shift with the vacated bits filled by the sign bit. `SraLowBits`, `SraNonNegative` and `SraNegative` state that it is the arithmetic shift.
- MemoryMap.Screen.Clk: the frame count is ghost, so the screen's effect is visible only to proofs. The count rises on every clock. It ignores the `app.wait()` test (`screen.rs:74`), which belongs to the GUI loop that is left out.
