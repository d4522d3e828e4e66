/** The execute stage: reads rs1 and rs2 from the register file, stages the
    result on rd's input port, drives the program counter's input and load
    ports, and prepares a load/store request (`IOCode`) for the memory stage. */
module Execution {
  import opened Chips
  import opened Dff
  import opened Registers
  import opened RegisterFile
  import opened ProgramCounter
  import opened Decoder
  import opened ArithmeticLogic

  /** A memory request: the register to fill or drain, the byte address, and
      whether it is a store. */
  datatype IOCode = IOCode(register: U32, address: U32, store: bool)

  /** `IOCode::default()`: no store, register 0, address 0. */
  const DefaultIOCode := IOCode(0, 0, false)

  // Opcodes the stage recognises (bits 6:0).
  const OP: U32 := 0x33
  const OP_IMM: U32 := 0x13
  const LUI: U32 := 0x37
  const AUIPC: U32 := 0x17
  const JAL: U32 := 0x6F
  const JALR: U32 := 0x67
  const BRANCH: U32 := 0x63
  const LOAD: U32 := 0x03
  const STORE: U32 := 0x23

  /** What one `compute` asks of the rest of the machine: a value for rd's input
      (with rd's load flag set), a value for the PC's input, whether the PC's
      load flag is set, and the request staged for the memory stage. */
  datatype Effect = Effect(rdInput: Option<U32>, pcInput: Option<U32>, pcLoad: bool, io: IOCode)

  /** Nothing written: the effect of an unrecognised opcode. */
  const NoEffect := Effect(None, None, false, DefaultIOCode)

  /** Either a panic of `compute`, or the effect it has. */
  datatype StepResult = Stop(fault: Fault) | Proceed(effect: Effect)

  /** The `.expect` on `alu`'s result: a value is written to rd; `None` panics. */
  function AluStep(r: AluResult): StepResult
  {
    match r
    case Value(v) => Proceed(NoEffect.(rdInput := Some(v)))
    case Unsupported => Stop(InvalidInstruction)
    case Panic(f) => Stop(f)
  }

  /** The branch condition selected by funct3, or `None` for the panicking funct3s. */
  function BranchCondition(funct3: U32, rs1: U32, rs2: U32): (r: Option<bool>)
    ensures r.None? <==> funct3 == 2 || funct3 == 3 || funct3 >= 8
  {
    if funct3 == 0 then Some(rs1 == rs2)
    else if funct3 == 1 then Some(rs1 != rs2)
    else if funct3 == 4 then Some(ToSigned(rs1) < ToSigned(rs2))
    else if funct3 == 5 then Some(ToSigned(rs1) >= ToSigned(rs2))
    else if funct3 == 6 then Some(rs1 < rs2)
    else if funct3 == 7 then Some(rs1 >= rs2)
    else None
  }

  /** Shifting right then left by one: the word with bit 0 cleared, hence even. */
  function ShiftOutBit0(x: U32): (r: U32)
    ensures r == x & 0xFFFF_FFFE
    ensures r % 2 == 0
  {
    (x >> 1) << 1
  }

  /** JALR's target: `(rs1 + imm_i >> 1) << 1`. */
  function JalrTarget(rs1: U32, immI: U32): U32
  {
    ShiftOutBit0(Add(rs1, immI))
  }

  /** Whether a word is a multiple of four. */
  predicate Aligned(x: U32)
  {
    x % 4 == 0
  }

  /** The branch's address: the target `pc + imm_b` when taken, the current PC
      otherwise; a target that is not word-aligned panics. */
  function BranchStep(funct3: U32, rs1: U32, rs2: U32, pc: U32, immB: U32): StepResult
  {
    match BranchCondition(funct3, rs1, rs2)
    case None => Stop(InvalidInstruction)
    case Some(taken) =>
      var finalAddr := Mux2(pc, Add(pc, immB), taken);
      if !Aligned(finalAddr) then Stop(AddressMisaligned)
      else Proceed(NoEffect.(pcInput := Some(finalAddr)))
  }

  /** The opcode dispatch of `Execute::compute`, given the decoded instruction,
      the two register values read and the PC. */
  function Issue(inst: Instruction, rs1: U32, rs2: U32, pc: U32): (r: StepResult)
    ensures r.Stop? ==> inst.opcode == OP || inst.opcode == OP_IMM || inst.opcode == BRANCH
    ensures r.Stop? ==> r.fault != IndexFault
    ensures r.Stop? && r.fault == AddressMisaligned ==> inst.opcode == BRANCH
  {
    var op := inst.opcode;
    if op == OP then AluStep(Alu(inst.funct3, inst.funct7, rs1, rs2, rs2))
    else if op == OP_IMM then AluStep(Alu(inst.funct3, inst.funct7, rs1, inst.shamtw, inst.immI))
    else if op == LUI then Proceed(NoEffect.(rdInput := Some(inst.immU)))
    else if op == AUIPC then Proceed(NoEffect.(pcInput := Some(Add(pc, inst.immU)), pcLoad := true))
    else if op == JAL then Proceed(Effect(Some(Add(pc, 4)), Some(Add(pc, inst.immJ)), true, DefaultIOCode))
    else if op == JALR then Proceed(Effect(Some(Add(pc, 4)), Some(JalrTarget(rs1, inst.immI)), true, DefaultIOCode))
    else if op == BRANCH then BranchStep(inst.funct3, rs1, rs2, pc, inst.immB)
    else if op == LOAD then Proceed(NoEffect.(io := IOCode(inst.rd, Add(rs1, inst.immI), false)))
    else if op == STORE then Proceed(NoEffect.(io := IOCode(inst.rd, Add(rs1, inst.immS), true)))
    else Proceed(NoEffect)
  }

  /** The values `compute` reads for rs1 and rs2, and rd's register. */
  datatype Operands = Operands(rs1: U32, rs2: U32)

  /** Only OP, OP-IMM, LUI, JAL and JALR write rd. */
  lemma RdWrittenExactly(inst: Instruction, rs1: U32, rs2: U32, pc: U32)
    requires Issue(inst, rs1, rs2, pc).Proceed?
    ensures Issue(inst, rs1, rs2, pc).effect.rdInput.Some? <==>
      inst.opcode == OP || inst.opcode == OP_IMM || inst.opcode == LUI || inst.opcode == JAL || inst.opcode == JALR
  {
  }

  /** Only AUIPC, JAL and JALR set the PC's load flag: a branch does not. */
  lemma PcLoadExactly(inst: Instruction, rs1: U32, rs2: U32, pc: U32)
    requires Issue(inst, rs1, rs2, pc).Proceed?
    ensures Issue(inst, rs1, rs2, pc).effect.pcLoad <==>
      inst.opcode == AUIPC || inst.opcode == JAL || inst.opcode == JALR
  {
  }

  /** AUIPC, JAL, JALR and BRANCH drive the PC's input, and nothing else does. */
  lemma PcInputExactly(inst: Instruction, rs1: U32, rs2: U32, pc: U32)
    requires Issue(inst, rs1, rs2, pc).Proceed?
    ensures Issue(inst, rs1, rs2, pc).effect.pcInput.Some? <==>
      inst.opcode == AUIPC || inst.opcode == JAL || inst.opcode == JALR || inst.opcode == BRANCH
  {
  }

  /** LOAD and STORE request rd (the rd field in both cases) at rs1 plus the I,
      respectively S, immediate; every other opcode leaves the default request. */
  lemma MemoryRequest(inst: Instruction, rs1: U32, rs2: U32, pc: U32)
    requires Issue(inst, rs1, rs2, pc).Proceed?
    ensures inst.opcode == LOAD ==>
      Issue(inst, rs1, rs2, pc).effect.io == IOCode(inst.rd, Add(rs1, inst.immI), false)
    ensures inst.opcode == STORE ==>
      Issue(inst, rs1, rs2, pc).effect.io == IOCode(inst.rd, Add(rs1, inst.immS), true)
    ensures inst.opcode != LOAD && inst.opcode != STORE ==>
      Issue(inst, rs1, rs2, pc).effect.io == DefaultIOCode
  {
  }

  /** An opcode outside the nine recognised ones changes nothing. */
  lemma UnknownOpcode(inst: Instruction, rs1: U32, rs2: U32, pc: U32)
    requires inst.opcode != OP && inst.opcode != OP_IMM && inst.opcode != LUI && inst.opcode != AUIPC
    requires inst.opcode != JAL && inst.opcode != JALR && inst.opcode != BRANCH
    requires inst.opcode != LOAD && inst.opcode != STORE
    ensures Issue(inst, rs1, rs2, pc) == Proceed(NoEffect)
  {
  }

  /** JAL links pc + 4 into rd and loads pc + imm_j; JALR links the same and
      loads its target. Neither touches memory. */
  lemma Jumps(inst: Instruction, rs1: U32, rs2: U32, pc: U32)
    ensures inst.opcode == JAL ==>
      Issue(inst, rs1, rs2, pc) == Proceed(Effect(Some(Add(pc, 4)), Some(Add(pc, inst.immJ)), true, DefaultIOCode))
    ensures inst.opcode == JALR ==>
      Issue(inst, rs1, rs2, pc) == Proceed(Effect(Some(Add(pc, 4)), Some(JalrTarget(rs1, inst.immI)), true, DefaultIOCode))
  {
  }

  /** The branch conditions come in complementary pairs: BEQ/BNE, BLT/BGE, BLTU/BGEU;
      funct3 2 and 3 name no branch. */
  lemma BranchConditionPairs(rs1: U32, rs2: U32)
    ensures BranchCondition(0, rs1, rs2).Some? && BranchCondition(1, rs1, rs2).Some?
    ensures BranchCondition(0, rs1, rs2).value == !BranchCondition(1, rs1, rs2).value
    ensures BranchCondition(4, rs1, rs2).Some? && BranchCondition(5, rs1, rs2).Some?
    ensures BranchCondition(4, rs1, rs2).value == !BranchCondition(5, rs1, rs2).value
    ensures BranchCondition(6, rs1, rs2).Some? && BranchCondition(7, rs1, rs2).Some?
    ensures BranchCondition(6, rs1, rs2).value == !BranchCondition(7, rs1, rs2).value
    ensures BranchCondition(2, rs1, rs2).None? && BranchCondition(3, rs1, rs2).None?
  {
  }

  /** A branch drives the PC's input with the target when taken and with the
      current PC when not, writes nothing else, and a misaligned result panics. */
  lemma BranchEffect(inst: Instruction, rs1: U32, rs2: U32, pc: U32)
    requires inst.opcode == BRANCH && BranchCondition(inst.funct3, rs1, rs2).Some?
    ensures var taken := BranchCondition(inst.funct3, rs1, rs2).value;
      var finalAddr := if taken then Add(pc, inst.immB) else pc;
      Issue(inst, rs1, rs2, pc) ==
        if Aligned(finalAddr) then Proceed(Effect(None, Some(finalAddr), false, DefaultIOCode))
        else Stop(AddressMisaligned)
  {
  }

  /** A branch whose funct3 names no condition panics with "invalid instruction". */
  lemma BranchUnknownFunct3(inst: Instruction, rs1: U32, rs2: U32, pc: U32)
    requires inst.opcode == BRANCH
    requires inst.funct3 == 2 || inst.funct3 == 3 || inst.funct3 >= 8
    ensures Issue(inst, rs1, rs2, pc) == Stop(InvalidInstruction)
  {
  }

  /** `addi x1, x0, -1` does not execute: its decoded funct7 is 0x7F, so the ALU panics. */
  lemma AddiMinusOnePanics(rs1: U32, rs2: U32, pc: U32)
    ensures Issue(DecodeWord(0xFFF0_0093), rs1, rs2, pc) == Stop(UnrecognisedFunct7)
  {
    DecodeAddiMinusOne();
  }

  /** The execute stage. It shares the register file and the PC with the rest of
      the CPU. Its own flip-flop `out` is wired to `output`, but `compute` never
      steps that flip-flop, so its pending value stays the default request. */
  class Execute {
    const input: Wire<Instruction>
    const output: Wire<IOCode>
    const regFile: RegFile
    const pc: PC
    const out: DFF<IOCode>
    /** The destination register recorded by `compute`, clocked by `clk`. */
    var rd: U32

    ghost predicate Valid()
      reads this, regFile, pc, pc.register, out
    {
      && regFile.Valid() && pc.Valid()
      && out.output == output && out.nextValue == DefaultIOCode
      && pc !in regFile.Repr && pc.register !in regFile.Repr
      && pc.register.dff !in regFile.Repr && pc.output !in regFile.Repr
      && this !in regFile.Repr && out !in regFile.Repr
      && output !in regFile.Repr && input !in regFile.Repr
    }

    /** What `compute` does, as a function of the state before it: an index
        fault when rs1, rs2 or rd is outside the register file, and otherwise the
        opcode dispatch on the values read (slot 0 reads 0) and the PC's output. */
    ghost function Expected(): StepResult
      requires Valid()
      reads this, input, regFile, regFile.Repr, pc, pc.register, pc.output, out
    {
      var inst := input.value;
      var n := |regFile.registers|;
      if Index(inst.rs1) >= n || Index(inst.rs2) >= n || Index(inst.rd) >= n then Stop(IndexFault)
      else Issue(inst, regFile.Read(Index(inst.rs1)), regFile.Read(Index(inst.rs2)), pc.output.value)
    }

    /** With the CPU's 32 registers, an instruction whose register fields are
        below 32, as every decoded one is, never faults on a register index:
        `compute` can stop only through the ALU, the branch table or alignment. */
    lemma DecodedNeverIndexFaults()
      requires Valid() && |regFile.registers| == 32
      requires input.value.rs1 < 32 && input.value.rs2 < 32 && input.value.rd < 32
      ensures Expected() != Stop(IndexFault)
    {
      IndexOfSmall(input.value.rs1);
      IndexOfSmall(input.value.rs2);
      IndexOfSmall(input.value.rd);
    }

    /** `Execute::new(input, output, reg_file, pc)`: `out` starts with the default
        request as input and pending value; rd starts at 0. */
    constructor (input: Wire<Instruction>, output: Wire<IOCode>, regFile: RegFile, pc: PC)
      requires regFile.Valid() && pc.Valid()
      requires pc !in regFile.Repr && pc.register !in regFile.Repr
      requires pc.register.dff !in regFile.Repr && pc.output !in regFile.Repr
      requires output !in regFile.Repr && input !in regFile.Repr
      ensures Valid() && fresh(out)
      ensures this.input == input && this.output == output && this.regFile == regFile && this.pc == pc
      ensures rd == 0 && out.input == DefaultIOCode
    {
      this.input := input;
      this.output := output;
      this.regFile := regFile;
      this.pc := pc;
      out := new DFF(DefaultIOCode, output, DefaultIOCode);
      rd := 0;
    }

    /** The three `get` calls of `compute`, in order, at the indices of rs1, rs2
        and rd. Each resets slot 0 when its index is 0; an index outside the file
        is a fault. On success, the values read are those `Expected` uses, the
        register returned is rd's slot, and no other slot changes. */
    method ReadOperands(i1: nat, i2: nat, i3: nat) returns (r: Option<Operands>)
      requires Valid()
      modifies regFile
      ensures Valid()
      ensures regFile.Repr >= old(regFile.Repr) && fresh(regFile.Repr - old(regFile.Repr))
      ensures |regFile.registers| == old(|regFile.registers|)
      ensures r.None? <==> (i1 >= |regFile.registers| || i2 >= |regFile.registers| || i3 >= |regFile.registers|)
      ensures r.Some? ==>
        && r.value.rs1 == old(regFile.Read(i1))
        && r.value.rs2 == old(regFile.Read(i2))
      ensures r.Some? ==> forall k :: 0 <= k < |regFile.registers| ==>
        regFile.SlotState(k) == if k == 0 && (i1 == 0 || i2 == 0 || i3 == 0) then DefaultState else old(regFile.SlotState(k))
    {
      var r1 := regFile.Get(i1);
      if r1.None? {
        return None;
      }
      var rs1 := r1.value.output.value;
      var r2 := regFile.Get(i2);
      if r2.None? {
        return None;
      }
      var rs2 := r2.value.output.value;
      var r3 := regFile.Get(i3);
      if r3.None? {
        return None;
      }
      r := Some(Operands(rs1, rs2));
    }

    /** The opcode dispatch of `compute` once the operands are read: records rd,
        and either stops with the arm's panic or stages the arm's effect. */
    method Dispatch(inst: Instruction, rs1: U32, rs2: U32, k: nat) returns (outcome: Outcome)
      requires Valid() && k < |regFile.registers|
      modifies regFile.Repr, this`rd, pc`input, pc`load, out`input
      ensures Valid() && rd == inst.rd
      ensures regFile.Repr == old(regFile.Repr) && regFile.registers == old(regFile.registers)
      ensures var step := Issue(inst, rs1, rs2, old(pc.output.value));
        && (outcome.Fail? <==> step.Stop?)
        && (outcome.Fail? ==> outcome.fault == step.fault)
      ensures outcome.Pass? ==>
        var e := Issue(inst, rs1, rs2, old(pc.output.value)).effect;
        && regFile.SlotState(k) == RegCompute(Staged(old(regFile.SlotState(k)), e.rdInput))
        && pc.input == (if e.pcInput.Some? then e.pcInput.value else old(pc.input))
        && pc.load == (old(pc.load) || e.pcLoad)
        && out.input == e.io
      ensures forall j :: 0 <= j < |regFile.registers| && j != k ==> regFile.SlotState(j) == old(regFile.SlotState(j))
    {
      var step := Issue(inst, rs1, rs2, pc.output.value);
      rd := inst.rd;
      if step.Stop? {
        out.input := DefaultIOCode;
        return Fail(step.fault);
      }
      StageEffect(k, step.effect);
      outcome := Pass;
    }

    /** Drives the ports an effect names: rd's slot `k` (stepped afterwards), the
        PC's input and load, and `out`'s input. No other slot changes. */
    method StageEffect(k: nat, e: Effect)
      requires Valid() && k < |regFile.registers|
      modifies regFile.Repr, pc`input, pc`load, out`input
      ensures Valid()
      ensures regFile.Repr == old(regFile.Repr) && regFile.registers == old(regFile.registers)
      ensures regFile.SlotState(k) == RegCompute(Staged(old(regFile.SlotState(k)), e.rdInput))
      ensures forall j :: 0 <= j < |regFile.registers| && j != k ==> regFile.SlotState(j) == old(regFile.SlotState(j))
      ensures pc.input == (if e.pcInput.Some? then e.pcInput.value else old(pc.input))
      ensures pc.load == (old(pc.load) || e.pcLoad)
      ensures out.input == e.io
    {
      regFile.StageSlot(k, e.rdInput);
      if e.pcInput.Some? {
        pc.input := e.pcInput.value;
      }
      if e.pcLoad {
        pc.load := true;
      }
      out.input := e.io;
    }

    /** `compute`: resets `out`'s input, reads the operands, records rd, applies
        the effect of the opcode's arm (`Issue`) to rd's ports, the PC's ports and
        `out`'s input, and finally steps rd. A panic of the source is a `Fail`
        outcome, exactly when `Expected()` stops. */
    method Compute() returns (outcome: Outcome)
      requires Valid()
      modifies this, out`input, regFile, regFile.Repr, pc`input, pc`load
      ensures Valid()
      ensures regFile.Repr >= old(regFile.Repr) && fresh(regFile.Repr - old(regFile.Repr))
      ensures |regFile.registers| == old(|regFile.registers|)
      ensures outcome.Fail? <==> old(Expected()).Stop?
      ensures outcome.Fail? ==> outcome.fault == old(Expected()).fault
      ensures outcome.Pass? ==>
        var inst := old(input.value);
        var e := old(Expected()).effect;
        && rd == inst.rd
        && out.input == e.io
        && pc.input == (if e.pcInput.Some? then e.pcInput.value else old(pc.input))
        && pc.load == (old(pc.load) || e.pcLoad)
        && regFile.SlotState(Index(inst.rd)) ==
             RegCompute(Staged(if Index(inst.rd) == 0 then DefaultState else old(regFile.SlotState(Index(inst.rd))), e.rdInput))
      ensures outcome.Pass? ==>
        var inst := old(input.value);
        forall k :: 0 <= k < |regFile.registers| && k != Index(inst.rd) ==>
          regFile.SlotState(k) ==
            if k == 0 && (Index(inst.rs1) == 0 || Index(inst.rs2) == 0) then DefaultState else old(regFile.SlotState(k))
    {
      ghost var expected := Expected();
      var inst := input.value;
      var i3 := Index(inst.rd);
      var operands := ReadOperands(Index(inst.rs1), Index(inst.rs2), i3);
      if operands.None? {
        out.input := DefaultIOCode;
        return Fail(IndexFault);
      }
      ghost var staged := regFile.SlotState(i3);
      assert staged == if i3 == 0 then DefaultState else old(regFile.SlotState(i3));
      assert Issue(inst, operands.value.rs1, operands.value.rs2, pc.output.value) == expected;
      label Staging:
      outcome := Dispatch(inst, operands.value.rs1, operands.value.rs2, i3);
      forall k | 0 <= k < |regFile.registers| && k != i3
        ensures regFile.SlotState(k) ==
          if k == 0 && (Index(inst.rs1) == 0 || Index(inst.rs2) == 0) then DefaultState else old(regFile.SlotState(k))
      {
        assert regFile.SlotState(k) == old@Staging(regFile.SlotState(k));
      }
    }

    /** `clk`: `get(rd)` (which resets slot 0 when rd is 0), clock that register,
        then clock `out`, whose published value is always the default request. */
    method Clk() returns (outcome: Outcome)
      requires Valid()
      modifies regFile, regFile.Repr, output
      ensures Valid()
      ensures regFile.Repr >= old(regFile.Repr) && fresh(regFile.Repr - old(regFile.Repr))
      ensures |regFile.registers| == old(|regFile.registers|)
      ensures outcome.Fail? <==> Index(rd) >= |regFile.registers|
      ensures outcome.Fail? ==> outcome.fault == IndexFault
      ensures outcome.Pass? ==>
        && output.value == DefaultIOCode
        && regFile.SlotState(Index(rd)) ==
             RegClk(if Index(rd) == 0 then DefaultState else old(regFile.SlotState(Index(rd))))
      ensures outcome.Pass? ==>
        forall k :: 0 <= k < |regFile.registers| && k != Index(rd) ==>
          regFile.SlotState(k) == old(regFile.SlotState(k))
    {
      outcome := regFile.ClockSlot(Index(rd));
      if outcome.Fail? {
        return;
      }
      out.Clk();
    }
  }
}
