/** The CPU: fetch, decode and execute chips around a PC and a 32-register file.
    Every chip is stepped in order by `compute` and then clocked in the same
    order by `clk`, so a chip reads what the chip before it published at the
    previous clock edge. */
module Processor {
  import opened Chips
  import opened Registers
  import opened RegisterFile
  import opened Rom
  import opened Ram
  import opened ProgramCounter
  import opened Decoder
  import opened Execution
  import opened FetchStage

  class CPU {
    const fetch: Fetch
    const decode: Decode
    const execute: Execute
    const pc: PC

    /** The wiring `CPU::new` builds: the PC's output drives the fetch stage,
        the ROM's output is the decoder's input, the decoder's output is the
        execute stage's input, and the execute stage owns this PC. Distinct
        chips own distinct objects (the ROM, the flip-flops and the wires are
        neither shared with each other nor part of the register file). */
    ghost predicate Valid()
      reads this, fetch, decode, execute, execute.regFile, execute.pc, execute.pc.register, execute.out
    {
      && execute.Valid() && fetch.Valid() && decode.Valid()
      && execute.pc == pc && fetch.pc == pc.output
      && decode.input == fetch.rom.output && execute.input == decode.output
      && fetch.rom.output != pc.output && fetch.rom.output !in execute.regFile.Repr
      && fetch.rom !in execute.regFile.Repr && fetch.rom.registers !in execute.regFile.Repr
      && decode.out !in execute.regFile.Repr
      && decode.out as object != execute.out && decode.out as object != pc.register.dff
      && decode.output as object != fetch.rom.output && decode.output as object != pc.output
      && execute.output as object != fetch.rom.output && execute.output as object != pc.output
      && execute.output as object != decode.output
    }

    /** `CPU::new(ram, rom)`: a default PC (output 0), a 32-register file, and
        the three stages wired as `Valid` describes. The RAM is not used. */
    constructor (ram: RAM, rom: ROM)
      ensures Valid() && fetch.rom == rom
      ensures pc.Value() == 0 && |execute.regFile.registers| == 32
      ensures decode.output.value == DefaultInstruction && execute.rd == 0
    {
      var pcOutput := new Wire<U32>(0);
      var pc := new PC(0, false, false, false, pcOutput);
      var regFile := new RegFile(32);
      var decoded := new Wire<Instruction>(DefaultInstruction);
      var request := new Wire<IOCode>(DefaultIOCode);
      fetch := new Fetch(pc.output, rom);
      decode := new Decode(rom.output, decoded);
      execute := new Execute(decoded, request, regFile, pc);
      this.pc := pc;
    }

    /** The fetch and decode part of `compute`: the ROM's address becomes the
        PC and the decoder stages the fetched word; nothing the execute stage
        reads changes. */
    method ComputeFront()
      requires Valid()
      modifies fetch.rom`address, decode.out
      ensures Valid()
      ensures fetch.rom.address == pc.Value()
      ensures decode.out.nextValue == DecodeWord(fetch.instruction.value)
      ensures execute.Expected() == old(execute.Expected())
      ensures unchanged(pc, pc.output) && decode.output.value == old(decode.output.value)
      ensures fetch.instruction.value == old(fetch.instruction.value)
      ensures execute.regFile.registers == old(execute.regFile.registers)
      ensures forall k :: 0 <= k < |execute.regFile.registers| ==>
        execute.regFile.SlotState(k) == old(execute.regFile.SlotState(k))
    {
      fetch.Compute();
      decode.Compute();
    }

    /** The execute part of `compute`: the execute stage acts on the decoded
        instruction and drives the PC's input and load ports. Nothing the fetch
        stage, the decoder or the PC's register holds changes. */
    method ExecuteStep() returns (outcome: Outcome)
      requires Valid()
      modifies execute, execute.out`input, execute.regFile, execute.regFile.Repr, pc`input, pc`load
      ensures Valid()
      ensures fetch.rom.address == old(fetch.rom.address) && pc.Value() == old(pc.Value())
      ensures fetch.instruction.value == old(fetch.instruction.value)
      ensures decode.out.nextValue == old(decode.out.nextValue)
      ensures decode.output.value == old(decode.output.value)
      ensures outcome.Fail? <==> old(execute.Expected()).Stop?
      ensures outcome.Fail? ==> outcome.fault == old(execute.Expected()).fault
      ensures outcome.Pass? ==>
        var e := old(execute.Expected()).effect;
        && execute.rd == old(decode.output.value).rd
        && pc.input == (if e.pcInput.Some? then e.pcInput.value else old(pc.input))
        && pc.load == (old(pc.load) || e.pcLoad)
      ensures |execute.regFile.registers| == old(|execute.regFile.registers|)
      ensures outcome.Pass? ==>
        var inst := old(decode.output.value);
        var k := Index(inst.rd);
        execute.regFile.SlotState(k) ==
          RegCompute(Staged(if k == 0 then DefaultState else old(execute.regFile.SlotState(k)),
                            old(execute.Expected()).effect.rdInput))
      ensures outcome.Pass? ==>
        var inst := old(decode.output.value);
        forall k :: 0 <= k < |execute.regFile.registers| && k != Index(inst.rd) ==>
          execute.regFile.SlotState(k) ==
            if k == 0 && (Index(inst.rs1) == 0 || Index(inst.rs2) == 0) then DefaultState
            else old(execute.regFile.SlotState(k))
    {
      outcome := execute.Compute();
    }

    /** The PC's part of `compute`: it stages its next value from its ports;
        no wire changes. */
    method PcStep()
      requires Valid()
      modifies pc.register, pc.register.dff
      ensures Valid()
      ensures pc.register.dff.nextValue == NextPc(pc.reset, pc.load, pc.inc, pc.input, pc.Value())
      ensures pc.Value() == old(pc.Value()) && fetch.instruction.value == old(fetch.instruction.value)
      ensures decode.out.nextValue == old(decode.out.nextValue) && decode.output.value == old(decode.output.value)
      ensures unchanged(fetch.rom, pc, execute)
      ensures execute.regFile.registers == old(execute.regFile.registers)
      ensures forall k :: 0 <= k < |execute.regFile.registers| ==>
        execute.regFile.SlotState(k) == old(execute.regFile.SlotState(k))
    {
      pc.Compute();
    }

    /** `compute`: the ROM's address becomes the current PC, the decoder stages
        the word fetched at the previous edge, the execute stage acts on the
        instruction decoded at the previous edge (a fault stops the cycle), and
        the PC stages its next value from the ports the execute stage set. No
        output wire changes, the PC's included. */
    method Compute() returns (outcome: Outcome)
      requires Valid()
      modifies fetch.rom`address, decode.out, execute, execute.out`input, execute.regFile, execute.regFile.Repr
      modifies pc`input, pc`load, pc.register, pc.register.dff
      ensures Valid()
      ensures fetch.rom.address == old(pc.Value()) && pc.Value() == old(pc.Value())
      ensures fetch.instruction.value == old(fetch.instruction.value)
      ensures decode.out.nextValue == DecodeWord(old(fetch.instruction.value))
      ensures decode.output.value == old(decode.output.value)
      ensures outcome.Fail? <==> old(execute.Expected()).Stop?
      ensures outcome.Fail? ==> outcome.fault == old(execute.Expected()).fault
      ensures outcome.Pass? ==>
        var e := old(execute.Expected()).effect;
        && execute.rd == old(decode.output.value).rd
        && pc.input == (if e.pcInput.Some? then e.pcInput.value else old(pc.input))
        && pc.load == (old(pc.load) || e.pcLoad)
        && pc.register.dff.nextValue == NextPc(pc.reset, pc.load, pc.inc, pc.input, pc.Value())
      ensures |execute.regFile.registers| == old(|execute.regFile.registers|)
      ensures outcome.Pass? ==>
        var inst := old(decode.output.value);
        var k := Index(inst.rd);
        execute.regFile.SlotState(k) ==
          RegCompute(Staged(if k == 0 then DefaultState else old(execute.regFile.SlotState(k)),
                            old(execute.Expected()).effect.rdInput))
      ensures outcome.Pass? ==>
        var inst := old(decode.output.value);
        forall k :: 0 <= k < |execute.regFile.registers| && k != Index(inst.rd) ==>
          execute.regFile.SlotState(k) ==
            if k == 0 && (Index(inst.rs1) == 0 || Index(inst.rs2) == 0) then DefaultState
            else old(execute.regFile.SlotState(k))
    {
      ComputeFront();
      outcome := ExecuteStep();
      if outcome.Pass? {
        PcStep();
      }
    }

    /** The fetch and decode part of `clk`: the instruction becomes the ROM
        word at the address `compute` set (a fault beyond the ROM stops here),
        then the decoder publishes what it staged. The register file, the
        execute stage and the PC do not change. */
    method ClkFront() returns (outcome: Outcome)
      requires Valid()
      modifies fetch.rom.output, decode.output
      ensures Valid()
      ensures outcome.Fail? <==> WordIndex(fetch.rom.address) >= fetch.rom.registers.Length
      ensures outcome.Fail? ==> outcome.fault == IndexFault
      ensures outcome.Pass? ==>
        && fetch.instruction.value == fetch.rom.registers[WordIndex(fetch.rom.address)]
        && decode.output.value == old(decode.out.nextValue)
      ensures unchanged(execute, pc, pc.register, pc.register.dff, pc.output)
      ensures execute.regFile.registers == old(execute.regFile.registers)
      ensures forall k :: 0 <= k < |execute.regFile.registers| ==>
        execute.regFile.SlotState(k) == old(execute.regFile.SlotState(k))
    {
      outcome := fetch.Clk();
      if outcome.Fail? {
        return;
      }
      decode.Clk();
    }

    /** The execute and PC part of `clk`: the destination register recorded by
        `compute` is committed (a fault beyond the file stops here), then the
        PC publishes its staged value. The fetched instruction and the decoded
        one do not change. */
    method ClkBack() returns (outcome: Outcome)
      requires Valid()
      modifies execute.regFile, execute.regFile.Repr, execute.output, pc.output
      ensures Valid()
      ensures outcome.Fail? <==> Index(execute.rd) >= |execute.regFile.registers|
      ensures outcome.Fail? ==> outcome.fault == IndexFault
      ensures outcome.Pass? ==>
        && execute.output.value == DefaultIOCode
        && pc.Value() == old(pc.register.dff.nextValue)
      ensures fetch.instruction.value == old(fetch.instruction.value)
      ensures decode.output.value == old(decode.output.value)
      ensures |execute.regFile.registers| == old(|execute.regFile.registers|)
      ensures outcome.Pass? ==>
        var k := Index(execute.rd);
        execute.regFile.SlotState(k) == RegClk(if k == 0 then DefaultState else old(execute.regFile.SlotState(k)))
      ensures outcome.Pass? ==>
        forall k :: 0 <= k < |execute.regFile.registers| && k != Index(execute.rd) ==>
          execute.regFile.SlotState(k) == old(execute.regFile.SlotState(k))
    {
      outcome := execute.Clk();
      if outcome.Fail? {
        return;
      }
      pc.Clk();
    }

    /** `clk`: the fetch stage publishes the ROM word at the address `compute`
        set (a fault beyond the ROM stops the cycle), the decoder publishes what
        it staged, the execute stage clocks its destination register, and the PC
        publishes its staged value. */
    method Clk() returns (outcome: Outcome)
      requires Valid()
      modifies fetch.rom.output, decode.output, execute.regFile, execute.regFile.Repr, execute.output, pc.output
      ensures Valid()
      ensures outcome.Fail? <==>
        WordIndex(fetch.rom.address) >= fetch.rom.registers.Length || Index(execute.rd) >= |execute.regFile.registers|
      ensures outcome.Fail? ==> outcome.fault == IndexFault
      ensures outcome.Pass? ==>
        && fetch.instruction.value == fetch.rom.registers[WordIndex(fetch.rom.address)]
        && decode.output.value == old(decode.out.nextValue)
        && execute.output.value == DefaultIOCode
        && pc.Value() == old(pc.register.dff.nextValue)
      ensures |execute.regFile.registers| == old(|execute.regFile.registers|)
      ensures outcome.Pass? ==>
        var k := Index(execute.rd);
        execute.regFile.SlotState(k) == RegClk(if k == 0 then DefaultState else old(execute.regFile.SlotState(k)))
      ensures outcome.Pass? ==>
        forall k :: 0 <= k < |execute.regFile.registers| && k != Index(execute.rd) ==>
          execute.regFile.SlotState(k) == old(execute.regFile.SlotState(k))
    {
      outcome := ClkFront();
      if outcome.Fail? {
        return;
      }
      outcome := ClkBack();
    }
  }
}
