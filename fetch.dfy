/** The fetch stage: drives the ROM's address with the PC and exposes the ROM's
    output as the instruction. */
module FetchStage {
  import opened Chips
  import opened Rom

  class Fetch {
    /** The instruction wire: the ROM's own output wire. */
    const instruction: Wire<U32>
    /** The PC wire (the PC's output when built by the CPU). */
    const pc: Wire<U32>
    const rom: ROM

    ghost predicate Valid()
    {
      instruction == rom.output
    }

    /** `Fetch::new(pc, rom)`: the instruction wire is the ROM's output. */
    constructor (pc: Wire<U32>, rom: ROM)
      ensures Valid() && this.pc == pc && this.rom == rom
    {
      this.pc := pc;
      this.rom := rom;
      instruction := rom.output;
    }

    /** `compute`: the ROM's address becomes the PC; the ROM's own `compute`
        does nothing, so the instruction does not change yet. */
    method Compute()
      requires Valid()
      modifies rom`address
      ensures rom.address == pc.value
      ensures instruction.value == old(instruction.value)
    {
      rom.address := pc.value;
      rom.Compute();
    }

    /** `clk`: clocking the ROM makes the instruction the word at the address
        `compute` set, divided by four, or faults beyond the ROM. */
    method Clk() returns (outcome: Outcome)
      requires Valid()
      modifies rom.output
      ensures outcome.Fail? <==> WordIndex(rom.address) >= rom.registers.Length
      ensures outcome.Fail? ==> outcome.fault == IndexFault && instruction.value == old(instruction.value)
      ensures outcome.Pass? ==> instruction.value == rom.registers[WordIndex(rom.address)]
    {
      outcome := rom.Clk();
    }
  }
}
