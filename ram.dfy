/** The data memory: a vector of registers selected by byte address divided by
    four. `compute` stages the input into the selected register; `clk` commits
    it and publishes the selected word on the output wire. */
module Ram {
  import opened Chips
  import opened Registers

  /** One word over one cycle: `compute` with input `v` and load `l`, then `clk`,
      stores `v` when `l` is set and keeps the old word otherwise; the word is
      not visible before the `clk`. */
  lemma WriteCycle(s: RegState, v: U32, l: bool)
    ensures RegCompute(s.(input := v, load := l)).output == s.output
    ensures RegClk(RegCompute(s.(input := v, load := l))).output == if l then v else s.output
  {
    var staged := s.(input := v, load := l);
    if l {
      RegLoads(staged);
    } else {
      RegHolds(staged);
    }
    RegComputeLaws(staged);
  }

  class RAM {
    /** The data, address and load ports, driven by the memory stage. */
    var input: U32
    var address: U32
    var load: bool
    /** The output wire, the memory stage's view of the selected word. */
    const output: Wire<U32>
    /** The address recorded by `compute`, used by the next `clk`. */
    var addr: U32
    const registers: seq<Register>
    ghost const Repr: set<object>

    ghost predicate Valid()
    {
      Separate(registers, Repr) && this !in Repr && output !in Repr
    }

    /** The state of word `i`. */
    ghost function SlotState(i: nat): RegState
      requires Valid() && i < |registers|
      reads Repr
    {
      registers[i].State()
    }

    /** `RAM::new(input, output, address, load, size)`: `size` default registers,
        the recorded address 0. */
    constructor (input: U32, output: Wire<U32>, address: U32, load: bool, size: nat)
      ensures Valid() && fresh(Repr)
      ensures this.input == input && this.output == output && this.address == address && this.load == load
      ensures addr == 0 && |registers| == size
      ensures forall i :: 0 <= i < size ==> SlotState(i) == DefaultState
    {
      var regs: seq<Register> := [];
      ghost var repr: set<object> := {};
      var k := 0;
      while k < size
        invariant 0 <= k <= size && |regs| == k
        invariant Separate(regs, repr) && fresh(repr)
        invariant forall i :: 0 <= i < k ==> regs[i].State() == DefaultState
      {
        var r := new Register.Default();
        regs := regs + [r];
        repr := repr + r.Repr();
        k := k + 1;
      }
      this.input := input;
      this.output := output;
      this.address := address;
      this.load := load;
      addr := 0;
      registers := regs;
      Repr := repr;
    }

    /** `peek(a)`: the word at `a >> 2`, read without side effects; an address
        beyond the memory is an indexing fault. */
    function Peek(a: U32): (r: Option<U32>)
      requires Valid()
      reads Repr
      ensures r.Some? <==> WordIndex(a) < |registers|
      ensures r.Some? ==> r.value == SlotState(WordIndex(a)).output
    {
      var i := WordIndex(a);
      if i < |registers| then Some(registers[i].output.value) else None
    }

    /** `compute`: records the address, drives the selected register's input and
        load from the RAM's ports and steps that register alone. */
    method Compute() returns (outcome: Outcome)
      requires Valid()
      modifies this`addr, Repr
      ensures Valid() && addr == address
      ensures outcome.Fail? <==> WordIndex(address) >= |registers|
      ensures outcome.Fail? ==> outcome.fault == IndexFault
      ensures outcome.Pass? ==>
        SlotState(WordIndex(address)) == RegCompute(old(SlotState(WordIndex(address))).(input := input, load := load))
      ensures forall j :: 0 <= j < |registers| && j != WordIndex(address) ==> SlotState(j) == old(SlotState(j))
      ensures output.value == old(output.value)
    {
      addr := address;
      var i := WordIndex(addr);
      if i >= |registers| {
        return Fail(IndexFault);
      }
      var r := registers[i];
      r.input := input;
      r.load := load;
      r.Compute();
      outcome := Pass;
    }

    /** `clk`: steps the register at the recorded address alone, then copies its
        output to the RAM's output. */
    method Clk() returns (outcome: Outcome)
      requires Valid()
      modifies Repr, output
      ensures Valid()
      ensures outcome.Fail? <==> WordIndex(addr) >= |registers|
      ensures outcome.Fail? ==> outcome.fault == IndexFault && output.value == old(output.value)
      ensures outcome.Pass? ==>
        && SlotState(WordIndex(addr)) == RegClk(old(SlotState(WordIndex(addr))))
        && Peek(addr) == Some(output.value)
      ensures forall j :: 0 <= j < |registers| && j != WordIndex(addr) ==> SlotState(j) == old(SlotState(j))
    {
      var i := WordIndex(addr);
      if i >= |registers| {
        return Fail(IndexFault);
      }
      var r := registers[i];
      r.Clk();
      output.value := r.output.value;
      outcome := Pass;
    }
  }
}
