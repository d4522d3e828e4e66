/** A register: a flip-flop behind a load-enable multiplexer. With `load`
    clear the flip-flop is fed back its own output; with `load` set it takes
    the input port. */
module Registers {
  import opened Chips
  import opened Dff

  /** The observable state of a register: its input and load ports, the
      pending value of its flip-flop, and its output. */
  datatype RegState = RegState(input: U32, load: bool, next: U32, output: U32)

  /** The state of `Register::default()`. */
  const DefaultState := RegState(0, false, 0, 0)

  /** What `compute` does: the multiplexer picks the pending value. */
  function RegCompute(s: RegState): RegState
  {
    s.(next := Mux2(s.output, s.input, s.load))
  }

  /** What `clk` does: the flip-flop publishes. */
  function RegClk(s: RegState): RegState
  {
    s.(output := s.next)
  }

  /** A register's state once its input port is driven with the value, when there is one, and its load set. */
  function Staged(s: RegState, rdInput: Option<U32>): RegState
  {
    match rdInput
    case None => s
    case Some(v) => s.(input := v, load := true)
  }

  /** With `load` clear, `compute; clk` keeps the output. */
  lemma RegHolds(s: RegState)
    requires !s.load
    ensures RegClk(RegCompute(s)).output == s.output
  {
  }

  /** With `load` set, `compute; clk` makes the output the input. */
  lemma RegLoads(s: RegState)
    requires s.load
    ensures RegClk(RegCompute(s)).output == s.input
  {
  }

  /** `compute` never changes the output, and repeating it changes nothing more. */
  lemma RegComputeLaws(s: RegState)
    ensures RegCompute(s).output == s.output
    ensures RegCompute(RegCompute(s)) == RegCompute(s)
  {
  }

  /** A vector of well-formed registers whose objects all lie in `repr`, with no
      register, flip-flop or output wire shared between two slots. */
  ghost predicate Separate(regs: seq<Register>, repr: set<object>)
  {
    && (forall i :: 0 <= i < |regs| ==>
          && regs[i].Valid()
          && regs[i] in repr && regs[i].dff in repr && regs[i].output in repr)
    && (forall i, j :: 0 <= i < j < |regs| ==>
          && regs[i] != regs[j]
          && regs[i].dff != regs[j].dff
          && regs[i].output != regs[j].output)
  }

  class Register {
    var input: U32
    var load: bool
    /** The output wire: the same cell as the flip-flop's output. */
    const output: Wire<U32>
    const dff: DFF<U32>

    ghost function Repr(): set<object>
    {
      {this, dff, output}
    }

    ghost predicate Valid()
    {
      dff.output == output
    }

    ghost function State(): RegState
      reads this, dff, output
    {
      RegState(input, load, dff.nextValue, output.value)
    }

    /** `Register::new(input, output, load)`: the flip-flop is wired to the given output. */
    constructor (input: U32, output: Wire<U32>, load: bool)
      ensures Valid() && fresh(dff)
      ensures this.output == output
      ensures State() == RegState(input, load, 0, old(output.value))
    {
      this.input := input;
      this.load := load;
      this.output := output;
      dff := new DFF(input, output, 0);
    }

    /** `Register::default()`: fresh wires holding zero, load clear. */
    constructor Default()
      ensures Valid() && fresh(dff) && fresh(output)
      ensures State() == DefaultState
    {
      var outWire := new Wire(0);
      input := 0;
      load := false;
      output := outWire;
      dff := new DFF(0, outWire, 0);
    }

    method Compute()
      requires Valid()
      modifies dff
      ensures State() == RegCompute(old(State()))
      ensures dff.input == Mux2(old(output.value), input, load)
    {
      dff.input := Mux2(output.value, input, load);
      dff.Compute();
    }

    method Clk()
      requires Valid()
      modifies output
      ensures State() == RegClk(old(State()))
    {
      dff.Clk();
    }
  }
}
