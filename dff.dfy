/** The D flip-flop, the only storage primitive: `Compute` stages the input
    port as the pending value, `Clk` publishes the pending value on the output
    wire. */
module Dff {
  import opened Chips

  /** The observable state of a flip-flop: input port, pending value, output. */
  datatype DffState<T> = DffState(input: T, next: T, output: T)

  /** What `compute` does to the state. */
  function DffCompute<T>(s: DffState<T>): DffState<T>
  {
    s.(next := s.input)
  }

  /** What `clk` does to the state. */
  function DffClk<T>(s: DffState<T>): DffState<T>
  {
    s.(output := s.next)
  }

  /** `compute` then `clk` publishes the input seen at `compute`, and keeps the input. */
  lemma DffRoundTrip<T>(s: DffState<T>)
    ensures DffClk(DffCompute(s)).output == s.input
    ensures DffClk(DffCompute(s)).input == s.input
  {
  }

  /** `compute` never changes the output; only `clk` does. */
  lemma DffComputeKeepsOutput<T>(s: DffState<T>)
    ensures DffCompute(s).output == s.output
    ensures DffClk(s).next == s.next && DffClk(s).input == s.input
  {
  }

  /** Repeating `compute`, or repeating `clk`, with nothing changed in between has no further effect. */
  lemma DffIdempotent<T>(s: DffState<T>)
    ensures DffCompute(DffCompute(s)) == DffCompute(s)
    ensures DffClk(DffClk(s)) == DffClk(s)
  {
  }

  class DFF<T> {
    /** The input port; whoever drives the flip-flop writes it before `Compute`. */
    var input: T
    /** The output wire, shared with the chip that exposes this flip-flop's output. */
    const output: Wire<T>
    var nextValue: T

    ghost function State(): DffState<T>
      reads this, output
    {
      DffState(input, nextValue, output.value)
    }

    /** `DFF::new(input, output)`: the pending value starts at `T::default()`, passed as `dflt`. */
    constructor (input: T, output: Wire<T>, dflt: T)
      ensures this.input == input && this.output == output && nextValue == dflt
    {
      this.input := input;
      this.output := output;
      nextValue := dflt;
    }

    method Compute()
      modifies this
      ensures State() == DffCompute(old(State()))
      ensures output.value == old(output.value)
    {
      nextValue := input;
    }

    method Clk()
      modifies output
      ensures State() == DffClk(old(State()))
    {
      output.value := nextValue;
    }
  }
}
