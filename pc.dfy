/** The program counter: a register that is always load-enabled, fed by a
    priority chain reset > load > increment > hold. */
module ProgramCounter {
  import opened Chips
  import opened Registers

  /** The value the priority chain feeds the inner register. The increment is
      by one word-address unit, wrapping at 2^32. */
  function NextPc(reset: bool, load: bool, inc: bool, input: U32, output: U32): (r: U32)
    ensures reset ==> r == 0
    ensures !reset && load ==> r == input
    ensures !reset && !load && inc ==> r == output + 1
    ensures !reset && !load && !inc ==> r == output
  {
    if reset then 0
    else if load then input
    else if inc then output + 1
    else output
  }

  /** Reset wins over every other control input. */
  lemma ResetDominates(load: bool, inc: bool, input: U32, output: U32)
    ensures NextPc(true, load, inc, input, output) == 0
  {
  }

  /** The next value is always one of: zero, the input, the successor, the held value. */
  lemma NextPcChoices(reset: bool, load: bool, inc: bool, input: U32, output: U32)
    ensures NextPc(reset, load, inc, input, output) in {0, input, output + 1, output}
  {
  }

  class PC {
    var input: U32
    var reset: bool
    var load: bool
    var inc: bool
    /** The output wire, the same cell as the inner register's output. */
    const output: Wire<U32>
    const register: Register

    ghost function Repr(): set<object>
    {
      {this} + register.Repr()
    }

    ghost predicate Valid()
      reads this, register
    {
      register.Valid() && output == register.output && register.load && this !in register.Repr()
    }

    /** `PC::new(input, reset, load, inc, output)`: the inner register starts with
        input 0, load set, and the given output wire. */
    constructor (input: U32, reset: bool, load: bool, inc: bool, output: Wire<U32>)
      ensures Valid() && fresh(register) && fresh(register.dff)
      ensures this.input == input && this.reset == reset && this.load == load && this.inc == inc
      ensures this.output == output && output.value == old(output.value)
      ensures register.State() == RegState(0, true, 0, old(output.value))
    {
      this.input := input;
      this.reset := reset;
      this.load := load;
      this.inc := inc;
      this.output := output;
      register := new Register(0, output, true);
    }

    /** The value on the output wire. */
    ghost function Value(): U32
      reads output
    {
      output.value
    }

    /** `compute`: the chosen value becomes the inner register's input and pending
        value; the output does not change. */
    method Compute()
      requires Valid()
      modifies register, register.dff
      ensures Valid()
      ensures register.State() == RegState(NextPc(reset, load, inc, input, old(Value())), true,
                                           NextPc(reset, load, inc, input, old(Value())), old(Value()))
      ensures Value() == old(Value())
    {
      var val := if reset then 0 else if load then input else if inc then output.value + 1 else output.value;
      register.input := val;
      register.Compute();
    }

    /** `clk`: the pending value is published. */
    method Clk()
      requires Valid()
      modifies output
      ensures Valid()
      ensures Value() == register.dff.nextValue
      ensures register.State() == RegClk(old(register.State()))
    {
      register.Clk();
    }
  }
}
