/** The read-only program memory: a fixed vector of words filled once by
    `load`; `clk` publishes the word at the byte address divided by four. */
module Rom {
  import opened Chips

  /** The contents after `load(p)` on contents `w`: word `i` is `p[i]` for
      every `i` the program reaches, and keeps its old value beyond. A program
      longer than the memory writes the words it can before the fault. */
  function Loaded(w: seq<U32>, p: seq<U32>): (r: seq<U32>)
    ensures |r| == |w|
    ensures forall i :: 0 <= i < |w| ==> r[i] == if i < |p| then p[i] else w[i]
  {
    var k := if |p| <= |w| then |p| else |w|;
    p[..k] + w[k..]
  }

  /** Loading a program that fits, then loading the same program again, leaves
      the contents that one load gives; loading the empty program changes nothing. */
  lemma LoadedLaws(w: seq<U32>, p: seq<U32>)
    ensures Loaded(Loaded(w, p), p) == Loaded(w, p)
    ensures Loaded(w, []) == w
  {
    assert Loaded(w, []) == w;
    var once := Loaded(w, p);
    forall i | 0 <= i < |w|
      ensures Loaded(once, p)[i] == once[i]
    {
    }
  }

  class ROM {
    /** The address port; the fetch stage drives it with the PC. */
    var address: U32
    /** The output wire, which the fetch stage exposes as its instruction. */
    const output: Wire<U32>
    const registers: array<U32>

    /** `ROM::new(output, address, size)`: `size` zero words. */
    constructor (output: Wire<U32>, address: U32, size: nat)
      ensures this.output == output && this.address == address && fresh(registers)
      ensures registers.Length == size
      ensures forall i :: 0 <= i < size ==> registers[i] == 0
    {
      this.output := output;
      this.address := address;
      registers := new U32[size](_ => 0);
    }

    /** `load(program)`: word `i` becomes `program[i]`, in order; an index at or
        beyond the size is an indexing fault, raised after the words before it
        have been written. */
    method Load(program: seq<U32>) returns (outcome: Outcome)
      modifies registers
      ensures registers[..] == Loaded(old(registers[..]), program)
      ensures outcome.Fail? <==> |program| > registers.Length
      ensures outcome.Fail? ==> outcome.fault == IndexFault
    {
      var i := 0;
      while i < |program|
        invariant 0 <= i <= |program| && i <= registers.Length
        invariant forall k :: 0 <= k < i ==> registers[k] == program[k]
        invariant forall k :: i <= k < registers.Length ==> registers[k] == old(registers[k])
      {
        if i >= registers.Length {
          break;
        }
        registers[i] := program[i];
        i := i + 1;
      }
      assert registers[..] == Loaded(old(registers[..]), program);
      outcome := if i < |program| then Fail(IndexFault) else Pass;
    }

    /** `compute`: nothing to do. */
    method Compute()
      ensures output.value == old(output.value) && registers[..] == old(registers[..])
    {
    }

    /** `clk`: the output becomes the word at `address / 4`; an address beyond the
        contents is an indexing fault and leaves the output as it was. */
    method Clk() returns (outcome: Outcome)
      modifies output
      ensures outcome.Fail? <==> WordIndex(address) >= registers.Length
      ensures outcome.Fail? ==> outcome.fault == IndexFault && output.value == old(output.value)
      ensures outcome.Pass? ==> output.value == registers[WordIndex(address)]
    {
      var i := WordIndex(address);
      if i >= registers.Length {
        return Fail(IndexFault);
      }
      output.value := registers[i];
      outcome := Pass;
    }
  }
}
