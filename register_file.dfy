/** The register file: a vector of registers in which every access to slot 0
    replaces that slot with a fresh default register, so x0 always reads 0. */
module RegisterFile {
  import opened Chips
  import opened Registers

  class RegFile {
    var registers: seq<Register>
    ghost var Repr: set<object>

    /** Every slot is a well-formed register whose objects are in `Repr`, and no
        two slots share a register, a flip-flop or an output wire. */
    ghost predicate Valid()
      reads this
    {
      Separate(registers, Repr) && this in Repr
    }

    /** The value an access to slot `i` reads: 0 for slot 0, which `get(0)`
        resets before it is read, and the slot's output otherwise. */
    ghost function Read(i: nat): U32
      requires Valid() && i < |registers|
      reads this, Repr
    {
      if i == 0 then 0 else registers[i].output.value
    }

    /** The state of slot `i`. */
    ghost function SlotState(i: nat): RegState
      requires Valid() && i < |registers|
      reads this, Repr
    {
      registers[i].State()
    }

    /** `RegFile::new(size)`: `size` default registers. */
    constructor (size: nat)
      ensures Valid() && fresh(Repr)
      ensures |registers| == size
      ensures forall i :: 0 <= i < size ==> registers[i].State() == DefaultState
    {
      registers := [];
      Repr := {this};
      new;
      var k := 0;
      while k < size
        invariant 0 <= k <= size && |registers| == k
        invariant Valid() && fresh(Repr)
        invariant forall i :: 0 <= i < k ==> registers[i].State() == DefaultState
      {
        var r := new Register.Default();
        registers := registers + [r];
        Repr := Repr + r.Repr();
        k := k + 1;
      }
    }

    /** `get(index)`: slot 0 is first replaced by a fresh default register; an
        index at or beyond the size is an indexing fault. No other register changes. */
    method Get(index: nat) returns (r: Option<Register>)
      requires Valid()
      modifies this
      ensures Valid() && Repr >= old(Repr) && fresh(Repr - old(Repr))
      ensures |registers| == |old(registers)|
      ensures r.None? <==> index >= |registers|
      ensures r.Some? ==> r.value == registers[index]
      ensures index == 0 < |registers| ==>
        && registers == old(registers)[0 := registers[0]]
        && fresh(registers[0].Repr())
        && registers[0].State() == DefaultState
      ensures index != 0 || |registers| == 0 ==> registers == old(registers)
    {
      if index >= |registers| {
        return None;
      }
      if index == 0 {
        var fresh0 := new Register.Default();
        registers := registers[0 := fresh0];
        Repr := Repr + fresh0.Repr();
      }
      r := Some(registers[index]);
    }

    /** Drives slot `k`'s input with `v` and sets its load when `v` is present,
        then steps that register alone. */
    method StageSlot(k: nat, v: Option<U32>)
      requires Valid() && k < |registers|
      modifies Repr
      ensures Valid() && Repr == old(Repr) && registers == old(registers)
      ensures SlotState(k) == RegCompute(Staged(old(SlotState(k)), v))
      ensures forall j :: 0 <= j < |registers| && j != k ==> SlotState(j) == old(SlotState(j))
    {
      var target := registers[k];
      if v.Some? {
        target.input := v.value;
        target.load := true;
      }
      target.Compute();
    }

    /** `get(k)` then `clk` on the register it returns: slot `k` publishes its
        pending value (slot 0 first becomes a default register); an index at or
        beyond the size is an indexing fault. No other slot changes. */
    method ClockSlot(k: nat) returns (outcome: Outcome)
      requires Valid()
      modifies this, Repr
      ensures Valid() && Repr >= old(Repr) && fresh(Repr - old(Repr))
      ensures |registers| == |old(registers)|
      ensures outcome.Fail? <==> k >= |registers|
      ensures outcome.Fail? ==> outcome.fault == IndexFault
      ensures outcome.Pass? ==> SlotState(k) == RegClk(if k == 0 then DefaultState else old(SlotState(k)))
      ensures forall j :: 0 <= j < |registers| && j != k ==> SlotState(j) == old(SlotState(j))
    {
      var r := Get(k);
      if r.None? {
        return Fail(IndexFault);
      }
      r.value.Clk();
      outcome := Pass;
    }

    /** `compute` on every register, and on nothing else. */
    method Compute()
      requires Valid()
      modifies Repr
      ensures Valid() && Repr == old(Repr) && registers == old(registers)
      ensures forall i :: 0 <= i < |registers| ==> registers[i].State() == RegCompute(old(registers[i].State()))
    {
      var k := 0;
      while k < |registers|
        invariant 0 <= k <= |registers|
        invariant Valid() && Repr == old(Repr) && registers == old(registers)
        invariant forall i :: 0 <= i < k ==> registers[i].State() == RegCompute(old(registers[i].State()))
        invariant forall i :: k <= i < |registers| ==> registers[i].State() == old(registers[i].State())
      {
        registers[k].Compute();
        k := k + 1;
      }
    }

    /** `clk` on every register, and on nothing else. */
    method Clk()
      requires Valid()
      modifies Repr
      ensures Valid() && Repr == old(Repr) && registers == old(registers)
      ensures forall i :: 0 <= i < |registers| ==> registers[i].State() == RegClk(old(registers[i].State()))
    {
      var k := 0;
      while k < |registers|
        invariant 0 <= k <= |registers|
        invariant Valid() && Repr == old(Repr) && registers == old(registers)
        invariant forall i :: 0 <= i < k ==> registers[i].State() == RegClk(old(registers[i].State()))
        invariant forall i :: k <= i < |registers| ==> registers[i].State() == old(registers[i].State())
      {
        registers[k].Clk();
        k := k + 1;
      }
    }
  }
}
