/** The memory stage: carries out the load or store request the execute stage
    left on its output, through the RAM, against the shared register file. */
module MemoryStage {
  import opened Chips
  import opened Registers
  import opened RegisterFile
  import opened Ram
  import opened Execution

  class MemoryAccess {
    /** The request wire: the execute stage's output. */
    const input: Wire<IOCode>
    const regFile: RegFile
    const ram: RAM
    /** The register recorded by `compute`, clocked by `clk`. */
    var rd: U32

    ghost predicate Valid()
      reads this, regFile, ram
    {
      && regFile.Valid() && ram.Valid()
      && ram.Repr !! regFile.Repr
      && ram !in regFile.Repr && ram.output !in regFile.Repr
      && this !in regFile.Repr && input !in regFile.Repr
      && this !in ram.Repr && input !in ram.Repr
    }

    /** `MemoryAccess::new(input, reg_file, ram)`: rd starts at 0. */
    constructor (input: Wire<IOCode>, regFile: RegFile, ram: RAM)
      requires regFile.Valid() && ram.Valid() && ram.Repr !! regFile.Repr
      requires ram !in regFile.Repr && ram.output !in regFile.Repr && input !in regFile.Repr
      requires input !in ram.Repr
      ensures Valid() && rd == 0
      ensures this.input == input && this.regFile == regFile && this.ram == ram
    {
      this.input := input;
      this.regFile := regFile;
      this.ram := ram;
      rd := 0;
    }

    /** The store path's `get(register)`: the value a store writes, read as
        `Read` reads it (slot 0 is reset first); no other slot changes. */
    method ReadSource(k: nat) returns (v: Option<U32>)
      requires Valid()
      modifies regFile
      ensures Valid()
      ensures regFile.Repr >= old(regFile.Repr) && fresh(regFile.Repr - old(regFile.Repr))
      ensures |regFile.registers| == old(|regFile.registers|)
      ensures v.None? <==> k >= |regFile.registers|
      ensures v.Some? ==> v.value == old(regFile.Read(k))
      ensures forall j :: 0 <= j < |regFile.registers| ==>
        regFile.SlotState(j) == if j == 0 && k == 0 then DefaultState else old(regFile.SlotState(j))
      ensures forall j :: 0 <= j < |ram.registers| ==> ram.SlotState(j) == old(ram.SlotState(j))
    {
      var r := regFile.Get(k);
      if r.None? {
        return None;
      }
      v := Some(r.value.output.value);
    }

    /** The RAM step and clock inside `compute`, once its ports are driven:
        the addressed word takes the RAM's input when load is set, that word is
        published, and no other word changes. */
    method StepRam() returns (outcome: Outcome)
      requires Valid()
      modifies ram`addr, ram.Repr, ram.output
      ensures Valid() && ram.addr == ram.address
      ensures outcome.Fail? <==> WordIndex(ram.address) >= |ram.registers|
      ensures outcome.Fail? ==> outcome.fault == IndexFault
      ensures outcome.Pass? ==>
        var w := WordIndex(ram.address);
        && ram.SlotState(w) == RegClk(RegCompute(old(ram.SlotState(w)).(input := ram.input, load := ram.load)))
        && ram.output.value == (if ram.load then ram.input else old(ram.SlotState(w)).output)
      ensures forall j :: 0 <= j < |ram.registers| && j != WordIndex(ram.address) ==> ram.SlotState(j) == old(ram.SlotState(j))
      ensures regFile.Repr == old(regFile.Repr) && regFile.registers == old(regFile.registers)
      ensures forall j :: 0 <= j < |regFile.registers| ==> regFile.SlotState(j) == old(regFile.SlotState(j))
    {
      ghost var w := WordIndex(ram.address);
      outcome := ram.Compute();
      if outcome.Fail? {
        return;
      }
      var clocked := ram.Clk();
      assert clocked.Pass?;
      WriteCycle(old(ram.SlotState(w)), ram.input, ram.load);
    }

    /** The RAM's part of `compute`: the RAM's address and load are driven
        from the request, a store drives its input with `v`, and the RAM is
        stepped and clocked, which commits a store to the addressed word and
        publishes that word. No other word changes. */
    method CycleRam(address: U32, store: bool, v: Option<U32>) returns (outcome: Outcome)
      requires Valid()
      modifies ram`address, ram`load, ram`input, ram`addr, ram.Repr, ram.output
      ensures Valid() && ram.address == address && ram.load == store && ram.addr == address
      ensures ram.input == if v.Some? then v.value else old(ram.input)
      ensures outcome.Fail? <==> WordIndex(address) >= |ram.registers|
      ensures outcome.Fail? ==> outcome.fault == IndexFault
      ensures outcome.Pass? ==>
        var w := WordIndex(address);
        && ram.SlotState(w) == RegClk(RegCompute(old(ram.SlotState(w)).(input := ram.input, load := store)))
        && ram.output.value == (if store then ram.input else old(ram.SlotState(w)).output)
      ensures forall j :: 0 <= j < |ram.registers| && j != WordIndex(address) ==> ram.SlotState(j) == old(ram.SlotState(j))
      ensures regFile.Repr == old(regFile.Repr) && regFile.registers == old(regFile.registers)
      ensures forall j :: 0 <= j < |regFile.registers| ==> regFile.SlotState(j) == old(regFile.SlotState(j))
    {
      ram.address := address;
      ram.load := store;
      if v.Some? {
        ram.input := v.value;
      }
      outcome := StepRam();
    }

    /** The final `get(register)` and `compute` of the target: on a load its
        input becomes `v` and its load is set; on a store it only steps. */
    method StageTarget(k: nat, v: Option<U32>) returns (outcome: Outcome)
      requires Valid()
      modifies regFile, regFile.Repr
      ensures Valid()
      ensures regFile.Repr >= old(regFile.Repr) && fresh(regFile.Repr - old(regFile.Repr))
      ensures |regFile.registers| == old(|regFile.registers|)
      ensures outcome.Fail? <==> k >= |regFile.registers|
      ensures outcome.Fail? ==> outcome.fault == IndexFault
      ensures outcome.Pass? ==>
        regFile.SlotState(k) == RegCompute(Staged(if k == 0 then DefaultState else old(regFile.SlotState(k)), v))
      ensures forall j :: 0 <= j < |regFile.registers| && j != k ==> regFile.SlotState(j) == old(regFile.SlotState(j))
      ensures forall j :: 0 <= j < |ram.registers| ==> ram.SlotState(j) == old(ram.SlotState(j))
    {
      var r := regFile.Get(k);
      if r.None? {
        return Fail(IndexFault);
      }
      regFile.StageSlot(k, v);
      outcome := Pass;
    }

    /** The rest of `compute` once a store's value `v` is read: the RAM cycle,
        then the target register's step. */
    method Transfer(io: IOCode, v: Option<U32>, k: nat) returns (outcome: Outcome)
      requires Valid() && (io.store ==> v.Some?)
      modifies ram`address, ram`load, ram`input, ram`addr, ram.Repr, ram.output, regFile, regFile.Repr
      ensures Valid()
      ensures regFile.Repr >= old(regFile.Repr) && fresh(regFile.Repr - old(regFile.Repr))
      ensures |regFile.registers| == old(|regFile.registers|)
      ensures ram.address == io.address && ram.load == io.store
      ensures outcome.Fail? <==> k >= |regFile.registers| || WordIndex(io.address) >= |ram.registers|
      ensures outcome.Fail? ==> outcome.fault == IndexFault
      ensures outcome.Pass? ==>
        var w := WordIndex(io.address);
        && ram.input == (if v.Some? then v.value else old(ram.input))
        && ram.SlotState(w) == RegClk(RegCompute(old(ram.SlotState(w)).(input := ram.input, load := io.store)))
        && ram.output.value == (if io.store then ram.input else old(ram.SlotState(w)).output)
        && regFile.SlotState(k) ==
             RegCompute(Staged(if k == 0 then DefaultState else old(regFile.SlotState(k)),
                               if io.store then None else Some(ram.output.value)))
      ensures outcome.Pass? ==>
        && (forall j :: 0 <= j < |ram.registers| && j != WordIndex(io.address) ==> ram.SlotState(j) == old(ram.SlotState(j)))
        && (forall j :: 0 <= j < |regFile.registers| && j != k ==> regFile.SlotState(j) == old(regFile.SlotState(j)))
    {
      outcome := CycleRam(io.address, io.store, v);
      if outcome.Pass? {
        outcome := StageTarget(k, if io.store then None else Some(ram.output.value));
      }
    }

    /** `compute`: drives the RAM's address and load from the request and
        records its register; a store first reads that register into the RAM's
        input. The RAM is then stepped and clocked, so a store is committed
        here, and finally the register is stepped, taking the RAM's output on a
        load and nothing new on a store. */
    method Compute() returns (outcome: Outcome)
      requires Valid()
      modifies this`rd, ram`address, ram`load, ram`input, ram`addr, ram.Repr, ram.output, regFile, regFile.Repr
      ensures Valid()
      ensures regFile.Repr >= old(regFile.Repr) && fresh(regFile.Repr - old(regFile.Repr))
      ensures |regFile.registers| == old(|regFile.registers|)
      ensures var io := old(input.value);
        rd == io.register && ram.address == io.address && ram.load == io.store
      ensures var io := old(input.value);
        outcome.Fail? <==> Index(io.register) >= |regFile.registers| || WordIndex(io.address) >= |ram.registers|
      ensures outcome.Fail? ==> outcome.fault == IndexFault
      ensures outcome.Pass? ==>
        var io := old(input.value);
        var w := WordIndex(io.address);
        && ram.input == (if io.store then old(regFile.Read(Index(io.register))) else old(ram.input))
        && ram.SlotState(w) == RegClk(RegCompute(old(ram.SlotState(w)).(input := ram.input, load := io.store)))
        && ram.output.value == (if io.store then ram.input else old(ram.SlotState(w)).output)
        && regFile.SlotState(Index(io.register)) ==
             RegCompute(Staged(if Index(io.register) == 0 then DefaultState else old(regFile.SlotState(Index(io.register))),
                               if io.store then None else Some(ram.output.value)))
      ensures outcome.Pass? ==>
        var io := old(input.value);
        && (forall j :: 0 <= j < |ram.registers| && j != WordIndex(io.address) ==> ram.SlotState(j) == old(ram.SlotState(j)))
        && (forall j :: 0 <= j < |regFile.registers| && j != Index(io.register) ==>
              regFile.SlotState(j) == old(regFile.SlotState(j)))
    {
      var io := input.value;
      var k := Index(io.register);
      var v: Option<U32> := None;
      if io.store {
        v := ReadSource(k);
      }
      if io.store && v.None? {
        ram.address := io.address;
        ram.load := io.store;
        outcome := Fail(IndexFault);
      } else {
        outcome := Transfer(io, v, k);
      }
      rd := io.register;
    }

    /** `clk`: clocks the register recorded by `compute`, and nothing else. */
    method Clk() returns (outcome: Outcome)
      requires Valid()
      modifies regFile, regFile.Repr
      ensures Valid()
      ensures regFile.Repr >= old(regFile.Repr) && fresh(regFile.Repr - old(regFile.Repr))
      ensures |regFile.registers| == old(|regFile.registers|)
      ensures outcome.Fail? <==> Index(rd) >= |regFile.registers|
      ensures outcome.Fail? ==> outcome.fault == IndexFault
      ensures outcome.Pass? ==>
        regFile.SlotState(Index(rd)) == RegClk(if Index(rd) == 0 then DefaultState else old(regFile.SlotState(Index(rd))))
      ensures forall j :: 0 <= j < |regFile.registers| && j != Index(rd) ==> regFile.SlotState(j) == old(regFile.SlotState(j))
    {
      outcome := regFile.ClockSlot(Index(rd));
    }
  }
}
