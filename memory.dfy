/** The memory map: byte addresses from 4 MiB up go to the screen, rebased to
    start at 0; lower addresses go to the RAM unchanged. */
module MemoryMap {
  import opened Chips
  import opened Registers
  import opened Ram

  /** The first screen address: 1024 * 1024 * 4. */
  const SCREEN: U32 := 0x40_0000

  /** Where an address lands. */
  datatype Route = ToScreen(offset: U32) | ToRam(address: U32)

  /** The routing test of `compute`: the screen takes the address minus
      `SCREEN`, which cannot wrap; the RAM takes the address as it is. */
  function Select(a: U32): (r: Route)
    ensures r.ToScreen? <==> a >= SCREEN
    ensures r.ToScreen? ==> r.offset + SCREEN == a
    ensures r.ToRam? ==> r.address == a
  {
    if a >= SCREEN then ToScreen(a - SCREEN) else ToRam(a)
  }

  /** Screen offsets never reach the top 4 MiB of the word range: the
      subtraction does not wrap. */
  lemma ScreenOffsetBound(a: U32)
    ensures Select(a).ToScreen? ==> Select(a).offset < 0xFFC0_0000
  {
  }

  /** Routing loses nothing: distinct addresses land in distinct places. */
  lemma SelectInjective(a: U32, b: U32)
    ensures Select(a) == Select(b) ==> a == b
  {
    if Select(a) == Select(b) && Select(a).ToScreen? {
      assert a == Select(a).offset + SCREEN == b;
    }
  }

  /** The screen, as far as the memory map sees it: a write-only sink with an
      address and a data port. Its `clk` presents a frame; the window itself is
      not modelled, only the count of frames presented. */
  class Screen {
    var input: U32
    var address: U32
    ghost var frames: nat

    constructor (input: U32, address: U32)
      ensures this.input == input && this.address == address && frames == 0
    {
      this.input := input;
      this.address := address;
      frames := 0;
    }

    method Clk()
      modifies this`frames
      ensures frames == old(frames) + 1
    {
      frames := frames + 1;
    }
  }

  class Memory {
    /** The data, address and load ports. */
    var input: U32
    var address: U32
    var load: bool
    /** The output wire: the RAM's own output wire. */
    const output: Wire<U32>
    const screen: Screen
    const ram: RAM

    ghost predicate Valid()
      reads this, ram
    {
      ram.Valid() && output == ram.output && screen !in ram.Repr && this !in ram.Repr
    }

    /** `Memory::new(input, address, load, screen, ram)`: the output is the RAM's output. */
    constructor (input: U32, address: U32, load: bool, screen: Screen, ram: RAM)
      requires ram.Valid() && screen !in ram.Repr
      ensures Valid()
      ensures this.input == input && this.address == address && this.load == load
      ensures this.screen == screen && this.ram == ram && output == ram.output
    {
      this.input := input;
      this.address := address;
      this.load := load;
      this.screen := screen;
      this.ram := ram;
      output := ram.output;
    }

    /** `compute`: exactly one of the screen and the RAM receives the address and
        the input; the load port is not forwarded and the RAM is not stepped. */
    method Compute()
      requires Valid()
      modifies screen`address, screen`input, ram`address, ram`input
      ensures Valid()
      ensures Select(address).ToScreen? ==>
        && screen.address == Select(address).offset && screen.input == input
        && ram.address == old(ram.address) && ram.input == old(ram.input)
      ensures Select(address).ToRam? ==>
        && ram.address == address && ram.input == input
        && screen.address == old(screen.address) && screen.input == old(screen.input)
      ensures ram.load == old(ram.load) && ram.addr == old(ram.addr)
    {
      match Select(address)
      case ToScreen(offset) =>
        screen.address := offset;
        screen.input := input;
      case ToRam(a) =>
        ram.address := a;
        ram.input := input;
    }

    /** `clk`: the RAM is clocked, then the screen. A fault of the RAM stops
        before the screen. */
    method Clk() returns (outcome: Outcome)
      requires Valid()
      modifies ram.Repr, ram.output, screen`frames
      ensures Valid()
      ensures outcome.Fail? <==> WordIndex(ram.addr) >= |ram.registers|
      ensures outcome.Fail? ==> outcome.fault == IndexFault && screen.frames == old(screen.frames)
      ensures outcome.Pass? ==>
        && ram.SlotState(WordIndex(ram.addr)) == RegClk(old(ram.SlotState(WordIndex(ram.addr))))
        && ram.Peek(ram.addr) == Some(output.value)
        && screen.frames == old(screen.frames) + 1
      ensures forall j :: 0 <= j < |ram.registers| && j != WordIndex(ram.addr) ==>
        ram.SlotState(j) == old(ram.SlotState(j))
    {
      outcome := ram.Clk();
      if outcome.Fail? {
        return;
      }
      screen.Clk();
    }
  }
}
