/** Shared vocabulary of the chip simulator: 32-bit words, wires, the two-input
    multiplexer and the faults that stop a run (the source panics). */
module Chips {

  /** A `std::num::Wrapping<u32>`: addition, subtraction, multiplication and
      shifts wrap modulo 2^32, exactly as on `bv32`. */
  type U32 = bv32

  const WORD: int := 0x1_0000_0000
  const HALF: int := 0x8000_0000

  /** The value `x as i32` denotes: the two's-complement reading of the word. */
  function ToSigned(x: U32): (r: int)
    ensures -HALF <= r < HALF
    ensures (r < 0) == (x >= 0x8000_0000)
    ensures (r == 0) == (x == 0)
  {
    if x < 0x8000_0000 then x as int else x as int - WORD
  }

  /** The two extreme readings: i32::MIN and -1. */
  lemma ToSignedMin(x: U32)
    ensures ToSigned(x) == -HALF <==> x == 0x8000_0000
  {
  }

  lemma ToSignedMinusOne(x: U32)
    ensures ToSigned(x) == -1 <==> x == 0xFFFF_FFFF
  {
  }

  /** `x.0 as usize`: the word read as an index into a vector, bit by bit.
      Only the zero word reads as index 0, the slot `get` resets. */
  function Index(x: U32): (r: nat)
    decreases x
    ensures r == 0 <==> x == 0
  {
    if x == 0 then 0 else (if x & 1 == 1 then 1 else 0) + 2 * Index(x >> 1)
  }

  /** A field below 32, such as a decoded register number, reads as its own
      value. */
  lemma IndexOfSmall(x: U32)
    requires x < 32
    ensures Index(x) == x as int
  {
  }

  /** The word slot a byte address selects: `addr.0 as usize / 4`, which is
      also `addr.0 as usize >> 2`. */
  function WordIndex(a: U32): nat
  {
    Index(a) / 4
  }

  /** The value `x as u32` denotes for an integer `x` of a wider type: its low 32 bits. */
  function FromInt(i: int): U32
  {
    (i % WORD) as bv32
  }

  /** The reason a run stops; each names a panic of the source. */
  datatype Fault =
    | IndexFault           // a `Vec` index at or beyond its length
    | InvalidInstruction   // `alu` returned None, or a branch funct3 outside the table
    | UnrecognisedFunct7   // `alu` with funct7 outside {0, 0b0100000, 0b0000001}
    | DivideOverflow       // i32::MIN / -1 or i32::MIN % -1
    | AddressMisaligned    // a branch target that is not a multiple of four

  datatype Option<T> = None | Some(value: T)

  /** The outcome of a step that may panic. */
  datatype Outcome = Pass | Fail(fault: Fault)

  /** `mux2(a, b, sel)`: `b` when `sel`, otherwise `a`. */
  function Mux2<T>(a: T, b: T, sel: bool): T
  {
    match sel
    case true => b
    case false => a
  }

  lemma Mux2Laws<T>(a: T, b: T, sel: bool)
    ensures Mux2(a, b, true) == b
    ensures Mux2(a, b, false) == a
    ensures Mux2(a, a, sel) == a
  {
  }

  /** A `Wire<T>` (a `RefCell<T>`): one mutable cell that every chip naming it shares. */
  class Wire<T> {
    var value: T

    constructor (v: T)
      ensures value == v
    {
      value := v;
    }
  }
}
