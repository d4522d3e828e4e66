/** The decoder: bit-field extraction of an instruction word, and the chip
    that latches the decoded fields in a flip-flop. */
module Decoder {
  import opened Chips
  import opened Dff

  /** The decoded fields, all 32-bit words. */
  datatype Instruction = Instruction(
    rd: U32, rs1: U32, rs2: U32, funct3: U32, funct7: U32,
    immI: U32, immS: U32, immB: U32, immU: U32, immJ: U32,
    shamtw: U32, opcode: U32)

  /** `Instruction::default()`. */
  const DefaultInstruction := Instruction(0, 0, 0, 0, 0, 0, 0, 0, 0, 0, 0, 0)

  /** `bit_range(v, msb, lsb)`: bits msb..lsb of `v`, moved down to bit 0. The
      mask `(1 << width) - 1` needs a width below 32 and `msb >= lsb`. */
  function BitRange(v: U32, msb: U32, lsb: U32): (r: U32)
    requires lsb <= msb < 32 && msb - lsb < 31
    ensures r < (1 as bv32) << (msb - lsb + 1)
  {
    var mask := ((1 as bv32) << (msb - lsb + 1)) - 1;
    (v >> lsb) & mask
  }

  /** The seven bit ranges the immediates are built from, as masks. */
  lemma ImmediatePieces(inst: U32)
    ensures BitRange(inst, 30, 25) == (inst >> 25) & 0x3F
    ensures BitRange(inst, 24, 21) == (inst >> 21) & 0xF
    ensures BitRange(inst, 20, 20) == (inst >> 20) & 1
    ensures BitRange(inst, 11, 8) == (inst >> 8) & 0xF
    ensures BitRange(inst, 7, 7) == (inst >> 7) & 1
    ensures BitRange(inst, 30, 20) == (inst >> 20) & 0x7FF
    ensures BitRange(inst, 19, 12) == (inst >> 12) & 0xFF
  {
  }

  /** `(!x) + 1` with wrap-around: the two's-complement negation. */
  function Negate(x: U32): U32
  {
    !x + 1
  }

  // The five reconstructed magnitudes, built from the bit ranges exactly as
  // `Decode::compute` builds them, before the bit-31 negation.

  function RawI(inst: U32): U32
  {
    (BitRange(inst, 30, 25) << 5) | (BitRange(inst, 24, 21) << 1) | BitRange(inst, 20, 20)
  }

  function RawS(inst: U32): U32
  {
    (BitRange(inst, 30, 25) << 5) | (BitRange(inst, 11, 8) << 1) | BitRange(inst, 7, 7)
  }

  function RawB(inst: U32): U32
  {
    (BitRange(inst, 7, 7) << 11) | (BitRange(inst, 30, 25) << 5) | (BitRange(inst, 11, 8) << 1)
  }

  function RawU(inst: U32): U32
  {
    (BitRange(inst, 30, 20) << 20) | (BitRange(inst, 19, 12) << 12)
  }

  function RawJ(inst: U32): U32
  {
    (BitRange(inst, 19, 12) << 12) | (BitRange(inst, 20, 20) << 11)
      | (BitRange(inst, 30, 25) << 5) | (BitRange(inst, 24, 21) << 1)
  }

  /** The immediate as the decoder emits it: the magnitude, or its negation when bit 31 is set. */
  function Signed(inst: U32, magnitude: U32): U32
  {
    Mux2(magnitude, Negate(magnitude), (inst >> 31) == 1)
  }

  /** `Decode::compute`'s pure part: the fields and the five immediates. */
  function DecodeWord(inst: U32): (r: Instruction)
    ensures r.rd < 32 && r.rs1 < 32 && r.rs2 < 32 && r.shamtw < 32
    ensures r.funct3 < 8 && r.funct7 < 128 && r.opcode < 128
    ensures r.shamtw == r.rs2
  {
    Instruction(
      rd := BitRange(inst, 11, 7),
      rs1 := BitRange(inst, 19, 15),
      rs2 := BitRange(inst, 24, 20),
      funct3 := BitRange(inst, 14, 12),
      funct7 := BitRange(inst, 31, 25),
      immI := Signed(inst, RawI(inst)),
      immS := Signed(inst, RawS(inst)),
      immB := Signed(inst, RawB(inst)),
      immU := Signed(inst, RawU(inst)),
      immJ := Signed(inst, RawJ(inst)),
      shamtw := BitRange(inst, 24, 20),
      opcode := BitRange(inst, 6, 0))
  }

  /** Each field is the word shifted down and reduced modulo two to its width. */
  lemma DecodeFields(inst: U32)
    ensures DecodeWord(inst).opcode == inst % 0x80
    ensures DecodeWord(inst).rd == (inst >> 7) % 0x20
    ensures DecodeWord(inst).funct3 == (inst >> 12) % 0x8
    ensures DecodeWord(inst).rs1 == (inst >> 15) % 0x20
    ensures DecodeWord(inst).rs2 == (inst >> 20) % 0x20
    ensures DecodeWord(inst).funct7 == inst >> 25
  {
  }

  // Reference magnitudes: the instruction bits each immediate format collects
  // (bit 31 excluded), written as masks over the word.

  /** I-type: bits 30:20. */
  function MagnitudeI(inst: U32): U32 { (inst >> 20) & 0x7FF }
  /** S-type: bits 30:25 above bits 11:7. */
  function MagnitudeS(inst: U32): U32 { ((inst >> 20) & 0x7E0) | ((inst >> 7) & 0x1F) }
  /** B-type: bit 7 at bit 11, bits 30:25 at 10:5, bits 11:8 at 4:1, bit 0 zero. */
  function MagnitudeB(inst: U32): U32 { ((inst << 4) & 0x800) | ((inst >> 20) & 0x7E0) | ((inst >> 7) & 0x1E) }
  /** U-type: bits 30:12 in place. */
  function MagnitudeU(inst: U32): U32 { inst & 0x7FFF_F000 }
  /** J-type: bits 19:12 in place, bit 20 at 11, bits 30:21 at 10:1, bit 0 zero. */
  function MagnitudeJ(inst: U32): U32 { (inst & 0xF_F000) | ((inst >> 9) & 0x800) | ((inst >> 20) & 0x7FE) }

  // Each decoded immediate is its format's magnitude under the bit-31 choice.

  lemma ImmediateI(inst: U32)
    ensures DecodeWord(inst).immI == Signed(inst, MagnitudeI(inst))
  {
    ImmediatePieces(inst);
    assert RawI(inst) == MagnitudeI(inst);
  }

  lemma ImmediateS(inst: U32)
    ensures DecodeWord(inst).immS == Signed(inst, MagnitudeS(inst))
  {
    ImmediatePieces(inst);
    assert RawS(inst) == MagnitudeS(inst);
  }

  lemma ImmediateB(inst: U32)
    ensures DecodeWord(inst).immB == Signed(inst, MagnitudeB(inst))
  {
    ImmediatePieces(inst);
    assert RawB(inst) == MagnitudeB(inst);
  }

  lemma ImmediateU(inst: U32)
    ensures DecodeWord(inst).immU == Signed(inst, MagnitudeU(inst))
  {
    ImmediatePieces(inst);
    assert RawU(inst) == MagnitudeU(inst);
  }

  lemma ImmediateJ(inst: U32)
    ensures DecodeWord(inst).immJ == Signed(inst, MagnitudeJ(inst))
  {
    ImmediatePieces(inst);
    assert RawJ(inst) == MagnitudeJ(inst);
  }

  /** The bit-31 choice: the magnitude itself when clear, 0 - magnitude (mod 2^32) when set. */
  lemma SignedCases(inst: U32, m: U32)
    ensures inst < 0x8000_0000 ==> Signed(inst, m) == m
    ensures inst >= 0x8000_0000 ==> Signed(inst, m) == 0 - m
  {
  }

  /** Negation keeps a word even. */
  lemma SignedEven(inst: U32, m: U32)
    requires m & 1 == 0
    ensures Signed(inst, m) % 2 == 0
  {
  }

  /** Negation keeps a word a multiple of 4096. */
  lemma SignedPage(inst: U32, m: U32)
    requires m & 0xFFF == 0
    ensures Signed(inst, m) % 0x1000 == 0
  {
  }

  /** With bit 31 clear every immediate is its magnitude. */
  lemma ImmediatesPositive(inst: U32)
    requires inst < 0x8000_0000
    ensures DecodeWord(inst).immI == MagnitudeI(inst)
    ensures DecodeWord(inst).immS == MagnitudeS(inst)
    ensures DecodeWord(inst).immB == MagnitudeB(inst)
    ensures DecodeWord(inst).immU == MagnitudeU(inst)
    ensures DecodeWord(inst).immJ == MagnitudeJ(inst)
  {
    ImmediateI(inst);
    SignedCases(inst, MagnitudeI(inst));
    ImmediateS(inst);
    SignedCases(inst, MagnitudeS(inst));
    ImmediateB(inst);
    SignedCases(inst, MagnitudeB(inst));
    ImmediateU(inst);
    SignedCases(inst, MagnitudeU(inst));
    ImmediateJ(inst);
    SignedCases(inst, MagnitudeJ(inst));
  }

  /** With bit 31 set every immediate is 2^32 minus its magnitude, modulo 2^32. */
  lemma ImmediatesNegative(inst: U32)
    requires inst >= 0x8000_0000
    ensures DecodeWord(inst).immI == 0 - MagnitudeI(inst)
    ensures DecodeWord(inst).immS == 0 - MagnitudeS(inst)
    ensures DecodeWord(inst).immB == 0 - MagnitudeB(inst)
    ensures DecodeWord(inst).immU == 0 - MagnitudeU(inst)
    ensures DecodeWord(inst).immJ == 0 - MagnitudeJ(inst)
  {
    ImmediateI(inst);
    SignedCases(inst, MagnitudeI(inst));
    ImmediateS(inst);
    SignedCases(inst, MagnitudeS(inst));
    ImmediateB(inst);
    SignedCases(inst, MagnitudeB(inst));
    ImmediateU(inst);
    SignedCases(inst, MagnitudeU(inst));
    ImmediateJ(inst);
    SignedCases(inst, MagnitudeJ(inst));
  }

  /** B and J immediates are even and U immediates are multiples of 4096, whatever bit 31 is. */
  lemma ImmediateAlignment(inst: U32)
    ensures DecodeWord(inst).immB % 2 == 0
    ensures DecodeWord(inst).immJ % 2 == 0
    ensures DecodeWord(inst).immU % 0x1000 == 0
  {
    assert DecodeWord(inst).immB % 2 == 0 by {
      ImmediateB(inst);
      SignedEven(inst, MagnitudeB(inst));
    }
    assert DecodeWord(inst).immJ % 2 == 0 by {
      ImmediateJ(inst);
      SignedEven(inst, MagnitudeJ(inst));
    }
    assert DecodeWord(inst).immU % 0x1000 == 0 by {
      ImmediateU(inst);
      SignedPage(inst, MagnitudeU(inst));
    }
  }

  /** The I-type sign extension of the RISC-V base ISA: bit 31 copied into bits 31:11. */
  function SignExtendedI(inst: U32): U32
  {
    if inst >= 0x8000_0000 then MagnitudeI(inst) | 0xFFFF_F800 else MagnitudeI(inst)
  }

  /** The decoder's I immediate equals the sign-extended one exactly when bit 31
      is clear or bits 30:20 are 0x400: negation is not sign extension. */
  lemma ImmIVersusSignExtension(inst: U32)
    ensures DecodeWord(inst).immI == SignExtendedI(inst) <==> inst < 0x8000_0000 || MagnitudeI(inst) == 0x400
  {
    ImmediateI(inst);
    SignedCases(inst, MagnitudeI(inst));
  }

  /** `addi x1, x0, -1` (0xFFF00093) decodes with immediate 0xFFFFF801 (-2047), not -1. */
  lemma DecodeAddiMinusOne()
    ensures DecodeWord(0xFFF0_0093) == Instruction(
      rd := 1, rs1 := 0, rs2 := 0x1F, funct3 := 0, funct7 := 0x7F,
      immI := 0xFFFF_F801, immS := 0xFFFF_F81F, immB := 0xFFFF_F020, immU := 0x8010_0000,
      immJ := 0xFFFF_F002, shamtw := 0x1F, opcode := 0x13)
  {
  }

  /** The decode chip: `compute` stages the decoded input word in its flip-flop,
      `clk` publishes it on the output wire. */
  class Decode {
    /** The instruction word wire (the ROM's output when built by the CPU). */
    const input: Wire<U32>
    const output: Wire<Instruction>
    const out: DFF<Instruction>

    ghost predicate Valid()
    {
      out.output == output
    }

    /** `Decode::new(input, output)`: the flip-flop's input starts at the default instruction. */
    constructor (input: Wire<U32>, output: Wire<Instruction>)
      ensures Valid() && fresh(out)
      ensures this.input == input && this.output == output
      ensures out.State() == DffState(DefaultInstruction, DefaultInstruction, old(output.value))
    {
      this.input := input;
      this.output := output;
      out := new DFF(DefaultInstruction, output, DefaultInstruction);
    }

    method Compute()
      requires Valid()
      modifies out
      ensures out.State() == DffState(DecodeWord(input.value), DecodeWord(input.value), old(output.value))
    {
      var inst := input.value;
      out.input := DecodeWord(inst);
      out.Compute();
    }

    method Clk()
      requires Valid()
      modifies output
      ensures out.State() == DffClk(old(out.State()))
      ensures output.value == out.nextValue
    {
      out.Clk();
    }
  }
}
