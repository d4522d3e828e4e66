/** The arithmetic-logic unit of the execute stage: `alu(funct3, funct7, rs1,
    shamt, imm)`, a pure dispatch on funct7 and then funct3 over 32-bit
    wrapping words, covering the RV32I register-register operations and the
    M extension. */
module ArithmeticLogic {
  import opened Chips

  /** `MAX`, a 32-bit constant the source imports but whose value it does not
      show; DIV and DIVU by zero return it. */
  const MAX: U32

  /** `Option<U32>` from `alu`, with the two panics it can raise made explicit. */
  datatype AluResult =
    | Value(v: U32)
    | Unsupported        // `None`: a funct3 the selected funct7 group lacks
    | Panic(fault: Fault)

  const SIXTY_FOUR: int := 0x1_0000_0000_0000_0000

  /** Whether an integer fits an `i32`. */
  predicate FitsI32(i: int)
  {
    -HALF <= i < HALF
  }

  function Abs(i: int): nat
  {
    if i < 0 then -i else i
  }

  /** `i32` division: the quotient rounded toward zero. */
  function TruncDiv(a: int, b: int): int
    requires b != 0
  {
    if (a < 0) == (b < 0) then Abs(a) / Abs(b) else -(Abs(a) / Abs(b))
  }

  /** `i32` remainder: the remainder of the magnitudes, with the dividend's sign. */
  function TruncRem(a: int, b: int): int
    requires b != 0
  {
    if a < 0 then -(Abs(a) % Abs(b)) else Abs(a) % Abs(b)
  }

  /** An integer reduced to an `i64`: the 64-bit two's-complement wrap of a
      release build. */
  function WrapI64(p: int): int
  {
    var m := p % SIXTY_FOUR;
    if m >= SIXTY_FOUR / 2 then m - SIXTY_FOUR else m
  }

  /** `(x as i32) >> k` for `k < 32`: the logical shift, with the vacated high
      bits filled by the sign bit (`0 - (x >> 31)` is all ones exactly when bit
      31 is set). */
  function Sra(x: U32, k: U32): U32
    requires k < 32
  {
    (x >> k) | ((0 - (x >> 31)) & !(0xFFFF_FFFF >> k))
  }

  // The word operations, one function each (`Wrapping<u32>` arithmetic).

  /** ADD: wrapping addition. */
  function Add(a: U32, b: U32): U32 { a + b }
  /** SUB: wrapping subtraction. */
  function Sub(a: U32, b: U32): U32 { a - b }
  /** MUL: the low word of the product. */
  function Mul(a: U32, b: U32): U32 { a * b }
  /** DIVU for a nonzero divisor. */
  function Divu(a: U32, b: U32): U32 requires b != 0 { a / b }
  /** REMU for a nonzero divisor. */
  function Remu(a: U32, b: U32): U32 requires b != 0 { a % b }
  /** SLL: a `Wrapping` shift uses the low five bits of the amount. */
  function Sll(a: U32, shamt: U32): U32 { a << (shamt & 0x1F) }
  /** SRL, with the amount taken modulo 32 likewise. */
  function Srl(a: U32, shamt: U32): U32 { a >> (shamt & 0x1F) }
  /** SLT: 1 for a signed less-than, otherwise 0. */
  function Slt(a: U32, b: U32): U32 { Mux2(0, 1, ToSigned(a) < ToSigned(b)) }
  /** SLTU: 1 for an unsigned less-than, otherwise 0. */
  function Sltu(a: U32, b: U32): U32 { Mux2(0, 1, a < b) }
  function Xor(a: U32, b: U32): U32 { a ^ b }
  function Or(a: U32, b: U32): U32 { a | b }
  function And(a: U32, b: U32): U32 { a & b }

  /** The base group (funct7 = 0): ADD, SLL, SLT, SLTU, XOR, SRL, OR, AND. */
  function BaseGroup(funct3: U32, rs1: U32, shamt: U32, imm: U32): (r: AluResult)
    ensures !r.Panic?
    ensures r.Unsupported? <==> funct3 >= 8
  {
    if funct3 == 0 then Value(Add(rs1, imm))
    else if funct3 == 1 then Value(Sll(rs1, shamt))
    else if funct3 == 2 then Value(Slt(rs1, imm))
    else if funct3 == 3 then Value(Sltu(rs1, imm))
    else if funct3 == 4 then Value(Xor(rs1, imm))
    else if funct3 == 5 then Value(Srl(rs1, shamt))
    else if funct3 == 6 then Value(Or(rs1, imm))
    else if funct3 == 7 then Value(And(rs1, imm))
    else Unsupported
  }

  /** The funct7 = 0b0100000 group: SUB and SRA. */
  function AlternateGroup(funct3: U32, rs1: U32, shamt: U32, imm: U32): (r: AluResult)
    ensures !r.Panic?
    ensures r.Unsupported? <==> funct3 != 0 && funct3 != 5
  {
    if funct3 == 0 then Value(Sub(rs1, imm))
    else if funct3 == 5 then Value(Sra(rs1, shamt & 0x1F))
    else Unsupported
  }

  /** MULH: bits 63:32 of the signed 64-bit product. */
  function Mulh(rs1: U32, imm: U32): U32
  {
    FromInt(ToSigned(rs1) * ToSigned(imm) / WORD)
  }

  /** MULHSU: bits 63:32 of the signed-by-unsigned 64-bit product. */
  function Mulhsu(rs1: U32, imm: U32): U32
  {
    FromInt(ToSigned(rs1) * (imm as int) / WORD)
  }

  /** MULHU as written: the unsigned operands multiplied as `i64`, which wraps. */
  function Mulhu(rs1: U32, imm: U32): U32
  {
    FromInt(WrapI64((rs1 as int) * (imm as int)) / WORD)
  }

  /** DIV (`imm` nonzero): the truncated quotient, or the i32 overflow panic. */
  function Div(rs1: U32, imm: U32): (r: AluResult)
    requires imm != 0
    ensures r.Panic? <==> rs1 == 0x8000_0000 && imm == 0xFFFF_FFFF
    ensures r.Panic? ==> r.fault == DivideOverflow
  {
    DivideOverflowExactly(rs1, imm);
    var q := TruncDiv(ToSigned(rs1), ToSigned(imm));
    if !FitsI32(q) then Panic(DivideOverflow) else Value(FromInt(q))
  }

  /** REM (`imm` nonzero): the truncated remainder, or the same overflow panic,
      which Rust raises for i32::MIN % -1 as well. */
  function Rem(rs1: U32, imm: U32): (r: AluResult)
    requires imm != 0
    ensures r.Panic? <==> rs1 == 0x8000_0000 && imm == 0xFFFF_FFFF
    ensures r.Panic? ==> r.fault == DivideOverflow
  {
    DivideOverflowExactly(rs1, imm);
    if !FitsI32(TruncDiv(ToSigned(rs1), ToSigned(imm))) then Panic(DivideOverflow)
    else Value(FromInt(TruncRem(ToSigned(rs1), ToSigned(imm))))
  }

  /** The M-extension group (funct7 = 0b0000001). */
  function MulDivGroup(funct3: U32, rs1: U32, imm: U32): (r: AluResult)
    ensures r.Panic? ==> r.fault == DivideOverflow && (funct3 == 4 || funct3 == 6)
    ensures r.Unsupported? <==> funct3 >= 8
  {
    if funct3 == 0 then Value(Mul(rs1, imm))
    else if funct3 == 1 then Value(Mulh(rs1, imm))
    else if funct3 == 2 then Value(Mulhsu(rs1, imm))
    else if funct3 == 3 then Value(Mulhu(rs1, imm))
    else if funct3 == 4 then (if imm == 0 then Value(MAX) else Div(rs1, imm))
    else if funct3 == 5 then (if imm == 0 then Value(MAX) else Value(Divu(rs1, imm)))
    else if funct3 == 6 then (if imm == 0 then Value(rs1) else Rem(rs1, imm))
    else if funct3 == 7 then (if imm == 0 then Value(rs1) else Value(Remu(rs1, imm)))
    else Unsupported
  }

  /** `alu` as written: funct7 0 selects the base group, 0b0100000 SUB and SRA,
      0b0000001 the M extension; any other funct7 panics. SLL and SRL take
      the amount modulo 32, as `Wrapping` shifts do; SRA is a plain
      `i32 >> u32`, which takes it modulo 32 only in a release build (a debug
      build panics on an amount of 32 or more). Only the funct7 test and the
      division overflow panic. */
  function Alu(funct3: U32, funct7: U32, rs1: U32, shamt: U32, imm: U32): (r: AluResult)
    ensures r.Panic? ==> r.fault == UnrecognisedFunct7 || r.fault == DivideOverflow
    ensures r.Panic? && r.fault == DivideOverflow ==> funct7 == 1 && (funct3 == 4 || funct3 == 6)
  {
    if funct7 == 0 then BaseGroup(funct3, rs1, shamt, imm)
    else if funct7 == 0x20 then AlternateGroup(funct3, rs1, shamt, imm)
    else if funct7 == 1 then MulDivGroup(funct3, rs1, imm)
    else Panic(UnrecognisedFunct7)
  }

  /** Every funct3 of the base group (funct7 = 0) yields a value. */
  lemma BaseGroupTotal(funct3: U32, rs1: U32, shamt: U32, imm: U32)
    requires funct3 < 8
    ensures Alu(funct3, 0, rs1, shamt, imm).Value?
  {
  }

  /** The panic for an unknown funct7 happens exactly outside {0, 0b0100000, 0b0000001}. */
  lemma Funct7Panics(funct3: U32, funct7: U32, rs1: U32, shamt: U32, imm: U32)
    ensures Alu(funct3, funct7, rs1, shamt, imm) == Panic(UnrecognisedFunct7)
      <==> funct7 != 0 && funct7 != 0x20 && funct7 != 1
  {
  }

  /** `None` comes exactly from a funct3 outside the selected group. */
  lemma UnsupportedExactly(funct3: U32, funct7: U32, rs1: U32, shamt: U32, imm: U32)
    ensures Alu(funct3, funct7, rs1, shamt, imm).Unsupported?
      <==> (funct3 >= 8 && (funct7 == 0 || funct7 == 1)) || (funct7 == 0x20 && funct3 != 0 && funct3 != 5)
  {
  }

  /** SLT and SLTU give exactly 0 or 1, and 1 exactly for a signed, respectively
      unsigned, less-than. */
  lemma SetLessThan(rs1: U32, shamt: U32, imm: U32)
    ensures Alu(2, 0, rs1, shamt, imm) == Value(if ToSigned(rs1) < ToSigned(imm) then 1 else 0)
    ensures Alu(3, 0, rs1, shamt, imm) == Value(if rs1 < imm then 1 else 0)
  {
  }

  /** SLL and SRL shift by the amount modulo 32. */
  lemma ShiftAmounts(rs1: U32, shamt: U32)
    ensures Sll(rs1, shamt) == rs1 << (shamt % 32)
    ensures Srl(rs1, shamt) == rs1 >> (shamt % 32)
  {
  }

  /** SRA keeps the logical shift's low bits... */
  lemma SraLowBits(x: U32, k: U32)
    requires k < 32
    ensures Sra(x, k) & (0xFFFF_FFFF >> k) == x >> k
  {
  }

  /** ...equals SRL on a word with bit 31 clear... */
  lemma SraNonNegative(x: U32, k: U32)
    requires k < 32 && x < 0x8000_0000
    ensures Sra(x, k) == x >> k
  {
  }

  /** ...and otherwise keeps bit 31 set and sets every vacated high bit. */
  lemma SraNegative(x: U32, k: U32)
    requires k < 32 && x >= 0x8000_0000
    ensures Sra(x, k) >= 0x8000_0000
    ensures Sra(x, k) | (0xFFFF_FFFF >> k) == 0xFFFF_FFFF
  {
  }

  /** The truncated quotient and remainder recombine to the dividend, the
      remainder is smaller than the divisor and carries the dividend's sign. */
  lemma DivisionIdentity(a: int, b: int)
    requires b != 0
    ensures TruncDiv(a, b) * b + TruncRem(a, b) == a
    ensures Abs(TruncRem(a, b)) < Abs(b)
    ensures TruncRem(a, b) == 0 || (TruncRem(a, b) < 0) == (a < 0)
  {
  }

  lemma MulMonotone(x: int, y: int, z: int)
    requires x >= 0 && y <= z
    ensures x * y <= x * z
  {
    assert x * z - x * y == x * (z - y);
  }

  lemma NatQuotientBound(n: nat, d: nat)
    requires d >= 1
    ensures n / d <= n
    ensures d >= 2 && n > 0 ==> n / d < n
  {
    var q := n / d;
    assert q * d + n % d == n;
    MulMonotone(q, 1, d);
    if d >= 2 {
      MulMonotone(q, 2, d);
    }
  }

  /** The quotient is never larger in magnitude than the dividend, and as large
      only for a zero dividend or a divisor of magnitude one. */
  lemma QuotientBound(a: int, b: int)
    requires b != 0
    ensures Abs(TruncDiv(a, b)) <= Abs(a)
    ensures Abs(TruncDiv(a, b)) == Abs(a) ==> a == 0 || Abs(b) == 1
  {
    NatQuotientBound(Abs(a), Abs(b));
  }

  /** A quotient of two i32 values leaves the i32 range only by reaching 2^31,
      which takes dividend -2^31 and divisor -1. */
  lemma QuotientOverflow(x: int, y: int)
    requires FitsI32(x) && FitsI32(y) && y != 0
    ensures !FitsI32(TruncDiv(x, y)) <==> x == -HALF && y == -1
  {
    QuotientBound(x, y);
  }

  /** Signed division of 32-bit operands overflows exactly for
      0x80000000 / 0xFFFFFFFF (i32::MIN / -1). */
  lemma DivideOverflowExactly(a: U32, b: U32)
    requires b != 0
    ensures !FitsI32(TruncDiv(ToSigned(a), ToSigned(b))) <==> a == 0x8000_0000 && b == 0xFFFF_FFFF
  {
    QuotientOverflow(ToSigned(a), ToSigned(b));
    ToSignedMin(a);
    ToSignedMinusOne(b);
  }

  /** DIV, DIVU, REM and REMU by zero do not panic: the divisions give MAX and
      the remainders give rs1. */
  lemma DivideByZero(rs1: U32, shamt: U32)
    ensures Alu(4, 1, rs1, shamt, 0) == Value(MAX)
    ensures Alu(5, 1, rs1, shamt, 0) == Value(MAX)
    ensures Alu(6, 1, rs1, shamt, 0) == Value(rs1)
    ensures Alu(7, 1, rs1, shamt, 0) == Value(rs1)
  {
  }

  /** With a nonzero divisor, DIV and REM panic exactly for i32::MIN by -1;
      otherwise they give the truncated quotient and remainder. */
  lemma SignedDivision(rs1: U32, shamt: U32, imm: U32)
    requires imm != 0
    ensures Alu(4, 1, rs1, shamt, imm).Panic? <==> rs1 == 0x8000_0000 && imm == 0xFFFF_FFFF
    ensures Alu(6, 1, rs1, shamt, imm).Panic? <==> rs1 == 0x8000_0000 && imm == 0xFFFF_FFFF
    ensures !Alu(4, 1, rs1, shamt, imm).Panic? ==>
      Alu(4, 1, rs1, shamt, imm) == Value(FromInt(TruncDiv(ToSigned(rs1), ToSigned(imm))))
    ensures !Alu(6, 1, rs1, shamt, imm).Panic? ==>
      Alu(6, 1, rs1, shamt, imm) == Value(FromInt(TruncRem(ToSigned(rs1), ToSigned(imm))))
  {
    DivideOverflowExactly(rs1, imm);
  }

  /** Words equal modulo 2^32 convert to the same word. */
  lemma FromIntCongruent(i: int, j: int)
    requires i % WORD == j % WORD
    ensures FromInt(i) == FromInt(j)
  {
  }

  lemma UnsignedProductBound(x: int, y: int)
    requires 0 <= x < WORD && 0 <= y < WORD
    ensures 0 <= x * y < SIXTY_FOUR
  {
    MulMonotone(x, 0, y);
    MulMonotone(x, y, WORD - 1);
    MulMonotone(WORD - 1, x, WORD - 1);
    assert x * (WORD - 1) == (WORD - 1) * x;
  }

  /** Wrapping a value below 2^64 to an i64 shifts it by 2^64 at most, which
      bits 63:32 do not see. */
  lemma WrapKeepsHighWord(p: int)
    requires 0 <= p < SIXTY_FOUR
    ensures (WrapI64(p) / WORD) % WORD == (p / WORD) % WORD
  {
    if p >= SIXTY_FOUR / 2 {
      assert WrapI64(p) == p - WORD * WORD;
      assert (p - WORD * WORD) / WORD == p / WORD - WORD;
    }
  }

  /** The i64 product in MULHU can wrap, but its high word is still bits 63:32 of
      the unsigned 64-bit product. */
  lemma MulhuHighWord(rs1: U32, imm: U32)
    ensures Mulhu(rs1, imm) == FromInt((rs1 as int) * (imm as int) / WORD)
  {
    var x, y := rs1 as int, imm as int;
    UnsignedProductBound(x, y);
    WrapKeepsHighWord(x * y);
    FromIntCongruent(WrapI64(x * y) / WORD, x * y / WORD);
  }

  /** An integer already in the i64 range is unchanged by the wrap. */
  lemma WrapI64Identity(p: int)
    requires -SIXTY_FOUR / 2 <= p < SIXTY_FOUR / 2
    ensures WrapI64(p) == p
  {
    if p < 0 {
      assert p % SIXTY_FOUR == p + SIXTY_FOUR;
    }
  }

  /** |x * y| is at most the product of the bounds. */
  lemma ProductMagnitude(x: int, y: int, limitX: int, limitY: int)
    requires Abs(x) <= limitX && Abs(y) <= limitY
    ensures Abs(x * y) <= limitX * limitY
  {
    assert Abs(x * y) == Abs(x) * Abs(y);
    MulMonotone(Abs(x), Abs(y), limitY);
    MulMonotone(limitY, Abs(x), limitX);
  }

  /** The signed-by-signed product of MULH fits an i64, so reading it through
      the i64 wrap changes nothing. */
  lemma MulhNoWrap(rs1: U32, imm: U32)
    ensures Mulh(rs1, imm) == FromInt(WrapI64(ToSigned(rs1) * ToSigned(imm)) / WORD)
  {
    var x, y := ToSigned(rs1), ToSigned(imm);
    ProductMagnitude(x, y, HALF, HALF);
    WrapI64Identity(x * y);
  }

  /** Likewise the signed-by-unsigned product of MULHSU. */
  lemma MulhsuNoWrap(rs1: U32, imm: U32)
    ensures Mulhsu(rs1, imm) == FromInt(WrapI64(ToSigned(rs1) * (imm as int)) / WORD)
  {
    var x, u := ToSigned(rs1), imm as int;
    ProductMagnitude(x, u, HALF, WORD - 1);
    WrapI64Identity(x * u);
  }
}
