/** What the operations of the reference are, in bits and equations, and how its words are listed: the RISC-V Unprivileged ISA. */
module Rv32Standard {
  import opened Words
  import opened Rv32

  /** The signed value is the one of its residue class that 32 bits in two's complement hold. */
  lemma SignedIs(x: u32)
    ensures -0x8000_0000 <= Signed(x) < 0x8000_0000 && Wrap(Signed(x)) == x
  {
  }

  /** Section 2.4: sums and differences are modulo 2^32, and comparisons give 1 or 0. */
  lemma SumsAndComparisons(a: u32, b: u32)
    ensures (OpValue(ADD, a, b) - a - b) % 0x1_0000_0000 == 0 && (OpValue(SUB, a, b) - a + b) % 0x1_0000_0000 == 0
    ensures OpValue(SLT, a, b) == if a / 0x8000_0000 != b / 0x8000_0000 then a / 0x8000_0000 else OpValue(SLTU, a, b)
    ensures OpValue(SLTU, a, b) == if b > a then 1 else 0
  {
    WrapDiffers(a + b);
    WrapDiffers(a - b);
    hide Wrap;
  }

  lemma WrapDiffers(x: int)
    ensures (Wrap(x) - x) % 0x1_0000_0000 == 0
  {
    ModUnique(Wrap(x) - x, 0x1_0000_0000, -(x / 0x1_0000_0000), 0);
  }

  /** The bitwise operations work bit by bit. */
  lemma BitwiseOperations(a: u32, b: u32, i: nat)
    requires i < 32
    ensures OpValue(AND, a, b) / Pow2(i) % 2 == 1 <==> a / Pow2(i) % 2 == 1 && b / Pow2(i) % 2 == 1
    ensures OpValue(OR, a, b) / Pow2(i) % 2 == 1 <==> a / Pow2(i) % 2 == 1 || b / Pow2(i) % 2 == 1
    ensures OpValue(XOR, a, b) / Pow2(i) % 2 == 1 <==> a / Pow2(i) % 2 != b / Pow2(i) % 2
  {
    hide Bitwise32, Pow2;
    BitwiseIsBitByBit(a, b, i);
  }

  // ----- shifts -----

  lemma {:induction false} PowSum(i: nat, s: nat)
    ensures Pow2(i + s) == Pow2(i) * Pow2(s)
  {
    hide Pow2;
    if i == 0 {
      PowZero();
    } else {
      PowSum(i - 1, s);
      PowStep(i - 1);
      PowStep(i - 1 + s);
      Associate(2, Pow2(i - 1), Pow2(s));
    }
  }

  lemma PowZero()
    ensures Pow2(0) == 1
  {
  }

  lemma PowStep(n: nat)
    ensures Pow2(n + 1) == 2 * Pow2(n)
  {
  }

  lemma Associate(x: int, y: int, z: int)
    ensures x * (y * z) == x * y * z
  {
  }

  lemma DivideTwice(a: int, p: nat, q: nat)
    requires p > 0 && q > 0
    ensures p * q > 0 && a / p / q == a / (p * q)
  {
    var x, r := a / p, a % p;
    var y, t := x / q, x % q;
    assert a == y * (q * p) + (t * p + r) by {
      assert (y * q + t) * p == y * (q * p) + t * p;
    }
    assert 0 <= t * p + r < q * p by {
      MulMonotone(t, q - 1, p);
      assert (q - 1) * p == q * p - p;
    }
    ModUnique(a, q * p, y, t * p + r);
    assert p * q == q * p;
  }

  // Bit `i` of a shift to the right is bit `i + s`, of any number.
  lemma RightBit(a: int, s: nat, i: nat)
    ensures a / Pow2(s) / Pow2(i) % 2 == a / Pow2(i + s) % 2
  {
    hide Pow2;
    PowSum(i, s);
    DivideTwice(a, Pow2(s), Pow2(i));
    assert Pow2(i) * Pow2(s) == Pow2(s) * Pow2(i);
  }

  // The low 32 bits of a number, negative ones included.
  lemma WrappedBit(x: int, i: nat)
    requires i < 32
    ensures Wrap(x) / Pow2(i) % 2 == x / Pow2(i) % 2
  {
    hide Pow2;
    var p, q := Pow2(i), Pow2(31 - i);
    PowSum(i, 31 - i);
    assert Pow2(31) == 0x8000_0000 by { Pow31(); }
    var w, k := Wrap(x), x / 0x1_0000_0000;
    assert x == w + k * 0x1_0000_0000;
    hide Wrap;
    Regroup(k, q, p);
    Commute(p, q);
    DivideSum(w, 2 * (k * q), p);
    EvenMore(w / p, k * q);
  }

  lemma EvenMore(x: int, y: int)
    ensures (x + 2 * y) % 2 == x % 2
  {
  }

  lemma DivideSum(a: int, m: int, p: nat)
    requires p > 0
    ensures (a + m * p) / p == a / p + m
  {
    var q, r := a / p, a % p;
    assert a + m * p == (q + m) * p + r;
    ModUnique(a + m * p, p, q + m, r);
  }

  lemma Pow31()
    ensures Pow2(31) == 0x8000_0000
  {
    Pow2Literals();
    assert Pow2(32) == 2 * Pow2(31);
  }

  // Beyond its 32 bits a word has none, and its signed value copies of the sign.
  lemma HighBits(a: u32, k: nat)
    requires k >= 32
    ensures a / Pow2(k) % 2 == 0 && Signed(a) / Pow2(k) % 2 == a / 0x8000_0000
  {
    hide Pow2;
    PowSum(k - 32, 32);
    assert Pow2(32) == 0x1_0000_0000 by { Pow2Literals(); }
    MulMonotone(1, Pow2(k - 32), 0x1_0000_0000);
    SmallQuotient(a, Signed(a), Pow2(k));
  }

  lemma SmallQuotient(a: u32, b: int, p: int)
    requires p >= 0x1_0000_0000 && b == Signed(a)
    ensures a / p == 0 && b / p == if a < 0x8000_0000 then 0 else -1
  {
    ModUnique(a, p, 0, a);
    if a < 0x8000_0000 {
      ModUnique(b, p, 0, b);
    } else {
      ModUnique(b, p, -1, b + p);
    }
  }

  lemma SignedBits(a: u32, k: nat)
    requires k < 32
    ensures Signed(a) / Pow2(k) % 2 == a / Pow2(k) % 2
  {
    hide Pow2;
    SignedIs(a);
    WrappedBit(Signed(a), k);
  }

  /** A logical shift to the right moves every bit down and zeros in, an arithmetic one copies of the sign. */
  lemma RightShifts(a: u32, b: u32, i: nat)
    requires i < 32
    ensures OpValue(SRL, a, b) / Pow2(i) % 2 == if i + b % 32 < 32 then a / Pow2(i + b % 32) % 2 else 0
    ensures OpValue(SRA, a, b) / Pow2(i) % 2 == if i + b % 32 < 32 then a / Pow2(i + b % 32) % 2 else a / 0x8000_0000
  {
    hide Pow2, Wrap, Signed;
    var s := b % 32;
    RightBit(a, s, i);
    RightBit(Signed(a), s, i);
    WrappedBit(a / Pow2(s), i);
    WrappedBit(Signed(a) / Pow2(s), i);
    if i + s < 32 {
      SignedBits(a, i + s);
    } else {
      HighBits(a, i + s);
    }
  }

  lemma UpBit(a: int, s: nat, i: nat)
    requires i >= s
    ensures a * Pow2(s) / Pow2(i) == a / Pow2(i - s)
  {
    hide Pow2;
    var p, q := Pow2(i - s), Pow2(s);
    PowSum(i - s, s);
    Commute(p, q);
    DivideTwice(a * q, q, p);
    Cancel(a, q);
  }

  lemma Cancel(a: int, q: nat)
    requires q > 0
    ensures a * q / q == a
  {
    DivideSum(0, a, q);
  }

  lemma Commute(x: int, y: int)
    ensures x * y == y * x
  {
  }

  lemma NoBit(a: int, s: nat, i: nat)
    requires i < s
    ensures a * Pow2(s) / Pow2(i) % 2 == 0
  {
    hide Pow2;
    PowSum(s - i - 1, i);
    PowStep(s - 1);
    EvenQuotient(a, Pow2(s), Pow2(s - i - 1), Pow2(i));
  }

  lemma EvenQuotient(a: int, t: int, q: nat, p: nat)
    requires p > 0 && t == 2 * (q * p)
    ensures a * t / p % 2 == 0
  {
    Regroup(a, q, p);
    Cancel(2 * (a * q), p);
    EvenMore(0, a * q);
  }

  lemma Regroup(a: int, q: int, p: int)
    ensures a * (2 * (q * p)) == 2 * (a * q) * p
  {
    assert a * (q * p) == (a * q) * p;
  }

  /** A shift to the left moves every bit up and zeros in. */
  lemma LeftShift(a: u32, b: u32, i: nat)
    requires i < 32
    ensures OpValue(SLL, a, b) / Pow2(i) % 2 == if i >= b % 32 then a / Pow2(i - b % 32) % 2 else 0
  {
    hide Pow2, Wrap;
    var s := b % 32;
    WrappedBit(a * Pow2(s), i);
    if i >= s {
      UpBit(a, s, i);
    } else {
      NoBit(a, s, i);
    }
  }

  // ----- products and quotients (chapter 7) -----

  /** The upper and lower halves make the product of the operands, read as each instruction reads them. */
  lemma ProductHalves(a: u32, b: u32)
    ensures Signed(MulValue(MULH, a, b)) * 0x1_0000_0000 + MulValue(MUL, a, b) == Signed(a) * Signed(b)
    ensures Signed(MulValue(MULHSU, a, b)) * 0x1_0000_0000 + MulValue(MUL, a, b) == Signed(a) * b
    ensures MulValue(MULHU, a, b) * 0x1_0000_0000 + MulValue(MUL, a, b) == a * b
  {
    var ss, su, uu := Signed(a) * Signed(b), Signed(a) * b, a * b;
    SameLow(a, b);
    ProductBounds(a, b);
    hide Signed, Wrap;
    HighHalf(ss);
    HighHalf(su);
    UpperHalf(uu);
  }

  lemma SameLow(a: u32, b: u32)
    ensures Wrap(Signed(a) * Signed(b)) == Wrap(a * b) && Wrap(Signed(a) * b) == Wrap(a * b)
  {
    var i, j := if a < 0x8000_0000 then 0 else 1, if b < 0x8000_0000 then 0 else 1;
    assert Signed(a) == a - i * TWO32 && Signed(b) == b - j * TWO32;
    assert Signed(a) * b == a * b + (-i * b) * TWO32;
    assert Signed(a) * Signed(b) == a * b + (-i * b - j * a + i * j * TWO32) * TWO32;
    WrapShift(a * b, -i * b);
    WrapShift(a * b, -i * b - j * a + i * j * TWO32);
  }

  lemma WrapShift(x: int, k: int)
    ensures Wrap(x + k * TWO32) == Wrap(x)
  {
    ModUnique(x + k * TWO32, TWO32, x / TWO32 + k, x % TWO32);
  }

  lemma HighHalf(p: int)
    requires -0x8000_0000_0000_0000 <= p < 0x8000_0000_0000_0000
    ensures Signed(Wrap(p / TWO32)) * TWO32 + Wrap(p) == p
  {
  }

  lemma UpperHalf(p: int)
    requires 0 <= p < TWO64
    ensures Wrap(p / TWO32) * TWO32 + Wrap(p) == p
  {
  }

  lemma ProductBounds(a: u32, b: u32)
    ensures -0x8000_0000_0000_0000 <= Signed(a) * Signed(b) < 0x8000_0000_0000_0000
    ensures -0x8000_0000_0000_0000 <= Signed(a) * b < 0x8000_0000_0000_0000
    ensures 0 <= a * b < TWO64
  {
    hide Signed;
    SignedIs(a);
    SignedIs(b);
    var x, y := Signed(a), Signed(b);
    MulBound(x, y, 0x8000_0000, 0x8000_0000);
    MulBound(x, b, 0x8000_0000, 0xffff_ffff);
    MulBound(a, b, 0xffff_ffff, 0xffff_ffff);
    Nonnegative(a, b);
  }

  lemma MulBound(x: int, y: int, m: int, n: int)
    requires -m <= x <= m && -n <= y <= n
    ensures -(m * n) <= x * y <= m * n
  {
    Nonnegative(m - x, n + y);
    Nonnegative(m + x, n - y);
    Nonnegative(m - x, n - y);
    Nonnegative(m + x, n + y);
    assert (m - x) * (n + y) + (m + x) * (n - y) == 2 * (m * n) - 2 * (x * y);
    assert (m - x) * (n - y) + (m + x) * (n + y) == 2 * (m * n) + 2 * (x * y);
  }

  lemma Nonnegative(x: int, y: int)
    requires x >= 0 && y >= 0
    ensures x * y >= 0
  {
  }

  /**
   Division truncates toward zero with the remainder of the dividend's sign; dividing by zero gives all ones and the
   dividend, and the one overflow gives the dividend and zero.
   */
  lemma DivisionTable(a: u32, b: u32)
    ensures b != 0 ==>
      MulValue(DIVU, a, b) * b + MulValue(REMU, a, b) == a && MulValue(REMU, a, b) < b
    ensures b != 0 && !(a == 0x8000_0000 && b == 0xffff_ffff) ==>
      Truncates(Signed(a), Signed(b), Signed(MulValue(DIV, a, b)), Signed(MulValue(REM, a, b)))
    ensures a == 0x8000_0000 && b == 0xffff_ffff ==> MulValue(DIV, a, b) == a && MulValue(REM, a, b) == 0
    ensures b == 0 ==>
      MulValue(DIV, a, b) == MulValue(DIVU, a, b) == 0xffff_ffff && MulValue(REM, a, b) == MulValue(REMU, a, b) == a
  {
    hide MulValue, Truncates;
    if b == 0 {
      ByZero(a);
    } else {
      UnsignedDivision(a, b);
      if a == 0x8000_0000 && b == 0xffff_ffff { Overflow(); } else { SignedDivision(a, b); }
    }
  }

  lemma ByZero(a: u32)
    ensures MulValue(DIV, a, 0) == MulValue(DIVU, a, 0) == 0xffff_ffff && MulValue(REM, a, 0) == MulValue(REMU, a, 0) == a
  {
  }

  lemma Overflow()
    ensures MulValue(DIV, 0x8000_0000, 0xffff_ffff) == 0x8000_0000 && MulValue(REM, 0x8000_0000, 0xffff_ffff) == 0
  {
  }

  lemma UnsignedDivision(a: u32, b: u32)
    requires b != 0
    ensures MulValue(DIVU, a, b) * b + MulValue(REMU, a, b) == a && MulValue(REMU, a, b) < b
  {
    hide Quot, Rem, Signed;
    assert a == a / b * b + a % b;
    UnsignedSmall(a, b);
  }

  lemma SignedDivision(a: u32, b: u32)
    requires b != 0 && !(a == 0x8000_0000 && b == 0xffff_ffff)
    ensures Truncates(Signed(a), Signed(b), Signed(MulValue(DIV, a, b)), Signed(MulValue(REM, a, b)))
  {
    hide Quot, Rem, Truncates;
    assert Signed(b) != 0;
    TruncationHolds(Signed(a), Signed(b));
    QuotientBounds(a, b);
  }

  lemma UnsignedSmall(a: u32, b: u32)
    requires b != 0
    ensures 0 <= a / b <= a && 0 <= a % b < b
  {
  }

  lemma QuotientBounds(a: u32, b: u32)
    requires b != 0 && !(a == 0x8000_0000 && b == 0xffff_ffff)
    ensures var q, r := Quot(Signed(a), Signed(b)), Rem(Signed(a), Signed(b));
      Signed(Wrap(q)) == q && Signed(Wrap(r)) == r
  {
    var n, d := Signed(a), Signed(b);
    TruncationHolds(n, d);
    SmallQuot(n, d);
    hide Quot, Rem;
    SignedSmall(Quot(n, d));
    SignedSmall(Rem(n, d));
  }

  lemma SignedSmall(x: int)
    requires -0x8000_0000 <= x < 0x8000_0000
    ensures Signed(Wrap(x)) == x
  {
  }

  lemma SmallQuot(n: int, d: int)
    requires -0x8000_0000 <= n < 0x8000_0000 && -0x8000_0000 <= d < 0x8000_0000 && d != 0 && !(n == -0x8000_0000 && d == -1)
    ensures -0x8000_0000 <= Quot(n, d) < 0x8000_0000
  {
    Shrinks(Abs(n), Abs(d));
  }

  lemma Shrinks(n: nat, d: nat)
    requires d > 0
    ensures n / d <= n && (d >= 2 ==> 2 * (n / d) <= n) && (d == 1 ==> n / d == n)
  {
    var q := n / d;
    assert n == q * d + n % d;
    if d >= 2 {
      assert q * d == q * 2 + q * (d - 2);
    }
  }

  // ----- the instruction listing (section 2.2 and chapter 24) -----

  function Opcode(w: bv32): bv32 { w & 0x7f }
  function Funct3(w: bv32): bv32 { (w >> 12) & 7 }
  function Funct7(w: bv32): bv32 { w >> 25 }
  function Rd(w: bv32): RegIndex { ((w >> 7) & 0x1f) as bv5 }
  function Rs1(w: bv32): RegIndex { ((w >> 15) & 0x1f) as bv5 }
  function Rs2(w: bv32): RegIndex { ((w >> 20) & 0x1f) as bv5 }

  // The immediates; those of branches and jumps without their bit 0, which is zero.
  function ImmI(w: bv32): bv12 { (w >> 20) as bv12 }
  function ImmB(w: bv32): bv12 { (((w >> 31) << 11) | (((w >> 7) & 1) << 10) | (((w >> 25) & 0x3f) << 4) | ((w >> 8) & 0xf)) as bv12 }
  function ImmU(w: bv32): bv20 { (w >> 12) as bv20 }
  function ImmJ(w: bv32): bv20 {
    (((w >> 31) << 19) | (((w >> 12) & 0xff) << 11) | (((w >> 20) & 1) << 10) | ((w >> 21) & 0x3ff)) as bv20
  }

  // The instruction a word lists as.
  function Listed(w: bv32): Option<Instr> {
    var f3, f7 := Funct3(w), Funct7(w);
    match Opcode(w)
    case 0x37 => Some(Lui(Rd(w), ImmU(w)))
    case 0x17 => Some(Auipc(Rd(w), ImmU(w)))
    case 0x6f => Some(Jal(Rd(w), ImmJ(w)))
    case 0x67 => if f3 == 0 then Some(Jalr(Rd(w), Rs1(w), ImmI(w))) else None
    case 0x63 =>
      var k := ListedBranch(f3);
      if k.Some? then Some(Branch(k.value, Rs1(w), Rs2(w), ImmB(w))) else None
    case 0x13 =>
      if f3 == 1 then if f7 == 0 then Some(ShiftImm(SLLI, Rd(w), Rs1(w), Rs2(w))) else None
      else if f3 == 5 then
        if f7 == 0 then Some(ShiftImm(SRLI, Rd(w), Rs1(w), Rs2(w))) else if f7 == 0x20 then Some(ShiftImm(SRAI, Rd(w), Rs1(w), Rs2(w))) else None
      else
        var k := ListedImm(f3);
        if k.Some? then Some(OpImm(k.value, Rd(w), Rs1(w), ImmI(w))) else None
    case 0x33 =>
      if f7 == 1 then
        var k := ListedMul(f3);
        if k.Some? then Some(MulDiv(k.value, Rd(w), Rs1(w), Rs2(w))) else None
      else
        var k := ListedOp(f3, f7);
        if k.Some? then Some(Op(k.value, Rd(w), Rs1(w), Rs2(w))) else None
    case 0x0f => if f3 == 0 then Some(Fence(ImmI(w))) else None
    case _ => None
  }

  function ListedBranch(f3: bv32): Option<BranchKind> {
    match f3
    case 0 => Some(BEQ) case 1 => Some(BNE) case 4 => Some(BLT) case 5 => Some(BGE) case 6 => Some(BLTU) case 7 => Some(BGEU)
    case _ => None
  }

  function ListedImm(f3: bv32): Option<ImmKind> {
    match f3
    case 0 => Some(ADDI) case 2 => Some(SLTI) case 3 => Some(SLTIU) case 4 => Some(XORI) case 6 => Some(ORI) case 7 => Some(ANDI)
    case _ => None
  }

  function ListedMul(f3: bv32): Option<MulKind> {
    match f3
    case 0 => Some(MUL) case 1 => Some(MULH) case 2 => Some(MULHSU) case 3 => Some(MULHU)
    case 4 => Some(DIV) case 5 => Some(DIVU) case 6 => Some(REM) case 7 => Some(REMU)
    case _ => None
  }

  function ListedOp(f3: bv32, f7: bv32): Option<OpKind> {
    if f7 == 0x20 then if f3 == 0 then Some(SUB) else if f3 == 5 then Some(SRA) else None
    else if f7 != 0 then None
    else
      match f3
      case 0 => Some(ADD) case 1 => Some(SLL) case 2 => Some(SLT) case 3 => Some(SLTU)
      case 4 => Some(XOR) case 5 => Some(SRL) case 6 => Some(OR) case 7 => Some(AND)
      case _ => None
  }

  lemma FieldsR(op: bv32, f3: bv32, f7: bv32, rd: RegIndex, rs1: RegIndex, rs2: RegIndex)
    requires op <= 0x7f && f3 <= 7 && f7 <= 0x7f
    ensures var w := FormatR(op, f3, f7, rd, rs1, rs2);
      Opcode(w) == op && Funct3(w) == f3 && Funct7(w) == f7 && Rd(w) == rd && Rs1(w) == rs1 && Rs2(w) == rs2
  {
  }

  lemma FieldsI(op: bv32, f3: bv32, rd: RegIndex, rs1: RegIndex, imm: bv12)
    requires op <= 0x7f && f3 <= 7
    ensures var w := FormatI(op, f3, rd, rs1, imm);
      Opcode(w) == op && Funct3(w) == f3 && Rd(w) == rd && Rs1(w) == rs1 && ImmI(w) == imm
  {
  }

  lemma FieldsB(op: bv32, f3: bv32, rs1: RegIndex, rs2: RegIndex, half: bv12)
    requires op <= 0x7f && f3 <= 7
    ensures var w := FormatB(op, f3, rs1, rs2, half);
      Opcode(w) == op && Funct3(w) == f3 && Rs1(w) == rs1 && Rs2(w) == rs2 && ImmB(w) == half
  {
  }

  function ImmS(w: bv32): bv12 { ((w >> 25 << 5) | ((w >> 7) & 0x1f)) as bv12 }

  /** The fields of a store, which is not one of the instructions listed here. */
  lemma FieldsS(op: bv32, f3: bv32, rs1: RegIndex, rs2: RegIndex, imm: bv12)
    requires op <= 0x7f && f3 <= 7
    ensures var w := FormatS(op, f3, rs1, rs2, imm);
      Opcode(w) == op && Funct3(w) == f3 && Rs1(w) == rs1 && Rs2(w) == rs2 && ImmS(w) == imm
  {
  }

  lemma FieldsU(op: bv32, rd: RegIndex, imm: bv20)
    requires op <= 0x7f
    ensures var w := FormatU(op, rd, imm); Opcode(w) == op && Rd(w) == rd && ImmU(w) == imm
  {
  }

  lemma FieldsJ(op: bv32, rd: RegIndex, half: bv20)
    requires op <= 0x7f
    ensures var w := FormatJ(op, rd, half); Opcode(w) == op && Rd(w) == rd && ImmJ(w) == half
  {
  }

  lemma ListsUpper(w: bv32)
    ensures Opcode(w) == 0x37 ==> Listed(w) == Some(Lui(Rd(w), ImmU(w)))
    ensures Opcode(w) == 0x17 ==> Listed(w) == Some(Auipc(Rd(w), ImmU(w)))
    ensures Opcode(w) == 0x6f ==> Listed(w) == Some(Jal(Rd(w), ImmJ(w)))
    ensures Opcode(w) == 0x67 && Funct3(w) == 0 ==> Listed(w) == Some(Jalr(Rd(w), Rs1(w), ImmI(w)))
    ensures Opcode(w) == 0x0f && Funct3(w) == 0 ==> Listed(w) == Some(Fence(ImmI(w)))
  {
    hide Opcode, Funct3, Funct7, Rd, Rs1, Rs2, ImmI, ImmB, ImmU, ImmJ, ListedBranch, ListedImm, ListedMul, ListedOp;
  }

  lemma ListsBranch(w: bv32, k: BranchKind)
    requires Opcode(w) == 0x63 && Funct3(w) == BranchFunct3(k)
    ensures Listed(w) == Some(Branch(k, Rs1(w), Rs2(w), ImmB(w)))
  {
    hide Opcode, Funct3, Funct7, Rd, Rs1, Rs2, ImmI, ImmB, ImmU, ImmJ;
  }

  lemma ListsImm(w: bv32, k: ImmKind)
    requires Opcode(w) == 0x13 && Funct3(w) == ImmFunct3(k)
    ensures Listed(w) == Some(OpImm(k, Rd(w), Rs1(w), ImmI(w)))
  {
    hide Opcode, Funct3, Funct7, Rd, Rs1, Rs2, ImmI, ImmB, ImmU, ImmJ;
  }

  lemma ListsShift(w: bv32, k: ShiftKind)
    requires Opcode(w) == 0x13 && Funct3(w) == (if k == SLLI then 1 else 5) && Funct7(w) == (if k == SRAI then 0x20 else 0)
    ensures Listed(w) == Some(ShiftImm(k, Rd(w), Rs1(w), Rs2(w)))
  {
    hide Opcode, Funct3, Funct7, Rd, Rs1, Rs2, ImmI, ImmB, ImmU, ImmJ;
  }

  lemma OpListed(k: OpKind)
    ensures ListedOp(OpFunct(k).0, OpFunct(k).1) == Some(k) && OpFunct(k).1 != 1
  {
  }

  lemma ListsOp(w: bv32, k: OpKind)
    requires Opcode(w) == 0x33 && Funct3(w) == OpFunct(k).0 && Funct7(w) == OpFunct(k).1
    ensures Listed(w) == Some(Op(k, Rd(w), Rs1(w), Rs2(w)))
  {
    hide Opcode, Funct3, Funct7, Rd, Rs1, Rs2, ImmI, ImmB, ImmU, ImmJ, ListedOp, ListedMul, ListedImm, ListedBranch, OpFunct;
    OpListed(k);
  }

  lemma ListsMul(w: bv32, k: MulKind)
    requires Opcode(w) == 0x33 && Funct3(w) == MulFunct3(k) && Funct7(w) == 1
    ensures Listed(w) == Some(MulDiv(k, Rd(w), Rs1(w), Rs2(w)))
  {
    hide Opcode, Funct3, Funct7, Rd, Rs1, Rs2, ImmI, ImmB, ImmU, ImmJ;
  }

  lemma FunctBounds(i: Instr)
    ensures i.Branch? ==> BranchFunct3(i.branch) <= 7
    ensures i.OpImm? ==> ImmFunct3(i.imm) <= 7
    ensures i.MulDiv? ==> MulFunct3(i.mul) <= 7
    ensures i.Op? ==> OpFunct(i.op).0 <= 7 && OpFunct(i.op).1 <= 0x20
  {
  }

  /** The word of every instruction lists as that instruction, operands included. */
  lemma EncodedAsListed(i: Instr)
    ensures Listed(Encode(i)) == Some(i)
  {
    hide Listed, Opcode, Funct3, Funct7, Rd, Rs1, Rs2, ImmI, ImmB, ImmU, ImmJ, FormatR, FormatI, FormatB, FormatU, FormatJ;
    hide BranchFunct3, ImmFunct3, MulFunct3, OpFunct;
    FunctBounds(i);
    ListsUpper(Encode(i));
    match i
    case Lui(rd, imm) => FieldsU(0x37, rd, imm);
    case Auipc(rd, imm) => FieldsU(0x17, rd, imm);
    case Jal(rd, imm) => FieldsJ(0x6f, rd, imm);
    case Jalr(rd, rs1, imm) => FieldsI(0x67, 0, rd, rs1, imm);
    case Branch(k, rs1, rs2, imm) => FieldsB(0x63, BranchFunct3(k), rs1, rs2, imm); ListsBranch(Encode(i), k);
    case OpImm(k, rd, rs1, imm) => FieldsI(0x13, ImmFunct3(k), rd, rs1, imm); ListsImm(Encode(i), k);
    case ShiftImm(k, rd, rs1, shamt) =>
      FieldsR(0x13, if k == SLLI then 1 else 5, if k == SRAI then 0x20 else 0, rd, rs1, shamt);
      ListsShift(Encode(i), k);
    case Op(k, rd, rs1, rs2) => FieldsR(0x33, OpFunct(k).0, OpFunct(k).1, rd, rs1, rs2); ListsOp(Encode(i), k);
    case MulDiv(k, rd, rs1, rs2) => FieldsR(0x33, MulFunct3(k), 1, rd, rs1, rs2); ListsMul(Encode(i), k);
    case Fence(ordering) => FieldsI(0x0f, 0, 0, 0, ordering);
  }
}
