/**
 The reference: RV32I integer, branch and jump instructions and the M extension, with
 their encodings, as the RISC-V Unprivileged ISA (20191213) defines them.
 */
module Rv32 {
  import opened Words

  // The architectural state of a hart: 32 integer registers, the first hardwired to zero, and the pc.
  datatype Hart = Hart(x: seq<u32>, pc: u32) {
    ghost predicate Valid() { |x| == 32 && x[0] == 0 }
  }

  type RegIndex = bv5

  datatype OpKind = ADD | SUB | AND | OR | XOR | SLT | SLTU | SLL | SRL | SRA
  datatype ImmKind = ADDI | SLTI | SLTIU | XORI | ORI | ANDI
  datatype ShiftKind = SLLI | SRLI | SRAI
  datatype MulKind = MUL | MULH | MULHSU | MULHU | DIV | DIVU | REM | REMU
  datatype BranchKind = BEQ | BNE | BLT | BGE | BLTU | BGEU

  // The immediates of JAL and the branches count halfwords, as their encodings do.
  datatype Instr =
    | Lui(rd: RegIndex, imm20: bv20)
    | Auipc(rd: RegIndex, imm20: bv20)
    | Jal(rd: RegIndex, imm20: bv20)
    | Jalr(rd: RegIndex, rs1: RegIndex, imm12: bv12)
    | Branch(branch: BranchKind, rs1: RegIndex, rs2: RegIndex, imm12: bv12)
    | OpImm(imm: ImmKind, rd: RegIndex, rs1: RegIndex, imm12: bv12)
    | ShiftImm(shift: ShiftKind, rd: RegIndex, rs1: RegIndex, shamt: bv5)
    | Op(op: OpKind, rd: RegIndex, rs1: RegIndex, rs2: RegIndex)
    | MulDiv(mul: MulKind, rd: RegIndex, rs1: RegIndex, rs2: RegIndex)
    | Fence(ordering: bv12)

  // ----- encoding (sections 2.2 and 2.3, chapter 24) -----

  function FormatR(opcode: bv32, funct3: bv32, funct7: bv32, rd: RegIndex, rs1: RegIndex, rs2: RegIndex): bv32 {
    opcode | ((rd as bv32) << 7) | (funct3 << 12) | ((rs1 as bv32) << 15) | ((rs2 as bv32) << 20) | (funct7 << 25)
  }

  function FormatI(opcode: bv32, funct3: bv32, rd: RegIndex, rs1: RegIndex, imm: bv12): bv32 {
    opcode | ((rd as bv32) << 7) | (funct3 << 12) | ((rs1 as bv32) << 15) | ((imm as bv32) << 20)
  }

  function FormatS(opcode: bv32, funct3: bv32, rs1: RegIndex, rs2: RegIndex, imm: bv12): bv32 {
    var i := imm as bv32;
    opcode | ((i & 0x1f) << 7) | (funct3 << 12) | ((rs1 as bv32) << 15) | ((rs2 as bv32) << 20) | ((i >> 5) << 25)
  }

  // imm[12|10:5] at 31:25 and imm[4:1|11] at 11:7, for an immediate counted in halfwords
  function FormatB(opcode: bv32, funct3: bv32, rs1: RegIndex, rs2: RegIndex, half: bv12): bv32 {
    var i := half as bv32;
    opcode | (((i >> 10) & 1) << 7) | ((i & 0xf) << 8) | (funct3 << 12) | ((rs1 as bv32) << 15)
    | ((rs2 as bv32) << 20) | (((i >> 4) & 0x3f) << 25) | (((i >> 11) & 1) << 31)
  }

  function FormatU(opcode: bv32, rd: RegIndex, imm: bv20): bv32 {
    opcode | ((rd as bv32) << 7) | ((imm as bv32) << 12)
  }

  // imm[20|10:1|11|19:12] at 31:12, for an immediate counted in halfwords
  function FormatJ(opcode: bv32, rd: RegIndex, half: bv20): bv32 {
    var i := half as bv32;
    opcode | ((rd as bv32) << 7) | (((i >> 11) & 0xff) << 12) | (((i >> 10) & 1) << 20)
    | ((i & 0x3ff) << 21) | (((i >> 19) & 1) << 31)
  }

  function OpFunct(k: OpKind): (bv32, bv32) {
    match k
    case ADD => (0, 0)
    case SUB => (0, 0x20)
    case SLL => (1, 0)
    case SLT => (2, 0)
    case SLTU => (3, 0)
    case XOR => (4, 0)
    case SRL => (5, 0)
    case SRA => (5, 0x20)
    case OR => (6, 0)
    case AND => (7, 0)
  }

  function MulFunct3(k: MulKind): bv32 {
    match k
    case MUL => 0
    case MULH => 1
    case MULHSU => 2
    case MULHU => 3
    case DIV => 4
    case DIVU => 5
    case REM => 6
    case REMU => 7
  }

  function ImmFunct3(k: ImmKind): bv32 {
    match k
    case ADDI => 0
    case SLTI => 2
    case SLTIU => 3
    case XORI => 4
    case ORI => 6
    case ANDI => 7
  }

  function BranchFunct3(k: BranchKind): bv32 {
    match k
    case BEQ => 0
    case BNE => 1
    case BLT => 4
    case BGE => 5
    case BLTU => 6
    case BGEU => 7
  }

  function Encode(i: Instr): bv32 {
    match i
    case Lui(rd, imm) => FormatU(0x37, rd, imm)
    case Auipc(rd, imm) => FormatU(0x17, rd, imm)
    case Jal(rd, imm) => FormatJ(0x6f, rd, imm)
    case Jalr(rd, rs1, imm) => FormatI(0x67, 0, rd, rs1, imm)
    case Branch(k, rs1, rs2, imm) => FormatB(0x63, BranchFunct3(k), rs1, rs2, imm)
    case OpImm(k, rd, rs1, imm) => FormatI(0x13, ImmFunct3(k), rd, rs1, imm)
    case ShiftImm(k, rd, rs1, shamt) =>
      FormatR(0x13, if k == SLLI then 1 else 5, if k == SRAI then 0x20 else 0, rd, rs1, shamt)
    case Op(k, rd, rs1, rs2) => FormatR(0x33, OpFunct(k).0, OpFunct(k).1, rd, rs1, rs2)
    case MulDiv(k, rd, rs1, rs2) => FormatR(0x33, MulFunct3(k), 1, rd, rs1, rs2)
    case Fence(ordering) => FormatI(0x0f, 0, 0, 0, ordering)
  }

  // ----- execution -----

  function Simm12(i: bv12): int {
    if i as int < 0x800 then i as int else i as int - 0x1000
  }

  function Simm20(i: bv20): int {
    if i as int < 0x8_0000 then i as int else i as int - 0x10_0000
  }

  function Flag(b: bool): u32 { if b then 1 else 0 }

  function OpValue(k: OpKind, a: u32, b: u32): u32 {
    match k
    case ADD => Wrap(a + b)
    case SUB => Wrap(a - b)
    case AND => Bitwise32(And, a, b)
    case OR => Bitwise32(Or, a, b)
    case XOR => Bitwise32(Xor, a, b)
    case SLT => Flag(Signed(a) < Signed(b))
    case SLTU => Flag(a < b)
    case SLL => Wrap(a * Pow2(b % 32))
    case SRL => Wrap(a / Pow2(b % 32))
    case SRA => Wrap(Signed(a) / Pow2(b % 32))
  }

  // A register-immediate instruction is its register form on the sign-extended immediate.
  function ImmOp(k: ImmKind): OpKind {
    match k
    case ADDI => ADD
    case SLTI => SLT
    case SLTIU => SLTU
    case XORI => XOR
    case ORI => OR
    case ANDI => AND
  }

  function ShiftOp(k: ShiftKind): OpKind {
    match k
    case SLLI => SLL
    case SRLI => SRL
    case SRAI => SRA
  }

  // Division rounding toward zero; `TruncationUnique` says it is the only pair with these properties.
  function Quot(n: int, d: int): int
    requires d != 0
  {
    if (n >= 0) == (d > 0) then Abs(n) / Abs(d) else -(Abs(n) / Abs(d))
  }

  function Rem(n: int, d: int): int
    requires d != 0
  {
    n - Quot(n, d) * d
  }

  function Abs(x: int): nat { if x < 0 then -x else x }

  // Sections 7.1 and 7.2, with the results of table 7.1 for division by zero and overflow.
  function MulValue(k: MulKind, a: u32, b: u32): u32 {
    match k
    case MUL => Wrap(a * b)
    case MULH => Wrap(Signed(a) * Signed(b) / TWO32)
    case MULHSU => Wrap(Signed(a) * b / TWO32)
    case MULHU => Wrap(a * b / TWO32)
    case DIV => if b == 0 then Wrap(-1) else Wrap(Quot(Signed(a), Signed(b)))
    case DIVU => if b == 0 then Wrap(-1) else Wrap(a / b)
    case REM => if b == 0 then a else Wrap(Rem(Signed(a), Signed(b)))
    case REMU => if b == 0 then a else Wrap(a % b)
  }

  predicate Taken(k: BranchKind, a: u32, b: u32) {
    match k
    case BEQ => a == b
    case BNE => a != b
    case BLT => Signed(a) < Signed(b)
    case BGE => Signed(a) >= Signed(b)
    case BLTU => a < b
    case BGEU => a >= b
  }

  function Read(h: Hart, r: RegIndex): u32
    requires h.Valid()
  {
    h.x[r as int]
  }

  function Write(h: Hart, rd: RegIndex, v: u32, pc: int): (h': Hart)
    requires h.Valid()
    ensures h'.Valid()
  {
    Hart(if rd == 0 then h.x else h.x[rd as int := v], Wrap(pc))
  }

  function Execute(i: Instr, h: Hart): (h': Hart)
    requires h.Valid()
    ensures h'.Valid()
  {
    match i
    case Lui(rd, imm) => Write(h, rd, Wrap((imm as int) * 0x1000), h.pc + 4)
    case Auipc(rd, imm) => Write(h, rd, Wrap((imm as int) * 0x1000 + h.pc), h.pc + 4)
    case Jal(rd, imm) => Write(h, rd, Wrap(h.pc + 4), h.pc + 2 * Simm20(imm))
    case Jalr(rd, rs1, imm) =>
      var t := Wrap(Read(h, rs1) + Simm12(imm));
      Write(h, rd, Wrap(h.pc + 4), t - t % 2)
    case Branch(k, rs1, rs2, imm) =>
      Hart(h.x, Wrap(h.pc + if Taken(k, Read(h, rs1), Read(h, rs2)) then 2 * Simm12(imm) else 4))
    case OpImm(k, rd, rs1, imm) =>
      Write(h, rd, OpValue(ImmOp(k), Read(h, rs1), Wrap(Simm12(imm))), h.pc + 4)
    case ShiftImm(k, rd, rs1, shamt) =>
      Write(h, rd, OpValue(ShiftOp(k), Read(h, rs1), shamt as int), h.pc + 4)
    case Op(k, rd, rs1, rs2) => Write(h, rd, OpValue(k, Read(h, rs1), Read(h, rs2)), h.pc + 4)
    case MulDiv(k, rd, rs1, rs2) => Write(h, rd, MulValue(k, Read(h, rs1), Read(h, rs2)), h.pc + 4)
    case Fence(_) => Hart(h.x, Wrap(h.pc + 4))
  }

  // An instruction that never continues at the next address ends a translation unit.
  predicate EndsUnit(i: Instr) {
    i.Jal? || i.Jalr? || i.Branch?
  }

  // ----- what division means -----

  ghost predicate Truncates(n: int, d: int, q: int, r: int) {
    n == q * d + r && Abs(r) < Abs(d) && (r == 0 || (r < 0 <==> n < 0))
  }

  lemma TruncationHolds(n: int, d: int)
    requires d != 0
    ensures Truncates(n, d, Quot(n, d), Rem(n, d))
  {
    var a, b := Abs(n), Abs(d);
    assert a == (a / b) * b + a % b;
  }

  lemma {:induction false} TruncationUnique(n: int, d: int, q: int, r: int)
    requires d != 0 && Truncates(n, d, q, r)
    ensures q == Quot(n, d) && r == Rem(n, d)
  {
    var a, b := Abs(n), Abs(d);
    var q1 := if (n >= 0) == (d > 0) then q else -q;
    var r1 := Abs(r);
    if n < 0 {
      assert -n == (-q) * d + (-r);
      assert q1 * b == -(q * d);
    } else {
      assert q1 * b == q * d;
    }
    assert a == q1 * b + r1;
    ModUnique(a, b, q1, r1);
  }
}
