/** The translators invert the encoding: each encoded instruction gets its own template and operands. */
module TranslateProof {
  import opened Words
  import opened Rv32
  import opened Decoder
  import opened Translator

  // ----- facts about bits -----

  lemma IndexBits(r: RegIndex)
    ensures (r as bv32) as int == Index(r) && Index(r) < 32
  {
  }

  lemma ImmBits(i: bv12, j: bv20)
    ensures (i as bv32) as int == i as int
    ensures (j as bv32) as int == j as int
  {
  }

  lemma OpcodeU(op: bv32, rd: RegIndex, j: bv20)
    requires op <= 0x7f
    ensures FormatU(op, rd, j) & 0x7f == op
  {
  }

  lemma OpcodeJ(op: bv32, rd: RegIndex, j: bv20)
    requires op <= 0x7f
    ensures FormatJ(op, rd, j) & 0x7f == op
  {
  }

  lemma OpcodeI(op: bv32, f3: bv32, rd: RegIndex, rs1: RegIndex, i: bv12)
    requires op <= 0x7f && f3 <= 7
    ensures FormatI(op, f3, rd, rs1, i) & 0x7f == op
  {
  }

  lemma OpcodeB(op: bv32, f3: bv32, rs1: RegIndex, rs2: RegIndex, i: bv12)
    requires op <= 0x7f && f3 <= 7
    ensures FormatB(op, f3, rs1, rs2, i) & 0x7f == op
  {
  }

  lemma OpcodeR(op: bv32, f3: bv32, f7: bv32, rd: RegIndex, rs1: RegIndex, rs2: RegIndex)
    requires op <= 0x7f && f3 <= 7 && f7 <= 0x7f
    ensures FormatR(op, f3, f7, rd, rs1, rs2) & 0x7f == op
  {
  }

  // A shift immediate is the R format read as I: the funct7 bits sit above the shift amount.
  lemma ShiftBits(f3: bv32, f7: bv32, rd: RegIndex, rs1: RegIndex, shamt: bv5)
    requires f3 <= 7 && (f7 == 0 || f7 == 0x20)
    ensures Decode(FormatR(0x13, f3, f7, rd, rs1, shamt), TypeI) ==
      Decoding(0x13, f3, rd as bv32, rs1 as bv32, 0, 0, (shamt as bv32) + (if f7 == 0 then 0 else 0x400))
  {
  }

  lemma ShiftAmount(shamt: bv5)
    ensures (shamt as bv32) as int == shamt as int
    ensures ((shamt as bv32) + 0x400) as int == shamt as int + 0x400
  {
  }

  lemma FenceBits(ordering: bv12)
    ensures Decode(FormatI(0x0f, 0, 0, 0, ordering), TypeS).funct3 == 0
  {
  }

  // ----- the dispatch on the opcode, for any word -----

  lemma Dispatch(w: bv32, pc: u32)
    ensures w & 0x7f == 0x37 ==> Translate(w, pc) == TranslateUpper(LuiBlock, Numbers(Decode(w, TypeU)), pc)
    ensures w & 0x7f == 0x17 ==> Translate(w, pc) == TranslateUpper(AuipcBlock, Numbers(Decode(w, TypeU)), pc)
    ensures w & 0x7f == 0x33 ==> Translate(w, pc) == TranslateOp(Numbers(Decode(w, TypeR)))
    ensures w & 0x7f == 0x0f ==> Translate(w, pc) == TranslateFence(Numbers(Decode(w, TypeS)), pc)
  {
  }

  lemma DispatchJal(w: bv32, pc: u32)
    requires w & 0x7f == 0x6f
    ensures Translate(w, pc) == TranslateJal(Numbers(Decode(w, TypeUJ)), pc, JOffset(Decode(w, TypeUJ).imm))
  {
    assert (w & 0x7f) as int == 0x6f;
  }

  lemma DispatchI(w: bv32, pc: u32)
    ensures w & 0x7f == 0x67 ==> Translate(w, pc) == TranslateJalr(Numbers(Decode(w, TypeI)), pc, IOffset(Decode(w, TypeI).imm))
    ensures w & 0x7f == 0x13 ==> Translate(w, pc) == TranslateImm(Numbers(Decode(w, TypeI)), IOffset(Decode(w, TypeI).imm))
  {
  }

  lemma DispatchB(w: bv32, pc: u32)
    requires w & 0x7f == 0x63
    ensures Translate(w, pc) == TranslateBranch(Numbers(Decode(w, TypeB)), pc, BOffset(Decode(w, TypeB).imm))
  {
    assert (w & 0x7f) as int == 0x63;
  }

  // ----- the fields of each encoded instruction, as numbers -----

  function OpNumbers(k: OpKind): (int, int) {
    match k
    case ADD => (0, 0)
    case SUB => (0, 0x20)
    case SLL => (1, 0)
    case SLT => (2, 0)
    case SLTU => (3, 0)
    case XOR => (4, 0)
    case SRL => (5, 0)
    case SRA => (5, 0x20)
    case OR => (6, 0)
    case AND => (7, 0)
  }

  function MulNumber(k: MulKind): int {
    match k
    case MUL => 0
    case MULH => 1
    case MULHSU => 2
    case MULHU => 3
    case DIV => 4
    case DIVU => 5
    case REM => 6
    case REMU => 7
  }

  function ImmNumber(k: ImmKind): int {
    match k
    case ADDI => 0
    case SLTI => 2
    case SLTIU => 3
    case XORI => 4
    case ORI => 6
    case ANDI => 7
  }

  function BranchNumber(k: BranchKind): int {
    match k
    case BEQ => 0
    case BNE => 1
    case BLT => 4
    case BGE => 5
    case BLTU => 6
    case BGEU => 7
  }

  lemma OpNumber(k: OpKind)
    ensures OpFunct(k).0 <= 7 && OpFunct(k).1 <= 0x7f
    ensures OpFunct(k).0 as int == OpNumbers(k).0 && OpFunct(k).1 as int == OpNumbers(k).1
  {
    match k
    case ADD => case SUB => case AND => case OR => case XOR =>
    case SLT => case SLTU => case SLL => case SRL => case SRA =>
  }

  lemma Funct3Number(m: MulKind, i: ImmKind, b: BranchKind)
    ensures MulFunct3(m) <= 7 && MulFunct3(m) as int == MulNumber(m)
    ensures ImmFunct3(i) <= 7 && ImmFunct3(i) as int == ImmNumber(i)
    ensures BranchFunct3(b) <= 7 && BranchFunct3(b) as int == BranchNumber(b)
  {
  }

  lemma RegisterFields(i: Rv32.Instr) returns (f: Fields)
    requires i.Op? || i.MulDiv?
    ensures f == if i.Op? then Fields(OpNumbers(i.op).0, OpNumbers(i.op).1, Index(i.rd), Index(i.rs1), Index(i.rs2), 0)
      else Fields(MulNumber(i.mul), 1, Index(i.rd), Index(i.rs1), Index(i.rs2), 0)
    ensures Encode(i) & 0x7f == 0x33 && Numbers(Decode(Encode(i), TypeR)) == f
  {
    var f3 := if i.Op? then OpFunct(i.op).0 else MulFunct3(i.mul);
    var f7 := if i.Op? then OpFunct(i.op).1 else 1;
    if i.Op? { OpNumber(i.op); } else { Funct3Number(i.mul, ADDI, BEQ); }
    OpcodeR(0x33, f3, f7, i.rd, i.rs1, i.rs2);
    DecodeFormatR(0x33, f3, f7, i.rd, i.rs1, i.rs2);
    IndexBits(i.rd);
    IndexBits(i.rs1);
    IndexBits(i.rs2);
    f := Numbers(Decode(Encode(i), TypeR));
  }

  lemma OpTranslates(i: Rv32.Instr, pc: u32, f: Fields)
    requires i.Op?
    requires f == Fields(OpNumbers(i.op).0, OpNumbers(i.op).1, Index(i.rd), Index(i.rs1), Index(i.rs2), 0)
    ensures TranslatesTo(i, pc, TranslateOp(f))
  {
    match i.op
    case ADD => case SUB => case AND => case OR => case XOR =>
    case SLT => case SLTU => case SLL => case SRL => case SRA =>
  }

  lemma MulTranslates(i: Rv32.Instr, pc: u32, f: Fields)
    requires i.MulDiv?
    requires f == Fields(MulNumber(i.mul), 1, Index(i.rd), Index(i.rs1), Index(i.rs2), 0)
    ensures TranslatesTo(i, pc, TranslateOp(f))
  {
    match i.mul
    case MUL => case MULH => case MULHSU => case MULHU =>
    case DIV => case DIVU => case REM => case REMU =>
  }

  lemma UpperFields(op: bv32, rd: RegIndex, imm: bv20, w: bv32)
    requires op <= 0x7f && w == FormatU(op, rd, imm)
    ensures w & 0x7f == op && Numbers(Decode(w, TypeU)) == Fields(0, 0, Index(rd), 0, 0, imm as int)
  {
    OpcodeU(op, rd, imm);
    DecodeFormatU(op, rd, imm);
    IndexBits(rd);
    ImmBits(0, imm);
  }

  lemma JalFields(rd: RegIndex, imm: bv20, w: bv32)
    requires w == FormatJ(0x6f, rd, imm)
    ensures w & 0x7f == 0x6f && Numbers(Decode(w, TypeUJ)).rd == Index(rd)
    ensures JOffset(Decode(w, TypeUJ).imm) == Wrap(2 * Simm20(imm))
  {
    OpcodeJ(0x6f, rd, imm);
    DecodeFormatJ(0x6f, rd, imm);
    SignedOffsets(0, imm);
    IndexBits(rd);
  }

  lemma ImmediateFields(op: bv32, f3: bv32, rd: RegIndex, rs1: RegIndex, imm: bv12, w: bv32)
    requires op <= 0x7f && f3 <= 7 && w == FormatI(op, f3, rd, rs1, imm)
    ensures w & 0x7f == op && IOffset(Decode(w, TypeI).imm) == Wrap(Simm12(imm))
    ensures var f := Numbers(Decode(w, TypeI)); f.funct3 == f3 as int && f.rd == Index(rd) && f.rs1 == Index(rs1)
  {
    OpcodeI(op, f3, rd, rs1, imm);
    DecodeFormatI(op, f3, rd, rs1, imm);
    SignedOffsets(imm, 0);
    IndexBits(rd);
    IndexBits(rs1);
  }

  lemma BranchFields(f3: bv32, rs1: RegIndex, rs2: RegIndex, imm: bv12, w: bv32)
    requires f3 <= 7 && w == FormatB(0x63, f3, rs1, rs2, imm)
    ensures w & 0x7f == 0x63 && BOffset(Decode(w, TypeB).imm) == Wrap(2 * Simm12(imm))
    ensures var f := Numbers(Decode(w, TypeB)); f.funct3 == f3 as int && f.rs1 == Index(rs1) && f.rs2 == Index(rs2)
  {
    OpcodeB(0x63, f3, rs1, rs2, imm);
    DecodeFormatB(0x63, f3, rs1, rs2, imm);
    SignedOffsets(imm, 0);
    IndexBits(rs1);
    IndexBits(rs2);
  }

  lemma ShiftFields(f3: bv32, f7: bv32, rd: RegIndex, rs1: RegIndex, shamt: bv5, w: bv32)
    requires f3 <= 7 && (f7 == 0 || f7 == 0x20) && w == FormatR(0x13, f3, f7, rd, rs1, shamt)
    ensures w & 0x7f == 0x13
    ensures Numbers(Decode(w, TypeI)) ==
      Fields(f3 as int, 0, Index(rd), Index(rs1), 0, shamt as int + (if f7 == 0 then 0 else 0x400))
  {
    OpcodeR(0x13, f3, f7, rd, rs1, shamt);
    ShiftBits(f3, f7, rd, rs1, shamt);
    ShiftAmount(shamt);
    IndexBits(rd);
    IndexBits(rs1);
  }

  lemma BranchTranslates(i: Rv32.Instr, pc: u32, f: Fields, offset: u32)
    requires i.Branch? && f.funct3 == BranchNumber(i.branch) && f.rs1 == Index(i.rs1) && f.rs2 == Index(i.rs2)
    requires offset == Wrap(2 * Simm12(i.imm12))
    ensures TranslatesTo(i, pc, TranslateBranch(f, pc, offset))
  {
    hide Wrap, Simm12, Index;
    WrapSum(pc, 2 * Simm12(i.imm12));
  }

  lemma ImmTranslates(i: Rv32.Instr, pc: u32, f: Fields, signed: u32)
    requires i.OpImm? && f.funct3 == ImmNumber(i.imm) && f.rs1 == Index(i.rs1) && f.rd == Index(i.rd)
    requires signed == Wrap(Simm12(i.imm12))
    ensures TranslatesTo(i, pc, TranslateImm(f, signed))
  {
  }

  lemma BitTen(n: int)
    requires 0 <= n < 32
    ensures n / 0x400 % 2 == 0 && (n + 0x400) / 0x400 % 2 == 1
    ensures n % 32 == n && (n + 0x400) % 32 == n
  {
  }

  // The kind and amount of a shift as the immediate shows them.
  lemma ShiftTemplate(f: Fields, signed: u32, k: ShiftKind, n: int)
    requires 0 <= n < 32 && f.funct3 == (if k == SLLI then 1 else 5) && f.imm == n + (if k == SRAI then 0x400 else 0)
    ensures TranslateImm(f, signed) == Some(Translation(Block(ShiftBlock(k), [f.imm, f.rs1, f.rd]), false)) && f.imm % 32 == n
  {
    BitTen(n);
  }

  lemma ShiftTranslates(i: Rv32.Instr, pc: u32, f: Fields, signed: u32)
    requires i.ShiftImm? && f.rs1 == Index(i.rs1) && f.rd == Index(i.rd) && i.shamt as int < 32
    requires f.funct3 == (if i.shift == SLLI then 1 else 5)
    requires f.imm == i.shamt as int + (if i.shift == SRAI then 0x400 else 0)
    ensures TranslatesTo(i, pc, TranslateImm(f, signed))
  {
    hide TranslateImm;
    ShiftTemplate(f, signed, i.shift, i.shamt as int);
  }

  lemma WrapSum(a: int, b: int)
    ensures Wrap(a + Wrap(b)) == Wrap(a + b)
  {
  }

  // ----- one family at a time -----

  lemma TranslateUpperEncoded(i: Rv32.Instr, pc: u32, w: bv32)
    requires (i.Lui? && w == FormatU(0x37, i.rd, i.imm20)) || (i.Auipc? && w == FormatU(0x17, i.rd, i.imm20))
    ensures TranslatesTo(i, pc, Translate(w, pc))
  {
    UpperFields(if i.Lui? then 0x37 else 0x17, i.rd, i.imm20, w);
    Dispatch(w, pc);
  }

  lemma TranslateFenceEncoded(i: Rv32.Instr, pc: u32, w: bv32)
    requires i.Fence? && w == FormatI(0x0f, 0, 0, 0, i.ordering)
    ensures TranslatesTo(i, pc, Translate(w, pc))
  {
    OpcodeI(0x0f, 0, 0, 0, i.ordering);
    FenceBits(i.ordering);
    Dispatch(w, pc);
  }

  lemma TranslateJalEncoded(i: Rv32.Instr, pc: u32, w: bv32)
    requires i.Jal? && w == FormatJ(0x6f, i.rd, i.imm20)
    ensures TranslatesTo(i, pc, Translate(w, pc))
  {
    JalFields(i.rd, i.imm20, w);
    DispatchJal(w, pc);
    WrapSum(pc, 2 * Simm20(i.imm20));
  }

  lemma TranslateJalrEncoded(i: Rv32.Instr, pc: u32, w: bv32)
    requires i.Jalr? && w == FormatI(0x67, 0, i.rd, i.rs1, i.imm12)
    ensures TranslatesTo(i, pc, Translate(w, pc))
  {
    ImmediateFields(0x67, 0, i.rd, i.rs1, i.imm12, w);
    DispatchI(w, pc);
  }

  lemma TranslateBranchEncoded(i: Rv32.Instr, pc: u32, w: bv32)
    requires i.Branch? && w == FormatB(0x63, BranchFunct3(i.branch), i.rs1, i.rs2, i.imm12)
    ensures TranslatesTo(i, pc, Translate(w, pc))
  {
    Funct3Number(MUL, ADDI, i.branch);
    BranchFields(BranchFunct3(i.branch), i.rs1, i.rs2, i.imm12, w);
    DispatchB(w, pc);
    BranchTranslates(i, pc, Numbers(Decode(w, TypeB)), BOffset(Decode(w, TypeB).imm));
  }

  lemma TranslateImmEncoded(i: Rv32.Instr, pc: u32, w: bv32)
    requires i.OpImm? && w == FormatI(0x13, ImmFunct3(i.imm), i.rd, i.rs1, i.imm12)
    ensures TranslatesTo(i, pc, Translate(w, pc))
  {
    Funct3Number(MUL, i.imm, BEQ);
    ImmediateFields(0x13, ImmFunct3(i.imm), i.rd, i.rs1, i.imm12, w);
    DispatchI(w, pc);
    ImmTranslates(i, pc, Numbers(Decode(w, TypeI)), IOffset(Decode(w, TypeI).imm));
  }

  lemma TranslateShiftEncoded(i: Rv32.Instr, pc: u32, w: bv32)
    requires i.ShiftImm?
    requires w == FormatR(0x13, if i.shift == SLLI then 1 else 5, if i.shift == SRAI then 0x20 else 0, i.rd, i.rs1, i.shamt)
    ensures TranslatesTo(i, pc, Translate(w, pc))
  {
    ShiftFields(if i.shift == SLLI then 1 else 5, if i.shift == SRAI then 0x20 else 0, i.rd, i.rs1, i.shamt, w);
    DispatchI(w, pc);
    IndexBits(i.shamt);
    ShiftTranslates(i, pc, Numbers(Decode(w, TypeI)), IOffset(Decode(w, TypeI).imm));
  }

  lemma TranslateRegisterEncoded(i: Rv32.Instr, pc: u32)
    requires i.Op? || i.MulDiv?
    ensures TranslatesTo(i, pc, Translate(Encode(i), pc))
  {
    var f := RegisterFields(i);
    Dispatch(Encode(i), pc);
    if i.Op? { OpTranslates(i, pc, f); } else { MulTranslates(i, pc, f); }
  }

  /** Translating an encoded instruction selects the template of that instruction with its own operands. */
  lemma TranslateEncoded(i: Rv32.Instr, pc: u32)
    ensures TranslatesTo(i, pc, Translate(Encode(i), pc))
  {
    match i
    case Lui(_, _) => TranslateUpperEncoded(i, pc, Encode(i));
    case Auipc(_, _) => TranslateUpperEncoded(i, pc, Encode(i));
    case Fence(_) => TranslateFenceEncoded(i, pc, Encode(i));
    case Jal(_, _) => TranslateJalEncoded(i, pc, Encode(i));
    case Jalr(_, _, _) => TranslateJalrEncoded(i, pc, Encode(i));
    case Branch(_, _, _, _) => TranslateBranchEncoded(i, pc, Encode(i));
    case OpImm(_, _, _, _) => TranslateImmEncoded(i, pc, Encode(i));
    case ShiftImm(_, _, _, _) => TranslateShiftEncoded(i, pc, Encode(i));
    case Op(_, _, _, _) => TranslateRegisterEncoded(i, pc);
    case MulDiv(_, _, _, _) => TranslateRegisterEncoded(i, pc);
  }
}
