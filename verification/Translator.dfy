/**
 The translators: for every guest instruction the block template they copy, the
 parameters they patch in, and whether they stop the translation unit.
 */
module Translator {
  import opened Words
  import opened Rv32
  import opened Rv32System
  import opened Decoder

  import opened X86

  // One constructor per block template.
  datatype Template =
    | LuiBlock | AuipcBlock | JalBlock | JalrBlock | FenceBlock
    | BranchBlock(branch: BranchKind)
    | ImmBlock(imm: ImmKind)
    | ShiftBlock(shift: ShiftKind)
    | OpBlock(op: OpKind)
    | MulBlock(mul: MulKind)
    | CallBlock(call: CallKind)

  // The blocks that call back into the vmm.
  datatype CallKind =
    | LoadCall(load: LoadKind) | StoreCall(store: StoreKind) | AmoCall | CsrCall
    | SfenceVmaCall | FenceICall | EcallCall | EbreakCall | WfiCall | MretCall | SretCall

  // A template copied into the cache with its parameter words patched.
  datatype Block = Block(template: Template, params: seq<u32>)

  // ----- the templates -----

  // movl param, %a; shl $2, %a; addq %r15, %a: the address of a guest register
  function GuestAddress(k: nat, a: Reg, rest: Code): Code {
    Cons(Mov(Param(k), a), Cons(Alu(SHLL, Imm(2), a), Cons(AddBase(a), rest)))
  }

  function LoadGuest(k: nat, a: Reg, dst: Reg, rest: Code): Code {
    GuestAddress(k, a, Cons(Load(a, dst), rest))
  }

  function StoreGuest(k: nat, a: Reg, src: Reg, rest: Code): Code {
    GuestAddress(k, a, Cons(Store(src, a), rest))
  }

  // RESET_ZERO_REGISTER, PROCEED_TO_NEXT_INSTRUCTION, END_INSTRUCTION
  const NextInstruction: Code := Cons(ResetZero, Cons(NextPc, FallThrough))

  // The result in `src` goes to the guest register of parameter `k` and control goes on.
  function Finish(k: nat, a: Reg, src: Reg): Code {
    StoreGuest(k, a, src, NextInstruction)
  }

  function CodeOf(t: Template): Code {
    match t
    case LuiBlock =>
      Cons(Mov(Param(0), RAX), Cons(Mov(Param(1), RDX), Cons(Alu(SHLL, Imm(12), RAX), Cons(Alu(SHLL, Imm(2), RDX),
      Cons(AddBase(RDX), Cons(Store(RAX, RDX), NextInstruction))))))
    case AuipcBlock =>
      GuestAddress(1, RDX,
      Cons(Mov(Param(0), RAX), Cons(Alu(SHLL, Imm(12), RAX), Cons(Mov(Param(2), RCX), Cons(Alu(ADDL, R(RCX), RAX),
      Cons(Store(RAX, RDX), NextInstruction))))))
    case JalBlock =>
      GuestAddress(0, RDX,
      Cons(Mov(Param(1), RAX), Cons(Store(RAX, RDX),
      Cons(Mov(Param(2), RAX), Cons(StorePc(RAX), Cons(ResetZero, TrapToVmm))))))
    case JalrBlock =>
      LoadGuest(2, RDX, RBX,
      Cons(Mov(Param(3), RAX), Cons(Alu(ADDL, R(RAX), RBX), Cons(Alu(BTRL, Imm(0), RBX),
      GuestAddress(0, RDX,
      Cons(Mov(Param(1), RAX), Cons(Store(RAX, RDX),
      Cons(StorePc(RBX), Cons(ResetZero, TrapToVmm)))))))))
    case FenceBlock => Cons(NextPc, FallThrough)
    case BranchBlock(k) =>
      LoadGuest(0, RDX, RSI, LoadGuest(1, RDX, RDI,
      Cons(LoadPc(RDX), Cons(Alu(ADDL, Imm(4), RDX), BranchTail(k)))))
    case ImmBlock(k) => ImmCode(k)
    case ShiftBlock(k) =>
      Cons(Alu(XORL, R(RCX), RCX), LoadGuest(1, RDX, RAX,
      Cons(Mov(Param(0), RCX), Cons(Alu(ANDL, Imm(0x1f), RCX), Cons(Alu(HostShift(ShiftOp(k)), R(RCX), RAX),
      Finish(2, RDX, RAX))))))
    case OpBlock(k) => OpCode(k)
    case MulBlock(k) => MulCode(k)
    case CallBlock(k) => CallCode(k)
  }

  function ReadFunction(k: LoadKind): Callback {
    match k
    case LB | LBU => MmuRead8
    case LH | LHU => MmuRead16
    case LW => MmuRead32
  }

  function WriteFunction(k: StoreKind): Callback {
    match k
    case SB => MmuWrite8
    case SH => MmuWrite16
    case SW => MmuWrite32
  }

  function CallbackOf(k: CallKind): Callback {
    match k
    case LoadCall(load) => ReadFunction(load)
    case StoreCall(store) => WriteFunction(store)
    case AmoCall => AmoSlowpath
    case CsrCall => CsrCallback
    case SfenceVmaCall => SfenceVmaCallback
    case FenceICall => FenceICallback
    case EcallCall => EcallCallback
    case EbreakCall => EbreakCallback
    case WfiCall => WfiCallback
    case MretCall => MretCallback
    case SretCall => SretCallback
  }

  // The address of a load or store: a guest register plus the signed offset in parameter 0.
  function WithAddress(rest: Code): Code {
    LoadGuest(1, RDX, RSI, Cons(Mov(Param(0), RDX), Cons(Alu(ADDL, R(RDX), RSI), rest)))
  }

  function WidenLoaded(k: LoadKind, rest: Code): Code {
    match k
    case LB => Cons(Movx(MOVSBL), rest)
    case LBU => Cons(Movx(MOVZBL), rest)
    case LH => Cons(Movx(MOVSWL), rest)
    case LHU => Cons(Movx(MOVZWL), rest)
    case LW => rest
  }

  function NarrowStored(k: StoreKind, rest: Code): Code {
    match k
    case SB => Cons(Alu(ANDL, Imm(0xff), RDX), rest)
    case SH => Cons(Alu(ANDL, Imm(0xffff), RDX), rest)
    case SW => rest
  }

  // What a block does before its call ...
  function CallCode(k: CallKind): Code {
    var call := CallVmm(CallbackOf(k), CodeAfterCall(k));
    match k
    case LoadCall(_) => WithAddress(call)
    case StoreCall(store) => WithAddress(LoadGuest(2, RDX, RDX, NarrowStored(store, call)))
    case AmoCall =>
      Cons(Mov(Param(0), RSI), Cons(Mov(Param(1), RDX), Cons(Mov(Param(2), RCX), Cons(Mov(Param(3), R8), call))))
    case CsrCall => Cons(Mov(Param(0), RSI), call)
    case _ => call
  }

  // ... and after it: only the blocks with a result register reset register zero.
  function CodeAfterCall(k: CallKind): Code {
    match k
    case LoadCall(load) => GuestAddress(2, RDX, WidenLoaded(load, Cons(Store(RAX, RDX), NextInstruction)))
    case StoreCall(_) | EbreakCall => Cons(NextPc, FallThrough)
    case AmoCall => NextInstruction
    case CsrCall => Cons(ResetZero, Cons(NextPc, TrapToVmm))
    case SfenceVmaCall | FenceICall | EcallCall | WfiCall => Cons(NextPc, TrapToVmm)
    case MretCall | SretCall => TrapToVmm
  }

  // The comparison a branch makes, and the condition under which it is not taken.
  function BranchCompare(k: BranchKind): (X86.Instr, Cond) {
    match k
    case BEQ => (Cmp(R(RSI), RDI), NE)
    case BNE => (Cmp(R(RSI), RDI), E)
    case BLT => (Cmp(R(RDI), RSI), GE)
    case BLTU => (Cmp(R(RDI), RSI), AE)
    case BGE => (Cmp(R(RDI), RSI), L)
    case BGEU => (Cmp(R(RDI), RSI), B)
  }

  // cmpl, a jump over the taken target when the branch is not taken, and the pc update
  function BranchTail(k: BranchKind): Code {
    Cons(BranchCompare(k).0, Cons(Jcc(BranchCompare(k).1, 1), Cons(Mov(Param(2), RDX), Cons(StorePc(RDX), TrapToVmm))))
  }

  function HostShift(k: OpKind): X86.AluOp {
    if k == SLL then SHLL else if k == SRL then SHRL else SARL
  }

  function HostAlu(k: OpKind): X86.AluOp {
    match k
    case SUB => SUBL
    case AND => ANDL
    case OR => ORL
    case XOR => XORL
    case _ => ADDL
  }

  function SetOnLess(k: OpKind): Cond {
    if k == SLT then L else B
  }

  function ImmCode(k: ImmKind): Code {
    match k
    case ADDI =>
      LoadGuest(1, RDX, RAX, Cons(Mov(Param(0), RDX), Cons(Alu(ADDL, R(RDX), RAX), Finish(2, RDX, RAX))))
    case SLTI => SetImmCode(SLT)
    case SLTIU => SetImmCode(SLTU)
    case _ =>
      Cons(Alu(XORL, R(RCX), RCX), LoadGuest(1, RDX, RAX,
      Cons(Mov(Param(0), RDX), Cons(Alu(HostAlu(ImmOp(k)), R(RDX), RAX), Finish(2, RDX, RAX)))))
  }

  function SetImmCode(k: OpKind): Code {
    Cons(Alu(XORL, R(RCX), RCX), LoadGuest(1, RDX, RAX,
    Cons(Cmp(Param(0), RAX), Cons(SetCl(SetOnLess(k)), Cons(MovzxCl, Finish(2, RDX, RCX))))))
  }

  function OpCode(k: OpKind): Code {
    match k
    case ADD | AND | OR | XOR =>
      LoadGuest(0, RDX, RSI, LoadGuest(1, RDX, RAX, Cons(Alu(HostAlu(k), R(RSI), RAX), Finish(2, RDX, RAX))))
    case SUB =>
      LoadGuest(0, RDX, RAX, LoadGuest(1, RDX, RSI, Cons(Alu(SUBL, R(RSI), RAX), Finish(2, RDX, RAX))))
    case SLT | SLTU =>
      Cons(Alu(XORL, R(RCX), RCX), LoadGuest(0, RDX, RSI, LoadGuest(1, RDX, RDI,
      Cons(Cmp(R(RDI), RSI), Cons(SetCl(SetOnLess(k)), Cons(MovzxCl, Finish(2, RDX, RCX)))))))
    case SLL | SRL | SRA =>
      LoadGuest(0, RDX, RAX, LoadGuest(1, RDX, RCX,
      Cons(Alu(ANDL, Imm(0x1f), RCX), Cons(Alu(HostShift(k), R(RCX), RAX), Finish(2, RDX, RAX)))))
  }

  // Sign- or zero-extension of the dividend into edx:eax, and the guarded or bare division.
  function DivideCode(signed: bool, guarded: bool, result: Reg): Code {
    var divide := Cons(Wide(if signed then IDIVL else DIVL, RBX), Finish(2, RDI, result));
    var core :=
      if guarded then
        Cons(Mov(R(RBX), R8), Cons(Cmp(Imm(0), R8), Cons(Jcc(NE, 2), Cons(Mov(Imm(0xffff_ffff), RAX), Cons(Jmp(1), divide)))))
      else divide;
    var divisor := LoadGuest(1, RSI, RBX, core);
    LoadGuest(0, RSI, RAX,
      if signed then Cons(Movsx(RAX, RDX), Cons(ShrHalf(RDX), divisor))
      else Cons(Alu(XORL, R(RDX), RDX), divisor))
  }

  function MulCode(k: MulKind): Code {
    match k
    case MUL => LoadGuest(0, RSI, RDX, LoadGuest(1, RSI, RAX, Cons(Wide(IMULL, RDX), Finish(2, RDI, RAX))))
    case MULH => LoadGuest(0, RSI, RDX, LoadGuest(1, RSI, RAX, Cons(Wide(IMULL, RDX), Finish(2, RDI, RDX))))
    case MULHU => LoadGuest(0, RSI, RDX, LoadGuest(1, RSI, RAX, Cons(Wide(MULL, RDX), Finish(2, RDI, RDX))))
    case MULHSU =>
      LoadGuest(0, RSI, RAX, Cons(Movsx(RAX, RAX), LoadGuest(1, RSI, RDX,
      Cons(Wide(IMULQ, RDX), Cons(ShrHalf(RAX), Finish(2, RDI, RAX))))))
    case DIV => DivideCode(true, true, RAX)
    case DIVU => DivideCode(false, true, RAX)
    case REM => DivideCode(true, false, RDX)
    case REMU => DivideCode(false, false, RDX)
  }

  // ----- dispatch -----

  datatype Translation = Translation(block: Block, stop: bool)

  // The decoded fields as the numbers the dispatch tables are indexed with.
  datatype Fields = Fields(funct3: int, funct7: int, rd: u32, rs1: u32, rs2: u32, imm: u32)

  function Numbers(d: Decoding): Fields {
    Fields(d.funct3 as int, d.funct7 as int, d.rd as int, d.rs1 as int, d.rs2 as int, d.imm as int)
  }

  // The signed offsets as the translators form them, modulo 2^32.
  function IOffset(imm: bv32): u32 { SignExtend(imm, 11) as int }
  function BOffset(imm: bv32): u32 { SignExtend(imm << 1, 12) as int }
  function JOffset(imm: bv32): u32 { SignExtend(imm << 1, 20) as int }

  // `None` stands for the assertions that end the emulator on an unknown instruction.
  function Translate(w: bv32, pc: u32): Option<Translation> {
    var opcode := (w & 0x7f) as int;
    if opcode == 0x37 then TranslateUpper(LuiBlock, Numbers(Decode(w, TypeU)), pc)
    else if opcode == 0x17 then TranslateUpper(AuipcBlock, Numbers(Decode(w, TypeU)), pc)
    else if opcode == 0x6f then
      var d := Decode(w, TypeUJ);
      TranslateJal(Numbers(d), pc, JOffset(d.imm))
    else if opcode == 0x67 then
      var d := Decode(w, TypeI);
      TranslateJalr(Numbers(d), pc, IOffset(d.imm))
    else if opcode == 0x63 then
      var d := Decode(w, TypeB);
      TranslateBranch(Numbers(d), pc, BOffset(d.imm))
    else if opcode == 0x13 then
      var d := Decode(w, TypeI);
      TranslateImm(Numbers(d), IOffset(d.imm))
    else if opcode == 0x33 then TranslateOp(Numbers(Decode(w, TypeR)))
    else if opcode == 0x0f then TranslateFence(Numbers(Decode(w, TypeS)), pc)
    else if opcode == 0x03 then
      var d := Decode(w, TypeI);
      TranslateLoad(Numbers(d), IOffset(d.imm))
    else if opcode == 0x23 then
      var d := Decode(w, TypeS);
      TranslateStore(Numbers(d), IOffset(d.imm))
    else if opcode == 0x2f then TranslateAmo(Numbers(Decode(w, TypeR)))
    else if opcode == 0x73 then
      if (w >> 12) & 7 == 0 then TranslatePrivileged(Numbers(Decode(w, TypeS)), pc)
      else TranslateCsr(Numbers(Decode(w, TypeI)), w as int)
    else None
  }

  function TranslateUpper(t: Template, f: Fields, pc: u32): Option<Translation> {
    Some(Translation(Block(t, if t == LuiBlock then [f.imm, f.rd] else [f.imm, f.rd, pc]), false))
  }

  function TranslateFence(f: Fields, pc: u32): Option<Translation> {
    if f.funct3 == 0 then Some(Translation(Block(FenceBlock, [pc]), false))
    else if f.funct3 == 1 then Some(Translation(Block(CallBlock(FenceICall), [pc]), true))
    else None
  }

  function TranslateLoad(f: Fields, offset: u32): Option<Translation> {
    var kind := match f.funct3
      case 0 => Some(LB)
      case 1 => Some(LH)
      case 2 => Some(LW)
      case 4 => Some(LBU)
      case 5 => Some(LHU)
      case _ => None;
    match kind
    case None => None
    case Some(k) => Some(Translation(Block(CallBlock(LoadCall(k)), [offset, f.rs1, f.rd]), false))
  }

  function TranslateStore(f: Fields, offset: u32): Option<Translation> {
    var kind := match f.funct3
      case 0 => Some(SB)
      case 1 => Some(SH)
      case 2 => Some(SW)
      case _ => None;
    match kind
    case None => None
    case Some(k) => Some(Translation(Block(CallBlock(StoreCall(k)), [offset, f.rs1, f.rs2]), false))
  }

  // The width field is not looked at, and neither are the acquire and release bits.
  function TranslateAmo(f: Fields): Option<Translation> {
    var funct5 := f.funct7 / 4;
    if 0 <= funct5 <= 4 || funct5 == 8 || funct5 == 12 then
      Some(Translation(Block(CallBlock(AmoCall), [f.rs1, f.rs2, f.rd, funct5]), false))
    else None
  }

  function TranslateCsr(f: Fields, word: u32): Option<Translation> {
    if f.funct3 == 4 then None else Some(Translation(Block(CallBlock(CsrCall), [word]), true))
  }

  // Told apart by the upper seven bits and the second source register; the rest of the word is not looked at.
  function TranslatePrivileged(f: Fields, pc: u32): Option<Translation> {
    var upper := f.imm / 32;
    var kind :=
      if upper == 9 then Some(SfenceVmaCall)
      else if f.rs2 == 5 then (if upper == 8 then Some(WfiCall) else None)
      else if f.rs2 == 1 then Some(EbreakCall)
      else if f.rs2 == 2 then (if upper == 0x18 then Some(MretCall) else if upper == 8 then Some(SretCall) else None)
      else if f.rs2 == 0 then Some(EcallCall)
      else None;
    match kind
    case None => None
    case Some(k) => Some(Translation(Block(CallBlock(k), [pc]), k != EbreakCall))
  }

  function TranslateJal(f: Fields, pc: u32, offset: u32): Option<Translation> {
    Some(Translation(Block(JalBlock, [f.rd, Wrap(pc + 4), Wrap(pc + offset)]), true))
  }

  function TranslateJalr(f: Fields, pc: u32, offset: u32): Option<Translation> {
    Some(Translation(Block(JalrBlock, [f.rd, Wrap(pc + 4), f.rs1, offset]), true))
  }

  function TranslateBranch(f: Fields, pc: u32, offset: u32): Option<Translation> {
    var kind := match f.funct3
      case 0 => Some(BEQ)
      case 1 => Some(BNE)
      case 4 => Some(BLT)
      case 5 => Some(BGE)
      case 6 => Some(BLTU)
      case 7 => Some(BGEU)
      case _ => None;
    match kind
    case None => None
    case Some(k) => Some(Translation(Block(BranchBlock(k), [f.rs1, f.rs2, Wrap(pc + offset)]), true))
  }

  // The shift translators pass the raw immediate and let the block mask it; bit 10 tells SRAI from SRLI.
  function TranslateImm(f: Fields, signed: u32): Option<Translation> {
    var template := match f.funct3
      case 0 => Some(ImmBlock(ADDI))
      case 1 => Some(ShiftBlock(SLLI))
      case 2 => Some(ImmBlock(SLTI))
      case 3 => Some(ImmBlock(SLTIU))
      case 4 => Some(ImmBlock(XORI))
      case 5 => Some(ShiftBlock(if f.imm / 0x400 % 2 == 0 then SRLI else SRAI))
      case 6 => Some(ImmBlock(ORI))
      case 7 => Some(ImmBlock(ANDI))
      case _ => None;
    match template
    case None => None
    case Some(t) =>
      Some(Translation(Block(t, [if t.ShiftBlock? then f.imm else signed, f.rs1, f.rd]), false))
  }

  function TranslateOp(f: Fields): Option<Translation> {
    var template :=
      if f.funct7 % 4 == 0 then OpTemplate(f.funct3, f.funct7)
      else if f.funct7 % 4 == 1 then MulTemplate(f.funct3)
      else None;
    match template
    case None => None
    case Some(t) => Some(Translation(Block(t, [f.rs1, f.rs2, f.rd]), false))
  }

  function OpTemplate(funct3: int, funct7: int): Option<Template> {
    match funct3
    case 0 => if funct7 == 0x20 then Some(OpBlock(SUB)) else if funct7 == 0 then Some(OpBlock(ADD)) else None
    case 1 => Some(OpBlock(SLL))
    case 2 => Some(OpBlock(SLT))
    case 3 => Some(OpBlock(SLTU))
    case 4 => Some(OpBlock(XOR))
    case 5 => if funct7 == 0x20 then Some(OpBlock(SRA)) else if funct7 == 0 then Some(OpBlock(SRL)) else None
    case 6 => Some(OpBlock(OR))
    case 7 => Some(OpBlock(AND))
    case _ => None
  }

  function MulTemplate(funct3: int): Option<Template> {
    match funct3
    case 0 => Some(MulBlock(MUL))
    case 1 => Some(MulBlock(MULH))
    case 2 => Some(MulBlock(MULHSU))
    case 3 => Some(MulBlock(MULHU))
    case 4 => Some(MulBlock(DIV))
    case 5 => Some(MulBlock(DIVU))
    case 6 => Some(MulBlock(REM))
    case 7 => Some(MulBlock(REMU))
    case _ => None
  }

  // ----- what the translators make of an encoded instruction -----

  function TemplateOf(i: Rv32.Instr): Template {
    match i
    case Lui(_, _) => LuiBlock
    case Auipc(_, _) => AuipcBlock
    case Jal(_, _) => JalBlock
    case Jalr(_, _, _) => JalrBlock
    case Branch(k, _, _, _) => BranchBlock(k)
    case OpImm(k, _, _, _) => ImmBlock(k)
    case ShiftImm(k, _, _, _) => ShiftBlock(k)
    case Op(k, _, _, _) => OpBlock(k)
    case MulDiv(k, _, _, _) => MulBlock(k)
    case Fence(_) => FenceBlock
  }

  function Index(r: RegIndex): u32 { r as int }

  // The shift amount parameter may carry bit 10 of an SRAI immediate; the block masks it off.
  ghost predicate ParamsOf(i: Rv32.Instr, pc: u32, p: seq<u32>) {
    match i
    case Lui(rd, imm) => p == [imm as int, Index(rd)]
    case Auipc(rd, imm) => p == [imm as int, Index(rd), pc]
    case Jal(rd, imm) => p == [Index(rd), Wrap(pc + 4), Wrap(pc + 2 * Simm20(imm))]
    case Jalr(rd, rs1, imm) => p == [Index(rd), Wrap(pc + 4), Index(rs1), Wrap(Simm12(imm))]
    case Branch(_, rs1, rs2, imm) => p == [Index(rs1), Index(rs2), Wrap(pc + 2 * Simm12(imm))]
    case OpImm(_, rd, rs1, imm) => p == [Wrap(Simm12(imm)), Index(rs1), Index(rd)]
    case ShiftImm(_, rd, rs1, shamt) =>
      |p| == 3 && p[0] % 32 == shamt as int && p[1] == Index(rs1) && p[2] == Index(rd)
    case Op(_, rd, rs1, rs2) => p == [Index(rs1), Index(rs2), Index(rd)]
    case MulDiv(_, rd, rs1, rs2) => p == [Index(rs1), Index(rs2), Index(rd)]
    case Fence(_) => true
  }

  ghost predicate TranslatesTo(i: Rv32.Instr, pc: u32, t: Option<Translation>) {
    t.Some? && t.value.block.template == TemplateOf(i) && ParamsOf(i, pc, t.value.block.params) && t.value.stop == EndsUnit(i)
  }

  // ----- the same for the instructions that call back -----

  function KindOf(c: CallInstr): CallKind {
    match c
    case MemoryLoad(k, _, _, _) => LoadCall(k)
    case MemoryStore(k, _, _, _) => StoreCall(k)
    case Amo(_, _, _, _, _) => AmoCall
    case Csr(_, _, _, _) => CsrCall
    case SfenceVma(_, _) => SfenceVmaCall
    case FenceI => FenceICall
    case Ecall => EcallCall
    case Ebreak => EbreakCall
    case Wfi => WfiCall
    case Mret => MretCall
    case Sret => SretCall
  }

  function AmoNumber(k: AmoKind): u32 {
    match k
    case AMOADD => 0
    case AMOSWAP => 1
    case LR => 2
    case SC => 3
    case AMOXOR => 4
    case AMOOR => 8
    case AMOAND => 12
  }

  // The csr callback decodes the word again, so the word is the parameter.
  function CallParams(c: CallInstr, pc: u32): seq<u32> {
    match c
    case MemoryLoad(_, rd, rs1, imm) => [Wrap(Simm12(imm)), Index(rs1), Index(rd)]
    case MemoryStore(_, rs1, rs2, imm) => [Wrap(Simm12(imm)), Index(rs1), Index(rs2)]
    case Amo(k, _, rd, rs1, rs2) => [Index(rs1), Index(rs2), Index(rd), AmoNumber(k)]
    case Csr(_, _, _, _) => [EncodeCall(c) as int]
    case _ => [pc]
  }

  function CallTranslation(c: CallInstr, pc: u32): Translation {
    Translation(Block(CallBlock(KindOf(c)), CallParams(c, pc)), CallEndsUnit(c))
  }
}
