/**
 Every translated block does to the guest state what its instruction does in the
 reference, whatever the scratch registers held, or dies in the host division.
 */
module BlockProof {
  import opened Words
  import Rv32
  import opened X86
  import opened Translator
  import opened Blocks

  // The operands on which the host division raises an error: the guards of the division
  // blocks cover a zero divisor of DIV and DIVU only, and nothing covers overflow.
  predicate FaultsHost(i: Rv32.Instr, h: Hart)
    requires h.Valid()
  {
    i.MulDiv? && Undividable(i.mul, Rv32.Read(h, i.rs1), Rv32.Read(h, i.rs2))
  }

  predicate Undividable(k: Rv32.MulKind, a: u32, b: u32) {
    match k
    case DIV => a == 0x8000_0000 && b == 0xffff_ffff
    case REM => b == 0 || (a == 0x8000_0000 && b == 0xffff_ffff)
    case REMU => b == 0
    case _ => false
  }

  // The outcome of the block for `i` is the reference step.
  ghost predicate Simulates(i: Rv32.Instr, m: Machine, o: Outcome)
    requires m.hart.Valid()
  {
    if FaultsHost(i, m.hart) then o == HostFault
    else if Rv32.EndsUnit(i) then o.Trapped? && After(m, o.m, Rv32.Execute(i, m.hart))
    else o.Fell? && After(m, o.m, Rv32.Execute(i, m.hart))
  }

  ghost predicate After(m: Machine, m': Machine, h: Hart) {
    m'.Valid() && m'.base == m.base && m'.hart == h
  }

  ghost predicate Ready(i: Rv32.Instr, m: Machine, params: seq<u32>) {
    m.Valid() && m.hart.Valid() && ParamsOf(i, m.hart.pc, params)
  }

  lemma IndexBound(r: Rv32.RegIndex)
    ensures Index(r) < 32
  {
  }

  // Writing a guest register and then resetting register zero is the architectural write.
  lemma WrittenIsWrite(h: Hart, rd: Rv32.RegIndex, v: u32, pc: int)
    requires h.Valid() && Index(rd) < 32
    ensures Rv32.Hart(Written(h, Index(rd), v), Wrap(pc)) == Rv32.Write(h, rd, v, pc)
  {
  }

  // What an instruction that writes one register and goes on computes.
  ghost predicate Computes(i: Rv32.Instr, h: Hart, rd: Rv32.RegIndex, v: u32)
    requires h.Valid()
  {
    && !FaultsHost(i, h) && !Rv32.EndsUnit(i)
    && Rv32.Execute(i, h) == Rv32.Write(h, rd, v, h.pc + 4)
  }

  lemma ExecuteOp(i: Rv32.Instr, h: Hart)
    requires h.Valid() && i.Op?
    ensures Computes(i, h, i.rd, Rv32.OpValue(i.op, Rv32.Read(h, i.rs1), Rv32.Read(h, i.rs2)))
  {
  }

  lemma ExecuteImm(i: Rv32.Instr, h: Hart)
    requires h.Valid() && i.OpImm?
    ensures Computes(i, h, i.rd, Rv32.OpValue(Rv32.ImmOp(i.imm), Rv32.Read(h, i.rs1), Wrap(Rv32.Simm12(i.imm12))))
  {
  }

  lemma ExecuteShift(i: Rv32.Instr, h: Hart)
    requires h.Valid() && i.ShiftImm?
    ensures Index(i.shamt) < 32
    ensures Computes(i, h, i.rd, Rv32.OpValue(Rv32.ShiftOp(i.shift), Rv32.Read(h, i.rs1), Index(i.shamt)))
  {
    IndexBound(i.shamt);
  }

  // A block whose remaining code finishes with the right value in `src` simulates its instruction.
  lemma FinishSimulates(i: Rv32.Instr, rd: Rv32.RegIndex, v: u32, k: nat, a: Reg, src: Reg, m: Machine, m1: Machine, params: seq<u32>)
    requires m.Valid() && m.hart.Valid() && m1.Valid() && m1.hart == m.hart && m1.base == m.base
    requires k < |params| && params[k] == Index(rd) && a != src && m1.Low(src) == v
    requires Computes(i, m.hart, rd, v)
    ensures Simulates(i, m, Run(Finish(k, a, src), m1, params))
  {
    hide Run, FaultsHost, Rv32.Execute, Rv32.Write, Finish, Written;
    IndexBound(rd);
    var m2 := RunFinish(k, a, src, m1, params);
    WrittenIsWrite(m.hart, rd, v, m.hart.pc + 4);
  }

  // ----- register-register arithmetic -----

  predicate Symmetric(k: Rv32.OpKind) {
    k == Rv32.ADD || k == Rv32.AND || k == Rv32.OR || k == Rv32.XOR
  }

  lemma HostAluValue(k: Rv32.OpKind, a: u32, b: u32)
    requires Symmetric(k)
    ensures AluResult(HostAlu(k), a, b) == Rv32.OpValue(k, a, b) == AluResult(HostAlu(k), b, a)
  {
    BitwiseCommutes(And, a, b, 32);
    BitwiseCommutes(Or, a, b, 32);
    BitwiseCommutes(Xor, a, b, 32);
  }

  lemma OpAlu(i: Rv32.Instr, m: Machine, params: seq<u32>)
    requires i.Op? && Symmetric(i.op) && Ready(i, m, params)
    ensures Simulates(i, m, Run(LoadGuest(0, RDX, RSI, LoadGuest(1, RDX, RAX,
      Cons(Alu(HostAlu(i.op), R(RSI), RAX), Finish(2, RDX, RAX)))), m, params))
  {
    hide Run, Step, AluResult, Simulates, Computes, Rv32.OpValue, LoadGuest, Finish;
    IndexBound(i.rs1);
    IndexBound(i.rs2);
    var a, b := Rv32.Read(m.hart, i.rs1), Rv32.Read(m.hart, i.rs2);
    var v := Rv32.OpValue(i.op, a, b);
    var core := Cons(Alu(HostAlu(i.op), R(RSI), RAX), Finish(2, RDX, RAX));
    var m1 := RunLoad(0, RDX, RSI, LoadGuest(1, RDX, RAX, core), m, params);
    var m2 := RunLoad(1, RDX, RAX, core, m1, params);
    HostAluValue(i.op, a, b);
    var m3 := RunAlu(HostAlu(i.op), R(RSI), RAX, Finish(2, RDX, RAX), m2, params, v);
    ExecuteOp(i, m.hart);
    FinishSimulates(i, i.rd, v, 2, RDX, RAX, m, m3, params);
  }

  lemma OpSub(i: Rv32.Instr, m: Machine, params: seq<u32>)
    requires i.Op? && i.op == Rv32.SUB && Ready(i, m, params)
    ensures Simulates(i, m, Run(LoadGuest(0, RDX, RAX, LoadGuest(1, RDX, RSI, Cons(Alu(SUBL, R(RSI), RAX), Finish(2, RDX, RAX)))), m, params))
  {
    hide Run, Step, AluResult, Simulates, Computes, Rv32.OpValue, LoadGuest, Finish;
    IndexBound(i.rs1);
    IndexBound(i.rs2);
    var a, b := Rv32.Read(m.hart, i.rs1), Rv32.Read(m.hart, i.rs2);
    var v := Rv32.OpValue(Rv32.SUB, a, b);
    var core := Cons(Alu(SUBL, R(RSI), RAX), Finish(2, RDX, RAX));
    var m1 := RunLoad(0, RDX, RAX, LoadGuest(1, RDX, RSI, core), m, params);
    var m2 := RunLoad(1, RDX, RSI, core, m1, params);
    HostSubValue(a, b);
    var m3 := RunAlu(SUBL, R(RSI), RAX, Finish(2, RDX, RAX), m2, params, v);
    ExecuteOp(i, m.hart);
    FinishSimulates(i, i.rd, v, 2, RDX, RAX, m, m3, params);
  }

  lemma HostSubValue(a: u32, b: u32)
    ensures AluResult(SUBL, b, a) == Rv32.OpValue(Rv32.SUB, a, b)
  {
  }

  predicate Shifts(k: Rv32.OpKind) {
    k == Rv32.SLL || k == Rv32.SRL || k == Rv32.SRA
  }

  lemma HostShiftValue(k: Rv32.OpKind, a: u32, b: u32)
    requires Shifts(k)
    ensures AluResult(ANDL, 0x1f, b) == b % 32
    ensures AluResult(HostShift(k), b % 32, a) == Rv32.OpValue(k, a, b)
  {
    hide Bitwise32, Pow2;
    AndMask(b);
    assert b % 32 % 32 == b % 32;
  }

  lemma AndMask(b: u32)
    ensures Bitwise32(And, b, 0x1f) == b % 32
  {
    hide Bitwise;
    assert Pow2(5) == 32;
    AndOnes(b, 5, 32);
  }

  // andl $0x1f, %ecx; the shift of %eax by %cl; and the store
  function ShiftTail(k: Rv32.OpKind): Code {
    Cons(Alu(ANDL, Imm(0x1f), RCX), Cons(Alu(HostShift(k), R(RCX), RAX), Finish(2, RDX, RAX)))
  }

  lemma RunShiftTail(i: Rv32.Instr, rd: Rv32.RegIndex, k: Rv32.OpKind, a: u32, b: u32, m: Machine, m2: Machine, params: seq<u32>)
    requires Shifts(k) && m.Valid() && m.hart.Valid() && m2.Valid() && m2.hart == m.hart && m2.base == m.base
    requires m2.rax == a && m2.rcx == b && |params| == 3 && params[2] == Index(rd)
    requires Computes(i, m.hart, rd, Rv32.OpValue(k, a, b))
    ensures Simulates(i, m, Run(ShiftTail(k), m2, params))
  {
    hide Run, Step, AluResult, Simulates, Computes, Rv32.OpValue, Finish;
    HostShiftValue(k, a, b);
    var shift := Cons(Alu(HostShift(k), R(RCX), RAX), Finish(2, RDX, RAX));
    var m3 := RunAlu(ANDL, Imm(0x1f), RCX, shift, m2, params, b % 32);
    var v := Rv32.OpValue(k, a, b);
    var m4 := RunAlu(HostShift(k), R(RCX), RAX, Finish(2, RDX, RAX), m3, params, v);
    FinishSimulates(i, rd, v, 2, RDX, RAX, m, m4, params);
  }

  lemma OpShift(i: Rv32.Instr, m: Machine, params: seq<u32>)
    requires i.Op? && Shifts(i.op) && Ready(i, m, params)
    ensures Simulates(i, m, Run(LoadGuest(0, RDX, RAX, LoadGuest(1, RDX, RCX, ShiftTail(i.op))), m, params))
  {
    hide Run, Simulates, Computes, Rv32.OpValue, LoadGuest, ShiftTail;
    IndexBound(i.rs1);
    IndexBound(i.rs2);
    var m1 := RunLoad(0, RDX, RAX, LoadGuest(1, RDX, RCX, ShiftTail(i.op)), m, params);
    var m2 := RunLoad(1, RDX, RCX, ShiftTail(i.op), m1, params);
    ExecuteOp(i, m.hart);
    RunShiftTail(i, i.rd, i.op, Rv32.Read(m.hart, i.rs1), Rv32.Read(m.hart, i.rs2), m, m2, params);
  }

  lemma ShiftCount(k: Rv32.OpKind, a: u32, b: u32, c: u32)
    requires Shifts(k) && b % 32 == c % 32
    ensures Rv32.OpValue(k, a, b) == Rv32.OpValue(k, a, c)
  {
  }

  lemma ImmShift(i: Rv32.Instr, m: Machine, params: seq<u32>)
    requires i.ShiftImm? && Ready(i, m, params)
    ensures Simulates(i, m, Run(Cons(Alu(XORL, R(RCX), RCX), LoadGuest(1, RDX, RAX,
      Cons(Mov(Param(0), RCX), ShiftTail(Rv32.ShiftOp(i.shift))))), m, params))
  {
    hide Run, Step, Simulates, Computes, Rv32.OpValue, LoadGuest, ShiftTail;
    IndexBound(i.rs1);
    var k := Rv32.ShiftOp(i.shift);
    var a, b := Rv32.Read(m.hart, i.rs1), params[0];
    var core := Cons(Mov(Param(0), RCX), ShiftTail(k));
    var m0 := RunClear(RCX, LoadGuest(1, RDX, RAX, core), m, params);
    var m1 := RunLoad(1, RDX, RAX, core, m0, params);
    var m2 := RunMov(Param(0), RCX, ShiftTail(k), m1, params);
    ExecuteShift(i, m.hart);
    ShiftCount(k, a, b, Index(i.shamt));
    RunShiftTail(i, i.rd, k, a, b, m, m2, params);
  }

  // ----- set on less than -----

  /** The host flags after a comparison decide the signed and the unsigned order. */
  lemma FlagsDecide(src: u32, dst: u32)
    ensures var f := Compare(src, dst);
      && (Holds(E, f) <==> dst == src) && (Holds(NE, f) <==> dst != src)
      && (Holds(L, f) <==> Signed(dst) < Signed(src)) && (Holds(GE, f) <==> Signed(dst) >= Signed(src))
      && (Holds(B, f) <==> dst < src) && (Holds(AE, f) <==> dst >= src)
  {
    var d := dst - src;
    assert Wrap(d) == if d >= 0 then d else d + TWO32;
  }

  predicate Sets(k: Rv32.OpKind) {
    k == Rv32.SLT || k == Rv32.SLTU
  }

  lemma HostSetValue(k: Rv32.OpKind, a: u32, b: u32)
    requires Sets(k)
    ensures Rv32.OpValue(k, a, b) == if Holds(SetOnLess(k), Compare(b, a)) then 1 else 0
  {
    hide Compare;
    FlagsDecide(b, a);
  }

  // setcc %cl; movzbl %cl, %ecx; and the store
  function SetTail(k: Rv32.OpKind): Code {
    Cons(SetCl(SetOnLess(k)), Cons(MovzxCl, Finish(2, RDX, RCX)))
  }

  lemma RunSetTail(i: Rv32.Instr, rd: Rv32.RegIndex, k: Rv32.OpKind, a: u32, b: u32, m: Machine, m2: Machine, params: seq<u32>)
    requires Sets(k) && m.Valid() && m.hart.Valid() && m2.Valid() && m2.hart == m.hart && m2.base == m.base
    requires m2.rcx == 0 && m2.flags == Compare(b, a) && |params| == 3 && params[2] == Index(rd)
    requires Computes(i, m.hart, rd, Rv32.OpValue(k, a, b))
    ensures Simulates(i, m, Run(SetTail(k), m2, params))
  {
    hide Run, Simulates, Computes, Rv32.OpValue, Compare, Holds, Finish;
    HostSetValue(k, a, b);
    var v := Rv32.OpValue(k, a, b);
    RunSet(SetCl(SetOnLess(k)), Cons(MovzxCl, Finish(2, RDX, RCX)), m2, params, RCX, v);
    RunSet(MovzxCl, Finish(2, RDX, RCX), m2.Set(RCX, v), params, RCX, v);
    FinishSimulates(i, rd, v, 2, RDX, RCX, m, m2.Set(RCX, v), params);
  }

  lemma OpSet(i: Rv32.Instr, m: Machine, params: seq<u32>)
    requires i.Op? && Sets(i.op) && Ready(i, m, params)
    ensures Simulates(i, m, Run(Cons(Alu(XORL, R(RCX), RCX), LoadGuest(0, RDX, RSI,
      LoadGuest(1, RDX, RDI, Cons(Cmp(R(RDI), RSI), SetTail(i.op))))), m, params))
  {
    hide Run, Step, Simulates, Computes, Rv32.OpValue, Compare, LoadGuest, SetTail;
    IndexBound(i.rs1);
    IndexBound(i.rs2);
    var core := Cons(Cmp(R(RDI), RSI), SetTail(i.op));
    var m0 := RunClear(RCX, LoadGuest(0, RDX, RSI, LoadGuest(1, RDX, RDI, core)), m, params);
    var m1 := RunLoad(0, RDX, RSI, LoadGuest(1, RDX, RDI, core), m0, params);
    var m2 := RunLoad(1, RDX, RDI, core, m1, params);
    var m3 := RunCmp(R(RDI), RSI, SetTail(i.op), m2, params);
    ExecuteOp(i, m.hart);
    RunSetTail(i, i.rd, i.op, Rv32.Read(m.hart, i.rs1), Rv32.Read(m.hart, i.rs2), m, m3, params);
  }

  lemma ImmSet(i: Rv32.Instr, m: Machine, params: seq<u32>)
    requires i.OpImm? && Sets(Rv32.ImmOp(i.imm)) && Ready(i, m, params)
    ensures Simulates(i, m, Run(Cons(Alu(XORL, R(RCX), RCX), LoadGuest(1, RDX, RAX,
      Cons(Cmp(Param(0), RAX), SetTail(Rv32.ImmOp(i.imm))))), m, params))
  {
    hide Run, Step, Simulates, Computes, Rv32.OpValue, Compare, LoadGuest, SetTail;
    IndexBound(i.rs1);
    var k := Rv32.ImmOp(i.imm);
    var core := Cons(Cmp(Param(0), RAX), SetTail(k));
    var m0 := RunClear(RCX, LoadGuest(1, RDX, RAX, core), m, params);
    var m1 := RunLoad(1, RDX, RAX, core, m0, params);
    var m2 := RunCmp(Param(0), RAX, SetTail(k), m1, params);
    ExecuteImm(i, m.hart);
    RunSetTail(i, i.rd, k, Rv32.Read(m.hart, i.rs1), params[0], m, m2, params);
  }

  // ----- register-immediate arithmetic -----

  // movl param, %edx; the operation of %edx on %eax; and the store
  function ImmTail(k: Rv32.OpKind): Code {
    Cons(Mov(Param(0), RDX), Cons(Alu(HostAlu(k), R(RDX), RAX), Finish(2, RDX, RAX)))
  }

  lemma RunImmTail(i: Rv32.Instr, m: Machine, m1: Machine, params: seq<u32>)
    requires i.OpImm? && Symmetric(Rv32.ImmOp(i.imm)) && Ready(i, m, params)
    requires m1.Valid() && m1.hart == m.hart && m1.base == m.base && m1.rax == Rv32.Read(m.hart, i.rs1)
    ensures Simulates(i, m, Run(ImmTail(Rv32.ImmOp(i.imm)), m1, params))
  {
    hide Run, Step, AluResult, Simulates, Computes, Rv32.OpValue, Rv32.Simm12, Finish;
    var k := Rv32.ImmOp(i.imm);
    var a, b := Rv32.Read(m.hart, i.rs1), params[0];
    var v := Rv32.OpValue(k, a, b);
    var m2 := RunMov(Param(0), RDX, Cons(Alu(HostAlu(k), R(RDX), RAX), Finish(2, RDX, RAX)), m1, params);
    HostAluValue(k, a, b);
    var m3 := RunAlu(HostAlu(k), R(RDX), RAX, Finish(2, RDX, RAX), m2, params, v);
    ExecuteImm(i, m.hart);
    FinishSimulates(i, i.rd, v, 2, RDX, RAX, m, m3, params);
  }

  lemma ImmAlu(i: Rv32.Instr, m: Machine, params: seq<u32>)
    requires i.OpImm? && Symmetric(Rv32.ImmOp(i.imm)) && Ready(i, m, params)
    ensures Simulates(i, m, Run(LoadGuest(1, RDX, RAX, ImmTail(Rv32.ImmOp(i.imm))), m, params))
    ensures Simulates(i, m, Run(Cons(Alu(XORL, R(RCX), RCX), LoadGuest(1, RDX, RAX, ImmTail(Rv32.ImmOp(i.imm)))), m, params))
  {
    hide Run, Simulates, LoadGuest, ImmTail;
    IndexBound(i.rs1);
    var core := ImmTail(Rv32.ImmOp(i.imm));
    var m1 := RunLoad(1, RDX, RAX, core, m, params);
    RunImmTail(i, m, m1, params);
    var m0 := RunClear(RCX, LoadGuest(1, RDX, RAX, core), m, params);
    var m2 := RunLoad(1, RDX, RAX, core, m0, params);
    RunImmTail(i, m, m2, params);
  }

  // ----- all of them -----

  lemma OpBlockSimulates(i: Rv32.Instr, m: Machine, params: seq<u32>)
    requires i.Op? && Ready(i, m, params)
    ensures Simulates(i, m, Run(OpCode(i.op), m, params))
  {
    hide Run, Simulates, LoadGuest, Finish, ParamsOf;
    match i.op
    case ADD | AND | OR | XOR => OpAlu(i, m, params);
    case SUB => OpSub(i, m, params);
    case SLT | SLTU => OpSet(i, m, params);
    case SLL | SRL | SRA => OpShift(i, m, params);
  }

  lemma ImmBlockSimulates(i: Rv32.Instr, m: Machine, params: seq<u32>)
    requires i.OpImm? && Ready(i, m, params)
    ensures Simulates(i, m, Run(ImmCode(i.imm), m, params))
  {
    hide Run, Simulates, LoadGuest, Finish, ParamsOf;
    match i.imm
    case SLTI | SLTIU => ImmSet(i, m, params);
    case ADDI | XORI | ORI | ANDI => ImmAlu(i, m, params);
  }

  lemma ShiftBlockSimulates(i: Rv32.Instr, m: Machine, params: seq<u32>)
    requires i.ShiftImm? && Ready(i, m, params)
    ensures Simulates(i, m, Run(CodeOf(ShiftBlock(i.shift)), m, params))
  {
    hide Run, Simulates, LoadGuest, Finish, ParamsOf;
    ImmShift(i, m, params);
  }
}
