/** Upper-immediate, jump, branch and fence blocks simulate their instructions. */
module JumpProof {
  import opened Words
  import Rv32
  import opened X86
  import opened Translator
  import opened Blocks
  import opened BlockProof

  // ----- pieces -----

  lemma RunStorePc(r: Reg, rest: Code, m: Machine, params: seq<u32>) returns (m': Machine)
    requires m.Valid()
    ensures m' == m.(hart := m.hart.(pc := m.Low(r))) && m'.Valid()
    ensures Run(Cons(StorePc(r), rest), m, params) == Run(rest, m', params)
  {
    m' := m.(hart := m.hart.(pc := m.Low(r)));
    RunNext(StorePc(r), rest, m, params, m');
  }

  lemma RunLoadPc(r: Reg, rest: Code, m: Machine, params: seq<u32>) returns (m': Machine)
    requires m.Valid()
    ensures m' == m.Set(r, m.hart.pc) && m'.Valid()
    ensures Run(Cons(LoadPc(r), rest), m, params) == Run(rest, m', params)
  {
    m' := m.Set(r, m.hart.pc);
    RunSet(LoadPc(r), rest, m, params, r, m.hart.pc);
  }

  lemma RunJcc(c: Cond, n: nat, rest: Code, m: Machine, params: seq<u32>)
    requires m.Valid()
    ensures Run(Cons(Jcc(c, n), rest), m, params) == Run(if Holds(c, m.flags) then Skip(rest, n) else rest, m, params)
  {
  }

  // RESET_ZERO_REGISTER, TRAP_TO_VMM
  lemma RunResetTrap(m: Machine, params: seq<u32>) returns (m': Machine)
    requires m.Valid()
    ensures m' == m.(hart := m.hart.(x := m.hart.x[0 := 0])) && m'.Valid()
    ensures Run(Cons(ResetZero, TrapToVmm), m, params) == Trapped(m')
  {
    m' := m.(hart := m.hart.(x := m.hart.x[0 := 0]));
    RunNext(ResetZero, TrapToVmm, m, params, m');
  }

  lemma WrapId(x: u32)
    ensures Wrap(x) == x
  {
  }

  // ----- lui and auipc -----

  lemma ExecuteUpper(i: Rv32.Instr, h: Hart)
    requires h.Valid() && (i.Lui? || i.Auipc?)
    ensures Computes(i, h, i.rd, Wrap((i.imm20 as int) * 0x1000 + if i.Lui? then 0 else h.pc))
  {
    hide Rv32.OpValue, Rv32.MulValue, Rv32.Write;
  }

  lemma ShiftByTwelve(p: u32)
    ensures AluResult(SHLL, 12, Wrap(p)) == Wrap(p * 0x1000)
  {
    assert Pow2(4) == 16 && Pow2(8) == 0x100 && Pow2(12) == 0x1000;
  }

  lemma FinishStore(i: Rv32.Instr, rd: Rv32.RegIndex, v: u32, m: Machine, m1: Machine, params: seq<u32>)
    requires m.Valid() && m.hart.Valid() && m1.Valid() && m1.hart == m.hart && m1.base == m.base
    requires Index(rd) < 32 && m1.rdx == m1.base + 4 * Index(rd) && m1.Low(RAX) == v
    requires Computes(i, m.hart, rd, v)
    ensures Simulates(i, m, Run(Cons(Store(RAX, RDX), NextInstruction), m1, params))
  {
    hide Run, FaultsHost, Rv32.Execute, Rv32.Write, Written;
    var m2 := RunStore(Index(rd), RDX, RAX, NextInstruction, m1, params);
    var m3 := RunNextInstruction(m2, params);
    assert m3.hart == Rv32.Hart(Written(m.hart, Index(rd), v), Wrap(m.hart.pc + 4)) by { WrittenAs(m.hart, Index(rd), v); }
    WrittenIsWrite(m.hart, rd, v, m.hart.pc + 4);
  }

  lemma WrittenAs(h: Hart, p: u32, v: u32)
    requires |h.x| == 32 && p < 32
    ensures Written(h, p, v) == h.x[p := v][0 := 0]
  {
  }

  lemma LuiSimulates(i: Rv32.Instr, m: Machine, params: seq<u32>)
    requires i.Lui? && Ready(i, m, params)
    ensures Simulates(i, m, Run(CodeOf(LuiBlock), m, params))
  {
    hide Wrap, Run, Step, AluResult, Simulates, Computes;
    IndexBound(i.rd);
    var p: int, rd: int := params[0], params[1];
    var c5 := Cons(Store(RAX, RDX), NextInstruction);
    var c4 := Cons(AddBase(RDX), c5);
    var c3 := Cons(Alu(SHLL, Imm(2), RDX), c4);
    var c2 := Cons(Alu(SHLL, Imm(12), RAX), c3);
    var c1 := Cons(Mov(Param(1), RDX), c2);
    var m1 := RunMov(Param(0), RAX, c1, m, params);
    var m2 := RunMov(Param(1), RDX, c2, m1, params);
    ShiftByTwelve(p);
    var m3 := RunAlu(SHLL, Imm(12), RAX, c3, m2, params, Wrap(p * 0x1000));
    ShiftByTwo(rd);
    var m4 := RunAlu(SHLL, Imm(2), RDX, c4, m3, params, 4 * rd);
    var m5 := RunAddBase(RDX, c5, m4, params, 4 * rd);
    WrapId(Wrap(p * 0x1000));
    ExecuteUpper(i, m.hart);
    FinishStore(i, i.rd, Wrap(p * 0x1000), m, m5, params);
  }

  lemma WrapOfSum(a: int, b: int)
    ensures Wrap(Wrap(a) + b) == Wrap(a + b)
  {
  }

  lemma AuipcSimulates(i: Rv32.Instr, m: Machine, params: seq<u32>)
    requires i.Auipc? && Ready(i, m, params)
    ensures Simulates(i, m, Run(CodeOf(AuipcBlock), m, params))
  {
    hide Wrap, Run, Step, AluResult, Simulates, Computes, GuestAddress;
    IndexBound(i.rd);
    var p: int, pc: int := params[0], m.hart.pc;
    var c4 := Cons(Store(RAX, RDX), NextInstruction);
    var c3 := Cons(Alu(ADDL, R(RCX), RAX), c4);
    var c2 := Cons(Mov(Param(2), RCX), c3);
    var c1 := Cons(Alu(SHLL, Imm(12), RAX), c2);
    var m0 := RunAddress(1, RDX, Cons(Mov(Param(0), RAX), c1), m, params);
    var m1 := RunMov(Param(0), RAX, c1, m0, params);
    ShiftByTwelve(p);
    var m2 := RunAlu(SHLL, Imm(12), RAX, c2, m1, params, Wrap(p * 0x1000));
    var m3 := RunMov(Param(2), RCX, c3, m2, params);
    var v := Wrap(p * 0x1000 + pc);
    AuipcSum(p, pc);
    WrapId(pc);
    WrapId(Wrap(p * 0x1000));
    WrapId(v);
    var m4 := RunAlu(ADDL, R(RCX), RAX, c4, m3, params, v);
    ExecuteUpper(i, m.hart);
    FinishStore(i, i.rd, v, m, m4, params);
  }

  lemma AuipcSum(p: u32, pc: u32)
    ensures AluResult(ADDL, pc, Wrap(p * 0x1000)) == Wrap(p * 0x1000 + pc)
  {
    WrapOfSum(p * 0x1000, pc);
  }

  lemma HostAdd(src: u32, dst: u32)
    ensures AluResult(ADDL, src, dst) == Wrap(dst + src)
  {
  }

  // ----- jal and jalr -----

  ghost predicate JumpsTo(i: Rv32.Instr, h: Hart, target: int)
    requires h.Valid()
  {
    (i.Jal? || i.Jalr?) && !FaultsHost(i, h) && Rv32.EndsUnit(i)
    && Rv32.Execute(i, h) == Rv32.Write(h, i.rd, Wrap(h.pc + 4), target)
  }

  lemma ExecuteJal(i: Rv32.Instr, h: Hart)
    requires h.Valid() && i.Jal?
    ensures JumpsTo(i, h, h.pc + 2 * Rv32.Simm20(i.imm20))
  {
    hide Rv32.OpValue, Rv32.MulValue, Rv32.Write, Rv32.Simm20;
  }

  lemma ExecuteJalr(i: Rv32.Instr, h: Hart)
    requires h.Valid() && i.Jalr?
    ensures var t := Wrap(Rv32.Read(h, i.rs1) + Rv32.Simm12(i.imm12)); JumpsTo(i, h, t - t % 2)
  {
    hide Rv32.OpValue, Rv32.MulValue, Rv32.Write, Rv32.Simm12;
  }

  // movl param, %eax; movl %eax, (%rdx): the link register
  lemma RunLink(rd: u32, k: nat, rest: Code, m: Machine, params: seq<u32>) returns (m': Machine)
    requires m.Valid() && rd < 32 && k < |params| && m.rdx == m.base + 4 * rd
    ensures m'.Valid() && m'.base == m.base && m'.rbx == m.rbx
    ensures m'.hart == m.hart.(x := m.hart.x[rd := params[k]])
    ensures Run(Cons(Mov(Param(k), RAX), Cons(Store(RAX, RDX), rest)), m, params) == Run(rest, m', params)
  {
    hide Run, Step;
    var m1 := RunMov(Param(k), RAX, Cons(Store(RAX, RDX), rest), m, params);
    m' := RunStore(rd, RDX, RAX, rest, m1, params);
  }

  // The jump target in `r` becomes the pc and control goes to the vmm.
  lemma FinishJump(i: Rv32.Instr, m: Machine, m1: Machine, r: Reg, target: u32, params: seq<u32>)
    requires m.Valid() && m.hart.Valid() && (i.Jal? || i.Jalr?) && Index(i.rd) < 32
    requires m1.Valid() && m1.base == m.base && m1.hart == m.hart.(x := m.hart.x[Index(i.rd) := Wrap(m.hart.pc + 4)])
    requires m1.Low(r) == target && JumpsTo(i, m.hart, target)
    ensures Simulates(i, m, Run(Cons(StorePc(r), Cons(ResetZero, TrapToVmm)), m1, params))
  {
    hide Run, FaultsHost, Rv32.Execute, Rv32.Write;
    var v := Wrap(m.hart.pc + 4);
    var m2 := RunStorePc(r, Cons(ResetZero, TrapToVmm), m1, params);
    var m3 := RunResetTrap(m2, params);
    assert m3.hart == Rv32.Hart(Written(m.hart, Index(i.rd), v), Wrap(target));
    WrittenIsWrite(m.hart, i.rd, v, target);
  }

  lemma JalSimulates(i: Rv32.Instr, m: Machine, params: seq<u32>)
    requires i.Jal? && Ready(i, m, params)
    ensures Simulates(i, m, Run(CodeOf(JalBlock), m, params))
  {
    hide Run, Step, Simulates, FaultsHost, Rv32.Execute, Rv32.Simm20, GuestAddress;
    IndexBound(i.rd);
    var rd, target := params[0], params[2];
    var c3 := Cons(StorePc(RAX), Cons(ResetZero, TrapToVmm));
    var c2 := Cons(Mov(Param(2), RAX), c3);
    var m0 := RunAddress(0, RDX, Cons(Mov(Param(1), RAX), Cons(Store(RAX, RDX), c2)), m, params);
    var m1 := RunLink(rd, 1, c2, m0, params);
    var m2 := RunMov(Param(2), RAX, c3, m1, params);
    var t := m.hart.pc + 2 * Rv32.Simm20(i.imm20);
    ExecuteJal(i, m.hart);
    WriteWraps(m.hart, i.rd, Wrap(m.hart.pc + 4), t);
    FinishJump(i, m, m2, RAX, target, params);
  }

  lemma WriteWraps(h: Hart, rd: Rv32.RegIndex, v: u32, t: int)
    requires h.Valid()
    ensures Rv32.Write(h, rd, v, t) == Rv32.Write(h, rd, v, Wrap(t))
  {
  }

  lemma JalrSum(a: u32, offset: int)
    ensures AluResult(ADDL, Wrap(offset), a) == Wrap(a + offset)
  {
    WrapOfSum(offset, a);
  }

  lemma ClearBitZero(p: u32)
    ensures AluResult(BTRL, 0, p) == p - p % 2
  {
    assert Pow2(0) == 1;
  }

  lemma JalrSimulates(i: Rv32.Instr, m: Machine, params: seq<u32>)
    requires i.Jalr? && Ready(i, m, params)
    ensures Simulates(i, m, Run(CodeOf(JalrBlock), m, params))
  {
    hide Wrap, Run, Step, AluResult, Simulates, JumpsTo, Rv32.Simm12, LoadGuest, GuestAddress;
    IndexBound(i.rd);
    IndexBound(i.rs1);
    var rd: int, a: int := params[0], Rv32.Read(m.hart, i.rs1);
    var c5 := Cons(StorePc(RBX), Cons(ResetZero, TrapToVmm));
    var c4 := Cons(Mov(Param(1), RAX), Cons(Store(RAX, RDX), c5));
    var c3 := GuestAddress(0, RDX, c4);
    var c2 := Cons(Alu(BTRL, Imm(0), RBX), c3);
    var c1 := Cons(Alu(ADDL, R(RAX), RBX), c2);
    var m0 := RunLoad(2, RDX, RBX, Cons(Mov(Param(3), RAX), c1), m, params);
    var m1 := RunMov(Param(3), RAX, c1, m0, params);
    var t := Wrap(a + Rv32.Simm12(i.imm12));
    WrapId(a);
    WrapId(params[3]);
    WrapId(t);
    WrapId(t - t % 2);
    JalrSum(a, Rv32.Simm12(i.imm12));
    var m2 := RunAlu(ADDL, R(RAX), RBX, c2, m1, params, t);
    ClearBitZero(t);
    var m3 := RunAlu(BTRL, Imm(0), RBX, c3, m2, params, t - t % 2);
    var m4 := RunAddress(0, RDX, c4, m3, params);
    var m5 := RunLink(rd, 1, c5, m4, params);
    ExecuteJalr(i, m.hart);
    FinishJump(i, m, m5, RBX, t - t % 2, params);
  }

  // ----- branches -----

  lemma ExecuteBranch(i: Rv32.Instr, h: Hart)
    requires h.Valid() && i.Branch?
    ensures !FaultsHost(i, h) && Rv32.EndsUnit(i)
    ensures Rv32.Execute(i, h) == Rv32.Hart(h.x,
      if Rv32.Taken(i.branch, Rv32.Read(h, i.rs1), Rv32.Read(h, i.rs2)) then Wrap(h.pc + 2 * Rv32.Simm12(i.imm12)) else Wrap(h.pc + 4))
  {
    hide Rv32.OpValue, Rv32.MulValue, Rv32.Write, Rv32.Simm12, Rv32.Taken;
  }

  lemma SkipsUntaken(k: Rv32.BranchKind, a: u32, b: u32)
    ensures var (cmp, over) := BranchCompare(k);
      Holds(over, if cmp == Cmp(R(RSI), RDI) then Compare(a, b) else Compare(b, a)) <==> !Rv32.Taken(k, a, b)
  {
    hide Compare, Holds;
    FlagsDecide(a, b);
    FlagsDecide(b, a);
  }

  // jump over the taken target, store the pc, trap
  lemma RunBranchEnd(k: Rv32.BranchKind, over: Cond, m: Machine, params: seq<u32>) returns (m': Machine)
    requires m.Valid() && |params| == 3
    ensures m'.Valid() && m'.base == m.base
    ensures m'.hart == m.hart.(pc := if Holds(over, m.flags) then m.Low(RDX) else params[2])
    ensures Run(Cons(Jcc(over, 1), Cons(Mov(Param(2), RDX), Cons(StorePc(RDX), TrapToVmm))), m, params) == Trapped(m')
  {
    hide Run, Step, Holds;
    var c2 := Cons(StorePc(RDX), TrapToVmm);
    var c1 := Cons(Mov(Param(2), RDX), c2);
    assert Skip(c1, 1) == c2;
    RunJcc(over, 1, c1, m, params);
    var m1 := m;
    if !Holds(over, m.flags) {
      m1 := RunMov(Param(2), RDX, c2, m, params);
    }
    m' := RunStorePc(RDX, TrapToVmm, m1, params);
    RunTrap(m', params);
  }

  lemma RunBranchTail(i: Rv32.Instr, m: Machine, m1: Machine, params: seq<u32>)
    requires i.Branch? && Ready(i, m, params)
    requires m1.Valid() && m1.hart == m.hart && m1.base == m.base
    requires m1.rsi == Rv32.Read(m.hart, i.rs1) && m1.rdi == Rv32.Read(m.hart, i.rs2) && m1.rdx == Wrap(m.hart.pc + 4)
    ensures Simulates(i, m, Run(BranchTail(i.branch), m1, params))
  {
    hide Wrap, Run, Step, Compare, Holds, FaultsHost, Rv32.Execute, Rv32.EndsUnit, Rv32.Taken, Rv32.Simm12;
    var a, b := Rv32.Read(m.hart, i.rs1), Rv32.Read(m.hart, i.rs2);
    var (cmp, over) := BranchCompare(i.branch);
    var c := Cons(Jcc(over, 1), Cons(Mov(Param(2), RDX), Cons(StorePc(RDX), TrapToVmm)));
    assert BranchTail(i.branch) == Cons(cmp, c);
    var m2 := RunCmp(cmp.src, cmp.dst, c, m1, params);
    WrapId(a);
    WrapId(b);
    WrapId(m1.rdx);
    SkipsUntaken(i.branch, a, b);
    var m3 := RunBranchEnd(i.branch, over, m2, params);
    ExecuteBranch(i, m.hart);
  }

  lemma RunTrap(m: Machine, params: seq<u32>)
    requires m.Valid()
    ensures Run(TrapToVmm, m, params) == Trapped(m)
  {
  }

  lemma BranchSimulates(i: Rv32.Instr, m: Machine, params: seq<u32>)
    requires i.Branch? && Ready(i, m, params)
    ensures Simulates(i, m, Run(CodeOf(BranchBlock(i.branch)), m, params))
  {
    hide Wrap, Run, Step, AluResult, Simulates, LoadGuest, BranchTail, Rv32.Simm12;
    IndexBound(i.rs1);
    IndexBound(i.rs2);
    var c2 := Cons(Alu(ADDL, Imm(4), RDX), BranchTail(i.branch));
    var c1 := Cons(LoadPc(RDX), c2);
    var m0 := RunLoad(0, RDX, RSI, LoadGuest(1, RDX, RDI, c1), m, params);
    var m1 := RunLoad(1, RDX, RDI, c1, m0, params);
    var m2 := RunLoadPc(RDX, c2, m1, params);
    WrapId(m.hart.pc);
    HostAdd(4, m.hart.pc);
    var m3 := RunAlu(ADDL, Imm(4), RDX, BranchTail(i.branch), m2, params, Wrap(m.hart.pc + 4));
    RunBranchTail(i, m, m3, params);
  }

  // ----- fence -----

  lemma FenceSimulates(i: Rv32.Instr, m: Machine, params: seq<u32>)
    requires i.Fence? && Ready(i, m, params)
    ensures Simulates(i, m, Run(CodeOf(FenceBlock), m, params))
  {
    var m1 := m.(hart := m.hart.(pc := Wrap(m.hart.pc + 4)));
    RunNext(NextPc, FallThrough, m, params, m1);
  }
}
