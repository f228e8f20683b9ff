/**
 The blocks that call back: each asks the vmm exactly what its instruction asks, and
 completes the instruction when the call returns, whatever the call left in the registers.
 */
module CallBlocks {
  import opened Words
  import Rv32
  import opened Rv32System
  import opened X86
  import opened Translator
  import opened Blocks
  import opened BlockProof
  import opened JumpProof

  // ----- the reference -----

  // The address and value, or the operands, with which an instruction calls on the vmm.
  function Asks(c: CallInstr, h: Hart): seq<u32>
    requires h.Valid()
  {
    match c
    case MemoryLoad(_, _, rs1, imm) => [Wrap(Rv32.Read(h, rs1) + Rv32.Simm12(imm))]
    case MemoryStore(k, rs1, rs2, imm) =>
      [Wrap(Rv32.Read(h, rs1) + Rv32.Simm12(imm)), StoreValue(k, Rv32.Read(h, rs2))]
    case Amo(k, _, rd, rs1, rs2) => [Index(rs1), Index(rs2), Index(rd), AmoNumber(k)]
    case Csr(_, _, _, _) => [EncodeCall(c) as int]
    case _ => []
  }

  // The rest of the instruction once the call has returned `v` and left the state `h`.
  function Completed(c: CallInstr, v: u32, h: Hart): Hart
    requires |h.x| == 32
  {
    match c
    case MemoryLoad(k, rd, _, _) => Rv32.Write(h.(x := h.x[0 := 0]), rd, LoadValue(k, v), h.pc + 4)
    case Amo(_, _, _, _, _) | Csr(_, _, _, _) => Rv32.Hart(h.x[0 := 0], Wrap(h.pc + 4))
    case Mret | Sret => h
    case _ => Rv32.Hart(h.x, Wrap(h.pc + 4))
  }

  // The callback a word calls, read off its opcode, funct3 and upper bits.
  function CalledBy(w: bv32): Option<Callback> {
    var opcode, funct3 := w & 0x7f, (w >> 12) & 7;
    if opcode == 0x03 then
      if funct3 == 0 || funct3 == 4 then Some(MmuRead8)
      else if funct3 == 1 || funct3 == 5 then Some(MmuRead16)
      else if funct3 == 2 then Some(MmuRead32) else None
    else if opcode == 0x23 then
      if funct3 == 0 then Some(MmuWrite8) else if funct3 == 1 then Some(MmuWrite16) else if funct3 == 2 then Some(MmuWrite32) else None
    else if opcode == 0x2f then Some(AmoSlowpath)
    else if w == 0x0000_100f then Some(FenceICallback)
    else if w == 0x0000_0073 then Some(EcallCallback)
    else if w == 0x0010_0073 then Some(EbreakCallback)
    else if w == 0x1050_0073 then Some(WfiCallback)
    else if w == 0x1020_0073 then Some(SretCallback)
    else if w == 0x3020_0073 then Some(MretCallback)
    else if opcode == 0x73 && funct3 == 0 && w >> 25 == 9 then Some(SfenceVmaCallback)
    else if opcode == 0x73 && funct3 != 0 then Some(CsrCallback)
    else None
  }

  /** Every instruction that calls the vmm calls the function its encoding says. */
  lemma CallsItsOwn(c: CallInstr)
    ensures CalledBy(EncodeCall(c)) == Some(CallbackOf(KindOf(c)))
  {
    hide EncodeCall, CallbackOf, CalledBy;
    match c
    case MemoryLoad(_, _, _, _) => AccessCalls(c);
    case MemoryStore(_, _, _, _) => AccessCalls(c);
    case Amo(k, ordering, rd, rs1, rs2) => AmoWordCalls(AmoFunct7(k, ordering), rd, rs1, rs2); OtherKinds(c);
    case Csr(k, rd, rs1, address) => CsrWordCalls(CsrFunct3(k), rd, rs1, address); OtherKinds(c);
    case SfenceVma(rs1, rs2) => SfenceWordCalls(rs1, rs2); OtherKinds(c);
    case _ => OtherWords(); OtherKinds(c);
  }

  lemma AccessCalls(c: CallInstr)
    requires c.MemoryLoad? || c.MemoryStore?
    ensures CalledBy(EncodeCall(c)) == Some(CallbackOf(KindOf(c)))
  {
    hide Rv32.FormatI, Rv32.FormatS, CalledBy;
    if c.MemoryLoad? {
      LoadWordCalls(LoadFunct3(c.load), c.rd, c.rs1, c.imm12);
    } else {
      StoreWordCalls(StoreFunct3(c.store), c.rs1, c.rs2, c.imm12);
    }
  }

  lemma OtherKinds(c: CallInstr)
    ensures match c
      case MemoryLoad(_, _, _, _) => true
      case MemoryStore(_, _, _, _) => true
      case Amo(k, ordering, rd, rs1, rs2) =>
        CallbackOf(KindOf(c)) == AmoSlowpath && EncodeCall(c) == Rv32.FormatR(0x2f, 2, AmoFunct7(k, ordering), rd, rs1, rs2)
      case Csr(k, rd, rs1, address) =>
        && CallbackOf(KindOf(c)) == CsrCallback && 0 < CsrFunct3(k) <= 7
        && EncodeCall(c) == Rv32.FormatI(0x73, CsrFunct3(k), rd, rs1, address)
      case SfenceVma(rs1, rs2) =>
        CallbackOf(KindOf(c)) == SfenceVmaCallback && EncodeCall(c) == Rv32.FormatR(0x73, 0, 0x09, 0, rs1, rs2)
      case FenceI => CallbackOf(KindOf(c)) == FenceICallback
      case Ecall => CallbackOf(KindOf(c)) == EcallCallback
      case Ebreak => CallbackOf(KindOf(c)) == EbreakCallback
      case Wfi => CallbackOf(KindOf(c)) == WfiCallback
      case Mret => CallbackOf(KindOf(c)) == MretCallback
      case Sret => CallbackOf(KindOf(c)) == SretCallback
  {
    hide Rv32.FormatI, Rv32.FormatR;
  }

  lemma LoadWordCalls(f3: bv32, rd: Rv32.RegIndex, rs1: Rv32.RegIndex, imm: bv12)
    requires f3 <= 7
    ensures CalledBy(Rv32.FormatI(0x03, f3, rd, rs1, imm)) ==
      if f3 == 0 || f3 == 4 then Some(MmuRead8) else if f3 == 1 || f3 == 5 then Some(MmuRead16)
      else if f3 == 2 then Some(MmuRead32) else None
  {
  }

  lemma StoreWordCalls(f3: bv32, rs1: Rv32.RegIndex, rs2: Rv32.RegIndex, imm: bv12)
    requires f3 <= 7
    ensures CalledBy(Rv32.FormatS(0x23, f3, rs1, rs2, imm)) ==
      if f3 == 0 then Some(MmuWrite8) else if f3 == 1 then Some(MmuWrite16) else if f3 == 2 then Some(MmuWrite32) else None
  {
  }

  lemma AmoWordCalls(f7: bv32, rd: Rv32.RegIndex, rs1: Rv32.RegIndex, rs2: Rv32.RegIndex)
    ensures CalledBy(Rv32.FormatR(0x2f, 2, f7, rd, rs1, rs2)) == Some(AmoSlowpath)
  {
  }

  lemma CsrWordCalls(f3: bv32, rd: Rv32.RegIndex, rs1: Rv32.RegIndex, address: bv12)
    requires 0 < f3 <= 7
    ensures CalledBy(Rv32.FormatI(0x73, f3, rd, rs1, address)) == Some(CsrCallback)
  {
  }

  lemma SfenceWordCalls(rs1: Rv32.RegIndex, rs2: Rv32.RegIndex)
    ensures CalledBy(Rv32.FormatR(0x73, 0, 0x09, 0, rs1, rs2)) == Some(SfenceVmaCallback)
  {
  }

  lemma OtherWords()
    ensures CalledBy(EncodeCall(FenceI)) == Some(FenceICallback) && CalledBy(EncodeCall(Ecall)) == Some(EcallCallback)
    ensures CalledBy(EncodeCall(Ebreak)) == Some(EbreakCallback) && CalledBy(EncodeCall(Wfi)) == Some(WfiCallback)
    ensures CalledBy(EncodeCall(Mret)) == Some(MretCallback) && CalledBy(EncodeCall(Sret)) == Some(SretCallback)
  {
  }

  // ----- before the call -----

  // The block has called on the vmm for `c`, with registers `m'`, and has touched neither guest registers nor pc.
  ghost predicate CallsFor(c: CallInstr, m: Machine, o: Outcome, m': Machine)
    requires m.hart.Valid()
  {
    && m'.Valid() && m'.hart == m.hart && m'.base == m.base
    && o == Calling(CallbackOf(KindOf(c)), m', CodeAfterCall(KindOf(c)))
    && Arguments(CallbackOf(KindOf(c)), m') == Asks(c, m.hart)
  }

  lemma RunWithAddress(rest: Code, m: Machine, params: seq<u32>, offset: int) returns (m': Machine)
    requires m.Valid() && |params| == 3 && params[0] == Wrap(offset) && params[1] < 32
    ensures m'.Valid() && m'.hart == m.hart && m'.base == m.base && m'.rsi == Wrap(m.hart.x[params[1]] + offset)
    ensures Run(WithAddress(rest), m, params) == Run(rest, m', params)
  {
    hide Run, Step, AluResult, LoadGuest, Wrap;
    var a := m.hart.x[params[1]];
    var c2 := Cons(Alu(ADDL, R(RDX), RSI), rest);
    var m1 := RunLoad(1, RDX, RSI, Cons(Mov(Param(0), RDX), c2), m, params);
    var m2 := RunMov(Param(0), RDX, c2, m1, params);
    WrapId(a);
    WrapId(params[0]);
    JalrSum(a, offset);
    m' := RunAlu(ADDL, R(RDX), RSI, rest, m2, params, Wrap(a + offset));
  }

  lemma LoadCalls(c: CallInstr, m: Machine, params: seq<u32>, pc: u32) returns (m': Machine)
    requires c.MemoryLoad? && m.Valid() && m.hart.Valid() && params == CallParams(c, pc)
    ensures CallsFor(c, m, Run(CodeOf(CallBlock(KindOf(c))), m, params), m')
  {
    hide WithAddress, CodeAfterCall, Wrap, Run, Rv32.Simm12;
    IndexBound(c.rs1);
    var call := CallVmm(CallbackOf(KindOf(c)), CodeAfterCall(KindOf(c)));
    m' := RunWithAddress(call, m, params, Rv32.Simm12(c.imm12));
    RunCall(CallbackOf(KindOf(c)), CodeAfterCall(KindOf(c)), m', params);
    WrapId(m'.rsi);
  }

  lemma RunCall(f: Callback, back: Code, m: Machine, params: seq<u32>)
    requires m.Valid()
    ensures Run(CallVmm(f, back), m, params) == Calling(f, m, back)
  {
  }

  lemma Masked(v: u32)
    ensures AluResult(ANDL, 0xff, v) == v % 0x100
    ensures AluResult(ANDL, 0xffff, v) == v % 0x1_0000
  {
    hide Bitwise;
    assert Pow2(8) == 0x100;
    assert Pow2(16) == 0x1_0000 by {
      assert Pow2(12) == 0x1000;
    }
    AndOnes(v, 8, 32);
    AndOnes(v, 16, 32);
  }

  lemma RunNarrow(k: StoreKind, rest: Code, m: Machine, params: seq<u32>, v: u32) returns (m': Machine)
    requires m.Valid() && m.rdx == v
    ensures m'.Valid() && m'.hart == m.hart && m'.base == m.base && m'.rsi == m.rsi && m'.rdx == StoreValue(k, v)
    ensures Run(NarrowStored(k, rest), m, params) == Run(rest, m', params)
  {
    hide Run, Step, AluResult;
    Masked(v);
    WrapId(v);
    match k
    case SB => m' := RunAlu(ANDL, Imm(0xff), RDX, rest, m, params, v % 0x100);
    case SH => m' := RunAlu(ANDL, Imm(0xffff), RDX, rest, m, params, v % 0x1_0000);
    case SW => m' := m;
  }

  lemma StoreCalls(c: CallInstr, m: Machine, params: seq<u32>, pc: u32) returns (m': Machine)
    requires c.MemoryStore? && m.Valid() && m.hart.Valid() && params == CallParams(c, pc)
    ensures CallsFor(c, m, Run(CodeOf(CallBlock(KindOf(c))), m, params), m')
  {
    hide WithAddress, LoadGuest, NarrowStored, CodeAfterCall, Wrap, Run, Rv32.Simm12, StoreValue;
    IndexBound(c.rs1);
    IndexBound(c.rs2);
    var f := CallbackOf(KindOf(c));
    var call := CallVmm(f, CodeAfterCall(KindOf(c)));
    var narrow := NarrowStored(c.store, call);
    var m1 := RunWithAddress(LoadGuest(2, RDX, RDX, narrow), m, params, Rv32.Simm12(c.imm12));
    var m2 := RunLoad(2, RDX, RDX, narrow, m1, params);
    m' := RunNarrow(c.store, call, m2, params, Rv32.Read(m.hart, c.rs2));
    RunCall(f, CodeAfterCall(KindOf(c)), m', params);
    WrapId(m'.rsi);
    WrapId(m'.rdx);
  }

  lemma RunOperands(rest: Code, m: Machine, params: seq<u32>) returns (m': Machine)
    requires m.Valid() && |params| == 4
    ensures m' == m.(rsi := params[0], rdx := params[1], rcx := params[2], r8 := params[3]) && m'.Valid()
    ensures Run(Cons(Mov(Param(0), RSI), Cons(Mov(Param(1), RDX), Cons(Mov(Param(2), RCX), Cons(Mov(Param(3), R8), rest)))), m, params)
      == Run(rest, m', params)
  {
    hide Run, Step;
    var c3 := Cons(Mov(Param(3), R8), rest);
    var c2 := Cons(Mov(Param(2), RCX), c3);
    var c1 := Cons(Mov(Param(1), RDX), c2);
    var m1 := RunMov(Param(0), RSI, c1, m, params);
    var m2 := RunMov(Param(1), RDX, c2, m1, params);
    var m3 := RunMov(Param(2), RCX, c3, m2, params);
    m' := RunMov(Param(3), R8, rest, m3, params);
  }

  lemma AmoCalls(c: CallInstr, m: Machine, params: seq<u32>, pc: u32) returns (m': Machine)
    requires c.Amo? && m.Valid() && m.hart.Valid() && params == CallParams(c, pc)
    ensures CallsFor(c, m, Run(CodeOf(CallBlock(KindOf(c))), m, params), m')
  {
    hide CodeAfterCall, Run, Wrap;
    m' := RunOperands(CallVmm(AmoSlowpath, CodeAfterCall(AmoCall)), m, params);
    RunCall(AmoSlowpath, CodeAfterCall(AmoCall), m', params);
    WrapId(params[0]);
    WrapId(params[1]);
    WrapId(params[2]);
    WrapId(params[3]);
  }

  lemma CsrCalls(c: CallInstr, m: Machine, params: seq<u32>, pc: u32) returns (m': Machine)
    requires c.Csr? && m.Valid() && m.hart.Valid() && params == CallParams(c, pc)
    ensures CallsFor(c, m, Run(CodeOf(CallBlock(KindOf(c))), m, params), m')
  {
    hide CodeAfterCall, Run, Wrap, EncodeCall;
    m' := RunMov(Param(0), RSI, CallVmm(CsrCallback, CodeAfterCall(CsrCall)), m, params);
    RunCall(CsrCallback, CodeAfterCall(CsrCall), m', params);
    WrapId(params[0]);
  }

  lemma PlainCalls(c: CallInstr, m: Machine, params: seq<u32>)
    requires !(c.MemoryLoad? || c.MemoryStore? || c.Amo? || c.Csr?) && m.Valid() && m.hart.Valid()
    ensures CallsFor(c, m, Run(CodeOf(CallBlock(KindOf(c))), m, params), m)
  {
    hide CodeAfterCall, Run;
    RunCall(CallbackOf(KindOf(c)), CodeAfterCall(KindOf(c)), m, params);
  }

  /** Up to its call every block asks what its instruction asks, and the guest registers and pc are untouched. */
  lemma CallBlockAsks(c: CallInstr, m: Machine, params: seq<u32>, pc: u32) returns (m': Machine)
    requires m.Valid() && m.hart.Valid() && params == CallParams(c, pc)
    ensures CallsFor(c, m, Run(CodeOf(CallBlock(KindOf(c))), m, params), m')
  {
    hide Run, CodeOf, CallsFor, CallParams;
    match c
    case MemoryLoad(_, _, _, _) => m' := LoadCalls(c, m, params, pc);
    case MemoryStore(_, _, _, _) => m' := StoreCalls(c, m, params, pc);
    case Amo(_, _, _, _, _) => m' := AmoCalls(c, m, params, pc);
    case Csr(_, _, _, _) => m' := CsrCalls(c, m, params, pc);
    case _ =>
      m' := m;
      PlainCalls(c, m, params);
  }

  // ----- after the call -----

  lemma RunWiden(k: LoadKind, rest: Code, m: Machine, params: seq<u32>, v: u32) returns (m': Machine)
    requires m.Valid() && m.Low(RAX) == v
    ensures m'.Valid() && m'.hart == m.hart && m'.base == m.base && m'.rdx == m.rdx && m'.Low(RAX) == LoadValue(k, v)
    ensures Run(WidenLoaded(k, rest), m, params) == Run(rest, m', params)
  {
    hide Run;
    if k == LW {
      m' := m;
    } else {
      var w := match k
        case LB => MOVSBL
        case LBU => MOVZBL
        case LH => MOVSWL
        case LHU => MOVZWL;
      m' := m.Set(RAX, Widened(w, v));
      RunSet(Movx(w), rest, m, params, RAX, Widened(w, v));
    }
  }

  // The code after the call has completed `c` and left the registers `m'`.
  ghost predicate Completes(c: CallInstr, m: Machine, o: Outcome, m': Machine)
    requires m.Valid()
  {
    && o == (if CallEndsUnit(c) then Trapped(m') else Fell(m'))
    && m'.Valid() && m'.base == m.base && m'.hart == Completed(c, m.Low(RAX), m.hart)
  }

  lemma LoadCompletes(c: CallInstr, m: Machine, params: seq<u32>, pc: u32) returns (m': Machine)
    requires c.MemoryLoad? && m.Valid() && params == CallParams(c, pc)
    ensures Completes(c, m, Run(CodeAfterCall(KindOf(c)), m, params), m')
  {
    hide Run, GuestAddress, WidenLoaded, LoadValue, Wrap;
    IndexBound(c.rd);
    var v := m.Low(RAX);
    var rest := Cons(Store(RAX, RDX), NextInstruction);
    var m1 := RunAddress(2, RDX, WidenLoaded(c.load, rest), m, params);
    SetOther(m, RDX, m.base + 4 * params[2], RAX);
    var m2 := RunWiden(c.load, rest, m1, params, v);
    var m3 := RunStore(params[2], RDX, RAX, NextInstruction, m2, params);
    m' := RunNextInstruction(m3, params);
    LoadedRegister(m.hart, c.rd, LoadValue(c.load, v), m.hart.pc);
  }

  lemma LoadedRegister(h: Hart, rd: Rv32.RegIndex, v: u32, pc: u32)
    requires |h.x| == 32 && Index(rd) < 32
    ensures Rv32.Hart(h.x[Index(rd) := v][0 := 0], Wrap(pc + 4)) == Rv32.Write(h.(x := h.x[0 := 0]), rd, v, pc + 4)
  {
    if rd != 0 {
      assert h.x[Index(rd) := v][0 := 0] == h.x[0 := 0][Index(rd) := v];
    }
  }

  lemma RunPcStep(end: Code, m: Machine, params: seq<u32>) returns (m': Machine)
    requires m.Valid()
    ensures m' == m.(hart := m.hart.(pc := Wrap(m.hart.pc + 4))) && m'.Valid()
    ensures Run(Cons(NextPc, end), m, params) == Run(end, m', params)
  {
    m' := m.(hart := m.hart.(pc := Wrap(m.hart.pc + 4)));
    RunNext(NextPc, end, m, params, m');
  }

  lemma RunEnd(m: Machine, params: seq<u32>)
    requires m.Valid()
    ensures Run(FallThrough, m, params) == Fell(m)
    ensures Run(TrapToVmm, m, params) == Trapped(m)
  {
  }

  lemma ResultCompletes(c: CallInstr, m: Machine, params: seq<u32>) returns (m': Machine)
    requires (c.Amo? || c.Csr?) && m.Valid()
    ensures Completes(c, m, Run(CodeAfterCall(KindOf(c)), m, params), m')
  {
    hide Run, Wrap;
    if c.Amo? {
      m' := RunNextInstruction(m, params);
    } else {
      var m1 := m.(hart := m.hart.(x := m.hart.x[0 := 0]));
      RunNext(ResetZero, Cons(NextPc, TrapToVmm), m, params, m1);
      m' := RunPcStep(TrapToVmm, m1, params);
      RunEnd(m', params);
    }
  }

  lemma StepCompletes(c: CallInstr, m: Machine, params: seq<u32>) returns (m': Machine)
    requires !(c.MemoryLoad? || c.Amo? || c.Csr?) && m.Valid()
    ensures Completes(c, m, Run(CodeAfterCall(KindOf(c)), m, params), m')
  {
    hide Run, Wrap;
    if c.Mret? || c.Sret? {
      m' := m;
    } else {
      m' := RunPcStep(if CallEndsUnit(c) then TrapToVmm else FallThrough, m, params);
    }
    RunEnd(m', params);
  }

  /** After the call every block completes its instruction, whatever else the call did to registers and guest state. */
  lemma CallBlockCompletes(c: CallInstr, m: Machine, params: seq<u32>, pc: u32) returns (m': Machine)
    requires m.Valid() && params == CallParams(c, pc)
    ensures Completes(c, m, Run(CodeAfterCall(KindOf(c)), m, params), m')
  {
    hide Run, CodeAfterCall, Completes;
    match c
    case MemoryLoad(_, _, _, _) => m' := LoadCompletes(c, m, params, pc);
    case Amo(_, _, _, _, _) | Csr(_, _, _, _) => m' := ResultCompletes(c, m, params);
    case _ => m' := StepCompletes(c, m, params);
  }
}
