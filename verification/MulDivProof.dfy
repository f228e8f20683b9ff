/** The multiplication and division blocks compute the M extension, outside the operands on which the host faults. */
module MulDivProof {
  import opened Words
  import Rv32
  import opened X86
  import opened Translator
  import opened Blocks
  import opened BlockProof
  import opened JumpProof

  // ----- products -----

  lemma ModPlus(a: int, k: int)
    ensures Wrap(a + k * 0x1_0000_0000) == Wrap(a)
  {
  }

  // The low half of a product does not depend on signedness.
  lemma LowProduct(a: u32, b: u32)
    ensures Wrap(Signed(b) * Signed(a)) == Wrap(a * b)
  {
    var ka, kb := if a < 0x8000_0000 then 0 else 1, if b < 0x8000_0000 then 0 else 1;
    var q := ka * kb * 0x1_0000_0000 - ka * b - kb * a;
    assert Signed(b) * Signed(a) == a * b + q * 0x1_0000_0000 by {
      assert Signed(a) == a - ka * 0x1_0000_0000 && Signed(b) == b - kb * 0x1_0000_0000;
      SignedProduct(a, b, ka, kb);
    }
    ModPlus(a * b, q);
  }

  lemma SignedProduct(a: int, b: int, ka: int, kb: int)
    requires (ka == 0 || ka == 1) && (kb == 0 || kb == 1)
    ensures (b - kb * 0x1_0000_0000) * (a - ka * 0x1_0000_0000) ==
      a * b + (ka * kb * 0x1_0000_0000 - ka * b - kb * a) * 0x1_0000_0000
  {
  }

  // Bits 63..32 of a 64-bit product, read as a word.
  lemma HighHalf(p: int)
    ensures Wrap(Wrap64(p) / 0x1_0000_0000) == Wrap(p / 0x1_0000_0000)
  {
    var q := p / 0x1_0000_0000_0000_0000;
    assert p == Wrap64(p) + (q * 0x1_0000_0000) * 0x1_0000_0000;
    assert p / 0x1_0000_0000 == Wrap64(p) / 0x1_0000_0000 + q * 0x1_0000_0000;
    ModPlus(Wrap64(p) / 0x1_0000_0000, q);
  }

  lemma Signed64OfSigned(a: u32)
    ensures Signed64(Wrap64(Signed(a))) == Signed(a)
    ensures Wrap64(Signed(a)) / 0x1_0000_0000 == if a < 0x8000_0000 then 0 else 0xffff_ffff
  {
    assert Wrap64(Signed(a)) == if a < 0x8000_0000 then a else a - 0x1_0000_0000 + 0x1_0000_0000_0000_0000;
  }

  // ----- quotients -----

  lemma HostQuotTruncates(n: int, d: int)
    requires d != 0
    ensures Quot(n, d) == Rv32.Quot(n, d) && Rem(n, d) == Rv32.Rem(n, d)
  {
    EuclidTruncates(if n >= 0 then n else -n, d);
    if n < 0 {
      assert n == (-((-n) / d)) * d + Rem(n, d);
      assert Rem(n, d) == -((-n) - ((-n) / d) * d);
    }
    Rv32.TruncationUnique(n, d, Quot(n, d), Rem(n, d));
  }

  lemma EuclidTruncates(n: nat, d: int)
    requires d != 0
    ensures 0 <= n - (n / d) * d < Rv32.Abs(d)
  {
    assert n == (n / d) * d + n % d;
  }

  lemma QuotInRange(n: int, d: int)
    requires -0x8000_0000 <= n < 0x8000_0000 && d != 0
    ensures (Quot(n, d) < -0x8000_0000 || Quot(n, d) >= 0x8000_0000) <==> (n == -0x8000_0000 && d == -1)
  {
    var a := if n >= 0 then n else -n;
    var q := a / d;
    EuclidTruncates(a, d);
    if d > 0 {
      QuotBound(a, d, q, a - q * d);
    } else {
      assert (-q) * (-d) == q * d;
      QuotBound(a, -d, -q, a - q * d);
    }
  }

  lemma QuotBound(a: nat, e: nat, q: int, r: nat)
    requires r < e && a == q * e + r
    ensures 0 <= q <= a
    ensures e == 1 ==> q == a
    ensures e >= 2 && a > 0 ==> q < a
  {
    if q < 0 {
      MulMonotone(q, -1, e);
    }
    MulMonotone(1, e, q);
    if e >= 2 {
      MulMonotone(2, e, q);
    }
  }

  // The 64-bit dividend edx:eax the block builds is the sign-extended operand.
  lemma DividendSigned(a: u32)
    ensures Signed64((if a < 0x8000_0000 then 0 else 0xffff_ffff) * 0x1_0000_0000 + a) == Signed(a)
  {
  }

  lemma HostDivide(a: u32, b: u32, rdx: u32)
    requires rdx == if a < 0x8000_0000 then 0 else 0xffff_ffff
    ensures var r := WideResult(IDIVL, a, rdx, b);
      if b == 0 || (a == 0x8000_0000 && b == 0xffff_ffff) then r == None
      else r == Some((Rv32.MulValue(Rv32.DIV, a, b), Rv32.MulValue(Rv32.REM, a, b)))
  {
    DividendSigned(a);
    WrapId(a);
    WrapId(b);
    WrapId(rdx);
    if b != 0 {
      QuotInRange(Signed(a), Signed(b));
      HostQuotTruncates(Signed(a), Signed(b));
    }
  }

  lemma HostDivideUnsigned(a: u32, b: u32)
    ensures var r := WideResult(DIVL, a, 0, b);
      if b == 0 then r == None
      else r == Some((Rv32.MulValue(Rv32.DIVU, a, b), Rv32.MulValue(Rv32.REMU, a, b)))
  {
    WrapId(a);
    WrapId(b);
    if b != 0 {
      assert a / b <= a by {
        EuclidTruncates(a, b);
        QuotBound(a, b, a / b, a - (a / b) * b);
      }
    }
  }

  // ----- running the one-operand forms -----

  lemma ExecuteMul(i: Rv32.Instr, h: Hart)
    requires h.Valid() && i.MulDiv? && !FaultsHost(i, h)
    ensures Computes(i, h, i.rd, Rv32.MulValue(i.mul, Rv32.Read(h, i.rs1), Rv32.Read(h, i.rs2)))
  {
    hide Rv32.MulValue, Rv32.Write, FaultsHost;
  }

  lemma RunMovsx(r: Reg, dst: Reg, rest: Code, m: Machine, params: seq<u32>, a: u32) returns (m': Machine)
    requires m.Valid() && m.Get(r) == a
    ensures m' == m.Set(dst, Wrap64(Signed(a))) && m'.Valid()
    ensures Run(Cons(Movsx(r, dst), rest), m, params) == Run(rest, m', params)
  {
    hide Run;
    WrapId(a);
    m' := m.Set(dst, Wrap64(Signed(a)));
    RunSet(Movsx(r, dst), rest, m, params, dst, Wrap64(Signed(a)));
  }

  lemma RunShrHalf(dst: Reg, rest: Code, m: Machine, params: seq<u32>) returns (m': Machine)
    requires m.Valid()
    ensures m' == m.Set(dst, m.Get(dst) / 0x1_0000_0000) && m'.Valid()
    ensures Run(Cons(ShrHalf(dst), rest), m, params) == Run(rest, m', params)
  {
    hide Run;
    m' := m.Set(dst, m.Get(dst) / 0x1_0000_0000);
    RunSet(ShrHalf(dst), rest, m, params, dst, m.Get(dst) / 0x1_0000_0000);
  }

  lemma RunWide(op: WideOp, r: Reg, rest: Code, m: Machine, params: seq<u32>, a: int, d: int) returns (m': Machine)
    requires m.Valid() && WideResult(op, m.rax, m.rdx, m.Get(r)) == Some((a, d))
    ensures m' == m.(rax := a, rdx := d) && m'.Valid()
    ensures Run(Cons(Wide(op, r), rest), m, params) == Run(rest, m', params)
  {
    hide Run, WideResult;
    m' := m.(rax := a, rdx := d);
    RunNext(Wide(op, r), rest, m, params, m');
  }

  lemma RunDivideError(op: WideOp, r: Reg, rest: Code, m: Machine, params: seq<u32>)
    requires m.Valid() && WideResult(op, m.rax, m.rdx, m.Get(r)) == None
    ensures Run(Cons(Wide(op, r), rest), m, params) == HostFault
  {
    hide WideResult;
  }

  lemma ProductValues(a: u32, b: u32)
    ensures WideResult(IMULL, b, a, a) == Some((Rv32.MulValue(Rv32.MUL, a, b), Rv32.MulValue(Rv32.MULH, a, b)))
    ensures WideResult(MULL, b, a, a).Some? && WideResult(MULL, b, a, a).value.1 == Rv32.MulValue(Rv32.MULHU, a, b)
  {
    WrapId(a);
    WrapId(b);
    LowProduct(a, b);
    Commutes(Signed(a), Signed(b));
    Commutes(a, b);
  }

  lemma Commutes(a: int, b: int)
    ensures a * b == b * a
  {
  }

  function ProductOp(k: Rv32.MulKind): WideOp {
    if k == Rv32.MULHU then MULL else IMULL
  }

  function ProductReg(k: Rv32.MulKind): Reg {
    if k == Rv32.MUL then RAX else RDX
  }

  lemma MulProduct(i: Rv32.Instr, m: Machine, params: seq<u32>)
    requires i.MulDiv? && (i.mul == Rv32.MUL || i.mul == Rv32.MULH || i.mul == Rv32.MULHU) && Ready(i, m, params)
    ensures Simulates(i, m, Run(LoadGuest(0, RSI, RDX, LoadGuest(1, RSI, RAX,
      Cons(Wide(ProductOp(i.mul), RDX), Finish(2, RDI, ProductReg(i.mul))))), m, params))
  {
    hide Run, Step, Simulates, Computes, WideResult, Rv32.MulValue, LoadGuest, Finish;
    IndexBound(i.rs1);
    IndexBound(i.rs2);
    var a: u32, b: u32 := Rv32.Read(m.hart, i.rs1), Rv32.Read(m.hart, i.rs2);
    var finish := Finish(2, RDI, ProductReg(i.mul));
    var core := Cons(Wide(ProductOp(i.mul), RDX), finish);
    var m1 := RunLoad(0, RSI, RDX, LoadGuest(1, RSI, RAX, core), m, params);
    var m2 := RunLoad(1, RSI, RAX, core, m1, params);
    ProductValues(a, b);
    var v := Rv32.MulValue(i.mul, a, b);
    var r := WideResult(ProductOp(i.mul), b, a, a).value;
    var m3 := RunWide(ProductOp(i.mul), RDX, finish, m2, params, r.0, r.1);
    ExecuteMul(i, m.hart);
    WrapId(v);
    FinishSimulates(i, i.rd, v, 2, RDI, ProductReg(i.mul), m, m3, params);
  }

  lemma MixedProduct(a: u32, b: u32)
    ensures var r := WideResult(IMULQ, Wrap64(Signed(a)), b, b);
      r.Some? && Wrap(r.value.0 / 0x1_0000_0000) == Rv32.MulValue(Rv32.MULHSU, a, b)
  {
    Signed64OfSigned(a);
    HighHalf(Signed(a) * b);
  }

  lemma MulMixed(i: Rv32.Instr, m: Machine, params: seq<u32>)
    requires i.MulDiv? && i.mul == Rv32.MULHSU && Ready(i, m, params)
    ensures Simulates(i, m, Run(LoadGuest(0, RSI, RAX, Cons(Movsx(RAX, RAX), LoadGuest(1, RSI, RDX,
      Cons(Wide(IMULQ, RDX), Cons(ShrHalf(RAX), Finish(2, RDI, RAX)))))), m, params))
  {
    hide Wrap, Wrap64, Run, Step, Simulates, Computes, WideResult, Rv32.MulValue, LoadGuest, Finish;
    IndexBound(i.rs1);
    IndexBound(i.rs2);
    var a: u32, b: u32 := Rv32.Read(m.hart, i.rs1), Rv32.Read(m.hart, i.rs2);
    var finish := Finish(2, RDI, RAX);
    var c3 := Cons(ShrHalf(RAX), finish);
    var c2 := Cons(Wide(IMULQ, RDX), c3);
    var c1 := LoadGuest(1, RSI, RDX, c2);
    var m1 := RunLoad(0, RSI, RAX, Cons(Movsx(RAX, RAX), c1), m, params);
    var m1' := RunMovsx(RAX, RAX, c1, m1, params, a);
    var m2 := RunLoad(1, RSI, RDX, c2, m1', params);
    MixedProduct(a, b);
    var r := WideResult(IMULQ, Wrap64(Signed(a)), b, b).value;
    var m3 := RunWide(IMULQ, RDX, c3, m2, params, r.0, r.1);
    var m4 := RunShrHalf(RAX, finish, m3, params);
    ExecuteMul(i, m.hart);
    FinishSimulates(i, i.rd, Rv32.MulValue(i.mul, a, b), 2, RDI, RAX, m, m4, params);
  }

  // ----- division -----

  predicate SignedDivision(k: Rv32.MulKind) {
    k == Rv32.DIV || k == Rv32.REM
  }

  predicate Guarded(k: Rv32.MulKind) {
    k == Rv32.DIV || k == Rv32.DIVU
  }

  function DivideReg(k: Rv32.MulKind): Reg {
    if Guarded(k) then RAX else RDX
  }

  predicate Divides(k: Rv32.MulKind) {
    k == Rv32.DIV || k == Rv32.DIVU || k == Rv32.REM || k == Rv32.REMU
  }

  function DividendHigh(k: Rv32.MulKind, a: u32): u32 {
    if SignedDivision(k) && a >= 0x8000_0000 then 0xffff_ffff else 0
  }

  function DivideOp(k: Rv32.MulKind): WideOp {
    if SignedDivision(k) then IDIVL else DIVL
  }

  // What the bare host division leaves in the result register, or its error.
  lemma HostDivideValue(k: Rv32.MulKind, a: u32, b: u32)
    requires Divides(k)
    ensures var r := WideResult(DivideOp(k), a, DividendHigh(k, a), b);
      && (r == None <==> b == 0 || Undividable(k, a, b))
      && (r.Some? ==> (if Guarded(k) then r.value.0 else r.value.1) == Rv32.MulValue(k, a, b))
  {
    hide WideResult, Rv32.MulValue;
    HostDivide(a, b, if a < 0x8000_0000 then 0 else 0xffff_ffff);
    HostDivideUnsigned(a, b);
  }

  lemma DivideByZero(k: Rv32.MulKind, a: u32)
    requires Guarded(k)
    ensures Rv32.MulValue(k, a, 0) == 0xffff_ffff
  {
  }

  // The division instruction and the store, on any operands the guard lets through.
  lemma RunDivide(i: Rv32.Instr, m: Machine, m1: Machine, params: seq<u32>)
    requires i.MulDiv? && Divides(i.mul) && Ready(i, m, params)
    requires m1.Valid() && m1.hart == m.hart && m1.base == m.base
    requires var a, b := Rv32.Read(m.hart, i.rs1), Rv32.Read(m.hart, i.rs2);
      m1.rax == a && m1.rdx == DividendHigh(i.mul, a) && m1.rbx == b && (Guarded(i.mul) ==> b != 0)
    ensures Simulates(i, m, Run(Cons(Wide(DivideOp(i.mul), RBX), Finish(2, RDI, DivideReg(i.mul))), m1, params))
  {
    hide Wrap, Run, Step, Computes, WideResult, Rv32.MulValue, DividendHigh, Finish;
    var a: u32, b: u32 := Rv32.Read(m.hart, i.rs1), Rv32.Read(m.hart, i.rs2);
    HostDivideValue(i.mul, a, b);
    var r := WideResult(DivideOp(i.mul), a, DividendHigh(i.mul, a), b);
    var finish := Finish(2, RDI, DivideReg(i.mul));
    if r == None {
      RunDivideError(DivideOp(i.mul), RBX, finish, m1, params);
    } else {
      var v := Rv32.MulValue(i.mul, a, b);
      var m2 := RunWide(DivideOp(i.mul), RBX, finish, m1, params, r.value.0, r.value.1);
      ExecuteMul(i, m.hart);
      WrapId(v);
      FinishSimulates(i, i.rd, v, 2, RDI, DivideReg(i.mul), m, m2, params);
    }
  }

  // cmpl $0, %r8d; jnz over the all-ones result
  function GuardCode(divide: Code): Code {
    Cons(Mov(R(RBX), R8), Cons(Cmp(Imm(0), R8), Cons(Jcc(NE, 2), Cons(Mov(Imm(0xffff_ffff), RAX), Cons(Jmp(1), divide)))))
  }

  lemma RunJmp(n: nat, rest: Code, m: Machine, params: seq<u32>)
    requires m.Valid()
    ensures Run(Cons(Jmp(n), rest), m, params) == Run(Skip(rest, n), m, params)
  {
  }

  lemma SkipLengths(i: Instr, j: Instr, k: Instr, rest: Code)
    ensures Skip(Cons(i, rest), 1) == rest
    ensures Skip(Cons(i, Cons(j, rest)), 2) == rest
  {
  }

  lemma RunGuarded(i: Rv32.Instr, m: Machine, m1: Machine, params: seq<u32>)
    requires i.MulDiv? && Guarded(i.mul) && Ready(i, m, params)
    requires m1.Valid() && m1.hart == m.hart && m1.base == m.base
    requires var a, b := Rv32.Read(m.hart, i.rs1), Rv32.Read(m.hart, i.rs2);
      m1.rax == a && m1.rdx == DividendHigh(i.mul, a) && m1.rbx == b
    ensures Simulates(i, m, Run(GuardCode(Cons(Wide(DivideOp(i.mul), RBX), Finish(2, RDI, RAX))), m1, params))
  {
    hide Wrap, Run, Step, Simulates, Computes, Compare, Holds, Skip, Rv32.MulValue, DividendHigh, Finish;
    var b: u32 := Rv32.Read(m.hart, i.rs2);
    var finish := Finish(2, RDI, RAX);
    var divide := Cons(Wide(DivideOp(i.mul), RBX), finish);
    var c4 := Cons(Jmp(1), divide);
    var c3 := Cons(Mov(Imm(0xffff_ffff), RAX), c4);
    var c2 := Cons(Jcc(NE, 2), c3);
    var m2 := RunMov(R(RBX), R8, Cons(Cmp(Imm(0), R8), c2), m1, params);
    WrapId(b);
    var m3 := RunCmp(Imm(0), R8, c2, m2, params);
    FlagsDecide(0, b);
    RunJcc(NE, 2, c3, m3, params);
    SkipLengths(Mov(Imm(0xffff_ffff), RAX), Jmp(1), NextPc, divide);
    if b != 0 {
      RunDivide(i, m, m3, params);
    } else {
      var m4 := RunMov(Imm(0xffff_ffff), RAX, c4, m3, params);
      RunJmp(1, divide, m4, params);
      SkipLengths(Wide(DivideOp(i.mul), RBX), NextPc, NextPc, finish);
      GuardedZero(i, m.hart);
      WrapId(0xffff_ffff);
      FinishSimulates(i, i.rd, 0xffff_ffff, 2, RDI, RAX, m, m4, params);
    }
  }

  lemma GuardedZero(i: Rv32.Instr, h: Hart)
    requires h.Valid() && i.MulDiv? && Guarded(i.mul) && Rv32.Read(h, i.rs2) == 0
    ensures Computes(i, h, i.rd, 0xffff_ffff)
  {
    hide Computes;
    DivideByZero(i.mul, Rv32.Read(h, i.rs1));
    ExecuteMul(i, h);
  }

  function DivisionCode(k: Rv32.MulKind): Code {
    var divide := Cons(Wide(DivideOp(k), RBX), Finish(2, RDI, DivideReg(k)));
    LoadGuest(1, RSI, RBX, if Guarded(k) then GuardCode(divide) else divide)
  }

  lemma RunDivision(i: Rv32.Instr, m: Machine, m1: Machine, params: seq<u32>)
    requires i.MulDiv? && Divides(i.mul) && Ready(i, m, params)
    requires m1.Valid() && m1.hart == m.hart && m1.base == m.base
    requires var a := Rv32.Read(m.hart, i.rs1); m1.rax == a && m1.rdx == DividendHigh(i.mul, a)
    ensures Simulates(i, m, Run(DivisionCode(i.mul), m1, params))
  {
    hide Run, Simulates, DividendHigh, LoadGuest, Finish, GuardCode;
    IndexBound(i.rs2);
    var divide := Cons(Wide(DivideOp(i.mul), RBX), Finish(2, RDI, DivideReg(i.mul)));
    var core := if Guarded(i.mul) then GuardCode(divide) else divide;
    var m2 := RunLoad(1, RSI, RBX, core, m1, params);
    if Guarded(i.mul) {
      RunGuarded(i, m, m2, params);
    } else {
      RunDivide(i, m, m2, params);
    }
  }

  lemma MulDivide(i: Rv32.Instr, m: Machine, params: seq<u32>)
    requires i.MulDiv? && Divides(i.mul) && Ready(i, m, params)
    ensures Simulates(i, m, Run(LoadGuest(0, RSI, RAX,
      if SignedDivision(i.mul) then Cons(Movsx(RAX, RDX), Cons(ShrHalf(RDX), DivisionCode(i.mul)))
      else Cons(Alu(XORL, R(RDX), RDX), DivisionCode(i.mul))), m, params))
  {
    hide Wrap, Wrap64, Run, Step, Simulates, LoadGuest, DivisionCode;
    IndexBound(i.rs1);
    var a: u32 := Rv32.Read(m.hart, i.rs1);
    var core := DivisionCode(i.mul);
    if SignedDivision(i.mul) {
      var m1 := RunLoad(0, RSI, RAX, Cons(Movsx(RAX, RDX), Cons(ShrHalf(RDX), core)), m, params);
      var m2 := RunMovsx(RAX, RDX, Cons(ShrHalf(RDX), core), m1, params, a);
      Signed64OfSigned(a);
      var m3 := RunShrHalf(RDX, core, m2, params);
      RunDivision(i, m, m3, params);
    } else {
      var m1 := RunLoad(0, RSI, RAX, Cons(Alu(XORL, R(RDX), RDX), core), m, params);
      var m2 := RunClear(RDX, core, m1, params);
      RunDivision(i, m, m2, params);
    }
  }

  lemma MulBlockSimulates(i: Rv32.Instr, m: Machine, params: seq<u32>)
    requires i.MulDiv? && Ready(i, m, params)
    ensures Simulates(i, m, Run(MulCode(i.mul), m, params))
  {
    hide Run, Simulates, LoadGuest, Finish, ParamsOf;
    match i.mul
    case MUL | MULH | MULHU => MulProduct(i, m, params);
    case MULHSU => MulMixed(i, m, params);
    case DIV | DIVU | REM | REMU => MulDivide(i, m, params);
  }
}
