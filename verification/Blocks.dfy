/** Stepping through the pieces every block template shares. */
module Blocks {
  import opened Words
  import Rv32
  import opened X86
  import opened Translator

  // ----- one instruction -----

  lemma RunNext(i: Instr, rest: Code, m: Machine, params: seq<u32>, m': Machine)
    requires m.Valid() && !i.Jcc? && !i.Jmp? && Step(i, m, params) == Next(m')
    ensures m'.Valid() && Run(Cons(i, rest), m, params) == Run(rest, m', params)
  {
  }

  lemma SetValid(m: Machine, r: Reg, v: int)
    requires m.Valid()
    ensures m.Set(r, v).Valid() && m.Set(r, v).hart == m.hart && m.Set(r, v).base == m.base
    ensures m.Set(r, v).Get(r) == v
  {
  }

  lemma SetTwice(m: Machine, r: Reg, v: int, w: int)
    ensures m.Set(r, v).Set(r, w) == m.Set(r, w)
  {
  }

  lemma RunSet(i: Instr, rest: Code, m: Machine, params: seq<u32>, r: Reg, v: int)
    requires m.Valid() && !i.Jcc? && !i.Jmp? && Step(i, m, params) == Next(m.Set(r, v))
    ensures m.Set(r, v).Valid() && Run(Cons(i, rest), m, params) == Run(rest, m.Set(r, v), params)
  {
    SetValid(m, r, v);
    RunNext(i, rest, m, params, m.Set(r, v));
  }

  lemma RunMov(src: Operand, dst: Reg, rest: Code, m: Machine, params: seq<u32>) returns (m': Machine)
    requires m.Valid()
    ensures m' == m.Set(dst, Value(src, m, params)) && m'.Valid()
    ensures Run(Cons(Mov(src, dst), rest), m, params) == Run(rest, m', params)
  {
    m' := m.Set(dst, Value(src, m, params));
    RunSet(Mov(src, dst), rest, m, params, dst, Value(src, m, params));
  }

  lemma RunAlu(op: AluOp, src: Operand, dst: Reg, rest: Code, m: Machine, params: seq<u32>, v: u32) returns (m': Machine)
    requires m.Valid() && AluResult(op, Value(src, m, params), m.Low(dst)) == v
    ensures m' == m.Set(dst, v) && m'.Valid()
    ensures Run(Cons(Alu(op, src, dst), rest), m, params) == Run(rest, m', params)
  {
    m' := m.Set(dst, v);
    RunSet(Alu(op, src, dst), rest, m, params, dst, v);
  }

  lemma RunCmp(src: Operand, dst: Reg, rest: Code, m: Machine, params: seq<u32>) returns (m': Machine)
    requires m.Valid()
    ensures m' == m.(flags := Compare(Value(src, m, params), m.Low(dst))) && m'.Valid()
    ensures Run(Cons(Cmp(src, dst), rest), m, params) == Run(rest, m', params)
  {
    m' := m.(flags := Compare(Value(src, m, params), m.Low(dst)));
    RunNext(Cmp(src, dst), rest, m, params, m');
  }

  // xor %ecx, %ecx and xor %edx, %edx
  lemma RunClear(r: Reg, rest: Code, m: Machine, params: seq<u32>) returns (m': Machine)
    requires m.Valid()
    ensures m' == m.Set(r, 0) && m'.Valid()
    ensures Run(Cons(Alu(XORL, R(r), r), rest), m, params) == Run(rest, m', params)
  {
    XorSelf(m.Low(r), 32);
    m' := RunAlu(XORL, R(r), r, rest, m, params, 0);
  }

  lemma {:induction false} XorSelf(a: nat, n: nat)
    ensures Bitwise(Xor, a, a, n) == 0
  {
    if n > 0 { XorSelf(a / 2, n - 1); }
  }

  // ----- guest registers -----

  lemma RunAddBase(a: Reg, rest: Code, m: Machine, params: seq<u32>, off: nat) returns (m': Machine)
    requires m.Valid() && m.Get(a) == off && off < 128
    ensures m' == m.Set(a, m.base + off) && m'.Valid()
    ensures Run(Cons(AddBase(a), rest), m, params) == Run(rest, m', params)
  {
    hide Run;
    assert Wrap64(m.base + off) == m.base + off;
    m' := m.Set(a, m.base + off);
    RunSet(AddBase(a), rest, m, params, a, m.base + off);
  }

  lemma RunAddress(k: nat, a: Reg, rest: Code, m: Machine, params: seq<u32>) returns (m': Machine)
    requires m.Valid() && k < |params| && params[k] < 32
    ensures m' == m.Set(a, m.base + 4 * params[k]) && m'.Valid() && m'.hart == m.hart && m'.base == m.base
    ensures Run(GuestAddress(k, a, rest), m, params) == Run(rest, m', params)
  {
    hide Run, Step, AluResult;
    var p := params[k];
    var c2 := Cons(AddBase(a), rest);
    var c1 := Cons(Alu(SHLL, Imm(2), a), c2);
    SetValid(m, a, p);
    SetValid(m, a, 4 * p);
    SetTwice(m, a, p, 4 * p);
    SetTwice(m, a, 4 * p, m.base + 4 * p);
    ShiftByTwo(p);
    var m1 := RunMov(Param(k), a, c1, m, params);
    var m2 := RunAlu(SHLL, Imm(2), a, c2, m1, params, 4 * p);
    m' := RunAddBase(a, rest, m2, params, 4 * p);
    SetValid(m, a, m.base + 4 * p);
  }

  lemma ShiftByTwo(p: u32)
    requires p < 32
    ensures AluResult(SHLL, 2, Wrap(p)) == 4 * p
  {
    assert Pow2(2) == 4;
  }

  // The machine after loading guest register `p` into `dst` through address register `a`.
  function Loaded(m: Machine, a: Reg, dst: Reg, p: u32): Machine
    requires m.Valid() && p < 32
  {
    m.Set(a, m.base + 4 * p).Set(dst, m.hart.x[p])
  }

  lemma RunLoadWord(p: u32, a: Reg, dst: Reg, rest: Code, m: Machine, params: seq<u32>) returns (m': Machine)
    requires m.Valid() && p < 32 && m.Get(a) == m.base + 4 * p
    ensures m' == m.Set(dst, m.hart.x[p]) && m'.Valid() && m'.hart == m.hart && m'.base == m.base
    ensures Run(Cons(Load(a, dst), rest), m, params) == Run(rest, m', params)
  {
    WordAt(m, p, 0);
    m' := m.Set(dst, m.hart.x[p]);
    SetValid(m, dst, m.hart.x[p]);
    RunSet(Load(a, dst), rest, m, params, dst, m.hart.x[p]);
  }

  lemma RunLoad(k: nat, a: Reg, dst: Reg, rest: Code, m: Machine, params: seq<u32>) returns (m': Machine)
    requires m.Valid() && k < |params| && params[k] < 32
    ensures m' == Loaded(m, a, dst, params[k]) && m'.Valid() && m'.hart == m.hart && m'.base == m.base
    ensures Run(LoadGuest(k, a, dst, rest), m, params) == Run(rest, m', params)
  {
    hide Run, Step, GuestAddress;
    var m1 := RunAddress(k, a, Cons(Load(a, dst), rest), m, params);
    SetValid(m, a, m.base + 4 * params[k]);
    m' := RunLoadWord(params[k], a, dst, rest, m1, params);
  }

  lemma WordAt(m: Machine, p: u32, v: u32)
    requires m.Valid() && p < 32
    ensures LoadWord(m, m.base + 4 * p) == Some(m.hart.x[p])
    ensures StoreWord(m, m.base + 4 * p, v) == Next(m.(hart := m.hart.(x := m.hart.x[p := v])))
  {
    assert (4 * p) / 4 == p;
  }

  // A store through a register that holds the address of a guest register.
  lemma RunStore(p: u32, a: Reg, src: Reg, rest: Code, m: Machine, params: seq<u32>) returns (m': Machine)
    requires m.Valid() && p < 32 && m.Get(a) == m.base + 4 * p
    ensures m' == m.(hart := m.hart.(x := m.hart.x[p := m.Low(src)])) && m'.Valid()
    ensures Run(Cons(Store(src, a), rest), m, params) == Run(rest, m', params)
  {
    WordAt(m, p, m.Low(src));
    m' := m.(hart := m.hart.(x := m.hart.x[p := m.Low(src)]));
    RunNext(Store(src, a), rest, m, params, m');
  }

  lemma RunNextInstruction(m: Machine, params: seq<u32>) returns (m': Machine)
    requires m.Valid()
    ensures m'.Valid() && m'.base == m.base
    ensures m'.hart == Rv32.Hart(m.hart.x[0 := 0], Wrap(m.hart.pc + 4))
    ensures Run(NextInstruction, m, params) == Fell(m')
  {
    var m1 := m.(hart := m.hart.(x := m.hart.x[0 := 0]));
    RunNext(ResetZero, Cons(NextPc, FallThrough), m, params, m1);
    m' := m1.(hart := m1.hart.(pc := Wrap(m1.hart.pc + 4)));
    RunNext(NextPc, FallThrough, m1, params, m');
  }

  // The guest state after writing `v` to register `p` and resetting register zero.
  function Written(h: Hart, p: u32, v: u32): seq<u32>
    requires |h.x| == 32 && p < 32
  {
    h.x[p := v][0 := 0]
  }

  lemma RunFinish(k: nat, a: Reg, src: Reg, m: Machine, params: seq<u32>) returns (m': Machine)
    requires m.Valid() && k < |params| && params[k] < 32 && a != src
    ensures m'.Valid() && m'.base == m.base
    ensures m'.hart == Rv32.Hart(Written(m.hart, params[k], m.Low(src)), Wrap(m.hart.pc + 4))
    ensures Run(Finish(k, a, src), m, params) == Fell(m')
  {
    hide Run, Step, GuestAddress;
    var m1 := RunAddress(k, a, Cons(Store(src, a), NextInstruction), m, params);
    SetValid(m, a, m.base + 4 * params[k]);
    SetOther(m, a, m.base + 4 * params[k], src);
    var m2 := RunStore(params[k], a, src, NextInstruction, m1, params);
    m' := RunNextInstruction(m2, params);
  }

  lemma SetOther(m: Machine, r: Reg, v: int, q: Reg)
    requires q != r
    ensures m.Set(r, v).Get(q) == m.Get(q)
  {
  }
}
