/**
 The slice of x86-64 the translated blocks use: the scratch registers, the four
 arithmetic flags, and the words of `struct hart` that r15 and r14 point into.
 */
module X86 {
  import opened Words
  import Rv32

  type Hart = Rv32.Hart

  datatype Reg = RAX | RBX | RCX | RDX | RSI | RDI | R8

  datatype Flags = Flags(zf: bool, sf: bool, of: bool, cf: bool)

  // Register contents are unsigned 64-bit values; every instruction below keeps them so.
  // `base` is the address of the register group, the value of r15.  The pc is the word behind it, at r14.
  datatype Machine = Machine(
    rax: int, rbx: int, rcx: int, rdx: int, rsi: int, rdi: int, r8: int,
    flags: Flags, base: nat, hart: Hart)
  {
    ghost predicate Valid() {
      |hart.x| == 32 && base + 132 < TWO64
    }

    function Get(r: Reg): int {
      match r
      case RAX => rax
      case RBX => rbx
      case RCX => rcx
      case RDX => rdx
      case RSI => rsi
      case RDI => rdi
      case R8 => r8
    }

    function Set(r: Reg, v: int): Machine {
      match r
      case RAX => this.(rax := v)
      case RBX => this.(rbx := v)
      case RCX => this.(rcx := v)
      case RDX => this.(rdx := v)
      case RSI => this.(rsi := v)
      case RDI => this.(rdi := v)
      case R8 => this.(r8 := v)
    }

    // The low half of a register, its 32-bit name.
    function Low(r: Reg): u32 {
      Wrap(Get(r))
    }
  }

  // The condition codes of the jumps and of setcc.
  datatype Cond = E | NE | L | GE | B | AE

  predicate Holds(c: Cond, f: Flags) {
    match c
    case E => f.zf
    case NE => !f.zf
    case L => f.sf != f.of
    case GE => f.sf == f.of
    case B => f.cf
    case AE => !f.cf
  }

  // A 32-bit source: a patched parameter slot, an immediate or a register.
  datatype Operand = Param(k: nat) | Imm(v: u32) | R(r: Reg)

  datatype AluOp = ADDL | SUBL | ANDL | ORL | XORL | SHLL | SHRL | SARL | BTRL

  datatype WideOp = IMULL | MULL | IMULQ | IDIVL | DIVL

  // The moves that widen %al or %ax to %eax.
  datatype Widening = MOVSBL | MOVZBL | MOVSWL | MOVZWL

  // The functions of the vmm that translated code calls; `FenceICallback` is `flush_translation_cache`.
  datatype Callback =
    | MmuRead8 | MmuRead16 | MmuRead32
    | MmuWrite8 | MmuWrite16 | MmuWrite32
    | AmoSlowpath | CsrCallback
    | SfenceVmaCallback | FenceICallback | EcallCallback | EbreakCallback | WfiCallback | MretCallback | SretCallback

  // AT&T operand order: the source first, the destination last.
  datatype Instr =
    | Mov(src: Operand, dst: Reg)              // movl src, %dst32
    | Alu(op: AluOp, src: Operand, dst: Reg)   // opl src, %dst32
    | Cmp(src: Operand, dst: Reg)              // cmpl src, %dst32
    | AddBase(dst: Reg)                        // addq %r15, %dst
    | Load(addr: Reg, dst: Reg)                // movl (%addr), %dst32
    | Store(reg: Reg, addr: Reg)               // movl %reg32, (%addr)
    | LoadPc(dst: Reg)                         // movl (%r14), %dst32
    | StorePc(reg: Reg)                        // movl %reg32, (%r14)
    | NextPc                                   // addl $4, (%r14)
    | ResetZero                                // movl $0, (%r15)
    | SetCl(cond: Cond)                        // setcc %cl
    | MovzxCl                                  // movzbl %cl, %ecx
    | Movsx(reg: Reg, dst: Reg)                // movsxd %reg32, %dst
    | ShrHalf(dst: Reg)                        // shr $32, %dst
    | Movx(widening: Widening)                 // movsbl %al, %eax and the like
    | Wide(wide: WideOp, reg: Reg)             // the one-operand multiplications and divisions
    | Jcc(cond: Cond, skip: nat)               // a forward jump over `skip` instructions
    | Jmp(skip: nat)

  // A block ends by falling into the byte behind it or by entering the vmm; a call continues with `back` when it returns.
  datatype Code = FallThrough | TrapToVmm | CallVmm(call: Callback, back: Code) | Cons(head: Instr, tail: Code)

  // Shift counts are taken modulo 32 by the hardware.
  function AluResult(op: AluOp, src: u32, dst: u32): u32 {
    match op
    case ADDL => Wrap(dst + src)
    case SUBL => Wrap(dst - src)
    case ANDL => Bitwise32(And, dst, src)
    case ORL => Bitwise32(Or, dst, src)
    case XORL => Bitwise32(Xor, dst, src)
    case SHLL => Wrap(dst * Pow2(src % 32))
    case SHRL => Wrap(dst / Pow2(src % 32))
    case SARL => Wrap(Signed(dst) / Pow2(src % 32))
    case BTRL => Wrap(dst - dst / Pow2(src % 32) % 2 * Pow2(src % 32))
  }

  // The flags of `dst - src`.
  function Compare(src: u32, dst: u32): Flags {
    var r := Wrap(dst - src);
    var d := Signed(dst) - Signed(src);
    Flags(r == 0, r >= 0x8000_0000, d < -0x8000_0000 || d >= 0x8000_0000, dst < src)
  }

  // The truncating division of the hardware.
  function Quot(n: int, d: int): int
    requires d != 0
  {
    if n >= 0 then n / d else -((-n) / d)
  }

  function Rem(n: int, d: int): int
    requires d != 0
  {
    n - Quot(n, d) * d
  }

  function Wrap64(x: int): int {
    x % 0x1_0000_0000_0000_0000
  }

  function Signed64(x: int): int {
    if x < 0x8000_0000_0000_0000 then x else x - 0x1_0000_0000_0000_0000
  }

  // What the one-operand forms leave in rax and rdx; `None` is the host divide error.
  function WideResult(op: WideOp, rax: int, rdx: int, src: int): Option<(int, int)> {
    match op
    case IMULL =>
      var p := Signed(Wrap(rax)) * Signed(Wrap(src));
      Some((Wrap(p), Wrap(p / 0x1_0000_0000)))
    case MULL =>
      var p := Wrap(rax) * Wrap(src);
      Some((Wrap(p), Wrap(p / 0x1_0000_0000)))
    case IMULQ =>
      var p := Signed64(rax) * Signed64(src);
      Some((Wrap64(p), Wrap64(p / 0x1_0000_0000_0000_0000)))
    case IDIVL =>
      var n := Signed64(Wrap(rdx) * 0x1_0000_0000 + Wrap(rax));
      var d := Signed(Wrap(src));
      if d == 0 || Quot(n, d) < -0x8000_0000 || Quot(n, d) >= 0x8000_0000 then None
      else Some((Wrap(Quot(n, d)), Wrap(Rem(n, d))))
    case DIVL =>
      var n := Wrap(rdx) * 0x1_0000_0000 + Wrap(rax);
      var d := Wrap(src);
      if d == 0 || n / d >= 0x1_0000_0000 then None
      else Some((Wrap(n / d), Wrap(n % d)))
  }

  function Widened(w: Widening, v: u32): u32 {
    match w
    case MOVSBL => var b := v % 0x100; if b < 0x80 then b else b + 0xffff_ff00
    case MOVZBL => v % 0x100
    case MOVSWL => var b := v % 0x1_0000; if b < 0x8000 then b else b + 0xffff_0000
    case MOVZWL => v % 0x1_0000
  }

  // A host divide error kills the emulator; an access outside the hart words is not modelled.
  datatype StepResult = Next(m: Machine) | DivideError | WildAccess

  // An unpatched parameter slot still holds the filler of the block template.
  function Value(o: Operand, m: Machine, params: seq<u32>): u32 {
    match o
    case Param(k) => if k < |params| then params[k] else 0xcccc_cccc
    case Imm(v) => v
    case R(r) => m.Low(r)
  }

  function LoadWord(m: Machine, addr: int): Option<u32>
    requires m.Valid()
  {
    var off := addr - m.base;
    if off < 0 || off % 4 != 0 || off > 128 then None
    else if off == 128 then Some(m.hart.pc)
    else Some(m.hart.x[off / 4])
  }

  function StoreWord(m: Machine, addr: int, v: u32): (r: StepResult)
    requires m.Valid()
    ensures r.Next? ==> r.m.Valid()
  {
    var off := addr - m.base;
    if off < 0 || off % 4 != 0 || off > 128 then WildAccess
    else if off == 128 then Next(m.(hart := m.hart.(pc := v)))
    else Next(m.(hart := m.hart.(x := m.hart.x[off / 4 := v])))
  }

  function Step(i: Instr, m: Machine, params: seq<u32>): (r: StepResult)
    requires m.Valid()
    ensures r.Next? ==> r.m.Valid()
  {
    match i
    case Mov(src, dst) => Next(m.Set(dst, Value(src, m, params)))
    case Alu(op, src, dst) => Next(m.Set(dst, AluResult(op, Value(src, m, params), m.Low(dst))))
    case Cmp(src, dst) => Next(m.(flags := Compare(Value(src, m, params), m.Low(dst))))
    case AddBase(dst) => Next(m.Set(dst, Wrap64(m.Get(dst) + m.base)))
    case Load(addr, dst) =>
      (match LoadWord(m, m.Get(addr))
       case Some(v) => Next(m.Set(dst, v))
       case None => WildAccess)
    case Store(reg, addr) => StoreWord(m, m.Get(addr), m.Low(reg))
    case LoadPc(dst) => Next(m.Set(dst, m.hart.pc))
    case StorePc(reg) => Next(m.(hart := m.hart.(pc := m.Low(reg))))
    case NextPc => Next(m.(hart := m.hart.(pc := Wrap(m.hart.pc + 4))))
    case ResetZero => Next(m.(hart := m.hart.(x := m.hart.x[0 := 0])))
    case SetCl(cond) => Next(m.(rcx := m.rcx - m.rcx % 256 + if Holds(cond, m.flags) then 1 else 0))
    case MovzxCl => Next(m.(rcx := m.rcx % 256))
    case Movsx(reg, dst) => Next(m.Set(dst, Wrap64(Signed(m.Low(reg)))))
    case ShrHalf(dst) => Next(m.Set(dst, m.Get(dst) / 0x1_0000_0000))
    case Movx(w) => Next(m.(rax := Widened(w, m.Low(RAX))))
    case Wide(op, reg) =>
      (match WideResult(op, m.rax, m.rdx, m.Get(reg))
       case Some((a, d)) => Next(m.(rax := a, rdx := d))
       case None => DivideError)
    case Jcc(_, _) => Next(m)
    case Jmp(_) => Next(m)
  }

  datatype Outcome =
    | Fell(m: Machine)      // control is at the byte after the block
    | Trapped(m: Machine)   // control is in the vmm
    | Calling(call: Callback, m: Machine, back: Code)   // control is in a function of the vmm
    | HostFault             // the host raised a divide error
    | Wild

  // The arguments of a call besides the hart, in rsi, rdx, rcx and r8.
  function Arguments(f: Callback, m: Machine): seq<u32> {
    match f
    case MmuRead8 | MmuRead16 | MmuRead32 | CsrCallback => [m.Low(RSI)]
    case MmuWrite8 | MmuWrite16 | MmuWrite32 => [m.Low(RSI), m.Low(RDX)]
    case AmoSlowpath => [m.Low(RSI), m.Low(RDX), m.Low(RCX), m.Low(R8)]
    case _ => []
  }

  function Length(c: Code): nat {
    match c
    case Cons(_, tail) => 1 + Length(tail)
    case CallVmm(_, back) => 1 + Length(back)
    case _ => 0
  }

  function Skip(c: Code, n: nat): (r: Code)
    ensures Length(r) <= Length(c)
  {
    if n == 0 || !c.Cons? then c else Skip(c.tail, n - 1)
  }

  // Where control goes after the instruction at the head of `c`.
  function Target(c: Code, m: Machine): (r: Code)
    requires c.Cons?
    ensures Length(r) < Length(c)
  {
    match c.head
    case Jcc(cond, n) => if Holds(cond, m.flags) then Skip(c.tail, n) else c.tail
    case Jmp(n) => Skip(c.tail, n)
    case _ => c.tail
  }

  function Run(c: Code, m: Machine, params: seq<u32>): (r: Outcome)
    requires m.Valid()
    ensures r.Fell? || r.Trapped? || r.Calling? ==> r.m.Valid()
    ensures r.Calling? ==> Length(r.back) < Length(c)
    decreases Length(c)
  {
    match c
    case FallThrough => Fell(m)
    case TrapToVmm => Trapped(m)
    case CallVmm(call, back) => Calling(call, m, back)
    case Cons(i, _) =>
      match Step(i, m, params)
      case Next(m') => Run(Target(c, m), m', params)
      case DivideError => HostFault
      case WildAccess => Wild
  }
}
