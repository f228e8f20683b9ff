/**
 Privilege, traps and the control registers: what each vmm callback makes of the
 privileged state of a hart.
 */
module HartTrap {
  import opened Words

  // ----- state -----

  type Level = bv2

  const USER: Level := 0
  const SUPERVISOR: Level := 1
  const RESERVED: Level := 2
  const MACHINE: Level := 3

  datatype Status = Status(uie: bool, sie: bool, mie: bool, upie: bool, spie: bool, mpie: bool, spp: Level, mpp: Level)

  // A translation in the cache: where it was fetched from and the word it was made of.
  datatype Cached = Cached(pc: bv32, word: bv32)

  // The registers that keep their value in the csr table.
  datatype Blobs = Blobs(
    medeleg: bv32, satp: bv32,
    mepc: bv32, mcause: bv32, mtval: bv32, mtvec: bv32,
    sepc: bv32, scause: bv32, stval: bv32, stvec: bv32)

  // `tlb` records, for every valid entry, the satp value its walk started from.
  datatype Hart = Hart(
    pc: bv32, level: Level, status: Status, mip: bv32, mie: bv32, mideleg: bv32,
    csrs: Blobs, cache: set<Cached>, tlb: set<bv32>)

  // ----- address spaces (hart_util.h) -----

  predicate Paging(h: Hart) {
    h.level != MACHINE && h.csrs.satp & 0x8000_0000 != 0
  }

  function AddressSpaceTag(h: Hart): bv32 {
    if h.level == MACHINE || h.csrs.satp & 0x8000_0000 == 0 then 0 else h.csrs.satp
  }

  function FlushCache(h: Hart): Hart {
    h.(cache := {})
  }

  function FlushOnChange(h: Hart, previousTag: bv32): Hart {
    if AddressSpaceTag(h) != previousTag then FlushCache(h) else h
  }

  // ----- traps (hart_trap.c) -----

  function Base(tvec: bv32): bv32 {
    tvec & 0xffff_fffc
  }

  function VectorSlot(tvec: bv32, number: bv32): bv32 {
    (tvec & 0xffff_fffc) + number * 4
  }

  predicate VectoredMode(tvec: bv32) {
    tvec & 1 != 0
  }

  predicate IsInterrupt(cause: bv32) {
    cause & 0x8000_0000 != 0
  }

  function Number(cause: bv32): bv32 {
    cause & 0x7fff_ffff
  }

  // Vectored delivery applies to interrupts only.
  function Vector(tvec: bv32, cause: bv32): bv32 {
    if !VectoredMode(tvec) || !IsInterrupt(cause) then Base(tvec) else VectorSlot(tvec, Number(cause))
  }

  function MachineTrap(h: Hart, cause: bv32, tval: bv32): Hart {
    h.(csrs := h.csrs.(mcause := cause, mtval := tval, mepc := h.pc),
       status := h.status.(mpp := h.level, mpie := h.status.mie, mie := false),
       level := MACHINE, pc := Vector(h.csrs.mtvec, cause))
  }

  // The previous level is saved in a single bit.
  function SupervisorTrap(h: Hart, cause: bv32, tval: bv32): Hart {
    h.(csrs := h.csrs.(scause := cause, stval := tval, sepc := h.pc),
       status := h.status.(spp := h.level & 1, spie := h.status.sie, sie := false),
       level := SUPERVISOR, pc := Vector(h.csrs.stvec, cause))
  }

  // `None` is a failed assertion: only machine and supervisor mode take traps.
  function RaiseTrap(h: Hart, target: Level, cause: bv32, tval: bv32): Option<Hart> {
    if target == MACHINE then Some(FlushOnChange(MachineTrap(h, cause, tval), AddressSpaceTag(h)))
    else if target == SUPERVISOR then Some(FlushOnChange(SupervisorTrap(h, cause, tval), AddressSpaceTag(h)))
    else None
  }

  // ----- exceptions (hart_exception.c) -----

  const ILLEGAL_INSTRUCTION: bv32 := 2
  const ECALL_FROM_UMODE: bv32 := 8
  const ECALL_FROM_SMODE: bv32 := 9
  const ECALL_FROM_MMODE: bv32 := 11
  const INSTRUCTION_PAGE_FAULT: bv32 := 12

  function ExceptionTarget(h: Hart, number: bv32): Level
    requires number < 16
  {
    if h.level != MACHINE && h.csrs.medeleg & ((1 as bv32) << number) != 0 then SUPERVISOR else MACHINE
  }

  function RaiseException(h: Hart, number: bv32, tval: bv32): Option<Hart>
    requires number < 16
  {
    RaiseTrap(h, ExceptionTarget(h, number), number, tval)
  }

  // ----- interrupts (hart_interrupt.c) -----

  type Interrupt = v: bv32 | v < 12

  function InterruptTarget(h: Hart, v: Interrupt): Level {
    if h.mideleg & ((1 as bv32) << v) != 0 then SUPERVISOR else MACHINE
  }

  predicate Deliverable(h: Hart, v: Interrupt) {
    var target := InterruptTarget(h, v);
    && h.mip & ((1 as bv32) << v) != 0
    && h.mie & ((1 as bv32) << v) != 0
    && h.level <= target
    && (h.level < target || (if target == MACHINE then h.status.mie else h.status.sie))
  }

  // Machine before supervisor; external before software before timer.
  const DELIVERY_ORDER: seq<Interrupt> := [11, 3, 7, 9, 1, 5]

  function FirstDeliverable(h: Hart, order: seq<Interrupt>): Option<Interrupt> {
    if order == [] then None
    else if Deliverable(h, order[0]) then Some(order[0])
    else FirstDeliverable(h, order[1..])
  }

  // What remains of the pump once the devices have been refreshed.
  function DeliverPending(h: Hart): Option<Hart> {
    match FirstDeliverable(h, DELIVERY_ORDER)
    case None => Some(h)
    case Some(v) => RaiseTrap(h, InterruptTarget(h, v), 0x8000_0000 | v, 0)
  }

  // The block's own step to the next instruction.
  function Advance(h: Hart): Hart {
    h.(pc := h.pc + 4)
  }

  // ----- returns, fences and calls (translate_privileged_instr.c) -----

  function MachineReturn(h: Hart): Hart {
    h.(level := h.status.mpp, pc := h.csrs.mepc,
       status := h.status.(mpp := USER, mie := h.status.mpie, mpie := true))
  }

  function SupervisorReturn(h: Hart): Hart {
    h.(level := h.status.spp, pc := h.csrs.sepc,
       status := h.status.(spp := USER, sie := h.status.spie, spie := true))
  }

  function Mret(h: Hart): Option<Hart> {
    if h.level != MACHINE then RaiseException(h, ILLEGAL_INSTRUCTION, 0)
    else if h.status.mpp == RESERVED then None
    else Some(FlushOnChange(MachineReturn(h), AddressSpaceTag(h)))
  }

  function Sret(h: Hart): Option<Hart> {
    if h.level != SUPERVISOR then RaiseException(h, ILLEGAL_INSTRUCTION, 0)
    else if h.status.spp != USER && h.status.spp != SUPERVISOR then None
    else Some(FlushOnChange(SupervisorReturn(h), AddressSpaceTag(h)))
  }

  function SfenceVma(h: Hart): Hart {
    h.(tlb := {}, cache := {})
  }

  function Ecall(h: Hart): Option<Hart> {
    if h.level == MACHINE then RaiseException(h, ECALL_FROM_MMODE, 0)
    else if h.level == SUPERVISOR then RaiseException(h, ECALL_FROM_SMODE, 0)
    else if h.level == USER then RaiseException(h, ECALL_FROM_UMODE, 0)
    else None
  }

  // ----- control registers (csr_machine_level.c, csr_supervisor_level.c) -----

  datatype Csr =
    | MSTATUS | MIP | MIE | MIDELEG | MEDELEG | MEPC | MCAUSE | MTVAL | MTVEC
    | SSTATUS | SIP | SIE | SATP | SEPC | SCAUSE | STVAL | STVEC

  // The bits a csr instruction may read or write.
  function Mask(c: Csr): bv32 {
    match c
    case MSTATUS => 0x0000_19aa
    case MIP => 0x0000_0aaa
    case MIE => 0x0000_0aaa
    case MIDELEG => 0x0000_0222
    case MEDELEG => 0xffff_f7ff
    case MTVEC => 0xffff_fffd
    case SSTATUS => 0x0000_0133
    case SIP => 0x0000_0222
    case SIE => 0x0000_0222
    case _ => 0xffff_ffff
  }

  function Put(b: bool, mask: bv32): bv32 {
    if b then mask else 0
  }

  function PackStatus(s: Status): bv32 {
    Put(s.uie, 1) | Put(s.sie, 2) | Put(s.mie, 8) | Put(s.upie, 0x10) | Put(s.spie, 0x20) | Put(s.mpie, 0x80)
    | ((s.spp as bv32) << 8) | ((s.mpp as bv32) << 11)
  }

  function UnpackStatus(v: bv32): Status {
    Status(v & 1 != 0, v & 2 != 0, v & 8 != 0, v & 0x10 != 0, v & 0x20 != 0, v & 0x80 != 0,
           ((v >> 8) & 1) as Level, ((v >> 11) & 3) as Level)
  }

  function PackSstatus(s: Status): bv32 {
    Put(s.uie, 1) | Put(s.sie, 2) | Put(s.upie, 0x10) | Put(s.spie, 0x20) | ((s.spp as bv32) << 8)
  }

  // The supervisor's view leaves the machine fields alone.
  function UnpackSstatus(s: Status, v: bv32): Status {
    s.(uie := v & 1 != 0, sie := v & 2 != 0, upie := v & 0x10 != 0, spie := v & 0x20 != 0, spp := ((v >> 8) & 1) as Level)
  }

  function ReadCsr(h: Hart, c: Csr): bv32 {
    match c
    case MSTATUS => PackStatus(h.status)
    case MIP => h.mip
    case MIE => h.mie
    case MIDELEG => h.mideleg
    case MEDELEG => h.csrs.medeleg
    case MEPC => h.csrs.mepc
    case MCAUSE => h.csrs.mcause
    case MTVAL => h.csrs.mtval
    case MTVEC => h.csrs.mtvec
    case SSTATUS => PackSstatus(h.status)
    case SIP => h.mip & 0x222
    case SIE => h.mie & 0x333
    case SATP => h.csrs.satp
    case SEPC => h.csrs.sepc
    case SCAUSE => h.csrs.scause
    case STVAL => h.csrs.stval
    case STVEC => h.csrs.stvec
  }

  // The machine pending bits belong to the devices.
  function MergeMip(current: bv32, v: bv32): bv32 {
    (v & !0x888) | (current & 0x888)
  }

  // The supervisor may write its software bit only.
  function MergeSip(current: bv32, v: bv32): bv32 {
    (current & !0x2) | (v & 0x2)
  }

  function MergeSie(current: bv32, v: bv32): bv32 {
    (current & !0x222) | (v & 0x222)
  }

  function WriteSatp(h: Hart, v: bv32): Hart {
    h.(csrs := h.csrs.(satp := v), tlb := {}, cache := {})
  }

  predicate IsBlob(c: Csr) {
    match c
    case MEDELEG | MEPC | MCAUSE | MTVAL | MTVEC | SEPC | SCAUSE | STVAL | STVEC => true
    case _ => false
  }

  // The registers whose write stores the value and no more.
  function WriteBlob(b: Blobs, c: Csr, v: bv32): Blobs {
    match c
    case MEDELEG => b.(medeleg := v)
    case MEPC => b.(mepc := v)
    case MCAUSE => b.(mcause := v)
    case MTVAL => b.(mtval := v)
    case MTVEC => b.(mtvec := v)
    case SEPC => b.(sepc := v)
    case SCAUSE => b.(scause := v)
    case STVAL => b.(stval := v)
    case STVEC => b.(stvec := v)
    case _ => b
  }

  function WriteCsr(h: Hart, c: Csr, v: bv32): Hart {
    match c
    case MSTATUS => h.(status := UnpackStatus(v))
    case SSTATUS => h.(status := UnpackSstatus(h.status, v))
    case MIP => h.(mip := MergeMip(h.mip, v))
    case SIP => h.(mip := MergeSip(h.mip, v))
    case MIE => h.(mie := v)
    case SIE => h.(mie := MergeSie(h.mie, v))
    case MIDELEG => h.(mideleg := v)
    case SATP => WriteSatp(h, v)
    case _ => h.(csrs := WriteBlob(h.csrs, c, v))
  }

  // csrrw, csrrs and csrrc; the last two write only when the operand field is not zero.
  datatype CsrOp = ReplaceBits | SetBits | ClearBits

  function CsrValue(current: bv32, op: CsrOp, operand: bv32, mask: bv32): bv32 {
    match op
    case ReplaceBits => operand & mask
    case SetBits => ((current & mask) | operand) & mask
    case ClearBits => (current & mask) & !operand & mask
  }

  lemma ReplacedValue(current: bv32, operand: bv32, mask: bv32)
    ensures CsrValue(current, ReplaceBits, operand, mask) == operand & mask
  {
  }

  // What a csr instruction reads into its result register.
  function ShownCsr(h: Hart, c: Csr): bv32 {
    ReadCsr(h, c) & Mask(c)
  }

  function ModifyCsr(h: Hart, c: Csr, op: CsrOp, named: bool, operand: bv32): Hart {
    if op == ReplaceBits || named then WriteCsr(h, c, CsrValue(ReadCsr(h, c), op, operand, Mask(c))) else h
  }

  // One csr instruction, the step to the next pc included.
  function CsrInstruction(h: Hart, c: Csr, op: CsrOp, named: bool, operand: bv32): Hart {
    Advance(ModifyCsr(h, c, op, named, operand))
  }
}
