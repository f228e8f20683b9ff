/** The privilege checks of returns and csr instructions against the RISC-V Privileged ISA (20211203). */
module PrivilegeStandard {
  import opened Words
  import opened HartTrap
  import opened TrapProof

  // Section 3.3.2: a return is legal at its own level and above, and goes to the level and pc saved there.
  function StandardMret(h: Hart): Option<Hart> {
    if h.level != MACHINE then RaiseException(h, ILLEGAL_INSTRUCTION, 0)
    else Some(FlushOnChange(MachineReturn(h), AddressSpaceTag(h)))
  }

  function StandardSret(h: Hart): Option<Hart> {
    if h.level == USER then RaiseException(h, ILLEGAL_INSTRUCTION, 0)
    else Some(FlushOnChange(SupervisorReturn(h), AddressSpaceTag(h)))
  }

  lemma IllegalRaises(h: Hart)
    requires Legal(h)
    ensures var r := RaiseException(h, ILLEGAL_INSTRUCTION, 0); r.Some? && (h.level == MACHINE ==> r.value.level == MACHINE)
  {
    hide RaiseTrap, Retags;
    ExceptionRetags(h, ILLEGAL_INSTRUCTION, 0);
    TrapRetags(h, MACHINE, ILLEGAL_INSTRUCTION, 0);
  }

  lemma ReturnLevel(h: Hart)
    ensures FlushOnChange(SupervisorReturn(h), AddressSpaceTag(h)).level == h.status.spp
  {
    hide AddressSpaceTag;
  }

  /** sret is the standard's exactly outside machine mode, where it is an illegal instruction here. */
  lemma SretAgrees(h: Hart)
    requires Legal(h)
    ensures Sret(h) == StandardSret(h) <==> h.level != MACHINE
  {
    hide RaiseException, FlushOnChange, SupervisorReturn;
    if h.level == MACHINE {
      IllegalRaises(h);
      ReturnLevel(h);
    }
  }

  /** mret is the standard's exactly unless the level to return to is the reserved one, where the emulator stops. */
  lemma MretAgrees(h: Hart)
    requires Legal(h)
    ensures Mret(h) == StandardMret(h) <==> !(h.level == MACHINE && h.status.mpp == RESERVED)
  {
    hide RaiseException, FlushOnChange, MachineReturn;
  }

  // ----- csr instructions -----

  // Section 2.1: bits 9 and 8 of a csr address are the lowest level that may access it.
  function Address(c: Csr): bv12 {
    match c
    case SSTATUS => 0x100
    case SIE => 0x104
    case STVEC => 0x105
    case SEPC => 0x141
    case SCAUSE => 0x142
    case STVAL => 0x143
    case SIP => 0x144
    case SATP => 0x180
    case MSTATUS => 0x300
    case MEDELEG => 0x302
    case MIDELEG => 0x303
    case MIE => 0x304
    case MTVEC => 0x305
    case MEPC => 0x341
    case MCAUSE => 0x342
    case MTVAL => 0x343
    case MIP => 0x344
  }

  function LowestLevel(c: Csr): Level {
    ((Address(c) >> 8) & 3) as Level
  }

  predicate MachineRegister(c: Csr) {
    match c
    case SSTATUS | SIE | STVEC | SEPC | SCAUSE | STVAL | SIP | SATP => false
    case _ => true
  }

  // A csr instruction is carried out, or raises an illegal instruction exception.
  datatype Attempt = Performed(h: Hart) | Refused(trap: Option<Hart>)

  function StandardCsr(h: Hart, c: Csr, op: CsrOp, named: bool, operand: bv32): Attempt {
    if h.level < LowestLevel(c) then Refused(RaiseException(h, ILLEGAL_INSTRUCTION, 0))
    else Performed(CsrInstruction(h, c, op, named, operand))
  }

  lemma LowestLevels(c: Csr)
    ensures LowestLevel(c) == if MachineRegister(c) then MACHINE else SUPERVISOR
  {
    match c
    case SSTATUS => case SIE => case STVEC => case SEPC => case SCAUSE => case STVAL => case SIP => case SATP => case MSTATUS =>
    case MEDELEG => case MIDELEG => case MIE => case MTVEC => case MEPC => case MCAUSE => case MTVAL => case MIP =>
  }

  /**
   The callback carries out every csr instruction.  The standard does so exactly in machine mode, and in supervisor
   mode for supervisor registers.
   */
  lemma CsrAgrees(h: Hart, c: Csr, op: CsrOp, named: bool, operand: bv32)
    requires Legal(h)
    ensures Performed(CsrInstruction(h, c, op, named, operand)) == StandardCsr(h, c, op, named, operand)
      <==> h.level == MACHINE || (h.level == SUPERVISOR && !MachineRegister(c))
  {
    hide CsrInstruction, RaiseException, LowestLevel;
    LowestLevels(c);
  }

  /** In user mode a write of any register takes effect here, and leaves the hart in user mode. */
  lemma UserWriteTakesEffect(h: Hart, v: bv32)
    requires h.level == USER
    ensures StandardCsr(h, MEDELEG, ReplaceBits, true, v).Refused?
    ensures var h' := CsrInstruction(h, MEDELEG, ReplaceBits, true, v);
      h'.level == USER && h'.csrs.medeleg == v & Mask(MEDELEG)
  {
    LowestLevels(MEDELEG);
    ReplacedValue(h.csrs.medeleg, v, Mask(MEDELEG));
  }
}
