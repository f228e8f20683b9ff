/**
 Exceptions, interrupts and control registers in the words of the RISC-V Privileged Architecture (version 1.12):
 causes, delegation, priorities and fields by their numbers.
 */
module TrapStandard {
  import opened Words
  import opened HartTrap
  import opened TrapProof
  import opened TrapBracket

  predicate BitSet(v: bv32, i: bv32)
    requires i < 32
  {
    (v >> i) & 1 == 1
  }

  lemma BitMask(v: bv32, i: bv32)
    requires i < 32
    ensures v & ((1 as bv32) << i) != 0 <==> BitSet(v, i)
  {
  }

  // ----- exceptions (section 3.1.8) -----

  predicate Vectored(tvec: bv32, cause: bv32) {
    tvec & 1 != 0 && cause & 0x8000_0000 != 0
  }

  function Direct(tvec: bv32): bv32 {
    tvec & 0xffff_fffc
  }

  function Slot(tvec: bv32, number: bv32): bv32 {
    (tvec & 0xffff_fffc) + number * 4
  }

  function Code(cause: bv32): bv32 {
    cause & 0x7fff_ffff
  }

  // Where a trap enters: at the base, or for an interrupt in vectored mode four bytes further for each number.
  function EntryPc(tvec: bv32, cause: bv32): bv32 {
    if Vectored(tvec, cause) then Slot(tvec, Code(cause)) else Direct(tvec)
  }

  lemma SlotIs(tvec: bv32, number: bv32)
    ensures VectorSlot(tvec, number) == Slot(tvec, number)
  {
  }

  lemma PartsAre(tvec: bv32, cause: bv32)
    ensures VectoredMode(tvec) && IsInterrupt(cause) <==> Vectored(tvec, cause)
    ensures Number(cause) == Code(cause) && Base(tvec) == Direct(tvec)
  {
  }

  // The reserved mode 3 is taken for mode 1.
  lemma VectorIsEntry(tvec: bv32, cause: bv32)
    ensures Vector(tvec, cause) == EntryPc(tvec, cause)
  {
    hide VectorSlot, Slot, Number, Code, VectoredMode, IsInterrupt, Vectored, Base, Direct;
    PartsAre(tvec, cause);
    SlotIs(tvec, Number(cause));
  }

  // The records of a trap, and the level and enables stacked in the status.
  ghost predicate Recorded(h: Hart, h': Hart, target: Level, cause: bv32, tval: bv32) {
    && h'.level == target && h'.mip == h.mip && h'.mie == h.mie && h'.mideleg == h.mideleg && h'.tlb == h.tlb && h'.cache <= h.cache
    && (if target == SUPERVISOR then
          && h'.csrs == h.csrs.(scause := cause, stval := tval, sepc := h.pc)
          && h'.status == h.status.(spp := h.level, spie := h.status.sie, sie := false)
        else
          && h'.csrs == h.csrs.(mcause := cause, mtval := tval, mepc := h.pc)
          && h'.status == h.status.(mpp := h.level, mpie := h.status.mie, mie := false))
  }

  // A trap taken by supervisor or machine mode.
  ghost predicate TakenBy(h: Hart, h': Hart, target: Level, cause: bv32, tval: bv32) {
    Recorded(h, h', target, cause, tval) && h'.pc == EntryPc(if target == SUPERVISOR then h.csrs.stvec else h.csrs.mtvec, cause)
  }

  lemma MachineRecorded(h: Hart, cause: bv32, tval: bv32)
    ensures RaiseTrap(h, MACHINE, cause, tval).Some? && Recorded(h, RaiseTrap(h, MACHINE, cause, tval).value, MACHINE, cause, tval)
  {
    hide Vector, AddressSpaceTag;
  }

  lemma SupervisorRecorded(h: Hart, cause: bv32, tval: bv32)
    requires h.level <= SUPERVISOR
    ensures RaiseTrap(h, SUPERVISOR, cause, tval).Some? && Recorded(h, RaiseTrap(h, SUPERVISOR, cause, tval).value, SUPERVISOR, cause, tval)
  {
    hide Vector, AddressSpaceTag;
    LowLevel(h.level);
  }

  lemma TrapRecorded(h: Hart, target: Level, cause: bv32, tval: bv32)
    requires (target == MACHINE || target == SUPERVISOR) && (target == SUPERVISOR ==> h.level <= SUPERVISOR)
    ensures RaiseTrap(h, target, cause, tval).Some? && Recorded(h, RaiseTrap(h, target, cause, tval).value, target, cause, tval)
  {
    if target == SUPERVISOR {
      SupervisorRecorded(h, cause, tval);
    } else {
      MachineRecorded(h, cause, tval);
    }
    hide RaiseTrap, Recorded;
  }

  lemma TrapEnters(h: Hart, target: Level, cause: bv32, tval: bv32)
    requires target == MACHINE || target == SUPERVISOR
    ensures var r := RaiseTrap(h, target, cause, tval);
      r.Some? && r.value.pc == Vector(if target == SUPERVISOR then h.csrs.stvec else h.csrs.mtvec, cause)
  {
    hide Vector, AddressSpaceTag;
  }

  lemma TrapTaken(h: Hart, target: Level, cause: bv32, tval: bv32)
    requires (target == MACHINE || target == SUPERVISOR) && (target == SUPERVISOR ==> h.level <= SUPERVISOR)
    ensures RaiseTrap(h, target, cause, tval).Some? && TakenBy(h, RaiseTrap(h, target, cause, tval).value, target, cause, tval)
  {
    hide Vector, EntryPc, RaiseTrap, Recorded;
    TrapRecorded(h, target, cause, tval);
    TrapEnters(h, target, cause, tval);
    VectorIsEntry(if target == SUPERVISOR then h.csrs.stvec else h.csrs.mtvec, cause);
  }

  /**
   An exception goes to supervisor mode, which finds cause, pc and value in its registers, if and only if it
   comes from below machine mode and its bit of medeleg is set, and otherwise to machine mode.
   */
  lemma DelegationIsExact(h: Hart, number: bv32, tval: bv32)
    requires h.level != 2 && number < 16
    ensures RaiseException(h, number, tval).Some?
    ensures TakenBy(h, RaiseException(h, number, tval).value,
                    if h.level < MACHINE && BitSet(h.csrs.medeleg, number) then SUPERVISOR else MACHINE, number, tval)
  {
    hide RaiseTrap, TakenBy;
    BitMask(h.csrs.medeleg, number);
    TrapTaken(h, MACHINE, number, tval);
    if h.level <= SUPERVISOR { TrapTaken(h, SUPERVISOR, number, tval); }
  }

  /** An environment call is exception 8, 9 or 11 from its level, a return from below its level exception 2. */
  lemma CausesOfCalls(h: Hart)
    requires h.level != 2
    ensures Ecall(h) == RaiseException(h, if h.level == 0 then 8 else if h.level == 1 then 9 else 11, 0)
    ensures h.level != 3 ==> Mret(h) == RaiseException(h, 2, 0)
    ensures h.level != 1 ==> Sret(h) == RaiseException(h, 2, 0)
  {
    hide RaiseException;
  }

  /** A fetch from an unmapped page is exception 12, with the address as its value. */
  lemma CauseOfFetch(w: World, pc: bv32)
    requires Paging(w.hart) && !w.staleTables && w.m.paged(w.hart.csrs.satp, pc) == None
    ensures Next(w, Translated(pc, None)) ==
      var r := RaiseException(w.hart, 12, pc); if r == None then None else Some(w.(hart := r.value))
  {
    hide RaiseException;
  }

  /**
   A return straight after the trap goes back to level, pc and enable, leaving the previous enable set and user
   mode as the previous level.
   */
  lemma ReturnUnstacks(h: Hart, cause: bv32, tval: bv32)
    requires h.level != 2
    ensures var r := Mret(RaiseTrap(h, MACHINE, cause, tval).value);
      r.Some? && r.value.level == h.level && r.value.pc == h.pc && r.value.status == h.status.(mpp := USER, mpie := true)
    ensures h.level <= SUPERVISOR ==>
      var r := Sret(RaiseTrap(h, SUPERVISOR, cause, tval).value);
      && r.Some? && r.value.level == h.level && r.value.pc == h.pc
      && r.value.status == h.status.(spp := USER, spie := true)
  {
    hide RaiseTrap, Mret, Sret;
    TrapTaken(h, MACHINE, cause, tval);
    MretTaken(RaiseTrap(h, MACHINE, cause, tval).value);
    if h.level <= SUPERVISOR {
      TrapTaken(h, SUPERVISOR, cause, tval);
      SretTaken(RaiseTrap(h, SUPERVISOR, cause, tval).value);
    }
  }

  lemma MretTaken(h: Hart)
    requires h.level == MACHINE && h.status.mpp != RESERVED
    ensures var r := Mret(h);
      && r.Some? && r.value.level == h.status.mpp && r.value.pc == h.csrs.mepc
      && r.value.status == h.status.(mie := h.status.mpie, mpp := USER, mpie := true)
  {
    hide AddressSpaceTag;
  }

  lemma SretTaken(h: Hart)
    requires h.level == SUPERVISOR && h.status.spp <= SUPERVISOR
    ensures var r := Sret(h);
      && r.Some? && r.value.level == h.status.spp && r.value.pc == h.csrs.sepc
      && r.value.status == h.status.(sie := h.status.spie, spp := USER, spie := true)
  {
    hide AddressSpaceTag;
  }

  // ----- interrupts (section 3.1.9) -----

  predicate MayTake(h: Hart, target: Level) {
    h.level <= target && (h.level < target || (if target == MACHINE then h.status.mie else h.status.sie))
  }

  lemma DeliverableBits(h: Hart, v: Interrupt)
    ensures Deliverable(h, v) <==> BitSet(h.mip, v) && BitSet(h.mie, v) && MayTake(h, InterruptTarget(h, v))
  {
    hide BitSet, InterruptTarget;
    BitMask(h.mip, v);
    BitMask(h.mie, v);
  }

  lemma TargetIs(h: Hart, v: Interrupt)
    ensures InterruptTarget(h, v) == if BitSet(h.mideleg, v) then SUPERVISOR else MACHINE
  {
    hide BitSet;
    BitMask(h.mideleg, v);
  }

  lemma Unmasked(h: Hart, target: Level)
    requires h.level != 2 && (target == SUPERVISOR || target == MACHINE)
    ensures MayTake(h, target) <==>
      if target == SUPERVISOR then h.level == 0 || (h.level == 1 && h.status.sie) else h.level < 3 || h.status.mie
  {
  }

  /**
   An interrupt can be taken if it is pending and enabled and its level has not masked it: a delegated one below
   supervisor mode, or in it with SIE; any other below machine mode, or in it with MIE.
   */
  lemma DeliverableIsExact(h: Hart, v: Interrupt)
    requires h.level != 2
    ensures Deliverable(h, v) <==>
      && BitSet(h.mip, v) && BitSet(h.mie, v)
      && (if BitSet(h.mideleg, v) then h.level == 0 || (h.level == 1 && h.status.sie) else h.level < 3 || h.status.mie)
  {
    hide BitSet, Deliverable, InterruptTarget;
    DeliverableBits(h, v);
    TargetIs(h, v);
    Unmasked(h, InterruptTarget(h, v));
  }

  // The interrupt is served no later: machine before supervisor ones, external before software before timer.
  predicate NoLater(v: Interrupt, u: Interrupt) {
    v & 3 > u & 3 || (v & 3 == u & 3 && (v == u || v & 12 == 8 || (v & 12 == 0 && u & 12 == 4)))
  }

  /** Among the six interrupts of the two levels the pump takes the first in the architecture's order, to its level. */
  lemma FirstOfAll(h: Hart)
    requires h.level != 2
    ensures match FirstDeliverable(h, DELIVERY_ORDER)
      case None => DeliverPending(h) == Some(h) && forall u: Interrupt :: u & 1 == 1 ==> !Deliverable(h, u)
      case Some(v) =>
        && v & 1 == 1 && Deliverable(h, v) && (forall u: Interrupt :: u & 1 == 1 && Deliverable(h, u) ==> NoLater(v, u))
        && DeliverPending(h).Some?
        && TakenBy(h, DeliverPending(h).value, if BitSet(h.mideleg, v) then SUPERVISOR else MACHINE, 0x8000_0000 | v, 0)
  {
    hide Deliverable, FirstDeliverable, RaiseTrap, TakenBy;
    FirstIsDeliverable(h, DELIVERY_ORDER);
    forall u: Interrupt | u & 1 == 1
      ensures u in DELIVERY_ORDER
    {
      OddInterrupts(u);
    }
    match FirstDeliverable(h, DELIVERY_ORDER)
    case None =>
    case Some(v) =>
      var i :| 0 <= i < 6 && DELIVERY_ORDER[i] == v && Deliverable(h, v) && forall j :: 0 <= j < i ==> !Deliverable(h, DELIVERY_ORDER[j]);
      forall u: Interrupt | u & 1 == 1 && Deliverable(h, u)
        ensures NoLater(v, u)
      {
        assert u in DELIVERY_ORDER;
        var k :| 0 <= k < 6 && DELIVERY_ORDER[k] == u;
        assert i <= k;
        OrderIsRanked(i, k);
      }
      TargetIs(h, v);
      LowerWhenDelegated(h, v);
      TrapTaken(h, InterruptTarget(h, v), 0x8000_0000 | v, 0);
  }

  lemma OddInterrupts(u: Interrupt)
    requires u & 1 == 1
    ensures u in DELIVERY_ORDER
  {
    assert u == 1 || u == 3 || u == 5 || u == 7 || u == 9 || u == 11;
    assert DELIVERY_ORDER[0] == 11 && DELIVERY_ORDER[1] == 3 && DELIVERY_ORDER[2] == 7;
    assert DELIVERY_ORDER[3] == 9 && DELIVERY_ORDER[4] == 1 && DELIVERY_ORDER[5] == 5;
  }

  lemma OrderIsRanked(i: nat, k: nat)
    requires i <= k < 6
    ensures NoLater(DELIVERY_ORDER[i], DELIVERY_ORDER[k]) && DELIVERY_ORDER[i] & 1 == 1
  {
  }

  lemma LowerWhenDelegated(h: Hart, v: Interrupt)
    requires Deliverable(h, v)
    ensures h.level <= InterruptTarget(h, v)
  {
  }

  // ----- control registers (sections 3.1 and 4.1) -----

  /** The fields of mstatus and sstatus lie at the bits the architecture gives them. */
  lemma StatusFields(s: Status)
    requires s.spp <= 1
    ensures var w := PackStatus(s);
      && (BitSet(w, 1) <==> s.sie) && (BitSet(w, 3) <==> s.mie) && (BitSet(w, 5) <==> s.spie) && (BitSet(w, 7) <==> s.mpie)
      && (w >> 8) & 1 == s.spp as bv32 && (w >> 11) & 3 == s.mpp as bv32
    ensures PackSstatus(s) == PackStatus(s) & 0x133
  {
  }

  predicate Kept(h: Hart, c: Csr, v: bv32, d: Csr) {
    ReadCsr(WriteCsr(h, c, v), c) == v && (d != c ==> ReadCsr(WriteCsr(h, c, v), d) == ReadCsr(h, d))
  }

  lemma MachineTableKeeps(h: Hart, c: Csr, v: bv32, d: Csr)
    requires c == MEDELEG || c == MEPC || c == MCAUSE
    ensures Kept(h, c, v, d)
  {
    hide PackStatus, PackSstatus;
  }

  lemma MachineValuesKeep(h: Hart, c: Csr, v: bv32, d: Csr)
    requires c == MTVAL || c == MTVEC
    ensures Kept(h, c, v, d)
  {
    hide PackStatus, PackSstatus;
  }

  lemma SupervisorTableKeeps(h: Hart, c: Csr, v: bv32, d: Csr)
    requires c == SEPC || c == SCAUSE
    ensures Kept(h, c, v, d)
  {
    hide PackStatus, PackSstatus;
  }

  lemma SupervisorValuesKeep(h: Hart, c: Csr, v: bv32, d: Csr)
    requires c == STVAL || c == STVEC
    ensures Kept(h, c, v, d)
  {
    hide PackStatus, PackSstatus;
  }

  lemma SatpKeeps(h: Hart, v: bv32, d: Csr)
    ensures Kept(h, SATP, v, d)
  {
    hide PackStatus, PackSstatus;
  }

  /** A register that only stores keeps what is written to it, and no other register reads differently. */
  lemma TableRegistersKeep(h: Hart, c: Csr, v: bv32, d: Csr)
    requires IsBlob(c) || c == SATP
    ensures ReadCsr(WriteCsr(h, c, v), c) == v && (d != c ==> ReadCsr(WriteCsr(h, c, v), d) == ReadCsr(h, d))
  {
    hide ReadCsr, WriteCsr;
    match c
    case SATP => SatpKeeps(h, v, d);
    case SEPC | SCAUSE => SupervisorTableKeeps(h, c, v, d);
    case STVAL | STVEC => SupervisorValuesKeep(h, c, v, d);
    case MTVAL | MTVEC => MachineValuesKeep(h, c, v, d);
    case _ => MachineTableKeeps(h, c, v, d);
  }

  /** The trap registers show what a trap recorded, every bit of it. */
  lemma TrapRegistersShow(h: Hart, c: Csr)
    requires c == MCAUSE || c == MEPC || c == MTVAL || c == SCAUSE || c == SEPC || c == STVAL
    ensures ShownCsr(h, c) ==
      match c
      case MCAUSE => h.csrs.mcause
      case MEPC => h.csrs.mepc
      case MTVAL => h.csrs.mtval
      case SCAUSE => h.csrs.scause
      case SEPC => h.csrs.sepc
      case _ => h.csrs.stval
  {
    hide ReadCsr;
    AllBits(ReadCsr(h, c));
    TrapRegister(h, c);
  }

  lemma TrapRegister(h: Hart, c: Csr)
    requires c == MCAUSE || c == MEPC || c == MTVAL || c == SCAUSE || c == SEPC || c == STVAL
    ensures Mask(c) == 0xffff_ffff
    ensures ReadCsr(h, c) ==
      match c
      case MCAUSE => h.csrs.mcause
      case MEPC => h.csrs.mepc
      case MTVAL => h.csrs.mtval
      case SCAUSE => h.csrs.scause
      case SEPC => h.csrs.sepc
      case _ => h.csrs.stval
  {
  }

  lemma AllBits(v: bv32)
    ensures v & 0xffff_ffff == v
  {
  }

  /** sfence.vma empties TLB and cache, fence.i the cache, and a write to satp both. */
  lemma FencesEmpty(w: World, op: CsrOp, operand: bv32)
    ensures Next(w, Fenced).Some? && Next(w, Fenced).value.hart == w.hart.(tlb := {}, cache := {}, pc := w.hart.pc + 4)
    ensures Next(w, FencedI).Some? && Next(w, FencedI).value.hart == w.hart.(cache := {}, pc := w.hart.pc + 4)
    ensures var r := Next(w, Wrote(SATP, op, true, operand)); r.Some? && r.value.hart.tlb == {} && r.value.hart.cache == {}
  {
    hide CsrInstruction, Act, WritesSatp;
    SatpEmpties(w.hart, op, operand);
    ActOfFence(w, Fenced);
    ActOfFence(w, FencedI);
    ActOfFence(w, Wrote(SATP, op, true, operand));
  }

  lemma ActOfFence(w: World, e: Event)
    ensures e.Fenced? ==> Act(w, e) == Some(w.hart.(tlb := {}, cache := {}, pc := w.hart.pc + 4))
    ensures e.FencedI? ==> Act(w, e) == Some(w.hart.(cache := {}, pc := w.hart.pc + 4))
    ensures e.Wrote? ==> Act(w, e) == Some(CsrInstruction(w.hart, e.c, e.op, e.named, e.operand))
  {
    hide CsrInstruction, Translate, Ecall, RaiseException, Mret, Sret, DeliverPending, Refresh;
  }

  lemma SatpEmpties(h: Hart, op: CsrOp, operand: bv32)
    ensures var r := CsrInstruction(h, SATP, op, true, operand); r.tlb == {} && r.cache == {}
  {
    hide CsrValue, ReadCsr, Mask;
  }

  // ----- runs -----

  /** At a boundary the devices drive the pending bits 3, 7, 9 and 11 and no others, inside handlers as well. */
  lemma DevicesDrive(h: Hart, devices: bv32, i: bv32)
    requires i < 32
    ensures Refresh(h, devices) == h.(mip := Refresh(h, devices).mip) == Perform(h, Devices(devices))
    ensures BitSet(Refresh(h, devices).mip, i) <==>
      if i == 3 || i == 7 || i == 9 || i == 11 then BitSet(devices, i) else BitSet(h.mip, i)
  {
    Latched(h.mip, devices, i);
    hide BitSet, Latch;
  }

  lemma Latched(mip: bv32, devices: bv32, i: bv32)
    requires i < 32
    ensures BitSet(Latch(mip, devices), i) <==> if i == 3 || i == 7 || i == 9 || i == 11 then BitSet(devices, i) else BitSet(mip, i)
  {
  }

  /** In a run, calls trap with the number of their level, returns go where the trap came from, and a boundary serves the pending bits. */
  lemma StepsOfRuns(w: World, devices: bv32)
    requires w.hart.level != 2
    ensures var r := Next(w, Called);
      r.Some? && Some(r.value.hart) == RaiseException(w.hart, if w.hart.level == 0 then 8 else if w.hart.level == 1 then 9 else 11, 0)
    ensures w.hart.level == 3 && w.hart.status.mpp != 2 ==>
      var r := Next(w, MachineReturned); r.Some? && r.value.hart.level == w.hart.status.mpp && r.value.hart.pc == w.hart.csrs.mepc
    ensures w.hart.level == 1 && w.hart.status.spp <= 1 ==>
      var r := Next(w, SupervisorReturned); r.Some? && r.value.hart.level == w.hart.status.spp && r.value.hart.pc == w.hart.csrs.sepc
    ensures var r := Next(w, Pumped(devices)); r.Some? && Some(r.value.hart) == DeliverPending(Refresh(w.hart, devices))
  {
    hide Ecall, RaiseException, Mret, Sret, DeliverPending, Refresh, TakenBy, FirstDeliverable;
    CausesOfCalls(w.hart);
    DelegationIsExact(w.hart, if w.hart.level == 0 then 8 else if w.hart.level == 1 then 9 else 11, 0);
    if w.hart.level == 3 && w.hart.status.mpp != 2 { MretTaken(w.hart); }
    if w.hart.level == 1 && w.hart.status.spp <= 1 { SretTaken(w.hart); }
    RefreshedLevel(w.hart, devices);
    FirstOfAll(Refresh(w.hart, devices));
  }

  lemma RefreshedLevel(h: Hart, devices: bv32)
    ensures Refresh(h, devices).level == h.level
  {
    hide Latch;
  }
}
