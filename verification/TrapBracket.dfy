/** Interrupt delivery, nested traps and their returns, and what register writes leave alone. */
module TrapBracket {
  import opened Words
  import opened HartTrap
  import opened TrapProof

  // ----- delivery -----

  predicate PendingAndEnabled(h: Hart, v: Interrupt) {
    h.mip & h.mie & ((1 as bv32) << v) != 0
  }

  lemma PendingBits(h: Hart, v: Interrupt)
    ensures PendingAndEnabled(h, v) ==> h.mip & ((1 as bv32) << v) != 0 && h.mie & ((1 as bv32) << v) != 0
  {
  }

  /** Below machine mode a pending, enabled machine interrupt is always taken, by machine mode. */
  lemma MachineInterruptTaken(h: Hart, v: Interrupt)
    requires Legal(h) && h.level < MACHINE && (v == 11 || v == 3 || v == 7) && PendingAndEnabled(h, v)
    ensures var r := DeliverPending(h); r.Some? && r.value.level == MACHINE && r.value.csrs.mepc == h.pc
  {
    hide RaiseTrap;
    assert Deliverable(h, v) by {
      PendingBits(h, v);
    }
    FirstIsDeliverable(h, DELIVERY_ORDER);
    var u := FirstDeliverable(h, DELIVERY_ORDER).value;
    assert DELIVERY_ORDER[0] == 11 && DELIVERY_ORDER[1] == 3 && DELIVERY_ORDER[2] == 7;
    assert u == 11 || u == 3 || u == 7;
    assert InterruptTarget(h, u) == MACHINE;
    MachineTrapTakes(h, 0x8000_0000 | u);
  }

  lemma MachineTrapTakes(h: Hart, cause: bv32)
    ensures var r := RaiseTrap(h, MACHINE, cause, 0);
      && r.Some? && r.value.level == MACHINE && r.value.csrs.mepc == h.pc && r.value.csrs.mcause == cause
      && !r.value.status.mie
  {
    hide Vector, AddressSpaceTag;
  }

  /**
   The pump takes exactly the first deliverable vector of the order, and afterwards only interrupts
   for a strictly higher level than the one that took it can still be deliverable.
   */
  lemma PumpTakesTheFirst(h: Hart)
    requires Legal(h)
    ensures match FirstDeliverable(h, DELIVERY_ORDER)
      case None => DeliverPending(h) == Some(h) && forall v :: v in DELIVERY_ORDER ==> !Deliverable(h, v)
      case Some(v) =>
        var target := InterruptTarget(h, v);
        && DeliverPending(h).Some? && Deliverable(h, v) && v in DELIVERY_ORDER
        && var h' := DeliverPending(h).value;
        && h'.level == target && target >= h.level
        && (if target == MACHINE then h'.csrs.mcause == 0x8000_0000 | v else h'.csrs.scause == 0x8000_0000 | v)
        && forall u: Interrupt :: Deliverable(h', u) ==> InterruptTarget(h', u) > target
  {
    hide RaiseTrap, FirstDeliverable;
    FirstIsDeliverable(h, DELIVERY_ORDER);
    match FirstDeliverable(h, DELIVERY_ORDER)
    case None =>
    case Some(v) => TakenTrap(h, InterruptTarget(h, v), 0x8000_0000 | v);
  }

  lemma TakenTrap(h: Hart, target: Level, cause: bv32)
    requires target == MACHINE || target == SUPERVISOR
    ensures var r := RaiseTrap(h, target, cause, 0);
      && r.Some? && r.value.level == target
      && (if target == MACHINE then r.value.csrs.mcause == cause else r.value.csrs.scause == cause)
      && forall u: Interrupt :: Deliverable(r.value, u) ==> InterruptTarget(r.value, u) > target
  {
    hide Vector, AddressSpaceTag;
  }

  // The entry point of a trap: the base, or for an interrupt in vectored mode its own slot.
  function Entry(tvec: bv32, number: bv32, interrupt: bool): bv32 {
    if interrupt && VectoredMode(tvec) then VectorSlot(tvec, number) else Base(tvec)
  }

  function Cause(number: bv32, interrupt: bool): bv32 {
    if interrupt then 0x8000_0000 | number else number
  }

  lemma CauseParts(number: bv32, interrupt: bool)
    requires number < 16
    ensures interrupt <==> IsInterrupt(Cause(number, interrupt))
    ensures interrupt ==> Number(Cause(number, interrupt)) == number
  {
    assert number & 0x8000_0000 == 0;
    assert (0x8000_0000 | number) & 0x8000_0000 != 0 && (0x8000_0000 | number) & 0x7fff_ffff == number;
  }

  lemma VectorEntry(tvec: bv32, number: bv32, interrupt: bool)
    requires number < 16
    ensures Vector(tvec, Cause(number, interrupt)) == Entry(tvec, number, interrupt)
  {
    hide Cause, VectorSlot, Base, VectoredMode, IsInterrupt, Number;
    CauseParts(number, interrupt);
  }

  /** A machine trap enters its handler at the right place, with cause, value, pc and level on record. */
  lemma MachineTrapEnters(h: Hart, number: bv32, interrupt: bool, tval: bv32)
    requires number < 16
    ensures var r := RaiseTrap(h, MACHINE, Cause(number, interrupt), tval);
      && r.Some? && r.value.pc == Entry(h.csrs.mtvec, number, interrupt) && r.value.status.mpp == h.level
      && r.value.csrs.mcause == Cause(number, interrupt) && r.value.csrs.mtval == tval && r.value.csrs.mepc == h.pc
  {
    hide AddressSpaceTag, FlushOnChange, Vector, Entry, Cause;
    FlushLeavesState(MachineTrap(h, Cause(number, interrupt), tval), AddressSpaceTag(h));
    VectorEntry(h.csrs.mtvec, number, interrupt);
  }

  /** And so does a supervisor trap, whose interrupted level fits the one bit kept for it. */
  lemma SupervisorTrapEnters(h: Hart, number: bv32, interrupt: bool, tval: bv32)
    requires number < 16 && h.level <= SUPERVISOR
    ensures var r := RaiseTrap(h, SUPERVISOR, Cause(number, interrupt), tval);
      && r.Some? && r.value.pc == Entry(h.csrs.stvec, number, interrupt) && r.value.status.spp == h.level
      && r.value.csrs.scause == Cause(number, interrupt) && r.value.csrs.stval == tval && r.value.csrs.sepc == h.pc
  {
    hide AddressSpaceTag, FlushOnChange, Vector, Entry, Cause;
    FlushLeavesState(SupervisorTrap(h, Cause(number, interrupt), tval), AddressSpaceTag(h));
    VectorEntry(h.csrs.stvec, number, interrupt);
    LowLevel(h.level);
  }

  lemma LowLevel(level: Level)
    requires level <= SUPERVISOR
    ensures level & 1 == level
  {
  }

  // ----- brackets -----

  // A trap, what its handler does until it returns, and the return.  A handler may put another pc into its own
  // epc before it returns, as the firmware does to step over an environment call.
  datatype Handler = Handler(target: Level, cause: bv32, tval: bv32, body: seq<Item>, resumeAt: Option<bv32>)

  datatype Item =
    | Work(pc: bv32)                                            // instructions without privileged effect
    | Access(c: Csr, op: CsrOp, named: bool, operand: bv32)     // a csr instruction
    | FenceVma                                                  // sfence.vma
    | FenceInstr                                                // fence.i
    | Devices(bits: bv32)                                       // a unit boundary refreshes the pending bits
    | Nested(handler: Handler)                                  // a trap with all its handler does

  // A trap never goes to a lower level than the code it interrupts.
  ghost predicate WellNested(t: Handler, level: Level) {
    && (t.target == MACHINE || t.target == SUPERVISOR) && level <= t.target
    && forall i :: 0 <= i < |t.body| && t.body[i].Nested? ==> WellNested(t.body[i].handler, t.target)
  }

  // The handler writes back what it saved of its own level's epc and status.
  function WriteBack(h: Hart, target: Level, saved: Hart): Hart {
    if target == MACHINE then
      h.(csrs := h.csrs.(mepc := saved.csrs.mepc), status := h.status.(mpp := saved.status.mpp, mpie := saved.status.mpie))
    else
      h.(csrs := h.csrs.(sepc := saved.csrs.sepc), status := h.status.(spp := saved.status.spp, spie := saved.status.spie))
  }

  function Redirect(h: Hart, target: Level, resumeAt: Option<bv32>): Hart {
    match resumeAt
    case None => h
    case Some(pc) =>
      if target == MACHINE then h.(csrs := h.csrs.(mepc := pc)) else h.(csrs := h.csrs.(sepc := pc))
  }

  function Play(h: Hart, t: Handler): Option<Hart>
    decreases t, |t.body| + 1
  {
    match RaiseTrap(h, t.target, t.cause, t.tval)
    case None => None
    case Some(h1) =>
      match PlayBody(h1, t, |t.body|)
      case None => None
      case Some(h2) =>
        var h3 := Redirect(h2, t.target, t.resumeAt);
        if t.target == MACHINE then Mret(h3) else Sret(h3)
  }

  // What an item other than a nested trap does.
  function Perform(h: Hart, i: Item): Hart {
    match i
    case Work(pc) => h.(pc := pc)
    case Access(c, op, named, operand) => CsrInstruction(h, c, op, named, operand)
    case FenceVma => Advance(SfenceVma(h))
    case FenceInstr => Advance(FlushCache(h))
    case Devices(bits) => Refresh(h, bits)
    case Nested(_) => h
  }

  // The first `n` items of the body.
  function PlayBody(h: Hart, t: Handler, n: nat): Option<Hart>
    requires n <= |t.body|
    decreases t, n
  {
    if n == 0 then Some(h)
    else
      match PlayBody(h, t, n - 1)
      case None => None
      case Some(h1) =>
        if t.body[n - 1].Nested? then
          match Play(h1, t.body[n - 1].handler)
          case None => None
          case Some(h2) => Some(WriteBack(h2, t.target, h1))
        else Some(Perform(h1, t.body[n - 1]))
  }

  // What a level's handler needs to return: its saved pc, level and enable.
  ghost predicate SameSaved(h: Hart, h': Hart, target: Level) {
    if target == MACHINE then
      h'.csrs.mepc == h.csrs.mepc && h'.status.mpp == h.status.mpp && h'.status.mpie == h.status.mpie
    else
      h'.csrs.sepc == h.csrs.sepc && h'.status.spp == h.status.spp && h'.status.spie == h.status.spie
  }

  // What a handler with its return leaves: the level and the enables, and after a machine handler also what
  // supervisor mode had saved.
  ghost predicate Undisturbed(h: Hart, h': Hart, target: Level) {
    && h'.level == h.level && h'.status.sie == h.status.sie && h'.status.mie == h.status.mie
    && (target == MACHINE ==> SameSaved(h, h', SUPERVISOR))
  }

  // Every csr instruction of the handlers, whatever register it names, leaves what they need to return.
  ghost predicate Orderly(h: Hart, t: Handler)
    decreases t, |t.body| + 1
  {
    match RaiseTrap(h, t.target, t.cause, t.tval)
    case None => true
    case Some(h1) => OrderlyBody(h1, t, |t.body|)
  }

  ghost predicate OrderlyBody(h: Hart, t: Handler, n: nat)
    requires n <= |t.body|
    decreases t, n
  {
    n == 0
    || (OrderlyBody(h, t, n - 1)
        && (PlayBody(h, t, n - 1).Some? ==>
              var h1 := PlayBody(h, t, n - 1).value;
              if t.body[n - 1].Nested? then Orderly(h1, t.body[n - 1].handler)
              else t.body[n - 1].Access? ==> Leaves(h1, Perform(h1, t.body[n - 1]), t.target)))
  }

  // What a handler's own steps leave: the level, what it needs to return, and whatever that does not restore.
  // Its own enable is not in it: the return sets it from what was saved, so the handler may take interrupts again.
  ghost predicate Leaves(h: Hart, h': Hart, target: Level) {
    && h'.level == h.level && SameSaved(h, h', target)
    && (if target == MACHINE then h'.status.sie == h.status.sie && SameSaved(h, h', SUPERVISOR) else h'.status.mie == h.status.mie)
  }

  lemma PerformKeeps(h: Hart, i: Item, target: Level)
    requires Legal(h) && !i.Nested? && (i.Access? ==> Leaves(h, Perform(h, i), target))
    ensures Legal(Perform(h, i)) && Leaves(h, Perform(h, i), target)
  {
    hide CsrInstruction;
    if i.Access? {
      hide Legal;
      WriteKeeps(h, i.c, i.op, i.named, i.operand);
    }
  }

  lemma LeavesOn(h: Hart, h1: Hart, h2: Hart, target: Level)
    requires Leaves(h, h1, target) && Leaves(h1, h2, target)
    ensures Leaves(h, h2, target)
  {
  }

  lemma {:induction false} BodyKeeps(h: Hart, t: Handler, n: nat)
    requires Legal(h) && h.level == t.target && n <= |t.body| && WellNested(t, t.target) && OrderlyBody(h, t, n)
    ensures var r := PlayBody(h, t, n); r.Some? && Legal(r.value) && Leaves(h, r.value, t.target)
    decreases t, n
  {
    hide Play, Legal, Leaves, Perform, Orderly;
    if n == 0 {
      LeavesSelf(h, t.target);
    } else {
      BodyKeeps(h, t, n - 1);
      var h1 := PlayBody(h, t, n - 1).value;
      var i := t.body[n - 1];
      if i.Nested? {
        LeavesLevel(h, h1, t.target);
        BracketRestores(h1, i.handler);
        WriteBackKeeps(h1, Play(h1, i.handler).value, t.target, i.handler.target);
      } else {
        PerformKeeps(h1, i, t.target);
      }
      LeavesOn(h, h1, PlayBody(h, t, n).value, t.target);
    }
  }

  lemma LeavesSelf(h: Hart, target: Level)
    ensures Leaves(h, h, target)
  {
  }

  lemma LeavesLevel(h: Hart, h': Hart, target: Level)
    requires Leaves(h, h', target)
    ensures h'.level == h.level
  {
  }

  lemma WriteBackKeeps(saved: Hart, h: Hart, target: Level, inner: Level)
    requires Legal(saved) && Legal(h) && Undisturbed(saved, h, inner) && target <= inner
    requires target == MACHINE || target == SUPERVISOR
    requires inner == MACHINE || inner == SUPERVISOR
    ensures var r := WriteBack(h, target, saved); Legal(r) && Leaves(saved, r, target)
  {
  }

  lemma FlushLeavesState(h: Hart, tag: bv32)
    ensures var r := FlushOnChange(h, tag);
      r.pc == h.pc && r.level == h.level && r.status == h.status && r.csrs == h.csrs && r.mideleg == h.mideleg
  {
    hide AddressSpaceTag;
  }

  // Where the return goes: to the interrupted pc unless the handler has chosen another.
  function ReturnsTo(h: Hart, t: Handler): bv32 {
    match t.resumeAt
    case None => h.pc
    case Some(pc) => pc
  }

  // Choosing another pc touches the epc only.
  ghost predicate Redirected(h: Hart, h': Hart, target: Level) {
    && h'.level == h.level && h'.status == h.status && h'.mideleg == h.mideleg
    && (target == MACHINE ==> h'.csrs.sepc == h.csrs.sepc)
  }

  lemma RedirectOnly(h: Hart, target: Level, resumeAt: Option<bv32>)
    requires target == MACHINE || target == SUPERVISOR
    ensures var h' := Redirect(h, target, resumeAt);
      && Redirected(h, h', target)
      && (target == MACHINE ==> h'.csrs.mepc == if resumeAt == None then h.csrs.mepc else resumeAt.value)
      && (target == SUPERVISOR ==> h'.csrs.sepc == if resumeAt == None then h.csrs.sepc else resumeAt.value)
  {
  }

  lemma RedirectedLegal(h: Hart, h': Hart, target: Level)
    requires Legal(h) && Redirected(h, h', target)
    ensures Legal(h')
  {
  }

  lemma MachineBracket(h: Hart, t: Handler, h1: Hart, h2: Hart, h3: Hart)
    requires Legal(h) && Legal(h3) && RaiseTrap(h, MACHINE, t.cause, t.tval) == Some(h1)
    requires Leaves(h1, h2, MACHINE) && Redirected(h2, h3, MACHINE)
    ensures var r := Mret(h3);
      && r.Some? && Legal(r.value) && Undisturbed(h, r.value, MACHINE) && r.value.pc == h3.csrs.mepc
      && h2.csrs.mepc == h.pc
  {
    hide Vector, AddressSpaceTag, RaiseException, FlushOnChange;
    FlushLeavesState(MachineTrap(h, t.cause, t.tval), AddressSpaceTag(h));
    FlushLeavesState(MachineReturn(h3), AddressSpaceTag(h3));
  }

  lemma SupervisorBracket(h: Hart, t: Handler, h1: Hart, h2: Hart, h3: Hart)
    requires Legal(h) && Legal(h3) && h.level <= SUPERVISOR && RaiseTrap(h, SUPERVISOR, t.cause, t.tval) == Some(h1)
    requires Leaves(h1, h2, SUPERVISOR) && Redirected(h2, h3, SUPERVISOR)
    ensures var r := Sret(h3);
      && r.Some? && Legal(r.value) && Undisturbed(h, r.value, SUPERVISOR) && r.value.pc == h3.csrs.sepc
      && h2.csrs.sepc == h.pc
  {
    hide Vector, AddressSpaceTag, RaiseException, FlushOnChange, SupervisorTrap;
    SupervisorTrapKeeps(h, t.cause, t.tval);
    SupervisorSaves(h, t.cause, t.tval);
    FlushLeavesState(SupervisorTrap(h, t.cause, t.tval), AddressSpaceTag(h));
    FlushLeavesState(SupervisorReturn(h3), AddressSpaceTag(h3));
  }

  lemma SupervisorSaves(h: Hart, cause: bv32, tval: bv32)
    ensures var h' := SupervisorTrap(h, cause, tval);
      h'.csrs.sepc == h.pc && h'.status.spie == h.status.sie && h'.status.mie == h.status.mie && h'.level == SUPERVISOR
  {
    hide Vector;
  }

  /**
   Properly nested traps and returns, to any depth and in any number, whose handlers run code, use any csr
   instructions that spare their own epc and saved status, fence, see interrupts come and go, and take interrupts
   again while they run, bring back the
   interrupted pc (or go where the handler chose), privilege level and interrupt enables; a machine trap inside
   a supervisor handler does not even touch what that handler has saved.
   */
  lemma {:induction false} BracketRestores(h: Hart, t: Handler)
    requires Legal(h) && WellNested(t, h.level) && Orderly(h, t)
    ensures var r := Play(h, t);
      r.Some? && r.value.pc == ReturnsTo(h, t) && Legal(r.value) && Undisturbed(h, r.value, t.target)
    decreases t, |t.body| + 1
  {
    hide RaiseTrap, PlayBody, OrderlyBody, Mret, Sret, Legal, Undisturbed, SameSaved, Leaves, Redirected, Redirect;
    TrapRetags(h, t.target, t.cause, t.tval);
    var h1 := RaiseTrap(h, t.target, t.cause, t.tval).value;
    BodyKeeps(h1, t, |t.body|);
    var h2 := PlayBody(h1, t, |t.body|).value;
    RedirectOnly(h2, t.target, t.resumeAt);
    RedirectedLegal(h2, Redirect(h2, t.target, t.resumeAt), t.target);
    if t.target == MACHINE {
      MachineBracket(h, t, h1, h2, Redirect(h2, MACHINE, t.resumeAt));
    } else {
      SupervisorBracket(h, t, h1, h2, Redirect(h2, SUPERVISOR, t.resumeAt));
    }
  }

  // ----- handlers that are orderly whatever the state -----

  // The csr instruction names neither a status register nor the epc of a level whose saved state must survive,
  // or it is a csrrs or csrrc that spares all of that status but the handler's own enable.
  predicate Spares(c: Csr, op: CsrOp, operand: bv32, target: Level) {
    || (c != MSTATUS && c != SSTATUS && c != SEPC && (target == MACHINE ==> c != MEPC))
    || (op != ReplaceBits && target == SUPERVISOR && c == SSTATUS && operand & 0x120 == 0)
    || (op != ReplaceBits && target == MACHINE && c == MSTATUS && operand & 0x19a2 == 0)
  }

  ghost predicate Careful(t: Handler) {
    forall i :: 0 <= i < |t.body| ==>
      match t.body[i]
      case Access(c, op, _, operand) => Spares(c, op, operand, t.target)
      case Nested(inner) => Careful(inner)
      case _ => true
  }

  lemma SstatusBits(s: Status, op: CsrOp, operand: bv32)
    requires s.spp <= SUPERVISOR && op != ReplaceBits && operand & 0x120 == 0
    ensures var s' := UnpackSstatus(s, CsrValue(PackSstatus(s), op, operand, 0x133));
      s'.spie == s.spie && s'.spp == s.spp && s'.mie == s.mie
  {
  }

  lemma MstatusBits(s: Status, op: CsrOp, operand: bv32)
    requires s.spp <= SUPERVISOR && s.mpp <= MACHINE && op != ReplaceBits && operand & 0x19a2 == 0
    ensures var s' := UnpackStatus(CsrValue(PackStatus(s), op, operand, 0x19aa));
      s'.sie == s.sie && s'.spie == s.spie && s'.mpie == s.mpie && s'.spp == s.spp && s'.mpp == s.mpp
  {
  }

  lemma StatusLeaves(h: Hart, s: Status, target: Level)
    requires s.spie == h.status.spie && s.spp == h.status.spp
    requires if target == MACHINE then s.sie == h.status.sie && s.mpie == h.status.mpie && s.mpp == h.status.mpp
             else s.mie == h.status.mie
    ensures Leaves(h, h.(status := s), target)
  {
  }

  lemma StatusWriteLeaves(h: Hart, c: Csr, op: CsrOp, operand: bv32, target: Level)
    requires Legal(h) && Spares(c, op, operand, target) && (c == MSTATUS || c == SSTATUS)
    ensures Leaves(h, WriteCsr(h, c, CsrValue(ReadCsr(h, c), op, operand, Mask(c))), target)
  {
    hide CsrValue, PackSstatus, UnpackSstatus, PackStatus, UnpackStatus, Leaves;
    if c == SSTATUS {
      SstatusBits(h.status, op, operand);
      StatusLeaves(h, UnpackSstatus(h.status, CsrValue(PackSstatus(h.status), op, operand, 0x133)), target);
    } else {
      MstatusBits(h.status, op, operand);
      StatusLeaves(h, UnpackStatus(CsrValue(PackStatus(h.status), op, operand, 0x19aa)), target);
    }
  }

  lemma FieldLeaves(h: Hart, v: bv32, target: Level)
    ensures Leaves(h, h.(mip := v), target) && Leaves(h, h.(mie := v), target)
    ensures Leaves(h, h.(mideleg := v), target) && Leaves(h, WriteSatp(h, v), target)
  {
  }

  lemma BlobLeaves(h: Hart, c: Csr, v: bv32, target: Level)
    requires c != SEPC && (target == MACHINE ==> c != MEPC)
    ensures Leaves(h, h.(csrs := WriteBlob(h.csrs, c, v)), target)
  {
    hide WriteBlob;
    BlobKeepsSepc(h.csrs, c, v);
    if c != MEPC { BlobKeepsMepc(h.csrs, c, v); }
  }

  lemma OtherWrite(h: Hart, c: Csr, v: bv32, target: Level)
    requires c != MSTATUS && c != SSTATUS && c != SEPC && (target == MACHINE ==> c != MEPC)
    ensures Leaves(h, WriteCsr(h, c, v), target)
  {
    hide Leaves, MergeMip, MergeSip, MergeSie, WriteBlob, WriteSatp;
    match c
    case MIP => FieldLeaves(h, MergeMip(h.mip, v), target);
    case SIP => FieldLeaves(h, MergeSip(h.mip, v), target);
    case SIE => FieldLeaves(h, MergeSie(h.mie, v), target);
    case MIE | MIDELEG | SATP => FieldLeaves(h, v, target);
    case _ => BlobLeaves(h, c, v, target);
  }

  lemma AdvanceLeaves(h: Hart, h': Hart, target: Level)
    requires Leaves(h, h', target)
    ensures Leaves(h, Advance(h'), target)
  {
  }

  lemma SparingLeaves(h: Hart, c: Csr, op: CsrOp, named: bool, operand: bv32, target: Level)
    requires Legal(h) && Spares(c, op, operand, target)
    ensures Leaves(h, CsrInstruction(h, c, op, named, operand), target)
  {
    hide Leaves, ReadCsr, WriteCsr, CsrValue, Mask, Advance, Legal;
    if c == MSTATUS || c == SSTATUS {
      StatusWriteLeaves(h, c, op, operand, target);
    } else {
      OtherWrite(h, c, CsrValue(ReadCsr(h, c), op, operand, Mask(c)), target);
    }
    LeavesSelf(h, target);
    AdvanceLeaves(h, ModifyCsr(h, c, op, named, operand), target);
  }

  /**
   A handler that names no epc, and of the status registers sets or clears no more than its own enable, is orderly
   wherever it is entered.
   */
  lemma {:induction false} CarefulIsOrderly(h: Hart, t: Handler)
    requires Legal(h) && WellNested(t, h.level) && Careful(t)
    ensures Orderly(h, t)
    decreases t, |t.body| + 1
  {
    hide RaiseTrap, OrderlyBody, Legal;
    TrapRetags(h, t.target, t.cause, t.tval);
    CarefulBody(RaiseTrap(h, t.target, t.cause, t.tval).value, t, |t.body|);
  }

  lemma {:induction false} CarefulBody(h: Hart, t: Handler, n: nat)
    requires Legal(h) && h.level == t.target && WellNested(t, t.target) && Careful(t) && n <= |t.body|
    ensures OrderlyBody(h, t, n)
    decreases t, n
  {
    hide PlayBody, Orderly, Leaves, CsrInstruction, Legal, Spares;
    if n > 0 {
      CarefulBody(h, t, n - 1);
      BodyKeeps(h, t, n - 1);
      var h1 := PlayBody(h, t, n - 1).value;
      LeavesLevel(h, h1, t.target);
      match t.body[n - 1]
      case Access(c, op, named, operand) => SparingLeaves(h1, c, op, named, operand, t.target);
      case Nested(inner) => CarefulIsOrderly(h1, inner);
      case _ =>
    }
  }

  // A supervisor handler that lets a timer interrupt in while it runs.
  const REENTRANT_HANDLER := Handler(SUPERVISOR, 0x8000_0009, 0,
    [Access(SSTATUS, SetBits, true, 2), Nested(Handler(SUPERVISOR, 0x8000_0005, 0, [], None)), Work(0)], None)

  /** It is careful, and brings everything back. */
  lemma ReentrantHandlerReturns(h: Hart)
    requires Legal(h) && h.level <= SUPERVISOR
    ensures var r := Play(h, REENTRANT_HANDLER); r.Some? && r.value.pc == h.pc && Undisturbed(h, r.value, SUPERVISOR)
  {
    hide Play, Legal, Undisturbed, Orderly;
    CarefulIsOrderly(h, REENTRANT_HANDLER);
    BracketRestores(h, REENTRANT_HANDLER);
  }

  // The firmware's timer interrupt: it masks its own interrupt and pends the supervisor's.
  const TIMER_HANDLER := Handler(MACHINE, 0x8000_0007, 0,
    [Access(MIE, ClearBits, true, 0x80), Access(MIP, SetBits, true, 0x20)], None)

  lemma RelayBits(h: Hart)
    ensures var h1 := CsrInstruction(h, MIE, ClearBits, true, 0x80);
      && CsrInstruction(h1, MIP, SetBits, true, 0x20).mip & 0x20 == 0x20
      && CsrInstruction(h1, MIP, SetBits, true, 0x20).mie & 0x80 == 0
  {
  }

  lemma TimerBody(h: Hart)
    ensures var r := PlayBody(h, TIMER_HANDLER, 2); r.Some? && r.value.mip & 0x20 == 0x20 && r.value.mie & 0x80 == 0
  {
    hide CsrInstruction;
    RelayBits(h);
    assert PlayBody(h, TIMER_HANDLER, 1) == Some(CsrInstruction(h, MIE, ClearBits, true, 0x80));
  }

  lemma ReturnKeepsPending(h: Hart)
    ensures h.level == MACHINE && h.status.mpp != RESERVED ==>
      Mret(h).Some? && Mret(h).value.mip == h.mip && Mret(h).value.mie == h.mie
  {
    hide AddressSpaceTag, RaiseException;
  }

  /** The firmware's timer handler is such a handler: it brings everything back, with STIP pending and MTIE masked. */
  lemma TimerHandlerReturns(h: Hart)
    requires Legal(h)
    ensures var r := Play(h, TIMER_HANDLER);
      && r.Some? && r.value.pc == h.pc && Undisturbed(h, r.value, MACHINE)
      && r.value.mip & 0x20 == 0x20 && r.value.mie & 0x80 == 0
  {
    hide RaiseTrap, PlayBody, Mret, Legal, Undisturbed, Leaves;
    CarefulIsOrderly(h, TIMER_HANDLER);
    BracketRestores(h, TIMER_HANDLER);
    TrapRetags(h, MACHINE, 0x8000_0007, 0);
    var h1 := RaiseTrap(h, MACHINE, 0x8000_0007, 0).value;
    TimerBody(h1);
    TimerReturn(h, h1);
  }

  lemma TimerReturn(h: Hart, h1: Hart)
    requires Legal(h) && RaiseTrap(h, MACHINE, 0x8000_0007, 0) == Some(h1) && PlayBody(h1, TIMER_HANDLER, 2).Some?
    requires Orderly(h, TIMER_HANDLER)
    ensures var h2 := PlayBody(h1, TIMER_HANDLER, 2).value;
      Mret(h2).Some? && Mret(h2).value.mip == h2.mip && Mret(h2).value.mie == h2.mie
  {
    hide PlayBody, OrderlyBody, RaiseTrap, Mret;
    TrapRetags(h, MACHINE, 0x8000_0007, 0);
    BodyKeeps(h1, TIMER_HANDLER, 2);
    MachineTrapRecords(h, 0x8000_0007, 0);
    ReturnKeepsPending(PlayBody(h1, TIMER_HANDLER, 2).value);
  }

  lemma MachineTrapRecords(h: Hart, cause: bv32, tval: bv32)
    ensures var r := RaiseTrap(h, MACHINE, cause, tval); r.Some? && r.value.status.mpp == h.level && r.value.level == MACHINE
  {
    hide Vector, AddressSpaceTag;
  }

  /** A machine handler that takes a machine trap without saving anything returns into itself, in user mode. */
  lemma UnsavedNestingLoses(h: Hart, at: bv32)
    requires h.level == MACHINE
    ensures var outer := RaiseTrap(h, MACHINE, ILLEGAL_INSTRUCTION, 0).value;
      var inner := RaiseTrap(outer.(pc := at), MACHINE, ILLEGAL_INSTRUCTION, 0).value;
      var back := Mret(inner);
      && back.Some? && back.value.pc == at && back.value.level == MACHINE
      && Mret(back.value).Some? && Mret(back.value).value.pc == at && Mret(back.value).value.level == USER
  {
    hide AddressSpaceTag, RaiseException, Vector, FlushOnChange;
    var m := MachineTrap(h, ILLEGAL_INSTRUCTION, 0);
    FlushLeavesState(m, AddressSpaceTag(h));
    var outer := FlushOnChange(m, AddressSpaceTag(h)).(pc := at);
    FlushLeavesState(MachineTrap(outer, ILLEGAL_INSTRUCTION, 0), AddressSpaceTag(outer));
    var inner := FlushOnChange(MachineTrap(outer, ILLEGAL_INSTRUCTION, 0), AddressSpaceTag(outer));
    FlushLeavesState(MachineReturn(inner), AddressSpaceTag(inner));
    var back := FlushOnChange(MachineReturn(inner), AddressSpaceTag(inner));
    FlushLeavesState(MachineReturn(back), AddressSpaceTag(back));
  }

  // ----- control registers -----

  /** Reading mstatus gives back what was written, in the bits a csr instruction can reach. */
  lemma StatusRoundTrip(v: bv32)
    ensures PackStatus(UnpackStatus(v & Mask(MSTATUS))) == v & Mask(MSTATUS)
  {
  }

  /** No write to mip touches the machine bits, which belong to the devices. */
  lemma MachinePendingIsReadOnly(h: Hart, op: CsrOp, named: bool, operand: bv32)
    ensures CsrInstruction(h, MIP, op, named, operand).mip & 0x888 == h.mip & 0x888
  {
    hide CsrValue, MergeMip, Mask;
    MergeMipKeeps(h.mip, CsrValue(h.mip, op, operand, Mask(MIP)));
  }

  lemma MergeMipKeeps(current: bv32, v: bv32)
    ensures MergeMip(current, v) & 0x888 == current & 0x888
  {
  }

  predicate SameOutside(a: bv32, b: bv32, mask: bv32) {
    a & !mask == b & !mask
  }

  predicate SameWithin(a: bv32, b: bv32, mask: bv32) {
    a & mask == b & mask
  }

  lemma MergeSipKeeps(current: bv32, v: bv32)
    ensures SameOutside(MergeSip(current, v), current, 2) && SameWithin(MergeSip(current, v), v, 2)
  {
  }

  lemma SipWritten(h: Hart, op: CsrOp, named: bool, operand: bv32)
    ensures CsrInstruction(h, SIP, op, named, operand).mip ==
      if op == ReplaceBits || named then MergeSip(h.mip, CsrValue(ReadCsr(h, SIP), op, operand, Mask(SIP))) else h.mip
  {
    hide CsrValue, ReadCsr, MergeSip, Mask;
  }

  lemma SameSelf(a: bv32, mask: bv32)
    ensures SameOutside(a, a, mask)
  {
  }

  /** No csr instruction on sip touches anything but the software bit, and that takes the value written. */
  lemma SupervisorPendingIsReadOnly(h: Hart, op: CsrOp, named: bool, operand: bv32)
    ensures var h' := CsrInstruction(h, SIP, op, named, operand);
      && SameOutside(h'.mip, h.mip, 2)
      && (op == ReplaceBits || named ==> SameWithin(h'.mip, CsrValue(ReadCsr(h, SIP), op, operand, Mask(SIP)), 2))
  {
    hide CsrInstruction, CsrValue, ReadCsr, MergeSip, Mask, SameOutside, SameWithin;
    SipWritten(h, op, named, operand);
    SameSelf(h.mip, 2);
    MergeSipKeeps(h.mip, CsrValue(ReadCsr(h, SIP), op, operand, Mask(SIP)));
  }
}
