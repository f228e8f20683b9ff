/** No timer tick is early and none is lost, over every run of guest, firmware, clock and interrupts. */
module RelayProof {
  import opened Words
  import opened HartTrap
  import opened TrapProof
  import opened TrapBracket
  import opened Clint
  import opened TimerRelay

  // ----- stores -----

  lemma StoreEffect(c: Registers, op: Op)
    requires c.Valid() && c.nrHarts >= 1 && (op.StoreCompare? || op.StoreDoorbell?) && Harmless(op)
    ensures var c' := Store(c, if op.StoreDoorbell? then Wrap(4 * op.hart) else if op.high then REG_MTIMECMP + 4 else REG_MTIMECMP, op.v);
      c'.mtime == c.mtime && c'.mtimecmp[0] == Effect(op, Relay(c.mtimecmp[0], false, false)).cmp
  {
    hide WithLo, WithHi;
    if op.StoreCompare? {
      CompareAddress(0);
    } else {
      DoorbellMisses(c, Wrap(4 * op.hart), op.v);
    }
  }

  lemma DoorbellMisses(c: Registers, offset: u32, v: u32)
    requires c.Valid() && !(REG_MTIMECMP <= offset < REG_MTIMECMP + 8) && !(REG_MTIME <= offset < REG_MTIME + 8) && offset % 4 == 0
    ensures Store(c, offset, v).mtime == c.mtime && Store(c, offset, v).mtimecmp[0] == c.mtimecmp[0]
  {
    hide WithLo, WithHi;
    if REG_MTIMECMP <= offset < REG_MTIMECMP + 8 * MAX_NR_HARTS {
      assert (offset - REG_MTIMECMP) / 8 > 0;
    }
  }

  // ----- one firmware operation -----

  lemma MieLegal(h: Hart, c: Csr, op: CsrOp, bits: bv32)
    requires Legal(h) && (c == MIE || c == MIP)
    ensures Legal(CsrInstruction(h, c, op, true, bits))
  {
    WriteKeeps(h, c, op, true, bits);
  }

  lemma FirmwareWrite(w: Platform, c: Csr, op: CsrOp, bits: bv32)
    requires w.clint.Valid() && Configured(w.hart) && (c == MIE || c == MIP) && op != ReplaceBits && (c == MIE && op == SetBits ==> bits == MTIE)
    ensures var w' := w.(hart := CsrInstruction(w.hart, c, op, true, bits));
      var f := if c == MIE then (if op == SetBits then SetMie(bits) else ClearMie(bits))
               else if op == SetBits then SetMip(bits) else ClearMip(bits);
      && Configured(w'.hart) && w'.hart.level == w.hart.level && w'.hart.status == w.hart.status
      && RelayOf(w') == Effect(f, RelayOf(w))
  {
    hide CsrInstruction, Has, Legal;
    FirmwareWriteFrame(w.hart, c, op, bits);
    MieLegal(w.hart, c, op, bits);
  }

  lemma FenceKeeps(h: Hart)
    requires Configured(h)
    ensures forall h' :: h' == SfenceVma(h) || h' == FlushCache(h) ==>
      Configured(h') && h'.level == h.level && h'.status == h.status && h'.mip == h.mip && h'.mie == h.mie
  {
    hide Has;
  }

  lemma SkipKeeps(h: Hart)
    requires Configured(h)
    ensures Configured(h.(csrs := h.csrs.(mepc := h.csrs.mepc + 4)))
  {
    hide Has;
  }

  // One firmware operation does to the relay what its effect says.
  lemma OpEffect(w: Platform, op: Op)
    requires w.clint.Valid() && w.clint.nrHarts >= 1 && Configured(w.hart) && w.hart.level == MACHINE && w.hart.status.mpp < RESERVED
    requires Harmless(op) && (op.SetMie? ==> op.bits == MTIE)
    ensures Do(w.hart, w.clint, op).Some?
    ensures var (h, c) := Do(w.hart, w.clint, op).value;
      var w' := w.(hart := h, clint := c);
      && c.Valid() && c.nrHarts == w.clint.nrHarts && c.mtime == w.clint.mtime && Configured(h) && RelayOf(w') == Effect(op, RelayOf(w))
      && (if op == Return then h.level < MACHINE else h.level == MACHINE && h.status == w.hart.status)
  {
    hide CsrInstruction, Store, SfenceVma, FlushCache, Mret, Has, Configured, WithLo, WithHi, Harmless;
    match op
    case StoreCompare(_, _) => StoreEffect(w.clint, op);
    case StoreDoorbell(_, _) => StoreEffect(w.clint, op);
    case ClearMip(bits) => FirmwareWrite(w, MIP, ClearBits, bits);
    case SetMip(bits) => FirmwareWrite(w, MIP, SetBits, bits);
    case ClearMie(bits) => FirmwareWrite(w, MIE, ClearBits, bits);
    case SetMie(bits) => FirmwareWrite(w, MIE, SetBits, bits);
    case LocalFenceI => FenceKeeps(w.hart);
    case LocalFenceVma => FenceKeeps(w.hart);
    case SkipEcall => SkipKeeps(w.hart);
    case Return =>
      MretFrame(w.hart);
      ConfiguredAfterMret(w.hart);
  }

  lemma ConfiguredAfterMret(h: Hart)
    requires Configured(h) && h.level == MACHINE && h.status.mpp < RESERVED
    ensures Configured(Mret(h).value)
  {
    hide Mret, Has, Legal;
    MretFrame(h);
    ReturnRetags(h);
  }

  lemma FirmwareKeeps(w: Platform)
    requires Inv(w) && w.hart.level == MACHINE
    ensures Proceed(w, Firmware).Some? && Inv(Proceed(w, Firmware).value)
  {
    hide Do, Configured, Has, Effect, Relayed, Harmless;
    ProgramTail(w.todo);
    ProgramHead(w.todo);
    OpEffect(w, w.todo[0]);
    var w' := Proceed(w, Firmware).value;
    assert Effects(w.todo, RelayOf(w)) == Effects(w'.todo, RelayOf(w'));
    if |w.todo| == 1 {
      assert w'.todo == [];
    }
  }

  lemma ProgramHead(ops: seq<Op>)
    requires Program(ops)
    ensures Harmless(ops[0]) && (ops[0].SetMie? ==> ops[0].bits == MTIE)
  {
  }

  // ----- guest steps -----

  // A hart that runs on below machine mode, with its relay state unchanged.
  lemma GuestKeeps(w: Platform, h: Hart)
    requires Inv(w) && w.hart.level < MACHINE && h.level < MACHINE && Legal(h) && SameRelayState(w.hart, h)
    ensures Inv(w.(hart := h))
  {
    hide Legal, Has, Effects, Relayed;
    SameConfigured(w.hart, h);
  }

  lemma SupervisorExceptionKeeps(w: Platform, number: bv32, tval: bv32)
    requires Inv(w) && w.hart.level < MACHINE && number < 16 && ExceptionTarget(w.hart, number) == SUPERVISOR
    ensures var r := RaiseException(w.hart, number, tval); r.Some? && Inv(w.(hart := r.value))
  {
    hide Legal, Has, Effects, Relayed, RaiseTrap, Inv, ExceptionTarget;
    InvLegal(w);
    TrapRetags(w.hart, SUPERVISOR, number, tval);
    TrapFrame(w.hart, SUPERVISOR, number, tval);
    GuestKeeps(w, RaiseTrap(w.hart, SUPERVISOR, number, tval).value);
  }

  lemma InvLegal(w: Platform)
    requires Inv(w)
    ensures Legal(w.hart) && w.clint.Valid() && (w.hart.level < MACHINE ==> w.hart.level <= SUPERVISOR)
  {
    hide Has;
  }

  predicate GuestEvent(e: RelayEvent) {
    e.GuestRun? || e.GuestWrite? || e.GuestException? || e.GuestSret?
  }

  lemma GuestEventKeeps(w: Platform, e: RelayEvent)
    requires Inv(w) && GuestEvent(e) && Proceed(w, e).Some?
    ensures Inv(Proceed(w, e).value)
  {
    hide Legal, Has, Effects, Relayed, RaiseException, ExceptionTarget, Sret, CsrInstruction, Inv, SameRelayState;
    InvLegal(w);
    match e
    case GuestRun(pc) =>
      LegalAt(w.hart, pc);
      RunFrame(w.hart, pc);
      GuestKeeps(w, w.hart.(pc := pc));
    case GuestWrite(c, op, named, operand) =>
      WriteKeeps(w.hart, c, op, named, operand);
      GuestWriteFrame(w.hart, c, op, named, operand);
      GuestKeeps(w, CsrInstruction(w.hart, c, op, named, operand));
    case GuestException(number, tval) => SupervisorExceptionKeeps(w, number, tval);
    case GuestSret =>
      ReturnRetags(w.hart);
      SretFrame(w.hart);
      GuestKeeps(w, Sret(w.hart).value);
  }

  lemma RunFrame(h: Hart, pc: bv32)
    ensures SameRelayState(h, h.(pc := pc))
  {
  }

  // ----- calls -----

  lemma {:induction false} IpisAreDoorbells(mask: bv32, base: u32, bit: nat)
    requires bit <= 32
    ensures forall op :: op in Ipis(mask, base, bit) ==>
      op.StoreDoorbell? && exists i :: 0 <= i < 32 && Rings(mask, i) && op == StoreDoorbell(Wrap(base + i), 1)
    decreases 32 - bit
  {
    hide Rings;
    if bit < 32 {
      IpisAreDoorbells(mask, base, bit + 1);
    }
  }

  // The operations of any call: plain ones, or those of set-timer.
  ghost predicate Calm(ops: seq<Op>) {
    forall op :: op in ops ==>
      Harmless(op) && op != Return && (op.StoreDoorbell? || op.LocalFenceI? || op.LocalFenceVma? || op == ClearMip(SSIP))
  }

  lemma IpisAreCalm(e: RelayEvent)
    requires e.Sbi? && InRange(e) && e.a7 == EXT_IPI && e.a6 == 0
    ensures Calm(Ipis(e.a0, e.a1, 0))
  {
    hide Rings, Ipis, Harmless, RingsDoorbell;
    IpisAreDoorbells(e.a0, e.a1, 0);
    forall op | op in Ipis(e.a0, e.a1, 0)
      ensures Harmless(op) && op != Return && op.StoreDoorbell?
    {
      var i :| 0 <= i < 32 && Rings(e.a0, i) && op == StoreDoorbell(Wrap(e.a1 + i), 1);
      DoorbellIsHarmless(Wrap(e.a1 + i), 1);
    }
  }

  lemma DispatchIsCalm(e: RelayEvent)
    requires e.Sbi? && InRange(e) && !SetsTimer(e.a7, e.a6) && Dispatch(e.a7, e.a6, e.a0, e.a1).Some?
    ensures Calm(Dispatch(e.a7, e.a6, e.a0, e.a1).value)
  {
    hide InRange, Ipis, SetsTimer, SetTimer;
    if e.a7 == EXT_IPI && e.a6 == 0 {
      IpisAreCalm(e);
    }
  }

  lemma {:induction false} CalmEffects(ops: seq<Op>, r: Relay)
    requires Calm(ops)
    ensures Effects(ops, r) == r
  {
    hide Harmless;
    if ops != [] {
      assert ops[0] in ops;
      CalmEffects(ops[1..], r);
    }
  }

  // What may stand in front of the common end of a call.
  ghost predicate WithoutReturn(ops: seq<Op>) {
    forall op :: op in ops ==> Harmless(op) && op != Return && (op.SetMie? ==> op.bits == MTIE)
  }

  lemma CalmWithoutReturn(ops: seq<Op>)
    requires Calm(ops)
    ensures WithoutReturn(ops)
  {
    hide Harmless;
  }

  lemma CallProgram(ops: seq<Op>)
    requires WithoutReturn(ops)
    ensures Program(ops + [SkipEcall, Return])
  {
    hide Harmless;
    HarmlessTail();
    var p := ops + [SkipEcall, Return];
    forall i | 0 <= i < |p|
      ensures Harmless(p[i]) && (p[i] == Return ==> i == |p| - 1) && (p[i].SetMie? ==> p[i].bits == MTIE)
    {
      if i < |ops| {
        assert p[i] in ops;
      } else {
        assert p[i] == [SkipEcall, Return][i - |ops|];
      }
    }
  }

  lemma HarmlessTail()
    ensures Harmless(SkipEcall) && Harmless(Return)
  {
  }

  // Any call leaves the firmware with a program whose effect keeps the promise of the deadline in force.
  lemma CallPlan(e: RelayEvent, r: Relay)
    requires e.Sbi? && InRange(e) && Dispatch(e.a7, e.a6, e.a0, e.a1).Some?
    ensures var ops := Dispatch(e.a7, e.a6, e.a0, e.a1).value + [SkipEcall, Return];
      && Program(ops)
      && Effects(ops, r) == if SetsTimer(e.a7, e.a6) then Relay((e.a0 as int) + e.a1 * TWO32, true, false) else r
  {
    hide Dispatch, SetTimer, Effect, Program, WithoutReturn, Calm, InRange, SetsTimer;
    var ops := Dispatch(e.a7, e.a6, e.a0, e.a1).value;
    if SetsTimer(e.a7, e.a6) {
      SetTimerOps(e);
      SetTimerEffect((e.a0 as int) + e.a1 * TWO32, r);
    } else {
      DispatchIsCalm(e);
      CalmWithoutReturn(ops);
      CalmEffects(ops, r);
      EffectsAppend(ops, [SkipEcall, Return], r);
      EffectsOfNothing([SkipEcall, Return], r);
    }
    CallProgram(ops);
  }

  lemma SetTimerOps(e: RelayEvent)
    requires e.Sbi? && SetsTimer(e.a7, e.a6)
    ensures Dispatch(e.a7, e.a6, e.a0, e.a1) == Some(SetTimer((e.a0 as int) + e.a1 * TWO32))
    ensures WithoutReturn(SetTimer((e.a0 as int) + e.a1 * TWO32))
  {
  }

  lemma SupervisorCallTraps(h: Hart)
    requires Configured(h) && h.level == SUPERVISOR
    ensures var r := Ecall(h);
      && r.Some? && r.value.level == MACHINE && Configured(r.value) && SameRelayState(h, r.value)
      && !r.value.status.mie && r.value.status.mpp == h.level
  {
    hide RaiseTrap, Has, Legal;
    assert (1 as bv32) << ECALL_FROM_SMODE == 0x200;
    TrapRetags(h, MACHINE, ECALL_FROM_SMODE, 0);
    TrapFrame(h, MACHINE, ECALL_FROM_SMODE, 0);
    SameConfigured(h, RaiseTrap(h, MACHINE, ECALL_FROM_SMODE, 0).value);
  }

  lemma SbiKeeps(w: Platform, e: RelayEvent)
    requires Inv(w) && e.Sbi? && InRange(e) && Proceed(w, e).Some?
    ensures Inv(Proceed(w, e).value) && Proceed(w, e).value.hart.level == MACHINE
  {
    hide Ecall, Dispatch, Has, Configured, Program, SetsTimer;
    SupervisorCallTraps(w.hart);
    CallPlan(e, RelayOf(w));
    assert RelayOf(w.(hart := Ecall(w.hart).value)) == RelayOf(w);
  }

  // ----- the clock and the pump -----

  lemma NoneInMachineMode(h: Hart, order: seq<Interrupt>)
    requires h.level == MACHINE && !h.status.mie
    ensures FirstDeliverable(h, order) == None
    decreases |order|
  {
  }

  // Later is still not too early.
  lemma TimePasses(r: Relay, t: u64, t': u64, d: u64)
    requires Relayed(r, t, d) && t <= t'
    ensures Relayed(r, t', d)
  {
  }

  lemma RefreshFrame(h: Hart, c: Registers, devices: bv32)
    requires c.Valid()
    ensures var h' := RefreshAll(h, c, devices);
      && SameRelayState(h, h') && h'.level == h.level && h'.status == h.status && h'.pc == h.pc
      && (Legal(h) ==> Legal(h')) && (Has(h'.mip, 0x80) <==> TimerDue(c, 0))
  {
    hide Has, TimerDue, DeviceLines, Legal, Latch;
    RefreshRetags(h, DeviceLines(devices, TimerDue(c, 0), c.msip[0] != 0));
    RefreshBits(h.mip, devices, TimerDue(c, 0), c.msip[0] != 0);
  }

  // The platform once the clock has moved on and the pending bits are fresh.
  function Refreshed(w: Platform, c: Registers, devices: bv32): Platform
    requires c.Valid()
  {
    w.(clint := c, hart := RefreshAll(w.hart, c, devices))
  }

  lemma RefreshKeeps(w: Platform, c: Registers, mtime: u64, devices: bv32)
    requires Inv(w) && c == w.clint.(mtime := mtime) && mtime >= w.clint.mtime
    ensures c.Valid() && Inv(Refreshed(w, c, devices)) && RelayOf(Refreshed(w, c, devices)) == RelayOf(w)
    ensures Has(Refreshed(w, c, devices).hart.mip, 0x80) <==> TimerDue(c, 0)
  {
    hide RefreshAll, Has, Legal, Effects, Relayed, TimerDue;
    RefreshFrame(w.hart, c, devices);
    SameConfigured(w.hart, RefreshAll(w.hart, c, devices));
    if w.deadline.Some? {
      TimePasses(Effects(w.todo, RelayOf(w)), w.clint.mtime, mtime, w.deadline.value);
    }
  }

  // The vectors the pump can take below machine mode on this platform.
  lemma TakenVector(h: Hart, v: Interrupt)
    requires Configured(h) && v in DELIVERY_ORDER && Deliverable(h, v)
    ensures InterruptTarget(h, v) == MACHINE ==> v == 3 || v == 7
    ensures v == 7 ==> Has(h.mie, MTIE) && Has(h.mip, 0x80) && InterruptTarget(h, v) == MACHINE
    ensures v == 5 ==> Has(h.mip, STIP)
  {
    var i :| 0 <= i < 6 && DELIVERY_ORDER[i] == v;
    assert v == 11 || v == 3 || v == 7 || v == 9 || v == 1 || v == 5;
    assert (1 as bv32) << 11 == 0x800 && (1 as bv32) << 7 == 0x80 && (1 as bv32) << 5 == 0x20;
  }

  lemma CauseCode(v: Interrupt)
    ensures (0x8000_0000 | v) & 0xff == v
  {
  }

  lemma HandlerPlan(v: Interrupt, r: Relay)
    requires v == 3 || v == 7
    ensures var ops := HandleInterrupt(v);
      && ops.Some? && Program(ops.value)
      && Effects(ops.value, r) == if v == 7 then r.(mtie := false, stip := true) else r
  {
    hide Effects;
    InterruptEffects(r);
  }

  // A machine interrupt taken from a refreshed platform keeps the promise of the deadline.
  lemma MachineDelivery(w: Platform, v: Interrupt)
    requires Inv(w) && w.hart.level < MACHINE && (Has(w.hart.mip, 0x80) <==> TimerDue(w.clint, 0))
    requires v in DELIVERY_ORDER && Deliverable(w.hart, v) && InterruptTarget(w.hart, v) == MACHINE
    ensures var h := RaiseTrap(w.hart, MACHINE, 0x8000_0000 | v, 0);
      && h.Some? && h.value.level == MACHINE
      && HandleInterrupt(h.value.csrs.mcause & 0xff).Some?
      && Inv(w.(hart := h.value, todo := HandleInterrupt(h.value.csrs.mcause & 0xff).value))
  {
    hide RaiseTrap, Has, Legal, Deliverable, InterruptTarget, Effects, HandleInterrupt, Program;
    InvLegal(w);
    TakenVector(w.hart, v);
    CauseCode(v);
    TrapRetags(w.hart, MACHINE, 0x8000_0000 | v, 0);
    TrapFrame(w.hart, MACHINE, 0x8000_0000 | v, 0);
    var h := RaiseTrap(w.hart, MACHINE, 0x8000_0000 | v, 0).value;
    SameConfigured(w.hart, h);
    HandlerPlan(v, RelayOf(w));
    assert Effects(w.todo, RelayOf(w)) == RelayOf(w) by { NoEffects(RelayOf(w)); }
    assert RelayOf(w.(hart := h)) == RelayOf(w);
  }

  lemma NoEffects(r: Relay)
    ensures Effects([], r) == r
  {
  }

  lemma SupervisorDelivery(w: Platform, v: Interrupt)
    requires Inv(w) && w.hart.level < MACHINE && Deliverable(w.hart, v) && InterruptTarget(w.hart, v) == SUPERVISOR
    ensures var h := RaiseTrap(w.hart, SUPERVISOR, 0x8000_0000 | v, 0); h.Some? && h.value.level == SUPERVISOR && Inv(w.(hart := h.value))
  {
    hide RaiseTrap, Has, Legal, InterruptTarget, Inv, SameRelayState;
    InvLegal(w);
    TrapRetags(w.hart, SUPERVISOR, 0x8000_0000 | v, 0);
    TrapFrame(w.hart, SUPERVISOR, 0x8000_0000 | v, 0);
    GuestKeeps(w, RaiseTrap(w.hart, SUPERVISOR, 0x8000_0000 | v, 0).value);
  }

  lemma DeliverKeeps(w: Platform, devices: bv32)
    requires w.clint.Valid() && Inv(Refreshed(w, w.clint, devices))
    requires Has(Refreshed(w, w.clint, devices).hart.mip, 0x80) <==> TimerDue(w.clint, 0)
    ensures Deliver(w, devices).Some? && Inv(Deliver(w, devices).value)
  {
    hide RaiseTrap, Has, Legal, Deliverable, InterruptTarget, FirstDeliverable, HandleInterrupt, Inv, RefreshAll, TimerDue, DeliverPending;
    var w1 := Refreshed(w, w.clint, devices);
    InvMachine(w1);
    if w1.hart.level == MACHINE {
      NoneInMachineMode(w1.hart, DELIVERY_ORDER);
    } else {
      FirstIsDeliverable(w1.hart, DELIVERY_ORDER);
      match FirstDeliverable(w1.hart, DELIVERY_ORDER)
      case None =>
      case Some(v) =>
        assert v in DELIVERY_ORDER;
        TwoTargets(w1.hart, v);
        PendingIs(w1.hart, v);
        if InterruptTarget(w1.hart, v) == MACHINE {
          MachineDelivery(w1, v);
        } else {
          SupervisorDelivery(w1, v);
        }
    }
  }

  lemma PendingIs(h: Hart, v: Interrupt)
    requires FirstDeliverable(h, DELIVERY_ORDER) == Some(v)
    ensures DeliverPending(h) == RaiseTrap(h, InterruptTarget(h, v), 0x8000_0000 | v, 0)
  {
    hide FirstDeliverable, RaiseTrap, InterruptTarget;
  }

  lemma TwoTargets(h: Hart, v: Interrupt)
    ensures InterruptTarget(h, v) == MACHINE || InterruptTarget(h, v) == SUPERVISOR
  {
  }

  lemma InvMachine(w: Platform)
    requires Inv(w)
    ensures w.hart.level == MACHINE ==> !w.hart.status.mie
    ensures w.hart.level != MACHINE ==> w.hart.level < MACHINE
  {
  }

  lemma BoundaryKeeps(w: Platform, ticks: u64, devices: bv32)
    requires Inv(w) && w.clint.mtime + ticks < TWO64
    ensures var r := Proceed(w, Boundary(ticks, devices)); r.Some? && Inv(r.value)
  {
    hide Deliver, Inv, RefreshAll, RelayOf, Has, TimerDue;
    assert w.clint.Valid() by { InvLegal(w); }
    var c := Tick(w.clint, ticks);
    RefreshKeeps(w, c, w.clint.mtime + ticks, devices);
    DeliverKeeps(w.(clint := c), devices);
  }

  lemma IdleKeeps(w: Platform, devices: bv32)
    requires Inv(w) && w.hart.level < MACHINE
    ensures var r := Proceed(w, Idle(devices)); r.Some? && Inv(r.value)
  {
    hide Inv, RefreshAll, RelayOf, Has, TimerDue, Skip, Wakes;
    assert w.clint.Valid() by { InvLegal(w); }
    RefreshKeeps(w, w.clint, w.clint.mtime, devices);
    var w1 := Refreshed(w, w.clint, devices);
    SkipMovesClock(w.clint);
    ClockKeeps(w1, Skip(w.clint).0.mtime);
  }

  lemma SkipMovesClock(c: Registers)
    requires c.Valid()
    ensures Skip(c).0 == c.(mtime := Skip(c).0.mtime) && Skip(c).0.mtime >= c.mtime
  {
  }

  lemma ClockKeeps(w: Platform, mtime: u64)
    requires Inv(w) && mtime >= w.clint.mtime
    ensures Inv(w.(clint := w.clint.(mtime := mtime)))
  {
    hide Has, Legal, Effects, Relayed;
    if w.deadline.Some? {
      TimePasses(Effects(w.todo, RelayOf(w)), w.clint.mtime, mtime, w.deadline.value);
    }
  }

  // ----- runs -----

  lemma ProceedKeeps(w: Platform, e: RelayEvent)
    requires Inv(w) && InRange(e) && Proceed(w, e).Some?
    ensures Inv(Proceed(w, e).value)
  {
    hide Inv, InRange;
    InvLegal(w);
    match e
    case Sbi(_, _, _, _) => SbiKeeps(w, e);
    case Firmware => FirmwareKeeps(w);
    case Boundary(ticks, devices) => BoundaryKeeps(w, ticks, devices);
    case Idle(devices) => IdleKeeps(w, devices);
    case _ => GuestEventKeeps(w, e);
  }

  function RunRelay(w: Platform, events: seq<RelayEvent>): (r: Option<Platform>)
    requires w.clint.Valid()
    ensures r.Some? ==> r.value.clint.Valid()
    decreases |events|
  {
    if events == [] then Some(w)
    else
      match Proceed(w, events[0])
      case None => None
      case Some(w') => RunRelay(w', events[1..])
  }

  lemma {:induction false} RunKeepsInv(w: Platform, events: seq<RelayEvent>)
    requires Inv(w) && RunRelay(w, events).Some? && forall e :: e in events ==> InRange(e)
    ensures Inv(RunRelay(w, events).value)
    decreases |events|
  {
    hide Inv, Proceed, InRange;
    InvLegal(w);
    if events != [] {
      ProceedKeeps(w, events[0]);
      RunKeepsInv(Proceed(w, events[0]).value, events[1..]);
    }
  }

  // What the firmware leaves behind when it enters the supervisor for the first time.
  predicate Booted(w: Platform) {
    && w.clint.Valid() && w.clint.nrHarts >= 1 && w.hart.level == SUPERVISOR && w.todo == [] && w.deadline == None
    && w.hart.status.spp <= SUPERVISOR && w.hart.mideleg == 0x222 && w.hart.csrs.medeleg == 0xb1ff && w.hart.mie == 0x8 && w.hart.mip == 0
  }

  /**
   From boot on, in every run in which every doorbell call stays within the doorbell registers: whenever the
   hart is below machine mode and a timer has been set, exactly one of MTIE and STIP is set, the comparator
   holds the deadline last asked for, and STIP means the clock has reached it.
   */
  lemma TimerIsRelayed(w0: Platform, events: seq<RelayEvent>)
    requires Booted(w0) && RunRelay(w0, events).Some? && forall e :: e in events ==> InRange(e)
    ensures var w := RunRelay(w0, events).value;
      w.hart.level < MACHINE && w.deadline.Some? ==>
        && (Has(w.hart.mie, MTIE) <==> !Has(w.hart.mip, STIP))
        && w.clint.mtimecmp[0] == w.deadline.value
        && (Has(w.hart.mip, STIP) ==> w.clint.mtime >= w.deadline.value)
  {
    hide Proceed, InRange, RunRelay, Legal;
    BootedInv(w0);
    RunKeepsInv(w0, events);
  }

  lemma BootedInv(w: Platform)
    requires Booted(w)
    ensures Inv(w)
  {
    assert (0x222 as bv32) & 0xffff_fddd == 0;
    assert (0xb1ff as bv32) & 0x200 == 0 && (0x8 as bv32) & MEIE == 0;
  }

  /** No tick is early: the supervisor timer interrupt is delivered only once the clock has reached the deadline. */
  lemma NoTickIsEarly(w: Platform, ticks: u64, devices: bv32)
    requires Inv(w) && w.deadline.Some? && w.clint.mtime + ticks < TWO64
    requires var h := RefreshAll(w.hart, Tick(w.clint, ticks), devices); FirstDeliverable(h, DELIVERY_ORDER) == Some(5)
    ensures w.clint.mtime + ticks >= w.deadline.value
  {
    hide RefreshAll, Has, FirstDeliverable, Deliverable, TimerDue;
    var c := Tick(w.clint, ticks);
    RefreshKeeps(w, c, w.clint.mtime + ticks, devices);
    var w1 := Refreshed(w, c, devices);
    FirstIsDeliverable(w1.hart, DELIVERY_ORDER);
    if w1.hart.level == MACHINE {
      NoneInMachineMode(w1.hart, DELIVERY_ORDER);
    } else {
      TakenVector(w1.hart, 5);
    }
  }

  /** No tick is lost: at the first unit boundary at which an armed deadline is reached a machine interrupt is taken. */
  lemma NoTickIsLost(w: Platform, ticks: u64, devices: bv32)
    requires Inv(w) && w.hart.level < MACHINE && w.deadline.Some? && Has(w.hart.mie, MTIE)
    requires w.deadline.value <= w.clint.mtime + ticks < TWO64
    ensures var r := Proceed(w, Boundary(ticks, devices)); r.Some? && r.value.hart.level == MACHINE && r.value.todo != []
  {
    hide RefreshAll, Has, FirstDeliverable, Deliverable, DeliverPending, HandleInterrupt, TimerDue;
    var c := Tick(w.clint, ticks);
    RefreshKeeps(w, c, w.clint.mtime + ticks, devices);
    var w1 := Refreshed(w, c, devices);
    BoundaryKeeps(w, ticks, devices);
    DeadlineIsDue(w, ticks);
    TimerPending(w1.hart);
    MachineInterruptTaken(w1.hart, 7);
    FirstIsDeliverable(w1.hart, DELIVERY_ORDER);
    SomethingFirst(w1.hart, 7);
  }

  lemma DeadlineIsDue(w: Platform, ticks: u64)
    requires Inv(w) && w.hart.level < MACHINE && w.deadline.Some? && w.deadline.value <= w.clint.mtime + ticks < TWO64
    ensures TimerDue(Tick(w.clint, ticks), 0)
  {
    hide Has, Legal;
  }

  lemma TimerPending(h: Hart)
    requires Has(h.mie, MTIE) && Has(h.mip, 0x80)
    ensures PendingAndEnabled(h, 7)
  {
    assert (1 as bv32) << 7 == 0x80;
  }

  lemma SomethingFirst(h: Hart, v: Interrupt)
    requires Legal(h) && h.level < MACHINE && v == 7 && PendingAndEnabled(h, v)
    ensures FirstDeliverable(h, DELIVERY_ORDER).Some?
  {
    hide FirstDeliverable;
    PendingBits(h, v);
    FirstIsDeliverable(h, DELIVERY_ORDER);
    assert DELIVERY_ORDER[2] == 7 && Deliverable(h, v);
  }

  // ----- the tick reaches the supervisor -----

  const TIMER_PLAN: seq<Op> := [ClearMie(MTIE), SetMip(STIP), Return]
  const DOORBELL_PLAN: seq<Op> := [StoreDoorbell(0, 0), SetMip(SSIP), Return]

  // An operation other than those of set-timer.
  predicate Gentle(op: Op) {
    !op.StoreCompare? && (op.ClearMip? ==> !Has(op.bits, STIP))
  }

  // The clock has reached the deadline, and the firmware is not about to set another.
  ghost predicate Reached(w: Platform) {
    Inv(w) && w.deadline.Some? && w.deadline.value <= w.clint.mtime && forall op :: op in w.todo ==> Gentle(op)
  }

  // How many firmware operations it takes at most to hand the tick up, a doorbell that goes first included.
  function Plan(todo: seq<Op>, bell: bool): nat {
    if todo == [] then if bell then 5 else 2
    else if todo[0].SetMip? && Has(todo[0].bits, STIP) then 1
    else 1 + Plan(todo[1..], if todo[0].StoreDoorbell? then todo[0] != StoreDoorbell(0, 0) else bell)
  }

  function Left(w: Platform): nat
    requires w.clint.Valid()
  {
    if Has(w.hart.mip, STIP) then 0 else Plan(w.todo, w.clint.msip[0] != 0)
  }

  lemma {:induction false} PlanMonotone(todo: seq<Op>, bell: bool)
    ensures Plan(todo, bell) <= Plan(todo, true) <= |todo| + 5
  {
    hide Has;
    if todo != [] {
      PlanMonotone(todo[1..], if todo[0].StoreDoorbell? then todo[0] != StoreDoorbell(0, 0) else bell);
      PlanMonotone(todo[1..], if todo[0].StoreDoorbell? then todo[0] != StoreDoorbell(0, 0) else true);
    }
  }

  lemma DoorbellAnswered(c: Registers)
    requires c.Valid() && c.nrHarts >= 1
    ensures Store(c, Wrap(0), 0).msip[0] == 0
  {
  }

  // What an operation of the two handlers does to the pending bit, the enable and the doorbell.
  lemma PlanStep(w: Platform)
    requires Inv(w) && w.hart.level == MACHINE
    ensures var op, w' := w.todo[0], Proceed(w, Firmware).value;
      && w'.todo == w.todo[1..] && w'.clint.mtime == w.clint.mtime && w'.deadline == w.deadline
      && RelayOf(w') == Effect(op, RelayOf(w))
      && (op == StoreDoorbell(0, 0) ==> w'.clint.msip[0] == 0)
      && (!op.StoreCompare? && !op.StoreDoorbell? ==> w'.clint == w.clint)
      && (w'.hart.level < MACHINE <==> op == Return)
  {
    hide Configured, Has, Relayed, Harmless, CsrInstruction, Mret, Store, Effect;
    ProgramTail(w.todo);
    ProgramHead(w.todo);
    OpEffect(w, w.todo[0]);
    if w.todo[0] == StoreDoorbell(0, 0) {
      DoorbellAnswered(w.clint);
    }
  }

  lemma FirmwareNearer(w: Platform)
    requires w.clint.Valid() && Reached(w) && w.hart.level == MACHINE
    ensures Proceed(w, Firmware).Some?
    ensures var w' := Proceed(w, Firmware).value; Reached(w') && (Left(w') == 0 || Left(w') < Left(w))
  {
    hide Proceed, Inv, RelayOf, Has;
    InvProgram(w);
    FirmwareKeeps(w);
    PlanStep(w);
    var w' := Proceed(w, Firmware).value;
    RelayFields(w);
    RelayFields(w');
    assert w.todo[0] in w.todo;
    assert forall op :: op in w'.todo ==> op in w.todo;
    PlanMonotone(w'.todo, w'.clint.msip[0] != 0);
  }

  lemma InvProgram(w: Platform)
    requires Inv(w) && w.hart.level == MACHINE
    ensures |w.todo| > 0
  {
    hide Has, Relayed, Configured;
  }

  lemma RelayFields(w: Platform)
    requires w.clint.Valid()
    ensures RelayOf(w).stip == Has(w.hart.mip, STIP) && RelayOf(w).mtie == Has(w.hart.mie, MTIE) && RelayOf(w).cmp == w.clint.mtimecmp[0]
  {
    hide Has;
  }

  // A machine interrupt taken below machine mode leaves one of the two plans.
  lemma DeliveredPlan(w: Platform, devices: bv32)
    requires w.clint.Valid() && Inv(Refreshed(w, w.clint, devices)) && w.hart.level < MACHINE
    requires var h := Refreshed(w, w.clint, devices).hart;
      (Has(h.mip, 0x80) <==> TimerDue(w.clint, 0)) && (Has(h.mip, 0x8) <==> w.clint.msip[0] != 0)
    ensures Deliver(w, devices).Some?
    ensures var h, w' := Refreshed(w, w.clint, devices).hart, Deliver(w, devices).value;
      && w'.clint == w.clint && w'.deadline == w.deadline && Has(w'.hart.mip, STIP) == Has(h.mip, STIP)
      && (w'.todo == w.todo || w'.todo == TIMER_PLAN || (w'.todo == DOORBELL_PLAN && w.clint.msip[0] != 0))
  {
    hide RaiseTrap, Has, Legal, Deliverable, InterruptTarget, FirstDeliverable, Inv, RefreshAll, TimerDue, DeliverPending, SameRelayState;
    var w1 := Refreshed(w, w.clint, devices);
    var h := w1.hart;
    DeliverKeeps(w, devices);
    InvLegal(w1);
    SameLevel(w, w.clint, devices);
    FirstIsDeliverable(h, DELIVERY_ORDER);
    StillFrame(h);
    match FirstDeliverable(h, DELIVERY_ORDER)
    case None =>
    case Some(v) =>
      assert v in DELIVERY_ORDER;
      InvConfigured(w1);
      TakenVector(h, v);
      TwoTargets(h, v);
      PendingIs(h, v);
      CauseCode(v);
      DeliverableBelow(h, v);
      TrapFrame(h, InterruptTarget(h, v), 0x8000_0000 | v, 0);
      TrapRetags(h, InterruptTarget(h, v), 0x8000_0000 | v, 0);
      SameStip(h, RaiseTrap(h, InterruptTarget(h, v), 0x8000_0000 | v, 0).value);
      if v == 3 {
        DoorbellPending(h);
      }
  }

  lemma DeliverableBelow(h: Hart, v: Interrupt)
    requires Deliverable(h, v)
    ensures h.level <= InterruptTarget(h, v)
  {
    hide InterruptTarget;
  }

  lemma SameStip(h: Hart, h': Hart)
    requires SameRelayState(h, h')
    ensures Has(h'.mip, STIP) == Has(h.mip, STIP) && Has(h'.mie, MTIE) == Has(h.mie, MTIE)
  {
  }

  lemma InvConfigured(w: Platform)
    requires Inv(w)
    ensures Configured(w.hart)
  {
    hide Has, Relayed;
  }

  lemma DoorbellPending(h: Hart)
    requires Deliverable(h, 3)
    ensures Has(h.mip, 0x8)
  {
    assert (1 as bv32) << 3 == 0x8;
  }

  lemma RefreshedBell(h: Hart, c: Registers, devices: bv32)
    requires c.Valid()
    ensures Has(RefreshAll(h, c, devices).mip, 0x8) <==> c.msip[0] != 0
  {
    hide TimerDue;
    BellBits(h.mip, devices, TimerDue(c, 0), c.msip[0] != 0);
  }

  lemma BellBits(current: bv32, devices: bv32, due: bool, bell: bool)
    ensures Has(Latch(current, DeviceLines(devices, due, bell)), 0x8) <==> bell
  {
  }

  lemma PlansAhead()
    ensures Plan([], false) == Plan(TIMER_PLAN, false) == Plan(TIMER_PLAN, true) == 2
    ensures Plan([], true) == Plan(DOORBELL_PLAN, true) == 5
    ensures forall op :: op in TIMER_PLAN || op in DOORBELL_PLAN ==> Gentle(op)
  {
    assert Has(STIP, STIP) && !Has(SSIP, STIP);
    hide Has;
    assert TIMER_PLAN[1..][0] == SetMip(STIP);
    assert DOORBELL_PLAN[1..] == [SetMip(SSIP), Return] && DOORBELL_PLAN[1..][1..] == [Return];
    assert Plan([Return], false) == 3;
  }

  lemma BoundaryNoFarther(w: Platform, ticks: u64, devices: bv32)
    requires w.clint.Valid() && Reached(w) && w.clint.mtime + ticks < TWO64
    ensures Proceed(w, Boundary(ticks, devices)).Some?
    ensures var w' := Proceed(w, Boundary(ticks, devices)).value; Reached(w') && Left(w') <= Left(w)
  {
    hide Inv, RelayOf, Has, TimerDue, Deliver, RefreshAll, Gentle, Plan;
    var c := Tick(w.clint, ticks);
    var w1 := Refreshed(w, c, devices);
    BoundaryKeeps(w, ticks, devices);
    RefreshKeeps(w, c, w.clint.mtime + ticks, devices);
    RefreshedBell(w.hart, c, devices);
    RelayFields(w);
    RelayFields(w1);
    SameLevel(w, c, devices);
    InvMachine(w1);
    InvMachine(w);
    if w.hart.level == MACHINE {
      DeliveredNothing(w.(clint := c), devices);
    } else {
      InvBelow(w);
      DeliveredPlan(w.(clint := c), devices);
      PlansAhead();
    }
  }

  lemma InvBelow(w: Platform)
    requires Inv(w) && w.hart.level < MACHINE
    ensures w.todo == []
  {
    hide Has, Relayed, Configured;
  }

  lemma IdleNoFarther(w: Platform, devices: bv32)
    requires w.clint.Valid() && Reached(w) && w.hart.level < MACHINE
    ensures Proceed(w, Idle(devices)).Some?
    ensures var w' := Proceed(w, Idle(devices)).value; Reached(w') && Left(w') == Left(w)
  {
    hide Inv, RelayOf, Has, RefreshAll, Gentle, Plan, Skip, Wakes, TimerDue;
    IdleKeeps(w, devices);
    RefreshKeeps(w, w.clint, w.clint.mtime, devices);
    RelayFields(w);
    RelayFields(Refreshed(w, w.clint, devices));
    SkipMovesClock(w.clint);
  }

  lemma GuestNoFarther(w: Platform, e: RelayEvent)
    requires w.clint.Valid() && Reached(w) && GuestEvent(e) && Proceed(w, e).Some?
    ensures var w' := Proceed(w, e).value; Reached(w') && Left(w') == Left(w)
  {
    hide Legal, Has, Gentle, Plan, Inv, RaiseException, ExceptionTarget, Sret, CsrInstruction, SameRelayState;
    InvLegal(w);
    GuestEventKeeps(w, e);
    var w' := Proceed(w, e).value;
    assert w' == w.(hart := w'.hart);
    GuestFrame(w, e);
    SameStip(w.hart, w'.hart);
  }

  lemma GuestFrame(w: Platform, e: RelayEvent)
    requires w.clint.Valid() && Inv(w) && GuestEvent(e) && Proceed(w, e).Some?
    ensures SameRelayState(w.hart, Proceed(w, e).value.hart)
  {
    hide Legal, Has, Effects, Relayed, RaiseException, ExceptionTarget, Sret, CsrInstruction, Inv, SameRelayState;
    InvLegal(w);
    match e
    case GuestRun(pc) => RunFrame(w.hart, pc);
    case GuestWrite(c, op, named, operand) => GuestWriteFrame(w.hart, c, op, named, operand);
    case GuestException(number, tval) => ExceptionFrame(w.hart, number, tval);
    case GuestSret => SretFrame(w.hart);
  }

  lemma ExceptionFrame(h: Hart, number: bv32, tval: bv32)
    requires Legal(h) && h.level <= SUPERVISOR && number < 16 && ExceptionTarget(h, number) == SUPERVISOR && RaiseException(h, number, tval).Some?
    ensures SameRelayState(h, RaiseException(h, number, tval).value)
  {
    hide RaiseTrap, ExceptionTarget, SameRelayState, Legal;
    TrapRetags(h, SUPERVISOR, number, tval);
    TrapFrame(h, SUPERVISOR, number, tval);
  }

  // What a call may cost: its own operations, the two that end every call, and the answer to a doorbell it rings.
  function CallSteps(e: RelayEvent): nat {
    if e.Sbi? && Dispatch(e.a7, e.a6, e.a0, e.a1).Some? then |Dispatch(e.a7, e.a6, e.a0, e.a1).value| + 5 else 0
  }

  lemma CallFarther(w: Platform, e: RelayEvent)
    requires w.clint.Valid() && Reached(w) && e.Sbi? && InRange(e) && !SetsTimer(e.a7, e.a6) && Proceed(w, e).Some?
    ensures var w' := Proceed(w, e).value; Reached(w') && Left(w') <= (if Left(w) == 0 then 0 else Left(w) + CallSteps(e))
  {
    hide Legal, Has, Gentle, Plan, Inv, Ecall, Dispatch, SetsTimer, SameRelayState, InRange;
    SbiKeeps(w, e);
    InvConfigured(w);
    SupervisorCallTraps(w.hart);
    var ops := Dispatch(e.a7, e.a6, e.a0, e.a1).value;
    DispatchIsCalm(e);
    CalmIsGentle(ops);
    var w' := Proceed(w, e).value;
    SameStip(w.hart, w'.hart);
    PlanMonotone(w'.todo, w'.clint.msip[0] != 0);
    InvBelow(w);
    PlansAhead();
  }

  lemma CalmIsGentle(ops: seq<Op>)
    requires Calm(ops)
    ensures forall op :: op in ops + [SkipEcall, Return] ==> Gentle(op)
  {
    hide Harmless, Has;
    assert !Has(SSIP, STIP) by { SoftwareIsNotTimer(); }
    forall op | op in ops + [SkipEcall, Return]
      ensures Gentle(op)
    {
      assert op in ops || op == SkipEcall || op == Return;
    }
  }

  lemma SoftwareIsNotTimer()
    ensures !Has(SSIP, STIP)
  {
  }

  lemma SameLevel(w: Platform, c: Registers, devices: bv32)
    requires c.Valid()
    ensures Refreshed(w, c, devices).hart.level == w.hart.level
  {
    hide Has, Latch;
  }

  lemma DeliveredNothing(w: Platform, devices: bv32)
    requires w.clint.Valid() && Inv(Refreshed(w, w.clint, devices)) && Refreshed(w, w.clint, devices).hart.level == MACHINE
    ensures Deliver(w, devices) == Some(Refreshed(w, w.clint, devices))
  {
    hide Inv, RefreshAll, FirstDeliverable;
    InvMachine(Refreshed(w, w.clint, devices));
    NoneInMachineMode(Refreshed(w, w.clint, devices).hart, DELIVERY_ORDER);
  }

  function FirmwareSteps(events: seq<RelayEvent>): nat {
    if events == [] then 0 else (if events[0].Firmware? then 1 else 0) + FirmwareSteps(events[1..])
  }

  function AllCallSteps(events: seq<RelayEvent>): nat {
    if events == [] then 0 else CallSteps(events[0]) + AllCallSteps(events[1..])
  }

  // Nothing in between asks for another deadline.
  predicate LeavesTimer(e: RelayEvent) {
    InRange(e) && (e.Sbi? ==> !SetsTimer(e.a7, e.a6))
  }

  // One event: only a firmware operation counts, and only a call puts the goal farther off.
  lemma OneNearer(w: Platform, e: RelayEvent)
    requires w.clint.Valid() && Reached(w) && LeavesTimer(e) && Proceed(w, e).Some?
    ensures var w' := Proceed(w, e).value;
      Reached(w') && (Left(w') == 0 || (Left(w) > 0 && Left(w') + (if e.Firmware? then 1 else 0) <= Left(w) + CallSteps(e)))
  {
    hide Proceed, Inv, Has, Plan, Gentle, Left, Reached, InRange, SetsTimer, CallSteps;
    match e
    case Boundary(ticks, devices) =>
      BoundaryFits(w, ticks, devices);
      BoundaryNoFarther(w, ticks, devices);
    case Firmware =>
      FirmwareInMachine(w);
      FirmwareNearer(w);
    case Idle(devices) =>
      IdleBelow(w, devices);
      IdleNoFarther(w, devices);
    case Sbi(_, _, _, _) => CallFarther(w, e);
    case _ => GuestNoFarther(w, e);
  }

  lemma IdleBelow(w: Platform, devices: bv32)
    requires w.clint.Valid() && Proceed(w, Idle(devices)).Some?
    ensures w.hart.level < MACHINE
  {
    hide RefreshAll, Skip, Wakes;
  }

  // Nothing is left once the interrupt is pending.
  lemma NothingLeft(w: Platform)
    requires w.clint.Valid()
    ensures Left(w) == 0 <==> Has(w.hart.mip, STIP)
  {
    hide Has;
  }

  lemma {:induction false} RunHandsUp(w: Platform, events: seq<RelayEvent>)
    requires w.clint.Valid() && Reached(w) && RunRelay(w, events).Some? && (forall e :: e in events ==> LeavesTimer(e))
    requires Left(w) == 0 || FirmwareSteps(events) >= Left(w) + AllCallSteps(events)
    ensures Has(RunRelay(w, events).value.hart.mip, STIP)
    decreases |events|
  {
    hide Proceed, Reached, Left, Has, LeavesTimer, CallSteps;
    NothingLeft(w);
    if events != [] {
      OneNearer(w, events[0]);
      RunHandsUp(Proceed(w, events[0]).value, events[1..]);
    }
  }

  lemma BoundaryFits(w: Platform, ticks: u64, devices: bv32)
    requires w.clint.Valid() && Proceed(w, Boundary(ticks, devices)).Some?
    ensures w.clint.mtime + ticks < TWO64
  {
    hide Deliver;
  }

  lemma FirmwareInMachine(w: Platform)
    requires w.clint.Valid() && Proceed(w, Firmware).Some?
    ensures w.hart.level == MACHINE
  {
    hide Do;
  }

  /**
   Every reached deadline is handed up: from any state below machine mode whose deadline the clock has reached,
   however guest steps, idle turns, boundaries and calls other than set-timer come in between, after five
   firmware operations, and those of the calls, the supervisor's timer interrupt is pending, also when a
   doorbell is answered first.
   */
  lemma TickIsHandedUp(w: Platform, events: seq<RelayEvent>)
    requires Inv(w) && w.hart.level < MACHINE && w.deadline.Some? && w.deadline.value <= w.clint.mtime
    requires (forall e :: e in events ==> LeavesTimer(e)) && FirmwareSteps(events) >= 5 + AllCallSteps(events)
    requires w.clint.Valid() && RunRelay(w, events).Some?
    ensures Has(RunRelay(w, events).value.hart.mip, STIP)
  {
    hide RunRelay, FirmwareSteps, AllCallSteps, Has, LeavesTimer, Inv;
    InvBelow(w);
    RunHandsUp(w, events);
  }

  /** A doorbell call for hart 0x1000 rewrites the comparator: the deadline is lost. */
  lemma StrayDoorbellMovesTheDeadline(c: Registers)
    requires c.Valid() && c.nrHarts >= 1 && Lo(c.mtimecmp[0]) != 1
    ensures !Harmless(StoreDoorbell(0x1000, 1)) && Ipis(1, 0x1000, 0) != []
    ensures Store(c, Wrap(4 * 0x1000), 1).mtimecmp[0] != c.mtimecmp[0]
  {
    HalvesOf(c.mtimecmp[0], 1);
    assert Rings(1, 0);
  }

  // A store that leaves comparator and clock alone, whatever they hold.
  ghost predicate AlwaysHarmless(offset: u32) {
    forall c: Registers :: c.Valid() && c.nrHarts >= 1 ==>
      Store(c, offset, 1).mtimecmp[0] == c.mtimecmp[0] && Store(c, offset, 1).mtime == c.mtime
  }

  /** A doorbell store inside the CLINT spares the timer, whatever its state, if and only if its address misses comparator and clock. */
  lemma HarmlessIsExact(hart: u32)
    ensures Harmless(StoreDoorbell(hart, 1)) <==> AlwaysHarmless(Wrap(4 * hart))
  {
    hide WithLo, WithHi;
    var offset := Wrap(4 * hart);
    if Harmless(StoreDoorbell(hart, 1)) {
      forall c: Registers | c.Valid() && c.nrHarts >= 1
        ensures Store(c, offset, 1).mtimecmp[0] == c.mtimecmp[0] && Store(c, offset, 1).mtime == c.mtime
      {
        DoorbellMisses(c, offset, 1);
      }
    } else {
      var c := Registers(0, seq(MAX_NR_HARTS, _ => 0), seq(MAX_NR_HARTS, _ => 0), 1);
      HalvesOfZero();
      assert Store(c, offset, 1).mtimecmp[0] != 0 || Store(c, offset, 1).mtime != 0;
    }
  }

  lemma HalvesOfZero()
    ensures WithLo(0, 1) != 0 && WithHi(0, 1) != 0
  {
  }
}
