/**
 The supervisor timer: firmware, CLINT and hart together. Machine-mode firmware owns the
 comparator and turns machine timer interrupts into supervisor ones.
 */
module TimerRelay {
  import opened Words
  import opened HartTrap
  import opened TrapProof
  import opened TrapBracket
  import opened Clint

  const SSIP: bv32 := 0x002
  const STIP: bv32 := 0x020
  const MTIE: bv32 := 0x080
  const MEIE: bv32 := 0x800

  predicate Has(v: bv32, bit: bv32) {
    v & bit != 0
  }

  // ----- firmware (sbi.c) -----

  // The firmware's stores and register writes, in program order.
  datatype Op =
    | StoreCompare(high: bool, v: u32)
    | StoreDoorbell(hart: u32, v: u32)
    | ClearMip(bits: bv32)
    | SetMip(bits: bv32)
    | ClearMie(bits: bv32)
    | SetMie(bits: bv32)
    | LocalFenceI
    | LocalFenceVma
    | SkipEcall
    | Return

  // The high half goes out of reach first, so that no store in between arms an early deadline.
  function SetTimer(next: u64): seq<Op> {
    [StoreCompare(true, 0xffff_ffff), StoreCompare(false, Lo(next)), StoreCompare(true, Hi(next)), ClearMip(STIP), SetMie(MTIE)]
  }

  function HandleInterrupt(cause: bv32): Option<seq<Op>> {
    if cause == 7 then Some([ClearMie(MTIE), SetMip(STIP), Return])
    else if cause == 3 then Some([StoreDoorbell(0, 0), SetMip(SSIP), Return])
    else None
  }

  const EXT_TIME: u32 := 0x54494d45
  const EXT_IPI: u32 := 0x00735049
  const EXT_RFENCE: u32 := 0x52464e43
  const EXT_SRST: u32 := 0x53525354

  predicate Rings(mask: bv32, bit: nat)
    requires bit < 32
  {
    mask & ((1 as bv32) << bit) != 0
  }

  // One doorbell for every bit of the mask from `bit` on; the hart number is not checked.
  function Ipis(mask: bv32, base: u32, bit: nat): seq<Op>
    requires bit <= 32
    decreases 32 - bit
  {
    if bit == 32 then []
    else (if Rings(mask, bit) then [StoreDoorbell(Wrap(base + bit), 1)] else []) + Ipis(mask, base, bit + 1)
  }

  predicate SetsTimer(a7: u32, a6: u32) {
    a7 == 0 || (a7 == EXT_TIME && a6 == 0)
  }

  // What a call makes the firmware do to the timer, the doorbells and the pending bits; `None` halts the machine.
  function Dispatch(a7: u32, a6: u32, a0: bv32, a1: u32): Option<seq<Op>> {
    if SetsTimer(a7, a6) then Some(SetTimer((a0 as int) + a1 * TWO32))
    else if a7 == 3 then Some([ClearMip(SSIP)])
    else if a7 == 4 then Some([StoreDoorbell(0, 1)])
    else if a7 == 5 then Some([LocalFenceI])
    else if a7 == 6 || a7 == 7 then Some([LocalFenceVma])
    else if a7 == 8 || (a7 == EXT_SRST && a6 == 0) then None
    else if a7 == EXT_IPI && a6 == 0 then Some(Ipis(a0, a1, 0))
    else if a7 == EXT_RFENCE && a6 == 0 then Some([LocalFenceI])
    else if a7 == EXT_RFENCE && a6 <= 2 then Some([LocalFenceVma])
    else Some([])
  }

  // ----- the platform -----

  // `todo` is what the firmware has still to do; `deadline` is the last one the supervisor asked for.
  datatype Platform = Platform(hart: Hart, clint: Registers, todo: seq<Op>, deadline: Option<u64>)

  datatype RelayEvent =
    | GuestRun(pc: bv32)
    | GuestWrite(c: Csr, op: CsrOp, named: bool, operand: bv32)
    | GuestException(number: bv32, tval: bv32)
    | GuestSret
    | Sbi(a7: u32, a6: u32, a0: bv32, a1: u32)
    | Firmware
    | Boundary(ticks: u64, devices: bv32)
    | Idle(devices: bv32)

  predicate SupervisorCsr(c: Csr) {
    c.SSTATUS? || c.SIP? || c.SIE? || c.SATP? || c.SEPC? || c.SCAUSE? || c.STVAL? || c.STVEC?
  }

  // The external lines come from the interrupt controller, the other two from the CLINT.
  function DeviceLines(devices: bv32, due: bool, bell: bool): bv32 {
    (devices & 0xa00) | Put(due, 0x80) | Put(bell, 0x8)
  }

  function RefreshAll(h: Hart, c: Registers, devices: bv32): Hart
    requires c.Valid()
  {
    Refresh(h, DeviceLines(devices, TimerDue(c, 0), c.msip[0] != 0))
  }

  const CLINT_SIZE: nat := 0x10000

  // A machine-mode word store at an offset from the CLINT base; beyond the device it goes elsewhere.
  function Store(c: Registers, offset: u32, v: u32): (r: Registers)
    requires c.Valid()
    ensures r.Valid() && r.nrHarts == c.nrHarts
  {
    if offset < CLINT_SIZE then Write(c, offset, 4, v) else c
  }

  function Do(h: Hart, c: Registers, op: Op): Option<(Hart, Registers)>
    requires c.Valid()
  {
    match op
    case StoreCompare(high, v) => Some((h, Store(c, if high then REG_MTIMECMP + 4 else REG_MTIMECMP, v)))
    case StoreDoorbell(hart, v) => Some((h, Store(c, Wrap(4 * hart), v)))
    case ClearMip(bits) => Some((CsrInstruction(h, MIP, ClearBits, true, bits), c))
    case SetMip(bits) => Some((CsrInstruction(h, MIP, SetBits, true, bits), c))
    case ClearMie(bits) => Some((CsrInstruction(h, MIE, ClearBits, true, bits), c))
    case SetMie(bits) => Some((CsrInstruction(h, MIE, SetBits, true, bits), c))
    case LocalFenceI => Some((FlushCache(h), c))
    case LocalFenceVma => Some((SfenceVma(h), c))
    case SkipEcall => Some((h.(csrs := h.csrs.(mepc := h.csrs.mepc + 4)), c))
    case Return =>
      match Mret(h)
      case None => None
      case Some(h') => Some((h', c))
  }

  // Something pending is enabled, whether or not it can be taken now.
  predicate Wakes(h: Hart) {
    h.mip & h.mie != 0
  }

  // One turn of the idle loop is one `Idle`.  `None` when the event cannot happen here, halts the machine or overflows the clock.
  function Proceed(w: Platform, e: RelayEvent): (r: Option<Platform>)
    requires w.clint.Valid()
    ensures r.Some? ==> r.value.clint.Valid()
  {
    match e
    case GuestRun(pc) => if w.hart.level < MACHINE then Some(w.(hart := w.hart.(pc := pc))) else None
    case GuestWrite(c, op, named, operand) =>
      if w.hart.level < MACHINE && SupervisorCsr(c) then Some(w.(hart := CsrInstruction(w.hart, c, op, named, operand))) else None
    case GuestException(number, tval) =>
      if w.hart.level < MACHINE && number < 16 && ExceptionTarget(w.hart, number) == SUPERVISOR then
        match RaiseException(w.hart, number, tval)
        case None => None
        case Some(h) => Some(w.(hart := h))
      else None
    case GuestSret =>
      if w.hart.level == SUPERVISOR then
        match Sret(w.hart)
        case None => None
        case Some(h) => Some(w.(hart := h))
      else None
    case Sbi(a7, a6, a0, a1) =>
      if w.hart.level == SUPERVISOR && Ecall(w.hart).Some? && Dispatch(a7, a6, a0, a1).Some? then
        Some(Platform(Ecall(w.hart).value, w.clint, Dispatch(a7, a6, a0, a1).value + [SkipEcall, Return],
                   if SetsTimer(a7, a6) then Some((a0 as int) + a1 * TWO32) else w.deadline))
      else None
    case Firmware =>
      if w.hart.level == MACHINE && w.todo != [] then
        match Do(w.hart, w.clint, w.todo[0])
        case None => None
        case Some((h, c)) => Some(Platform(h, c, w.todo[1..], w.deadline))
      else None
    case Boundary(ticks, devices) =>
      if w.clint.mtime + ticks < TWO64 then Deliver(w.(clint := Tick(w.clint, ticks)), devices) else None
    case Idle(devices) =>
      if w.hart.level < MACHINE then
        var h := RefreshAll(w.hart, w.clint, devices);
        Some(w.(clint := if Wakes(h) then w.clint else Skip(w.clint).0, hart := h))
      else None
  }

  // The rest of the pump: refresh the pending bits and take an interrupt that is due.
  function Deliver(w: Platform, devices: bv32): (r: Option<Platform>)
    requires w.clint.Valid()
    ensures r.Some? ==> r.value.clint == w.clint
  {
    var h := RefreshAll(w.hart, w.clint, devices);
    match FirstDeliverable(h, DELIVERY_ORDER)
    case None => Some(w.(hart := h))
    case Some(v) =>
      match DeliverPending(h)
      case None => None
      case Some(h') =>
        if h'.level != MACHINE then Some(w.(hart := h'))
        else
          match HandleInterrupt(h'.csrs.mcause & 0xff)
          case None => None
          case Some(ops) => Some(w.(hart := h', todo := ops))
  }

  // ----- the invariant -----

  // What the relay depends on.
  datatype Relay = Relay(cmp: u64, mtie: bool, stip: bool)

  function RelayOf(w: Platform): Relay
    requires w.clint.Valid()
  {
    Relay(w.clint.mtimecmp[0], Has(w.hart.mie, MTIE), Has(w.hart.mip, STIP))
  }

  function Effect(op: Op, r: Relay): Relay {
    match op
    case StoreCompare(high, v) => r.(cmp := if high then WithHi(r.cmp, v) else WithLo(r.cmp, v))
    case ClearMip(bits) => r.(stip := r.stip && !Has(bits, STIP))
    case SetMip(bits) => r.(stip := r.stip || Has(bits, STIP))
    case ClearMie(bits) => r.(mtie := r.mtie && !Has(bits, MTIE))
    case SetMie(bits) => r.(mtie := r.mtie || Has(bits, MTIE))
    case _ => r
  }

  function Effects(ops: seq<Op>, r: Relay): Relay {
    if ops == [] then r else Effects(ops[1..], Effect(ops[0], r))
  }

  // A doorbell store that misses the comparator and the clock.
  predicate Harmless(op: Op) {
    op.StoreDoorbell? ==>
      var offset := Wrap(4 * op.hart);
      !(REG_MTIMECMP <= offset < REG_MTIMECMP + 8) && !(REG_MTIME <= offset < REG_MTIME + 8)
  }

  // A firmware program: harmless stores, no interrupt enabled for external devices, and one return at its end.
  ghost predicate Program(ops: seq<Op>) {
    && |ops| > 0 && ops[|ops| - 1] == Return
    && forall i :: 0 <= i < |ops| ==>
         Harmless(ops[i]) && (ops[i] == Return ==> i == |ops| - 1) && (ops[i].SetMie? ==> ops[i].bits == MTIE)
  }

  // The timer interrupt is either still to come from the comparator or handed up, and not before its time.
  ghost predicate Relayed(r: Relay, mtime: u64, d: u64) {
    r.cmp == d && r.mtie != r.stip && (r.stip ==> mtime >= d)
  }

  ghost predicate Configured(h: Hart) {
    Legal(h) && h.mideleg == 0x222 && h.csrs.medeleg & 0x200 == 0 && !Has(h.mie, MEIE)
  }

  ghost predicate Inv(w: Platform) {
    && w.clint.Valid() && w.clint.nrHarts >= 1 && Configured(w.hart)
    && (if w.hart.level == MACHINE then !w.hart.status.mie && w.hart.status.mpp < RESERVED && Program(w.todo) else w.todo == [])
    && (w.deadline.Some? ==> Relayed(Effects(w.todo, RelayOf(w)), w.clint.mtime, w.deadline.value))
  }

  // ----- bits -----

  // The bit `b` of a register after csrs or csrc with `bits`.
  predicate SetOrCleared(op: CsrOp, current: bv32, v: bv32, bits: bv32, b: bv32) {
    Has(v, b) <==> if op == SetBits then Has(current, b) || Has(bits, b) else Has(current, b) && !Has(bits, b)
  }

  lemma MieBits(current: bv32, op: CsrOp, bits: bv32)
    requires op != ReplaceBits && !Has(current, MEIE) && (op == SetBits ==> bits == MTIE)
    ensures var v := CsrValue(current, op, bits, Mask(MIE)); !Has(v, MEIE) && SetOrCleared(op, current, v, bits, MTIE)
  {
  }

  lemma MipBits(current: bv32, op: CsrOp, bits: bv32)
    requires op != ReplaceBits
    ensures SetOrCleared(op, current, MergeMip(current, CsrValue(current, op, bits, Mask(MIP))), bits, STIP)
  {
  }

  lemma SipKeepsStip(current: bv32, v: bv32)
    ensures MergeSip(current, v) & STIP == current & STIP
  {
  }

  lemma SieKeepsMachineEnables(current: bv32, v: bv32)
    ensures MergeSie(current, v) & MTIE == current & MTIE
    ensures MergeSie(current, v) & MEIE == current & MEIE
  {
  }

  lemma GuestBits(current: bv32, v: bv32)
    ensures Has(MergeSip(current, v), STIP) == Has(current, STIP)
    ensures Has(MergeSie(current, v), MTIE) == Has(current, MTIE) && Has(MergeSie(current, v), MEIE) == Has(current, MEIE)
  {
    hide MergeSip, MergeSie;
    SipKeepsStip(current, v);
    SieKeepsMachineEnables(current, v);
  }

  lemma RefreshBits(current: bv32, devices: bv32, due: bool, bell: bool)
    ensures var r := Latch(current, DeviceLines(devices, due, bell));
      Has(r, STIP) == Has(current, STIP) && (Has(r, 0x80) <==> due)
  {
  }

  // ----- frames -----

  // What the relay needs to know of a hart, besides its level.
  ghost predicate SameRelayState(h: Hart, h': Hart) {
    Has(h'.mip, STIP) == Has(h.mip, STIP) && Has(h'.mie, MTIE) == Has(h.mie, MTIE) && Has(h'.mie, MEIE) == Has(h.mie, MEIE)
    && h'.mideleg == h.mideleg && h'.csrs.medeleg == h.csrs.medeleg
  }

  lemma SameConfigured(h: Hart, h': Hart)
    requires Configured(h) && Legal(h') && SameRelayState(h, h')
    ensures Configured(h')
  {
  }

  lemma TrapFrame(h: Hart, target: Level, cause: bv32, tval: bv32)
    requires target == MACHINE || target == SUPERVISOR
    ensures var r := RaiseTrap(h, target, cause, tval);
      && r.Some? && SameRelayState(h, r.value)
      && (target == MACHINE ==> !r.value.status.mie && r.value.status.mpp == h.level && r.value.csrs.mcause == cause)
  {
    hide Vector, AddressSpaceTag, FlushOnChange;
    FlushLeavesMore(MachineTrap(h, cause, tval), AddressSpaceTag(h));
    FlushLeavesMore(SupervisorTrap(h, cause, tval), AddressSpaceTag(h));
  }

  lemma FlushLeavesMore(h: Hart, tag: bv32)
    ensures var r := FlushOnChange(h, tag);
      r.status == h.status && r.csrs == h.csrs && r.mip == h.mip && r.mie == h.mie && r.mideleg == h.mideleg && r.level == h.level
  {
    hide AddressSpaceTag;
  }

  lemma SretFrame(h: Hart)
    requires h.level == SUPERVISOR && Sret(h).Some?
    ensures SameRelayState(h, Sret(h).value) && Sret(h).value.level < MACHINE
  {
    hide AddressSpaceTag, FlushOnChange, RaiseException;
    FlushLeavesMore(SupervisorReturn(h), AddressSpaceTag(h));
  }

  lemma MretFrame(h: Hart)
    requires h.level == MACHINE && h.status.mpp < RESERVED
    ensures Mret(h).Some? && SameRelayState(h, Mret(h).value) && Mret(h).value.level == h.status.mpp
  {
    hide AddressSpaceTag, FlushOnChange, RaiseException;
    FlushLeavesMore(MachineReturn(h), AddressSpaceTag(h));
  }

  lemma AdvanceFrame(h: Hart)
    ensures var r := HartTrap.Advance(h);
      r.level == h.level && r.status == h.status && r.mip == h.mip && r.mie == h.mie && r.mideleg == h.mideleg && r.csrs == h.csrs
  {
  }

  lemma SipFrame(h: Hart, v: bv32)
    ensures SameRelayState(h, h.(mip := MergeSip(h.mip, v))) && SameRelayState(h, h.(mie := MergeSie(h.mie, v)))
  {
    hide MergeSip, MergeSie, Has;
    GuestBits(h.mip, v);
    GuestBits(h.mie, v);
  }

  lemma FieldFrame(h: Hart, s: Status)
    ensures SameRelayState(h, h.(status := s))
  {
    hide Has;
  }

  lemma SatpFrame(h: Hart, v: bv32)
    ensures SameRelayState(h, WriteSatp(h, v))
  {
    hide Has;
  }

  lemma BlobFrame(h: Hart, c: Csr, v: bv32)
    requires c != MEDELEG
    ensures SameRelayState(h, h.(csrs := WriteBlob(h.csrs, c, v)))
  {
    hide Has, WriteBlob;
    BlobKeepsMedeleg(h.csrs, c, v);
  }

  lemma BlobKeepsMedeleg(b: Blobs, c: Csr, v: bv32)
    requires c != MEDELEG
    ensures WriteBlob(b, c, v).medeleg == b.medeleg
  {
    match c
    case MEPC => case MCAUSE => case MTVAL => case MTVEC =>
    case SEPC => case SCAUSE => case STVAL => case STVEC => case _ =>
  }

  lemma WrittenFrame(h: Hart, c: Csr, v: bv32)
    requires SupervisorCsr(c)
    ensures SameRelayState(h, WriteCsr(h, c, v))
  {
    hide SameRelayState, MergeSip, MergeSie, UnpackSstatus, WriteSatp, WriteBlob;
    match c
    case SSTATUS => FieldFrame(h, UnpackSstatus(h.status, v));
    case SIP => SipFrame(h, v);
    case SIE => SipFrame(h, v);
    case SATP => SatpFrame(h, v);
    case _ => BlobFrame(h, c, v);
  }

  lemma GuestWriteFrame(h: Hart, c: Csr, op: CsrOp, named: bool, operand: bv32)
    requires SupervisorCsr(c)
    ensures SameRelayState(h, CsrInstruction(h, c, op, named, operand))
  {
    hide CsrValue, Mask, ReadCsr, WriteCsr, HartTrap.Advance, SameRelayState;
    WrittenFrame(h, c, CsrValue(ReadCsr(h, c), op, operand, Mask(c)));
    StillFrame(h);
    AdvancedFrame(h, ModifyCsr(h, c, op, named, operand));
  }

  lemma StillFrame(h: Hart)
    ensures SameRelayState(h, h)
  {
    hide Has;
  }

  lemma AdvancedFrame(h: Hart, h': Hart)
    requires SameRelayState(h, h')
    ensures SameRelayState(h, HartTrap.Advance(h'))
  {
    hide Has, HartTrap.Advance;
    AdvanceFrame(h');
  }

  // A firmware write to mie or mip.
  lemma FirmwareWriteFrame(h: Hart, c: Csr, op: CsrOp, bits: bv32)
    requires (c == MIE || c == MIP) && op != ReplaceBits && !Has(h.mie, MEIE) && (c == MIE && op == SetBits ==> bits == MTIE)
    ensures var h' := CsrInstruction(h, c, op, true, bits);
      && h'.level == h.level && h'.status == h.status && h'.mideleg == h.mideleg && h'.csrs == h.csrs && !Has(h'.mie, MEIE)
      && (c == MIE ==> h'.mip == h.mip && SetOrCleared(op, h.mie, h'.mie, bits, MTIE))
      && (c == MIP ==> h'.mie == h.mie && SetOrCleared(op, h.mip, h'.mip, bits, STIP))
  {
    hide CsrValue, Mask, MergeMip, MergeSip, MergeSie, UnpackSstatus, UnpackStatus, HartTrap.Advance, SetOrCleared;
    if c == MIE {
      MieBits(h.mie, op, bits);
    } else {
      MipBits(h.mip, op, bits);
    }
    AdvanceFrame(WriteCsr(h, c, CsrValue(ReadCsr(h, c), op, bits, Mask(c))));
  }

  // ----- the firmware's programs -----

  lemma {:induction false} EffectsAppend(a: seq<Op>, b: seq<Op>, r: Relay)
    ensures Effects(a + b, r) == Effects(b, Effects(a, r))
  {
    if a == [] {
      assert a + b == b;
    } else {
      assert (a + b)[0] == a[0] && (a + b)[1..] == a[1..] + b;
      EffectsAppend(a[1..], b, Effect(a[0], r));
    }
  }

  lemma {:induction false} EffectsOfNothing(ops: seq<Op>, r: Relay)
    requires forall op :: op in ops ==> op.StoreDoorbell? || op.LocalFenceI? || op.LocalFenceVma? || op.SkipEcall? || op.Return?
    ensures Effects(ops, r) == r
  {
    if ops != [] {
      assert ops[0] in ops;
      EffectsOfNothing(ops[1..], r);
    }
  }

  /** The split stores and the two register writes make exactly the requested deadline, armed and not pending. */
  lemma SetTimerEffect(next: u64, r: Relay)
    ensures Effects(SetTimer(next) + [SkipEcall, Return], r) == Relay(next, true, false)
  {
    hide WithLo, WithHi, Lo, Hi;
    HalvesJoin(WithHi(r.cmp, 0xffff_ffff), next);
    var ops := SetTimer(next) + [SkipEcall, Return];
    assert ops[0] == StoreCompare(true, 0xffff_ffff) && ops[1..][0] == StoreCompare(false, Lo(next));
    var r1 := r.(cmp := WithLo(WithHi(r.cmp, 0xffff_ffff), Lo(next)));
    assert Effects(ops, r) == Effects(ops[1..][1..], r1);
    assert ops[1..][1..] == [StoreCompare(true, Hi(next)), ClearMip(STIP), SetMie(MTIE), SkipEcall, Return];
    FiveEffects(StoreCompare(true, Hi(next)), ClearMip(STIP), SetMie(MTIE), SkipEcall, Return, r1);
  }

  lemma FiveEffects(a: Op, b: Op, c: Op, d: Op, e: Op, r: Relay)
    ensures Effects([a, b, c, d, e], r) == Effect(e, Effect(d, Effect(c, Effect(b, Effect(a, r)))))
  {
    hide Effect;
    assert [a, b, c, d, e][1..] == [b, c, d, e];
    assert [b, c, d, e][1..] == [c, d, e];
    ThreeEffects(c, d, e, Effect(b, Effect(a, r)));
  }

  lemma ThreeEffects(a: Op, b: Op, c: Op, r: Relay)
    ensures Effects([a, b, c], r) == Effect(c, Effect(b, Effect(a, r)))
  {
    hide Effect;
    assert [a, b, c][1..] == [b, c];
    assert [b, c][1..] == [c];
    assert [c][1..] == [];
    assert Effects([c], Effect(b, Effect(a, r))) == Effect(c, Effect(b, Effect(a, r)));
  }

  lemma InterruptEffects(r: Relay)
    ensures Effects([ClearMie(MTIE), SetMip(STIP), Return], r) == r.(mtie := false, stip := true)
    ensures Effects([StoreDoorbell(0, 0), SetMip(SSIP), Return], r) == r
  {
    hide Effects;
    ThreeEffects(ClearMie(MTIE), SetMip(STIP), Return, r);
    ThreeEffects(StoreDoorbell(0, 0), SetMip(SSIP), Return, r);
  }

  lemma ProgramTail(ops: seq<Op>)
    requires Program(ops)
    ensures ops[0] == Return <==> |ops| == 1
    ensures |ops| > 1 ==> Program(ops[1..])
  {
    if |ops| > 1 {
      var rest := ops[1..];
      forall i | 0 <= i < |rest|
        ensures Harmless(rest[i]) && (rest[i] == Return ==> i == |rest| - 1) && (rest[i].SetMie? ==> rest[i].bits == MTIE)
      {
        assert rest[i] == ops[i + 1];
      }
    }
  }

  // The store goes to a doorbell register, which is where `CLINT_BASE + 4 * hart` is meant to lie.
  predicate RingsDoorbell(hart: u32) {
    Wrap(4 * hart) < 4 * MAX_NR_HARTS
  }

  // The call names only harts that have a doorbell.
  predicate InRange(e: RelayEvent) {
    e.Sbi? && e.a7 == EXT_IPI && e.a6 == 0 ==> forall i :: 0 <= i < 32 && Rings(e.a0, i) ==> RingsDoorbell(Wrap(e.a1 + i))
  }

  lemma DoorbellIsHarmless(hart: u32, v: u32)
    requires RingsDoorbell(hart)
    ensures Harmless(StoreDoorbell(hart, v))
  {
  }
}
