/** What holds over every run of traps, returns, fences, register writes and fetches. */
module TrapProof {
  import opened Words
  import opened HartTrap

  // ----- address spaces -----

  // What instruction fetches see: physical memory, and the mapping behind each satp value.
  datatype Memory = Memory(direct: bv32 -> Option<bv32>, paged: (bv32, bv32) -> Option<bv32>)

  function FetchWord(m: Memory, h: Hart, pc: bv32): Option<bv32> {
    if Paging(h) then m.paged(h.csrs.satp, pc) else m.direct(pc)
  }

  lemma TagZero(h: Hart)
    ensures AddressSpaceTag(h) == 0 <==> !Paging(h)
    ensures Paging(h) ==> AddressSpaceTag(h) == h.csrs.satp
  {
    if h.csrs.satp == 0 {
      assert h.csrs.satp & 0x8000_0000 == 0;
    }
  }

  /** The tag is zero exactly for the direct mapping, and equal tags see the same code everywhere. */
  lemma TagIdentifiesAddressSpace(m: Memory, h: Hart, h': Hart)
    ensures AddressSpaceTag(h) == 0 <==> !Paging(h)
    ensures AddressSpaceTag(h) == AddressSpaceTag(h') ==> forall pc :: FetchWord(m, h, pc) == FetchWord(m, h', pc)
  {
    hide AddressSpaceTag, Paging;
    TagZero(h);
    TagZero(h');
  }

  // Every cached translation is what a fetch would return now.
  ghost predicate Coherent(m: Memory, h: Hart) {
    forall t :: t in h.cache ==> FetchWord(m, h, t.pc) == Some(t.word)
  }

  ghost predicate TlbCurrent(h: Hart) {
    forall satp :: satp in h.tlb ==> satp == h.csrs.satp
  }

  // The levels that exist, a supervisor return level that fits its bit, and only supervisor interrupts delegated.
  predicate Legal(h: Hart) {
    h.level != RESERVED && (h.status.spp == USER || h.status.spp == SUPERVISOR) && h.mideleg & 0xffff_fddd == 0
  }

  // ----- events -----

  datatype Event =
    | Translated(pc: bv32, seen: Option<bv32>)  // a word is fetched and its block put in the cache
    | Ran(pc: bv32)                             // instructions without privileged effect
    | Called
    | Raised(number: bv32, tval: bv32)
    | MachineReturned
    | SupervisorReturned
    | Fenced                                    // sfence.vma
    | FencedI                                   // fence.i
    | Wrote(c: Csr, op: CsrOp, named: bool, operand: bv32)
    | Pumped(devices: bv32)                     // a unit boundary; the devices drive their pending bits
    | Edited(m: Memory, tables: bool)           // the guest stores into code or into page tables

  // `staleCode` and `staleTables` are up between an edit and the fence that goes with it.
  datatype World = World(m: Memory, hart: Hart, staleCode: bool, staleTables: bool)

  const DEVICE_BITS: bv32 := 0x0000_0a88

  function Latch(mip: bv32, devices: bv32): bv32 {
    (mip & !DEVICE_BITS) | (devices & DEVICE_BITS)
  }

  function Refresh(h: Hart, devices: bv32): Hart {
    h.(mip := Latch(h.mip, devices))
  }

  // What an edit of the tables leaves in the TLB is not determined, so neither is what a fetch sees.
  function Translate(w: World, pc: bv32, seen: Option<bv32>): Option<Hart> {
    var h := w.hart;
    match if w.staleTables then seen else FetchWord(w.m, h, pc)
    case Some(word) => Some(h.(cache := h.cache + {Cached(pc, word)}, tlb := if Paging(h) then h.tlb + {h.csrs.satp} else h.tlb))
    case None => if Paging(h) then RaiseException(h, INSTRUCTION_PAGE_FAULT, pc) else None
  }

  function Act(w: World, e: Event): Option<Hart> {
    match e
    case Translated(pc, seen) => Translate(w, pc, seen)
    case Ran(pc) => Some(w.hart.(pc := pc))
    case Called => Ecall(w.hart)
    case Raised(number, tval) => if number < 16 then RaiseException(w.hart, number, tval) else None
    case MachineReturned => Mret(w.hart)
    case SupervisorReturned => Sret(w.hart)
    case Fenced => Some(Advance(SfenceVma(w.hart)))
    case FencedI => Some(Advance(FlushCache(w.hart)))
    case Wrote(c, op, named, operand) => Some(CsrInstruction(w.hart, c, op, named, operand))
    case Pumped(devices) => DeliverPending(Refresh(w.hart, devices))
    case Edited(_, _) => Some(w.hart)
  }

  predicate WritesSatp(e: Event) {
    e.Wrote? && RewritesSatp(e.c, e.op, e.named)
  }

  // `None` when an assertion ends the emulator.
  function Next(w: World, e: Event): Option<World> {
    match Act(w, e)
    case None => None
    case Some(h) =>
      Some(World(if e.Edited? then e.m else w.m, h,
                 (w.staleCode && !e.FencedI? && !e.Fenced? && !WritesSatp(e)) || e.Edited?,
                 (w.staleTables && !e.Fenced? && !WritesSatp(e)) || (e.Edited? && e.tables)))
  }

  function Run(w: World, events: seq<Event>): Option<World>
    decreases |events|
  {
    if events == [] then Some(w)
    else
      match Next(w, events[0])
      case None => None
      case Some(w') => Run(w', events[1..])
  }

  ghost predicate Sound(w: World) {
    && Legal(w.hart) && TlbCurrent(w.hart)
    && (!w.staleCode && !w.staleTables ==> Coherent(w.m, w.hart))
  }

  // ----- address-space coherence -----

  // What a step that neither writes registers nor adds translations may do to the caches.
  ghost predicate Retags(h: Hart, h': Hart) {
    && h'.csrs.satp == h.csrs.satp && h'.tlb == h.tlb
    && (if AddressSpaceTag(h') == AddressSpaceTag(h) then h'.cache == h.cache else h'.cache == {})
  }

  lemma RetagsCoherent(m: Memory, h: Hart, h': Hart)
    requires Retags(h, h') && TlbCurrent(h)
    ensures TlbCurrent(h') && (Coherent(m, h) ==> Coherent(m, h'))
  {
    hide AddressSpaceTag, FetchWord;
    TagIdentifiesAddressSpace(m, h, h');
  }

  lemma MachineTrapKeeps(h: Hart, cause: bv32, tval: bv32)
    requires Legal(h)
    ensures var h' := MachineTrap(h, cause, tval); h'.csrs.satp == h.csrs.satp && h'.tlb == h.tlb && h'.cache == h.cache && Legal(h')
  {
    hide Vector;
  }

  lemma SupervisorTrapKeeps(h: Hart, cause: bv32, tval: bv32)
    requires Legal(h) && h.level <= SUPERVISOR
    ensures var h' := SupervisorTrap(h, cause, tval); h'.csrs.satp == h.csrs.satp && h'.tlb == h.tlb && h'.cache == h.cache && Legal(h')
    ensures SupervisorTrap(h, cause, tval).status.spp == h.level
  {
    hide Vector;
  }

  // Flushing on a change of tag, whatever the step in between.
  lemma FlushOnChangeRetags(h: Hart, h': Hart)
    requires h'.csrs.satp == h.csrs.satp && h'.tlb == h.tlb && h'.cache == h.cache && Legal(h')
    ensures var r := FlushOnChange(h', AddressSpaceTag(h)); Retags(h, r) && Legal(r) && r.level == h'.level
  {
    hide AddressSpaceTag;
    SameTag(h', FlushOnChange(h', AddressSpaceTag(h)));
  }

  lemma TrapRetags(h: Hart, target: Level, cause: bv32, tval: bv32)
    requires Legal(h) && (target == MACHINE || target == SUPERVISOR) && h.level <= target
    ensures var r := RaiseTrap(h, target, cause, tval);
      r.Some? && Retags(h, r.value) && Legal(r.value) && r.value.level == target
  {
    hide Legal, Retags, FlushOnChange, Vector, AddressSpaceTag;
    if target == MACHINE {
      MachineTrapKeeps(h, cause, tval);
      FlushOnChangeRetags(h, MachineTrap(h, cause, tval));
    } else {
      SupervisorTrapKeeps(h, cause, tval);
      FlushOnChangeRetags(h, SupervisorTrap(h, cause, tval));
    }
  }

  lemma ExceptionRetags(h: Hart, number: bv32, tval: bv32)
    requires Legal(h) && number < 16
    ensures var r := RaiseException(h, number, tval); r.Some? && Retags(h, r.value) && Legal(r.value) && r.value.level >= h.level
  {
    hide RaiseTrap, Retags;
    assert h.level != MACHINE ==> h.level <= SUPERVISOR;
    TrapRetags(h, ExceptionTarget(h, number), number, tval);
  }

  lemma {:induction false} FirstIsDeliverable(h: Hart, order: seq<Interrupt>)
    ensures match FirstDeliverable(h, order)
      case None => forall v :: v in order ==> !Deliverable(h, v)
      case Some(v) => exists i :: 0 <= i < |order| && order[i] == v && Deliverable(h, v)
                                  && forall j :: 0 <= j < i ==> !Deliverable(h, order[j])
    decreases |order|
  {
    hide Deliverable;
    if order != [] && !Deliverable(h, order[0]) {
      FirstIsDeliverable(h, order[1..]);
      match FirstDeliverable(h, order[1..])
      case Some(v) =>
        var i :| 0 <= i < |order| - 1 && order[1..][i] == v && Deliverable(h, v)
                 && forall j :: 0 <= j < i ==> !Deliverable(h, order[1..][j]);
        assert order[i + 1] == v;
        assert forall j :: 0 < j < i + 1 ==> order[j] == order[1..][j - 1];
      case None =>
        assert forall v :: v in order ==> v == order[0] || v in order[1..];
    }
  }

  lemma PumpRetags(h: Hart)
    requires Legal(h)
    ensures var r := DeliverPending(h); r.Some? && Retags(h, r.value) && Legal(r.value) && r.value.level >= h.level
  {
    hide RaiseTrap, Retags, FirstDeliverable, Legal;
    FirstIsDeliverable(h, DELIVERY_ORDER);
    match FirstDeliverable(h, DELIVERY_ORDER)
    case Some(v) => TrapRetags(h, InterruptTarget(h, v), 0x8000_0000 | v, 0);
    case None => assert Retags(h, h) by { RetagsSelf(h); }
  }

  lemma RetagsSelf(h: Hart)
    ensures Retags(h, h)
  {
  }

  lemma ReturnRetags(h: Hart)
    requires Legal(h)
    ensures Mret(h) == None <==> h.level == MACHINE && h.status.mpp == RESERVED
    ensures Mret(h).Some? ==> Retags(h, Mret(h).value) && Legal(Mret(h).value)
    ensures Sret(h).Some? && Retags(h, Sret(h).value) && Legal(Sret(h).value)
  {
    hide RaiseException;
    ExceptionRetags(h, ILLEGAL_INSTRUCTION, 0);
  }

  lemma CallRetags(h: Hart)
    requires Legal(h)
    ensures var r := Ecall(h); r.Some? && Retags(h, r.value) && Legal(r.value) && r.value.level >= h.level
  {
    hide RaiseException, Retags;
    ExceptionRetags(h, ECALL_FROM_UMODE, 0);
    ExceptionRetags(h, ECALL_FROM_SMODE, 0);
    ExceptionRetags(h, ECALL_FROM_MMODE, 0);
  }

  lemma RefreshRetags(h: Hart, devices: bv32)
    ensures Retags(h, Refresh(h, devices)) && (Legal(h) ==> Legal(Refresh(h, devices)))
    ensures Refresh(h, devices).level == h.level
  {
    hide AddressSpaceTag, Retags;
    SameCaches(h, Refresh(h, devices));
  }

  lemma SameTag(h: Hart, h': Hart)
    requires h'.level == h.level && h'.csrs.satp == h.csrs.satp
    ensures AddressSpaceTag(h') == AddressSpaceTag(h)
  {
  }

  lemma RetagsTrans(h: Hart, h1: Hart, h2: Hart)
    requires Retags(h, h1) && Retags(h1, h2)
    requires AddressSpaceTag(h1) == AddressSpaceTag(h)
    ensures Retags(h, h2)
  {
  }

  predicate RewritesSatp(c: Csr, op: CsrOp, named: bool) {
    c == SATP && (op == ReplaceBits || named)
  }

  lemma ModifyKeeps(h: Hart, c: Csr, op: CsrOp, named: bool, operand: bv32)
    requires Legal(h)
    ensures var h' := ModifyCsr(h, c, op, named, operand);
      && Legal(h') && h'.level == h.level
      && (if RewritesSatp(c, op, named) then h'.cache == {} && h'.tlb == {}
          else h'.csrs.satp == h.csrs.satp && h'.cache == h.cache && h'.tlb == h.tlb)
  {
    hide ReadCsr, WriteCsr, CsrValue, Mask, Legal;
    if c == MIDELEG {
      MaskedDelegation(ReadCsr(h, c), op, operand);
    }
    if op == ReplaceBits || named {
      WrittenKeeps(h, c, CsrValue(ReadCsr(h, c), op, operand, Mask(c)));
    }
  }

  // A register write keeps the hart legal; all but satp leave the caches and the address space alone.
  lemma WriteKeeps(h: Hart, c: Csr, op: CsrOp, named: bool, operand: bv32)
    requires Legal(h)
    ensures var h' := CsrInstruction(h, c, op, named, operand);
      && Legal(h') && h'.level == h.level
      && (if RewritesSatp(c, op, named) then h'.cache == {} && h'.tlb == {} else Retags(h, h'))
  {
    hide AddressSpaceTag, ModifyCsr, Legal, Retags, Advance;
    ModifyKeeps(h, c, op, named, operand);
    AdvanceKeeps(ModifyCsr(h, c, op, named, operand));
    if !RewritesSatp(c, op, named) {
      SameCaches(h, CsrInstruction(h, c, op, named, operand));
    }
  }

  lemma AdvanceKeeps(h: Hart)
    ensures var h' := Advance(h);
      && h'.level == h.level && h'.csrs == h.csrs && h'.tlb == h.tlb && h'.cache == h.cache && (Legal(h) ==> Legal(h'))
  {
  }

  lemma SameCaches(h: Hart, h': Hart)
    requires h'.level == h.level && h'.csrs.satp == h.csrs.satp && h'.tlb == h.tlb && h'.cache == h.cache
    ensures Retags(h, h')
  {
    hide AddressSpaceTag;
    SameTag(h, h');
  }

  // What a write may do to a legal hart; `satp` says that the address space is rewritten.
  ghost predicate WriteSafe(h: Hart, h': Hart, satp: bool) {
    && Legal(h') && h'.level == h.level
    && (if satp then h'.cache == {} && h'.tlb == {}
        else h'.csrs.satp == h.csrs.satp && h'.cache == h.cache && h'.tlb == h.tlb)
  }

  lemma StatusSafe(h: Hart, s: Status)
    requires Legal(h) && (s.spp == USER || s.spp == SUPERVISOR)
    ensures WriteSafe(h, h.(status := s), false)
  {
  }

  lemma PendingSafe(h: Hart, v: bv32)
    requires Legal(h)
    ensures WriteSafe(h, h.(mip := v), false) && WriteSafe(h, h.(mie := v), false)
  {
  }

  lemma DelegationSafe(h: Hart, v: bv32)
    requires Legal(h) && v & 0xffff_fddd == 0
    ensures WriteSafe(h, h.(mideleg := v), false)
  {
  }

  lemma SatpSafe(h: Hart, v: bv32)
    requires Legal(h)
    ensures WriteSafe(h, WriteSatp(h, v), true)
  {
  }

  lemma BlobSafe(h: Hart, c: Csr, v: bv32)
    requires Legal(h)
    ensures WriteSafe(h, h.(csrs := WriteBlob(h.csrs, c, v)), false)
  {
    hide WriteBlob;
    BlobKeepsSatp(h.csrs, c, v);
  }

  lemma BlobKeepsSatp(b: Blobs, c: Csr, v: bv32)
    ensures WriteBlob(b, c, v).satp == b.satp
  {
    match c
    case MEDELEG => case MEPC => case MCAUSE => case MTVAL => case MTVEC =>
    case SEPC => case SCAUSE => case STVAL => case STVEC => case _ =>
  }

  lemma BlobKeepsMepc(b: Blobs, c: Csr, v: bv32)
    requires c != MEPC
    ensures WriteBlob(b, c, v).mepc == b.mepc
  {
    match c
    case MEDELEG => case MCAUSE => case MTVAL => case MTVEC =>
    case SEPC => case SCAUSE => case STVAL => case STVEC => case _ =>
  }

  lemma BlobKeepsSepc(b: Blobs, c: Csr, v: bv32)
    requires c != SEPC
    ensures WriteBlob(b, c, v).sepc == b.sepc
  {
    match c
    case MEDELEG => case MEPC => case MCAUSE => case MTVAL => case MTVEC =>
    case SCAUSE => case STVAL => case STVEC => case _ =>
  }

  lemma WrittenKeeps(h: Hart, c: Csr, v: bv32)
    requires Legal(h) && (c == MIDELEG ==> v & 0xffff_fddd == 0)
    ensures WriteSafe(h, WriteCsr(h, c, v), c == SATP)
  {
    hide WriteSafe, UnpackStatus, UnpackSstatus, MergeMip, MergeSip, MergeSie, WriteBlob, WriteSatp, Legal;
    UnpackedSpp(h.status, v);
    match c
    case MSTATUS => StatusSafe(h, UnpackStatus(v));
    case SSTATUS => StatusSafe(h, UnpackSstatus(h.status, v));
    case MIP => PendingSafe(h, MergeMip(h.mip, v));
    case SIP => PendingSafe(h, MergeSip(h.mip, v));
    case MIE => PendingSafe(h, v);
    case SIE => PendingSafe(h, MergeSie(h.mie, v));
    case MIDELEG => DelegationSafe(h, v);
    case SATP => SatpSafe(h, v);
    case _ => BlobSafe(h, c, v);
  }

  lemma UnpackedSpp(s: Status, v: bv32)
    ensures UnpackStatus(v).spp == USER || UnpackStatus(v).spp == SUPERVISOR
    ensures UnpackSstatus(s, v).spp == USER || UnpackSstatus(s, v).spp == SUPERVISOR
  {
  }

  lemma MaskedDelegation(current: bv32, op: CsrOp, operand: bv32)
    ensures CsrValue(current, op, operand, Mask(MIDELEG)) & 0xffff_fddd == 0
  {
  }

  lemma TranslationKeeps(w: World, pc: bv32, seen: Option<bv32>)
    requires Sound(w) && Translate(w, pc, seen).Some?
    ensures var h := Translate(w, pc, seen).value;
      Legal(h) && TlbCurrent(h) && h.level >= w.hart.level && (!w.staleCode && !w.staleTables ==> Coherent(w.m, h))
  {
    hide RaiseException, AddressSpaceTag;
    if (if w.staleTables then seen else FetchWord(w.m, w.hart, pc)) == None {
      ExceptionRetags(w.hart, INSTRUCTION_PAGE_FAULT, pc);
      RetagsCoherent(w.m, w.hart, Translate(w, pc, seen).value);
    }
  }

  lemma PumpedRetags(h: Hart, devices: bv32)
    requires Legal(h)
    ensures var r := DeliverPending(Refresh(h, devices));
      r.Some? && Retags(h, r.value) && Legal(r.value) && r.value.level >= h.level
  {
    hide DeliverPending, Retags, Legal, AddressSpaceTag;
    RefreshRetags(h, devices);
    PumpRetags(Refresh(h, devices));
    SameTag(h, Refresh(h, devices));
    RetagsTrans(h, Refresh(h, devices), DeliverPending(Refresh(h, devices)).value);
  }

  // The events that leave the caches alone or retag them.
  predicate Ordinary(e: Event) {
    !e.Translated? && !e.Fenced? && !e.FencedI? && !WritesSatp(e) && !e.Edited?
  }

  lemma OrdinaryRetags(w: World, e: Event)
    requires Legal(w.hart) && Ordinary(e) && Act(w, e).Some?
    ensures Retags(w.hart, Act(w, e).value) && Legal(Act(w, e).value)
    ensures !e.MachineReturned? && !e.SupervisorReturned? ==> Act(w, e).value.level >= w.hart.level
  {
    hide RaiseException, Mret, Sret, Ecall, DeliverPending, CsrInstruction, Legal, AddressSpaceTag, Refresh;
    match e
    case Ran(pc) => SameTag(w.hart, w.hart.(pc := pc)); LegalAt(w.hart, pc);
    case Called => CallRetags(w.hart);
    case Raised(number, tval) => ExceptionRetags(w.hart, number, tval);
    case MachineReturned => ReturnRetags(w.hart);
    case SupervisorReturned => ReturnRetags(w.hart);
    case Wrote(c, op, named, operand) => WriteKeeps(w.hart, c, op, named, operand);
    case Pumped(devices) => PumpedRetags(w.hart, devices);
  }

  lemma LegalAt(h: Hart, pc: bv32)
    requires Legal(h)
    ensures Legal(h.(pc := pc))
  {
  }

  lemma NextKeepsSound(w: World, e: Event)
    requires Sound(w) && Next(w, e).Some?
    ensures Sound(Next(w, e).value)
  {
    hide Act, Legal, AddressSpaceTag, Retags, FetchWord;
    if Ordinary(e) {
      OrdinaryRetags(w, e);
      RetagsCoherent(w.m, w.hart, Act(w, e).value);
    } else {
      FlushingKeeps(w, e);
    }
  }

  lemma FlushingKeeps(w: World, e: Event)
    requires Sound(w) && !Ordinary(e) && Act(w, e).Some?
    ensures var h := Act(w, e).value;
      && Legal(h) && TlbCurrent(h) && h.level >= w.hart.level
      && (e.Translated? && !w.staleCode && !w.staleTables ==> Coherent(w.m, h))
      && (!e.Translated? && !e.Edited? ==> h.cache == {}) && (e.Edited? ==> h == w.hart)
  {
    hide CsrInstruction, Translate, Coherent, FetchWord, AddressSpaceTag;
    match e
    case Translated(pc, seen) => TranslationKeeps(w, pc, seen);
    case Wrote(c, op, named, operand) => WriteKeeps(w.hart, c, op, named, operand);
    case _ =>
  }

  /**
   Over every run of traps, returns, fences, register writes, fetches and edits, whenever no edit awaits
   its fence every cached translation is what a fetch of its pc would return now, and every TLB entry
   was walked under the satp in force.
   */
  lemma {:induction false} RunKeepsSound(w: World, events: seq<Event>)
    requires Sound(w) && Run(w, events).Some?
    ensures Sound(Run(w, events).value)
    decreases |events|
  {
    hide Next, Sound;
    if events != [] {
      NextKeepsSound(w, events[0]);
      RunKeepsSound(Next(w, events[0]).value, events[1..]);
    }
  }

  /** In every run only mret and sret lower the privilege level. */
  lemma OnlyReturnsLower(w: World, e: Event)
    requires Sound(w) && Next(w, e).Some? && Next(w, e).value.hart.level < w.hart.level
    ensures e.MachineReturned? || e.SupervisorReturned?
  {
    hide Act, Legal, AddressSpaceTag, Retags, FetchWord;
    if Ordinary(e) {
      OrdinaryRetags(w, e);
    } else {
      FlushingKeeps(w, e);
    }
  }
}
