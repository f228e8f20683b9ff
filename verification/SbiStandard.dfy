/**
 The firmware from the guest's side, by the numbers of the RISC-V Supervisor Binary Interface: what a call and a
 machine interrupt leave behind once the firmware has carried out its program and returned.
 */
module SbiStandard {
  import opened Words
  import opened HartTrap
  import opened TrapProof
  import opened TrapBracket
  import opened TrapStandard
  import opened Clint
  import opened TimerRelay
  import opened RelayProof

  // The firmware runs its program to the end.
  function Finish(w: Platform): (r: Option<Platform>)
    requires w.clint.Valid()
    ensures r.Some? ==> r.value.clint.Valid()
    decreases |w.todo|
  {
    if w.todo == [] then Some(w)
    else
      match Proceed(w, Firmware)
      case None => None
      case Some(w') => Finish(w')
  }

  // ----- one operation -----

  // What the operations do besides the relay: the table registers, the software bit, the doorbells and the caches.
  datatype Rest = Rest(csrs: Blobs, ssip: bool, msip: seq<u32>, nrHarts: nat, tlb: set<bv32>, cache: set<Cached>)

  function RestOf(w: Platform): Rest {
    Rest(w.hart.csrs, BitSet(w.hart.mip, 1), w.clint.msip, w.clint.nrHarts, w.hart.tlb, w.hart.cache)
  }

  // The doorbell a store to `CLINT_BASE + 4 * hart` reaches.
  function Bell(hart: u32): nat {
    Wrap(4 * hart) / 4
  }

  function Does(op: Op, s: Rest): Rest {
    match op
    case StoreDoorbell(hart, v) => if Bell(hart) < s.nrHarts && Bell(hart) < |s.msip| then s.(msip := s.msip[Bell(hart) := v % 2]) else s
    case ClearMip(bits) => s.(ssip := s.ssip && !BitSet(bits, 1))
    case SetMip(bits) => s.(ssip := s.ssip || BitSet(bits, 1))
    case LocalFenceI => s.(cache := {})
    case LocalFenceVma => s.(tlb := {}, cache := {})
    case SkipEcall => s.(csrs := s.csrs.(mepc := s.csrs.mepc + 4))
    case _ => s
  }

  function AllDo(ops: seq<Op>, s: Rest): Rest {
    if ops == [] then s else AllDo(ops[1..], Does(ops[0], s))
  }

  lemma SoftwareBit(current: bv32, op: CsrOp, bits: bv32)
    requires op != ReplaceBits
    ensures BitSet(MergeMip(current, CsrValue(current, op, bits, Mask(MIP))), 1) <==>
      if op == SetBits then BitSet(current, 1) || BitSet(bits, 1) else BitSet(current, 1) && !BitSet(bits, 1)
  {
  }

  // A firmware write to mie or mip touches nothing else.
  lemma WriteRest(w: Platform, c: Csr, op: CsrOp, bits: bv32)
    requires (c == MIE || c == MIP) && op != ReplaceBits
    ensures var h := CsrInstruction(w.hart, c, op, true, bits);
      RestOf(w.(hart := h)) ==
        if c == MIP then Does(if op == SetBits then SetMip(bits) else ClearMip(bits), RestOf(w)) else RestOf(w)
  {
    if c == MIP { SoftwareBit(w.hart.mip, op, bits); }
    hide BitSet, CsrValue, Mask, MergeMip, MergeSip, MergeSie, UnpackStatus, UnpackSstatus;
  }

  lemma StoreRest(w: Platform, op: Op)
    requires w.clint.Valid() && w.clint.nrHarts >= 1 && Harmless(op) && (op.StoreCompare? || op.StoreDoorbell?)
    requires op.StoreDoorbell? ==> RingsDoorbell(op.hart)
    ensures Do(w.hart, w.clint, op).Some?
    ensures var (h, c) := Do(w.hart, w.clint, op).value; RestOf(w.(hart := h, clint := c)) == Does(op, RestOf(w))
  {
    hide BitSet, WithLo, WithHi, Lo, Hi;
  }

  // Any operation but the return does to the rest what it should.
  lemma OpRest(w: Platform, op: Op)
    requires w.clint.Valid() && w.clint.nrHarts >= 1 && Harmless(op) && op != Return
    requires op.StoreDoorbell? ==> RingsDoorbell(op.hart)
    ensures Do(w.hart, w.clint, op).Some?
    ensures var (h, c) := Do(w.hart, w.clint, op).value; RestOf(w.(hart := h, clint := c)) == Does(op, RestOf(w))
  {
    hide CsrInstruction, Store, Harmless, RingsDoorbell, BitSet, Bell;
    match op
    case StoreCompare(_, _) => StoreRest(w, op);
    case StoreDoorbell(_, _) => StoreRest(w, op);
    case ClearMip(bits) => WriteRest(w, MIP, ClearBits, bits);
    case SetMip(bits) => WriteRest(w, MIP, SetBits, bits);
    case ClearMie(bits) => WriteRest(w, MIE, ClearBits, bits);
    case SetMie(bits) => WriteRest(w, MIE, SetBits, bits);
    case LocalFenceI =>
    case LocalFenceVma =>
    case SkipEcall =>
  }

  lemma ReturnRest(h: Hart)
    requires h.level == MACHINE && h.status.mpp != RESERVED
    ensures var r := Mret(h); r.Some? && r.value.csrs == h.csrs && r.value.mip == h.mip && r.value.tlb == h.tlb && r.value.cache <= h.cache
  {
    hide AddressSpaceTag;
  }

  lemma DoReturn(h: Hart, c: Registers)
    requires c.Valid() && Mret(h).Some?
    ensures Do(h, c, Return) == Some((Mret(h).value, c))
  {
    hide Mret;
  }

  // ----- a program to its end -----

  ghost predicate InReach(ops: seq<Op>) {
    forall op :: op in ops && op.StoreDoorbell? ==> RingsDoorbell(op.hart)
  }

  // The firmware has returned to where it was called from, and all that its operations do has been done.
  ghost predicate Ended(w: Platform, r: Platform, s: Rest, relay: Relay)
    requires r.clint.Valid()
  {
    && r.todo == [] && r.deadline == w.deadline && r.clint.mtime == w.clint.mtime && RelayOf(r) == relay
    && r.hart.level == w.hart.status.mpp && r.hart.pc == s.csrs.mepc
    && r.hart.status == w.hart.status.(mie := w.hart.status.mpie, mpp := USER, mpie := true)
    && RestOf(r).(cache := s.cache) == s && r.hart.cache <= s.cache
  }

  lemma StepRest(w: Platform)
    requires Inv(w) && w.hart.level == MACHINE && InReach(w.todo) && |w.todo| > 1
    ensures Proceed(w, Firmware).Some?
    ensures var w' := Proceed(w, Firmware).value;
      && Inv(w') && w'.todo == w.todo[1..] && w'.hart.level == MACHINE && w'.hart.status == w.hart.status
      && w'.clint.mtime == w.clint.mtime && w'.deadline == w.deadline
      && RestOf(w') == Does(w.todo[0], RestOf(w)) && RelayOf(w') == Effect(w.todo[0], RelayOf(w))
  {
    hide Do, Configured, Has, Effect, Does, Relayed, Harmless, RingsDoorbell, BitSet;
    FirmwareKeeps(w);
    ProgramTail(w.todo);
    ProgramHead(w.todo);
    assert w.todo[0] in w.todo;
    OpEffect(w, w.todo[0]);
    OpRest(w, w.todo[0]);
  }

  lemma LastStep(w: Platform)
    requires Inv(w) && w.hart.level == MACHINE && |w.todo| == 1
    ensures Finish(w).Some? && Ended(w, Finish(w).value, AllDo(w.todo, RestOf(w)), Effects(w.todo, RelayOf(w)))
  {
    hide Do, Configured, Has, Effect, Relayed, Harmless, BitSet, Mret;
    ProgramTail(w.todo);
    FirmwareKeeps(w);
    OpEffect(w, Return);
    ReturnRest(w.hart);
    DoReturn(w.hart, w.clint);
    MretTaken(w.hart);
    var w' := Proceed(w, Firmware).value;
    assert w'.todo == [] && Finish(w') == Some(w');
    assert w.todo[1..] == [];
    assert AllDo(w.todo, RestOf(w)) == RestOf(w);
    assert Effects(w.todo, RelayOf(w)) == Effect(Return, RelayOf(w));
  }

  /** Any program of the firmware runs to its return, and what it leaves is what its operations do one after the other. */
  lemma {:induction false} ProgramEnds(w: Platform)
    requires Inv(w) && w.hart.level == MACHINE && InReach(w.todo)
    ensures Finish(w).Some? && Ended(w, Finish(w).value, AllDo(w.todo, RestOf(w)), Effects(w.todo, RelayOf(w)))
    decreases |w.todo|
  {
    hide Proceed, Inv, RestOf, RelayOf, Does, Effect, RingsDoorbell;
    InvLegal(w);
    InvProgram(w);
    if |w.todo| == 1 {
      LastStep(w);
    } else {
      StepRest(w);
      var w' := Proceed(w, Firmware).value;
      InvLegal(w');
      assert InReach(w'.todo);
      ProgramEnds(w');
    }
  }

  // ----- calls -----

  predicate HasBit(v: bv32, i: nat)
    requires i < 32
  {
    v & ((1 as bv32) << i) != 0
  }

  // A bit of the mask from `bit` on names this doorbell; the address wraps after 2^30 harts.
  ghost predicate NamesFrom(mask: bv32, base: u32, id: nat, bit: nat) {
    exists i: nat :: bit <= i < 32 && HasBit(mask, i) && id == (base + i) % 0x4000_0000
  }

  lemma BellIs(hart: u32)
    ensures Bell(hart) == hart % 0x4000_0000
  {
    ModUnique(4 * hart, TWO32, hart / 0x4000_0000, 4 * (hart % 0x4000_0000));
  }

  lemma BellOf(base: u32, i: nat)
    requires i < 32
    ensures Bell(Wrap(base + i)) == (base + i) % 0x4000_0000
  {
    BellIs(Wrap(base + i));
  }

  // Every doorbell the mask names rings and no other.
  lemma {:induction false} IpisRing(mask: bv32, base: u32, bit: nat, s: Rest, id: nat)
    requires bit <= 32 && id < |s.msip|
    ensures var r := AllDo(Ipis(mask, base, bit), s);
      && r == s.(msip := r.msip) && |r.msip| == |s.msip|
      && r.msip[id] == if id < s.nrHarts && NamesFrom(mask, base, id, bit) then 1 else s.msip[id]
    decreases 32 - bit
  {
    hide Bell, HasBit, Rings, NamesFrom, AllDo;
    if bit == 32 {
      NamesNone(mask, base, id);
      NothingDone([], s);
    } else {
      BellOf(base, bit);
      NamesHead(mask, base, id, bit);
      var rest := Ipis(mask, base, bit + 1);
      if Rings(mask, bit) {
        var op := StoreDoorbell(Wrap(base + bit), 1);
        assert Ipis(mask, base, bit) == [op] + rest;
        DoAppend([op], rest, s);
        OneDoes(op, s);
        IpisRing(mask, base, bit + 1, Does(op, s), id);
      } else {
        assert Ipis(mask, base, bit) == [] + rest == rest;
        IpisRing(mask, base, bit + 1, s, id);
      }
    }
  }

  lemma NamesNone(mask: bv32, base: u32, id: nat)
    ensures !NamesFrom(mask, base, id, 32)
  {
  }

  lemma NamesHead(mask: bv32, base: u32, id: nat, bit: nat)
    requires bit < 32
    ensures Rings(mask, bit) <==> HasBit(mask, bit)
    ensures NamesFrom(mask, base, id, bit) <==> (Rings(mask, bit) && id == (base + bit) % 0x4000_0000) || NamesFrom(mask, base, id, bit + 1)
  {
    assert Rings(mask, bit) <==> HasBit(mask, bit);
    hide Rings, HasBit;
    if NamesFrom(mask, base, id, bit) {
      var i: nat :| bit <= i < 32 && HasBit(mask, i) && id == (base + i) % 0x4000_0000;
      if i > bit { assert NamesFrom(mask, base, id, bit + 1); }
    }
  }

  lemma {:induction false} DoAppend(a: seq<Op>, b: seq<Op>, s: Rest)
    ensures AllDo(a + b, s) == AllDo(b, AllDo(a, s))
  {
    hide Does;
    if a == [] {
      assert a + b == b;
    } else {
      assert (a + b)[0] == a[0] && (a + b)[1..] == a[1..] + b;
      DoAppend(a[1..], b, Does(a[0], s));
    }
  }

  lemma OneDoes(op: Op, s: Rest)
    ensures AllDo([op], s) == Does(op, s)
  {
    hide Does;
    assert [op][1..] == [];
  }

  lemma {:induction false} NothingDone(ops: seq<Op>, s: Rest)
    requires forall op :: op in ops ==> Does(op, s) == s
    ensures AllDo(ops, s) == s
  {
    hide Does;
    if ops != [] {
      assert ops[0] in ops;
      NothingDone(ops[1..], s);
    }
  }

  lemma SkipDoes(s: Rest)
    ensures AllDo([SkipEcall, Return], s) == s.(csrs := s.csrs.(mepc := s.csrs.mepc + 4))
  {
    var s1 := s.(csrs := s.csrs.(mepc := s.csrs.mepc + 4));
    assert [SkipEcall, Return] == [SkipEcall] + [Return];
    DoAppend([SkipEcall], [Return], s);
    OneDoes(SkipEcall, s);
    OneDoes(Return, s1);
  }

  lemma SetTimerDoes(next: u64, s: Rest)
    ensures AllDo(SetTimer(next), s) == s
  {
    assert !BitSet(STIP, 1);
    hide BitSet, Lo, Hi;
    NothingDone(SetTimer(next), s);
  }

  // ----- calls by their numbers -----

  ghost predicate ArmsTimer(a7: u32, a6: u32) {
    a7 == 0 || (a7 == 0x54494d45 && a6 == 0)
  }

  predicate Halts(a7: u32, a6: u32) {
    a7 == 8 || (a7 == 0x53525354 && a6 == 0)
  }

  ghost predicate RingsBell(a7: u32, a6: u32, a0: bv32, a1: u32, id: nat) {
    (a7 == 4 && id == 0) || (a7 == 0x735049 && a6 == 0 && NamesFrom(a0, a1, id, 0))
  }

  predicate FencesCode(a7: u32, a6: u32) {
    a7 == 5 || (a7 == 0x52464e43 && a6 == 0)
  }

  predicate FencesPages(a7: u32, a6: u32) {
    a7 == 6 || a7 == 7 || (a7 == 0x52464e43 && (a6 == 1 || a6 == 2))
  }

  // What a call leaves of the rest.
  ghost predicate Served(a7: u32, a6: u32, a0: bv32, a1: u32, s: Rest, r: Rest) {
    && r.csrs == s.csrs && r.nrHarts == s.nrHarts && |r.msip| == |s.msip|
    && (r.ssip <==> s.ssip && a7 != 3)
    && (forall id :: 0 <= id < |s.msip| ==> r.msip[id] == if id < s.nrHarts && RingsBell(a7, a6, a0, a1, id) then 1 else s.msip[id])
    && r.tlb == (if FencesPages(a7, a6) then {} else s.tlb)
    && r.cache <= (if FencesPages(a7, a6) || FencesCode(a7, a6) then {} else s.cache)
  }

  lemma HaltsIsExact(a7: u32, a6: u32, a0: bv32, a1: u32)
    ensures Dispatch(a7, a6, a0, a1) == None <==> Halts(a7, a6)
    ensures SetsTimer(a7, a6) <==> ArmsTimer(a7, a6)
  {
    hide SetTimer, Ipis;
  }

  lemma CallServed(a7: u32, a6: u32, a0: bv32, a1: u32, s: Rest)
    requires !Halts(a7, a6) && 1 <= s.nrHarts <= |s.msip|
    ensures Dispatch(a7, a6, a0, a1).Some? && Served(a7, a6, a0, a1, s, AllDo(Dispatch(a7, a6, a0, a1).value, s))
  {
    hide SetTimer, Ipis, AllDo, NamesFrom, BitSet, Bell, Does;
    if SetsTimer(a7, a6) {
      SetTimerDoes((a0 as int) + a1 * TWO32, s);
    } else if a7 == EXT_IPI && a6 == 0 {
      IpisServed(a0, a1, s);
    } else {
      PlainServed(a7, a6, a0, a1, s);
    }
  }

  lemma IpisServed(a0: bv32, a1: u32, s: Rest)
    requires 1 <= s.nrHarts <= |s.msip|
    ensures Served(0x735049, 0, a0, a1, s, AllDo(Ipis(a0, a1, 0), s))
  {
    hide Ipis, AllDo, NamesFrom;
    IpisRing(a0, a1, 0, s, 0);
    forall id | 0 <= id < |s.msip|
      ensures AllDo(Ipis(a0, a1, 0), s).msip[id] == if id < s.nrHarts && NamesFrom(a0, a1, id, 0) then 1 else s.msip[id]
    {
      IpisRing(a0, a1, 0, s, id);
    }
  }

  // The calls of one operation or none.
  lemma PlainServed(a7: u32, a6: u32, a0: bv32, a1: u32, s: Rest)
    requires !Halts(a7, a6) && !SetsTimer(a7, a6) && !(a7 == EXT_IPI && a6 == 0) && 1 <= s.nrHarts <= |s.msip|
    ensures Dispatch(a7, a6, a0, a1).Some? && Served(a7, a6, a0, a1, s, AllDo(Dispatch(a7, a6, a0, a1).value, s))
  {
    hide SetTimer, Ipis, AllDo, Does, Served;
    NothingDone([], s);
    OneDoes(ClearMip(SSIP), s);
    OneDoes(StoreDoorbell(0, 1), s);
    OneDoes(LocalFenceI, s);
    OneDoes(LocalFenceVma, s);
    PlainDoes(s);
    OneServed(a7, a6, a0, a1, s);
  }

  lemma OneServed(a7: u32, a6: u32, a0: bv32, a1: u32, s: Rest)
    requires 1 <= s.nrHarts <= |s.msip| && !(a7 == 0x735049 && a6 == 0)
    ensures Served(a7, a6, a0, a1, s,
                   if a7 == 3 then s.(ssip := false)
                   else if a7 == 4 then s.(msip := s.msip[0 := 1])
                   else if FencesCode(a7, a6) then s.(cache := {})
                   else if FencesPages(a7, a6) then s.(tlb := {}, cache := {})
                   else s)
  {
    hide NamesFrom;
  }

  lemma PlainDoes(s: Rest)
    requires 1 <= s.nrHarts <= |s.msip|
    ensures Does(ClearMip(SSIP), s) == s.(ssip := false)
    ensures Does(StoreDoorbell(0, 1), s) == s.(msip := s.msip[0 := 1])
    ensures Does(LocalFenceI, s) == s.(cache := {}) && Does(LocalFenceVma, s) == s.(tlb := {}, cache := {})
  {
    assert BitSet(SSIP, 1);
    BellIs(0);
    hide BitSet, Bell;
  }

  lemma CallInReach(e: RelayEvent)
    requires e.Sbi? && InRange(e) && !Halts(e.a7, e.a6)
    ensures InReach(Dispatch(e.a7, e.a6, e.a0, e.a1).value + [SkipEcall, Return])
  {
    hide Rings, RingsDoorbell, Ipis, SetTimer;
    assert RingsDoorbell(0) by { BootDoorbell(); }
    SetTimerQuiet((e.a0 as int) + e.a1 * TWO32);
    IpisAreDoorbells(e.a0, e.a1, 0);
  }

  lemma BootDoorbell()
    ensures RingsDoorbell(0)
  {
  }

  lemma SetTimerQuiet(next: u64)
    ensures forall op :: op in SetTimer(next) ==> !op.StoreDoorbell?
  {
  }

  // The trap a supervisor call takes on this platform.
  lemma CallTaken(h: Hart)
    requires Configured(h) && h.level == SUPERVISOR
    ensures Ecall(h).Some? && TakenBy(h, Ecall(h).value, MACHINE, 9, 0)
  {
    assert !BitSet(h.csrs.medeleg, 9);
    hide Has, BitSet, RaiseException, Ecall, TakenBy;
    CausesOfCalls(h);
    DelegationIsExact(h, 9, 0);
  }

  // The firmware is entered with the call's program in front of it.
  lemma CallStarts(w: Platform, e: RelayEvent)
    requires Inv(w) && w.hart.level == SUPERVISOR && e.Sbi? && InRange(e)
    ensures Proceed(w, e).Some? <==> !Halts(e.a7, e.a6)
    ensures Proceed(w, e).Some? ==>
      var w1 := Proceed(w, e).value;
      && Inv(w1) && w1.todo == Dispatch(e.a7, e.a6, e.a0, e.a1).value + [SkipEcall, Return] && w1.clint == w.clint
      && TakenBy(w.hart, w1.hart, MACHINE, 9, 0)
  {
    hide Dispatch, Inv, Ecall, TakenBy, InRange, SetsTimer, Configured;
    InvLegal(w);
    InvConfigured(w);
    CallTaken(w.hart);
    HaltsIsExact(e.a7, e.a6, e.a0, e.a1);
    if !Halts(e.a7, e.a6) { SbiKeeps(w, e); }
  }

  // What the trap of a call does to the rest and to the relay.
  lemma TakenRest(w: Platform, w1: Platform, cause: bv32)
    requires w.clint.Valid() && w1.clint == w.clint && TakenBy(w.hart, w1.hart, MACHINE, cause, 0)
    ensures RestOf(w1) == RestOf(w).(csrs := w.hart.csrs.(mcause := cause, mtval := 0, mepc := w.hart.pc), cache := w1.hart.cache)
    ensures w1.hart.cache <= w.hart.cache && RelayOf(w1) == RelayOf(w)
    ensures w1.hart.level == MACHINE && w1.hart.status == w.hart.status.(mpp := w.hart.level, mpie := w.hart.status.mie, mie := false)
  {
    hide EntryPc, BitSet, Has;
  }

  // Where the firmware returns from a trap taken below machine mode: to the level and enables it was taken with.
  ghost predicate BackFrom(h: Hart, r: Hart) {
    r.level == h.level && r.status == h.status.(mpp := 0, mpie := true)
  }

  /**
   A supervisor call other than a shutdown returns behind the ecall with cause 9 recorded, whatever doorbells it
   names rung and no other, the fences it asks for done, the software bit cleared by call 3 only, and the timer armed by the
   two timer calls only, which leave exactly the deadline in the comparator, MTIE set and STIP clear.
   */
  lemma CallReturns(w: Platform, e: RelayEvent)
    requires Inv(w) && w.hart.level == 1 && e.Sbi? && InRange(e)
    ensures Proceed(w, e).Some? <==> !Halts(e.a7, e.a6)
    ensures Proceed(w, e).Some? ==>
      var r := Finish(Proceed(w, e).value);
      && r.Some? && r.value.todo == [] && r.value.clint.mtime == w.clint.mtime
      && BackFrom(w.hart, r.value.hart) && r.value.hart.pc == w.hart.pc + 4
      && RestOf(r.value).csrs == w.hart.csrs.(mcause := 9, mtval := 0, mepc := w.hart.pc + 4)
      && Served(e.a7, e.a6, e.a0, e.a1, RestOf(w), RestOf(r.value).(csrs := w.hart.csrs))
      && RelayOf(r.value) == if ArmsTimer(e.a7, e.a6) then Relay((e.a0 as int) + e.a1 * 0x1_0000_0000, true, false) else RelayOf(w)
  {
    hide Proceed, Dispatch, Inv, Finish, AllDo, Effects, InReach, TakenBy, RelayOf, InRange, RingsBell, BitSet;
    InvLegal(w);
    CallStarts(w, e);
    if Proceed(w, e).Some? {
      var w1 := Proceed(w, e).value;
      InvLegal(w1);
      TakenRest(w, w1, 9);
      CallInReach(e);
      ProgramEnds(w1);
      HaltsIsExact(e.a7, e.a6, e.a0, e.a1);
      CallPlan(e, RelayOf(w1));
      var ops := Dispatch(e.a7, e.a6, e.a0, e.a1).value;
      InvHarts(w1);
      CallServed(e.a7, e.a6, e.a0, e.a1, RestOf(w1));
      DoAppend(ops, [SkipEcall, Return], RestOf(w1));
      SkipDoes(AllDo(ops, RestOf(w1)));
    }
  }

  lemma InvHarts(w: Platform)
    requires Inv(w)
    ensures 1 <= w.clint.nrHarts <= |w.clint.msip| == 64
  {
    hide Has, Relayed, Configured, Program;
  }

  // ----- interrupts -----

  lemma SoftwareStays(current: bv32, devices: bv32, due: bool, bell: bool)
    ensures var r := Latch(current, DeviceLines(devices, due, bell)); (BitSet(r, 1) <==> BitSet(current, 1)) && (BitSet(r, 3) <==> bell)
  {
  }

  lemma RefreshRest(w: Platform, devices: bv32)
    requires w.clint.Valid()
    ensures var w1 := Refreshed(w, w.clint, devices);
      RestOf(w1) == RestOf(w) && (BitSet(w1.hart.mip, 3) <==> w.clint.msip[0] != 0)
      && w1.hart.pc == w.hart.pc && w1.hart.level == w.hart.level && w1.hart.status == w.hart.status && w1.hart.mie == w.hart.mie
  {
    hide BitSet, TimerDue, DeviceLines, Latch;
    SoftwareStays(w.hart.mip, devices, TimerDue(w.clint, 0), w.clint.msip[0] != 0);
  }

  // The doorbell comes before the timer.
  function MachineCause(w: Platform): bv32
    requires w.clint.Valid()
  {
    if w.clint.msip[0] != 0 && BitSet(w.hart.mie, 3) then 0x8000_0003 else 0x8000_0007
  }

  lemma MachineVector(h: Hart)
    requires Configured(h) && h.level < MACHINE
    requires FirstDeliverable(h, DELIVERY_ORDER).Some? && InterruptTarget(h, FirstDeliverable(h, DELIVERY_ORDER).value) == MACHINE
    ensures FirstDeliverable(h, DELIVERY_ORDER) == Some(if BitSet(h.mip, 3) && BitSet(h.mie, 3) then 3 else 7)
  {
    hide Has, Deliverable, BitSet, FirstDeliverable, InterruptTarget;
    FirstIsDeliverable(h, DELIVERY_ORDER);
    var v := FirstDeliverable(h, DELIVERY_ORDER).value;
    assert v in DELIVERY_ORDER;
    TakenVector(h, v);
    DeliverableIsExact(h, 3);
    assert !BitSet(h.mideleg, 3) by { DoorbellNotDelegated(h); }
    assert DELIVERY_ORDER[0] == 11 && DELIVERY_ORDER[1] == 3;
  }

  lemma DoorbellNotDelegated(h: Hart)
    requires h.mideleg == 0x222
    ensures !BitSet(h.mideleg, 3)
  {
  }

  // A machine interrupt that is taken, from a refreshed platform on.
  lemma InterruptStarts(w: Platform, devices: bv32)
    requires w.clint.Valid() && w.hart.level < MACHINE && Inv(Refreshed(w, w.clint, devices))
    requires Deliver(w, devices).Some? && Deliver(w, devices).value.hart.level == MACHINE
    ensures var w1 := Deliver(w, devices).value;
      && w1.clint == w.clint && Some(w1.todo) == HandleInterrupt(MachineCause(w) & 0xff)
      && TakenBy(Refreshed(w, w.clint, devices).hart, w1.hart, MACHINE, MachineCause(w), 0)
  {
    hide Inv, TakenBy, RefreshAll, Deliverable, FirstDeliverable, InterruptTarget, BitSet, RaiseTrap, HandleInterrupt, DeliverPending, Configured;
    var h := Refreshed(w, w.clint, devices).hart;
    RefreshRest(w, devices);
    InvConfigured(Refreshed(w, w.clint, devices));
    InvLegal(Refreshed(w, w.clint, devices));
    FirstOfAll(h);
    match FirstDeliverable(h, DELIVERY_ORDER)
    case None =>
    case Some(v) =>
      PendingIs(h, v);
      TargetIs(h, v);
      TakenShows(h, DeliverPending(h).value, InterruptTarget(h, v), 0x8000_0000 | v);
      MachineVector(h);
  }

  lemma TakenShows(h: Hart, h': Hart, target: Level, cause: bv32)
    requires TakenBy(h, h', target, cause, 0)
    ensures h'.level == target && (target == MACHINE ==> h'.csrs.mcause == cause)
  {
    hide EntryPc;
  }

  lemma DoorbellDoes(s: Rest)
    requires 1 <= s.nrHarts <= |s.msip|
    ensures AllDo(DOORBELL_PLAN, s) == s.(msip := s.msip[0 := 0], ssip := true)
  {
    hide Does, AllDo;
    var rung := s.(msip := s.msip[0 := 0]);
    assert Does(StoreDoorbell(0, 0), s) == rung && Does(SetMip(SSIP), rung) == rung.(ssip := true) by { HandlerDoes(s, rung); }
    assert DOORBELL_PLAN == [StoreDoorbell(0, 0)] + ([SetMip(SSIP)] + [Return]);
    DoAppend([StoreDoorbell(0, 0)], [SetMip(SSIP)] + [Return], s);
    DoAppend([SetMip(SSIP)], [Return], rung);
    OneDoes(StoreDoorbell(0, 0), s);
    OneDoes(SetMip(SSIP), rung);
    OneDoes(Return, rung.(ssip := true));
    assert Does(Return, rung.(ssip := true)) == rung.(ssip := true) by { ReturnDoes(rung.(ssip := true)); }
  }

  lemma HandlerDoes(s: Rest, t: Rest)
    requires 1 <= s.nrHarts <= |s.msip|
    ensures Does(StoreDoorbell(0, 0), s) == s.(msip := s.msip[0 := 0]) && Does(SetMip(SSIP), t) == t.(ssip := true)
  {
    assert BitSet(SSIP, 1);
    BellIs(0);
    hide BitSet, Bell;
  }

  lemma ReturnDoes(s: Rest)
    ensures Does(Return, s) == s
  {
  }

  lemma TimerDoes(s: Rest)
    ensures AllDo(TIMER_PLAN, s) == s
  {
    assert !BitSet(STIP, 1);
    hide BitSet;
    NothingDone(TIMER_PLAN, s);
  }

  /**
   A machine interrupt taken below machine mode returns to where it was taken. It has the cause of the doorbell if
   that is rung and enabled, and then silences it and leaves the software bit set; otherwise that of the timer,
   and then leaves MTIE clear and STIP set. Nothing else changes.
   */
  lemma InterruptReturns(w: Platform, ticks: u64, devices: bv32)
    requires Inv(w) && w.hart.level < MACHINE && w.clint.mtime + ticks < TWO64
    requires var r := Proceed(w, Boundary(ticks, devices)); r.Some? && r.value.hart.level == MACHINE
    ensures var bell, r := w.clint.msip[0] != 0 && BitSet(w.hart.mie, 3), Finish(Proceed(w, Boundary(ticks, devices)).value);
      && r.Some? && r.value.todo == [] && r.value.clint.mtime == w.clint.mtime + ticks
      && BackFrom(w.hart, r.value.hart) && r.value.hart.pc == w.hart.pc
      && RestOf(r.value).csrs == w.hart.csrs.(mcause := if bell then 0x8000_0003 else 0x8000_0007, mtval := 0, mepc := w.hart.pc)
      && r.value.clint.msip == (if bell then w.clint.msip[0 := 0] else w.clint.msip)
      && (BitSet(r.value.hart.mip, 1) <==> bell || BitSet(w.hart.mip, 1))
      && RelayOf(r.value) == if bell then RelayOf(w) else RelayOf(w).(mtie := false, stip := true)
  {
    hide Inv, TakenBy, RefreshAll, BitSet, RelayOf, Deliver, Finish, AllDo, Effects, TimerDue, InReach;
    InvLegal(w);
    var c := Tick(w.clint, ticks);
    var w0 := w.(clint := c);
    RefreshKeeps(w, c, w.clint.mtime + ticks, devices);
    RefreshRest(w0, devices);
    InterruptStarts(w0, devices);
    BoundaryKeeps(w, ticks, devices);
    var w1 := Deliver(w0, devices).value;
    TakenRest(Refreshed(w, c, devices), w1, MachineCause(w0));
    InvHarts(w1);
    TimerDoes(RestOf(w1));
    DoorbellDoes(RestOf(w1));
    HandlersInReach();
    ProgramEnds(w1);
    InterruptEffects(RelayOf(w1));
  }

  lemma HandlersInReach()
    ensures InReach(TIMER_PLAN) && InReach(DOORBELL_PLAN)
    ensures HandleInterrupt(3) == Some(DOORBELL_PLAN) && HandleInterrupt(7) == Some(TIMER_PLAN)
  {
  }

  // ----- waiting -----

  // Something is pending and enabled.
  predicate Awake(h: Hart) {
    h.mip & h.mie != 0
  }

  lemma IdleTurn(w: Platform, devices: bv32)
    requires w.clint.Valid() && w.hart.level < MACHINE
    ensures var h := RefreshAll(w.hart, w.clint, devices);
      Proceed(w, Idle(devices)) == Some(w.(clint := if Awake(h) then w.clint else Skip(w.clint).0, hart := h))
  {
    hide RefreshAll, Skip;
  }

  /**
   A turn of the idle loop leaves the clock alone if an interrupt is pending and enabled once the devices are fresh.
   Otherwise some timer is due afterwards if any is armed, and no deadline still ahead has been jumped over.
   */
  lemma IdleWaits(w: Platform, devices: bv32)
    requires Inv(w) && w.hart.level < MACHINE
    ensures var r := Proceed(w, Idle(devices));
      && r.Some? && r.value.hart == RefreshAll(w.hart, w.clint, devices)
      && r.value.clint == w.clint.(mtime := r.value.clint.mtime) && r.value.clint.mtime >= w.clint.mtime
      && (Awake(r.value.hart) ==> r.value.clint == w.clint)
      && (!Awake(r.value.hart) ==>
            ((forall i :: 0 <= i < w.clint.nrHarts ==> w.clint.mtimecmp[i] == UNARMED)
             || exists i :: 0 <= i < w.clint.nrHarts && TimerDue(r.value.clint, i))
            && forall i :: 0 <= i < w.clint.nrHarts && w.clint.mtime <= w.clint.mtimecmp[i] ==> r.value.clint.mtime <= w.clint.mtimecmp[i])
  {
    hide Inv, RefreshAll, Skip, TimerDue, Proceed, Awake;
    InvLegal(w);
    IdleTurn(w, devices);
    SkipMovesClock(w.clint);
    SkipStopsAtADeadline(w.clint);
  }
}
