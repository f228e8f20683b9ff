/**
 The hart object the vmm callbacks update in place.  Every method is proved against the
 function of the old state it implements, and every trap, return and register write
 keeps a legal hart legal and its translations those of the address space in force.
 */
module HartObject {
  import opened Words
  import opened HartTrap
  import opened TrapProof

  class HartState {
    var pc: bv32
    var privilegeLevel: Level
    var status: Status
    var ipending: bv32
    var ienable: bv32
    var idelegation: bv32
    var csrs: Blobs   // `csrs_base`
    var translations: set<Cached>
    var tlb: set<bv32>

    ghost function View(): Hart
      reads this
    {
      Hart(pc, privilegeLevel, status, ipending, ienable, idelegation, csrs, translations, tlb)
    }

    method Tag() returns (tag: bv32)
      ensures tag == AddressSpaceTag(View())
    {
      tag := if privilegeLevel == MACHINE || csrs.satp & 0x8000_0000 == 0 then 0 else csrs.satp;
    }

    method FlushTranslationCache()
      modifies this`translations
      ensures View() == FlushCache(old(View()))
    {
      translations := {};
    }

    method FlushOnAddressSpaceChange(previousTag: bv32)
      modifies this`translations
      ensures View() == FlushOnChange(old(View()), previousTag)
    {
      var tag := Tag();
      if tag != previousTag {
        FlushTranslationCache();
      }
    }

    method SetupMmodeTrap(cause: bv32, tval: bv32)
      modifies this
      ensures View() == MachineTrap(old(View()), cause, tval)
      ensures Legal(old(View())) ==> Legal(View())
    {
      hide Vector, Legal;
      if Legal(View()) { MachineTrapKeeps(View(), cause, tval); }
      csrs := csrs.(mcause := cause);
      csrs := csrs.(mtval := tval);
      csrs := csrs.(mepc := pc);
      status := status.(mpp := privilegeLevel);
      privilegeLevel := MACHINE;
      status := status.(mpie := status.mie, mie := false);
      pc := Vector(csrs.mtvec, cause);
    }

    method SetupSmodeTrap(cause: bv32, tval: bv32)
      modifies this
      ensures View() == SupervisorTrap(old(View()), cause, tval)
      ensures Legal(old(View())) && old(privilegeLevel) <= SUPERVISOR ==> Legal(View())
    {
      hide Vector, Legal;
      if Legal(View()) && privilegeLevel <= SUPERVISOR { SupervisorTrapKeeps(View(), cause, tval); }
      csrs := csrs.(scause := cause);
      csrs := csrs.(stval := tval);
      csrs := csrs.(sepc := pc);
      status := status.(spp := privilegeLevel & 1);
      privilegeLevel := SUPERVISOR;
      status := status.(spie := status.sie, sie := false);
      pc := Vector(csrs.stvec, cause);
    }

    // `ok` is false when an assertion would have ended the emulator.
    method RaiseTrapRaw(target: Level, cause: bv32, tval: bv32) returns (ok: bool)
      modifies this
      ensures var r := RaiseTrap(old(View()), target, cause, tval); (ok <==> r.Some?) && (ok ==> r.value == View())
      ensures Legal(old(View())) && (target == MACHINE || target == SUPERVISOR) && old(privilegeLevel) <= target ==>
        ok && privilegeLevel == target && Legal(View()) && Retags(old(View()), View())
    {
      hide MachineTrap, SupervisorTrap, FlushOnChange, AddressSpaceTag, Legal, Retags;
      if Legal(View()) && (target == MACHINE || target == SUPERVISOR) && privilegeLevel <= target {
        TrapRetags(View(), target, cause, tval);
      }
      var previousTag := Tag();
      if target == MACHINE {
        SetupMmodeTrap(cause, tval);
      } else if target == SUPERVISOR {
        SetupSmodeTrap(cause, tval);
      } else {
        return false;
      }
      FlushOnAddressSpaceChange(previousTag);
      return true;
    }

    method RaiseExceptionInternal(number: bv32, tval: bv32) returns (ok: bool)
      requires number < 16
      modifies this
      ensures var r := RaiseException(old(View()), number, tval); (ok <==> r.Some?) && (ok ==> r.value == View())
      ensures Legal(old(View())) ==> ok && Legal(View()) && Retags(old(View()), View())
    {
      hide RaiseTrap, Legal, Retags;
      if Legal(View()) { ExceptionRetags(View(), number, tval); }
      var target := MACHINE;
      if privilegeLevel != MACHINE && csrs.medeleg & ((1 as bv32) << number) != 0 {
        target := SUPERVISOR;
      }
      ok := RaiseTrapRaw(target, number, tval);
    }

    method MretCallback() returns (ok: bool)
      modifies this
      ensures var r := Mret(old(View())); (ok <==> r.Some?) && (ok ==> r.value == View())
      ensures Legal(old(View())) && ok ==> Legal(View()) && Retags(old(View()), View())
    {
      hide AddressSpaceTag, RaiseException, Legal, Retags;
      if Legal(View()) { ReturnRetags(View()); }
      if privilegeLevel != MACHINE {
        ok := RaiseExceptionInternal(ILLEGAL_INSTRUCTION, 0);
        return;
      }
      var previousTag := Tag();
      var mpp := status.mpp;
      if mpp == RESERVED {
        return false;
      }
      privilegeLevel := mpp;
      status := status.(mpp := USER);
      status := status.(mie := status.mpie, mpie := true);
      pc := csrs.mepc;
      FlushOnAddressSpaceChange(previousTag);
      return true;
    }

    method SretCallback() returns (ok: bool)
      modifies this
      ensures var r := Sret(old(View())); (ok <==> r.Some?) && (ok ==> r.value == View())
      ensures Legal(old(View())) ==> ok && Legal(View()) && Retags(old(View()), View())
    {
      hide AddressSpaceTag, RaiseException, Legal, Retags;
      if Legal(View()) { ReturnRetags(View()); }
      if privilegeLevel != SUPERVISOR {
        ok := RaiseExceptionInternal(ILLEGAL_INSTRUCTION, 0);
        return;
      }
      var previousTag := Tag();
      var spp := status.spp;
      if spp != USER && spp != SUPERVISOR {
        return false;
      }
      privilegeLevel := spp;
      status := status.(spp := USER);
      status := status.(sie := status.spie, spie := true);
      pc := csrs.sepc;
      FlushOnAddressSpaceChange(previousTag);
      return true;
    }

    method SfenceVmaCallback()
      modifies this
      ensures View() == SfenceVma(old(View()))
    {
      tlb := {};
      FlushTranslationCache();
    }

    method EcallCallback() returns (ok: bool)
      modifies this
      ensures var r := Ecall(old(View())); (ok <==> r.Some?) && (ok ==> r.value == View())
      ensures Legal(old(View())) ==> ok && Legal(View()) && Retags(old(View()), View())
    {
      hide RaiseException, Legal, Retags;
      if Legal(View()) { CallRetags(View()); }
      var exception := ECALL_FROM_MMODE;
      if privilegeLevel == MACHINE {
        exception := ECALL_FROM_MMODE;
      } else if privilegeLevel == SUPERVISOR {
        exception := ECALL_FROM_SMODE;
      } else if privilegeLevel == USER {
        exception := ECALL_FROM_UMODE;
      } else {
        return false;
      }
      ok := RaiseExceptionInternal(exception, 0);
    }

    method IsInterruptDeliverable(v: Interrupt) returns (r: bool)
      ensures r == Deliverable(View(), v)
    {
      var target := if idelegation & ((1 as bv32) << v) != 0 then SUPERVISOR else MACHINE;
      if ipending & ((1 as bv32) << v) == 0 || ienable & ((1 as bv32) << v) == 0 {
        return false;
      }
      if privilegeLevel > target {
        return false;
      }
      if privilegeLevel < target {
        return true;
      }
      return if target == MACHINE then status.mie else status.sie;
    }

    /** The delivery loop takes the first deliverable vector of the order, or changes nothing. */
    method DeliverInterrupts() returns (ok: bool)
      modifies this
      ensures var r := DeliverPending(old(View())); (ok <==> r.Some?) && (ok ==> r.value == View())
      ensures Legal(old(View())) ==> ok && Legal(View()) && Retags(old(View()), View())
    {
      hide Deliverable, RaiseTrap, InterruptTarget, Legal, Retags;
      if Legal(View()) { PumpRetags(View()); }
      var i := 0;
      while i < |DELIVERY_ORDER|
        invariant i <= |DELIVERY_ORDER| && View() == old(View())
        invariant FirstDeliverable(View(), DELIVERY_ORDER) == FirstDeliverable(View(), DELIVERY_ORDER[i..])
      {
        var v := DELIVERY_ORDER[i];
        var due := IsInterruptDeliverable(v);
        if due {
          var target := TargetOf(v);
          ok := RaiseTrapRaw(target, 0x8000_0000 | v, 0);
          return;
        }
        i := i + 1;
      }
      return true;
    }

    method TargetOf(v: Interrupt) returns (target: Level)
      ensures target == InterruptTarget(View(), v)
    {
      target := if idelegation & ((1 as bv32) << v) != 0 then SUPERVISOR else MACHINE;
    }

    method SatpWrite(value: bv32)
      modifies this
      ensures View() == WriteSatp(old(View()), value) == WriteCsr(old(View()), SATP, value)
    {
      csrs := csrs.(satp := value);
      tlb := {};
      FlushTranslationCache();
    }

    method MstatusWrite(value: bv32)
      modifies this`status
      ensures View() == WriteCsr(old(View()), MSTATUS, value)
    {
      hide UnpackStatus;
      status := UnpackStatus(value);
    }

    method SstatusWrite(value: bv32)
      modifies this`status
      ensures View() == WriteCsr(old(View()), SSTATUS, value)
    {
      status := status.(uie := value & 1 != 0);
      status := status.(sie := value & 2 != 0);
      status := status.(upie := value & 0x10 != 0);
      status := status.(spie := value & 0x20 != 0);
      status := status.(spp := ((value >> 8) & 1) as Level);
    }

    static method KeepMachineBits(current: bv32, value: bv32) returns (merged: bv32)
      ensures merged == MergeMip(current, value)
    {
      var mipMask := current & 0x888;
      merged := (value & !0x888) | mipMask;
    }

    static method ReplaceBitsOf(current: bv32, value: bv32, mask: bv32) returns (merged: bv32)
      ensures merged == (current & !mask) | (value & mask)
    {
      merged := (current & !mask) | (value & mask);
    }

    method MipWrite(value: bv32)
      modifies this`ipending
      ensures View() == WriteCsr(old(View()), MIP, value)
    {
      hide MergeMip;
      var merged := KeepMachineBits(ipending, value);
      ipending := merged;
    }

    method SipWrite(value: bv32)
      modifies this`ipending
      ensures View() == WriteCsr(old(View()), SIP, value)
    {
      var merged := ReplaceBitsOf(ipending, value, 0x2);
      ipending := merged;
    }

    method MieWrite(value: bv32)
      modifies this`ienable
      ensures View() == WriteCsr(old(View()), MIE, value)
    {
      ienable := value;
    }

    method SieWrite(value: bv32)
      modifies this`ienable
      ensures View() == WriteCsr(old(View()), SIE, value)
    {
      var merged := ReplaceBitsOf(ienable, value, 0x222);
      ienable := merged;
    }

    method MidelegWrite(value: bv32)
      modifies this`idelegation
      ensures View() == WriteCsr(old(View()), MIDELEG, value)
    {
      idelegation := value;
    }

    method CsrRead(c: Csr) returns (v: bv32)
      ensures v == ReadCsr(View(), c)
    {
      match c {
        case MSTATUS => v := PackStatus(status);
        case MIP => v := ipending;
        case MIE => v := ienable;
        case MIDELEG => v := idelegation;
        case SSTATUS => v := PackSstatus(status);
        case SIP => v := ipending & 0x222;
        case SIE => v := ienable & 0x333;
        case MEDELEG => v := csrs.medeleg;
        case MEPC => v := csrs.mepc;
        case MCAUSE => v := csrs.mcause;
        case MTVAL => v := csrs.mtval;
        case MTVEC => v := csrs.mtvec;
        case SATP => v := csrs.satp;
        case SEPC => v := csrs.sepc;
        case SCAUSE => v := csrs.scause;
        case STVAL => v := csrs.stval;
        case STVEC => v := csrs.stvec;
      }
    }

    method CsrShown(c: Csr) returns (v: bv32)
      ensures v == ShownCsr(View(), c)
    {
      var value := CsrRead(c);
      v := value & Mask(c);
    }

    // A register that keeps its value in the table.
    method BlobWrite(c: Csr, value: bv32)
      modifies this`csrs
      ensures csrs == WriteBlob(old(csrs), c, value)
    {
      var b := csrs;
      csrs := match c {
        case MEDELEG => b.(medeleg := value)
        case MEPC => b.(mepc := value)
        case MCAUSE => b.(mcause := value)
        case MTVAL => b.(mtval := value)
        case MTVEC => b.(mtvec := value)
        case SEPC => b.(sepc := value)
        case SCAUSE => b.(scause := value)
        case STVAL => b.(stval := value)
        case STVEC => b.(stvec := value)
        case _ => b
      };
    }

    method TableWrite(c: Csr, value: bv32)
      requires IsBlob(c)
      modifies this`csrs
      ensures View() == WriteCsr(old(View()), c, value)
    {
      hide WriteBlob;
      BlobWrite(c, value);
    }

    method CsrWrite(c: Csr, value: bv32)
      modifies this
      ensures View() == WriteCsr(old(View()), c, value)
    {
      hide WriteCsr, WriteSatp;
      match c {
        case MSTATUS => MstatusWrite(value);
        case SSTATUS => SstatusWrite(value);
        case MIP => MipWrite(value);
        case SIP => SipWrite(value);
        case MIE => MieWrite(value);
        case SIE => SieWrite(value);
        case MIDELEG => MidelegWrite(value);
        case SATP => SatpWrite(value);
        case _ => TableWrite(c, value);
      }
    }

    method CsrModify(c: Csr, op: CsrOp, named: bool, operand: bv32)
      modifies this
      ensures View() == ModifyCsr(old(View()), c, op, named, operand)
    {
      hide WriteCsr, ReadCsr, Mask, CsrValue;
      if op == ReplaceBits {
        ReplacedValue(ReadCsr(View(), c), operand, Mask(c));
        CsrWrite(c, operand & Mask(c));
      } else if named {
        var value := CsrRead(c);
        CsrWrite(c, CsrValue(value, op, operand, Mask(c)));
      }
    }

    // The read-modify-write of a csr instruction and the step past it; `named` says the operand field is not
    // zero, `wanted` that the result register is not register zero.  The value read goes to the result register.
    method GenericCsrCallback(c: Csr, op: CsrOp, named: bool, operand: bv32, wanted: bool) returns (result: Option<bv32>)
      modifies this
      ensures View() == CsrInstruction(old(View()), c, op, named, operand)
      ensures result == if op == ReplaceBits && !wanted then None else Some(ShownCsr(old(View()), c))
      ensures Legal(old(View())) ==> Legal(View()) && privilegeLevel == old(privilegeLevel)
      ensures Legal(old(View())) && !RewritesSatp(c, op, named) ==> Retags(old(View()), View())
    {
      hide ModifyCsr, ShownCsr, Advance, Legal, Retags;
      if Legal(View()) { WriteKeeps(View(), c, op, named, operand); }
      result := None;
      if op != ReplaceBits || wanted {
        var shown := CsrShown(c);
        result := Some(shown);
      }
      CsrModify(c, op, named, operand);
      Proceed();
    }

    method Proceed()
      modifies this`pc
      ensures View() == Advance(old(View()))
    {
      pc := pc + 4;
    }
  }
}
