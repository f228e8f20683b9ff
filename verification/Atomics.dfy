/** The atomics: what the slow path does to the registers when one of its accesses faults. */
module Atomics {
  import opened Words
  import opened Rv32System
  import opened Reservations
  import opened Translator

  // The atomics that load, combine and store.
  predicate ReadModifyWrite(k: AmoKind) {
    k != LR && k != SC
  }

  function Combined(k: AmoKind, loaded: u32, operand: u32): u32
    requires ReadModifyWrite(k)
  {
    match k
    case AMOADD => Wrap(loaded + operand)
    case AMOSWAP => operand
    case AMOXOR => Bitwise32(Xor, loaded, operand)
    case AMOOR => Bitwise32(Or, loaded, operand)
    case AMOAND => Bitwise32(And, loaded, operand)
  }

  /**
   The results of section 8.4 by function code: the sum, the operand, and bit by bit the exclusive or, the
   disjunction and the conjunction.
   */
  lemma CombinedMeans(k: AmoKind, loaded: u32, operand: u32, i: nat)
    requires ReadModifyWrite(k) && i < 32
    ensures var r, code := Combined(k, loaded, operand), AmoNumber(k);
      && (code == 0 || code == 1 || code == 4 || code == 8 || code == 12)
      && (code == 0 ==> r == (loaded + operand) % 0x1_0000_0000)
      && (code == 1 ==> r == operand)
      && (code == 4 ==> (r / Pow2(i) % 2 == 1 <==> loaded / Pow2(i) % 2 != operand / Pow2(i) % 2))
      && (code == 8 ==> (r / Pow2(i) % 2 == 1 <==> loaded / Pow2(i) % 2 == 1 || operand / Pow2(i) % 2 == 1))
      && (code == 12 ==> (r / Pow2(i) % 2 == 1 <==> loaded / Pow2(i) % 2 == 1 && operand / Pow2(i) % 2 == 1))
  {
    hide Bitwise32, Pow2;
    BitwiseIsBitByBit(loaded, operand, i);
  }

  // How the two accesses end: `None` is a load that raises an exception.
  datatype Accesses = Accesses(loaded: Option<u32>, storeOk: bool)

  datatype Effect = LoadFaulted | StoreFaulted | Loaded(addr: u32) | Stored(addr: u32, value: u32) | Refused

  // ----- the code -----

  // The registers are copied first and the destination is written before the store, x0 not excepted.
  function Slowpath(x: seq<u32>, k: AmoKind, rs1: nat, rs2: nat, rd: nat, a: Accesses): (seq<u32>, Effect)
    requires |x| == 32 && rs1 < 32 && rs2 < 32 && rd < 32 && ReadModifyWrite(k)
  {
    if a.loaded == None then (x, LoadFaulted)
    else
      var v := a.loaded.value;
      (x[rd := v], if a.storeOk then Stored(x[rs1], Combined(k, v, x[rs2])) else StoreFaulted)
  }

  method AmoSlowpath(regs: array<u32>, k: AmoKind, rs1Index: nat, rs2Index: nat, rdIndex: nat, a: Accesses) returns (e: Effect)
    requires regs.Length == 32 && rs1Index < 32 && rs2Index < 32 && rdIndex < 32 && ReadModifyWrite(k)
    modifies regs
    ensures (regs[..], e) == Slowpath(old(regs[..]), k, rs1Index, rs2Index, rdIndex, a)
  {
    var rs1 := regs[rs1Index];
    var rs2 := regs[rs2Index];
    if a.loaded == None {
      return LoadFaulted;
    }
    regs[rdIndex] := a.loaded.value;
    if !a.storeOk {
      return StoreFaulted;
    }
    return Stored(rs1, Combined(k, regs[rdIndex], rs2));
  }

  // ----- the standard (section 8.4): an atomic either happens or changes nothing -----

  function Standard(x: seq<u32>, k: AmoKind, rs1: nat, rs2: nat, rd: nat, a: Accesses): (seq<u32>, Effect)
    requires |x| == 32 && rs1 < 32 && rs2 < 32 && rd < 32 && ReadModifyWrite(k)
  {
    if a.loaded == None then (x, LoadFaulted)
    else if !a.storeOk then (x, StoreFaulted)
    else (if rd == 0 then x else x[rd := a.loaded.value], Stored(x[rs1], Combined(k, a.loaded.value, x[rs2])))
  }

  // The block clears x0 when the callback returns, and is never returned to when an access raises an exception.
  function AfterBlock(r: (seq<u32>, Effect)): (seq<u32>, Effect)
    requires |r.0| == 32
  {
    if r.1.LoadFaulted? || r.1.StoreFaulted? then r else (r.0[0 := 0], r.1)
  }

  /**
   Also when rd is one of the operands, an atomic is the standard's, except exactly when its store faults after its
   load has changed the destination.
   */
  lemma SlowpathIsStandard(x: seq<u32>, k: AmoKind, rs1: nat, rs2: nat, rd: nat, a: Accesses)
    requires |x| == 32 && x[0] == 0 && rs1 < 32 && rs2 < 32 && rd < 32 && ReadModifyWrite(k)
    ensures AfterBlock(Slowpath(x, k, rs1, rs2, rd, a)) == Standard(x, k, rs1, rs2, rd, a)
      <==> !(a.loaded.Some? && !a.storeOk && a.loaded.value != x[rd])
  {
    hide Combined;
    if a.loaded.Some? {
      var v := a.loaded.value;
      assert x[rd := v][rd] == v;
      if rd == 0 {
        assert x[0 := v][0 := 0] == x;
      } else {
        assert x[rd := v][0 := 0] == x[rd := v];
      }
      if v == x[rd] {
        assert x[rd := v] == x;
      }
    }
  }

  /** The trap handler finds x0 zero unless an atomic with destination x0 has loaded something else before its store faulted. */
  lemma ZeroAfterFault(x: seq<u32>, k: AmoKind, rs1: nat, rs2: nat, rd: nat, a: Accesses)
    requires |x| == 32 && x[0] == 0 && rs1 < 32 && rs2 < 32 && rd < 32 && ReadModifyWrite(k)
    ensures AfterBlock(Slowpath(x, k, rs1, rs2, rd, a)).0[0] == 0
      <==> !(rd == 0 && a.loaded.Some? && !a.storeOk && a.loaded.value != 0)
  {
    hide Combined;
  }

  // ----- load-reserved and store-conditional -----

  // The registers, the reservations and the access; `loaded` and `ok` say how the access ends.
  function LoadReserved(x: seq<u32>, t: Table, hart: HartId, rs1: nat, rd: nat, loaded: Option<u32>): (seq<u32>, Table, Effect)
    requires |x| == 32 && t.Valid() && rs1 < 32 && rd < 32
  {
    match loaded
    case None => (x, t, LoadFaulted)
    case Some(v) => (x[rd := v], Reserve(t, x[rs1], hart), Loaded(x[rs1]))
  }

  // Success is written to the destination before the store.
  function StoreConditional(x: seq<u32>, t: Table, hart: HartId, rs1: nat, rs2: nat, rd: nat, ok: bool): (seq<u32>, Table, Effect)
    requires |x| == 32 && t.Valid() && rs1 < 32 && rs2 < 32 && rd < 32
  {
    match Find(t, x[rs1], hart)
    case None => (x[rd := 1], t, Refused)
    case Some(i) =>
      (x[rd := 0], if ok && i < MAX_RESERVATION_ITEMS then Clear(t, i) else t, if ok then Stored(x[rs1], x[rs2]) else StoreFaulted)
  }

  method LrSlowpath(regs: array<u32>, table: ReservationTable, hart: HartId, rs1Index: nat, rdIndex: nat, loaded: Option<u32>)
    returns (e: Effect)
    requires regs.Length == 32 && rs1Index < 32 && rdIndex < 32 && table.Valid()
    modifies regs, table, table.reservations
    ensures table.Valid()
    ensures (regs[..], table.View(), e) == LoadReserved(old(regs[..]), old(table.View()), hart, rs1Index, rdIndex, loaded)
  {
    var rs1 := regs[rs1Index];
    if loaded == None {
      return LoadFaulted;
    }
    regs[rdIndex] := loaded.value;
    assert table.View() == old(table.View());
    table.MakeReservation(rs1, hart);
    return Loaded(rs1);
  }

  method ScSlowpath(regs: array<u32>, table: ReservationTable, hart: HartId, rs1Index: nat, rs2Index: nat, rdIndex: nat, ok: bool)
    returns (e: Effect)
    requires regs.Length == 32 && rs1Index < 32 && rs2Index < 32 && rdIndex < 32 && table.Valid()
    modifies regs, table.reservations
    ensures table.Valid()
    ensures (regs[..], table.View(), e) == StoreConditional(old(regs[..]), old(table.View()), hart, rs1Index, rs2Index, rdIndex, ok)
  {
    var rs1 := regs[rs1Index];
    var rs2 := regs[rs2Index];
    var found := table.FindReservation(rs1, hart);
    if found == None {
      regs[rdIndex] := 1;
      return Refused;
    }
    regs[rdIndex] := 0;
    assert table.View() == old(table.View());
    if !ok {
      return StoreFaulted;
    }
    table.ClearReservation(found.value);
    return Stored(rs1, rs2);
  }

  // The standard (section 8.2): 0 or 1 in the destination, and no change when the access raises an exception.
  function StandardLr(x: seq<u32>, rs1: nat, rd: nat, loaded: Option<u32>): (seq<u32>, Effect)
    requires |x| == 32 && rs1 < 32 && rd < 32
  {
    match loaded
    case None => (x, LoadFaulted)
    case Some(v) => (if rd == 0 then x else x[rd := v], Loaded(x[rs1]))
  }

  function StandardSc(x: seq<u32>, reserved: bool, rs1: nat, rs2: nat, rd: nat, ok: bool): (seq<u32>, Effect)
    requires |x| == 32 && rs1 < 32 && rs2 < 32 && rd < 32
  {
    if reserved && !ok then (x, StoreFaulted)
    else (if rd == 0 then x else x[rd := if reserved then 0 else 1], if reserved then Stored(x[rs1], x[rs2]) else Refused)
  }

  function WithoutTable(r: (seq<u32>, Table, Effect)): (seq<u32>, Effect) {
    (r.0, r.2)
  }

  /**
   A load-reserved is the standard's; a store-conditional is, except exactly when it has a reservation, its
   store faults and the destination held another value than the 0 written before.
   */
  lemma ConditionalIsStandard(x: seq<u32>, t: Table, hart: HartId, rs1: nat, rs2: nat, rd: nat, ok: bool, loaded: Option<u32>)
    requires |x| == 32 && x[0] == 0 && t.Valid() && rs1 < 32 && rs2 < 32 && rd < 32
    ensures AfterBlock(WithoutTable(LoadReserved(x, t, hart, rs1, rd, loaded))) == StandardLr(x, rs1, rd, loaded)
    ensures var reserved := Find(t, x[rs1], hart).Some?;
      (AfterBlock(WithoutTable(StoreConditional(x, t, hart, rs1, rs2, rd, ok))) == StandardSc(x, reserved, rs1, rs2, rd, ok))
      <==> !(reserved && !ok && x[rd] != 0)
  {
    hide Find, Reserve, Clear;
    if loaded.Some? { WrittenZero(x, rd, loaded.value); }
    WrittenZero(x, rd, 0);
    WrittenZero(x, rd, 1);
  }

  // Clearing x0 afterwards undoes a write to it and no other.
  lemma WrittenZero(x: seq<u32>, rd: nat, v: u32)
    requires |x| == 32 && x[0] == 0 && rd < 32
    ensures x[rd := v][0 := 0] == if rd == 0 then x else x[rd := v]
    ensures x[rd := v] == x <==> x[rd] == v
  {
    assert x[rd := v][rd] == v;
  }
}
