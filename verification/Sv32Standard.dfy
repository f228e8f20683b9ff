/**
 The walk against the address translation process of section 4.3.2 of the RISC-V
 Privileged Architecture (version 1.12), permissions left aside.
 */
module Sv32Standard {
  import opened Words
  import opened Sv32
  import opened Sv32Proof

  const PAGESIZE: nat := 4096
  const PTESIZE: nat := 4

  // The fields of a page-table entry.
  predicate V(pte: u32) { pte % 2 == 1 }
  predicate R(pte: u32) { pte / 2 % 2 == 1 }
  predicate W(pte: u32) { pte / 4 % 2 == 1 }
  predicate X(pte: u32) { pte / 8 % 2 == 1 }
  function Ppn(pte: u32): nat { pte / 1024 }

  // The virtual page number of level `i`.
  function Vpn(va: u32, i: nat): nat {
    if i == 0 then va / PAGESIZE % 1024 else va / (1024 * PAGESIZE)
  }

  function Entry(ph: Physical, at: nat): Option<u32> {
    if at < TWO32 then ph.pte(at) else None
  }

  // Steps 2 to 7 from the table at `a` of level `i`: the physical address, or a fault.
  function Steps(ph: Physical, va: u32, a: nat, i: nat): Option<nat>
    decreases i
  {
    match Entry(ph, a + Vpn(va, i) * PTESIZE)
    case None => None
    case Some(pte) =>
      if !V(pte) || (!R(pte) && W(pte)) then None
      else if R(pte) || X(pte) then
        if i > 0 && Ppn(pte) % 1024 != 0 then None
        else if i > 0 then Some(Ppn(pte) / 1024 * (1024 * PAGESIZE) + va % (1024 * PAGESIZE))
        else Some(Ppn(pte) * PAGESIZE + va % PAGESIZE)
      else if i == 0 then None
      else Steps(ph, va, Ppn(pte) * PAGESIZE, i - 1)
  }

  // Step 1: the root table is named by the low 22 bits of satp.
  function Standard(ph: Physical, satp: u32, va: u32): Option<nat> {
    Steps(ph, va, satp % 0x40_0000 * PAGESIZE, 1)
  }

  // ----- what the emulator's walk takes for granted -----

  function RootEntry(ph: Physical, satp: u32, va: u32): Option<u32> {
    Entry(ph, satp % 0x40_0000 * PAGESIZE + Vpn(va, 1) * PTESIZE)
  }

  function LeafEntry(ph: Physical, pte: u32, va: u32): Option<u32> {
    Entry(ph, Ppn(pte) * PAGESIZE + Vpn(va, 0) * PTESIZE)
  }

  // Does the walk go on to a second entry?
  predicate Descends(pte: u32) {
    V(pte) && !R(pte) && !W(pte) && !X(pte)
  }

  // Tables and pages on the way lie below 4 GiB, all the emulator models.
  predicate Below4G(ph: Physical, satp: u32, va: u32) {
    && satp % 0x40_0000 < 0x10_0000
    && match RootEntry(ph, satp, va)
       case None => true
       case Some(pte) =>
         && Ppn(pte) < 0x10_0000
         && (Descends(pte) ==> LeafEntry(ph, pte, va) == None || Ppn(LeafEntry(ph, pte, va).value) < 0x10_0000)
  }

  // No reserved encoding, no misaligned superpage, and a leaf at the last level.
  predicate ProperEntry(pte: u32, i: nat) {
    V(pte) ==> (W(pte) ==> R(pte)) && (if i == 0 then R(pte) || X(pte) else (R(pte) || X(pte) ==> Ppn(pte) % 1024 == 0))
  }

  predicate Proper(ph: Physical, satp: u32, va: u32) {
    match RootEntry(ph, satp, va)
    case None => true
    case Some(pte) =>
      && ProperEntry(pte, 1)
      && (Descends(pte) && LeafEntry(ph, pte, va).Some? ==> ProperEntry(LeafEntry(ph, pte, va).value, 0))
  }

  // The same address or both a fault; a page nothing backs faults in the emulator only.
  ghost predicate SameOutcome(ph: Physical, satp: u32, va: u32) {
    match Walk(ph, satp, va)
    case Found(e) => Standard(ph, satp, va) == Some(Assemble(e, va))
    case Failed(error) => if error == -4 then Standard(ph, satp, va).Some? else Standard(ph, satp, va) == None
  }

  lemma TableAddresses(satp: u32, pte: u32, va: u32)
    ensures satp % 0x40_0000 < 0x10_0000 ==> RootSlot(satp, va) == satp % 0x40_0000 * PAGESIZE + Vpn(va, 1) * PTESIZE
    ensures Ppn(pte) < 0x10_0000 ==> PpnAddress(pte) == Ppn(pte) * PAGESIZE
    ensures Ppn(pte) < 0x10_0000 ==> LeafSlot(pte, va) == Ppn(pte) * PAGESIZE + Vpn(va, 0) * PTESIZE
  {
    RootAddress(satp);
    assert Vpn(va, 1) < 1024 && Vpn(va, 0) < 1024;
  }

  lemma RootAddress(satp: u32)
    ensures satp % 0x40_0000 < 0x10_0000 ==> Wrap(satp * 4096) == satp % 0x40_0000 * PAGESIZE
  {
    var q, r := satp / 0x40_0000, satp % 0x40_0000;
    assert satp * 4096 == q * 4 * 0x1_0000_0000 + r * 4096;
    if r < 0x10_0000 {
      ModUnique(satp * 4096, 0x1_0000_0000, q * 4, r * 4096);
    }
  }

  lemma SuperpageFrame(pte: u32)
    requires Ppn(pte) < 0x10_0000
    ensures PpnAddress(pte) - PpnAddress(pte) % PAGE_4M == Ppn(pte) / 1024 * (1024 * PAGESIZE)
  {
  }

  // The walk at a leaf of the root table.
  lemma RootLeaf(ph: Physical, satp: u32, va: u32, pte: u32)
    requires Below4G(ph, satp, va) && RootEntry(ph, satp, va) == Some(pte) && V(pte) && Leaf(pte)
    ensures SameOutcome(ph, satp, va) <==> ProperEntry(pte, 1)
  {
    hide RootSlot, LeafSlot, PpnAddress, Assemble, LeafEntry;
    TableAddresses(satp, pte, va);
    SuperpageFrame(pte);
    if Walk(ph, satp, va).Found? {
      PhysicalAddress(ph, satp, va, va);
    }
  }

  // The walk through a pointer to a second table.
  lemma SecondLevel(ph: Physical, satp: u32, va: u32, pte: u32)
    requires Below4G(ph, satp, va) && RootEntry(ph, satp, va) == Some(pte) && Descends(pte)
    ensures SameOutcome(ph, satp, va) <==>
      (LeafEntry(ph, pte, va).Some? ==> ProperEntry(LeafEntry(ph, pte, va).value, 0))
  {
    hide RootSlot, LeafSlot, PpnAddress, Assemble;
    TableAddresses(satp, pte, va);
    if LeafEntry(ph, pte, va).Some? {
      TableAddresses(satp, LeafEntry(ph, pte, va).value, va);
    }
    if Walk(ph, satp, va).Found? {
      PhysicalAddress(ph, satp, va, va);
    }
  }

  /**
   For tables below 4 GiB the walk and the standard agree, on addresses and on faults, if and only if the
   entries on the way are proper: the walk does not check for reserved encodings, misaligned superpages,
   or a pointer at the last level.
   */
  lemma WalkIsStandard(ph: Physical, satp: u32, va: u32)
    requires Below4G(ph, satp, va)
    ensures SameOutcome(ph, satp, va) <==> Proper(ph, satp, va)
  {
    hide RootSlot, LeafSlot, PpnAddress, Assemble, LeafEntry, RootEntry;
    match RootEntry(ph, satp, va)
    case None => NoRootEntry(ph, satp, va);
    case Some(pte) =>
      if !V(pte) {
        InvalidRoot(ph, satp, va, pte);
      } else if Leaf(pte) {
        RootLeaf(ph, satp, va, pte);
      } else {
        SecondLevel(ph, satp, va, pte);
      }
  }

  // One root table with the given first entry, and a second table, reached through the pointer 0x801, with another.
  function Tables(root: u32, leaf: u32): Physical {
    Physical((at: u32) => if at == 0x1000 then Some(root) else if at == 0x2000 then Some(leaf) else None, (_: u32) => Some(0))
  }

  lemma TableSlots(root: u32, leaf: u32)
    ensures RootSlot(1, 0) == 0x1000 && LeafSlot(0x801, 0) == 0x2000 && PpnAddress(0x801) == 0x2000
    ensures Standard(Tables(root, leaf), 1, 0) == Steps(Tables(root, leaf), 0, 0x1000, 1)
    ensures Entry(Tables(root, leaf), 0x1000 + Vpn(0, 1) * PTESIZE) == Some(root)
    ensures Entry(Tables(root, leaf), 0x2000 + Vpn(0, 0) * PTESIZE) == Some(leaf)
  {
    hide Steps;
  }

  /** A superpage whose ppn is not a multiple of 1024 is taken where the standard faults. */
  lemma MisalignedIsTaken()
    ensures Walk(Tables(0x403, 0), 1, 0).Found? && Standard(Tables(0x403, 0), 1, 0) == None
  {
    TableSlots(0x403, 0);
    hide RootSlot, LeafSlot, Standard, Entry, Vpn, PpnAddress;
    assert V(0x403) && R(0x403) && Ppn(0x403) == 1;
  }

  /** So is a writable page that is not readable. */
  lemma WriteOnlyIsTaken()
    ensures Walk(Tables(0x005, 0), 1, 0).Found? && Standard(Tables(0x005, 0), 1, 0) == None
  {
    TableSlots(0x005, 0);
    hide RootSlot, LeafSlot, Standard, Entry, Vpn, PpnAddress;
    assert V(0x005) && W(0x005) && !R(0x005);
  }

  /** And so is a pointer at the last level. */
  lemma PointerIsTaken()
    ensures Walk(Tables(0x801, 0xc01), 1, 0).Found? && Standard(Tables(0x801, 0xc01), 1, 0) == None
  {
    TableSlots(0x801, 0xc01);
    hide RootSlot, LeafSlot, Standard, Entry, Vpn, PpnAddress;
    assert V(0x801) && !R(0x801) && !W(0x801) && !X(0x801) && Ppn(0x801) == 2;
    assert V(0xc01) && !R(0xc01) && !X(0xc01);
    assert Steps(Tables(0x801, 0xc01), 0, 0x2000, 0) == None;
  }

  lemma NoRootEntry(ph: Physical, satp: u32, va: u32)
    requires Below4G(ph, satp, va) && RootEntry(ph, satp, va) == None
    ensures SameOutcome(ph, satp, va)
  {
    hide LeafSlot, PpnAddress, RootSlot;
    TableAddresses(satp, 0, va);
  }

  lemma InvalidRoot(ph: Physical, satp: u32, va: u32, pte: u32)
    requires Below4G(ph, satp, va) && RootEntry(ph, satp, va) == Some(pte) && !V(pte)
    ensures SameOutcome(ph, satp, va)
  {
    hide LeafSlot, PpnAddress, RootSlot;
    TableAddresses(satp, pte, va);
  }
}
