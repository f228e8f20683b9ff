/**
 Sv32 address translation: the page-table walk, the direct-mapped software TLB in
 front of it, and the memory access path that uses both.
 */
module Sv32 {
  import opened Words

  const PAGE_4K: nat := 0x1000
  const PAGE_4M: nat := 0x40_0000

  // Physical memory as the walk sees it: the readable page-table words, and the region behind each address.
  datatype Physical = Physical(pte: u32 -> Option<u32>, region: u32 -> Option<nat>)

  // `big` is the 4 MiB page mask, otherwise the 4 KiB one.
  datatype Entry = Entry(valid: bool, vaTag: u32, paTag: u32, big: bool, region: nat)

  const INVALID := Entry(false, 0, 0, false, 0)

  function PageSize(big: bool): (s: nat)
    ensures s > 0
  {
    if big then PAGE_4M else PAGE_4K
  }

  // ----- the walk (mmu_pagewalker.c) -----

  predicate Leaf(pte: u32) {
    pte / 2 % 2 == 1 || pte / 4 % 2 == 1 || pte / 8 % 2 == 1
  }

  // The ppn field shifted to an address, truncated to 32 bits.
  function PpnAddress(pte: u32): u32 {
    Wrap(pte / 1024 * 4096)
  }

  datatype WalkResult = Found(entry: Entry) | Failed(error: int)

  // The walk ends at a leaf; its page must be backed.
  function Install(ph: Physical, va: u32, pa: u32, big: bool): WalkResult {
    match ph.region(pa)
    case None => Failed(-4)
    case Some(r) => Found(Entry(true, va - va % PageSize(big), pa, big, r))
  }

  function RootSlot(satp: u32, va: u32): u32 {
    Wrap(Wrap(satp * 4096) + va / PAGE_4M * 4)
  }

  function LeafSlot(pte: u32, va: u32): u32 {
    Wrap(PpnAddress(pte) + va / PAGE_4K % 1024 * 4)
  }

  function Walk(ph: Physical, satp: u32, va: u32): WalkResult {
    match ph.pte(RootSlot(satp, va))
    case None => Failed(-3)
    case Some(pte1) =>
      if pte1 % 2 == 0 then Failed(-1)
      else if Leaf(pte1) then Install(ph, va, PpnAddress(pte1) - PpnAddress(pte1) % PAGE_4M, true)
      else
        match ph.pte(LeafSlot(pte1, va))
        case None => Failed(-3)
        case Some(pte2) => if pte2 % 2 == 0 then Failed(-2) else Install(ph, va, PpnAddress(pte2), false)
  }

  // ----- the TLB (mmu_tlb.h) -----

  // The slot for an address is its page number masked with the capacity less one.
  function Slot(va: u32, big: bool, cap: u32): u32
    requires cap > 0
  {
    Bitwise32(And, va / PageSize(big), cap - 1)
  }

  lemma {:induction false} AndAtMost(a: nat, b: nat, n: nat)
    ensures Bitwise(And, a, b, n) <= b
  {
    if n > 0 {
      AndAtMost(a / 2, b / 2, n - 1);
    }
  }

  lemma SlotInRange(va: u32, big: bool, cap: u32)
    requires cap > 0
    ensures Slot(va, big, cap) < cap
  {
    AndAtMost(va / PageSize(big), cap - 1, 32);
  }

  type Tlb = s: seq<Entry> | 0 < |s| < TWO32 witness [INVALID]

  function At(tlb: Tlb, va: u32, big: bool): Entry {
    SlotInRange(va, big, |tlb|);
    tlb[Slot(va, big, |tlb|)]
  }

  // The small-page slot first, then the large-page one; the tag is not compared.
  function Lookup(tlb: Tlb, va: u32): Option<Entry> {
    if At(tlb, va, false).valid then Some(At(tlb, va, false))
    else if At(tlb, va, true).valid then Some(At(tlb, va, true))
    else None
  }

  function Fill(tlb: Tlb, va: u32, e: Entry): (r: Tlb)
    ensures |r| == |tlb|
  {
    SlotInRange(va, e.big, |tlb|);
    tlb[Slot(va, e.big, |tlb|) := e]
  }

  function WalkAndFill(ph: Physical, satp: u32, tlb: Tlb, va: u32): (r: Tlb)
    ensures |r| == |tlb|
  {
    match Walk(ph, satp, va)
    case Found(e) => Fill(tlb, va, e)
    case Failed(_) => tlb
  }

  // ----- accesses (mmu.h, mmu.c) -----

  // Where an access goes: the physical address and the region of its page.
  datatype Answer = Access(pa: u32, region: nat) | PageFault

  function Assemble(e: Entry, va: u32): u32 {
    Bitwise32(Or, e.paTag, va % PageSize(e.big))
  }

  function AnswerOf(e: Entry, va: u32): Answer {
    Access(Assemble(e, va), e.region)
  }

  // Look up; on a miss walk and look up again; a second miss is a page fault.
  function Translate(ph: Physical, satp: u32, tlb: Tlb, va: u32): (Tlb, Answer) {
    match Lookup(tlb, va)
    case Some(e) => (tlb, AnswerOf(e, va))
    case None =>
      var tlb' := WalkAndFill(ph, satp, tlb, va);
      match Lookup(tlb', va)
      case Some(e) => (tlb', AnswerOf(e, va))
      case None => (tlb', PageFault)
  }

  // What a walk without any TLB answers.
  function Fresh(ph: Physical, satp: u32, va: u32): Answer {
    match Walk(ph, satp, va)
    case Found(e) => AnswerOf(e, va)
    case Failed(_) => PageFault
  }

  // ----- the TLB object -----

  class TlbTable {
    const entries: array<Entry>

    ghost predicate Valid() {
      0 < entries.Length < TWO32
    }

    ghost function View(): Tlb
      requires Valid()
      reads entries
    {
      entries[..]
    }

    method Invalidate()
      requires Valid()
      modifies entries
      ensures forall i :: 0 <= i < entries.Length ==> entries[i] == old(entries[i]).(valid := false)
    {
      for idx := 0 to entries.Length
        invariant forall i :: 0 <= i < idx ==> entries[i] == old(entries[i]).(valid := false)
        invariant forall i :: idx <= i < entries.Length ==> entries[i] == old(entries[i])
      {
        entries[idx] := entries[idx].(valid := false);
      }
    }

    method VaToTlbEntry(va: u32) returns (e: Option<Entry>)
      requires Valid()
      ensures e == Lookup(View(), va)
    {
      hide Slot;
      SlotInRange(va, false, entries.Length);
      var entry := entries[Slot(va, false, entries.Length)];
      if !entry.valid {
        SlotInRange(va, true, entries.Length);
        entry := entries[Slot(va, true, entries.Length)];
      }
      return if entry.valid then Some(entry) else None;
    }

    // Zero on success; a negative value, and no change, otherwise.
    method WalkPageTable(ph: Physical, satp: u32, va: u32) returns (rc: int)
      requires Valid()
      modifies entries
      ensures View() == WalkAndFill(ph, satp, old(View()), va)
      ensures match Walk(ph, satp, va) case Found(_) => rc == 0 case Failed(error) => rc == error < 0
    {
      hide Slot;
      var level1Pte := ph.pte(RootSlot(satp, va));
      if level1Pte == None {
        return -3;
      }
      if level1Pte.value % 2 == 0 {
        return -1;
      }
      var pa: u32, big := 0, true;
      if Leaf(level1Pte.value) {
        pa := PpnAddress(level1Pte.value) - PpnAddress(level1Pte.value) % PAGE_4M;
      } else {
        var level2Pte := ph.pte(LeafSlot(level1Pte.value, va));
        if level2Pte == None {
          return -3;
        }
        if level2Pte.value % 2 == 0 {
          return -2;
        }
        pa, big := PpnAddress(level2Pte.value), false;
      }
      var pmr := ph.region(pa);
      if pmr == None {
        return -4;
      }
      SlotInRange(va, big, entries.Length);
      entries[Slot(va, big, entries.Length)] := Entry(true, va - va % PageSize(big), pa, big, pmr.value);
      return 0;
    }

    /** The access path: lookup, walk on a miss, second lookup. */
    method TranslateAddress(ph: Physical, satp: u32, va: u32) returns (a: Answer)
      requires Valid()
      modifies entries
      ensures (View(), a) == Translate(ph, satp, old(View()), va)
    {
      hide Lookup, Walk, WalkAndFill, Assemble;
      var entry := VaToTlbEntry(va);
      if entry == None {
        var rc := WalkPageTable(ph, satp, va);
        entry := VaToTlbEntry(va);
      }
      if entry == None {
        return PageFault;
      }
      return AnswerOf(entry.value, va);
    }
  }
}
