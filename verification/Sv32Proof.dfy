/** When the software TLB answers what a fresh walk would. */
module Sv32Proof {
  import opened Words
  import opened Sv32

  // ----- the physical address -----

  lemma {:induction false} OrZero(a: nat, n: nat)
    requires a < Pow2(n)
    ensures Bitwise(Or, a, 0, n) == a
  {
    if n > 0 {
      OrZero(a / 2, n - 1);
    }
  }

  lemma {:induction false} OrDisjoint(a: nat, b: nat, k: nat, n: nat)
    requires k <= n && a < Pow2(n) && a % Pow2(k) == 0 && b < Pow2(k)
    ensures Bitwise(Or, a, b, n) == a + b
  {
    if k == 0 {
      OrZero(a, n);
    } else {
      EvenMultiple(a, Pow2(k - 1));
      OrDisjoint(a / 2, b / 2, k - 1, n - 1);
    }
  }

  lemma EvenMultiple(a: nat, p: nat)
    requires p > 0 && a % (2 * p) == 0
    ensures a % 2 == 0 && (a / 2) % p == 0
  {
    var q := a / (2 * p);
    assert a == 2 * (q * p);
    ModUnique(a / 2, p, q, 0);
  }

  lemma PageSizes()
    ensures PAGE_4K == Pow2(12) && PAGE_4M == Pow2(22) && Pow2(32) == TWO32
  {
    Pow2Literals();
    assert Pow2(16) == 0x1_0000 && Pow2(20) == 0x10_0000;
  }

  /** The address of an access is the frame of its entry plus the offset in the page. */
  lemma PhysicalAddress(ph: Physical, satp: u32, va: u32, v: u32)
    requires Walk(ph, satp, va).Found?
    ensures var e := Walk(ph, satp, va).entry;
      e.paTag % PageSize(e.big) == 0 && Assemble(e, v) == e.paTag + v % PageSize(e.big)
  {
    hide RootSlot, LeafSlot, Leaf;
    PageSizes();
    var e := Walk(ph, satp, va).entry;
    assert e.paTag % PageSize(e.big) == 0 by {
      FrameAligned(ph, satp, va);
    }
    OrDisjoint(e.paTag, v % PageSize(e.big), if e.big then 22 else 12, 32);
  }

  lemma FrameAligned(ph: Physical, satp: u32, va: u32)
    requires Walk(ph, satp, va).Found?
    ensures var e := Walk(ph, satp, va).entry; e.paTag % PageSize(e.big) == 0
  {
    hide RootSlot, LeafSlot, Leaf, PpnAddress;
    var pte1 := ph.pte(RootSlot(satp, va)).value;
    if !Leaf(pte1) {
      PpnAligned(ph.pte(LeafSlot(pte1, va)).value);
    }
  }

  lemma PpnAligned(pte: u32)
    ensures PpnAddress(pte) % PAGE_4K == 0
  {
  }

  /** The region an access is answered with is the one behind the frame of its page. */
  lemma RegionOfFrame(ph: Physical, satp: u32, va: u32, v: u32)
    requires Walk(ph, satp, va).Found?
    ensures var e := Walk(ph, satp, va).entry;
      && AnswerOf(e, v).pa >= v % PageSize(e.big)
      && ph.region(AnswerOf(e, v).pa - v % PageSize(e.big)) == Some(AnswerOf(e, v).region)
  {
    hide RootSlot, LeafSlot, Leaf, PpnAddress, Assemble;
    PhysicalAddress(ph, satp, va, v);
  }

  // ----- pages -----

  predicate InPage(va: u32, e: Entry) {
    va - va % PageSize(e.big) == e.vaTag
  }

  lemma SamePage(va: u32, v: u32, big: bool)
    requires va - va % PageSize(big) == v - v % PageSize(big)
    ensures va / PageSize(big) == v / PageSize(big) && va / PAGE_4M == v / PAGE_4M
  {
    if !big {
      assert va / PAGE_4M == va / PAGE_4K / 1024 && v / PAGE_4M == v / PAGE_4K / 1024;
    }
  }

  lemma WalkTag(ph: Physical, satp: u32, va: u32)
    requires Walk(ph, satp, va).Found?
    ensures var e := Walk(ph, satp, va).entry; e.valid && InPage(va, e)
  {
    hide RootSlot, LeafSlot, PpnAddress, Leaf;
  }

  /** A walk depends on the page only: every address of the page a walk found gives the same entry. */
  lemma WalkOfPage(ph: Physical, satp: u32, va: u32, v: u32)
    requires Walk(ph, satp, va).Found? && InPage(v, Walk(ph, satp, va).entry)
    ensures Walk(ph, satp, v) == Walk(ph, satp, va)
    ensures var e := Walk(ph, satp, va).entry; forall cap: u32 :: cap > 0 ==> Slot(v, e.big, cap) == Slot(va, e.big, cap)
  {
    hide PpnAddress, Leaf;
    WalkTag(ph, satp, va);
    SamePage(va, v, Walk(ph, satp, va).entry.big);
  }

  // ----- agreement -----

  // Every valid slot holds what a fresh walk of its tag gives, and is the slot of that tag.
  ghost predicate Agrees(ph: Physical, satp: u32, tlb: Tlb) {
    forall i :: 0 <= i < |tlb| && tlb[i].valid ==>
      Walk(ph, satp, tlb[i].vaTag) == Found(tlb[i]) && Slot(tlb[i].vaTag, tlb[i].big, |tlb|) == i
  }

  lemma FillAgrees(ph: Physical, satp: u32, tlb: Tlb, va: u32)
    requires Agrees(ph, satp, tlb)
    ensures Agrees(ph, satp, WalkAndFill(ph, satp, tlb, va))
  {
    hide Walk, Slot;
    if Walk(ph, satp, va).Found? {
      var e := Walk(ph, satp, va).entry;
      WalkTag(ph, satp, va);
      TagInPage(va, e);
      WalkOfPage(ph, satp, va, e.vaTag);
      SlotInRange(va, e.big, |tlb|);
    }
  }

  lemma TagInPage(va: u32, e: Entry)
    requires InPage(va, e)
    ensures InPage(e.vaTag, e)
  {
    var s := PageSize(e.big);
    assert va == va / s * s + va % s;
    ModUnique(e.vaTag, s, va / s, 0);
  }

  /** Agreement survives every access and is established by invalidation, so it holds between edits and fences. */
  lemma AccessKeepsAgreement(ph: Physical, satp: u32, tlb: Tlb, va: u32)
    ensures (forall i :: 0 <= i < |tlb| ==> !tlb[i].valid) ==> Agrees(ph, satp, tlb)
    ensures Agrees(ph, satp, tlb) ==> Agrees(ph, satp, Translate(ph, satp, tlb, va).0)
  {
    hide Agrees, Lookup, WalkAndFill, Assemble;
    if Agrees(ph, satp, tlb) {
      FillAgrees(ph, satp, tlb, va);
    }
    if forall i :: 0 <= i < |tlb| ==> !tlb[i].valid {
      InvalidAgrees(ph, satp, tlb);
    }
  }

  lemma InvalidAgrees(ph: Physical, satp: u32, tlb: Tlb)
    requires forall i :: 0 <= i < |tlb| ==> !tlb[i].valid
    ensures Agrees(ph, satp, tlb)
  {
  }

  /** After a miss, a successful walk makes the second lookup return exactly the new entry; a failed one changes nothing. */
  lemma MissThenWalk(ph: Physical, satp: u32, tlb: Tlb, va: u32)
    requires Lookup(tlb, va) == None
    ensures var tlb' := WalkAndFill(ph, satp, tlb, va);
      match Walk(ph, satp, va)
      case Found(e) => Lookup(tlb', va) == Some(e)
      case Failed(_) => tlb' == tlb && Lookup(tlb', va) == None
    ensures Translate(ph, satp, tlb, va).1 == Fresh(ph, satp, va)
  {
    hide Walk, Slot, Assemble;
    SlotInRange(va, false, |tlb|);
    SlotInRange(va, true, |tlb|);
    if Walk(ph, satp, va).Found? {
      WalkTag(ph, satp, va);
    }
  }

  /** A hit whose tag matches is right. */
  lemma TaggedHitIsRight(ph: Physical, satp: u32, tlb: Tlb, va: u32, e: Entry)
    requires Agrees(ph, satp, tlb) && Lookup(tlb, va) == Some(e) && InPage(va, e)
    ensures Walk(ph, satp, va) == Found(e) && Translate(ph, satp, tlb, va) == (tlb, Fresh(ph, satp, va))
  {
    hide Walk, Slot, Assemble;
    SlotInRange(va, false, |tlb|);
    SlotInRange(va, true, |tlb|);
    WalkOfPage(ph, satp, e.vaTag, va);
  }

  // ----- runs of accesses -----

  function Answers(ph: Physical, satp: u32, tlb: Tlb, vas: seq<u32>): (r: seq<Answer>)
    ensures |r| == |vas|
    decreases |vas|
  {
    if vas == [] then []
    else
      var (tlb', a) := Translate(ph, satp, tlb, vas[0]);
      [a] + Answers(ph, satp, tlb', vas[1..])
  }

  function Empty(cap: u32): Tlb
    requires cap > 0
  {
    seq(cap, _ => INVALID)
  }

  // The entry of `u` is found when `v` is looked up in a TLB holding nothing else.
  predicate Shadows(ph: Physical, satp: u32, cap: u32, u: u32, v: u32)
    requires cap > 0
  {
    Walk(ph, satp, u).Found? &&
    var e := Walk(ph, satp, u).entry;
    Slot(u, e.big, cap) == Slot(v, false, cap) || Slot(u, e.big, cap) == Slot(v, true, cap)
  }

  // No address in use is answered wrongly from the entry of another.
  ghost predicate NoClash(ph: Physical, satp: u32, cap: u32, used: set<u32>)
    requires cap > 0
  {
    forall u, v :: u in used && v in used && Shadows(ph, satp, cap, u, v) ==>
      AnswerOf(Walk(ph, satp, u).entry, v) == Fresh(ph, satp, v)
  }

  ghost predicate AllFresh(ph: Physical, satp: u32, vas: seq<u32>, r: seq<Answer>)
    requires |r| == |vas|
  {
    forall i :: 0 <= i < |vas| ==> r[i] == Fresh(ph, satp, vas[i])
  }

  // Every valid slot was filled by a walk of an address in use.
  ghost predicate FilledFrom(ph: Physical, satp: u32, tlb: Tlb, used: set<u32>) {
    forall i :: 0 <= i < |tlb| && tlb[i].valid ==> exists u :: FilledBy(ph, satp, tlb, used, i, u)
  }

  predicate FilledBy(ph: Physical, satp: u32, tlb: Tlb, used: set<u32>, i: nat, u: u32)
    requires i < |tlb|
  {
    u in used && Walk(ph, satp, u) == Found(tlb[i]) && Slot(u, tlb[i].big, |tlb|) == i
  }

  lemma HitIsShadow(ph: Physical, satp: u32, tlb: Tlb, used: set<u32>, v: u32)
    requires FilledFrom(ph, satp, tlb, used) && Lookup(tlb, v).Some?
    ensures exists u :: u in used && Shadows(ph, satp, |tlb|, u, v) && Walk(ph, satp, u) == Found(Lookup(tlb, v).value)
  {
    hide Walk, Slot;
    SlotInRange(v, false, |tlb|);
    SlotInRange(v, true, |tlb|);
    var i := Slot(v, !At(tlb, v, false).valid, |tlb|);
    var u :| FilledBy(ph, satp, tlb, used, i, u);
  }

  lemma FillFrom(ph: Physical, satp: u32, tlb: Tlb, used: set<u32>, v: u32)
    requires FilledFrom(ph, satp, tlb, used) && v in used
    ensures FilledFrom(ph, satp, WalkAndFill(ph, satp, tlb, v), used)
  {
    hide Walk, Slot;
    var tlb' := WalkAndFill(ph, satp, tlb, v);
    if Walk(ph, satp, v).Found? {
      var e := Walk(ph, satp, v).entry;
      SlotInRange(v, e.big, |tlb|);
      forall i | 0 <= i < |tlb'| && tlb'[i].valid
        ensures exists u :: FilledBy(ph, satp, tlb', used, i, u)
      {
        if i == Slot(v, e.big, |tlb|) {
          assert FilledBy(ph, satp, tlb', used, i, v);
        } else {
          var u :| FilledBy(ph, satp, tlb, used, i, u);
          assert FilledBy(ph, satp, tlb', used, i, u);
        }
      }
    }
  }

  lemma {:induction false} NoClashAnswers(ph: Physical, satp: u32, tlb: Tlb, used: set<u32>, vas: seq<u32>)
    requires NoClash(ph, satp, |tlb|, used) && FilledFrom(ph, satp, tlb, used) && forall v :: v in vas ==> v in used
    ensures AllFresh(ph, satp, vas, Answers(ph, satp, tlb, vas))
    decreases |vas|
  {
    hide Walk, Lookup, WalkAndFill, FilledFrom, Shadows, Fresh, AnswerOf;
    if vas != [] {
      var v := vas[0];
      if Lookup(tlb, v).Some? {
        HitIsShadow(ph, satp, tlb, used, v);
        NoClashAnswers(ph, satp, tlb, used, vas[1..]);
      } else {
        MissThenWalk(ph, satp, tlb, v);
        FillFrom(ph, satp, tlb, used, v);
        NoClashAnswers(ph, satp, WalkAndFill(ph, satp, tlb, v), used, vas[1..]);
      }
    }
  }

  lemma EmptyLookup(cap: u32, va: u32)
    requires cap > 0
    ensures Lookup(Empty(cap), va) == None
  {
    hide Slot;
    SlotInRange(va, false, cap);
    SlotInRange(va, true, cap);
  }

  // One access of `u` and then one of `v` uses the entry of `u` for both.
  lemma ClashShows(ph: Physical, satp: u32, cap: u32, u: u32, v: u32)
    requires cap > 0 && Shadows(ph, satp, cap, u, v)
    ensures Answers(ph, satp, Empty(cap), [u, v])[1] == AnswerOf(Walk(ph, satp, u).entry, v)
  {
    hide Walk, Slot, AnswerOf;
    EmptyLookup(cap, u);
    MissThenWalk(ph, satp, Empty(cap), u);
    WalkTag(ph, satp, u);
    var e := Walk(ph, satp, u).entry;
    SlotInRange(u, e.big, cap);
    SlotInRange(v, false, cap);
    SlotInRange(v, true, cap);
    var tlb := Fill(Empty(cap), u, e);
    assert Translate(ph, satp, Empty(cap), u).0 == tlb;
    assert Lookup(tlb, v) == Some(e);
    assert [u, v][1..] == [v];
  }

  // Every order of accesses to the addresses in use, from an invalidated TLB, is answered as by fresh walks.
  ghost predicate AlwaysFresh(ph: Physical, satp: u32, cap: u32, used: set<u32>)
    requires cap > 0
  {
    forall vas: seq<u32> :: (forall v :: v in vas ==> v in used) ==> AllFresh(ph, satp, vas, Answers(ph, satp, Empty(cap), vas))
  }

  /**
   From an invalidated TLB, every run of accesses to a set of addresses gets exactly the answers of fresh
   walks, page faults included, if and only if no two of them clash: whenever the entry of one is found
   under another's slots, it happens to answer right.
   */
  lemma FreshIffNoClash(ph: Physical, satp: u32, cap: u32, used: set<u32>)
    requires cap > 0
    ensures AlwaysFresh(ph, satp, cap, used) <==> NoClash(ph, satp, cap, used)
  {
    hide Walk, Lookup, Slot, Fresh, AnswerOf, Answers, AllFresh;
    if NoClash(ph, satp, cap, used) {
      forall vas: seq<u32> | forall v :: v in vas ==> v in used
        ensures AllFresh(ph, satp, vas, Answers(ph, satp, Empty(cap), vas))
      {
        NoClashAnswers(ph, satp, Empty(cap), used, vas);
      }
    }
    if AlwaysFresh(ph, satp, cap, used) {
      forall u, v | u in used && v in used && Shadows(ph, satp, cap, u, v)
        ensures AnswerOf(Walk(ph, satp, u).entry, v) == Fresh(ph, satp, v)
      {
        ClashShows(ph, satp, cap, u, v);
        SecondFresh(ph, satp, [u, v], Answers(ph, satp, Empty(cap), [u, v]));
      }
    }
  }

  lemma SecondFresh(ph: Physical, satp: u32, vas: seq<u32>, r: seq<Answer>)
    requires |r| == |vas| == 2
    ensures AllFresh(ph, satp, vas, r) ==> r[1] == Fresh(ph, satp, vas[1])
  {
  }

  /** Addresses that share a slot only with their own page do not clash. */
  lemma SeparatePagesDoNotClash(ph: Physical, satp: u32, cap: u32, used: set<u32>)
    requires cap > 0
    requires forall u, v :: u in used && v in used && Shadows(ph, satp, cap, u, v) ==> InPage(v, Walk(ph, satp, u).entry)
    ensures NoClash(ph, satp, cap, used)
  {
    hide Walk, Slot, AnswerOf;
    forall u, v | u in used && v in used && Shadows(ph, satp, cap, u, v)
      ensures AnswerOf(Walk(ph, satp, u).entry, v) == Fresh(ph, satp, v)
    {
      WalkOfPage(ph, satp, u, v);
    }
  }

  /**
   With any power-of-two capacity two pages one capacity apart share a slot, and the second gets the first one's
   frame. That is wrong whenever the second page is not mapped, or is a small page with another frame.
   */
  lemma AliasedPages(ph: Physical, satp: u32, k: nat, u: u32, v: u32)
    requires k < 20 && Walk(ph, satp, u).Found? && !Walk(ph, satp, u).entry.big
    requires u + Pow2(k) * PAGE_4K < TWO32 && v == u + Pow2(k) * PAGE_4K
    ensures Pow2(k) < TWO32 && Shadows(ph, satp, Pow2(k), u, v)
    ensures Answers(ph, satp, Empty(Pow2(k)), [u, v])[1] == AnswerOf(Walk(ph, satp, u).entry, v)
    ensures OtherFrame(ph, satp, u, v) ==> Answers(ph, satp, Empty(Pow2(k)), [u, v])[1] != Fresh(ph, satp, v)
  {
    hide Walk, AnswerOf, Answers, Slot, OtherFrame, Fresh;
    PowersGrow(k, 20);
    PageSizes();
    AliasedSlots(k, u, v);
    ClashShows(ph, satp, Pow2(k), u, v);
    if OtherFrame(ph, satp, u, v) {
      OtherFrameShows(ph, satp, u, v);
    }
  }

  // The page of `v` is not mapped, or is a small page with another frame than that of `u`.
  predicate OtherFrame(ph: Physical, satp: u32, u: u32, v: u32)
    requires Walk(ph, satp, u).Found?
  {
    match Walk(ph, satp, v)
    case Failed(_) => true
    case Found(e) => !e.big && e.paTag != Walk(ph, satp, u).entry.paTag
  }

  lemma OtherFrameShows(ph: Physical, satp: u32, u: u32, v: u32)
    requires Walk(ph, satp, u).Found? && !Walk(ph, satp, u).entry.big && OtherFrame(ph, satp, u, v)
    ensures AnswerOf(Walk(ph, satp, u).entry, v) != Fresh(ph, satp, v)
  {
    hide Walk, Assemble;
    PhysicalAddress(ph, satp, u, v);
    if Walk(ph, satp, v).Found? {
      PhysicalAddress(ph, satp, v, v);
    }
  }

  lemma {:induction false} PowersGrow(k: nat, n: nat)
    requires k <= n
    ensures Pow2(k) <= Pow2(n)
  {
    if k < n {
      PowersGrow(k, n - 1);
    }
  }

  lemma AliasedSlots(k: nat, u: u32, v: u32)
    requires k < 20 && v == u + Pow2(k) * PAGE_4K && Pow2(k) < TWO32
    ensures Slot(u, false, Pow2(k)) == Slot(v, false, Pow2(k))
  {
    hide Pow2, Bitwise;
    var cap := Pow2(k);
    NextCapacity(u, v, cap);
    AndOnes(u / PAGE_4K, k, 32);
    AndOnes(v / PAGE_4K, k, 32);
  }

  lemma NextCapacity(u: u32, v: u32, cap: nat)
    requires cap > 0 && v == u + cap * PAGE_4K
    ensures v / PAGE_4K % cap == u / PAGE_4K % cap
  {
    var p := u / PAGE_4K;
    assert v / PAGE_4K == p + cap;
    var q, r := p / cap, p % cap;
    assert p + cap == (q + 1) * cap + r;
    ModUnique(p + cap, cap, q + 1, r);
  }
}
