/**
 The table of physical memory regions: registration sorts it, lookup bisects it with
 an interval comparator.
 */
module PmRegion {
  import opened Words
  import opened SortSearch

  // A half-open interval of guest physical addresses and the device behind it.
  datatype Region = Region(low: u32, high: u32, device: nat)

  const MAX_NR_PM_REGIONS: nat := 256

  function Compare(a: Region, b: Region): int {
    if a.high <= b.low then -1
    else if a.low >= b.high then 1
    else 0
  }

  // The assertions inside the comparator: ordered bounds, and no partial overlap.
  predicate CompareSafe(a: Region, b: Region) {
    && a.low <= a.high
    && b.low <= b.high
    && (Compare(a, b) == 0 ==> (a.low <= b.low && b.high <= a.high) || (b.low <= a.low && a.high <= b.high))
  }

  // The search key for one address: the interval of width one, in 32 bits.
  function Target(addr: u32): Region {
    Region(addr, Wrap(addr + 1), 0)
  }

  predicate Contains(r: Region, addr: u32) {
    r.low <= addr < r.high
  }

  predicate Disjoint(a: Region, b: Region) {
    a.high <= b.low || b.high <= a.low
  }

  function Low(r: Region): int {
    r.low
  }

  // A usable table: nonempty intervals, pairwise disjoint, by ascending address.
  ghost predicate WellFormed(s: seq<Region>) {
    && (forall i :: 0 <= i < |s| ==> s[i].low < s[i].high)
    && (forall i, j :: 0 <= i < j < |s| ==> s[i].high <= s[j].low)
  }

  /** No comparison a lookup makes can trip the comparator's assertions, except for the topmost address. */
  lemma LookupNeverAborts(addr: u32, r: Region)
    requires r.low <= r.high
    ensures CompareSafe(Target(addr), r) <==> addr < TWO32 - 1
    ensures addr < TWO32 - 1 ==> (Compare(Target(addr), r) == 0 <==> Contains(r, addr))
  {
    assert addr < TWO32 - 1 ==> Target(addr).high == addr + 1;
    assert addr == TWO32 - 1 ==> Target(addr).high == 0;
  }

  lemma TargetPartitions(s: seq<Region>, addr: u32)
    requires WellFormed(s) && addr < TWO32 - 1
    ensures Partitions(s, Compare, Target(addr))
  {
    assert Target(addr).high == addr + 1;
  }

  /** The bisection finds the one region holding the address, and reports none only when there is none. */
  lemma LookupIsIntervalSearch(s: seq<Region>, addr: u32)
    requires WellFormed(s) && addr < TWO32 - 1
    ensures match SearchSpec(s, Compare, Target(addr))
      case Some(k) => Contains(s[k], addr) && forall i :: 0 <= i < |s| && Contains(s[i], addr) ==> i == k
      case None => forall i :: 0 <= i < |s| ==> !Contains(s[i], addr)
  {
    TargetPartitions(s, addr);
    SearchFinds(s, Compare, Target(addr));
    forall i | 0 <= i < |s|
      ensures Compare(Target(addr), s[i]) == 0 <==> Contains(s[i], addr)
    {
      LookupNeverAborts(addr, s[i]);
    }
  }

  /**
   Registration only checks that the new low bound is not in a region already there.
   That makes the new region disjoint from them exactly when it also swallows no existing low bound.
   */
  lemma RegistrationGuardExact(s: seq<Region>, r: Region)
    requires WellFormed(s) && r.low < r.high
    ensures (forall i :: 0 <= i < |s| ==> Disjoint(r, s[i]))
       <==> SearchSpec(s, Compare, Target(r.low)) == None && forall i :: 0 <= i < |s| ==> !Contains(r, s[i].low)
  {
    LookupIsIntervalSearch(s, r.low);
  }

  /** Two tables of the same regions are the same table: the order of registration leaves no trace. */
  lemma {:induction false} OrderOfRegistrationIrrelevant(s: seq<Region>, t: seq<Region>)
    requires WellFormed(s) && WellFormed(t) && multiset(s) == multiset(t)
    ensures s == t
  {
    hide WellFormed;
    assert |s| == |multiset(s)| == |multiset(t)| == |t|;
    if |s| > 0 {
      HeadIsLeast(s, t);
      HeadIsLeast(t, s);
      TailsAgree(s, t);
      TailWellFormed(s);
      TailWellFormed(t);
      OrderOfRegistrationIrrelevant(s[1..], t[1..]);
      assert s == [s[0]] + s[1..];
    }
  }

  lemma TailWellFormed(s: seq<Region>)
    requires WellFormed(s) && |s| > 0
    ensures WellFormed(s[1..])
  {
  }

  lemma TailsAgree(s: seq<Region>, t: seq<Region>)
    requires |s| > 0 && |t| > 0 && s[0] == t[0] && multiset(s) == multiset(t)
    ensures multiset(s[1..]) == multiset(t[1..])
    ensures t == [s[0]] + t[1..]
  {
    MultisetOfTail(s);
    MultisetOfTail(t);
  }

  lemma MultisetOfTail<T>(s: seq<T>)
    requires |s| > 0
    ensures s == [s[0]] + s[1..]
    ensures multiset(s[1..]) == multiset(s) - multiset{s[0]}
  {
    assert s == [s[0]] + s[1..];
  }

  lemma HeadIsLeast(s: seq<Region>, t: seq<Region>)
    requires WellFormed(s) && multiset(s) == multiset(t) && |s| > 0 && |t| > 0
    ensures s[0].low <= t[0].low && (s[0].low == t[0].low ==> s[0] == t[0])
  {
    assert t[0] in multiset(s);
    var j :| 0 <= j < |s| && s[j] == t[0];
  }

  class RegionTable {
    const ops: array<Region>
    var nr: nat

    ghost predicate Valid()
      reads this, ops
    {
      ops.Length == MAX_NR_PM_REGIONS && nr <= MAX_NR_PM_REGIONS && WellFormed(ops[..nr])
    }

    ghost function Regions(): seq<Region>
      requires nr <= ops.Length
      reads this, ops
    {
      ops[..nr]
    }

    constructor ()
      ensures Valid() && fresh(ops) && Regions() == []
    {
      ops := new Region[MAX_NR_PM_REGIONS](_ => Region(0, 0, 0));
      nr := 0;
    }

    method Lookup(addr: u32) returns (found: Option<Region>)
      requires Valid() && addr < TWO32 - 1
      ensures match found
        case Some(r) => r in Regions() && Contains(r, addr) && forall q :: q in Regions() && Contains(q, addr) ==> q == r
        case None => forall q :: q in Regions() ==> !Contains(q, addr)
    {
      var k := Search(ops, nr, Compare, Target(addr));
      LookupIsIntervalSearch(Regions(), addr);
      if k.Some? {
        assert Regions()[k.value] in Regions();
        found := Some(ops[k.value]);
      } else {
        found := None;
      }
    }

    // `ok` is false when an assertion ends the emulator: on a full table, a clash at the low bound, bounds the
    // comparator cannot take, a region cut by the new one, or a region that the last lookup does not find again.
    method Register(pmr: Region) returns (ok: bool)
      requires Valid()
      modifies this, ops
      ensures nr <= ops.Length
      ensures var s := old(Regions());
        && ok == Accepted(s, pmr)
        && (ok ==> Regions() == Placed(s, pmr) && (Valid() <==> !Swallows(s, pmr)))
        && (!Admitted(s, pmr) ==> Regions() == s)
    {
      ghost var s := Regions();
      if pmr.low == TWO32 - 1 || pmr.low > pmr.high {
        return false;
      }
      var clash := Lookup(pmr.low);
      if clash != None || nr >= MAX_NR_PM_REGIONS {
        return false;
      }
      ok := InsertRegion(pmr);
      if !ok {
        return;
      }
      var present := Search(ops, nr, Compare, Target(pmr.low));
      if present == None {
        return false;
      }
      SwallowedSpoils(s, pmr);
    }

    // Appending the region and sorting puts it in its slot, unless the comparator ends the emulator.
    method InsertRegion(pmr: Region) returns (ok: bool)
      requires Valid() && nr < MAX_NR_PM_REGIONS && pmr.low <= pmr.high && Unclaimed(Regions(), pmr)
      modifies this, ops
      ensures nr == old(nr) + 1 && nr <= ops.Length
      ensures ok == !Cuts(old(Regions()), pmr) && (ok ==> Regions() == Placed(old(Regions()), pmr))
    {
      ghost var s := Regions();
      ops[nr] := pmr;
      nr := nr + 1;
      assert ops[..nr] == s + [pmr];
      SortPlaces(s, pmr);
      ok := Sort(ops, nr, Compare, CompareSafe, Low);
    }
  }

  // No region holds the low bound of the new one.
  ghost predicate Unclaimed(s: seq<Region>, pmr: Region) {
    forall q :: q in s ==> !Contains(q, pmr.low)
  }

  // What the checks in front of the insertion demand.
  ghost predicate Admitted(s: seq<Region>, pmr: Region) {
    |s| < MAX_NR_PM_REGIONS && pmr.low < TWO32 - 1 && pmr.low <= pmr.high && Unclaimed(s, pmr)
  }

  // A region there already starts inside the new one.
  ghost predicate Swallows(s: seq<Region>, pmr: Region) {
    exists q :: q in s && Contains(pmr, q.low)
  }

  // And sticks out of it.
  ghost predicate Cuts(s: seq<Region>, pmr: Region) {
    exists q :: q in s && Contains(pmr, q.low) && pmr.high < q.high
  }

  // Where the new region comes to lie: behind all that start below its end.
  function Slot(s: seq<Region>, pmr: Region): (j: nat)
    ensures j <= |s|
  {
    if s == [] || s[|s| - 1].low < pmr.high then |s| else Slot(s[..|s| - 1], pmr)
  }

  function Placed(s: seq<Region>, pmr: Region): seq<Region> {
    s[..Slot(s, pmr)] + [pmr] + s[Slot(s, pmr)..]
  }

  // Exactly then the emulator goes on: the region cuts no other, and the lookup finds it where it now lies.
  ghost predicate Accepted(s: seq<Region>, pmr: Region) {
    Admitted(s, pmr) && !Cuts(s, pmr) && SearchSpec(Placed(s, pmr), Compare, Target(pmr.low)).Some?
  }

  // ----- what the sort makes of one region behind a usable table -----

  lemma SlotSplits(s: seq<Region>, pmr: Region)
    requires WellFormed(s)
    ensures var j := Slot(s, pmr);
      (forall i :: 0 <= i < j ==> s[i].low < pmr.high) && forall i :: j <= i < |s| ==> pmr.high <= s[i].low
  {
    if s != [] && pmr.high <= s[|s| - 1].low {
      var t := s[..|s| - 1];
      SlotSplits(t, pmr);
      forall i | Slot(s, pmr) <= i < |s|
        ensures pmr.high <= s[i].low
      {
        if i < |t| { assert t[i] == s[i]; }
      }
    }
  }

  // On its way down the new region has come to position `k`.
  ghost function Moved(s: seq<Region>, pmr: Region, k: nat): seq<Region>
    requires k <= |s|
  {
    s[..k] + [pmr] + s[k..]
  }

  // A pass leaves alone what is in order.
  lemma {:induction false} BubbleQuiet(t: seq<Region>, i: nat, upTo: nat, out: nat)
    requires i <= upTo <= out < |t| && WellFormed(t[..if upTo == 0 then 0 else upTo + 1])
    ensures Bubble(t, Compare, CompareSafe, i, out) == Bubble(t, Compare, CompareSafe, upTo, out)
    decreases upTo - i
  {
    if i < upTo {
      var u := t[..upTo + 1];
      assert u[i] == t[i] && u[i + 1] == t[i + 1];
      BubbleQuiet(t, i + 1, upTo, out);
    }
  }

  lemma {:induction false} SortQuiet(t: seq<Region>, out: int)
    requires out < |t| && (out > 0 ==> WellFormed(t[..out + 1]))
    ensures SortFrom(t, Compare, CompareSafe, out) == Some(t)
    decreases out
  {
    if out > 0 {
      BubbleQuiet(t, 0, out, out);
      if out > 1 { WellFormedPrefix(t, out, out + 1); }
      SortQuiet(t, out - 1);
    }
  }

  lemma WellFormedPrefix(t: seq<Region>, i: nat, j: nat)
    requires i <= j <= |t| && WellFormed(t[..j])
    ensures WellFormed(t[..i])
  {
    assert t[..i] == t[..j][..i];
  }

  lemma Neighbour(q: Region, pmr: Region)
    requires q.low < q.high && pmr.low <= pmr.high && !Contains(q, pmr.low)
    ensures Compare(q, pmr) > 0 <==> pmr.high <= q.low
    ensures CompareSafe(q, pmr) <==> !(Contains(pmr, q.low) && pmr.high < q.high)
    ensures pmr.high <= q.low ==> CompareSafe(q, pmr)
  {
  }

  // The pass that meets the new region at `k` compares it with its neighbour below and moves it down or not.
  lemma PassMoves(s: seq<Region>, pmr: Region, k: nat)
    requires WellFormed(s) && pmr.low <= pmr.high && Unclaimed(s, pmr) && 0 < k <= |s|
    ensures Bubble(Moved(s, pmr, k), Compare, CompareSafe, 0, k) ==
      if pmr.high <= s[k - 1].low then Some(Moved(s, pmr, k - 1))
      else if Contains(pmr, s[k - 1].low) && pmr.high < s[k - 1].high then None
      else Some(Moved(s, pmr, k))
  {
    hide Compare, CompareSafe, Contains;
    var t, q := Moved(s, pmr, k), s[k - 1];
    Neighbour(q, pmr);
    assert Bubble(t, Compare, CompareSafe, 0, k) == Bubble(t, Compare, CompareSafe, k - 1, k) by {
      assert t[..k] == s[..k];
      PrefixWellFormed(s, k);
      if k > 1 { BubbleQuiet(t, 0, k - 1, k); }
    }
    hide WellFormed;
    assert t[k - 1] == q && t[k] == pmr;
    var u := if Compare(q, pmr) > 0 then Swapped(t, k - 1) else t;
    assert Compare(q, pmr) > 0 ==> u == Moved(s, pmr, k - 1);
    assert Bubble(u, Compare, CompareSafe, k, k) == Some(u);
  }

  lemma {:induction false} SortMoves(s: seq<Region>, pmr: Region, k: nat)
    requires WellFormed(s) && pmr.low <= pmr.high && Unclaimed(s, pmr) && Slot(s, pmr) <= k <= |s|
    ensures SortFrom(Moved(s, pmr, k), Compare, CompareSafe, k) == if Cuts(s, pmr) then None else Some(Placed(s, pmr))
    decreases k
  {
    hide Cuts, Slot, WellFormed;
    SlotSplits(s, pmr);
    var j := Slot(s, pmr);
    CutsAtSlot(s, pmr);
    if k > 0 {
      PassMoves(s, pmr, k);
      if k > j {
        SortMoves(s, pmr, k - 1);
      } else if !Cuts(s, pmr) {
        var t := Moved(s, pmr, k);
        assert t[..k] == s[..k];
        PrefixWellFormed(s, k);
        SortQuiet(t, k - 1);
      }
    }
  }

  lemma PrefixWellFormed(s: seq<Region>, k: nat)
    requires WellFormed(s) && k <= |s|
    ensures WellFormed(s[..k])
  {
  }

  // Only the last region that starts below the end of the new one can stick out of it.
  lemma CutsAtSlot(s: seq<Region>, pmr: Region)
    requires WellFormed(s)
    ensures var j := Slot(s, pmr); Cuts(s, pmr) <==> j > 0 && Contains(pmr, s[j - 1].low) && pmr.high < s[j - 1].high
  {
    SlotSplits(s, pmr);
    var j := Slot(s, pmr);
    if Cuts(s, pmr) {
      var q :| q in s && Contains(pmr, q.low) && pmr.high < q.high;
      var i :| 0 <= i < |s| && s[i] == q;
      assert i < j;
      assert i < j - 1 ==> s[i].high <= s[j - 1].low;
    }
  }

  lemma SortPlaces(s: seq<Region>, pmr: Region)
    requires WellFormed(s) && pmr.low <= pmr.high && Unclaimed(s, pmr)
    ensures SortSpec(s + [pmr], Compare, CompareSafe) == if Cuts(s, pmr) then None else Some(Placed(s, pmr))
  {
    assert Moved(s, pmr, |s|) == s + [pmr];
    SortMoves(s, pmr, |s|);
  }

  // ----- when the region is found again -----

  // A lookup that finds a region of the table finds one that holds the address, so an empty region is never found.
  lemma FoundIsContained(s: seq<Region>, pmr: Region)
    requires WellFormed(s) && Admitted(s, pmr) && SearchSpec(Placed(s, pmr), Compare, Target(pmr.low)).Some?
    ensures pmr.low < pmr.high
  {
    var r := Placed(s, pmr);
    var x := r[SearchSpec(r, Compare, Target(pmr.low)).value];
    assert x in s || x == pmr;
    LookupNeverAborts(pmr.low, x);
  }

  // A swallowed start leaves two overlapping regions; otherwise the table is usable.
  lemma SwallowedSpoils(s: seq<Region>, pmr: Region)
    requires WellFormed(s) && Admitted(s, pmr) && SearchSpec(Placed(s, pmr), Compare, Target(pmr.low)).Some?
    ensures WellFormed(Placed(s, pmr)) <==> !Swallows(s, pmr)
  {
    FoundIsContained(s, pmr);
    var r, j := Placed(s, pmr), Slot(s, pmr);
    if Swallows(s, pmr) {
      var q :| q in s && Contains(pmr, q.low);
      var i :| 0 <= i < |s| && s[i] == q;
      SlotSplits(s, pmr);
      assert r[i] == q && r[j] == pmr && i < j;
    } else {
      PlacedWellFormed(s, pmr);
    }
  }

  lemma PlacedWellFormed(s: seq<Region>, pmr: Region)
    requires WellFormed(s) && Unclaimed(s, pmr) && pmr.low < pmr.high && !Swallows(s, pmr)
    ensures WellFormed(Placed(s, pmr))
  {
    hide WellFormed, Slot;
    SlotSplits(s, pmr);
    var j := Slot(s, pmr);
    forall i | 0 <= i < j
      ensures s[i].high <= pmr.low
    {
      assert s[i] in s;
    }
    InsertedWellFormed(s, pmr, j);
  }

  lemma InsertedWellFormed(s: seq<Region>, pmr: Region, j: nat)
    requires WellFormed(s) && pmr.low < pmr.high && j <= |s|
    requires (forall i :: 0 <= i < j ==> s[i].high <= pmr.low) && forall i :: j <= i < |s| ==> pmr.high <= s[i].low
    ensures WellFormed(s[..j] + [pmr] + s[j..])
  {
  }

  /**
   A region that covers the start of no other is accepted by nothing more than the checks in front, and leaves
   the table usable.
   */
  lemma CleanIsAccepted(s: seq<Region>, pmr: Region)
    requires WellFormed(s) && !Swallows(s, pmr)
    ensures Accepted(s, pmr) <==> Admitted(s, pmr) && pmr.low < pmr.high
  {
    hide WellFormed, Slot;
    if Admitted(s, pmr) && pmr.low < pmr.high {
      PlacedWellFormed(s, pmr);
      LookupIsIntervalSearch(Placed(s, pmr), pmr.low);
      assert Placed(s, pmr)[Slot(s, pmr)] == pmr;
    } else if Accepted(s, pmr) {
      FoundIsContained(s, pmr);
    }
  }

  /** A region that covers another whole is accepted where the lookup finds it, and two regions then hold an address. */
  lemma CoveringSpoils()
    ensures var s, pmr := [Region(10, 20, 1)], Region(0, 30, 2);
      WellFormed(s) && Accepted(s, pmr) && Placed(s, pmr) == [s[0], pmr] && !WellFormed(Placed(s, pmr))
  {
    var s, pmr := [Region(10, 20, 1)], Region(0, 30, 2);
    assert Placed(s, pmr) == [s[0], pmr];
    assert Compare(Target(0), s[0]) != 0 && Compare(Target(0), pmr) == 0;
    assert SearchFrom([s[0], pmr], Compare, Target(0), 0, 1) == Some(1);
  }

  /** Where the probes of the lookup miss it, the last assertion ends the emulator. */
  lemma CoveringIsLost()
    ensures var s, pmr := [Region(10, 20, 1), Region(20, 30, 2), Region(40, 50, 3)], Region(0, 35, 4);
      WellFormed(s) && Admitted(s, pmr) && !Cuts(s, pmr) && !Accepted(s, pmr)
  {
    var a, b, c, pmr := Region(10, 20, 1), Region(20, 30, 2), Region(40, 50, 3), Region(0, 35, 4);
    var s, r := [a, b, c], [a, b, pmr, c];
    assert s[..2] == [a, b];
    assert Slot(s, pmr) == Slot(s[..2], pmr) == 2;
    assert Placed(s, pmr) == r;
    assert SearchSpec(r, Compare, Target(0)) == None by {
      SignsOfLost(a, b, c, pmr);
      hide Compare, Target;
      assert SearchFrom(r, Compare, Target(0), 0, 1) == None;
      assert SearchFrom(r, Compare, Target(0), 0, 3) == None;
    }
  }

  lemma SignsOfLost(a: Region, b: Region, c: Region, pmr: Region)
    requires a == Region(10, 20, 1) && b == Region(20, 30, 2) && c == Region(40, 50, 3)
    ensures Compare(Target(0), a) == -1 && Compare(Target(0), b) == -1 && Compare(Target(0), c) == -1
  {
  }

  /** A region that cuts another ends the emulator in the comparator. */
  lemma CuttingEnds()
    ensures var s, pmr := [Region(10, 20, 1)], Region(5, 15, 2);
      WellFormed(s) && Admitted(s, pmr) && Cuts(s, pmr) && SortSpec(s + [pmr], Compare, CompareSafe) == None
  {
    var s, pmr := [Region(10, 20, 1)], Region(5, 15, 2);
    assert s[0] in s && Contains(pmr, s[0].low);
    SortPlaces(s, pmr);
  }
}
