/** The sorted index from guest pc to cache offset, and when its comparator is an order. */
module PcIndex {
  import opened Words
  import opened SortSearch

  datatype Item = Item(guestPc: u32, tcOffset: nat)

  // The comparator macro: the 32-bit difference read as a signed number.
  function Compare(a: Item, b: Item): int {
    Signed(Wrap(a.guestPc - b.guestPc))
  }

  function Find(index: seq<Item>, pc: u32): (r: Option<nat>)
    ensures r.Some? ==> r.value < |index| && index[r.value].guestPc == pc
  {
    CompareZero(pc);
    SearchSpec(index, Compare, Item(pc, 0))
  }

  lemma CompareZero(pc: u32)
    ensures forall b: Item :: Compare(Item(pc, 0), b) == 0 <==> b.guestPc == pc
  {
  }

  // ----- windows -----

  function Offset(w: u32, k: u32): u32 {
    Wrap(k - w)
  }

  // The half of the address space that starts at `w`.
  predicate InWindow(w: u32, k: u32) {
    Offset(w, k) < 0x8000_0000
  }

  function Rank(w: u32): Item -> int {
    (i: Item) => Offset(w, i.guestPc)
  }

  lemma WindowDifference(w: u32, a: u32, b: u32)
    requires InWindow(w, a) && InWindow(w, b)
    ensures Signed(Wrap(a - b)) == Offset(w, a) - Offset(w, b)
  {
    assert Offset(w, a) == a - w || Offset(w, a) == a - w + TWO32;
    assert Offset(w, b) == b - w || Offset(w, b) == b - w + TWO32;
    assert Wrap(a - b) == a - b || Wrap(a - b) == a - b + TWO32;
  }

  predicate Less(a: u32, b: u32) {
    Signed(Wrap(a - b)) < 0
  }

  // The comparator is a strict total order on the keys.
  ghost predicate IsOrder(keys: set<u32>) {
    && (forall a, b :: a in keys && b in keys && a != b ==> (Less(a, b) <==> !Less(b, a)))
    && (forall a, b, c :: a in keys && b in keys && c in keys && Less(a, b) && Less(b, c) ==> Less(a, c))
  }

  ghost predicate FitsWindow(keys: set<u32>, w: u32) {
    forall k :: k in keys ==> InWindow(w, k)
  }

  lemma {:induction false} LeastKey(keys: set<u32>) returns (m: u32)
    requires keys != {} && IsOrder(keys)
    ensures m in keys && forall k :: k in keys && k != m ==> Less(m, k)
  {
    var x :| x in keys;
    var rest := keys - {x};
    if rest == {} {
      assert keys == {x};
      m := x;
    } else {
      m := LeastKey(rest);
      if Less(x, m) {
        m := x;
      }
      assert forall k :: k in keys ==> k == x || k in rest;
    }
  }

  /** The pc comparator orders a set of addresses exactly when they all lie in one window of length 2^31. */
  lemma OrderIffWindow(keys: set<u32>)
    requires keys != {}
    ensures IsOrder(keys) <==> exists w: u32 :: FitsWindow(keys, w)
  {
    hide Less, InWindow;
    if IsOrder(keys) {
      var m := LeastKey(keys);
      assert FitsWindow(keys, m) by { LeastStartsWindow(keys, m); }
    }
    if w: u32 :| FitsWindow(keys, w) {
      WindowOrders(keys, w);
    }
  }

  lemma LeastStartsWindow(keys: set<u32>, m: u32)
    requires IsOrder(keys) && m in keys && forall k :: k in keys && k != m ==> Less(m, k)
    ensures FitsWindow(keys, m)
  {
    forall k | k in keys
      ensures InWindow(m, k)
    {
      if k != m {
        assert Less(m, k) && !Less(k, m);
      }
    }
  }

  lemma WindowOrders(keys: set<u32>, w: u32)
    requires FitsWindow(keys, w)
    ensures IsOrder(keys)
  {
    hide Wrap, Signed;
    forall a, b | a in keys && b in keys
      ensures Less(a, b) <==> Offset(w, a) < Offset(w, b)
      ensures a != b ==> Offset(w, a) != Offset(w, b)
    {
      WindowDifference(w, a, b);
      DistinctInWindow(w, a, b);
    }
  }

  lemma DistinctInWindow(w: u32, a: u32, b: u32)
    ensures Offset(w, a) == Offset(w, b) ==> a == b
  {
  }

  // ----- the index as a finite map -----

  // What every index built from absent keys in one window looks like.
  ghost predicate Ordered(index: seq<Item>, w: u32) {
    && (forall i :: 0 <= i < |index| ==> InWindow(w, index[i].guestPc))
    && (forall i, j :: 0 <= i < j < |index| ==> Offset(w, index[i].guestPc) < Offset(w, index[j].guestPc))
  }

  lemma OrderedPartitions(index: seq<Item>, w: u32, pc: u32)
    requires Ordered(index, w) && InWindow(w, pc)
    ensures Partitions(index, Compare, Item(pc, 0))
  {
    forall i | 0 <= i < |index|
      ensures Compare(Item(pc, 0), index[i]) == Offset(w, pc) - Offset(w, index[i].guestPc)
    {
      WindowDifference(w, pc, index[i].guestPc);
    }
  }

  /** The search answers exactly the membership question, for keys inside the window and outside it. */
  lemma FindIsMembership(index: seq<Item>, w: u32, pc: u32)
    requires Ordered(index, w)
    ensures Find(index, pc) == None <==> forall i :: 0 <= i < |index| ==> index[i].guestPc != pc
    ensures forall i :: 0 <= i < |index| && index[i].guestPc == pc ==> Find(index, pc) == Some(i)
  {
    CompareZero(pc);
    if InWindow(w, pc) {
      OrderedPartitions(index, w, pc);
      SearchFinds(index, Compare, Item(pc, 0));
    }
  }

  function Insert(index: seq<Item>, item: Item): seq<Item> {
    Inserted(index, Compare, item)
  }

  lemma InsertPlaces(index: seq<Item>, item: Item) returns (p: nat)
    ensures p <= |index| && Insert(index, item) == index[..p] + [item] + index[p..]
  {
    p := Bisect(index, Compare, item);
  }

  // In a window the comparator gives the sign of a difference of offsets.
  lemma WindowAgrees(w: u32, a: Item, b: Item)
    requires InWindow(w, a.guestPc) && InWindow(w, b.guestPc)
    ensures Agrees(Compare, Rank(w), a, b)
  {
    hide Wrap, Signed, Offset, InWindow;
    WindowDifference(w, a.guestPc, b.guestPc);
  }

  lemma RanksOnIndex(index: seq<Item>, w: u32, item: Item)
    requires Ordered(index, w) && InWindow(w, item.guestPc)
    ensures Ascending(index, Rank(w)) && AgreesAll(index, Compare, Rank(w), item)
  {
    hide Agrees, InWindow, Compare;
    forall i | 0 <= i < |index|
      ensures Agrees(Compare, Rank(w), item, index[i]) && Agrees(Compare, Rank(w), index[i], item)
    {
      WindowAgrees(w, item, index[i]);
      WindowAgrees(w, index[i], item);
    }
  }

  /** Inserting an absent key of the window keeps the index ordered and free of duplicates. */
  lemma InsertKeepsOrder(index: seq<Item>, w: u32, item: Item)
    requires Ordered(index, w) && InWindow(w, item.guestPc)
    requires forall i :: 0 <= i < |index| ==> index[i].guestPc != item.guestPc
    ensures Ordered(Insert(index, item), w)
    ensures forall x :: x in Insert(index, item) <==> x in index || x == item
    ensures |Insert(index, item)| == |index| + 1
  {
    hide Inserted, Ordered, Ascending, AgreesAll, Rank, Compare;
    RanksOnIndex(index, w, item);
    InsertedAscending(index, Compare, Rank(w), item);
    var p := InsertPlaces(index, item);
    AscendingDistinct(index, w, item, p);
  }

  lemma AscendingDistinct(index: seq<Item>, w: u32, item: Item, p: nat)
    requires Ordered(index, w) && InWindow(w, item.guestPc) && p <= |index|
    requires forall k :: 0 <= k < |index| ==> index[k].guestPc != item.guestPc
    requires Ascending(index[..p] + [item] + index[p..], Rank(w))
    ensures Ordered(index[..p] + [item] + index[p..], w)
  {
    var r := index[..p] + [item] + index[p..];
    forall i, j | 0 <= i < j < |r|
      ensures Offset(w, r[i].guestPc) < Offset(w, r[j].guestPc)
    {
      assert Rank(w)(r[i]) <= Rank(w)(r[j]);
      DistinctOffsets(index, w, item, p, i, j);
    }
  }

  lemma DistinctOffsets(index: seq<Item>, w: u32, item: Item, p: nat, i: nat, j: nat)
    requires Ordered(index, w) && InWindow(w, item.guestPc) && p <= |index| && i < j <= |index|
    requires forall k :: 0 <= k < |index| ==> index[k].guestPc != item.guestPc
    ensures var r := index[..p] + [item] + index[p..]; Offset(w, r[i].guestPc) != Offset(w, r[j].guestPc)
  {
    hide Offset, InWindow;
    var r := index[..p] + [item] + index[p..];
    assert r[i] == if i < p then index[i] else if i == p then item else index[i - 1];
    assert r[j] == if j < p then index[j] else if j == p then item else index[j - 1];
    forall k | 0 <= k < |index|
      ensures Offset(w, index[k].guestPc) != Offset(w, item.guestPc)
    {
      DistinctInWindow(w, index[k].guestPc, item.guestPc);
    }
  }

  // ----- whole histories -----

  // What happens to the index: a block is added for a pc, or the cache is flushed.
  datatype Op = Add(item: Item) | Flush

  function IndexAfter(ops: seq<Op>): seq<Item> {
    if ops == [] then []
    else
      match ops[|ops| - 1]
      case Add(item) => Insert(IndexAfter(ops[..|ops| - 1]), item)
      case Flush => []
  }

  // The finite map the index stands for.
  function MapAfter(ops: seq<Op>): map<u32, nat> {
    if ops == [] then map[]
    else
      match ops[|ops| - 1]
      case Add(item) => MapAfter(ops[..|ops| - 1])[item.guestPc := item.tcOffset]
      case Flush => map[]
  }

  // Only absent keys of one window are added, which is how the translators use the index.
  ghost predicate Legal(ops: seq<Op>, w: u32) {
    ops == [] || (Legal(ops[..|ops| - 1], w)
                  && (ops[|ops| - 1].Add? ==>
                        InWindow(w, ops[|ops| - 1].item.guestPc)
                        && ops[|ops| - 1].item.guestPc !in MapAfter(ops[..|ops| - 1])))
  }

  ghost predicate SameEntries(index: seq<Item>, m: map<u32, nat>) {
    && (forall it :: it in index ==> it.guestPc in m && m[it.guestPc] == it.tcOffset)
    && (forall pc :: pc in m ==> Item(pc, m[pc]) in index)
  }

  lemma {:induction false} HistoryKeepsEntries(ops: seq<Op>, w: u32)
    requires Legal(ops, w)
    ensures Ordered(IndexAfter(ops), w) && SameEntries(IndexAfter(ops), MapAfter(ops)) && |IndexAfter(ops)| == |MapAfter(ops)|
  {
    hide Insert, Ordered;
    if ops == [] || ops[|ops| - 1].Flush? {
      NothingIndexed(w);
    } else {
      var before := ops[..|ops| - 1];
      HistoryKeepsEntries(before, w);
      var item := ops[|ops| - 1].item;
      forall i | 0 <= i < |IndexAfter(before)|
        ensures IndexAfter(before)[i].guestPc != item.guestPc
      {
        assert IndexAfter(before)[i] in IndexAfter(before);
      }
      InsertKeepsOrder(IndexAfter(before), w, item);
    }
  }

  lemma NothingIndexed(w: u32)
    ensures Ordered([], w)
  {
  }

  /** After any history the search is the lookup of a finite map, for every key. */
  lemma IndexRefinesMap(ops: seq<Op>, w: u32, pc: u32)
    requires Legal(ops, w)
    ensures var index, m := IndexAfter(ops), MapAfter(ops);
      match Find(index, pc)
      case None => pc !in m
      case Some(k) => pc in m && index[k] == Item(pc, m[pc])
  {
    hide Find, Insert;
    HistoryKeepsEntries(ops, w);
    FindIsMembership(IndexAfter(ops), w, pc);
    var index, m := IndexAfter(ops), MapAfter(ops);
    if pc in m {
      var i :| 0 <= i < |index| && index[i] == Item(pc, m[pc]);
    } else {
      forall i | 0 <= i < |index|
        ensures index[i].guestPc != pc
      {
        assert index[i] in index;
      }
    }
  }

  /** Three addresses no window holds: their order is a cycle, so no sorted index can contain them. */
  lemma CycleWithoutWindow()
    ensures Less(0, 0x6000_0000) && Less(0x6000_0000, 0xC000_0000) && Less(0xC000_0000, 0)
    ensures !exists w: u32 :: FitsWindow({0, 0x6000_0000, 0xC000_0000}, w)
  {
    forall w: u32
      ensures !FitsWindow({0, 0x6000_0000, 0xC000_0000}, w)
    {
      if InWindow(w, 0) && InWindow(w, 0x6000_0000) && InWindow(w, 0xC000_0000) {
        WindowDifference(w, 0, 0x6000_0000);
        WindowDifference(w, 0x6000_0000, 0xC000_0000);
        WindowDifference(w, 0xC000_0000, 0);
      }
    }
  }
}
