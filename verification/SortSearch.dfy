/**
 The three table macros of the emulator: the bubble `SORT`, the bisecting
 `INSERTION_SORT` of a last element, and the two-ended binary `SEARCH`.
 Each takes its comparator as a parameter, as the macros do.
 */
module SortSearch {
  import opened Words

  type Comparator<!T> = (T, T) -> int

  // ----- SEARCH -----

  // What the probing loop returns for the bounds `lo..hi`.
  function SearchFrom<T>(s: seq<T>, comp: Comparator<T>, target: T, lo: int, hi: int): (r: Option<nat>)
    requires 0 <= lo && hi < |s|
    ensures r.Some? ==> r.value < |s| && comp(target, s[r.value]) == 0
    decreases hi - lo
  {
    if lo > hi then None
    else if comp(target, s[lo]) == 0 then Some(lo)
    else if comp(target, s[hi]) == 0 then Some(hi)
    else
      var mid := (lo + hi) / 2;
      if mid == lo || mid == hi then None
      else if comp(target, s[mid]) < 0 then SearchFrom(s, comp, target, lo, mid)
      else SearchFrom(s, comp, target, mid, hi)
  }

  function SearchSpec<T>(s: seq<T>, comp: Comparator<T>, target: T): (r: Option<nat>)
    ensures r.Some? ==> r.value < |s| && comp(target, s[r.value]) == 0
  {
    SearchFrom(s, comp, target, 0, |s| - 1)
  }

  method Search<T>(a: array<T>, num: nat, comp: Comparator<T>, target: T) returns (found: Option<nat>)
    requires num <= a.Length
    ensures found == SearchSpec(a[..num], comp, target)
  {
    found := None;
    var low, high := 0, num - 1;
    while low <= high
      invariant 0 <= low && high < num
      invariant found == None
      invariant SearchFrom(a[..num], comp, target, low, high) == SearchSpec(a[..num], comp, target)
      decreases high - low
    {
      if comp(target, a[low]) == 0 {
        found := Some(low);
        break;
      } else if comp(target, a[high]) == 0 {
        found := Some(high);
        break;
      } else {
        var mid := (low + high) / 2;
        if mid == low || mid == high {
          break;
        }
        if comp(target, a[mid]) < 0 {
          high := mid;
        } else {
          low := mid;
        }
      }
    }
  }

  // The target splits the table: entries above it, then matches, then entries below it.
  ghost predicate Partitions<T>(s: seq<T>, comp: Comparator<T>, target: T) {
    forall i, j :: 0 <= i < j < |s| ==>
      && (comp(target, s[i]) <= 0 ==> comp(target, s[j]) < 0)
      && (comp(target, s[j]) >= 0 ==> comp(target, s[i]) > 0)
  }

  lemma {:induction false} SearchFromComplete<T>(s: seq<T>, comp: Comparator<T>, target: T, lo: int, hi: int, k: int)
    requires 0 <= lo <= k <= hi < |s|
    requires Partitions(s, comp, target)
    requires comp(target, s[k]) == 0
    ensures SearchFrom(s, comp, target, lo, hi) == Some(k)
    decreases hi - lo
  {
    if k != lo && k != hi {
      var mid := (lo + hi) / 2;
      assert lo < mid < hi;
      if comp(target, s[mid]) < 0 {
        SearchFromComplete(s, comp, target, lo, mid, k);
      } else {
        SearchFromComplete(s, comp, target, mid, hi, k);
      }
    }
  }

  /** On a table the target splits, the search finds the entry exactly when there is one. */
  lemma SearchFinds<T>(s: seq<T>, comp: Comparator<T>, target: T)
    requires Partitions(s, comp, target)
    ensures forall k :: 0 <= k < |s| ==> (comp(target, s[k]) == 0 <==> SearchSpec(s, comp, target) == Some(k))
    ensures SearchSpec(s, comp, target) == None <==> forall k :: 0 <= k < |s| ==> comp(target, s[k]) != 0
  {
    forall k | 0 <= k < |s| && comp(target, s[k]) == 0
      ensures SearchSpec(s, comp, target) == Some(k)
    {
      SearchFromComplete(s, comp, target, 0, |s| - 1, k);
    }
  }

  // ----- orders -----

  // On the elements of `s` the comparator gives the sign of a difference of ranks.
  ghost predicate Ranks<T>(s: seq<T>, comp: Comparator<T>, rank: T -> int) {
    forall x, y :: x in s && y in s ==> Agrees(comp, rank, x, y)
  }

  ghost predicate Agrees<T>(comp: Comparator<T>, rank: T -> int, x: T, y: T) {
    && (comp(x, y) < 0 <==> rank(x) < rank(y))
    && (comp(x, y) == 0 <==> rank(x) == rank(y))
  }

  ghost predicate Ascending<T>(s: seq<T>, rank: T -> int) {
    forall i, j :: 0 <= i < j < |s| ==> rank(s[i]) <= rank(s[j])
  }

  // ----- INSERTION_SORT -----

  // The slot the bisection picks for `x` among the already placed entries `s`.
  function BisectFrom<T>(s: seq<T>, comp: Comparator<T>, x: T, lo: int, hi: int): (p: nat)
    requires 0 <= lo <= hi < |s|
    ensures p <= |s|
    decreases hi - lo
  {
    if comp(x, s[lo]) <= 0 then lo
    else if comp(s[hi], x) <= 0 then hi + 1
    else
      var mid := (lo + hi) / 2;
      if mid == lo || mid == hi then mid + 1
      else if comp(x, s[mid]) < 0 then BisectFrom(s, comp, x, lo, mid)
      else BisectFrom(s, comp, x, mid, hi)
  }

  function Bisect<T>(s: seq<T>, comp: Comparator<T>, x: T): (p: nat)
    ensures p <= |s|
  {
    if |s| == 0 then 0 else BisectFrom(s, comp, x, 0, |s| - 1)
  }

  function Inserted<T>(s: seq<T>, comp: Comparator<T>, x: T): seq<T> {
    var p := Bisect(s, comp, x);
    s[..p] + [x] + s[p..]
  }

  method InsertionSort<T>(a: array<T>, num: nat, comp: Comparator<T>)
    requires num <= a.Length
    modifies a
    ensures num > 0 ==> a[..num] == Inserted(old(a[..num - 1]), comp, old(a[num - 1]))
    ensures a[num..] == old(a[num..])
  {
    if num > 0 {
      ghost var s := a[..];
      var move := BisectTarget(a, num, comp);
      ShiftUp(a, num, move);
      ShiftedParts(s, move, num);
    }
  }

  // The first half of the macro: where the last element belongs.
  method BisectTarget<T>(a: array<T>, num: nat, comp: Comparator<T>) returns (move: nat)
    requires 0 < num <= a.Length
    ensures move < num && move == Bisect(a[..num - 1], comp, a[num - 1])
  {
    var target := a[num - 1];
    var low, high := 0, num - 2;
    move := 0;
    while low <= high
      invariant 0 <= low && high < num - 1 && (low <= high || num == 1)
      invariant move == 0
      invariant num > 1 ==> BisectFrom(a[..num - 1], comp, target, low, high) == Bisect(a[..num - 1], comp, target)
      decreases high - low
    {
      if comp(target, a[low]) <= 0 {
        move := low;
        break;
      } else if comp(a[high], target) <= 0 {
        move := high + 1;
        break;
      } else {
        var mid := (low + high) / 2;
        if mid == low || mid == high {
          move := mid + 1;
          break;
        }
        if comp(target, a[mid]) < 0 {
          high := mid;
        } else {
          low := mid;
        }
      }
    }
  }

  // The tail of the macro: move `a[move..num - 1]` up by one and drop the last element in the gap.
  method ShiftUp<T>(a: array<T>, num: nat, move: nat)
    requires move < num <= a.Length
    modifies a
    ensures a[..] == Shifted(old(a[..]), move, num)
  {
    ghost var s := a[..];
    if move < num - 1 {
      var tmp := a[num - 1];
      var i := num - 1;
      Shifting0(s, num);
      while i > move
        invariant move <= i <= num - 1
        invariant a[..] == Shifting(s, i, num)
      {
        ghost var t := a[..];
        a[i] := a[i - 1];
        assert a[..] == t[i := t[i - 1]];
        ShiftOne(s, i, num);
        i := i - 1;
      }
      ghost var t := a[..];
      a[move] := tmp;
      assert a[..] == t[move := tmp];
    }
    ShiftDone(s, move, num);
  }

  // The last of the first `num` elements moved down to `move`.
  ghost function Shifted<T>(s: seq<T>, move: nat, num: nat): seq<T>
    requires move < num <= |s|
  {
    s[..move] + [s[num - 1]] + s[move..num - 1] + s[num..]
  }

  // Half way: the gap has come down to `i`.
  ghost function Shifting<T>(s: seq<T>, i: nat, num: nat): seq<T>
    requires i < num <= |s|
  {
    s[..i + 1] + s[i..num - 1] + s[num..]
  }

  lemma Shifting0<T>(s: seq<T>, num: nat)
    requires 0 < num <= |s|
    ensures Shifting(s, num - 1, num) == s
  {
  }

  lemma ShiftOne<T>(s: seq<T>, i: nat, num: nat)
    requires 0 < i < num <= |s|
    ensures var t := Shifting(s, i, num); |t| == |s| && t[i := t[i - 1]] == Shifting(s, i - 1, num)
  {
  }

  lemma ShiftDone<T>(s: seq<T>, move: nat, num: nat)
    requires move < num <= |s|
    ensures Shifting(s, move, num)[move := s[num - 1]] == Shifted(s, move, num)
    ensures move == num - 1 ==> Shifted(s, move, num) == s
  {
  }

  lemma ShiftedParts<T>(s: seq<T>, move: nat, num: nat)
    requires move < num <= |s|
    ensures Shifted(s, move, num)[..num] == s[..num - 1][..move] + [s[num - 1]] + s[..num - 1][move..]
    ensures Shifted(s, move, num)[num..] == s[num..]
  {
  }

  ghost predicate SplitsAt<T>(s: seq<T>, rank: T -> int, x: T, p: nat)
    requires p <= |s|
  {
    && (p > 0 ==> rank(s[p - 1]) <= rank(x))
    && (p < |s| ==> rank(x) <= rank(s[p]))
  }

  ghost predicate AgreesAll<T>(s: seq<T>, comp: Comparator<T>, rank: T -> int, x: T) {
    forall i :: 0 <= i < |s| ==> Agrees(comp, rank, x, s[i]) && Agrees(comp, rank, s[i], x)
  }

  lemma {:induction false} BisectFromSplits<T>(s: seq<T>, comp: Comparator<T>, rank: T -> int, x: T, lo: int, hi: int)
    requires 0 <= lo <= hi < |s|
    requires Ascending(s, rank) && AgreesAll(s, comp, rank, x)
    requires lo > 0 ==> rank(s[lo]) <= rank(x)
    requires hi < |s| - 1 ==> rank(x) <= rank(s[hi])
    ensures SplitsAt(s, rank, x, BisectFrom(s, comp, x, lo, hi))
    decreases hi - lo
  {
    var p := BisectFrom(s, comp, x, lo, hi);
    var mid := (lo + hi) / 2;
    AgreesAt(s, comp, rank, x, lo);
    AgreesAt(s, comp, rank, x, hi);
    AgreesAt(s, comp, rank, x, mid);
    hide AgreesAll;
    if comp(x, s[lo]) <= 0 {
      assert p == lo;
      assert lo > 0 ==> rank(s[lo - 1]) <= rank(s[lo]);
    } else if comp(s[hi], x) <= 0 {
      assert p == hi + 1;
      assert hi < |s| - 1 ==> rank(s[hi]) <= rank(s[hi + 1]);
    } else {
      hide Ascending;
      if mid == lo || mid == hi {
        assert lo < hi;
        assert p == lo + 1 == hi;
      } else if comp(x, s[mid]) < 0 {
        BisectFromSplits(s, comp, rank, x, lo, mid);
      } else {
        BisectFromSplits(s, comp, rank, x, mid, hi);
      }
    }
  }

  lemma AgreesAt<T>(s: seq<T>, comp: Comparator<T>, rank: T -> int, x: T, i: nat)
    requires AgreesAll(s, comp, rank, x) && i < |s|
    ensures comp(x, s[i]) < 0 <==> rank(x) < rank(s[i])
    ensures comp(x, s[i]) <= 0 <==> rank(x) <= rank(s[i])
    ensures comp(s[i], x) <= 0 <==> rank(s[i]) <= rank(x)
  {
  }

  /** Inserting into an ascending table keeps it ascending. */
  lemma InsertedAscending<T>(s: seq<T>, comp: Comparator<T>, rank: T -> int, x: T)
    requires Ascending(s, rank) && AgreesAll(s, comp, rank, x)
    ensures Ascending(Inserted(s, comp, x), rank)
  {
    var p := Bisect(s, comp, x);
    if |s| > 0 {
      BisectFromSplits(s, comp, rank, x, 0, |s| - 1);
    }
    AscendingAround(s, rank, x, p);
  }

  lemma AscendingAround<T>(s: seq<T>, rank: T -> int, x: T, p: nat)
    requires p <= |s| && Ascending(s, rank)
    requires SplitsAt(s, rank, x, p)
    ensures Ascending(s[..p] + [x] + s[p..], rank)
  {
    var r := s[..p] + [x] + s[p..];
    forall i, j | 0 <= i < j < |r|
      ensures rank(r[i]) <= rank(r[j])
    {
      assert i < p ==> r[i] == s[i];
      assert i > p ==> r[i] == s[i - 1];
      assert j < p ==> r[j] == s[j];
      assert j > p ==> r[j] == s[j - 1];
      assert i < p ==> i == p - 1 || rank(s[i]) <= rank(s[p - 1]);
      assert j > p ==> j - 1 == p || rank(s[p]) <= rank(s[j - 1]);
    }
  }

  /** Insertion adds exactly the new element, whatever the comparator does. */
  lemma InsertedMultiset<T>(s: seq<T>, comp: Comparator<T>, x: T)
    ensures multiset(Inserted(s, comp, x)) == multiset(s) + multiset{x}
  {
    var p := Bisect(s, comp, x);
    assert s == s[..p] + s[p..];
  }

  // ----- SORT -----

  // Every element after `out` is in its final place.
  ghost predicate Settled<T>(s: seq<T>, rank: T -> int, out: int) {
    forall i, j :: 0 <= i < j < |s| && out < j ==> rank(s[i]) <= rank(s[j])
  }

  function Swapped<T>(s: seq<T>, i: nat): (t: seq<T>)
    requires i + 1 < |s|
  {
    s[i := s[i + 1]][i + 1 := s[i]]
  }

  lemma SwappedKeeps<T>(s: seq<T>, rank: T -> int, i: nat, out: int)
    requires i < out < |s|
    requires Settled(s, rank, out)
    ensures Settled(Swapped(s, i), rank, out)
  {
  }

  // Following a ranking is a matter of the elements, not of their order.
  lemma RanksOfMultiset<T>(s: seq<T>, t: seq<T>, comp: Comparator<T>, rank: T -> int)
    requires multiset(s) == multiset(t)
    ensures Ranks(s, comp, rank) ==> Ranks(t, comp, rank)
  {
    forall x | x in t
      ensures x in s
    {
      assert x in multiset(t);
    }
  }

  // The inner loop from position `i` on.  The comparator may end the program, which is `None`: `safe` says on
  // which pairs it comes to an answer.
  function Bubble<T>(s: seq<T>, comp: Comparator<T>, safe: (T, T) -> bool, i: nat, out: nat): (r: Option<seq<T>>)
    requires out < |s|
    ensures r.Some? ==> |r.value| == |s|
    decreases out - i
  {
    if i >= out then Some(s)
    else if !safe(s[i], s[i + 1]) then None
    else Bubble(if comp(s[i], s[i + 1]) > 0 then Swapped(s, i) else s, comp, safe, i + 1, out)
  }

  // The outer loop from `out` on.
  function SortFrom<T>(s: seq<T>, comp: Comparator<T>, safe: (T, T) -> bool, out: int): Option<seq<T>>
    requires out < |s|
    decreases out
  {
    if out <= 0 then Some(s)
    else
      match Bubble(s, comp, safe, 0, out)
      case None => None
      case Some(t) => SortFrom(t, comp, safe, out - 1)
  }

  function SortSpec<T>(s: seq<T>, comp: Comparator<T>, safe: (T, T) -> bool): Option<seq<T>> {
    SortFrom(s, comp, safe, |s| - 1)
  }

  // One pass permutes, and lets the largest of the first `out + 1` elements bubble up to `out`.
  lemma {:induction false} BubbleSettles<T>(s: seq<T>, comp: Comparator<T>, safe: (T, T) -> bool, rank: T -> int, i: nat, out: nat)
    requires i <= out < |s|
    requires Ranks(s, comp, rank) ==> Settled(s, rank, out) && Bubbled(s, rank, i)
    ensures match Bubble(s, comp, safe, i, out)
      case None => true
      case Some(t) =>
        |t| == |s| && multiset(t) == multiset(s) && (Ranks(s, comp, rank) && out > 0 ==> Settled(t, rank, out - 1))
    decreases out - i
  {
    hide Ranks, Settled, Bubbled, Agrees;
    if i < out {
      if safe(s[i], s[i + 1]) {
        SwapRight(s, comp, rank, i, out);
        var t := if comp(s[i], s[i + 1]) > 0 then Swapped(s, i) else s;
        BubbleSettles(t, comp, safe, rank, i + 1, out);
        RanksOfMultiset(s, t, comp, rank);
      }
    } else if Ranks(s, comp, rank) && out > 0 {
      BubbledSettles(s, rank, out);
    }
  }

  lemma {:induction false} SortFromOrders<T>(s: seq<T>, comp: Comparator<T>, safe: (T, T) -> bool, rank: T -> int, out: int)
    requires out < |s| && (Ranks(s, comp, rank) ==> Settled(s, rank, if out > 0 then out else 0))
    ensures match SortFrom(s, comp, safe, out)
      case None => true
      case Some(t) => |t| == |s| && multiset(t) == multiset(s) && (Ranks(s, comp, rank) ==> Ascending(t, rank))
    decreases out
  {
    hide Ranks, Settled, Bubbled, Bubble;
    if out > 0 {
      NothingBubbled(s, rank);
      BubbleSettles(s, comp, safe, rank, 0, out);
      var t := Bubble(s, comp, safe, 0, out);
      if t.Some? {
        RanksOfMultiset(s, t.value, comp, rank);
        RanksOfMultiset(t.value, s, comp, rank);
        SortFromOrders(t.value, comp, safe, rank, out - 1);
      }
    } else if Ranks(s, comp, rank) {
      SettledAscends(s, rank);
    }
  }

  lemma NothingBubbled<T>(s: seq<T>, rank: T -> int)
    ensures |s| > 0 ==> Bubbled(s, rank, 0)
  {
  }

  lemma SettledAscends<T>(s: seq<T>, rank: T -> int)
    requires Settled(s, rank, 0)
    ensures Ascending(s, rank)
  {
  }

  lemma NothingToSettle<T>(s: seq<T>, rank: T -> int)
    ensures Settled(s, rank, if |s| > 1 then |s| - 1 else 0)
  {
  }

  /** The sort permutes its elements whatever the comparator does, and orders them if it follows a ranking. */
  lemma SortOrders<T>(s: seq<T>, comp: Comparator<T>, safe: (T, T) -> bool, rank: T -> int)
    ensures match SortSpec(s, comp, safe)
      case None => true
      case Some(t) => multiset(t) == multiset(s) && (Ranks(s, comp, rank) ==> Ascending(t, rank))
  {
    hide Ranks, Settled;
    NothingToSettle(s, rank);
    SortFromOrders(s, comp, safe, rank, |s| - 1);
  }

  lemma SortGoesOn<T>(s: seq<T>, comp: Comparator<T>, safe: (T, T) -> bool, out: int)
    requires out < |s|
    ensures SortFrom(s, comp, safe, out) ==
      if out <= 0 then Some(s)
      else var r := Bubble(s, comp, safe, 0, out); if r == None then None else SortFrom(r.value, comp, safe, out - 1)
  {
    hide Bubble;
  }

  // `ok` is false when the comparator has ended the program.
  method Sort<T>(a: array<T>, num: nat, comp: Comparator<T>, safe: (T, T) -> bool, ghost rank: T -> int) returns (ok: bool)
    requires num <= a.Length
    modifies a
    ensures SortSpec(old(a[..num]), comp, safe) == if ok then Some(a[..num]) else None
    ensures ok ==> multiset(a[..num]) == multiset(old(a[..num]))
    ensures ok && Ranks(old(a[..num]), comp, rank) ==> Ascending(a[..num], rank)
    ensures a[num..] == old(a[num..])
  {
    hide SortFrom, Bubble, Ranks, Ascending, Settled;
    ok := true;
    SortOrders(a[..num], comp, safe, rank);
    var out := num - 1;
    while out > 0
      invariant out < num
      invariant ok && SortFrom(a[..num], comp, safe, out) == SortSpec(old(a[..num]), comp, safe)
      invariant a[num..] == old(a[num..])
    {
      SortGoesOn(a[..num], comp, safe, out);
      ok := BubblePass(a, num, comp, safe, rank, out);
      if !ok {
        return;
      }
      out := out - 1;
    }
    SortGoesOn(a[..num], comp, safe, out);
  }

  // One run of the inner loop.
  method BubblePass<T>(a: array<T>, num: nat, comp: Comparator<T>, safe: (T, T) -> bool, ghost rank: T -> int, out: nat)
    returns (ok: bool)
    requires 0 < out < num <= a.Length
    modifies a
    ensures Bubble(old(a[..num]), comp, safe, 0, out) == if ok then Some(a[..num]) else None
    ensures ok ==> multiset(a[..num]) == multiset(old(a[..num]))
    ensures ok && Ranks(old(a[..num]), comp, rank) && Settled(old(a[..num]), rank, out) ==> Settled(a[..num], rank, out - 1)
    ensures a[num..] == old(a[num..])
  {
    ghost var s := a[..num];
    if Settled(s, rank, out) {
      NothingBubbled(s, rank);
      BubbleSettles(s, comp, safe, rank, 0, out);
    }
    BubbleSettles(s, comp, safe, (_: T) => 0, 0, out);
    ok := true;
    var i := 0;
    while i < out
      invariant i <= out && ok
      invariant Bubble(a[..num], comp, safe, i, out) == Bubble(s, comp, safe, 0, out)
      invariant a[num..] == old(a[num..])
    {
      ok := CompareSwap(a, num, comp, safe, i);
      if !ok {
        return;
      }
      i := i + 1;
    }
  }

  // The element at `i` is the largest up to there.
  ghost predicate Bubbled<T>(s: seq<T>, rank: T -> int, i: nat)
    requires i < |s|
  {
    forall k :: 0 <= k < i ==> rank(s[k]) <= rank(s[i])
  }

  lemma BubbledSettles<T>(s: seq<T>, rank: T -> int, out: nat)
    requires 0 < out < |s| && Settled(s, rank, out) && Bubbled(s, rank, out)
    ensures Settled(s, rank, out - 1)
  {
  }

  lemma SwapBubbles<T>(s: seq<T>, rank: T -> int, i: nat)
    requires i + 1 < |s| && Bubbled(s, rank, i)
    ensures rank(s[i]) <= rank(s[i + 1]) ==> Bubbled(s, rank, i + 1)
    ensures rank(s[i]) > rank(s[i + 1]) ==> Bubbled(Swapped(s, i), rank, i + 1)
  {
  }

  // The body of the inner loop: exchange two neighbours that are out of order.
  method CompareSwap<T>(a: array<T>, num: nat, comp: Comparator<T>, safe: (T, T) -> bool, i: nat) returns (ok: bool)
    requires i + 1 < num <= a.Length
    modifies a
    ensures ok == old(safe(a[i], a[i + 1]))
    ensures ok ==> a[..num] == var s := old(a[..num]); if comp(s[i], s[i + 1]) > 0 then Swapped(s, i) else s
    ensures a[num..] == old(a[num..])
  {
    ghost var s := a[..num];
    ok := safe(a[i], a[i + 1]);
    if ok && comp(a[i], a[i + 1]) > 0 {
      a[i], a[i + 1] := a[i + 1], a[i];
      assert a[..num] == Swapped(s, i);
    }
  }

  lemma SwapRight<T>(s: seq<T>, comp: Comparator<T>, rank: T -> int, i: nat, out: nat)
    requires i < out < |s|
    requires Ranks(s, comp, rank) ==> Settled(s, rank, out) && Bubbled(s, rank, i)
    ensures var t := if comp(s[i], s[i + 1]) > 0 then Swapped(s, i) else s;
      && multiset(t) == multiset(s)
      && (Ranks(t, comp, rank) ==> Settled(t, rank, out) && Bubbled(t, rank, i + 1))
  {
    hide Ranks, Settled, Bubbled, Agrees;
    var t := if comp(s[i], s[i + 1]) > 0 then Swapped(s, i) else s;
    SwappedMultiset(s, i);
    if Ranks(t, comp, rank) {
      RanksOfMultiset(t, s, comp, rank);
      SwapBubbles(s, rank, i);
      NeighboursAgree(s, comp, rank, i);
      SwappedKeeps(s, rank, i, out);
    }
  }

  lemma NeighboursAgree<T>(s: seq<T>, comp: Comparator<T>, rank: T -> int, i: nat)
    requires i + 1 < |s| && Ranks(s, comp, rank)
    ensures comp(s[i], s[i + 1]) > 0 <==> rank(s[i]) > rank(s[i + 1])
  {
    assert s[i] in s && s[i + 1] in s;
    assert Agrees(comp, rank, s[i], s[i + 1]);
  }

  lemma SwappedMultiset<T>(s: seq<T>, i: nat)
    requires i + 1 < |s|
    ensures multiset(Swapped(s, i)) == multiset(s)
  {
    var a, x, y, b := s[..i], s[i], s[i + 1], s[i + 2..];
    assert s == a + [x, y] + b;
    assert Swapped(s, i) == a + [y, x] + b;
    PairMultiset(a, x, y, b);
  }

  lemma PairMultiset<T>(a: seq<T>, x: T, y: T, b: seq<T>)
    ensures multiset(a + [y, x] + b) == multiset(a + [x, y] + b)
  {
    assert multiset([y, x]) == multiset([x, y]);
  }
}
