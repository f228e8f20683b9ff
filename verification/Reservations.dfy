/** Load-reserved and store-conditional: the shared table of 16 reservations, and conservation over whole runs. */
module Reservations {
  import opened Words

  const MAX_RESERVATION_ITEMS: nat := 16

  type HartId = h: nat | h < 64

  // The hart field of an item is eight bits wide.
  datatype Item = Item(addr: u32, valid: bool, hartid: nat)

  datatype Table = Table(items: seq<Item>, next: nat) {
    predicate Valid() {
      |items| == MAX_RESERVATION_ITEMS && next < MAX_RESERVATION_ITEMS
    }
  }

  // ----- the table -----

  function FirstFree(items: seq<Item>, i: nat): Option<nat>
    requires i <= |items|
    decreases |items| - i
  {
    if i == |items| then None else if !items[i].valid then Some(i) else FirstFree(items, i + 1)
  }

  predicate Matches(item: Item, addr: u32, hart: HartId) {
    item.valid && item.addr == addr && item.hartid == hart
  }

  function FirstMatch(items: seq<Item>, addr: u32, hart: HartId, i: nat): (r: Option<nat>)
    requires i <= |items|
    ensures r.Some? ==> r.value < |items| && Matches(items[r.value], addr, hart)
    ensures r == None ==> forall j :: i <= j < |items| ==> !Matches(items[j], addr, hart)
    decreases |items| - i
  {
    if i == |items| then None else if Matches(items[i], addr, hart) then Some(i) else FirstMatch(items, addr, hart, i + 1)
  }

  // Where a new reservation goes: a free slot, or the next one round robin.
  function Place(t: Table): (i: nat)
    requires t.Valid()
    ensures i < MAX_RESERVATION_ITEMS
  {
    FirstFreeInRange(t.items, 0);
    match FirstFree(t.items, 0)
    case Some(i) => i
    case None => t.next
  }

  lemma {:induction false} FirstFreeInRange(items: seq<Item>, i: nat)
    requires i <= |items|
    ensures match FirstFree(items, i)
      case Some(j) => i <= j < |items| && !items[j].valid
      case None => forall j :: i <= j < |items| ==> items[j].valid
    decreases |items| - i
  {
    if i < |items| && items[i].valid {
      FirstFreeInRange(items, i + 1);
    }
  }

  function Reserve(t: Table, addr: u32, hart: HartId): (r: Table)
    requires t.Valid()
    ensures r.Valid()
  {
    Table(t.items[Place(t) := Item(addr, true, hart % 256)], (Place(t) + 1) % MAX_RESERVATION_ITEMS)
  }

  function Find(t: Table, addr: u32, hart: HartId): Option<nat>
    requires t.Valid()
  {
    FirstMatch(t.items, addr, hart, 0)
  }

  function Clear(t: Table, i: nat): (r: Table)
    requires t.Valid() && i < MAX_RESERVATION_ITEMS
    ensures r.Valid()
  {
    t.(items := t.items[i := t.items[i].(valid := false)])
  }

  class ReservationTable {
    const reservations: array<Item>
    var nextPointer: nat

    ghost predicate Valid()
      reads this
    {
      reservations.Length == MAX_RESERVATION_ITEMS && nextPointer < MAX_RESERVATION_ITEMS
    }

    ghost function View(): (t: Table)
      requires Valid()
      reads this, reservations
      ensures t.Valid()
    {
      Table(reservations[..], nextPointer)
    }

    method MakeReservation(addr: u32, hart: HartId)
      requires Valid()
      modifies this, reservations
      ensures Valid() && View() == Reserve(old(View()), addr, hart)
    {
      var idx := 0;
      var free := nextPointer;
      FirstFreeInRange(reservations[..], 0);
      while idx < MAX_RESERVATION_ITEMS
        invariant idx <= MAX_RESERVATION_ITEMS && free == nextPointer
        invariant FirstFree(reservations[..], idx) == FirstFree(reservations[..], 0)
      {
        if !reservations[idx].valid {
          free := idx;
          break;
        }
        idx := idx + 1;
      }
      reservations[free] := Item(addr, true, hart % 256);
      nextPointer := (free + 1) % MAX_RESERVATION_ITEMS;
    }

    method FindReservation(addr: u32, hart: HartId) returns (found: Option<nat>)
      requires Valid()
      ensures found == Find(View(), addr, hart)
    {
      var idx := 0;
      while idx < MAX_RESERVATION_ITEMS
        invariant idx <= MAX_RESERVATION_ITEMS
        invariant FirstMatch(reservations[..], addr, hart, idx) == FirstMatch(reservations[..], addr, hart, 0)
      {
        if reservations[idx].valid && reservations[idx].addr == addr && reservations[idx].hartid == hart {
          break;
        }
        idx := idx + 1;
      }
      return if idx < MAX_RESERVATION_ITEMS then Some(idx) else None;
    }

    method ClearReservation(i: nat)
      requires Valid() && i < MAX_RESERVATION_ITEMS
      modifies reservations
      ensures Valid() && View() == Clear(old(View()), i)
    {
      reservations[i] := reservations[i].(valid := false);
    }

    // The store happens when a reservation is found, and ends the callback when it raises an exception (`!ok`).
    method StoreConditional(addr: u32, hart: HartId, ok: bool) returns (stored: bool)
      requires Valid()
      modifies reservations
      ensures Valid() && (stored <==> Find(old(View()), addr, hart).Some? && ok)
      ensures View() == if stored then Clear(old(View()), Find(old(View()), addr, hart).value) else old(View())
    {
      var found := FindReservation(addr, hart);
      stored := found.Some? && ok;
      if stored {
        ClearReservation(found.value);
      }
    }
  }

  /** A load-reserved gives up a live reservation only when all sixteen are live, and then the one next in turn. */
  lemma EvictsOnlyWhenFull(t: Table, addr: u32, hart: HartId)
    requires t.Valid()
    ensures var r := Reserve(t, addr, hart);
      && (forall j :: 0 <= j < 16 && t.items[j].valid && r.items[j] != t.items[j] ==>
            j == t.next && forall i :: 0 <= i < 16 ==> t.items[i].valid)
      && exists j :: 0 <= j < 16 && r == Table(t.items[j := Item(addr, true, hart)], (j + 1) % 16)
                     && (!t.items[j].valid || j == t.next)
  {
    FirstFreeInRange(t.items, 0);
    var j := Place(t);
    assert 0 <= j < 16 && (!t.items[j].valid || j == t.next);
    assert Reserve(t, addr, hart) == Table(t.items[j := Item(addr, true, hart)], (j + 1) % 16);
  }

  // Load-reserveds of these addresses, one after the other.
  function ReserveAll(t: Table, addrs: seq<u32>, hart: HartId): (r: Table)
    requires t.Valid()
    ensures r.Valid()
  {
    if addrs == [] then t else Reserve(ReserveAll(t, addrs[..|addrs| - 1], hart), addrs[|addrs| - 1], hart)
  }

  /** Sixteen of them from an empty table are all found again. */
  lemma {:induction false} SixteenSurvive(t: Table, addrs: seq<u32>, hart: HartId, i: nat)
    requires t.Valid() && (forall j :: 0 <= j < 16 ==> !t.items[j].valid) && |addrs| <= 16 && i < |addrs|
    ensures Find(ReserveAll(t, addrs, hart), addrs[i], hart).Some?
  {
    hide Place;
    FirstSlots(t, addrs, hart);
    assert Matches(ReserveAll(t, addrs, hart).items[i], addrs[i], hart);
  }

  lemma {:induction false} FirstSlots(t: Table, addrs: seq<u32>, hart: HartId)
    requires t.Valid() && (forall j :: 0 <= j < 16 ==> !t.items[j].valid) && |addrs| <= 16
    ensures var r := ReserveAll(t, addrs, hart);
      && (forall j :: 0 <= j < |addrs| ==> r.items[j] == Item(addrs[j], true, hart))
      && forall j :: |addrs| <= j < 16 ==> !r.items[j].valid
  {
    hide Place;
    if addrs != [] {
      var before := addrs[..|addrs| - 1];
      FirstSlots(t, before, hart);
      var r := ReserveAll(t, before, hart);
      FirstFreeIs(r, |before|);
    }
  }

  lemma FirstFreeIs(t: Table, n: nat)
    requires t.Valid() && n < 16 && (forall j :: 0 <= j < n ==> t.items[j].valid) && !t.items[n].valid
    ensures Place(t) == n
  {
    FirstFreeInRange(t.items, 0);
    FirstFreeFrom(t.items, 0, n);
  }

  lemma {:induction false} FirstFreeFrom(items: seq<Item>, i: nat, n: nat)
    requires i <= n < |items| && (forall j :: i <= j < n ==> items[j].valid) && !items[n].valid
    ensures FirstFree(items, i) == Some(n)
    decreases n - i
  {
    if i < n {
      FirstFreeFrom(items, i + 1, n);
    }
  }

  // ----- runs -----

  // `ok` is false when the memory access raises an exception, which ends the callback there.
  datatype Event =
    | Lr(hart: HartId, addr: u32, ok: bool)
    | Sc(hart: HartId, addr: u32, value: u32, ok: bool)
    | Plain(addr: u32, value: u32)   // any other store, by any hart

  datatype Machine = Machine(t: Table, mem: map<u32, u32>)

  predicate Succeeds(m: Machine, e: Event)
    requires m.t.Valid()
  {
    e.Sc? && Find(m.t, e.addr, e.hart).Some? && e.ok
  }

  function Step(m: Machine, e: Event): (r: Machine)
    requires m.t.Valid()
    ensures r.t.Valid()
  {
    match e
    case Lr(hart, addr, ok) => if ok then m.(t := Reserve(m.t, addr, hart)) else m
    case Sc(hart, addr, value, _) =>
      if Succeeds(m, e) then Machine(Clear(m.t, Find(m.t, addr, hart).value), m.mem[addr := value]) else m
    case Plain(addr, value) => m.(mem := m.mem[addr := value])
  }

  function After(m: Machine, events: seq<Event>, n: nat): (r: Machine)
    requires m.t.Valid() && n <= |events|
    ensures r.t.Valid()
  {
    if n == 0 then m else Step(After(m, events, n - 1), events[n - 1])
  }

  // ----- plain stores do not matter -----

  // The first `n` events without the plain stores.
  function Erased(events: seq<Event>, n: nat): (r: seq<Event>)
    requires n <= |events|
    ensures |r| <= n
  {
    if n == 0 then []
    else if events[n - 1].Plain? then Erased(events, n - 1)
    else Erased(events, n - 1) + [events[n - 1]]
  }

  lemma {:induction false} AfterPrefix(m: Machine, events: seq<Event>, more: seq<Event>, n: nat)
    requires m.t.Valid() && n <= |events|
    ensures After(m, events + more, n) == After(m, events, n)
  {
    hide Step;
    if n > 0 {
      AfterPrefix(m, events, more, n - 1);
      assert (events + more)[n - 1] == events[n - 1];
    }
  }

  lemma StepOnTable(m: Machine, m': Machine, e: Event)
    requires m.t.Valid() && m'.t == m.t
    ensures Step(m', e).t == Step(m, e).t && (e.Plain? ==> Step(m, e).t == m.t)
    ensures Succeeds(m', e) <==> Succeeds(m, e)
  {
    hide Place, Find;
  }

  /** Taking all plain stores out of a run, whatever they wrote and wherever, changes no table and no store-conditional. */
  lemma {:induction false} StoresDoNotMatter(m: Machine, m': Machine, events: seq<Event>, n: nat)
    requires m.t.Valid() && m'.t == m.t && n <= |events|
    ensures var kept := Erased(events, n);
      && After(m', kept, |kept|).t == After(m, events, n).t
      && (n < |events| ==> (Succeeds(After(m', kept, |kept|), events[n]) <==> Succeeds(After(m, events, n), events[n])))
  {
    hide Step, Succeeds;
    if n > 0 {
      StoresDoNotMatter(m, m', events, n - 1);
      var kept, e := Erased(events, n - 1), events[n - 1];
      AfterPrefix(m', kept, [e], |kept|);
      StepOnTable(After(m, events, n - 1), After(m', kept, |kept|), e);
    }
    if n < |events| {
      var kept := Erased(events, n);
      StepOnTable(After(m, events, n), After(m', kept, |kept|), events[n]);
    }
  }

  // ----- matching -----

  // For every slot, the event that last reserved it.
  ghost function Origins(m: Machine, events: seq<Event>, n: nat): (r: seq<nat>)
    requires m.t.Valid() && n <= |events|
    ensures |r| == MAX_RESERVATION_ITEMS
  {
    if n == 0 then seq(MAX_RESERVATION_ITEMS, _ => 0)
    else
      var before := Origins(m, events, n - 1);
      var e := events[n - 1];
      if e.Lr? && e.ok then before[Place(After(m, events, n - 1).t) := n - 1] else before
  }

  // The load-reserved whose reservation the store-conditional at `n` uses up.
  ghost function MatchOf(m: Machine, events: seq<Event>, n: nat): nat
    requires m.t.Valid() && n < |events| && Succeeds(After(m, events, n), events[n])
  {
    var e := events[n];
    Origins(m, events, n)[Find(After(m, events, n).t, e.addr, e.hart).value]
  }

  ghost predicate NoReservations(m: Machine) {
    m.t.Valid() && forall i :: 0 <= i < MAX_RESERVATION_ITEMS ==> !m.t.items[i].valid
  }

  // Every live slot comes from an earlier load-reserved of its address by its hart, and no two from the same one.
  ghost predicate Traced(m: Machine, events: seq<Event>, n: nat)
    requires m.t.Valid() && n <= |events|
  {
    var items, origins := After(m, events, n).t.items, Origins(m, events, n);
    && (forall i :: 0 <= i < MAX_RESERVATION_ITEMS && items[i].valid ==>
          && origins[i] < n && events[origins[i]].Lr? && events[origins[i]].ok
          && events[origins[i]].addr == items[i].addr && events[origins[i]].hart == items[i].hartid)
    && (forall i, j :: 0 <= i < j < MAX_RESERVATION_ITEMS && items[i].valid && items[j].valid ==> origins[i] != origins[j])
  }

  lemma {:induction false} RunIsTraced(m: Machine, events: seq<Event>, n: nat)
    requires NoReservations(m) && n <= |events|
    ensures Traced(m, events, n)
  {
    hide Place, Find, Succeeds, Traced, After, Origins;
    if n == 0 {
      assert Traced(m, events, 0) by { NothingToTrace(m, events); }
    } else {
      RunIsTraced(m, events, n - 1);
      NextIsTraced(m, events, n);
    }
  }

  lemma NothingToTrace(m: Machine, events: seq<Event>)
    requires NoReservations(m)
    ensures Traced(m, events, 0)
  {
  }

  lemma NextIsTraced(m: Machine, events: seq<Event>, n: nat)
    requires m.t.Valid() && 0 < n <= |events| && Traced(m, events, n - 1)
    ensures Traced(m, events, n)
  {
    hide Place, Find, Succeeds;
    var e := events[n - 1];
    if e.Lr? && e.ok {
      assert After(m, events, n).t == Reserve(After(m, events, n - 1).t, e.addr, e.hart);
    } else {
      assert Origins(m, events, n) == Origins(m, events, n - 1);
    }
  }

  // Once used up, a reservation's origin is not behind any live slot again.
  ghost predicate Spent(m: Machine, events: seq<Event>, n: nat, origin: nat)
    requires m.t.Valid() && n <= |events|
  {
    origin < n && forall i :: 0 <= i < MAX_RESERVATION_ITEMS && After(m, events, n).t.items[i].valid ==> Origins(m, events, n)[i] != origin
  }

  lemma ScSpends(m: Machine, events: seq<Event>, n: nat)
    requires NoReservations(m) && n < |events| && Succeeds(After(m, events, n), events[n])
    ensures Spent(m, events, n + 1, MatchOf(m, events, n))
  {
    hide Place;
    RunIsTraced(m, events, n);
  }

  lemma {:induction false} SpentForever(m: Machine, events: seq<Event>, n: nat, k: nat, origin: nat)
    requires m.t.Valid() && n <= k <= |events| && Spent(m, events, n, origin)
    ensures Spent(m, events, k, origin)
    decreases k
  {
    hide Place, Find, Succeeds;
    if n < k {
      SpentForever(m, events, n, k - 1, origin);
    }
  }

  /**
   In every run from an empty table, overflows and repeated reservations included, the successful
   store-conditionals are matched one to one with earlier load-reserveds of the same address by the same hart.
   */
  lemma ScMatchedToLr(m: Machine, events: seq<Event>, j: nat, k: nat)
    requires NoReservations(m) && j < |events| && Succeeds(After(m, events, j), events[j])
    ensures var i := MatchOf(m, events, j);
      && i < j && events[i].Lr? && events[i].ok && events[i].addr == events[j].addr && events[i].hart == events[j].hart
    ensures j < k < |events| && Succeeds(After(m, events, k), events[k]) ==> MatchOf(m, events, k) != MatchOf(m, events, j)
  {
    hide Place;
    RunIsTraced(m, events, j);
    if j < k < |events| && Succeeds(After(m, events, k), events[k]) {
      ScSpends(m, events, j);
      SpentForever(m, events, j + 1, k, MatchOf(m, events, j));
    }
  }

  // ----- exactly when a store-conditional succeeds -----

  // The event at `k` reserves the slot anew or uses it up.
  ghost predicate Touches(m: Machine, events: seq<Event>, k: nat, slot: nat)
    requires m.t.Valid() && k < |events|
  {
    var t, e := After(m, events, k).t, events[k];
    (e.Lr? && e.ok && Place(t) == slot) || (Succeeds(After(m, events, k), e) && Find(t, e.addr, e.hart) == Some(slot))
  }

  ghost predicate Untouched(m: Machine, events: seq<Event>, slot: nat, i: nat, n: nat)
    requires m.t.Valid() && n <= |events|
  {
    forall k :: i < k < n ==> !Touches(m, events, k, slot)
  }

  // A load-reserved at `i` of the address by the hart, whose slot has been left alone since.
  ghost predicate Holds(m: Machine, events: seq<Event>, i: nat, n: nat, addr: u32, hart: HartId)
    requires m.t.Valid() && i < n <= |events|
  {
    && events[i].Lr? && events[i].ok && events[i].addr == addr && events[i].hart == hart
    && Untouched(m, events, Place(After(m, events, i).t), i, n)
  }

  lemma StepAtSlot(m: Machine, events: seq<Event>, n: nat, slot: nat)
    requires m.t.Valid() && n < |events| && slot < MAX_RESERVATION_ITEMS
    ensures var before, after := After(m, events, n).t.items[slot], After(m, events, n + 1).t.items[slot];
      && (!Touches(m, events, n, slot) ==> after == before)
      && (Succeeds(After(m, events, n), events[n]) && Touches(m, events, n, slot) ==> !after.valid)
      && (events[n].Lr? && events[n].ok && Place(After(m, events, n).t) == slot ==>
            after == Item(events[n].addr, true, events[n].hart))
  {
    hide Place, Find;
  }

  lemma {:induction false} HeldIsLive(m: Machine, events: seq<Event>, i: nat, n: nat)
    requires m.t.Valid() && i < n <= |events| && events[i].Lr? && events[i].ok
    requires Untouched(m, events, Place(After(m, events, i).t), i, n)
    ensures After(m, events, n).t.items[Place(After(m, events, i).t)] == Item(events[i].addr, true, events[i].hart)
    decreases n
  {
    hide Place, After, Touches;
    var slot := Place(After(m, events, i).t);
    StepAtSlot(m, events, n - 1, slot);
    if i < n - 1 {
      HeldIsLive(m, events, i, n - 1);
    }
  }

  lemma {:induction false} LiveIsHeld(m: Machine, events: seq<Event>, n: nat, slot: nat) returns (i: nat)
    requires NoReservations(m) && n <= |events| && slot < MAX_RESERVATION_ITEMS && After(m, events, n).t.items[slot].valid
    ensures i < n && events[i].Lr? && events[i].ok && Place(After(m, events, i).t) == slot && Untouched(m, events, slot, i, n)
    ensures After(m, events, n).t.items[slot] == Item(events[i].addr, true, events[i].hart)
    decreases n
  {
    hide Place, Touches, Step;
    assert n > 0;
    StepAtSlot(m, events, n - 1, slot);
    var e := events[n - 1];
    if e.Lr? && e.ok && Place(After(m, events, n - 1).t) == slot {
      i := n - 1;
    } else {
      if Touches(m, events, n - 1, slot) {
        TouchesBy(m, events, n - 1, slot);
      }
      i := LiveIsHeld(m, events, n - 1, slot);
    }
  }

  lemma TouchesBy(m: Machine, events: seq<Event>, k: nat, slot: nat)
    requires m.t.Valid() && k < |events| && Touches(m, events, k, slot)
    ensures (events[k].Lr? && events[k].ok && Place(After(m, events, k).t) == slot) || Succeeds(After(m, events, k), events[k])
  {
    hide Place, Find, After;
  }

  lemma FindsLive(t: Table, addr: u32, hart: HartId)
    requires t.Valid()
    ensures Find(t, addr, hart).Some? <==> exists j :: 0 <= j < MAX_RESERVATION_ITEMS && Matches(t.items[j], addr, hart)
  {
  }

  lemma FailureChangesNothing(m: Machine, events: seq<Event>, n: nat)
    requires m.t.Valid() && n < |events| && events[n].Sc? && !Succeeds(After(m, events, n), events[n])
    ensures After(m, events, n + 1) == After(m, events, n)
  {
    hide Place, Find;
  }

  /**
   In every run from an empty table a store-conditional whose store goes through succeeds if and only if its hart
   has reserved the address before, in a slot that since then was neither given to another load-reserved nor used up;
   when it does not succeed it changes neither memory nor the table.
   */
  lemma ScSucceedsExactly(m: Machine, events: seq<Event>, n: nat)
    requires NoReservations(m) && n < |events| && events[n].Sc?
    ensures Succeeds(After(m, events, n), events[n]) <==>
      events[n].ok && exists i: nat :: i < n && Holds(m, events, i, n, events[n].addr, events[n].hart)
    ensures !Succeeds(After(m, events, n), events[n]) ==> After(m, events, n + 1) == After(m, events, n)
  {
    hide Place, Find, After, Touches;
    if !Succeeds(After(m, events, n), events[n]) { FailureChangesNothing(m, events, n); }
    var t, e := After(m, events, n).t, events[n];
    FindsLive(t, e.addr, e.hart);
    if Find(t, e.addr, e.hart).Some? {
      var j :| 0 <= j < MAX_RESERVATION_ITEMS && Matches(t.items[j], e.addr, e.hart);
      var i := LiveIsHeld(m, events, n, j);
      assert Holds(m, events, i, n, e.addr, e.hart);
    }
    if i: nat :| i < n && Holds(m, events, i, n, e.addr, e.hart) {
      HeldIsLive(m, events, i, n);
      assert Matches(t.items[Place(After(m, events, i).t)], e.addr, e.hart);
    }
  }

  /**
   So between a load-reserved and its store-conditional any number of stores, by any hart and to any address, goes
   unnoticed, as do failed load-reserveds and the store-conditionals of others.
   */
  lemma StoresDoNotBreakReservations(m: Machine, events: seq<Event>, i: nat, n: nat)
    requires NoReservations(m) && i < n < |events| && events[i].Lr? && events[i].ok
    requires events[n].Sc? && events[n].ok && events[n].addr == events[i].addr && events[n].hart == events[i].hart
    requires forall k :: i < k < n ==>
      events[k].Plain? || (events[k].Lr? && !events[k].ok)
      || (events[k].Sc? && (events[k].addr != events[i].addr || events[k].hart != events[i].hart))
    ensures Succeeds(After(m, events, n), events[n])
    ensures var m' := After(m, events, n + 1); events[n].addr in m'.mem && m'.mem[events[n].addr] == events[n].value
  {
    hide Place, Find;
    StaysHeld(m, events, i, n);
    ScSucceedsExactly(m, events, n);
  }

  lemma {:induction false} StaysHeld(m: Machine, events: seq<Event>, i: nat, n: nat)
    requires m.t.Valid() && i < n <= |events| && events[i].Lr? && events[i].ok
    requires forall k :: i < k < n ==>
      events[k].Plain? || (events[k].Lr? && !events[k].ok)
      || (events[k].Sc? && (events[k].addr != events[i].addr || events[k].hart != events[i].hart))
    ensures Holds(m, events, i, n, events[i].addr, events[i].hart)
    decreases n
  {
    hide Place, Touches, After;
    if i < n - 1 {
      StaysHeld(m, events, i, n - 1);
      var slot := Place(After(m, events, i).t);
      HeldIsLive(m, events, i, n - 1);
      OtherMisses(m, events, n - 1, slot, events[i].addr, events[i].hart);
    }
  }

  lemma OtherMisses(m: Machine, events: seq<Event>, k: nat, slot: nat, addr: u32, hart: HartId)
    requires m.t.Valid() && k < |events| && slot < MAX_RESERVATION_ITEMS
    requires After(m, events, k).t.items[slot] == Item(addr, true, hart)
    requires events[k].Plain? || (events[k].Lr? && !events[k].ok)
      || (events[k].Sc? && (events[k].addr != addr || events[k].hart != hart))
    ensures !Touches(m, events, k, slot)
  {
    hide Place, After;
  }
}
