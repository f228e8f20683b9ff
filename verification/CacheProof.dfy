/** What the prefetch loop keeps, and exactly when it leaves the cache fit to run. */
module CacheProof {
  import opened Words
  import opened PcIndex
  import opened Translator
  import opened TranslationCache

  // ----- invariants -----

  // The code buffer: no two chunks overlap and none reaches past the end.
  ghost predicate Packed(code: map<nat, Chunk>) {
    && (forall o :: o in code ==> 0 < code[o].size && o + code[o].size <= TRANSLATION_CACHE_SIZE)
    && (forall o, o' :: o in code && o' in code && o < o' ==> o + code[o].size <= o')
  }

  ghost predicate TranslationOf(fetch: Fetch, pc: u32, t: Translation) {
    fetch(pc).Some? && Translate(fetch(pc).value, pc) == Some(t)
  }

  // The item's block is in the live part of the buffer and is the translation of the word at its pc.
  ghost predicate Holds(host: Host, fetch: Fetch, c: Cache, it: Item) {
    && it.tcOffset in c.code
    && c.code[it.tcOffset].BlockAt?
    && c.code[it.tcOffset].size == host.size(c.code[it.tcOffset].block.template)
    && it.tcOffset + c.code[it.tcOffset].size <= c.ptr
    && exists t :: TranslationOf(fetch, it.guestPc, t) && t.block == c.code[it.tcOffset].block
  }

  ghost predicate Stops(fetch: Fetch, pc: u32) {
    exists t :: TranslationOf(fetch, pc, t) && t.stop
  }

  // The offset of the byte right after the item's block.
  ghost function End(c: Cache, it: Item): nat {
    it.tcOffset + if it.tcOffset in c.code then c.code[it.tcOffset].size else 0
  }

  // What follows the block is a jumper or the block of the next instruction.
  ghost predicate Closed(c: Cache, it: Item) {
    var e := End(c, it);
    && e in c.code && e + c.code[e].size <= c.ptr
    && (c.code[e].Jumper? || Item(Wrap(it.guestPc + 4), e) in c.index)
  }

  // Every block that can be fallen out of is closed, except perhaps the last one, before `tail`.
  ghost predicate Chained(fetch: Fetch, c: Cache, tail: Option<u32>) {
    forall it :: it in c.index ==>
      Stops(fetch, it.guestPc) || Closed(c, it) || (tail == Some(Wrap(it.guestPc + 4)) && End(c, it) == c.ptr)
  }

  ghost predicate CacheInv(host: Host, fetch: Fetch, w: u32, c: Cache) {
    && Ordered(c.index, w) && |c.index| <= MAX_INSTRUCTIONS_TOTRANSLATE
    && c.ptr <= TRANSLATION_CACHE_SIZE && Packed(c.code)
    && forall it :: it in c.index ==> Holds(host, fetch, c, it)
  }

  /** The cache is fit to run: control falling out of any block reaches the next instruction or the vmm. */
  ghost predicate Layout(host: Host, fetch: Fetch, w: u32, c: Cache) {
    CacheInv(host, fetch, w, c) && Chained(fetch, c, None)
  }

  // Some block falls off the end of the live part.
  ghost predicate FallsOff(fetch: Fetch, c: Cache) {
    exists it :: it in c.index && !Stops(fetch, it.guestPc) && End(c, it) == c.ptr
  }

  function Keys(index: seq<Item>): set<u32> {
    set it | it in index :: it.guestPc
  }

  // ----- single steps -----

  lemma CopyPacked(code: map<nat, Chunk>, off: nat, chunk: Chunk)
    requires Packed(code) && 0 < chunk.size && off + chunk.size <= TRANSLATION_CACHE_SIZE
    ensures Packed(Copy(code, off, chunk))
    ensures forall o :: o in code && o + code[o].size <= off ==> o in Copy(code, off, chunk) && Copy(code, off, chunk)[o] == code[o]
    ensures off in Copy(code, off, chunk) && Copy(code, off, chunk)[off] == chunk
  {
  }

  // A block keeps its place, its contents and its successor when the live part only grows.
  lemma GrowthKeeps(host: Host, fetch: Fetch, c: Cache, c': Cache, it: Item)
    requires Holds(host, fetch, c, it) && c.ptr <= c'.ptr
    requires forall o :: o in c.code && o + c.code[o].size <= c.ptr ==> o in c'.code && c'.code[o] == c.code[o]
    requires forall x :: x in c.index ==> x in c'.index
    ensures Holds(host, fetch, c', it) && End(c', it) == End(c, it)
    ensures Closed(c, it) ==> Closed(c', it)
  {
  }

  // A flush leaves a cache fit to run whatever code is visible from then on, and in whatever window it lies.
  lemma FlushedChained(host: Host, fetch: Fetch, w: u32, c: Cache)
    requires Packed(c.code)
    ensures Layout(host, fetch, w, Flushed(c))
  {
  }

  // The layout is about the translated instructions only: what other words are fetched does not matter.
  lemma LayoutFrame(host: Host, fetch: Fetch, fetch': Fetch, w: u32, c: Cache)
    requires Layout(host, fetch, w, c) && forall pc :: pc in Keys(c.index) ==> fetch'(pc) == fetch(pc)
    ensures Layout(host, fetch', w, c)
  {
    hide Ordered, Packed, Closed, End, Translate;
    forall it | it in c.index
      ensures Holds(host, fetch', c, it) && (Stops(fetch', it.guestPc) || Closed(c, it))
    {
      assert it.guestPc in Keys(c.index);
      SameTranslation(host, fetch, fetch', c, it);
    }
  }

  lemma SameTranslation(host: Host, fetch: Fetch, fetch': Fetch, c: Cache, it: Item)
    requires fetch'(it.guestPc) == fetch(it.guestPc)
    ensures Holds(host, fetch, c, it) ==> Holds(host, fetch', c, it)
    ensures Stops(fetch, it.guestPc) ==> Stops(fetch', it.guestPc)
  {
    hide Translate;
    if Holds(host, fetch, c, it) {
      var t :| TranslationOf(fetch, it.guestPc, t) && t.block == c.code[it.tcOffset].block;
      assert TranslationOf(fetch', it.guestPc, t);
    }
    if Stops(fetch, it.guestPc) {
      var t :| TranslationOf(fetch, it.guestPc, t) && t.stop;
      assert TranslationOf(fetch', it.guestPc, t);
    }
  }

  ghost predicate CanCommit(host: Host, fetch: Fetch, w: u32, c: Cache, tail: Option<u32>, pc: u32, t: Translation) {
    && host.Valid() && CacheInv(host, fetch, w, c) && Chained(fetch, c, tail)
    && (tail == None || tail == Some(pc))
    && InWindow(w, pc) && Find(c.index, pc) == None && TranslationOf(fetch, pc, t)
    && host.size(t.block.template) <= Unoccupied(host, c)
  }

  // What a commit makes of the cache.
  ghost function Committed(host: Host, c: Cache, pc: u32, b: Block): Cache {
    Cache(Insert(c.index, Item(pc, c.ptr)), Copy(c.code, c.ptr, BlockAt(b, host.size(b.template))), c.ptr + host.size(b.template))
  }

  lemma CommitIs(host: Host, fetch: Fetch, w: u32, c: Cache, tail: Option<u32>, pc: u32, t: Translation)
    requires CanCommit(host, fetch, w, c, tail, pc, t)
    ensures Commit(host, c, pc, t.block) == Some(Committed(host, c, pc, t.block))
    ensures |c.index| < MAX_INSTRUCTIONS_TOTRANSLATE
  {
    hide Find, Insert, Ordered, Chained, Holds, TranslationOf;
    var b := t.block;
    var c1 := AddItem(host, c, pc, b.template).value;
    InsertedItem(host, fetch, w, c, tail, pc, t);
    var k := Find(c1.index, pc).value;
    assert c1.index[k] == Item(pc, c.ptr);
    assert Patch(c1.code, c.ptr, b.params) == Copy(c.code, c.ptr, BlockAt(b, host.size(b.template)));
  }

  lemma InsertedItem(host: Host, fetch: Fetch, w: u32, c: Cache, tail: Option<u32>, pc: u32, t: Translation)
    requires CanCommit(host, fetch, w, c, tail, pc, t)
    ensures var r := Insert(c.index, Item(pc, c.ptr));
      && Ordered(r, w) && |r| == |c.index| + 1 && (forall x :: x in r <==> x in c.index || x == Item(pc, c.ptr))
      && Find(r, pc).Some? && r[Find(r, pc).value] == Item(pc, c.ptr)
  {
    hide Find, Insert, Chained, Holds, TranslationOf;
    FindIsMembership(c.index, w, pc);
    var item := Item(pc, c.ptr);
    InsertKeepsOrder(c.index, w, item);
    var r := Insert(c.index, item);
    FindIsMembership(r, w, pc);
    assert item in r;
    var i :| 0 <= i < |r| && r[i] == item;
  }

  /** Committing the next instruction of a unit closes the block before it and opens its own end. */
  lemma CommitKeeps(host: Host, fetch: Fetch, w: u32, c: Cache, tail: Option<u32>, pc: u32, t: Translation)
    requires CanCommit(host, fetch, w, c, tail, pc, t)
    ensures var c' := Committed(host, c, pc, t.block);
      && CacheInv(host, fetch, w, c') && c'.ptr + host.jumper <= TRANSLATION_CACHE_SIZE && c.ptr < c'.ptr
      && Keys(c'.index) == Keys(c.index) + {pc}
      && |c'.index| == |c.index| + 1
      && Chained(fetch, c', if t.stop then None else Some(Wrap(pc + 4)))
      && (!t.stop ==> FallsOff(fetch, c'))
  {
    hide Find, Insert, Ordered, Copy, Packed, Stops, Closed, Holds, TranslationOf;
    CommitIs(host, fetch, w, c, tail, pc, t);
    InsertedItem(host, fetch, w, c, tail, pc, t);
    var b := t.block;
    var item := Item(pc, c.ptr);
    var c' := Committed(host, c, pc, b);
    CommittedCopy(host, fetch, w, c, tail, pc, t);
    NewItem(host, fetch, c, c', pc, t);
    OneMoreKey(c.index, c'.index, item);
    forall it | it in c'.index
      ensures Holds(host, fetch, c', it)
      ensures Stops(fetch, it.guestPc) || Closed(c', it) || (!t.stop && it == item && End(c', it) == c'.ptr)
    {
      if it != item {
        GrowthKeeps(host, fetch, c, c', it);
        TailCloses(c, c', it, item, tail);
      }
    }
  }

  lemma OneMoreKey(index: seq<Item>, index': seq<Item>, item: Item)
    requires forall x :: x in index' <==> x in index || x == item
    ensures Keys(index') == Keys(index) + {item.guestPc}
  {
    forall k
      ensures k in Keys(index') <==> k in Keys(index) + {item.guestPc}
    {
    }
  }

  lemma CommittedCopy(host: Host, fetch: Fetch, w: u32, c: Cache, tail: Option<u32>, pc: u32, t: Translation)
    requires CanCommit(host, fetch, w, c, tail, pc, t)
    ensures var c' := Committed(host, c, pc, t.block);
      && Packed(c'.code) && c.ptr < c'.ptr && c'.ptr + host.jumper <= TRANSLATION_CACHE_SIZE
      && (forall o :: o in c.code && o + c.code[o].size <= c.ptr ==> o in c'.code && c'.code[o] == c.code[o])
      && c.ptr in c'.code && c'.code[c.ptr] == BlockAt(t.block, host.size(t.block.template))
  {
    hide Find, Insert, Ordered, Copy, Packed, Chained, Holds, TranslationOf;
    CommitIs(host, fetch, w, c, tail, pc, t);
    CopyPacked(c.code, c.ptr, BlockAt(t.block, host.size(t.block.template)));
  }

  lemma NewItem(host: Host, fetch: Fetch, c: Cache, c': Cache, pc: u32, t: Translation)
    requires TranslationOf(fetch, pc, t) && Item(pc, c.ptr) in c'.index
    requires c.ptr in c'.code && c'.code[c.ptr] == BlockAt(t.block, host.size(t.block.template))
    requires c'.ptr == c.ptr + host.size(t.block.template)
    ensures Holds(host, fetch, c', Item(pc, c.ptr)) && End(c', Item(pc, c.ptr)) == c'.ptr
    ensures Stops(fetch, pc) <==> t.stop
  {
    OnlyTranslation(fetch, pc, t);
  }

  // The block the unit ended with so far is closed by the one committed right behind it.
  lemma TailCloses(c: Cache, c': Cache, it: Item, item: Item, tail: Option<u32>)
    requires End(c', it) == End(c, it)
    requires item.tcOffset == c.ptr && item in c'.index && c.ptr in c'.code && c.ptr + c'.code[c.ptr].size <= c'.ptr
    ensures End(c, it) == c.ptr && Wrap(it.guestPc + 4) == item.guestPc ==> Closed(c', it)
  {
  }

  lemma OnlyTranslation(fetch: Fetch, pc: u32, t: Translation)
    requires TranslationOf(fetch, pc, t)
    ensures Stops(fetch, pc) <==> t.stop
  {
  }

  /** The jumper closes whatever the unit left open. */
  lemma JumperCloses(host: Host, fetch: Fetch, w: u32, c: Cache, tail: Option<u32>)
    requires host.Valid() && CacheInv(host, fetch, w, c) && Chained(fetch, c, tail)
    requires c.ptr + host.jumper <= TRANSLATION_CACHE_SIZE
    ensures Layout(host, fetch, w, AppendJumper(host, c))
  {
    hide Copy, Ordered;
    CopyPacked(c.code, c.ptr, Jumper(host.jumper));
    var c' := AppendJumper(host, c);
    forall it | it in c'.index
      ensures Holds(host, fetch, c', it) && (Stops(fetch, it.guestPc) || Closed(c', it))
    {
      GrowthKeeps(host, fetch, c, c', it);
    }
  }

  // ----- what a unit will be, told before it is translated -----

  // How a stretch of straight-line code ends: with a terminator, at a pc that is mapped, at a block that does
  // not fit, at an unmapped address, at a word no translator knows, or at a block outside the window.
  datatype Ending = Ends | Meets | Full | Faults(va: u32) | Unknown(pc: u32) | Outside(pc: u32)

  // The pcs mapped after it, the number of its blocks and the bytes they take.
  datatype Stretch = Stretch(keys: set<u32>, count: nat, used: nat, ending: Ending)

  // The stretch from `pc` on, given the mapped pcs, the free bytes and the free slots of the index.
  function Ahead(host: Host, fetch: Fetch, w: u32, keys: set<u32>, room: int, slots: nat, pc: u32): Stretch
    decreases slots
  {
    if pc in keys then Stretch(keys, 0, 0, Meets)
    else if fetch(pc) == None then Stretch(keys, 0, 0, Faults(pc))
    else
      match Translate(fetch(pc).value, pc)
      case None => Stretch(keys, 0, 0, Unknown(pc))
      case Some(t) =>
        var size := host.size(t.block.template);
        if slots == 0 || size > room then Stretch(keys, 0, 0, Full)
        else if !InWindow(w, pc) then Stretch(keys, 0, 0, Outside(pc))
        else if t.stop then Stretch(keys + {pc}, 1, size, Ends)
        else
          var rest := Ahead(host, fetch, w, keys + {pc}, room - size, slots - 1, Wrap(pc + 4));
          rest.(count := rest.count + 1, used := rest.used + size)
  }

  // The stretch a cache has before it.
  function AheadOf(host: Host, fetch: Fetch, w: u32, c: Cache, pc: u32): Stretch {
    var slots := if |c.index| < MAX_INSTRUCTIONS_TOTRANSLATE then MAX_INSTRUCTIONS_TOTRANSLATE - |c.index| else 0;
    Ahead(host, fetch, w, Keys(c.index), TRANSLATION_CACHE_SIZE - c.ptr - host.jumper, slots, pc)
  }

  // The first instruction of the unit does not fit what is left.
  predicate StartsWithFlush(host: Host, fetch: Fetch, c: Cache, pc: u32) {
    && pc !in Keys(c.index) && fetch(pc).Some? && Translate(fetch(pc).value, pc).Some?
    && host.size(Translate(fetch(pc).value, pc).value.block.template) > Unoccupied(host, c)
  }

  // The cache the unit is added to.
  function Base(host: Host, fetch: Fetch, c: Cache, pc: u32): Cache {
    if StartsWithFlush(host, fetch, c, pc) then Flushed(c) else c
  }

  function UnitAhead(host: Host, fetch: Fetch, w: u32, c: Cache, pc: u32): Stretch {
    AheadOf(host, fetch, w, Base(host, fetch, c, pc), pc)
  }

  // The one way to lose the jumper: a unit that starts with a flush and ends, open, exactly at the old end pointer.
  predicate ForgetsJumper(host: Host, fetch: Fetch, w: u32, c: Cache, pc: u32) {
    var a := UnitAhead(host, fetch, w, c, pc);
    StartsWithFlush(host, fetch, c, pc) && a.used == c.ptr && (a.ending.Meets? || a.ending.Full?)
  }

  // ----- the loop -----

  // The state between two rounds of a unit that needs no flush: `tail` is the pc it has to go on with.
  ghost predicate Round(host: Host, fetch: Fetch, w: u32, c: Cache, blob: Blob, tail: Option<u32>) {
    && host.Valid() && CacheInv(host, fetch, w, c) && Chained(fetch, c, tail) && !blob.stop
    && if blob.flushable then tail == None && !StartsWithFlush(host, fetch, c, blob.next)
       else tail == Some(blob.next) && FallsOff(fetch, c) && Reserved(host, c)
  }

  ghost predicate Reserved(host: Host, c: Cache) {
    c.ptr + host.jumper <= TRANSLATION_CACHE_SIZE
  }

  // Exactly the blocks of the stretch have been added.
  ghost predicate Extends(c: Cache, c': Cache, a: Stretch) {
    Keys(c'.index) == a.keys && |c'.index| == |c.index| + a.count && c'.ptr == c.ptr + a.used
  }

  // The unit's last block, if it has one, can be fallen out of.
  ghost predicate Open(blob: Blob, a: Stretch) {
    !a.ending.Ends? && (a.count > 0 || !blob.flushable)
  }

  // How the loop ends, told by the stretch it had before it.
  ghost predicate LoopEnds(host: Host, fetch: Fetch, w: u32, c: Cache, blob: Blob, a: Stretch, o: Outcome) {
    match o
    case Done(c') =>
      && (a.ending.Ends? || a.ending.Meets? || a.ending.Full?)
      && CacheInv(host, fetch, w, c') && Extends(c, c', a)
      && (if Open(blob, a) then FallsOff(fetch, c') && exists tail :: Chained(fetch, c', tail) else Chained(fetch, c', None))
      && (a.count > 0 || !blob.flushable ==> Reserved(host, c'))
      && (a.count == 0 ==> c' == c)
    case PageFault(c', va) =>
      && a.ending == Faults(va) && CacheInv(host, fetch, w, c') && Extends(c, c', a)
      && (if Open(blob, a) then FallsOff(fetch, c') else c' == c)
    case Abort => a.ending.Unknown?
  }

  lemma KeyIffFind(host: Host, fetch: Fetch, w: u32, c: Cache, pc: u32)
    requires CacheInv(host, fetch, w, c)
    ensures Find(c.index, pc).Some? <==> pc in Keys(c.index)
  {
    FindIsMembership(c.index, w, pc);
    if pc in Keys(c.index) {
      var it :| it in c.index && it.guestPc == pc;
      var i :| 0 <= i < |c.index| && c.index[i] == it;
    } else {
      forall i | 0 <= i < |c.index|
        ensures c.index[i].guestPc != pc
      {
        assert c.index[i] in c.index;
      }
    }
  }

  lemma FallingIsUnchained(host: Host, fetch: Fetch, w: u32, c: Cache)
    requires CacheInv(host, fetch, w, c) && FallsOff(fetch, c)
    ensures !Chained(fetch, c, None)
  {
    var it :| it in c.index && !Stops(fetch, it.guestPc) && End(c, it) == c.ptr;
    assert Holds(host, fetch, c, it);
  }

  // One round that commits.
  lemma RoundCommits(host: Host, fetch: Fetch, w: u32, c: Cache, blob: Blob, tail: Option<u32>, t: Translation)
    returns (c': Cache, b': Blob)
    requires Round(host, fetch, w, c, blob, tail) && InWindow(w, blob.next) && TranslationOf(fetch, blob.next, t)
    requires Find(c.index, blob.next) == None && host.size(t.block.template) <= Unoccupied(host, c)
    ensures TranslateOne(host, c, blob, fetch(blob.next).value) == Some((c', b'))
    ensures b' == Blob(if t.stop then blob.next else Wrap(blob.next + 4), t.stop, false)
    ensures CacheInv(host, fetch, w, c') && Chained(fetch, c', if t.stop then None else Some(b'.next)) && Reserved(host, c')
    ensures !t.stop ==> Round(host, fetch, w, c', b', Some(b'.next))
    ensures Keys(c'.index) == Keys(c.index) + {blob.next} && |c'.index| == |c.index| + 1
    ensures |c.index| < MAX_INSTRUCTIONS_TOTRANSLATE && c'.ptr == c.ptr + host.size(t.block.template)
  {
    hide Find, Ordered, Packed, Chained, Holds, FallsOff, Commit, Committed, Translate, Keys, Unoccupied;
    assert CanCommit(host, fetch, w, c, tail, blob.next, t);
    CommitIs(host, fetch, w, c, tail, blob.next, t);
    CommitKeeps(host, fetch, w, c, tail, blob.next, t);
    CommitFrame(host, c, blob.next, t.block);
    c' := Committed(host, c, blob.next, t.block);
    b' := Blob(if t.stop then blob.next else Wrap(blob.next + 4), t.stop, false);
  }

  lemma CommitFrame(host: Host, c: Cache, pc: u32, b: Block)
    ensures Committed(host, c, pc, b).ptr == c.ptr + host.size(b.template)
  {
  }

  // One round that finds no room.
  lemma RoundFull(host: Host, fetch: Fetch, c: Cache, blob: Blob, t: Translation)
    requires !blob.flushable && TranslationOf(fetch, blob.next, t) && host.size(t.block.template) > Unoccupied(host, c)
    ensures TranslateOne(host, c, blob, fetch(blob.next).value) == Some((c, blob.(stop := true)))
  {
    hide Translate, Commit, Unoccupied;
  }

  // The stretch ahead, one instruction at a time.
  lemma AheadUnfolds(host: Host, fetch: Fetch, w: u32, c: Cache, pc: u32, t: Translation)
    requires host.Valid() && pc !in Keys(c.index) && TranslationOf(fetch, pc, t)
    ensures host.size(t.block.template) > Unoccupied(host, c) ==>
      AheadOf(host, fetch, w, c, pc) == Stretch(Keys(c.index), 0, 0, Full)
    ensures host.size(t.block.template) <= Unoccupied(host, c) && !InWindow(w, pc) ==>
      AheadOf(host, fetch, w, c, pc).ending.Outside?
  {
    hide Translate, InWindow, Keys;
  }

  // `c'` is the cache after committing the first instruction of the stretch.
  lemma AheadGoesOn(host: Host, fetch: Fetch, w: u32, c: Cache, c': Cache, pc: u32, t: Translation)
    requires host.Valid() && pc !in Keys(c.index) && TranslationOf(fetch, pc, t) && InWindow(w, pc)
    requires host.size(t.block.template) <= Unoccupied(host, c)
    requires Keys(c'.index) == Keys(c.index) + {pc} && |c'.index| == |c.index| + 1 && c'.ptr == c.ptr + host.size(t.block.template)
    ensures AheadOf(host, fetch, w, c, pc) ==
      if t.stop then Stretch(Keys(c'.index), 1, host.size(t.block.template), Ends)
      else
        var rest := AheadOf(host, fetch, w, c', Wrap(pc + 4));
        rest.(count := rest.count + 1, used := rest.used + host.size(t.block.template))
  {
    hide Translate, InWindow, Keys;
  }

  lemma AheadStops(host: Host, fetch: Fetch, w: u32, c: Cache, pc: u32)
    ensures pc in Keys(c.index) ==> AheadOf(host, fetch, w, c, pc) == Stretch(Keys(c.index), 0, 0, Meets)
    ensures pc !in Keys(c.index) && fetch(pc) == None ==> AheadOf(host, fetch, w, c, pc) == Stretch(Keys(c.index), 0, 0, Faults(pc))
    ensures pc !in Keys(c.index) && fetch(pc).Some? && Translate(fetch(pc).value, pc) == None ==>
      AheadOf(host, fetch, w, c, pc) == Stretch(Keys(c.index), 0, 0, Unknown(pc))
  {
    hide Translate, InWindow, Keys;
  }

  /** From a cache the unit fits, the loop ends exactly as the stretch ahead says, and keeps the cache consistent. */
  lemma {:induction false} LoopKeeps(host: Host, fetch: Fetch, w: u32, c: Cache, blob: Blob, tail: Option<u32>)
    requires Round(host, fetch, w, c, blob, tail) && !AheadOf(host, fetch, w, c, blob.next).ending.Outside?
    ensures LoopEnds(host, fetch, w, c, blob, AheadOf(host, fetch, w, c, blob.next), PrefetchLoop(host, fetch, c, blob))
    decreases blob.flushable, MAX_INSTRUCTIONS_TOTRANSLATE - |c.index|
  {
    hide Find, Ordered, Packed, Chained, Holds, FallsOff, Translate, TranslateOne, AheadOf, Keys, Unoccupied, InWindow;
    var pc := blob.next;
    KeyIffFind(host, fetch, w, c, pc);
    AheadStops(host, fetch, w, c, pc);
    if pc !in Keys(c.index) && fetch(pc).Some? {
      UnknownAborts(host, fetch, c, blob);
      if Translate(fetch(pc).value, pc).Some? {
        var t := Translate(fetch(pc).value, pc).value;
        AheadUnfolds(host, fetch, w, c, pc, t);
        if host.size(t.block.template) > Unoccupied(host, c) {
          RoundFull(host, fetch, c, blob, t);
        } else {
          var c', b' := RoundCommits(host, fetch, w, c, blob, tail, t);
          AheadGoesOn(host, fetch, w, c, c', pc, t);
          if !t.stop {
            LoopKeeps(host, fetch, w, c', b', Some(b'.next));
          }
        }
      }
    }
  }

  lemma UnknownAborts(host: Host, fetch: Fetch, c: Cache, blob: Blob)
    requires fetch(blob.next).Some?
    ensures Translate(fetch(blob.next).value, blob.next) == None ==> TranslateOne(host, c, blob, fetch(blob.next).value) == None
  {
    hide Translate, Commit, Unoccupied;
  }
  // Without permission to flush, the translator only adds.
  lemma OneAdds(host: Host, c: Cache, blob: Blob, w: bv32)
    requires !blob.flushable
    ensures var r := TranslateOne(host, c, blob, w);
      r.Some? ==> c.ptr <= r.value.0.ptr && (forall x :: x in c.index ==> x in r.value.0.index) && !r.value.1.flushable
  {
    hide Translate, Find, Copy, Insert, Patch;
    var t := Translate(w, blob.next);
    if t.Some? {
      InsertKeeps(c.index, Item(blob.next, c.ptr));
    }
  }

  lemma InsertKeeps(index: seq<Item>, item: Item)
    ensures forall x :: x in index ==> x in Insert(index, item)
  {
    hide Insert;
    var p := InsertPlaces(index, item);
    assert index == index[..p] + index[p..];
  }

  /** A unit is flushed for at most once, before its first commit: what a unit has committed stays. */
  lemma {:induction false} CommitsSurvive(host: Host, fetch: Fetch, c: Cache, blob: Blob)
    requires !blob.flushable
    ensures var o := PrefetchLoop(host, fetch, c, blob);
      !o.Abort? ==> c.ptr <= o.c.ptr && forall x :: x in c.index ==> x in o.c.index
    decreases MAX_INSTRUCTIONS_TOTRANSLATE - |c.index|
  {
    hide Translate, TranslateOne, Find;
    if Find(c.index, blob.next) == None && fetch(blob.next).Some? {
      var r := TranslateOne(host, c, blob, fetch(blob.next).value);
      OneAdds(host, c, blob, fetch(blob.next).value);
      if r.Some? && !r.value.1.stop {
        CommitsSurvive(host, fetch, r.value.0, r.value.1);
      }
    }
  }

  // ----- one prefetch -----

  // Flushing before the first commit is starting from a flushed cache.
  lemma FlushFirst(host: Host, fetch: Fetch, c: Cache, pc: u32)
    requires host.Valid() && Find(c.index, pc) == None && StartsWithFlush(host, fetch, c, pc)
    ensures PrefetchLoop(host, fetch, c, Blob(pc, false, true)) == PrefetchLoop(host, fetch, Flushed(c), Blob(pc, false, true))
    ensures !StartsWithFlush(host, fetch, Flushed(c), pc)
  {
    hide Find, Translate, Commit;
    FindInEmpty(pc);
  }

  lemma FindInEmpty(pc: u32)
    ensures Find([], pc) == None
  {
  }

  // What the blocks are made of once a unit has been added: the mapped ones of what they were made of before,
  // the new ones of what is visible now.
  function Made(c: Cache, before: Fetch, fetch: Fetch): Fetch {
    (pc: u32) => if pc in Keys(c.index) then before(pc) else fetch(pc)
  }

  // Only what is visible outside the mapped pcs decides what lies ahead.
  lemma {:induction false} AheadFrame(host: Host, fetch: Fetch, fetch': Fetch, w: u32, keys: set<u32>, room: int, slots: nat, pc: u32)
    requires forall p :: p !in keys ==> fetch'(p) == fetch(p)
    ensures Ahead(host, fetch', w, keys, room, slots, pc) == Ahead(host, fetch, w, keys, room, slots, pc)
    decreases slots
  {
    hide Translate, InWindow;
    if pc !in keys && fetch(pc).Some? && Translate(fetch(pc).value, pc).Some? && slots > 0 {
      var size := host.size(Translate(fetch(pc).value, pc).value.block.template);
      AheadFrame(host, fetch, fetch', w, keys + {pc}, room - size, slots - 1, Wrap(pc + 4));
    }
  }

  // The loop translates what is visible outside the mapped pcs, and looks nowhere else.
  lemma {:induction false} LoopFrame(host: Host, fetch: Fetch, fetch': Fetch, w: u32, c: Cache, blob: Blob, tail: Option<u32>)
    requires Round(host, fetch', w, c, blob, tail) && !AheadOf(host, fetch', w, c, blob.next).ending.Outside?
    requires forall p :: p !in Keys(c.index) ==> fetch'(p) == fetch(p)
    ensures PrefetchLoop(host, fetch, c, blob) == PrefetchLoop(host, fetch', c, blob)
    decreases blob.flushable, MAX_INSTRUCTIONS_TOTRANSLATE - |c.index|
  {
    hide Find, Ordered, Packed, Chained, Holds, FallsOff, Translate, TranslateOne, AheadOf, Keys, Unoccupied, InWindow;
    var pc := blob.next;
    KeyIffFind(host, fetch', w, c, pc);
    AheadStops(host, fetch', w, c, pc);
    if pc !in Keys(c.index) && fetch'(pc).Some? && Translate(fetch'(pc).value, pc).Some? {
      var t := Translate(fetch'(pc).value, pc).value;
      AheadUnfolds(host, fetch', w, c, pc, t);
      if host.size(t.block.template) > Unoccupied(host, c) {
        RoundFull(host, fetch', c, blob, t);
      } else {
        var c', b' := RoundCommits(host, fetch', w, c, blob, tail, t);
        AheadGoesOn(host, fetch', w, c, c', pc, t);
        if !t.stop {
          LoopFrame(host, fetch, fetch', w, c', b', Some(b'.next));
        }
      }
    } else if pc !in Keys(c.index) && fetch'(pc).Some? {
      UnknownAborts(host, fetch', c, blob);
    }
  }

  // The cache the unit is added to is fit to run, in the window of the unit, for what its blocks are made of.
  lemma BaseIsFit(host: Host, before: Fetch, fetch: Fetch, v: u32, w: u32, c: Cache, pc: u32)
    requires host.Valid() && Layout(host, before, v, c) && (v == w || StartsWithFlush(host, fetch, c, pc))
    requires !UnitAhead(host, fetch, w, c, pc).ending.Outside?
    ensures var c0 := Base(host, fetch, c, pc); var made := Made(c0, before, fetch);
      && Layout(host, made, w, c0) && !StartsWithFlush(host, made, c0, pc)
      && AheadOf(host, made, w, c0, pc) == UnitAhead(host, fetch, w, c, pc)
      && PrefetchLoop(host, fetch, c, Blob(pc, false, true)) == PrefetchLoop(host, made, c0, Blob(pc, false, true))
      && Round(host, made, w, c0, Blob(pc, false, true), None) && (pc !in Keys(c0.index) ==> made(pc) == fetch(pc))
  {
    hide Find, Ordered, Packed, Chained, Holds, Translate, PrefetchLoop, Keys, Unoccupied, Ahead;
    var c0 := Base(host, fetch, c, pc);
    var made := Made(c0, before, fetch);
    if StartsWithFlush(host, fetch, c, pc) {
      KeyIffFind(host, before, v, c, pc);
      FlushFirst(host, fetch, c, pc);
      FlushedChained(host, made, w, c);
    } else {
      LayoutFrame(host, before, made, v, c);
    }
    var slots := if |c0.index| < MAX_INSTRUCTIONS_TOTRANSLATE then MAX_INSTRUCTIONS_TOTRANSLATE - |c0.index| else 0;
    AheadFrame(host, fetch, made, w, Keys(c0.index), TRANSLATION_CACHE_SIZE - c0.ptr - host.jumper, slots, pc);
    LoopFrame(host, fetch, made, w, c0, Blob(pc, false, true), None);
  }

  /**
   Prefetching aborts exactly at a word no translator knows. Otherwise it adds exactly the stretch ahead, maps
   the pc, and leaves the cache fit to run except in two cases. A unit that starts with a flush and ends, without
   a terminator, exactly where the old code ended gets no jumper; and a page fault in mid-unit leaves the last
   committed block open. The guest may have rewritten anything since the blocks were made: those that stay are
   still what they were made of, and the new ones are what is visible now.
   */
  lemma PrefetchKeepsLayout(host: Host, before: Fetch, fetch: Fetch, v: u32, w: u32, c: Cache, pc: u32)
    requires host.Valid() && Layout(host, before, v, c) && (v == w || StartsWithFlush(host, fetch, c, pc))
    requires !UnitAhead(host, fetch, w, c, pc).ending.Outside?
    ensures var a, c0 := UnitAhead(host, fetch, w, c, pc), Base(host, fetch, c, pc); var made := Made(c0, before, fetch);
      match Prefetch(host, fetch, c, pc)
      case Done(c') =>
        && !a.ending.Faults? && !a.ending.Unknown?
        && CacheInv(host, made, w, c') && Keys(c'.index) == a.keys && pc in a.keys && |c'.index| == |c0.index| + a.count
        && c'.ptr == c0.ptr + a.used + (if c0.ptr + a.used == c.ptr then 0 else host.jumper)
        && (Layout(host, made, w, c') <==> !ForgetsJumper(host, fetch, w, c, pc))
      case PageFault(c', va) =>
        && a.ending == Faults(va) && CacheInv(host, made, w, c')
        && (Layout(host, made, w, c') <==> va == pc) && (va == pc ==> c' == c)
      case Abort => a.ending.Unknown?
  {
    hide Find, Ordered, Packed, Chained, Holds, FallsOff, Translate, Copy, Keys, PrefetchLoop, AheadOf, Closed, Unoccupied, Made;
    BaseIsFit(host, before, fetch, v, w, c, pc);
    var c0 := Base(host, fetch, c, pc);
    var made := Made(c0, before, fetch);
    var a := AheadOf(host, made, w, c0, pc);
    LoopKeeps(host, made, w, c0, Blob(pc, false, true), None);
    UnitMaps(host, made, w, c0, pc);
    assert Keys([]) == {} by { NoKeys(); }
    match PrefetchLoop(host, fetch, c, Blob(pc, false, true))
    case Done(unit) =>
      if unit.ptr != c.ptr {
        assert a.count > 0;
        var tail :| Chained(made, unit, tail);
        JumperCloses(host, made, w, unit, tail);
      } else if Open(Blob(pc, false, true), a) {
        FallingIsUnchained(host, made, w, unit);
      }
    case PageFault(c', va) =>
      if a.count > 0 {
        FallingIsUnchained(host, made, w, c');
      }
    case Abort =>
  }

  lemma NoKeys()
    ensures Keys([]) == {}
  {
  }

  // The unit maps the pc it starts at, and it is its first block that takes bytes.
  lemma UnitMaps(host: Host, fetch: Fetch, w: u32, c: Cache, pc: u32)
    requires host.Valid() && !StartsWithFlush(host, fetch, c, pc)
    ensures var a := AheadOf(host, fetch, w, c, pc);
      && (a.count == 0 <==> a.used == 0)
      && (a.ending.Ends? || a.ending.Meets? || a.ending.Full? ==> pc in a.keys && (a.count == 0 <==> pc in Keys(c.index)))
      && (a.ending.Faults? ==> fetch(a.ending.va) == None && (a.count == 0 <==> a.ending.va == pc))
  {
    hide Translate, InWindow, Keys;
    var slots := if |c.index| < MAX_INSTRUCTIONS_TOTRANSLATE then MAX_INSTRUCTIONS_TOTRANSLATE - |c.index| else 0;
    AheadGrows(host, fetch, w, Keys(c.index), TRANSLATION_CACHE_SIZE - c.ptr - host.jumper, slots, pc);
    if pc !in Keys(c.index) && fetch(pc).Some? && Translate(fetch(pc).value, pc).Some? {
      var size := host.size(Translate(fetch(pc).value, pc).value.block.template);
      assert size <= Unoccupied(host, c);
      assert size > 0;
      if InWindow(w, pc) && !Translate(fetch(pc).value, pc).value.stop {
        AheadGrows(host, fetch, w, Keys(c.index) + {pc}, TRANSLATION_CACHE_SIZE - c.ptr - host.jumper - size, slots - 1, Wrap(pc + 4));
      }
    }
  }

  // A stretch only adds keys, and faults outside them.
  lemma {:induction false} AheadGrows(host: Host, fetch: Fetch, w: u32, keys: set<u32>, room: int, slots: nat, pc: u32)
    ensures var a := Ahead(host, fetch, w, keys, room, slots, pc);
      keys <= a.keys && (a.ending.Faults? ==> a.ending.va !in a.keys && fetch(a.ending.va) == None)
    decreases slots
  {
    hide Translate, InWindow;
    if pc !in keys && fetch(pc).Some? && Translate(fetch(pc).value, pc).Some? && slots > 0 {
      var size := host.size(Translate(fetch(pc).value, pc).value.block.template);
      AheadGrows(host, fetch, w, keys + {pc}, room - size, slots - 1, Wrap(pc + 4));
    }
  }

  // ----- whole histories -----

  // What happens to a cache: units are translated, the guest rewrites its code, and flushes let code in another
  // window be seen.
  datatype CacheOp = Unit(pc: u32) | Rewrite(fetch: Fetch) | Flush(fetch: Fetch, w: u32)

  // The code visible now, and what the blocks of the cache are made of.
  datatype View = View(c: Cache, fetch: Fetch, made: Fetch, w: u32)

  // A unit is added.
  function WithUnit(host: Host, view: View, pc: u32, c': Cache): View {
    view.(c := c', made := Made(Base(host, view.fetch, view.c, pc), view.made, view.fetch))
  }

  // `None` once a prefetch has aborted or faulted.
  function After(host: Host, view: View, ops: seq<CacheOp>): Option<View>
    decreases |ops|
  {
    if ops == [] then Some(view)
    else
      match ops[0]
      case Unit(pc) =>
        (match Prefetch(host, view.fetch, view.c, pc)
         case Done(c') => After(host, WithUnit(host, view, pc, c'), ops[1..])
         case _ => None)
      case Rewrite(fetch) => After(host, view.(fetch := fetch), ops[1..])
      case Flush(fetch, w) => After(host, View(Flushed(view.c), fetch, fetch, w), ops[1..])
  }

  // No unit of the history leaves the window or loses its jumper.
  ghost predicate Sound(host: Host, view: View, ops: seq<CacheOp>)
    decreases |ops|
  {
    ops == []
    || match ops[0]
       case Unit(pc) =>
         && !UnitAhead(host, view.fetch, view.w, view.c, pc).ending.Outside?
         && !ForgetsJumper(host, view.fetch, view.w, view.c, pc)
         && (match Prefetch(host, view.fetch, view.c, pc)
             case Done(c') => Sound(host, WithUnit(host, view, pc, c'), ops[1..])
             case _ => true)
       case Rewrite(fetch) => Sound(host, view.(fetch := fetch), ops[1..])
       case Flush(fetch, w) => Sound(host, View(Flushed(view.c), fetch, fetch, w), ops[1..])
  }

  /** Over any mix of units, rewriting and flushes the cache stays fit to run for what its blocks were made of. */
  lemma {:induction false} HistoryKeepsLayout(host: Host, view: View, ops: seq<CacheOp>)
    requires host.Valid() && Layout(host, view.made, view.w, view.c) && Sound(host, view, ops)
    ensures var last := After(host, view, ops); last.Some? ==> Layout(host, last.value.made, last.value.w, last.value.c)
    decreases |ops|
  {
    hide Prefetch, Layout, UnitAhead, ForgetsJumper, Made, Base;
    if ops != [] {
      match ops[0]
      case Unit(pc) =>
        PrefetchKeepsLayout(host, view.made, view.fetch, view.w, view.w, view.c, pc);
        if Prefetch(host, view.fetch, view.c, pc).Done? {
          HistoryKeepsLayout(host, WithUnit(host, view, pc, Prefetch(host, view.fetch, view.c, pc).c), ops[1..]);
        }
      case Rewrite(fetch) =>
        HistoryKeepsLayout(host, view.(fetch := fetch), ops[1..]);
      case Flush(fetch, w) =>
        FlushKeepsLayout(host, view, fetch, w);
        HistoryKeepsLayout(host, View(Flushed(view.c), fetch, fetch, w), ops[1..]);
    }
  }

  lemma FlushKeepsLayout(host: Host, view: View, fetch: Fetch, w: u32)
    requires Layout(host, view.made, view.w, view.c)
    ensures Layout(host, fetch, w, Flushed(view.c))
  {
    FlushedChained(host, fetch, w, view.c);
  }
}
