/** Guests on which a prefetch does leave the cache unfit to run. */
module LayoutWitness {
  import opened Words
  import Rv32
  import opened PcIndex
  import opened Translator
  import opened TranslationCache
  import opened CacheProof
  import opened Guest

  const EMPTY := Cache([], map[], 0)

  lemma EmptyLayout(host: Host, fetch: Fetch, w: u32)
    ensures Layout(host, fetch, w, EMPTY) && Keys(EMPTY.index) == {}
  {
  }

  // Where the guest never rewrites its code, the blocks are made of what is visible.
  lemma MadeOfOne(host: Host, fetch: Fetch, c0: Cache, w: u32, c: Cache)
    ensures Layout(host, Made(c0, fetch, fetch), w, c) <==> Layout(host, fetch, w, c)
  {
    hide Layout, Keys;
    var made := Made(c0, fetch, fetch);
    if Layout(host, made, w, c) { LayoutFrame(host, made, fetch, w, c); }
    if Layout(host, fetch, w, c) { LayoutFrame(host, fetch, made, w, c); }
  }

  lemma PrefetchOfOne(host: Host, fetch: Fetch, c: Cache, pc: u32)
    requires host.Valid() && Layout(host, fetch, 0, c) && !UnitAhead(host, fetch, 0, c, pc).ending.Outside?
    ensures var a, c0 := UnitAhead(host, fetch, 0, c, pc), Base(host, fetch, c, pc);
      match Prefetch(host, fetch, c, pc)
      case Done(c') =>
        && !a.ending.Faults? && Keys(c'.index) == a.keys && |c'.index| == |c0.index| + a.count
        && c'.ptr == c0.ptr + a.used + (if c0.ptr + a.used == c.ptr then 0 else host.jumper)
        && (Layout(host, fetch, 0, c') <==> !ForgetsJumper(host, fetch, 0, c, pc))
      case PageFault(c', va) => a.ending == Faults(va) && (Layout(host, fetch, 0, c') <==> va == pc)
      case Abort => a.ending.Unknown?
  {
    hide Prefetch, Layout, CacheInv, UnitAhead, ForgetsJumper, Made, Base, Keys;
    PrefetchKeepsLayout(host, fetch, fetch, 0, 0, c, pc);
    var o := Prefetch(host, fetch, c, pc);
    if !o.Abort? { MadeOfOne(host, fetch, Base(host, fetch, c, pc), 0, o.c); }
  }

  // A fence, 4094 instructions of one kind and a jump fill the index; straight-line code of that kind follows.
  const FIRST_END: u32 := 4 * 4095
  const SECOND: u32 := 4 * 4096

  const GUEST: Program := (pc: u32) =>
    if pc == 0 then Some(Plain(Rv32.Fence(0)))
    else if pc == FIRST_END then Some(Plain(Rv32.Jal(0, 0)))
    else if pc < 0x8000_0000 then Some(Plain(Rv32.Lui(1, 1)))
    else None

  lemma GuestWord(pc: u32)
    requires pc < 0x8000_0000
    ensures FetchOf(GUEST)(pc).Some? && InWindow(0, pc)
    ensures var t := Translate(FetchOf(GUEST)(pc).value, pc);
      && t.Some? && t.value.block.template == (if pc == 0 then FenceBlock else if pc == FIRST_END then JalBlock else LuiBlock)
      && t.value.stop == (pc == FIRST_END)
  {
    hide Translate, WordOf;
    GuestTranslates(GUEST(pc).value, pc);
  }

  // The stretch this guest has ahead.
  function On(host: Host, keys: set<u32>, room: int, slots: nat, pc: u32): Stretch {
    Ahead(host, FetchOf(GUEST), 0, keys, room, slots, pc)
  }

  function Plus(a: Stretch, count: nat, used: nat): Stretch {
    a.(count := a.count + count, used := a.used + used)
  }

  // One instruction of a stretch there is room for.
  lemma OneAhead(host: Host, keys: set<u32>, room: int, slots: nat, pc: u32, size: nat)
    requires pc < 0x8000_0000 && pc !in keys && slots > 0 && size <= room
    requires size == host.size(if pc == 0 then FenceBlock else if pc == FIRST_END then JalBlock else LuiBlock)
    ensures On(host, keys, room, slots, pc) ==
      if pc == FIRST_END then Stretch(keys + {pc}, 1, size, Ends)
      else Plus(On(host, keys + {pc}, room - size, slots - 1, pc + 4), 1, size)
  {
    hide Translate, FetchOf, InWindow;
    GuestWord(pc);
    assert Wrap(pc + 4) == pc + 4;
  }

  // `n` of the straight-line instructions, all new, and the bytes they take.
  lemma {:induction false} StraightAhead(host: Host, keys: set<u32>, room: int, slots: nat, pc: u32, n: nat, bytes: nat)
    returns (keys': set<u32>)
    requires bytes == n * host.size(LuiBlock) && bytes <= room && n <= slots
    requires 0 < pc && pc + 4 * n < 0x8000_0000 && (pc + 4 * n <= FIRST_END || FIRST_END < pc)
    requires forall k :: k in keys ==> k < pc
    ensures forall k :: k in keys' ==> k < pc + 4 * n
    ensures On(host, keys, room, slots, pc) == Plus(On(host, keys', room - bytes, slots - n, pc + 4 * n), n, bytes)
    decreases n
  {
    hide On;
    var l := host.size(LuiBlock);
    if n == 0 {
      keys' := keys;
    } else {
      assert bytes == (n - 1) * l + l && (n - 1) * l >= 0;
      OneAhead(host, keys, room, slots, pc, l);
      keys' := StraightAhead(host, keys + {pc}, room - l, slots - 1, pc + 4, n - 1, bytes - l);
    }
  }

  // The sizes of two different units coincide: a fence, a jump and the jumper take the bytes of two other blocks.
  ghost predicate Coincides(host: Host) {
    && host.Valid() && host.size(FenceBlock) + host.size(JalBlock) + host.jumper == 2 * host.size(LuiBlock)
    && 4096 * host.size(LuiBlock) + host.jumper <= TRANSLATION_CACHE_SIZE
  }

  // Blocks of about the sizes the templates assemble to.
  const HOST := Host((t: Template) => if t == FenceBlock then 24 else if t == JalBlock then 60 else 48, 12)

  lemma SmallBlocksCoincide()
    ensures Coincides(HOST)
  {
  }

  lemma FirstStretch(host: Host)
    requires Coincides(host)
    ensures var a := UnitAhead(host, FetchOf(GUEST), 0, EMPTY, 0);
      && !StartsWithFlush(host, FetchOf(GUEST), EMPTY, 0)
      && a.ending == Ends && a.count == 4096 && a.used + host.jumper == 4096 * host.size(LuiBlock)
      && forall k :: k in a.keys ==> k < SECOND
  {
    hide Ahead, FetchOf, Translate;
    var l, f := host.size(LuiBlock), host.size(FenceBlock);
    GuestWord(0);
    EmptyLayout(host, FetchOf(GUEST), 0);
    var room, none: set<u32> := TRANSLATION_CACHE_SIZE - host.jumper, {};
    var a := UnitAhead(host, FetchOf(GUEST), 0, EMPTY, 0);
    assert a == On(host, none, room, 4096, 0);
    OneAhead(host, none, room, 4096, 0, f);
    var keys := StraightAhead(host, none + {0}, room - f, 4095, 4, 4094, 4094 * l);
    OneAhead(host, keys, room - f - 4094 * l, 1, FIRST_END, host.size(JalBlock));
    assert a == Plus(Plus(Stretch(keys + {FIRST_END}, 1, host.size(JalBlock), Ends), 4094, 4094 * l), 1, f);
  }

  lemma SecondStretch(host: Host, c: Cache)
    requires Coincides(host) && |c.index| == 4096 && SECOND !in Keys(c.index)
    ensures StartsWithFlush(host, FetchOf(GUEST), c, SECOND)
    ensures var a := UnitAhead(host, FetchOf(GUEST), 0, c, SECOND); a.ending == Full && a.used == 4096 * host.size(LuiBlock)
  {
    hide Ahead, FetchOf, Translate, Keys;
    GuestWord(SECOND);
    assert Keys([]) == {} by { NoKeys(); }
    var room := TRANSLATION_CACHE_SIZE - host.jumper;
    var keys := StraightAhead(host, {}, room, 4096, SECOND, 4096, 4096 * host.size(LuiBlock));
    NothingFits(host, keys, room - 4096 * host.size(LuiBlock), SECOND + 4 * 4096);
  }

  lemma NothingFits(host: Host, keys: set<u32>, room: int, pc: u32)
    requires pc < 0x8000_0000 && pc !in keys
    ensures On(host, keys, room, 0, pc) == Stretch(keys, 0, 0, Full)
  {
    hide Translate, FetchOf;
    GuestWord(pc);
  }

  /**
   Whenever the sizes coincide, two units of 4096 instructions each end at the same byte: the second starts
   with a flush, gets no jumper, and its last block falls into whatever the buffer held.
   */
  lemma ForgottenJumper(host: Host)
    requires Coincides(host)
    ensures Layout(host, FetchOf(GUEST), 0, EMPTY)
    ensures var first := Prefetch(host, FetchOf(GUEST), EMPTY, 0);
      && first.Done? && Layout(host, FetchOf(GUEST), 0, first.c)
      && var second := Prefetch(host, FetchOf(GUEST), first.c, SECOND);
      second.Done? && second.c.ptr == first.c.ptr && !Layout(host, FetchOf(GUEST), 0, second.c)
  {
    hide Prefetch, Layout, CacheInv, UnitAhead, FetchOf, StartsWithFlush, Keys;
    var fetch := FetchOf(GUEST);
    EmptyLayout(host, fetch, 0);
    FirstStretch(host);
    PrefetchOfOne(host, fetch, EMPTY, 0);
    var c1 := Prefetch(host, fetch, EMPTY, 0).c;
    SecondStretch(host, c1);
    PrefetchOfOne(host, fetch, c1, SECOND);
  }

  const SHORT: Program := (pc: u32) => if pc == 0 then Some(Plain(Rv32.Lui(1, 1))) else None

  /** On every host a page fault on the second instruction of a unit leaves the first one open. */
  lemma FaultInMidUnit(host: Host)
    requires host.Valid()
    ensures Layout(host, FetchOf(SHORT), 0, EMPTY)
    ensures var o := Prefetch(host, FetchOf(SHORT), EMPTY, 0); o.PageFault? && o.va == 4 && !Layout(host, FetchOf(SHORT), 0, o.c)
  {
    hide Prefetch, Layout, CacheInv, Translate, WordOf;
    var fetch := FetchOf(SHORT);
    EmptyLayout(host, fetch, 0);
    GuestTranslates(SHORT(0).value, 0);
    assert UnitAhead(host, fetch, 0, EMPTY, 0).ending == Faults(4) by {
      assert host.size(LuiBlock) <= TRANSLATION_CACHE_SIZE - host.jumper;
      assert Ahead(host, fetch, 0, {0}, TRANSLATION_CACHE_SIZE - host.jumper - host.size(LuiBlock), 4095, 4).ending == Faults(4);
    }
    PrefetchOfOne(host, fetch, EMPTY, 0);
  }
}
