/**
 The vmm's loop over whole runs: at each unit boundary the devices are pumped and an interrupt
 may be taken; otherwise the next unit is prefetched, its first block looked up and run.
 */
module VmmLoop {
  import opened Words
  import Rv32
  import opened X86
  import opened PcIndex
  import opened Translator
  import opened TranslationCache
  import opened CacheProof
  import opened Guest
  import opened Engine

  datatype Vmm<W> =
    | Running(c: Cache, s: State<W>)   // control is at the entry of the vmm
    | HostDied                         // a divide error on the host
    | Lost                             // a failed assertion, or control ran into stray bytes

  function KeptOr(c: Cache, flushes: bool): Cache {
    if flushes then Flushed(c) else c
  }

  // `vmresume`.  The host registers hold whatever the vmm left in them.
  function Resume<W>(host: Host, env: Env<W>, c: Cache, s: State<W>, scratch: Machine): Vmm<W>
    requires s.hart.Valid() && scratch.Valid()
  {
    match Prefetch(host, FetchOf(env.code(s.world)), c, s.hart.pc)
    case Abort => Lost
    case PageFault(c', va) =>
      var a := env.fault(va, s.world, s.hart);
      Running(KeptOr(c', a.flushes), State(a.world, a.hart))
    case Done(c') =>
      match Find(c'.index, s.hart.pc)
      case None => Lost
      case Some(k) =>
        match Exec(env, c', c'.index[k].tcOffset, s.world, scratch.(hart := s.hart))
        case Back(w, h, flushes) => Running(KeptOr(c', flushes), State(w, h))
        case Died => HostDied
        case _ => Lost
  }

  // `vmexit`: the devices first, then the guest, unless an interrupt has been taken.
  ghost function Round<W>(host: Host, env: Env<W>, c: Cache, s: State<W>, scratch: Machine): Vmm<W>
    requires s.hart.Valid() && scratch.Valid()
  {
    var p := env.pump(s.world, s.hart);
    if p.Enters? then Running(KeptOr(c, p.flushes), State(p.world, p.hart))
    else if p.hart.Valid() then Resume(host, env, KeptOr(c, p.flushes), State(p.world, p.hart), scratch)
    else Lost
  }

  // One round after the other while control comes back; the state of the host registers at each is arbitrary.
  ghost function Resumes<W>(host: Host, env: Env<W>, c: Cache, s: State<W>, scratch: seq<Machine>): Vmm<W>
    requires s.hart.Valid() && forall m :: m in scratch ==> m.Valid()
    decreases |scratch|
  {
    if scratch == [] then Running(c, s)
    else
      match Round(host, env, c, s, scratch[0])
      case Running(c', s') => if s'.hart.Valid() then Resumes(host, env, c', s', scratch[1..]) else Lost
      case other => other
  }

  // ----- the reference, round by round -----

  // The architecture lets an instruction fetch see the code as it was at any time since the last fence.  So the
  // reference remembers the worlds from which a unit was entered since the cache was last emptied.
  datatype Track<W> = Track(s: State<W>, past: seq<W>)

  ghost predicate Seen<W>(env: Env<W>, past: seq<W>, pc: u32, i: Option<GuestInstr>) {
    exists j :: 0 <= j < |past| && env.code(past[j])(pc) == i
  }

  // A program each instruction of which was visible at its pc at one of these times.
  ghost predicate FromPast<W>(env: Env<W>, past: seq<W>, made: Program) {
    forall pc: u32 :: Seen(env, past, pc, made(pc))
  }

  function Forgotten<W>(past: seq<W>, flushes: bool): seq<W> {
    if flushes then [] else past
  }

  function Pumped<W>(env: Env<W>, r: Track<W>): Track<W> {
    var p := env.pump(r.s.world, r.s.hart);
    Track(State(p.world, p.hart), Forgotten(r.past, p.flushes))
  }

  function Faulted<W>(env: Env<W>, b: Track<W>): Track<W> {
    var f := env.fault(b.s.hart.pc, b.s.world, b.s.hart);
    Track(State(f.world, f.hart), Forgotten(b.past, f.flushes))
  }

  // The unit entered at the boundary `b`.
  function Entered<W>(b: Track<W>): seq<W> {
    b.past + [b.s.world]
  }

  // A unit of `k` instructions from the boundary `b`, fetched as `env` says.
  ghost predicate UnitRuns<W>(env: Env<W>, b: Track<W>, k: nat, r: Track<W>) {
    UnitSteps(env, b.s, k, r.s) && r.past == Forgotten(Entered(b), FlushedIn(env, b.s, k))
  }

  // A boundary, and then nothing if an interrupt was taken; otherwise the page fault if nothing is mapped at the
  // pc, or `k` instructions each of which was visible at its pc at this or an earlier boundary since the last flush.
  ghost predicate ReferenceRound<W>(env: Env<W>, r: Track<W>, k: nat, r': Track<W>) {
    r.s.hart.Valid() &&
    var b := Pumped(env, r);
    if env.pump(r.s.world, r.s.hart).Enters? then k == 0 && r' == b
    else
      || (InstrAt(env, b.s) == None && k == 0 && r' == Faulted(env, b))
      || exists made: Program :: FromPast(env, Entered(b), made) && UnitRuns(Frozen(env, made), b, k, r')
  }

  ghost predicate Rounds<W(!new)>(env: Env<W>, r: Track<W>, ks: seq<nat>, r': Track<W>)
    decreases |ks|
  {
    if ks == [] then r' == r
    else exists r1: Track<W> :: ReferenceRound(env, r, ks[0], r1) && Rounds(env, r1, ks[1..], r')
  }

  // A round in which the guest comes to an instruction the host cannot take.
  ghost predicate RoundDies<W>(env: Env<W>, r: Track<W>) {
    && r.s.hart.Valid() && env.pump(r.s.world, r.s.hart).Returns?
    && exists made: Program, k: nat :: FromPast(env, Entered(Pumped(env, r)), made) && UnitDies(Frozen(env, made), Pumped(env, r).s, k)
  }

  // ----- when a round leaves the cache fit -----

  // The guard of one prefetch: the unit lies in one window with the translated code, keeps its jumper, and
  // does not run into an unmapped address.
  ghost predicate UnitFits(host: Host, fetch: Fetch, w: u32, c: Cache, pc: u32) {
    && (StartsWithFlush(host, fetch, c, pc) || forall k :: k in Keys(c.index) ==> InWindow(w, k))
    && var a := UnitAhead(host, fetch, w, c, pc);
    && !a.ending.Outside? && (a.ending.Faults? ==> a.ending.va == pc) && !ForgetsJumper(host, fetch, w, c, pc)
  }

  ghost predicate FitsSomewhere(host: Host, fetch: Fetch, c: Cache, pc: u32) {
    exists w: u32 :: UnitFits(host, fetch, w, c, pc)
  }

  // The guard of one round: unless an interrupt is taken, that of its prefetch.
  ghost predicate RoundFits<W>(host: Host, env: Env<W>, c: Cache, s: State<W>) {
    var p := env.pump(s.world, s.hart);
    p.Returns? ==> FitsSomewhere(host, FetchOf(env.code(p.world)), KeptOr(c, p.flushes), p.hart.pc)
  }

  // Every round of the run meets the guard.
  ghost predicate Smooth<W>(host: Host, env: Env<W>, c: Cache, s: State<W>, scratch: seq<Machine>)
    requires s.hart.Valid() && forall m :: m in scratch ==> m.Valid()
    decreases |scratch|
  {
    scratch == []
    || (RoundFits(host, env, c, s)
        && match Round(host, env, c, s, scratch[0])
           case Running(c', s') => s'.hart.Valid() ==> Smooth(host, env, c', s', scratch[1..])
           case _ => true)
  }

  // Each block was made of what was visible at one of these times.
  ghost predicate MadeOf<W>(env: Env<W>, past: seq<W>, c: Cache, made: Program) {
    forall pc :: pc in Keys(c.index) ==> Seen(env, past, pc, made(pc))
  }

  // The cache is fit to run, in some window, for code its blocks were made of since the last flush.
  ghost predicate Fit<W>(host: Host, env: Env<W>, past: seq<W>, c: Cache) {
    exists v: u32, made: Program :: Layout(host, FetchOf(made), v, c) && MadeOf(env, past, c, made)
  }

  // The cache a hart starts with.
  lemma EmptyFits<W>(host: Host, env: Env<W>, past: seq<W>)
    ensures Fit(host, env, past, Cache([], map[], 0))
  {
    var made: Program := (_: u32) => None;
    assert Layout(host, FetchOf(made), 0, Cache([], map[], 0));
  }

  // An index ordered in one window is ordered in every window that holds its keys.
  lemma OrderedElsewhere(index: seq<Item>, v: u32, w: u32)
    requires Ordered(index, v) && forall k :: k in Keys(index) ==> InWindow(w, k)
    ensures Ordered(index, w)
  {
    hide Offset;
    forall i | 0 <= i < |index|
      ensures InWindow(w, index[i].guestPc)
    {
      assert index[i] in index;
    }
    forall i, j | 0 <= i < j < |index|
      ensures Offset(w, index[i].guestPc) < Offset(w, index[j].guestPc)
    {
      WindowDifference(v, index[i].guestPc, index[j].guestPc);
      WindowDifference(w, index[i].guestPc, index[j].guestPc);
    }
  }

  lemma LayoutElsewhere(host: Host, fetch: Fetch, v: u32, w: u32, c: Cache)
    requires Layout(host, fetch, v, c) && forall k :: k in Keys(c.index) ==> InWindow(w, k)
    ensures Layout(host, fetch, w, c)
  {
    hide Ordered, Packed, Chained, CacheProof.Holds, Keys, InWindow;
    OrderedElsewhere(c.index, v, w);
  }

  // A guest consists of instructions the translators know.
  lemma {:induction false} NothingUnknown(host: Host, g: Program, w: u32, keys: set<u32>, room: int, slots: nat, pc: u32)
    ensures !Ahead(host, FetchOf(g), w, keys, room, slots, pc).ending.Unknown?
    decreases slots
  {
    hide Translate, WordOf, InWindow;
    if pc !in keys && g(pc).Some? {
      GuestTranslates(g(pc).value, pc);
      if slots > 0 {
        var size := host.size(Translate(WordOf(g(pc).value), pc).value.block.template);
        NothingUnknown(host, g, w, keys + {pc}, room - size, slots - 1, Wrap(pc + 4));
      }
    }
  }

  lemma UnitKnown(host: Host, g: Program, w: u32, c: Cache, pc: u32)
    ensures !UnitAhead(host, FetchOf(g), w, c, pc).ending.Unknown?
  {
    hide Ahead, FetchOf, Base;
    var b := Base(host, FetchOf(g), c, pc);
    var slots := if |b.index| < MAX_INSTRUCTIONS_TOTRANSLATE then MAX_INSTRUCTIONS_TOTRANSLATE - |b.index| else 0;
    NothingUnknown(host, g, w, Keys(b.index), TRANSLATION_CACHE_SIZE - b.ptr - host.jumper, slots, pc);
  }

  // What the blocks are made of once a unit of the guest has been added.
  function Joined(c: Cache, made: Program, g: Program): Program {
    (pc: u32) => if pc in Keys(c.index) then made(pc) else g(pc)
  }

  lemma JoinedFetch(c: Cache, made: Program, g: Program, pc: u32)
    ensures FetchOf(Joined(c, made, g))(pc) == Made(c, FetchOf(made), FetchOf(g))(pc)
  {
    hide WordOf, Keys;
  }

  /**
   A prefetch that meets the guard leaves the cache fit to run, with the pc mapped and with the new blocks made of
   what is visible now, or faults at the pc.
   */
  lemma FittingPrefetch(host: Host, made: Program, g: Program, v: u32, w: u32, c: Cache, pc: u32)
    requires host.Valid() && Layout(host, FetchOf(made), v, c) && UnitFits(host, FetchOf(g), w, c, pc)
    ensures match Prefetch(host, FetchOf(g), c, pc)
      case Done(c') =>
        && Layout(host, FetchOf(Joined(Base(host, FetchOf(g), c, pc), made, g)), w, c') && Find(c'.index, pc).Some?
      case PageFault(c', va) => va == pc && g(pc) == None && c' == c
      case Abort => false
  {
    hide Prefetch, Layout, FetchOf, UnitAhead, ForgetsJumper, StartsWithFlush, Find, InWindow, Made, Joined, Base;
    var fetch, before := FetchOf(g), FetchOf(made);
    UnitKnown(host, g, w, c, pc);
    if StartsWithFlush(host, fetch, c, pc) {
      PrefetchKeepsLayout(host, before, fetch, v, w, c, pc);
    } else {
      LayoutElsewhere(host, before, v, w, c);
      PrefetchKeepsLayout(host, before, fetch, w, w, c, pc);
    }
    match Prefetch(host, fetch, c, pc)
    case Done(c') =>
      var b := Base(host, fetch, c, pc);
      forall p: u32 { JoinedFetch(b, made, g, p); }
      LayoutFrame(host, Made(b, before, fetch), FetchOf(Joined(b, made, g)), w, c');
      LayoutMaps(host, FetchOf(Joined(b, made, g)), w, c', pc);
    case PageFault(_, va) =>
      FaultsUnmapped(host, g, w, c, pc);
    case Abort =>
  }

  lemma LayoutMaps(host: Host, fetch: Fetch, w: u32, c: Cache, pc: u32)
    requires Layout(host, fetch, w, c) && pc in Keys(c.index)
    ensures Find(c.index, pc).Some?
  {
    hide CacheInv, Chained, Find, Keys;
    KeyIffFind(host, fetch, w, c, pc);
  }

  lemma FaultsUnmapped(host: Host, g: Program, w: u32, c: Cache, pc: u32)
    ensures var a := UnitAhead(host, FetchOf(g), w, c, pc); a.ending.Faults? ==> g(a.ending.va) == None
  {
    hide Ahead, Base;
    var b := Base(host, FetchOf(g), c, pc);
    var slots := if |b.index| < MAX_INSTRUCTIONS_TOTRANSLATE then MAX_INSTRUCTIONS_TOTRANSLATE - |b.index| else 0;
    AheadGrows(host, FetchOf(g), w, Keys(b.index), TRANSLATION_CACHE_SIZE - b.ptr - host.jumper, slots, pc);
  }

  // ----- one round -----

  // What a round comes to: the reference round, with a fit cache, or its death.
  ghost predicate RoundRight<W(!new)>(host: Host, env: Env<W>, r: Track<W>, v: Vmm<W>) {
    match v
    case Running(c', s') =>
      s'.hart.Valid() && exists k: nat, past: seq<W> :: ReferenceRound(env, r, k, Track(s', past)) && Fit(host, env, past, c')
    case HostDied => RoundDies(env, r)
    case Lost => false
  }

  // What a resume from the boundary `b` comes to.
  ghost predicate ResumeRight<W(!new)>(host: Host, env: Env<W>, b: Track<W>, v: Vmm<W>)
    requires b.s.hart.Valid()
  {
    match v
    case Running(c', s') =>
      s'.hart.Valid()
      && ((InstrAt(env, b.s) == None && s' == Faulted(env, b).s && Fit(host, env, Faulted(env, b).past, c'))
          || exists made: Program, k: nat, past: seq<W> ::
               FromPast(env, Entered(b), made) && UnitRuns(Frozen(env, made), b, k, Track(s', past)) && Fit(host, env, past, c'))
    case HostDied => exists made: Program, k: nat :: FromPast(env, Entered(b), made) && UnitDies(Frozen(env, made), b.s, k)
    case Lost => false
  }

  lemma LayoutPacked(host: Host, fetch: Fetch, v: u32, c: Cache)
    requires Layout(host, fetch, v, c)
    ensures Packed(c.code)
  {
  }

  lemma FlushedKeys(c: Cache)
    ensures Keys(Flushed(c).index) == {}
  {
    NoKeys();
  }

  // A cache that is kept or emptied stays fit to run.
  lemma KeptFits<W>(host: Host, env: Env<W>, past: seq<W>, v: u32, made: Program, c: Cache, flushes: bool)
    requires Layout(host, FetchOf(made), v, c) && MadeOf(env, past, c, made)
    ensures Fit(host, env, Forgotten(past, flushes), KeptOr(c, flushes))
  {
    hide FetchOf, Layout, Seen, Keys;
    if flushes {
      LayoutPacked(host, FetchOf(made), v, c);
      FlushedChained(host, FetchOf(made), v, c);
      FlushedKeys(c);
    }
  }

  lemma KeptStaysFit<W>(host: Host, env: Env<W>, past: seq<W>, c: Cache, flushes: bool)
    requires Fit(host, env, past, c)
    ensures Fit(host, env, Forgotten(past, flushes), KeptOr(c, flushes))
  {
    hide FetchOf, Layout, MadeOf, KeptOr, Forgotten;
    var v: u32, made: Program :| Layout(host, FetchOf(made), v, c) && MadeOf(env, past, c, made);
    KeptFits(host, env, past, v, made, c, flushes);
  }

  // A unit entered at a boundary is made of what was visible at this or an earlier one.
  lemma JoinedIsPast<W>(host: Host, env: Env<W>, b: Track<W>, c: Cache, made: Program, c0: Cache)
    requires MadeOf(env, b.past, c, made) && (c0 == c || c0 == Flushed(c))
    ensures FromPast(env, Entered(b), Joined(c0, made, env.code(b.s.world)))
  {
    hide Keys;
    FlushedKeys(c);
    forall pc: u32
      ensures Seen(env, Entered(b), pc, Joined(c0, made, env.code(b.s.world))(pc))
    {
      if pc in Keys(c0.index) {
        var j :| 0 <= j < |b.past| && env.code(b.past[j])(pc) == made(pc);
        assert Entered(b)[j] == b.past[j];
      } else {
        assert Entered(b)[|b.past|] == b.s.world;
      }
    }
  }

  lemma RanRight<W(!new)>(host: Host, env: Env<W>, w: u32, c: Cache, b: Track<W>, made: Program, r: Ran<W>)
    requires Layout(host, FetchOf(made), w, c) && b.s.hart.Valid() && FromPast(env, Entered(b), made)
    requires Achieves(Frozen(env, made), b.s, r)
    ensures ResumeRight(host, env, b, match r
      case Back(w', h, flushes) => Running(KeptOr(c, flushes), State(w', h))
      case Died => HostDied
      case _ => Lost)
  {
    hide Layout, Steps, StepsToFault, FetchOf, Fit, Seen, FlushedIn, Faulted;
    match r
    case Back(w', h, flushes) =>
      var k: nat :| UnitSteps(Frozen(env, made), b.s, k, State(w', h)) && flushes == FlushedIn(Frozen(env, made), b.s, k);
      StepsValid(Frozen(env, made), b.s, k, State(w', h));
      KeptFits(host, env, Entered(b), w, made, c, flushes);
      var past := Forgotten(Entered(b), flushes);
      assert UnitRuns(Frozen(env, made), b, k, Track(State(w', h), past));
    case _ =>
  }

  lemma FaultRight<W(!new)>(host: Host, env: Env<W>, c: Cache, b: Track<W>)
    requires Behaves(env) && b.s.hart.Valid() && Fit(host, env, b.past, c) && InstrAt(env, b.s) == None
    ensures var a := env.fault(b.s.hart.pc, b.s.world, b.s.hart);
      ResumeRight(host, env, b, Running(KeptOr(c, a.flushes), State(a.world, a.hart)))
  {
    hide Fit, UnitRuns, FromPast;
    var a := env.fault(b.s.hart.pc, b.s.world, b.s.hart);
    assert a.hart.Valid();
    KeptStaysFit(host, env, b.past, c, a.flushes);
  }

  /** One resume from a cache fit to run, whose unit meets the guard, is a run of the reference. */
  lemma ResumeIsReferenceRun<W(!new)>(host: Host, env: Env<W>, w: u32, c: Cache, b: Track<W>, scratch: Machine)
    requires host.Valid() && Behaves(env) && b.s.hart.Valid() && scratch.Valid()
    requires Fit(host, env, b.past, c) && UnitFits(host, FetchOf(env.code(b.s.world)), w, c, b.s.hart.pc)
    ensures ResumeRight(host, env, b, Resume(host, env, c, b.s, scratch))
  {
    hide Prefetch, FetchOf, Layout, Exec, UnitFits, Find, Behaves, ResumeRight, Achieves, MadeOf, FromPast, Joined;
    var g, s, pc := env.code(b.s.world), b.s, b.s.hart.pc;
    var v: u32, made: Program :| Layout(host, FetchOf(made), v, c) && MadeOf(env, b.past, c, made);
    FittingPrefetch(host, made, g, v, w, c, pc);
    match Prefetch(host, FetchOf(g), c, pc)
    case Done(c') =>
      var c0 := Base(host, FetchOf(g), c, pc);
      var now := Joined(c0, made, g);
      JoinedIsPast(host, env, b, c, made, c0);
      var it := c'.index[Find(c'.index, pc).value];
      var m := scratch.(hart := s.hart);
      UnitIsReferenceRun(env, now, host, w, c', it, s.world, m);
      RanRight(host, env, w, c', b, now, Exec(env, c', it.tcOffset, s.world, m));
    case PageFault(_, _) => FaultRight(host, env, c, b);
    case Abort =>
  }

  lemma PumpedResume<W(!new)>(host: Host, env: Env<W>, r: Track<W>, v: Vmm<W>)
    requires r.s.hart.Valid() && env.pump(r.s.world, r.s.hart).Returns? && Pumped(env, r).s.hart.Valid()
    requires ResumeRight(host, env, Pumped(env, r), v)
    ensures RoundRight(host, env, r, v)
  {
    hide FromPast, UnitRuns, UnitDies, Fit, Faulted, Pumped, InstrAt;
    var b := Pumped(env, r);
    match v
    case Running(c', s') =>
      if InstrAt(env, b.s) == None && s' == Faulted(env, b).s && Fit(host, env, Faulted(env, b).past, c') {
        var f := Faulted(env, b);
        assert f == Track(s', f.past);
        assert ReferenceRound(env, r, 0, Track(s', f.past));
      } else {
        var made: Program, k: nat, past: seq<W> :|
          FromPast(env, Entered(b), made) && UnitRuns(Frozen(env, made), b, k, Track(s', past)) && Fit(host, env, past, c');
        assert ReferenceRound(env, r, k, Track(s', past));
      }
    case HostDied =>
    case Lost =>
  }

  /** One round from a cache fit to run, when its unit meets the guard, is a round of the reference. */
  lemma RoundIsReferenceRound<W(!new)>(host: Host, env: Env<W>, c: Cache, r: Track<W>, scratch: Machine)
    requires host.Valid() && Behaves(env) && r.s.hart.Valid() && scratch.Valid()
    requires Fit(host, env, r.past, c) && RoundFits(host, env, c, r.s)
    ensures RoundRight(host, env, r, Round(host, env, c, r.s, scratch))
  {
    hide Resume, UnitFits, ResumeRight, Fit, KeptOr, Forgotten, UnitRuns, FromPast;
    var p, b := env.pump(r.s.world, r.s.hart), Pumped(env, r);
    assert p.hart.Valid();
    KeptStaysFit(host, env, r.past, c, p.flushes);
    if p.Enters? {
      assert ReferenceRound(env, r, 0, Track(b.s, b.past));
    } else {
      var c1 := KeptOr(c, p.flushes);
      var w: u32 :| UnitFits(host, FetchOf(env.code(p.world)), w, c1, p.hart.pc);
      ResumeIsReferenceRun(host, env, w, c1, b, scratch);
      PumpedResume(host, env, r, Resume(host, env, c1, b.s, scratch));
    }
  }

  // ----- whole runs -----

  ghost predicate RunRight<W(!new)>(host: Host, env: Env<W>, r: Track<W>, n: nat, v: Vmm<W>) {
    match v
    case Running(c', s') =>
      && s'.hart.Valid()
      && exists ks: seq<nat>, past: seq<W> :: |ks| == n && Rounds(env, r, ks, Track(s', past)) && Fit(host, env, past, c')
    case HostDied => exists ks: seq<nat>, r1: Track<W> :: |ks| < n && Rounds(env, r, ks, r1) && RoundDies(env, r1)
    case Lost => false
  }

  lemma RoundsPrepend<W(!new)>(env: Env<W>, r: Track<W>, k: nat, r1: Track<W>, ks: seq<nat>, r2: Track<W>)
    requires ReferenceRound(env, r, k, r1) && Rounds(env, r1, ks, r2)
    ensures Rounds(env, r, [k] + ks, r2)
  {
    hide ReferenceRound;
    assert ([k] + ks)[1..] == ks;
  }

  lemma ThenRunRight<W(!new)>(host: Host, env: Env<W>, r: Track<W>, k: nat, r1: Track<W>, n: nat, v: Vmm<W>)
    requires ReferenceRound(env, r, k, r1) && RunRight(host, env, r1, n, v)
    ensures RunRight(host, env, r, n + 1, v)
  {
    hide ReferenceRound, Rounds, RoundDies, Fit;
    match v
    case Running(c', s') =>
      var ks: seq<nat>, past: seq<W> :| |ks| == n && Rounds(env, r1, ks, Track(s', past)) && Fit(host, env, past, c');
      RoundsPrepend(env, r, k, r1, ks, Track(s', past));
      var all := [k] + ks;
      assert |all| == n + 1 && Rounds(env, r, all, Track(s', past)) && Fit(host, env, past, c');
    case HostDied =>
      var ks: seq<nat>, r2: Track<W> :| |ks| < n && Rounds(env, r1, ks, r2) && RoundDies(env, r2);
      RoundsPrepend(env, r, k, r1, ks, r2);
    case Lost =>
  }

  lemma FirstRoundRight<W(!new)>(host: Host, env: Env<W>, r: Track<W>, n: nat, v: Vmm<W>)
    requires RoundRight(host, env, r, v) && !v.Running? && n > 0
    ensures RunRight(host, env, r, n, v)
  {
    hide RoundDies;
    assert Rounds(env, r, [], r);
  }

  lemma NoRound<W(!new)>(host: Host, env: Env<W>, c: Cache, r: Track<W>)
    requires r.s.hart.Valid() && Fit(host, env, r.past, c)
    ensures RunRight(host, env, r, 0, Running(c, r.s))
  {
    hide Fit;
    assert Rounds(env, r, [], Track(r.s, r.past));
  }

  /**
   Translation preserves meaning over whole runs. For any guest, any behaviour of memory, csrs and devices, and
   whatever the host registers held: as long as every prefetch meets its guard, the emulator after `n` rounds is
   in a state of the reference after `n` rounds, with the same interrupts and page faults taken. It stops early
   only at a division the host cannot take, and control never runs into stray bytes. The guest may rewrite its
   code at any time: each instruction executed was visible at its pc when some unit was entered after the last
   flush.
   */
  lemma {:induction false} RunIsReferenceRun<W(!new)>(host: Host, env: Env<W>, c: Cache, r: Track<W>, scratch: seq<Machine>)
    requires host.Valid() && Behaves(env) && r.s.hart.Valid() && Fit(host, env, r.past, c)
    requires (forall m :: m in scratch ==> m.Valid()) && Smooth(host, env, c, r.s, scratch)
    ensures RunRight(host, env, r, |scratch|, Resumes(host, env, c, r.s, scratch))
    decreases |scratch|
  {
    hide Round, RoundFits, Fit, ReferenceRound, RoundDies, Rounds, Behaves, RunRight;
    if scratch == [] {
      NoRound(host, env, c, r);
    } else {
      RoundIsReferenceRound(host, env, c, r, scratch[0]);
      var v := Round(host, env, c, r.s, scratch[0]);
      if v.Running? {
        var k: nat, past: seq<W> :| ReferenceRound(env, r, k, Track(v.s, past)) && Fit(host, env, past, v.c);
        var r1 := Track(v.s, past);
        RunIsReferenceRun(host, env, v.c, r1, scratch[1..]);
        ThenRunRight(host, env, r, k, r1, |scratch| - 1, Resumes(host, env, v.c, v.s, scratch[1..]));
      } else {
        FirstRoundRight(host, env, r, |scratch|, v);
      }
    }
  }

  // ----- guests that always meet the guard -----

  // The `j`-th instruction from `pc` on is the first that ends a unit, and all up to it are mapped.
  ghost predicate Reach(g: Program, pc: u32, j: nat)
    decreases j
  {
    g(pc).Some? && if j == 0 then EndsUnit(g(pc).value) else !EndsUnit(g(pc).value) && Reach(g, Wrap(pc + 4), j - 1)
  }

  // The code lies in the window, and every instruction is followed by one that ends a unit within `n`.
  ghost predicate Bounded(g: Program, w: u32, n: nat) {
    forall pc: u32 :: g(pc).Some? ==> InWindow(w, pc) && exists j: nat :: j < n && Reach(g, pc, j)
  }

  // `n` blocks of at most `block` bytes and the jumper fit the cache and its index.
  ghost predicate Roomy(host: Host, n: nat, block: nat) {
    && n <= MAX_INSTRUCTIONS_TOTRANSLATE && n * block + host.jumper <= TRANSLATION_CACHE_SIZE
    && forall t :: host.size(t) <= block
  }

  lemma StretchGoesOn(start: u32, pc: u32, m: nat)
    requires m < MAX_INSTRUCTIONS_TOTRANSLATE && Offset(start, pc) == 4 * m
    ensures Offset(start, Wrap(pc + 4)) == 4 * (m + 1)
  {
  }

  // A bounded stretch ends at its terminator when there is room for it, and in any case inside the program.
  lemma {:induction false} BoundedStretch(host: Host, g: Program, w: u32, keys: set<u32>, room: int, slots: nat, start: u32, pc: u32,
                                          m: nat, j: nat, block: nat)
    requires (forall p: u32 :: g(p).Some? ==> InWindow(w, p)) && (forall t :: host.size(t) <= block) && Reach(g, pc, j)
    ensures var e := Ahead(host, FetchOf(g), w, keys, room, slots, pc).ending; !e.Faults? && !e.Outside?
    ensures (j + 1) * block <= room && j + 1 <= slots && Offset(start, pc) == 4 * m && m + j < MAX_INSTRUCTIONS_TOTRANSLATE
      && (forall k :: k in keys ==> Offset(start, k) < 4 * m)
      ==> Ahead(host, FetchOf(g), w, keys, room, slots, pc).ending.Ends?
    decreases j
  {
    hide Translate, WordOf, InWindow, Offset, EndsUnit, TemplateFor, ParamsFor;
    GuestTranslates(g(pc).value, pc);
    assert (j + 1) * block == j * block + block;
    if j > 0 {
      var size := host.size(Translate(WordOf(g(pc).value), pc).value.block.template);
      assert j * block == (j - 1 + 1) * block && j * block >= 0;
      if Offset(start, pc) == 4 * m && m < MAX_INSTRUCTIONS_TOTRANSLATE {
        StretchGoesOn(start, pc, m);
      }
      if slots > 0 {
        BoundedStretch(host, g, w, keys + {pc}, room - size, slots - 1, start, Wrap(pc + 4), m + 1, j - 1, block);
      }
    }
  }

  /** Without overlong straight-line code every prefetch meets the guard. */
  lemma BoundedFits(host: Host, g: Program, w: u32, c: Cache, pc: u32, n: nat, block: nat)
    requires host.Valid() && (forall k :: k in Keys(c.index) ==> InWindow(w, k)) && Bounded(g, w, n) && Roomy(host, n, block)
    ensures UnitFits(host, FetchOf(g), w, c, pc)
  {
    hide FetchOf, Ahead, InWindow, Unoccupied, Reach;
    var b := Base(host, FetchOf(g), c, pc);
    AheadStops(host, FetchOf(g), w, b, pc);
    FetchIff(g, pc);
    if g(pc).Some? {
      var j: nat :| j < n && Reach(g, pc, j);
      var slots := if |b.index| < MAX_INSTRUCTIONS_TOTRANSLATE then MAX_INSTRUCTIONS_TOTRANSLATE - |b.index| else 0;
      BoundedStretch(host, g, w, Keys(b.index), TRANSLATION_CACHE_SIZE - b.ptr - host.jumper, slots, pc, pc, 0, j, block);
      if StartsWithFlush(host, FetchOf(g), c, pc) {
        MulMonotone(j + 1, n, block);
        assert Keys([]) == {} by { NoKeys(); }
      }
    }
  }

  lemma FetchIff(g: Program, pc: u32)
    ensures FetchOf(g)(pc).Some? <==> g(pc).Some?
  {
    hide WordOf;
  }

  lemma LayoutMapped(host: Host, g: Program, v: u32, c: Cache)
    requires Layout(host, FetchOf(g), v, c)
    ensures forall k :: k in Keys(c.index) ==> g(k).Some?
  {
    hide Ordered, Packed, Chained, WordOf, Translate;
    forall k | k in Keys(c.index)
      ensures g(k).Some?
    {
      var it :| it in c.index && it.guestPc == k;
      assert CacheProof.Holds(host, FetchOf(g), c, it);
    }
  }

  // What was ever translated lies in the window.
  lemma FitInWindow<W(!new)>(host: Host, env: Env<W>, past: seq<W>, w: u32, c: Cache, n: nat)
    requires Fit(host, env, past, c) && forall v :: Bounded(env.code(v), w, n)
    ensures forall k :: k in Keys(c.index) ==> InWindow(w, k)
  {
    hide Layout, FetchOf, InWindow, Reach, Keys;
    var v: u32, made: Program :| Layout(host, FetchOf(made), v, c) && MadeOf(env, past, c, made);
    LayoutMapped(host, made, v, c);
    forall k | k in Keys(c.index)
      ensures InWindow(w, k)
    {
      assert Seen(env, past, k, made(k));
      var j :| 0 <= j < |past| && env.code(past[j])(k) == made(k);
      assert Bounded(env.code(past[j]), w, n);
    }
  }

  lemma BoundedRound<W(!new)>(host: Host, env: Env<W>, w: u32, c: Cache, r: Track<W>, n: nat, block: nat)
    requires host.Valid() && Fit(host, env, r.past, c)
    requires (forall v :: Bounded(env.code(v), w, n)) && Roomy(host, n, block)
    ensures RoundFits(host, env, c, r.s)
  {
    hide Fit, FetchOf, UnitFits, Bounded, Keys, KeptOr, Forgotten;
    var p := env.pump(r.s.world, r.s.hart);
    KeptStaysFit(host, env, r.past, c, p.flushes);
    var c1 := KeptOr(c, p.flushes);
    FitInWindow(host, env, Forgotten(r.past, p.flushes), w, c1, n);
    BoundedFits(host, env.code(p.world), w, c1, p.hart.pc, n, block);
  }

  /** Guests without overlong straight-line code, however their code changes, meet the guard in every round of every run. */
  lemma {:induction false} BoundedIsSmooth<W(!new)>(host: Host, env: Env<W>, w: u32, c: Cache, r: Track<W>, scratch: seq<Machine>,
                                                    n: nat, block: nat)
    requires host.Valid() && Behaves(env) && r.s.hart.Valid() && Fit(host, env, r.past, c)
    requires (forall v :: Bounded(env.code(v), w, n)) && Roomy(host, n, block) && forall m :: m in scratch ==> m.Valid()
    ensures Smooth(host, env, c, r.s, scratch)
    decreases |scratch|
  {
    hide Round, RoundFits, Fit, Bounded, Behaves, Roomy, ReferenceRound;
    if scratch != [] {
      BoundedRound(host, env, w, c, r, n, block);
      RoundIsReferenceRound(host, env, c, r, scratch[0]);
      var v := Round(host, env, c, r.s, scratch[0]);
      if v.Running? {
        var k: nat, past: seq<W> :| ReferenceRound(env, r, k, Track(v.s, past)) && Fit(host, env, past, v.c);
        BoundedIsSmooth(host, env, w, v.c, Track(v.s, past), scratch[1..], n, block);
      }
    }
  }
}
