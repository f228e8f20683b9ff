/**
 Runs of guests that fence: when the emulator does what a machine does that fetches every instruction
 from the memory of the moment.
 */
module FencedRun {
  import opened Words
  import Rv32
  import opened Rv32System
  import X86
  import opened CallBlocks
  import opened TranslationCache
  import opened Guest
  import opened Engine
  import opened VmmLoop

  // ----- the machine without a cache -----

  // A boundary, and then nothing if an interrupt was taken, the page fault if nothing is mapped at the pc,
  // and otherwise `k` instructions, each the one visible when it is executed.
  ghost predicate PlainRound<W>(env: Env<W>, r: Track<W>, k: nat, r': Track<W>) {
    r.s.hart.Valid() &&
    var b := Pumped(env, r);
    if env.pump(r.s.world, r.s.hart).Enters? then k == 0 && r' == b
    else if InstrAt(env, b.s) == None then k == 0 && r' == Faulted(env, b)
    else UnitRuns(env, b, k, r')
  }

  ghost predicate PlainRounds<W(!new)>(env: Env<W>, r: Track<W>, ks: seq<nat>, r': Track<W>)
    decreases |ks|
  {
    if ks == [] then r' == r
    else exists r1: Track<W> :: PlainRound(env, r, ks[0], r1) && PlainRounds(env, r1, ks[1..], r')
  }

  ghost predicate PlainDies<W>(env: Env<W>, r: Track<W>) {
    && r.s.hart.Valid() && env.pump(r.s.world, r.s.hart).Returns?
    && exists k: nat :: UnitDies(env, Pumped(env, r).s, k)
  }

  // At the pc something else was visible at one of these times.
  ghost predicate StaleAt<W>(env: Env<W>, past: seq<W>, s: State<W>) {
    exists j :: 0 <= j < |past| && env.code(past[j])(s.hart.pc) != InstrAt(env, s)
  }

  // In this round the guest comes, without a flush, to an instruction that has changed since the last one.
  ghost predicate RoundStale<W(!new)>(env: Env<W>, r: Track<W>) {
    && r.s.hart.Valid() && env.pump(r.s.world, r.s.hart).Returns?
    && var b := Pumped(env, r);
    exists k: nat, s: State<W> :: Steps(env, b.s, k, s) && !FlushedIn(env, b.s, k) && StaleAt(env, Entered(b), s)
  }

  // A run of the machine without a cache comes to such an instruction within `n` rounds.
  ghost predicate GoesStale<W(!new)>(env: Env<W>, r: Track<W>, n: nat) {
    exists ks: seq<nat>, r1: Track<W> :: |ks| < n && PlainRounds(env, r, ks, r1) && RoundStale(env, r1)
  }

  // ----- up to the first stale instruction -----

  lemma {:induction false} FlushedEarlier<W>(env: Env<W>, s: State<W>, j: nat, k: nat)
    requires j <= k && !FlushedIn(env, s, k)
    ensures !FlushedIn(env, s, j)
    decreases j
  {
    hide Next, Flushes;
    if j > 0 && s.hart.Valid() && InstrAt(env, s).Some? {
      FlushedEarlier(env, Next(env, InstrAt(env, s).value, s), j - 1, k - 1);
    }
  }

  // Steps on the code the blocks were made of are plain steps, up to the first instruction that has changed.
  lemma {:induction false} FirstStale<W>(env: Env<W>, made: Program, s: State<W>, k: nat, s': State<W>) returns (j: nat, s1: State<W>)
    requires Steps(Frozen(env, made), s, k, s')
    ensures j <= k && Steps(env, s, j, s1) && s1.hart.Valid()
    ensures forall i: nat :: i <= j ==> FlushedIn(env, s, i) == FlushedIn(Frozen(env, made), s, i)
    ensures if j == k then s1 == s' else made(s1.hart.pc) != InstrAt(env, s1)
    decreases k
  {
    hide Next, Dies, Flushes;
    if k == 0 || made(s.hart.pc) != InstrAt(env, s) {
      j, s1 := 0, s;
    } else {
      var i := InstrAt(env, s).value;
      FrozenNext(env, made, i, s);
      j, s1 := FirstStale(env, made, Next(env, i, s), k - 1, s');
      j := j + 1;
    }
  }

  lemma {:induction false} FaultSplits<W>(env: Env<W>, s: State<W>, k: nat) returns (s': State<W>)
    requires StepsToFault(env, s, k)
    ensures Steps(env, s, k, s') && InstrAt(env, s').Some? && s'.hart.Valid() && Dies(InstrAt(env, s').value, s'.hart)
    decreases k
  {
    hide Next, Dies;
    if k == 0 {
      s' := s;
    } else {
      s' := FaultSplits(env, Next(env, InstrAt(env, s).value, s), k - 1);
    }
  }

  lemma {:induction false} FaultJoins<W>(env: Env<W>, s: State<W>, k: nat, s': State<W>)
    requires Steps(env, s, k, s') && InstrAt(env, s').Some? && s'.hart.Valid() && Dies(InstrAt(env, s').value, s'.hart)
    ensures StepsToFault(env, s, k)
    decreases k
  {
    hide Next, Dies;
    if k > 0 { FaultJoins(env, Next(env, InstrAt(env, s).value, s), k - 1, s'); }
  }

  // What was made once and differs now is stale.
  lemma MadeIsStale<W(!new)>(env: Env<W>, r: Track<W>, made: Program, k: nat, s: State<W>)
    requires r.s.hart.Valid() && env.pump(r.s.world, r.s.hart).Returns?
    requires var b := Pumped(env, r);
      FromPast(env, Entered(b), made) && Steps(env, b.s, k, s) && !FlushedIn(env, b.s, k) && made(s.hart.pc) != InstrAt(env, s)
    ensures RoundStale(env, r)
  {
    hide Steps, FlushedIn, Pumped, Entered, InstrAt;
    var b := Pumped(env, r);
    assert Seen(env, Entered(b), s.hart.pc, made(s.hart.pc));
    assert StaleAt(env, Entered(b), s);
  }

  lemma UnitPlainOrStale<W(!new)>(env: Env<W>, r: Track<W>, made: Program, k: nat, r': Track<W>)
    requires r.s.hart.Valid() && env.pump(r.s.world, r.s.hart).Returns? && FromPast(env, Entered(Pumped(env, r)), made)
    requires UnitRuns(Frozen(env, made), Pumped(env, r), k, r')
    ensures PlainRound(env, r, k, r') || RoundStale(env, r)
  {
    hide Steps, FlushedIn, Pumped, Entered, FromPast, RoundStale, Faulted, Frozen;
    var b := Pumped(env, r);
    var j, s := FirstStale(env, made, b.s, k, r'.s);
    if j < k {
      FlushedEarlier(Frozen(env, made), b.s, j, k - 1);
      MadeIsStale(env, r, made, j, s);
    } else {
      StepsMapped(env, b.s, k, s);
    }
  }

  lemma StepsMapped<W>(env: Env<W>, s: State<W>, k: nat, s': State<W>)
    requires k > 0 && Steps(env, s, k, s')
    ensures InstrAt(env, s).Some?
  {
  }

  lemma RoundPlainOrStale<W(!new)>(env: Env<W>, r: Track<W>, k: nat, r': Track<W>)
    requires ReferenceRound(env, r, k, r')
    ensures PlainRound(env, r, k, r') || RoundStale(env, r)
  {
    hide UnitRuns, FromPast, RoundStale, Pumped, Faulted, InstrAt;
    var b := Pumped(env, r);
    if env.pump(r.s.world, r.s.hart).Returns? && !(InstrAt(env, b.s) == None && k == 0 && r' == Faulted(env, b)) {
      var made: Program :| FromPast(env, Entered(b), made) && UnitRuns(Frozen(env, made), b, k, r');
      UnitPlainOrStale(env, r, made, k, r');
    }
  }

  lemma DeathPlainOrStale<W(!new)>(env: Env<W>, r: Track<W>)
    requires RoundDies(env, r)
    ensures PlainDies(env, r) || RoundStale(env, r)
  {
    hide Steps, StepsToFault, FlushedIn, Pumped, Entered, FromPast, RoundStale, Frozen, Dies;
    var b := Pumped(env, r);
    var made: Program, k: nat :| FromPast(env, Entered(b), made) && UnitDies(Frozen(env, made), b.s, k);
    var s' := FaultSplits(Frozen(env, made), b.s, k);
    var j, s := FirstStale(env, made, b.s, k, s');
    if made(s.hart.pc) != InstrAt(env, s) {
      FlushedEarlier(Frozen(env, made), b.s, j, k);
      MadeIsStale(env, r, made, j, s);
    } else {
      FrozenInstr(env, made, s);
      FaultJoins(env, b.s, k, s);
      assert UnitDies(env, b.s, k);
    }
  }

  lemma FrozenInstr<W>(env: Env<W>, made: Program, s: State<W>)
    ensures InstrAt(Frozen(env, made), s) == made(s.hart.pc)
  {
  }

  lemma StaleNow<W(!new)>(env: Env<W>, r: Track<W>, n: nat)
    requires RoundStale(env, r) && n > 0
    ensures GoesStale(env, r, n)
  {
    hide RoundStale;
    assert PlainRounds(env, r, [], r);
  }

  lemma PlainPrepend<W(!new)>(env: Env<W>, r: Track<W>, k: nat, r1: Track<W>, ks: seq<nat>, r2: Track<W>)
    requires PlainRound(env, r, k, r1) && PlainRounds(env, r1, ks, r2)
    ensures PlainRounds(env, r, [k] + ks, r2)
  {
    hide PlainRound;
    assert ([k] + ks)[1..] == ks;
  }

  lemma StaleLater<W(!new)>(env: Env<W>, r: Track<W>, k: nat, r1: Track<W>, n: nat)
    requires PlainRound(env, r, k, r1) && GoesStale(env, r1, n)
    ensures GoesStale(env, r, n + 1)
  {
    hide PlainRound, PlainRounds, RoundStale;
    var ks: seq<nat>, r2: Track<W> :| |ks| < n && PlainRounds(env, r1, ks, r2) && RoundStale(env, r2);
    PlainPrepend(env, r, k, r1, ks, r2);
    assert |[k] + ks| < n + 1;
  }

  lemma {:induction false} RoundsPlainOrStale<W(!new)>(env: Env<W>, r: Track<W>, ks: seq<nat>, r': Track<W>)
    requires Rounds(env, r, ks, r')
    ensures PlainRounds(env, r, ks, r') || GoesStale(env, r, |ks|)
    decreases |ks|
  {
    hide ReferenceRound, PlainRound, RoundStale, GoesStale;
    if ks != [] {
      var r1: Track<W> :| ReferenceRound(env, r, ks[0], r1) && Rounds(env, r1, ks[1..], r');
      RoundPlainOrStale(env, r, ks[0], r1);
      if RoundStale(env, r) {
        StaleNow(env, r, |ks|);
      } else {
        RoundsPlainOrStale(env, r1, ks[1..], r');
        if GoesStale(env, r1, |ks| - 1) { StaleLater(env, r, ks[0], r1, |ks| - 1); }
      }
    }
  }

  // ----- whole runs -----

  // The emulator is where the machine without a cache is after `n` rounds, or has died where that comes to a
  // division the host cannot take.
  ghost predicate PlainRight<W(!new)>(env: Env<W>, r: Track<W>, n: nat, v: Vmm<W>) {
    match v
    case Running(_, s') => exists ks: seq<nat>, past: seq<W> :: |ks| == n && PlainRounds(env, r, ks, Track(s', past))
    case HostDied => exists ks: seq<nat>, r1: Track<W> :: |ks| < n && PlainRounds(env, r, ks, r1) && PlainDies(env, r1)
    case Lost => false
  }

  lemma RunPlainOrStale<W(!new)>(host: Host, env: Env<W>, r: Track<W>, n: nat, v: Vmm<W>)
    requires RunRight(host, env, r, n, v)
    ensures PlainRight(env, r, n, v) || GoesStale(env, r, n)
  {
    hide Rounds, PlainRounds, RoundDies, PlainDies, RoundStale, Fit;
    match v
    case Running(c', s') =>
      var ks: seq<nat>, past: seq<W> :| |ks| == n && Rounds(env, r, ks, Track(s', past)) && Fit(host, env, past, c');
      RoundsPlainOrStale(env, r, ks, Track(s', past));
    case HostDied =>
      var ks: seq<nat>, r1: Track<W> :| |ks| < n && Rounds(env, r, ks, r1) && RoundDies(env, r1);
      RoundsPlainOrStale(env, r, ks, r1);
      if GoesStale(env, r, |ks|) {
        var ls: seq<nat>, r2: Track<W> :| |ls| < |ks| && PlainRounds(env, r, ls, r2) && RoundStale(env, r2);
        assert |ls| < n;
      } else {
        DeathPlainOrStale(env, r1);
      }
    case Lost =>
  }

  /**
   Unless a run of the machine without a cache comes, without a flush in between, to an instruction that has
   changed since a unit was entered, the emulator does what that machine does: a guest may rewrite its code as it
   likes as long as it fences before it executes what it has written.
   */
  lemma FencedRunIsPlain<W(!new)>(host: Host, env: Env<W>, c: Cache, r: Track<W>, scratch: seq<X86.Machine>)
    requires host.Valid() && Behaves(env) && r.s.hart.Valid() && Fit(host, env, r.past, c)
    requires (forall m :: m in scratch ==> m.Valid()) && Smooth(host, env, c, r.s, scratch)
    ensures PlainRight(env, r, |scratch|, Resumes(host, env, c, r.s, scratch)) || GoesStale(env, r, |scratch|)
  {
    hide Behaves, Fit, Smooth, Resumes, RunRight, PlainRight, GoesStale;
    RunIsReferenceRun(host, env, c, r, scratch);
    RunPlainOrStale(host, env, r, |scratch|, Resumes(host, env, c, r.s, scratch));
  }

  // ----- guests that never go stale -----

  ghost predicate SameCode<W>(env: Env<W>, u: W, v: W) {
    forall pc: u32 :: env.code(u)(pc) == env.code(v)(pc)
  }

  // Whatever changes the code that is visible empties the cache.
  ghost predicate FlushesOnChange<W(!new)>(env: Env<W>) {
    && (forall f, args, w, h: X86.Hart :: !env.call(f, args, w, h).flushes ==> SameCode(env, w, env.call(f, args, w, h).world))
    && (forall w, h: X86.Hart :: !env.pump(w, h).flushes ==> SameCode(env, w, env.pump(w, h).world))
    && (forall va, w, h: X86.Hart :: !env.fault(va, w, h).flushes ==> SameCode(env, w, env.fault(va, w, h).world))
  }

  // What is remembered is what is visible.
  ghost predicate UpToDate<W>(env: Env<W>, r: Track<W>) {
    forall j :: 0 <= j < |r.past| ==> SameCode(env, r.past[j], r.s.world)
  }

  lemma {:induction false} StepsSame<W(!new)>(env: Env<W>, s: State<W>, k: nat, s': State<W>)
    requires FlushesOnChange(env) && Steps(env, s, k, s') && !FlushedIn(env, s, k)
    ensures SameCode(env, s.world, s'.world)
    decreases k
  {
    hide Dies, Asks, Completed, Rv32.Execute;
    if k > 0 {
      StepsSame(env, Next(env, InstrAt(env, s).value, s), k - 1, s');
    }
  }

  lemma BoundaryUpToDate<W(!new)>(env: Env<W>, r: Track<W>)
    requires FlushesOnChange(env) && UpToDate(env, r)
    ensures var b := Pumped(env, r); UpToDate(env, b) && UpToDate(env, Track(b.s, Entered(b))) && UpToDate(env, Faulted(env, b))
  {
  }

  lemma PlainUpToDate<W(!new)>(env: Env<W>, r: Track<W>, k: nat, r': Track<W>)
    requires FlushesOnChange(env) && UpToDate(env, r) && PlainRound(env, r, k, r')
    ensures UpToDate(env, r')
  {
    hide FlushesOnChange, Steps, FlushedIn, Faulted, Pumped;
    BoundaryUpToDate(env, r);
    var b := Pumped(env, r);
    if env.pump(r.s.world, r.s.hart).Returns? && InstrAt(env, b.s).Some? && !FlushedIn(env, b.s, k) {
      StepsSame(env, b.s, k, r'.s);
    }
  }

  lemma NothingStale<W>(env: Env<W>, b: State<W>, past: seq<W>, s: State<W>)
    requires UpToDate(env, Track(b, past)) && SameCode(env, b.world, s.world)
    ensures !StaleAt(env, past, s)
  {
  }

  lemma UpToDateRound<W(!new)>(env: Env<W>, r: Track<W>)
    requires FlushesOnChange(env) && UpToDate(env, r)
    ensures !RoundStale(env, r)
  {
    hide FlushesOnChange, Steps, FlushedIn, Faulted, Pumped, UpToDate, StaleAt, Entered;
    BoundaryUpToDate(env, r);
    var b := Pumped(env, r);
    forall k: nat, s: State<W> | Steps(env, b.s, k, s) && !FlushedIn(env, b.s, k)
      ensures !StaleAt(env, Entered(b), s)
    {
      StepsSame(env, b.s, k, s);
      NothingStale(env, b.s, Entered(b), s);
    }
  }

  /** Where every change of the visible code empties the cache, no run goes stale. */
  lemma {:induction false} NeverStale<W(!new)>(env: Env<W>, r: Track<W>, n: nat)
    requires FlushesOnChange(env) && UpToDate(env, r)
    ensures !GoesStale(env, r, n)
  {
    hide FlushesOnChange, UpToDate, RoundStale, PlainRounds;
    if GoesStale(env, r, n) {
      var ks: seq<nat>, r1: Track<W> :| |ks| < n && PlainRounds(env, r, ks, r1) && RoundStale(env, r1);
      PlainRunUpToDate(env, r, ks, r1);
      UpToDateRound(env, r1);
    }
  }

  lemma {:induction false} PlainRunUpToDate<W(!new)>(env: Env<W>, r: Track<W>, ks: seq<nat>, r': Track<W>)
    requires FlushesOnChange(env) && UpToDate(env, r) && PlainRounds(env, r, ks, r')
    ensures UpToDate(env, r')
    decreases |ks|
  {
    hide FlushesOnChange, UpToDate, PlainRound;
    if ks != [] {
      var r1: Track<W> :| PlainRound(env, r, ks[0], r1) && PlainRounds(env, r1, ks[1..], r');
      PlainUpToDate(env, r, ks[0], r1);
      PlainRunUpToDate(env, r1, ks[1..], r');
    }
  }
}
