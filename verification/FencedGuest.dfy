/** A guest that rewrites its own code and fences before it executes what it has written. */
module FencedGuest {
  import opened Words
  import Rv32
  import opened Rv32System
  import X86
  import opened PcIndex
  import opened TranslationCache
  import opened CallBlocks
  import opened Guest
  import opened Engine
  import opened VmmLoop
  import opened FencedRun

  const START: u32 := 0
  const FENCE: u32 := 4
  const PATCHED: u32 := 8
  const END: u32 := 12

  // The world tells whether the store has been executed: it replaces the instruction behind the fence.
  function CodeIn(patched: bool): Program {
    (pc: u32) =>
      if pc == START then Some(Calls(MemoryStore(SB, 1, 2, 0)))
      else if pc == FENCE then Some(Calls(FenceI))
      else if pc == PATCHED then Some(Plain(Rv32.Lui(1, if patched then 2 else 1)))
      else if pc == END then Some(Calls(Ecall))
      else None
  }

  function Cleared(): Registers {
    Rv32.Hart(seq(32, _ => 0), START)
  }

  function Scratch(): X86.Machine {
    X86.Machine(0, 0, 0, 0, 0, 0, 0, X86.Flags(false, false, false, false), 0, Cleared())
  }

  function Kept(h: X86.Hart): Registers {
    if |h.x| == 32 then h else Cleared()
  }

  function Restarted(h: X86.Hart): Registers {
    Rv32.Hart(Kept(h).x, START)
  }

  // The store goes through, the fence empties the cache, and everything else traps to the start.
  function CallVmm(f: X86.Callback, args: seq<u32>, w: bool, h: X86.Hart): Answer<bool> {
    if f == X86.MmuWrite8 then Returns(true, Kept(h), Scratch(), false)
    else if f == X86.FenceICallback then Returns(w, Kept(h), Scratch(), true)
    else Enters(w, Restarted(h), false)
  }

  function Pump(w: bool, h: X86.Hart): Answer<bool> {
    Returns(w, Kept(h), Scratch(), false)
  }

  function Fault(va: u32, w: bool, h: X86.Hart): Answer<bool> {
    Enters(w, Restarted(h), false)
  }

  const ENV: Env<bool> := Env(CodeIn, CallVmm, Pump, Fault)

  // Between the store and the fence an older boundary may have seen other code; everywhere else none has.
  predicate Orderly(past: seq<bool>, s: State<bool>) {
    && (s.hart.pc == START || s.hart.pc == FENCE || s.hart.pc == PATCHED || s.hart.pc == END)
    && if s.hart.pc == FENCE then s.world else forall j :: 0 <= j < |past| ==> past[j] == s.world
  }

  lemma StepOrderly(past: seq<bool>, s: State<bool>)
    requires s.hart.Valid() && Orderly(past, s)
    ensures InstrAt(ENV, s).Some?
    ensures var i := InstrAt(ENV, s).value; Orderly(if Flushes(ENV, i, s) then [] else past, Next(ENV, i, s))
  {
  }

  lemma {:induction false} StepsOrderly(past: seq<bool>, s: State<bool>, k: nat, s': State<bool>)
    requires Orderly(past, s) && Steps(ENV, s, k, s') && (k > 0 ==> !FlushedIn(ENV, s, k - 1))
    ensures Orderly(if FlushedIn(ENV, s, k) then [] else past, s')
    decreases k
  {
    hide Orderly, Next, Flushes, Dies, InstrAt;
    if k > 0 {
      StepOrderly(past, s);
      var i := InstrAt(ENV, s).value;
      var s1 := Next(ENV, i, s);
      if k == 1 {
        assert Steps(ENV, s1, 0, s');
      } else {
        StepsOrderly(past, s1, k - 1, s');
      }
    }
  }

  lemma BoundaryOrderly(r: Track<bool>)
    requires r.s.hart.Valid() && Orderly(r.past, r.s)
    ensures ENV.pump(r.s.world, r.s.hart).Returns?
    ensures var b := Pumped(ENV, r); b == r && Orderly(Entered(b), b.s) && InstrAt(ENV, b.s).Some?
  {
  }

  lemma RoundOrderly(r: Track<bool>, k: nat, r': Track<bool>)
    requires Orderly(r.past, r.s) && PlainRound(ENV, r, k, r')
    ensures Orderly(r'.past, r'.s)
  {
    hide Orderly, Steps, FlushedIn, Pumped, Entered, InstrAt, Faulted;
    BoundaryOrderly(r);
    StepsOrderly(Entered(r), r.s, k, r'.s);
  }

  lemma {:induction false} RoundsOrderly(r: Track<bool>, ks: seq<nat>, r': Track<bool>)
    requires Orderly(r.past, r.s) && PlainRounds(ENV, r, ks, r')
    ensures Orderly(r'.past, r'.s)
    decreases |ks|
  {
    hide Orderly, PlainRound;
    if ks != [] {
      var r1: Track<bool> :| PlainRound(ENV, r, ks[0], r1) && PlainRounds(ENV, r1, ks[1..], r');
      RoundOrderly(r, ks[0], r1);
      RoundsOrderly(r1, ks[1..], r');
    }
  }

  lemma NothingIsStale(past: seq<bool>, s: State<bool>)
    requires Orderly(past, s)
    ensures !StaleAt(ENV, past, s)
  {
  }

  lemma RoundNotStale(r: Track<bool>)
    requires Orderly(r.past, r.s)
    ensures !RoundStale(ENV, r)
  {
    hide Orderly, Steps, FlushedIn, Pumped, Entered, StaleAt;
    if r.s.hart.Valid() {
      BoundaryOrderly(r);
      forall k: nat, s: State<bool> | Steps(ENV, r.s, k, s) && !FlushedIn(ENV, r.s, k)
        ensures !StaleAt(ENV, Entered(r), s)
      {
        if k > 0 { FlushedEarlier(ENV, r.s, k - 1, k); }
        StepsOrderly(Entered(r), r.s, k, s);
        NothingIsStale(Entered(r), s);
      }
    }
  }

  lemma NotStale(r: Track<bool>, n: nat)
    requires Orderly(r.past, r.s)
    ensures !GoesStale(ENV, r, n)
  {
    hide Orderly, RoundStale, PlainRounds;
    forall ks: seq<nat>, r1: Track<bool> | |ks| < n && PlainRounds(ENV, r, ks, r1)
      ensures !RoundStale(ENV, r1)
    {
      RoundsOrderly(r, ks, r1);
      RoundNotStale(r1);
    }
  }

  lemma Behaved()
    ensures Behaves(ENV)
  {
  }

  lemma Rewrites()
    ensures !FlushesOnChange(ENV)
  {
    var h := Cleared();
    var a := ENV.call(X86.MmuWrite8, [], false, h);
    assert !a.flushes && ENV.code(false)(PATCHED) != ENV.code(a.world)(PATCHED);
  }

  lemma CodeBounded(w: bool)
    ensures Bounded(ENV.code(w), 0, 2)
  {
    var g := ENV.code(w);
    forall pc: u32 | g(pc).Some?
      ensures InWindow(0, pc) && exists j: nat :: j < 2 && Reach(g, pc, j)
    {
      assert Reach(g, FENCE, 0) && Reach(g, END, 0);
      assert Wrap(START + 4) == FENCE && Wrap(PATCHED + 4) == END;
      assert Reach(g, START, 1) && Reach(g, PATCHED, 1);
    }
  }

  /**
   Although its store changes an instruction that may be translated, and flushes nothing, the emulator runs this
   guest as a machine without a cache does, for any number of rounds.
   */
  lemma FencedRewritingIsPlain(host: Host, block: nat, scratch: seq<X86.Machine>)
    requires host.Valid() && Roomy(host, 2, block) && forall m :: m in scratch ==> m.Valid()
    ensures !FlushesOnChange(ENV)
    ensures var s := State(false, Cleared());
      PlainRight(ENV, Track(s, []), |scratch|, Resumes(host, ENV, Cache([], map[], 0), s, scratch))
  {
    hide Behaves, Fit, Smooth, Resumes, PlainRight, GoesStale, Bounded, Roomy, FlushesOnChange;
    var c, r := Cache([], map[], 0), Track(State(false, Cleared()), []);
    Behaved();
    Rewrites();
    EmptyFits(host, ENV, []);
    forall w { CodeBounded(w); }
    BoundedIsSmooth(host, ENV, 0, c, r, scratch, 2, block);
    FencedRunIsPlain(host, ENV, c, r, scratch);
    NotStale(r, |scratch|);
  }
}
