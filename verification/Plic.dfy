/**
 The platform-level interrupt controller. A 32-bit register of one bit per source is
 the set of the positions of its ones.
 */
module Plic {
  import opened Words

  const NR_SOURCES: nat := 32
  const MAX_CONTEXTS: nat := 128

  type Source = s: nat | s < NR_SOURCES

  // ----- registers of bits -----

  predicate Bit(w: u32, i: Source) {
    w / Pow2(i) % 2 == 1
  }

  function MaskOf(w: u32): set<Source> {
    set i: Source | 0 <= i < NR_SOURCES && Bit(w, i)
  }

  // The value of the bits below `n`.
  function WordBelow(m: set<Source>, n: nat): (w: nat)
    requires n <= NR_SOURCES
    ensures w < Pow2(n)
  {
    if n == 0 then 0 else WordBelow(m, n - 1) + if n - 1 in m then Pow2(n - 1) else 0
  }

  function WordOf(m: set<Source>): u32 {
    Pow2Literals();
    WordBelow(m, NR_SOURCES)
  }

  lemma {:induction false} WordBits(m: set<Source>, n: nat, i: Source)
    requires i < n <= NR_SOURCES
    ensures WordBelow(m, n) / Pow2(i) % 2 == 1 <==> i in m
  {
    var rest := WordBelow(m, n - 1);
    if i == n - 1 {
      DivPow(rest, if i in m then 1 else 0, i);
    } else {
      WordBits(m, n - 1, i);
      if n - 1 in m {
        PowSplit(i, n - 1);
        DivAdd(rest, Pow2(n - 2 - i), i);
      }
    }
  }

  lemma DivPow(rest: nat, b: nat, i: nat)
    requires rest < Pow2(i) && b <= 1
    ensures (rest + b * Pow2(i)) / Pow2(i) == b
  {
    ModUnique(rest + b * Pow2(i), Pow2(i), b, rest);
  }

  lemma {:induction false} PowSplit(i: nat, k: nat)
    requires i < k
    ensures Pow2(k) == 2 * Pow2(k - 1 - i) * Pow2(i)
  {
    if i > 0 {
      PowSplit(i - 1, k - 1);
    }
  }

  // Adding an even multiple of a power leaves that power's bit alone.
  lemma DivAdd(rest: nat, half: nat, i: nat)
    ensures (rest + 2 * half * Pow2(i)) / Pow2(i) % 2 == rest / Pow2(i) % 2
  {
    var p := Pow2(i);
    var q, r := rest / p, rest % p;
    assert rest + 2 * half * p == (q + 2 * half) * p + r;
    ModUnique(rest + 2 * half * p, p, q + 2 * half, r);
  }

  /** A register read back shows exactly the bits it holds. */
  lemma WordRoundTrip(m: set<Source>)
    ensures MaskOf(WordOf(m)) == m
  {
    forall i: Source
      ensures i in MaskOf(WordOf(m)) <==> i in m
    {
      WordBits(m, NR_SOURCES, i);
    }
  }

  lemma {:induction false} WordBelowMask(w: u32, n: nat)
    requires n <= NR_SOURCES
    ensures WordBelow(MaskOf(w), n) == w % Pow2(n)
  {
    if n > 0 {
      WordBelowMask(w, n - 1);
      OneBitMore(w, Pow2(n - 1));
    }
  }

  lemma OneBitMore(w: nat, p: nat)
    requires p > 0
    ensures w % (2 * p) == w % p + if w / p % 2 == 1 then p else 0
  {
    var q, b := w / p / 2, w / p % 2;
    assert w == (2 * q + b) * p + w % p;
    assert (2 * q + b) * p == q * (2 * p) + b * p;
    ModUnique(w, 2 * p, q, b * p + w % p);
  }

  /** And what is written is what it holds. */
  lemma MaskRoundTrip(w: u32)
    ensures WordOf(MaskOf(w)) == w && forall i: Source :: i in MaskOf(w) <==> w / Pow2(i) % 2 == 1
  {
    Pow2Literals();
    WordBelowMask(w, NR_SOURCES);
  }

  // ----- state -----

  datatype State = State(
    priority: seq<u32>, asserted: set<Source>, pending: set<Source>, claimed: set<Source>,
    enable: seq<set<Source>>, threshold: seq<u32>, nrContexts: nat)
  {
    predicate Valid() {
      |priority| == NR_SOURCES && |enable| == MAX_CONTEXTS && |threshold| == MAX_CONTEXTS && nrContexts <= MAX_CONTEXTS
    }
  }

  // Each hart has a machine context followed by a supervisor one.
  function MachineContext(hartId: nat): nat { 2 * hartId }
  function SupervisorContext(hartId: nat): nat { 2 * hartId + 1 }

  // What the context may be handed.
  predicate Candidate(p: State, ctx: nat, s: nat)
    requires p.Valid() && ctx < MAX_CONTEXTS
  {
    0 < s < NR_SOURCES && s in p.pending && s !in p.claimed && s in p.enable[ctx] && p.priority[s] > p.threshold[ctx]
  }

  ghost predicate HasCandidate(p: State, ctx: nat)
    requires p.Valid() && ctx < MAX_CONTEXTS
  {
    exists s: Source :: Candidate(p, ctx, s)
  }

  // The scan from source `s` on, with the best so far.
  function BestFrom(p: State, ctx: nat, s: nat, best: nat, bestPriority: u32): (r: nat)
    requires p.Valid() && ctx < MAX_CONTEXTS && 0 < s <= NR_SOURCES && best < NR_SOURCES
    ensures r < NR_SOURCES
    decreases NR_SOURCES - s
  {
    if s == NR_SOURCES then best
    else if Candidate(p, ctx, s) && p.priority[s] > bestPriority then BestFrom(p, ctx, s + 1, s, p.priority[s])
    else BestFrom(p, ctx, s + 1, best, bestPriority)
  }

  function BestSource(p: State, ctx: nat): Source
    requires p.Valid() && ctx < MAX_CONTEXTS
  {
    BestFrom(p, ctx, 1, 0, 0)
  }

  // Before in the order of service: higher priority, then lower number.
  predicate Before(p: State, a: Source, b: Source)
    requires p.Valid()
  {
    p.priority[a] > p.priority[b] || (p.priority[a] == p.priority[b] && a < b)
  }

  // `best` is served first among the candidates below `s`, and is 0 when there are none.
  ghost predicate BestBelow(p: State, ctx: nat, s: nat, best: Source)
    requires p.Valid() && ctx < MAX_CONTEXTS && s <= NR_SOURCES
  {
    && (best == 0 || (Candidate(p, ctx, best) && best < s))
    && forall t: Source :: t < s && Candidate(p, ctx, t) ==> best != 0 && (t == best || Before(p, best, t))
  }

  lemma {:induction false} BestFromIsBest(p: State, ctx: nat, s: nat, best: Source, bestPriority: u32)
    requires p.Valid() && ctx < MAX_CONTEXTS && 0 < s <= NR_SOURCES
    requires BestBelow(p, ctx, s, best) && bestPriority == (if best == 0 then 0 else p.priority[best])
    ensures BestBelow(p, ctx, NR_SOURCES, BestFrom(p, ctx, s, best, bestPriority))
    decreases NR_SOURCES - s
  {
    if s < NR_SOURCES {
      if Candidate(p, ctx, s) && p.priority[s] > bestPriority {
        BestFromIsBest(p, ctx, s + 1, s, p.priority[s]);
      } else {
        BestFromIsBest(p, ctx, s + 1, best, bestPriority);
      }
    }
  }

  /** The scan finds the candidate to be served first, and 0 exactly when there is none. */
  lemma BestSourceIsBest(p: State, ctx: nat)
    requires p.Valid() && ctx < MAX_CONTEXTS
    ensures var best := BestSource(p, ctx);
      && (best == 0 <==> forall t: Source :: !Candidate(p, ctx, t))
      && (best != 0 ==> Candidate(p, ctx, best) && forall t: Source :: Candidate(p, ctx, t) ==> t == best || Before(p, best, t))
  {
    BestFromIsBest(p, ctx, 1, 0, 0);
  }

  // ----- operations -----

  function SetPending(p: State, s: Source, on: bool): State {
    if on then p.(asserted := p.asserted + {s}, pending := p.pending + {s})
    else p.(asserted := p.asserted - {s}, pending := p.pending - {s})
  }

  function Claim(p: State, ctx: nat): (State, Source)
    requires p.Valid() && ctx < MAX_CONTEXTS
  {
    var s := BestSource(p, ctx);
    (if s != 0 then p.(claimed := p.claimed + {s}) else p, s)
  }

  function Complete(p: State, s: u32): State {
    if s == 0 || s >= NR_SOURCES then p
    else p.(claimed := p.claimed - {s}, pending := if s in p.asserted then p.pending + {s} else p.pending - {s})
  }

  // ----- the register map -----

  const PENDING_BASE: nat := 0x1000
  const ENABLE_BASE: nat := 0x2000
  const ENABLE_STRIDE: nat := 0x80
  const CONTEXT_BASE: nat := 0x20_0000
  const CONTEXT_STRIDE: nat := 0x1000
  const THRESHOLD: nat := 0
  const CLAIM: nat := 4

  datatype Register =
    | Priority(source: nat)
    | Pending(word: nat)
    | Enable(ctx: nat, word: nat)
    | Context(ctx: nat, reg: nat)
    | Hole

  function Decode(offset: u32): Register {
    if offset < 4 * NR_SOURCES then Priority(offset / 4)
    else if PENDING_BASE <= offset < ENABLE_BASE then Pending(offset - PENDING_BASE)
    else if ENABLE_BASE <= offset < CONTEXT_BASE then
      Enable((offset - ENABLE_BASE) / ENABLE_STRIDE, (offset - ENABLE_BASE) % ENABLE_STRIDE / 4)
    else if offset >= CONTEXT_BASE then
      Context((offset - CONTEXT_BASE) / CONTEXT_STRIDE, (offset - CONTEXT_BASE) % CONTEXT_STRIDE)
    else Hole
  }

  // A load; reading the claim register claims.
  function Load(p: State, offset: u32): (State, u32)
    requires p.Valid()
  {
    match Decode(offset)
    case Priority(s) => (p, if s < NR_SOURCES then p.priority[s] else 0)
    case Pending(word) => (p, if word == 0 then WordOf(p.pending) else 0)
    case Enable(ctx, word) => (p, if ctx < p.nrContexts && word == 0 then WordOf(p.enable[ctx]) else 0)
    case Context(ctx, reg) =>
      if ctx >= p.nrContexts then (p, 0)
      else if reg == THRESHOLD then (p, p.threshold[ctx])
      else if reg == CLAIM then (var (p', s) := Claim(p, ctx); (p', s as u32))
      else (p, 0)
    case Hole => (p, 0)
  }

  // A store; source 0 has no priority register, and storing to the claim register completes.
  function Store(p: State, offset: u32, value: u32): (r: State)
    requires p.Valid()
    ensures r.Valid()
  {
    match Decode(offset)
    case Priority(s) => if 0 < s < NR_SOURCES then p.(priority := p.priority[s := value]) else p
    case Pending(_) => p
    case Enable(ctx, word) => if ctx < p.nrContexts && word == 0 then p.(enable := p.enable[ctx := MaskOf(value)]) else p
    case Context(ctx, reg) =>
      if ctx >= p.nrContexts then p
      else if reg == THRESHOLD then p.(threshold := p.threshold[ctx := value])
      else if reg == CLAIM then Complete(p, value)
      else p
    case Hole => p
  }

  // ----- the device -----

  class PlicDevice {
    const priority: array<u32>
    var asserted: set<Source>
    var pending: set<Source>
    var claimed: set<Source>
    const enable: array<set<Source>>
    const threshold: array<u32>
    const nrContexts: nat

    ghost predicate Valid()
      reads this
    {
      priority.Length == NR_SOURCES && enable.Length == MAX_CONTEXTS && threshold.Length == MAX_CONTEXTS
      && nrContexts <= MAX_CONTEXTS && priority != threshold
    }

    ghost function View(): (p: State)
      requires Valid()
      reads this, priority, enable, threshold
      ensures p.Valid()
    {
      State(priority[..], asserted, pending, claimed, enable[..], threshold[..], nrContexts)
    }

    method SetLine(source: Source, on: bool)
      requires Valid() && source > 0
      modifies this
      ensures View() == SetPending(old(View()), source, on)
    {
      if on {
        asserted := asserted + {source};
        pending := pending + {source};
      } else {
        asserted := asserted - {source};
        pending := pending - {source};
      }
    }

    method FindBestSource(ctx: nat) returns (best: Source)
      requires Valid() && ctx < MAX_CONTEXTS
      ensures best == BestSource(View(), ctx)
    {
      hide BestSource;
      best := 0;
      var bestPriority: u32 := 0;
      var candidates := pending - claimed;
      var source := 1;
      assert BestSource(View(), ctx) == BestFrom(View(), ctx, 1, 0, 0) by { BestSourceStarts(View(), ctx); }
      while source < NR_SOURCES
        invariant 0 < source <= NR_SOURCES
        invariant BestFrom(View(), ctx, source, best, bestPriority) == BestSource(View(), ctx)
      {
        if source in candidates && source in enable[ctx] && priority[source] > threshold[ctx] && priority[source] > bestPriority {
          bestPriority := priority[source];
          best := source;
        }
        source := source + 1;
      }
    }

    // The external interrupt lines of a hart: is there anything for its two contexts?
    method RefreshPending(hartId: nat) returns (mei: bool, sei: bool)
      requires Valid() && 2 * hartId + 1 < MAX_CONTEXTS
      ensures mei <==> HasCandidate(View(), 2 * hartId)
      ensures sei <==> HasCandidate(View(), 2 * hartId + 1)
    {
      hide BestSource, Candidate;
      BestSourceIsBest(View(), MachineContext(hartId));
      BestSourceIsBest(View(), SupervisorContext(hartId));
      var m := FindBestSource(MachineContext(hartId));
      var s := FindBestSource(SupervisorContext(hartId));
      mei, sei := m != 0, s != 0;
    }

    method ClaimSource(ctx: nat) returns (source: Source)
      requires Valid() && ctx < MAX_CONTEXTS
      modifies this
      ensures (View(), source) == Claim(old(View()), ctx)
    {
      hide BestSource;
      source := FindBestSource(ctx);
      if source != 0 {
        claimed := claimed + {source};
      }
    }

    method CompleteSource(source: u32)
      requires Valid()
      modifies this
      ensures View() == Complete(old(View()), source)
    {
      if source == 0 || source >= NR_SOURCES {
        return;
      }
      claimed := claimed - {source};
      if source in asserted {
        pending := pending + {source};
      } else {
        pending := pending - {source};
      }
    }

    method MmioRead(offset: u32) returns (value: u32)
      requires Valid()
      modifies this
      ensures (View(), value) == Load(old(View()), offset)
    {
      hide Claim, WordOf;
      value := 0;
      if offset < 4 * NR_SOURCES {
        value := priority[offset / 4];
      } else if PENDING_BASE <= offset < ENABLE_BASE {
        value := if offset == PENDING_BASE then WordOf(pending) else 0;
      } else if ENABLE_BASE <= offset < CONTEXT_BASE {
        var ctx := (offset - ENABLE_BASE) / ENABLE_STRIDE;
        var word := (offset - ENABLE_BASE) % ENABLE_STRIDE / 4;
        value := if ctx < nrContexts && word == 0 then WordOf(enable[ctx]) else 0;
      } else if offset >= CONTEXT_BASE {
        var ctx := (offset - CONTEXT_BASE) / CONTEXT_STRIDE;
        var reg := (offset - CONTEXT_BASE) % CONTEXT_STRIDE;
        if ctx < nrContexts {
          if reg == THRESHOLD {
            value := threshold[ctx];
          } else if reg == CLAIM {
            var source := ClaimSource(ctx);
            value := source as u32;
          }
        }
      }
    }

    method MmioWrite(offset: u32, value: u32)
      requires Valid()
      modifies this, priority, enable, threshold
      ensures View() == Store(old(View()), offset, value)
    {
      hide Complete, MaskOf;
      if offset < 4 * NR_SOURCES {
        if offset / 4 != 0 {
          priority[offset / 4] := value;
        }
      } else if PENDING_BASE <= offset < ENABLE_BASE {
      } else if ENABLE_BASE <= offset < CONTEXT_BASE {
        var ctx := (offset - ENABLE_BASE) / ENABLE_STRIDE;
        var word := (offset - ENABLE_BASE) % ENABLE_STRIDE / 4;
        if ctx < nrContexts && word == 0 {
          enable[ctx] := MaskOf(value);
        }
      } else if offset >= CONTEXT_BASE {
        var ctx := (offset - CONTEXT_BASE) / CONTEXT_STRIDE;
        var reg := (offset - CONTEXT_BASE) % CONTEXT_STRIDE;
        if ctx < nrContexts {
          if reg == THRESHOLD {
            threshold[ctx] := value;
          } else if reg == CLAIM {
            CompleteSource(value);
          }
        }
      }
    }
  }

  lemma BestSourceStarts(p: State, ctx: nat)
    requires p.Valid() && ctx < MAX_CONTEXTS
    ensures BestSource(p, ctx) == BestFrom(p, ctx, 1, 0, 0)
  {
  }
}
