/** Draining a context, and exclusive service over whole runs. */
module PlicProof {
  import opened Words
  import opened Plic

  // ----- draining -----

  ghost function Candidates(p: State, ctx: nat): set<Source>
    requires p.Valid() && ctx < MAX_CONTEXTS
  {
    set s: Source | Candidate(p, ctx, s)
  }

  // The answers to `n` claims in a row.
  function Claims(p: State, ctx: nat, n: nat): (r: seq<Source>)
    requires p.Valid() && ctx < MAX_CONTEXTS
    ensures |r| == n
    decreases n
  {
    if n == 0 then []
    else
      var (p', s) := Claim(p, ctx);
      [s] + Claims(p', ctx, n - 1)
  }

  // The candidates in the order of service.
  ghost predicate Enumerates(p: State, r: seq<Source>, todo: set<Source>)
    requires p.Valid()
  {
    && (forall i :: 0 <= i < |r| ==> r[i] in todo)
    && (forall s :: s in todo ==> s in r)
    && (forall i, j :: 0 <= i < j < |r| ==> Before(p, r[i], r[j]))
  }

  // A claim removes exactly the best candidate and touches nothing else that matters here.
  lemma ClaimRemovesBest(p: State, ctx: nat)
    requires p.Valid() && ctx < MAX_CONTEXTS
    ensures var (p', s) := Claim(p, ctx);
      && p' == p.(claimed := p'.claimed) && p'.Valid()
      && (s == 0 <==> Candidates(p, ctx) == {})
      && (s != 0 ==> s in Candidates(p, ctx) && forall t :: t in Candidates(p, ctx) ==> t == s || Before(p, s, t))
      && Candidates(p', ctx) == Candidates(p, ctx) - {s}
  {
    hide BestSource;
    BestSourceIsBest(p, ctx);
    var s := BestSource(p, ctx);
    if s == 0 {
      assert Candidates(p, ctx) == {};
    }
  }

  // The sources 1 to `n - 1`.
  ghost function FirstSources(n: nat): (r: set<Source>)
    requires 1 <= n <= NR_SOURCES
    ensures |r| == n - 1 && forall s: Source :: s in r <==> 0 < s < n
  {
    if n == 1 then {} else FirstSources(n - 1) + {n - 1}
  }

  lemma CandidatesBelow32(p: State, ctx: nat)
    requires p.Valid() && ctx < MAX_CONTEXTS
    ensures |Candidates(p, ctx)| <= 31
  {
    SubsetSize(Candidates(p, ctx), FirstSources(NR_SOURCES));
  }

  lemma {:induction false} SubsetSize(a: set<Source>, b: set<Source>)
    requires a <= b
    ensures |a| <= |b|
  {
    if a != {} {
      var x :| x in a;
      SubsetSize(a - {x}, b - {x});
    }
  }

  lemma {:induction false} ClaimsEnumerate(p: State, ctx: nat, n: nat)
    requires p.Valid() && ctx < MAX_CONTEXTS && n >= |Candidates(p, ctx)|
    ensures var k := |Candidates(p, ctx)|;
      && Enumerates(p, Claims(p, ctx, n)[..k], Candidates(p, ctx))
      && forall i :: k <= i < n ==> Claims(p, ctx, n)[i] == 0
    decreases n
  {
    hide Candidates, Claim, Enumerates, Before;
    ClaimRemovesBest(p, ctx);
    var (p', s) := Claim(p, ctx);
    var k := |Candidates(p, ctx)|;
    if n == 0 || s == 0 {
      NothingToEnumerate(p);
      if n > 0 {
        assert Candidates(p', ctx) == {};
        ClaimsEnumerate(p', ctx, n - 1);
      }
    } else {
      assert |Candidates(p', ctx)| == k - 1;
      ClaimsEnumerate(p', ctx, n - 1);
      FirstThenRest(p, p', s, Claims(p', ctx, n - 1)[..k - 1], Candidates(p, ctx));
      assert Claims(p, ctx, n)[..k] == [s] + Claims(p', ctx, n - 1)[..k - 1];
    }
  }

  lemma NothingToEnumerate(p: State)
    requires p.Valid()
    ensures Enumerates(p, [], {})
  {
  }

  lemma FirstThenRest(p: State, p': State, s: Source, r: seq<Source>, todo: set<Source>)
    requires p.Valid() && p'.Valid() && p'.priority == p.priority
    requires s in todo && (forall t :: t in todo ==> t == s || Before(p, s, t)) && Enumerates(p', r, todo - {s})
    ensures Enumerates(p, [s] + r, todo)
  {
    hide Before;
    var all := [s] + r;
    forall i, j | 0 <= i < j < |all|
      ensures Before(p, all[i], all[j])
    {
      SamePriorities(p, p', all[i], all[j]);
      if i == 0 {
        assert all[j] == r[j - 1];
      } else {
        assert Before(p', r[i - 1], r[j - 1]);
      }
    }
    forall t | t in todo
      ensures t in all
    {
      if t != s {
        assert t in todo - {s} && t in r;
        var i :| 0 <= i < |r| && r[i] == t;
        assert all[i + 1] == t;
      }
    }
  }

  lemma SamePriorities(p: State, p': State, a: Source, b: Source)
    requires p.Valid() && p'.Valid() && p'.priority == p.priority
    ensures Before(p, a, b) <==> Before(p', a, b)
  {
  }

  /**
   With the devices quiet, claiming again and again on one context returns each source that is pending,
   enabled, unclaimed and above the threshold exactly once, by descending priority and then ascending
   number, within 31 claims, and 0 from then on.
   */
  lemma DrainIsSortedEnumeration(p: State, ctx: nat, n: nat)
    requires p.Valid() && ctx < MAX_CONTEXTS && n >= 31
    ensures var k := |Candidates(p, ctx)|;
      && k <= 31
      && Enumerates(p, Claims(p, ctx, n)[..k], Candidates(p, ctx))
      && forall i :: k <= i < n ==> Claims(p, ctx, n)[i] == 0
  {
    CandidatesBelow32(p, ctx);
    ClaimsEnumerate(p, ctx, n);
  }

  // ----- runs -----

  // A device drives its line, or a hart loads from or stores to a register.
  datatype Event = Line(source: Source, on: bool) | Read(offset: u32) | Write(offset: u32, value: u32)

  // The source a load hands out, or 0.
  function HandedOut(p: State, e: Event): Source
    requires p.Valid()
  {
    match e
    case Read(offset) =>
      (match Decode(offset)
       case Context(ctx, reg) => if ctx < p.nrContexts && reg == CLAIM then BestSource(p, ctx) else 0
       case _ => 0)
    case _ => 0
  }

  predicate Completes(p: State, e: Event, s: Source) {
    match e
    case Write(offset, value) =>
      (match Decode(offset)
       case Context(ctx, reg) => ctx < p.nrContexts && reg == CLAIM && value == s
       case _ => false)
    case _ => false
  }

  function Step(p: State, e: Event): State
    requires p.Valid()
  {
    match e
    case Line(source, on) => if source > 0 then SetPending(p, source, on) else p
    case Read(offset) => Load(p, offset).0
    case Write(offset, value) => Store(p, offset, value)
  }

  // The state after the first `n` events.
  function After(p: State, events: seq<Event>, n: nat): (r: State)
    requires p.Valid() && n <= |events|
    ensures r.Valid() && r.nrContexts == p.nrContexts
  {
    if n == 0 then p else Step(After(p, events, n - 1), events[n - 1])
  }

  ghost predicate Consistent(p: State) {
    p.Valid() && p.pending == p.asserted && 0 !in p.pending && 0 !in p.claimed
  }

  lemma StepKeepsConsistent(p: State, e: Event)
    requires Consistent(p)
    ensures Consistent(Step(p, e))
  {
    hide BestSource, MaskOf, WordOf;
  }

  /** In every run the pending bits are the device lines, and bit 0 of the pending and claimed registers stays clear. */
  lemma {:induction false} PendingIsAsserted(p: State, events: seq<Event>, n: nat)
    requires Consistent(p) && n <= |events|
    ensures Consistent(After(p, events, n))
  {
    hide Step;
    if n > 0 {
      PendingIsAsserted(p, events, n - 1);
      StepKeepsConsistent(After(p, events, n - 1), events[n - 1]);
    }
  }

  // ----- lines -----

  // The line was last driven up in the first `n` events, or was up before and has not been driven since.
  ghost predicate LineIsUp(up: bool, events: seq<Event>, n: nat, s: Source)
    requires n <= |events|
  {
    || (up && forall k :: 0 <= k < n ==> !Drives(events[k], s))
    || exists k :: 0 <= k < n && events[k] == Line(s, true) && forall j :: k < j < n ==> !Drives(events[j], s)
  }

  predicate Drives(e: Event, s: Source) {
    e.Line? && e.source == s
  }

  lemma StepOnLine(p: State, e: Event, s: Source)
    requires p.Valid() && s != 0
    ensures s in Step(p, e).asserted <==> if Drives(e, s) then e.on else s in p.asserted
  {
    hide BestSource, MaskOf, WordOf;
  }

  /**
   In every run a source is asserted if and only if its device last drove the line up, or it was asserted at the
   start and the device has not driven it; and pending with it.
   */
  lemma {:induction false} AssertedIffLineUp(p: State, events: seq<Event>, n: nat, s: Source)
    requires p.Valid() && n <= |events| && s != 0
    ensures s in After(p, events, n).asserted <==> LineIsUp(s in p.asserted, events, n, s)
    ensures Consistent(p) ==> (s in After(p, events, n).pending <==> LineIsUp(s in p.asserted, events, n, s))
  {
    hide Step, Drives;
    if Consistent(p) { PendingIsAsserted(p, events, n); }
    if n > 0 {
      AssertedIffLineUp(p, events, n - 1, s);
      StepOnLine(After(p, events, n - 1), events[n - 1], s);
      LastEvent(s in p.asserted, events, n, s);
    }
  }

  lemma LastEvent(up: bool, events: seq<Event>, n: nat, s: Source)
    requires 0 < n <= |events|
    ensures LineIsUp(up, events, n, s) <==>
      if Drives(events[n - 1], s) then events[n - 1].on else LineIsUp(up, events, n - 1, s)
  {
    var e := events[n - 1];
    if Drives(e, s) && e.on {
      assert events[n - 1] == Line(s, true);
    }
    if !Drives(e, s) && LineIsUp(up, events, n - 1, s) && !(up && forall k :: 0 <= k < n - 1 ==> !Drives(events[k], s)) {
      var k :| 0 <= k < n - 1 && events[k] == Line(s, true) && forall j :: k < j < n - 1 ==> !Drives(events[j], s);
      assert forall j :: k < j < n ==> !Drives(events[j], s);
    }
    if !Drives(e, s) && LineIsUp(up, events, n, s) && !(up && forall k :: 0 <= k < n ==> !Drives(events[k], s)) {
      var k :| 0 <= k < n && events[k] == Line(s, true) && forall j :: k < j < n ==> !Drives(events[j], s);
      assert Drives(events[k], s);
      assert k < n - 1;
    }
  }

  /** Raising the line of an unclaimed source that a context has enabled above its threshold gives the context that source to claim. */
  lemma RaisedIsClaimed(p: State, s: Source, ctx: nat)
    requires Consistent(p) && s != 0 && ctx < MAX_CONTEXTS
    ensures Step(p, Line(s, true)).Valid() && Step(p, Line(s, false)).Valid()
    ensures s in Claims(Step(p, Line(s, true)), ctx, 31) <==>
      s !in p.claimed && s in p.enable[ctx] && p.priority[s] > p.threshold[ctx]
    ensures s !in Claims(Step(p, Line(s, false)), ctx, 31)
  {
    hide Claims, Enumerates;
    InClaims(Step(p, Line(s, true)), s, ctx);
    InClaims(Step(p, Line(s, false)), s, ctx);
  }

  // With the devices quiet, what is claimed are the candidates.
  lemma InClaims(p: State, s: Source, ctx: nat)
    requires p.Valid() && s != 0 && ctx < MAX_CONTEXTS
    ensures s in Claims(p, ctx, 31) <==> Candidate(p, ctx, s)
  {
    hide Claims, Enumerates, Candidate;
    DrainIsSortedEnumeration(p, ctx, 31);
    var k, claims := |Candidates(p, ctx)|, Claims(p, ctx, 31);
    ZerosAfter(claims, k, s);
    EnumeratesExactly(p, claims[..k], Candidates(p, ctx), s);
    InCandidates(p, ctx, s);
  }

  // ----- claims and completions -----

  // A claimed source stays claimed, and is not handed out, until it is completed.
  lemma StepOnClaimed(p: State, e: Event, s: Source)
    requires p.Valid() && s != 0 && s in p.claimed
    ensures HandedOut(p, e) != s
    ensures !Completes(p, e, s) ==> s in Step(p, e).claimed
  {
    hide BestSource, MaskOf, WordOf;
    if HandedOut(p, e) != 0 {
      BestSourceIsBest(p, Decode(e.offset).ctx);
    }
  }

  lemma HandedOutIsClaimed(p: State, e: Event)
    requires p.Valid() && HandedOut(p, e) != 0
    ensures HandedOut(p, e) in Step(p, e).claimed && Load(p, e.offset).1 == HandedOut(p, e)
  {
    hide BestSource;
  }

  lemma {:induction false} ClaimedUntilCompleted(p: State, events: seq<Event>, i: nat, j: nat, s: Source)
    requires p.Valid() && i <= j <= |events| && s != 0 && s in After(p, events, i).claimed
    requires forall k :: i <= k < j ==> !Completes(After(p, events, k), events[k], s)
    ensures s in After(p, events, j).claimed
    decreases j
  {
    hide Step;
    if i < j {
      ClaimedUntilCompleted(p, events, i, j - 1, s);
      StepOnClaimed(After(p, events, j - 1), events[j - 1], s);
    }
  }

  /**
   Across all contexts and all interleavings of lines, register accesses, claims and completions, a source
   handed out twice has been completed in between.
   */
  lemma NeverHandedOutTwice(p: State, events: seq<Event>, i: nat, j: nat)
    requires p.Valid() && i < j < |events|
    requires HandedOut(After(p, events, i), events[i]) == HandedOut(After(p, events, j), events[j]) != 0
    ensures exists k :: i < k < j && Completes(After(p, events, k), events[k], HandedOut(After(p, events, i), events[i]))
  {
    hide Step, HandedOut, Completes, After;
    var s := HandedOut(After(p, events, i), events[i]);
    HandedOutIsClaimed(After(p, events, i), events[i]);
    AfterNext(p, events, i);
    if forall k :: i < k < j ==> !Completes(After(p, events, k), events[k], s) {
      ClaimedUntilCompleted(p, events, i + 1, j, s);
      StepOnClaimed(After(p, events, j), events[j], s);
    }
  }

  lemma AfterNext(p: State, events: seq<Event>, i: nat)
    requires p.Valid() && i < |events|
    ensures After(p, events, i + 1) == Step(After(p, events, i), events[i])
  {
    hide Step;
  }

  lemma CompletedCandidate(p: State, s: Source, ctx: nat)
    requires Consistent(p) && s != 0 && ctx < MAX_CONTEXTS
    ensures Complete(p, s).Valid()
    ensures Candidate(Complete(p, s), ctx, s) <==> s in p.asserted && s in p.enable[ctx] && p.priority[s] > p.threshold[ctx]
  {
  }

  /**
   Level triggering: with the devices quiet, a completed source is handed out again within 31 claims of a context
   if and only if its line is still up and the context has it enabled above the threshold.
   */
  lemma StillAssertedFiresAgain(p: State, s: Source, ctx: nat)
    requires Consistent(p) && s != 0 && ctx < MAX_CONTEXTS
    ensures Complete(p, s).Valid()
    ensures s in Claims(Complete(p, s), ctx, 31) <==> s in p.asserted && s in p.enable[ctx] && p.priority[s] > p.threshold[ctx]
  {
    hide Complete, Claims, Candidate;
    CompletedCandidate(p, s, ctx);
    InClaims(Complete(p, s), s, ctx);
  }

  lemma ZerosAfter(r: seq<Source>, k: nat, s: Source)
    requires k <= |r| && s != 0 && forall i :: k <= i < |r| ==> r[i] == 0
    ensures s in r <==> s in r[..k]
  {
  }

  lemma EnumeratesExactly(p: State, r: seq<Source>, todo: set<Source>, s: Source)
    requires p.Valid() && Enumerates(p, r, todo)
    ensures s in r <==> s in todo
  {
    hide Before;
  }

  lemma InCandidates(p: State, ctx: nat, s: Source)
    requires p.Valid() && ctx < MAX_CONTEXTS && s != 0
    ensures s in Candidates(p, ctx) <==> Candidate(p, ctx, s)
  {
    hide Candidate;
  }

  /** Any context may complete a source, whoever claimed it, and completing 0 or a number past the last source does nothing. */
  lemma CompletionIsGlobal(p: State, ctx: nat, ctx': nat, s: u32)
    requires p.Valid() && ctx < p.nrContexts && ctx' < p.nrContexts
    ensures var at, at' := CONTEXT_BASE + CONTEXT_STRIDE * ctx + CLAIM, CONTEXT_BASE + CONTEXT_STRIDE * ctx' + CLAIM;
      && Store(p, at, s) == Store(p, at', s) == Complete(p, s)
      && (s == 0 || s >= NR_SOURCES ==> Complete(p, s) == p)
  {
    hide Complete, MaskOf;
    ClaimAddress(ctx);
    ClaimAddress(ctx');
    NoSuchSource(p, s);
  }

  lemma ClaimAddress(ctx: nat)
    requires ctx < MAX_CONTEXTS
    ensures Decode(CONTEXT_BASE + CONTEXT_STRIDE * ctx + CLAIM) == Context(ctx, CLAIM)
  {
  }

  lemma NoSuchSource(p: State, s: u32)
    ensures s == 0 || s >= NR_SOURCES ==> Complete(p, s) == p
  {
  }

  /** Enables, thresholds and priorities read back as written, for every context and source, and writes touch nothing else. */
  lemma RegistersReadBack(p: State, ctx: nat, s: Source, v: u32)
    requires p.Valid() && ctx < p.nrContexts && s > 0
    ensures var enable, threshold, priority := ENABLE_BASE + ENABLE_STRIDE * ctx, CONTEXT_BASE + CONTEXT_STRIDE * ctx, 4 * s;
      && Load(Store(p, enable, v), enable) == (p.(enable := p.enable[ctx := MaskOf(v)]), v)
      && Load(Store(p, threshold, v), threshold) == (p.(threshold := p.threshold[ctx := v]), v)
      && Load(Store(p, priority, v), priority) == (p.(priority := p.priority[s := v]), v)
  {
    hide MaskOf, WordOf, Claim, Complete;
    MaskRoundTrip(v);
    RegisterAddresses(ctx, s);
  }

  lemma RegisterAddresses(ctx: nat, s: Source)
    requires ctx < MAX_CONTEXTS
    ensures Decode(ENABLE_BASE + ENABLE_STRIDE * ctx) == Enable(ctx, 0)
    ensures Decode(CONTEXT_BASE + CONTEXT_STRIDE * ctx) == Context(ctx, THRESHOLD)
    ensures Decode(4 * s) == Priority(s)
  {
  }

  // ----- the register map -----

  /**
   The addresses of the PLIC specification: priorities from 0, pending bits at 0x1000, the enables of a context
   every 0x80 bytes from 0x2000, its threshold and claim register every 0x1000 bytes from 0x200000.
   */
  lemma RegisterMap(p: State, ctx: nat, s: Source, v: u32)
    requires p.Valid() && ctx < p.nrContexts && s > 0
    ensures Load(p, 4 * s) == (p, p.priority[s]) && Store(p, 4 * s, v) == p.(priority := p.priority[s := v])
    ensures Load(p, 0x1000).0 == p && MaskOf(Load(p, 0x1000).1) == p.pending && Store(p, 0x1000, v) == p
    ensures Load(p, 0x2000 + 0x80 * ctx).0 == p && MaskOf(Load(p, 0x2000 + 0x80 * ctx).1) == p.enable[ctx]
    ensures Store(p, 0x2000 + 0x80 * ctx, v) == p.(enable := p.enable[ctx := MaskOf(v)])
    ensures Load(p, 0x20_0000 + 0x1000 * ctx) == (p, p.threshold[ctx])
    ensures Store(p, 0x20_0000 + 0x1000 * ctx, v) == p.(threshold := p.threshold[ctx := v])
    ensures Load(p, 0x20_0004 + 0x1000 * ctx) == (var (p', best) := Claim(p, ctx); (p', best as u32))
    ensures Store(p, 0x20_0004 + 0x1000 * ctx, v) == Complete(p, v)
  {
    hide MaskOf, WordOf, Claim, Complete;
    RegisterAddresses(ctx, s);
    ClaimAddress(ctx);
    WordRoundTrip(p.pending);
    WordRoundTrip(p.enable[ctx]);
    assert Decode(0x1000) == Pending(0);
  }
}
