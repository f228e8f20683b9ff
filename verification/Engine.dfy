/**
 Running the cache: blocks executed one after the other until control is back in the vmm,
 with the vmm answering the calls they make, against the reference interpreter.
 */
module Engine {
  import opened Words
  import Rv32
  import opened Rv32System
  import opened X86
  import opened PcIndex
  import opened Translator
  import opened TranslationCache
  import opened CacheProof
  import opened BlockProof
  import opened TranslationCorrect
  import opened CallBlocks
  import opened Guest

  // ----- the vmm around the cache -----

  type Registers = h: Hart | |h.x| == 32 witness Rv32.Hart(seq(32, _ => 0), 0)

  // What a function of the vmm does: it returns, with anything in the scratch registers, or it raises a
  // trap and never does; `flushes` tells whether it emptied the translation cache.
  datatype Answer<W> =
    | Returns(world: W, hart: Registers, regs: Machine, flushes: bool)
    | Enters(world: W, hart: Registers, flushes: bool)

  // Everything besides registers, pc and translated code is the world: memory, csrs, TLBs and devices.  It
  // decides which instructions are visible, what a call does, what happens at a unit boundary and at a page fault.
  datatype Env<!W> = Env(
    code: W -> Program,
    call: (Callback, seq<u32>, W, Hart) -> Answer<W>,
    pump: (W, Hart) -> Answer<W>,
    fault: (u32, W, Hart) -> Answer<W>)

  // The functions called by blocks that go on with the next instruction.
  predicate GoesOnAfter(f: Callback) {
    match f
    case MmuRead8 | MmuRead16 | MmuRead32 | MmuWrite8 | MmuWrite16 | MmuWrite32 | AmoSlowpath | EbreakCallback => true
    case _ => false
  }

  // The functions whose blocks clear register zero afterwards.
  predicate ZeroIsReset(f: Callback) {
    match f
    case MmuRead8 | MmuRead16 | MmuRead32 | AmoSlowpath | CsrCallback => true
    case _ => false
  }

  // Register zero is zero whenever guest code goes on, and a memory access that returns neither moves the pc
  // nor empties the cache.
  ghost predicate AnswersWell<W>(f: Callback, h: Hart, a: Answer<W>) {
    match a
    case Enters(_, h', _) => h'.Valid()
    case Returns(_, h', _, flushes) =>
      && (ZeroIsReset(f) || h'.Valid())
      && (GoesOnAfter(f) ==> !flushes && h'.pc == h.pc)
  }

  ghost predicate Behaves<W(!new)>(env: Env<W>) {
    && (forall f, args, w, h: Hart :: h.Valid() ==> AnswersWell(f, h, env.call(f, args, w, h)))
    && (forall w, h: Hart :: h.Valid() ==> env.pump(w, h).hart.Valid())
    && (forall va, w, h: Hart :: h.Valid() ==> env.fault(va, w, h).hart.Valid())
  }

  // The same vmm around code that nothing rewrites.
  function Frozen<W>(env: Env<W>, made: Program): Env<W> {
    env.(code := (_: W) => made)
  }

  // ----- running the cache -----

  datatype Ran<W> =
    | Falls(world: W, m: Machine, flushes: bool)  // control is at the byte after the block
    | Back(world: W, hart: Hart, flushes: bool)   // control is in the vmm
    | Died                                        // a divide error on the host
    | Stray                                       // control ran into stray bytes

  // The registers when a call returns: the scratch registers as it left them, the address registers restored.
  function Reentered(regs: Machine, m: Machine, h: Registers): Machine {
    regs.(base := m.base, hart := h)
  }

  function HavingFlushed<W>(r: Ran<W>, flushes: bool): Ran<W> {
    match r
    case Falls(w, m, f) => Falls(w, m, flushes || f)
    case Back(w, h, f) => Back(w, h, flushes || f)
    case _ => r
  }

  function RunBlock<W>(env: Env<W>, code: Code, params: seq<u32>, w: W, m: Machine): (r: Ran<W>)
    requires m.Valid()
    ensures r.Falls? ==> r.m.Valid()
    decreases Length(code)
  {
    match Run(code, m, params)
    case Fell(m') => Falls(w, m', false)
    case Trapped(m') => Back(w, m'.hart, false)
    case HostFault => Died
    case Wild => Stray
    case Calling(f, m', back) =>
      var a := env.call(f, Arguments(f, m'), w, m'.hart);
      if a.Enters? then Back(a.world, a.hart, a.flushes)
      else HavingFlushed(RunBlock(env, back, params, a.world, Reentered(a.regs, m, a.hart)), a.flushes)
  }

  // Control at byte `off` of the code buffer: the chunk there runs, and falling out of it reaches the next byte.
  function Exec<W>(env: Env<W>, c: Cache, off: nat, w: W, m: Machine): Ran<W>
    requires m.Valid()
    decreases TRANSLATION_CACHE_SIZE - off
  {
    if off !in c.code || c.code[off].size == 0 || off + c.code[off].size > TRANSLATION_CACHE_SIZE then Stray
    else
      match c.code[off]
      case Jumper(_) => Back(w, m.hart, false)
      case BlockAt(b, size) =>
        match RunBlock(env, CodeOf(b.template), b.params, w, m)
        case Falls(w', m', flushes) => HavingFlushed(Exec(env, c, off + size, w', m'), flushes)
        case other => other
  }

  // ----- the reference -----

  datatype State<W> = State(world: W, hart: Hart)

  predicate Dies(i: GuestInstr, h: Hart)
    requires h.Valid()
  {
    i.Plain? && FaultsHost(i.instr, h)
  }

  // One instruction: the vmm is asked with the operands of the instruction and, unless it raises a trap,
  // the instruction is completed with its answer.
  function Next<W>(env: Env<W>, i: GuestInstr, s: State<W>): State<W>
    requires s.hart.Valid()
  {
    match i
    case Plain(p) => s.(hart := Rv32.Execute(p, s.hart))
    case Calls(c) =>
      match env.call(CallbackOf(KindOf(c)), Asks(c, s.hart), s.world, s.hart)
      case Enters(w, h, _) => State(w, h)
      case Returns(w, h, regs, _) => State(w, Completed(c, regs.Low(RAX), h))
  }

  // Does the instruction make the vmm empty the cache?
  predicate Flushes<W>(env: Env<W>, i: GuestInstr, s: State<W>)
    requires s.hart.Valid()
  {
    i.Calls? && env.call(CallbackOf(KindOf(i.call)), Asks(i.call, s.hart), s.world, s.hart).flushes
  }

  function InstrAt<W>(env: Env<W>, s: State<W>): Option<GuestInstr> {
    env.code(s.world)(s.hart.pc)
  }

  // `k` steps of the reference, none of which asks the host for an impossible division.
  ghost predicate Steps<W>(env: Env<W>, s: State<W>, k: nat, s': State<W>)
    decreases k
  {
    s.hart.Valid() &&
    if k == 0 then s' == s
    else
      && InstrAt(env, s).Some? && !Dies(InstrAt(env, s).value, s.hart)
      && Steps(env, Next(env, InstrAt(env, s).value, s), k - 1, s')
  }

  // `k` good steps lead to an instruction that kills the host.
  ghost predicate StepsToFault<W>(env: Env<W>, s: State<W>, k: nat)
    decreases k
  {
    s.hart.Valid() && InstrAt(env, s).Some? &&
    if k == 0 then Dies(InstrAt(env, s).value, s.hart)
    else !Dies(InstrAt(env, s).value, s.hart) && StepsToFault(env, Next(env, InstrAt(env, s).value, s), k - 1)
  }

  // Is the cache emptied in one of `k` steps?
  ghost predicate FlushedIn<W>(env: Env<W>, s: State<W>, k: nat)
    decreases k
  {
    && k > 0 && s.hart.Valid() && InstrAt(env, s).Some?
    && (Flushes(env, InstrAt(env, s).value, s) || FlushedIn(env, Next(env, InstrAt(env, s).value, s), k - 1))
  }

  // At least one step, of which only the last may empty the cache.
  ghost predicate UnitSteps<W>(env: Env<W>, s: State<W>, k: nat, s': State<W>) {
    k > 0 && Steps(env, s, k, s') && !FlushedIn(env, s, k - 1)
  }

  // Steps that do not empty the cache lead to an instruction that kills the host.
  ghost predicate UnitDies<W>(env: Env<W>, s: State<W>, k: nat) {
    StepsToFault(env, s, k) && !FlushedIn(env, s, k)
  }

  lemma {:induction false} StepsValid<W>(env: Env<W>, s: State<W>, k: nat, s': State<W>)
    requires Steps(env, s, k, s')
    ensures s.hart.Valid() && s'.hart.Valid()
    decreases k
  {
    hide Next, Dies;
    if k > 0 { StepsValid(env, Next(env, InstrAt(env, s).value, s), k - 1, s'); }
  }

  // ----- one block -----

  // What running a block must come to: the next state, in the vmm exactly where the instruction ends the
  // unit or the call raised a trap, which alone may empty the cache.
  ghost predicate IsNext<W>(env: Env<W>, i: GuestInstr, w: W, m: Machine, r: Ran<W>)
    requires m.hart.Valid()
  {
    if Dies(i, m.hart) then r == Died
    else
      var s := Next(env, i, State(w, m.hart));
      && s.hart.Valid()
      && match r
         case Falls(w', m', flushes) =>
           && !EndsUnit(i) && !flushes && !Flushes(env, i, State(w, m.hart)) && State(w', m'.hart) == s
           && m'.Valid() && m'.base == m.base && m'.hart.pc == Wrap(m.hart.pc + 4)
         case Back(w', h', flushes) => State(w', h') == s && flushes == Flushes(env, i, State(w, m.hart))
         case _ => false
  }

  lemma GoesOn(i: Rv32.Instr, h: Hart)
    requires h.Valid() && !Rv32.EndsUnit(i)
    ensures Rv32.Execute(i, h).pc == Wrap(h.pc + 4)
  {
    hide Rv32.OpValue, Rv32.MulValue;
  }

  lemma PlainBlock<W>(env: Env<W>, i: GuestInstr, w: W, m: Machine, params: seq<u32>)
    requires i.Plain? && m.Valid() && m.hart.Valid() && ParamsFor(i, m.hart.pc, params)
    ensures IsNext(env, i, w, m, RunBlock(env, CodeOf(TemplateFor(i)), params, w, m))
  {
    hide Run, CodeOf, TemplateOf, ParamsOf, FaultsHost, Rv32.Execute, Rv32.EndsUnit;
    BlockSimulates(i.instr, m, params);
    if !Rv32.EndsUnit(i.instr) {
      GoesOn(i.instr, m.hart);
    }
  }

  lemma CompletedRight(c: CallInstr, v: u32, h: Hart, h0: Hart)
    requires |h.x| == 32 && (ZeroIsReset(CallbackOf(KindOf(c))) || h.Valid())
    ensures Completed(c, v, h).Valid()
    ensures !CallEndsUnit(c) && h.pc == h0.pc ==> Completed(c, v, h).pc == Wrap(h0.pc + 4)
  {
    hide LoadValue;
  }

  lemma KindGoesOn(c: CallInstr)
    ensures GoesOnAfter(CallbackOf(KindOf(c))) <==> !CallEndsUnit(c)
  {
  }

  lemma CallingBlock<W>(env: Env<W>, code: Code, params: seq<u32>, w: W, m: Machine, f: Callback, m': Machine, back: Code)
    requires m.Valid() && Run(code, m, params) == Calling(f, m', back)
    ensures var a := env.call(f, Arguments(f, m'), w, m'.hart);
      RunBlock(env, code, params, w, m) ==
        if a.Enters? then Back(a.world, a.hart, a.flushes)
        else HavingFlushed(RunBlock(env, back, params, a.world, Reentered(a.regs, m, a.hart)), a.flushes)
  {
    hide Run, Arguments;
  }

  lemma EndingBlock<W>(env: Env<W>, code: Code, params: seq<u32>, w: W, m: Machine, m': Machine)
    requires m.Valid()
    ensures Run(code, m, params) == Fell(m') ==> RunBlock(env, code, params, w, m) == Falls(w, m', false)
    ensures Run(code, m, params) == Trapped(m') ==> RunBlock(env, code, params, w, m) == Back(w, m'.hart, false)
  {
    hide Run;
  }

  lemma CallsBlock<W(!new)>(env: Env<W>, i: GuestInstr, w: W, m: Machine, params: seq<u32>)
    requires Behaves(env) && i.Calls? && m.Valid() && m.hart.Valid() && ParamsFor(i, m.hart.pc, params)
    ensures IsNext(env, i, w, m, RunBlock(env, CodeOf(TemplateFor(i)), params, w, m))
  {
    hide Run, RunBlock, CodeOf, CodeAfterCall, CallParams, Arguments, Asks, Completed, GoesOnAfter, ZeroIsReset, CallEndsUnit, KindOf;
    var c, pc := i.call, m.hart.pc;
    var m' := CallBlockAsks(c, m, params, pc);
    var f, back := CallbackOf(KindOf(c)), CodeAfterCall(KindOf(c));
    CallingBlock(env, CodeOf(CallBlock(KindOf(c))), params, w, m, f, m', back);
    var a := env.call(f, Asks(c, m.hart), w, m.hart);
    assert AnswersWell(f, m.hart, a);
    KindGoesOn(c);
    if a.Returns? {
      var m1 := Reentered(a.regs, m, a.hart);
      var m2 := CallBlockCompletes(c, m1, params, pc);
      EndingBlock(env, back, params, a.world, m1, m2);
      CompletedRight(c, a.regs.Low(RAX), a.hart, m.hart);
    }
  }

  /** Running the block of an instruction is one step of the reference, or death in the host division. */
  lemma BlockIsOneStep<W(!new)>(env: Env<W>, i: GuestInstr, w: W, m: Machine, params: seq<u32>)
    requires Behaves(env) && m.Valid() && m.hart.Valid() && ParamsFor(i, m.hart.pc, params)
    ensures IsNext(env, i, w, m, RunBlock(env, CodeOf(TemplateFor(i)), params, w, m))
  {
    hide IsNext, RunBlock, CodeOf, ParamsFor, TemplateFor, Behaves;
    if i.Plain? { PlainBlock(env, i, w, m, params); } else { CallsBlock(env, i, w, m, params); }
  }

  /** Encoding, fetching, translating and running any instruction of a guest is one step of the reference. */
  lemma EncodedIsOneStep<W(!new)>(env: Env<W>, i: GuestInstr, w: W, m: Machine)
    requires Behaves(env) && m.Valid() && m.hart.Valid()
    ensures var t := Translate(WordOf(i), m.hart.pc);
      && t.Some? && t.value.stop == EndsUnit(i)
      && IsNext(env, i, w, m, RunBlock(env, CodeOf(t.value.block.template), t.value.block.params, w, m))
  {
    hide IsNext, RunBlock, CodeOf, ParamsFor, TemplateFor, Behaves, Translate, WordOf, EndsUnit;
    GuestTranslates(i, m.hart.pc);
    BlockIsOneStep(env, i, w, m, Translate(WordOf(i), m.hart.pc).value.block.params);
  }

  // ----- one unit -----

  // What the execution of a unit achieves: at least one reference step, or death on a division.
  ghost predicate Achieves<W(!new)>(env: Env<W>, s: State<W>, r: Ran<W>) {
    match r
    case Back(w', h', flushes) =>
      exists k: nat :: UnitSteps(env, s, k, State(w', h')) && flushes == FlushedIn(env, s, k)
    case Died => exists k: nat :: UnitDies(env, s, k)
    case _ => false
  }

  lemma EncodedTranslation(g: Program, pc: u32, t: Translation)
    requires TranslationOf(FetchOf(g), pc, t)
    ensures g(pc).Some? && t.stop == EndsUnit(g(pc).value)
    ensures t.block.template == TemplateFor(g(pc).value) && ParamsFor(g(pc).value, pc, t.block.params)
  {
    hide Translate, WordOf, ParamsFor, TemplateFor, EndsUnit;
    GuestTranslates(g(pc).value, pc);
  }

  // What the layout says about one block.
  lemma BlockInLayout(g: Program, host: Host, w: u32, c: Cache, it: Item)
    requires Layout(host, FetchOf(g), w, c) && it in c.index
    ensures it.tcOffset in c.code && c.code[it.tcOffset].BlockAt? && c.code[it.tcOffset].size > 0
    ensures End(c, it) == it.tcOffset + c.code[it.tcOffset].size <= TRANSLATION_CACHE_SIZE
    ensures var b := c.code[it.tcOffset].block;
      g(it.guestPc).Some? && b.template == TemplateFor(g(it.guestPc).value) && ParamsFor(g(it.guestPc).value, it.guestPc, b.params)
    ensures EndsUnit(g(it.guestPc).value) || Closed(c, it)
    ensures End(c, it) in c.code ==>
      c.code[End(c, it)].size > 0 && End(c, it) + c.code[End(c, it)].size <= TRANSLATION_CACHE_SIZE
  {
    hide Ordered, Stops, Closed, FetchOf, Translate, ParamsFor, TemplateFor, EndsUnit;
    assert CacheProof.Holds(host, FetchOf(g), c, it);
    var t :| TranslationOf(FetchOf(g), it.guestPc, t) && t.block == c.code[it.tcOffset].block;
    EncodedTranslation(g, it.guestPc, t);
    OnlyTranslation(FetchOf(g), it.guestPc, t);
  }

  // Executing the block first and then what it falls into.
  lemma ExecBlock<W>(env: Env<W>, c: Cache, off: nat, w: W, m: Machine)
    requires m.Valid() && off in c.code && c.code[off].BlockAt? && c.code[off].size > 0
    requires off + c.code[off].size <= TRANSLATION_CACHE_SIZE
    ensures var r := RunBlock(env, CodeOf(c.code[off].block.template), c.code[off].block.params, w, m);
      Exec(env, c, off, w, m) ==
        match r
        case Falls(w', m', flushes) => HavingFlushed(Exec(env, c, off + c.code[off].size, w', m'), flushes)
        case _ => r
  {
    hide RunBlock, CodeOf;
  }

  lemma ExecJumper<W>(env: Env<W>, c: Cache, off: nat, w: W, m: Machine)
    requires m.Valid() && off in c.code && c.code[off].Jumper? && c.code[off].size > 0
    requires off + c.code[off].size <= TRANSLATION_CACHE_SIZE
    ensures Exec(env, c, off, w, m) == Back(w, m.hart, false)
  {
    hide RunBlock, CodeOf;
  }

  // One step on the way.
  ghost predicate StepsOnce<W>(env: Env<W>, s: State<W>, s': State<W>) {
    && s.hart.Valid() && InstrAt(env, s).Some? && !Dies(InstrAt(env, s).value, s.hart)
    && s' == Next(env, InstrAt(env, s).value, s) && s'.hart.Valid()
  }

  lemma OnceAchieves<W(!new)>(env: Env<W>, s: State<W>, s': State<W>)
    requires StepsOnce(env, s, s')
    ensures Achieves(env, s, Back(s'.world, s'.hart, Flushes(env, InstrAt(env, s).value, s)))
  {
    hide Next, Dies, Flushes;
    assert Steps(env, s', 0, s');
    assert UnitSteps(env, s, 1, s');
  }

  lemma ThenAchieves<W(!new)>(env: Env<W>, s: State<W>, s1: State<W>, r: Ran<W>)
    requires StepsOnce(env, s, s1) && !Flushes(env, InstrAt(env, s).value, s) && Achieves(env, s1, r)
    ensures Achieves(env, s, r)
  {
    hide Next, Dies, Flushes;
    match r
    case Back(w', h', flushes) =>
      var k: nat :| UnitSteps(env, s1, k, State(w', h')) && flushes == FlushedIn(env, s1, k);
      assert UnitSteps(env, s, k + 1, State(w', h'));
    case Died =>
      var k: nat :| UnitDies(env, s1, k);
      assert UnitDies(env, s, k + 1);
    case _ =>
  }

  lemma DiesAchieves<W(!new)>(env: Env<W>, s: State<W>)
    requires s.hart.Valid() && InstrAt(env, s).Some? && Dies(InstrAt(env, s).value, s.hart)
    ensures Achieves(env, s, Died)
  {
    assert UnitDies(env, s, 0);
  }

  // A step does not look at the code.
  lemma FrozenNext<W>(env: Env<W>, made: Program, i: GuestInstr, s: State<W>)
    requires s.hart.Valid()
    ensures Next(Frozen(env, made), i, s) == Next(env, i, s) && Flushes(Frozen(env, made), i, s) == Flushes(env, i, s)
  {
    hide Asks, Completed, Rv32.Execute;
  }

  /**
   From any mapped pc of a cache fit to run, executing blocks until control is back in the vmm is a run of the
   reference on the code the blocks were made of, whatever the guest has rewritten since and rewrites meanwhile.
   */
  lemma {:induction false} UnitIsReferenceRun<W(!new)>(env: Env<W>, made: Program, host: Host, v: u32, c: Cache, it: Item,
                                                       w: W, m: Machine)
    requires Behaves(env) && Layout(host, FetchOf(made), v, c) && it in c.index
    requires m.Valid() && m.hart.Valid() && m.hart.pc == it.guestPc
    ensures Achieves(Frozen(env, made), State(w, m.hart), Exec(env, c, it.tcOffset, w, m))
    decreases TRANSLATION_CACHE_SIZE - it.tcOffset
  {
    hide RunBlock, CodeOf, Exec, Achieves, Layout, End, FetchOf, ParamsFor, TemplateFor, EndsUnit, Dies, Next, Behaves, Flushes;
    BlockInLayout(made, host, v, c, it);
    var i := made(it.guestPc).value;
    var b := c.code[it.tcOffset].block;
    var s := State(w, m.hart);
    var env' := Frozen(env, made);
    BlockIsOneStep(env, i, w, m, b.params);
    FrozenNext(env, made, i, s);
    ExecBlock(env, c, it.tcOffset, w, m);
    var r := RunBlock(env, CodeOf(b.template), b.params, w, m);
    if Dies(i, m.hart) {
      DiesAchieves(env', s);
    } else {
      var s1 := Next(env, i, s);
      OnceAchieves(env', s, s1);
      if r.Falls? {
        var e := End(c, it);
        if c.code[e].Jumper? {
          ExecJumper(env, c, e, r.world, r.m);
        } else {
          UnitIsReferenceRun(env, made, host, v, c, Item(r.m.hart.pc, e), r.world, r.m);
          ThenAchieves(env', s, s1, Exec(env, c, e, r.world, r.m));
        }
      }
    }
  }
}
