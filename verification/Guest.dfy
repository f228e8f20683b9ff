/** Guest programs: an instruction at each mapped pc, and the words the emulator fetches for them. */
module Guest {
  import opened Words
  import Rv32
  import opened Rv32System
  import opened Translator
  import opened TranslateProof
  import opened CallTranslate
  import opened TranslationCache

  datatype GuestInstr = Plain(instr: Rv32.Instr) | Calls(call: CallInstr)

  type Program = u32 -> Option<GuestInstr>

  function WordOf(i: GuestInstr): bv32 {
    match i
    case Plain(p) => Rv32.Encode(p)
    case Calls(c) => EncodeCall(c)
  }

  function FetchOf(g: Program): Fetch {
    (pc: u32) => match g(pc)
      case Some(i) => Some(WordOf(i))
      case None => None
  }

  predicate EndsUnit(i: GuestInstr) {
    match i
    case Plain(p) => Rv32.EndsUnit(p)
    case Calls(c) => CallEndsUnit(c)
  }

  function TemplateFor(i: GuestInstr): Template {
    match i
    case Plain(p) => TemplateOf(p)
    case Calls(c) => CallBlock(KindOf(c))
  }

  ghost predicate ParamsFor(i: GuestInstr, pc: u32, params: seq<u32>) {
    match i
    case Plain(p) => ParamsOf(p, pc, params)
    case Calls(c) => params == CallParams(c, pc)
  }

  /** Every instruction of a guest gets its own block with its own operands. */
  lemma GuestTranslates(i: GuestInstr, pc: u32)
    ensures var t := Translate(WordOf(i), pc);
      && t.Some? && t.value.stop == EndsUnit(i)
      && t.value.block.template == TemplateFor(i) && ParamsFor(i, pc, t.value.block.params)
  {
    hide Translate, Rv32.Encode, EncodeCall, ParamsOf, CallParams, TemplateOf;
    match i
    case Plain(p) => TranslateEncoded(p, pc);
    case Calls(c) => TranslateCallEncoded(c, pc);
  }
}
