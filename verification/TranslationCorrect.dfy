/** The translator is correct, one instruction at a time. */
module TranslationCorrect {
  import opened Words
  import Rv32
  import opened X86
  import opened Translator
  import opened BlockProof
  import opened JumpProof
  import opened MulDivProof
  import opened TranslateProof

  lemma BlockSimulates(i: Rv32.Instr, m: Machine, params: seq<u32>)
    requires Ready(i, m, params)
    ensures Simulates(i, m, Run(CodeOf(TemplateOf(i)), m, params))
  {
    hide Run, Simulates, ParamsOf;
    match i
    case Lui(_, _) => LuiSimulates(i, m, params);
    case Auipc(_, _) => AuipcSimulates(i, m, params);
    case Jal(_, _) => JalSimulates(i, m, params);
    case Jalr(_, _, _) => JalrSimulates(i, m, params);
    case Branch(_, _, _, _) => BranchSimulates(i, m, params);
    case OpImm(_, _, _, _) => ImmBlockSimulates(i, m, params);
    case ShiftImm(_, _, _, _) => ShiftBlockSimulates(i, m, params);
    case Op(_, _, _, _) => OpBlockSimulates(i, m, params);
    case MulDiv(_, _, _, _) => MulBlockSimulates(i, m, params);
    case Fence(_) => FenceSimulates(i, m, params);
  }

  /**
   Fetching the encoding of `i`, translating it at the current pc and running the block has exactly
   the effect of `i`, or kills the emulator exactly on the operands the host division cannot take.
   */
  lemma InstructionTranslatedCorrectly(i: Rv32.Instr, m: Machine)
    requires m.Valid() && m.hart.Valid()
    ensures var t := Translate(Rv32.Encode(i), m.hart.pc);
      t.Some? && t.value.stop == Rv32.EndsUnit(i)
      && Simulates(i, m, Run(CodeOf(t.value.block.template), m, t.value.block.params))
  {
    hide Run, Simulates, Translate, Rv32.Encode, CodeOf;
    TranslateEncoded(i, m.hart.pc);
    BlockSimulates(i, m, Translate(Rv32.Encode(i), m.hart.pc).value.block.params);
  }
}
