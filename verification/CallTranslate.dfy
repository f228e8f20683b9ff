/** The translators invert the encoding of the instructions that call back into the vmm, too. */
module CallTranslate {
  import opened Words
  import opened Rv32
  import opened Rv32System
  import opened Decoder
  import opened Translator
  import opened TranslateProof

  // ----- the dispatch on the opcode, for any word -----

  lemma DispatchLoad(w: bv32, pc: u32)
    requires w & 0x7f == 0x03
    ensures Translate(w, pc) == TranslateLoad(Numbers(Decode(w, TypeI)), IOffset(Decode(w, TypeI).imm))
  {
    assert (w & 0x7f) as int == 0x03;
  }

  lemma DispatchStore(w: bv32, pc: u32)
    requires w & 0x7f == 0x23
    ensures Translate(w, pc) == TranslateStore(Numbers(Decode(w, TypeS)), IOffset(Decode(w, TypeS).imm))
  {
    assert (w & 0x7f) as int == 0x23;
  }

  lemma DispatchAmo(w: bv32, pc: u32)
    requires w & 0x7f == 0x2f
    ensures Translate(w, pc) == TranslateAmo(Numbers(Decode(w, TypeR)))
  {
    assert (w & 0x7f) as int == 0x2f;
  }

  lemma DispatchSystem(w: bv32, pc: u32)
    requires w & 0x7f == 0x73
    ensures Translate(w, pc) ==
      if (w >> 12) & 7 == 0 then TranslatePrivileged(Numbers(Decode(w, TypeS)), pc)
      else TranslateCsr(Numbers(Decode(w, TypeI)), w as int)
  {
    assert (w & 0x7f) as int == 0x73;
  }

  // ----- the fields, as numbers -----

  function LoadNumber(k: LoadKind): int {
    match k
    case LB => 0
    case LH => 1
    case LW => 2
    case LBU => 4
    case LHU => 5
  }

  function StoreNumber(k: StoreKind): int {
    match k
    case SB => 0
    case SH => 1
    case SW => 2
  }

  function CsrNumber(k: CsrKind): int {
    match k
    case CSRRW => 1
    case CSRRS => 2
    case CSRRC => 3
    case CSRRWI => 5
    case CSRRSI => 6
    case CSRRCI => 7
  }

  lemma Funct3Numbers(l: LoadKind, s: StoreKind, c: CsrKind)
    ensures LoadFunct3(l) <= 7 && LoadFunct3(l) as int == LoadNumber(l)
    ensures StoreFunct3(s) <= 7 && StoreFunct3(s) as int == StoreNumber(s)
    ensures 0 < CsrFunct3(c) <= 7 && CsrFunct3(c) as int == CsrNumber(c)
  {
  }

  lemma StoreOpcode(f3: bv32, rs1: RegIndex, rs2: RegIndex, imm: bv12)
    requires f3 <= 7
    ensures FormatS(0x23, f3, rs1, rs2, imm) & 0x7f == 0x23
  {
  }

  lemma StoreFields(f3: bv32, rs1: RegIndex, rs2: RegIndex, imm: bv12, w: bv32)
    requires f3 <= 7 && w == FormatS(0x23, f3, rs1, rs2, imm)
    ensures w & 0x7f == 0x23 && IOffset(Decode(w, TypeS).imm) == Wrap(Simm12(imm))
    ensures var f := Numbers(Decode(w, TypeS)); f.funct3 == f3 as int && f.rs1 == Index(rs1) && f.rs2 == Index(rs2)
  {
    StoreOpcode(f3, rs1, rs2, imm);
    DecodeFormatS(0x23, f3, rs1, rs2, imm);
    SignedOffsets(imm, 0);
    IndexBits(rs1);
    IndexBits(rs2);
  }

  lemma AmoFunct(k: AmoKind, ordering: bv2)
    ensures AmoFunct7(k, ordering) <= 0x7f && AmoFunct7(k, ordering) as int / 4 == AmoNumber(k)
  {
    OrderingBits(ordering);
    match k
    case AMOADD => case AMOSWAP => case LR => case SC => case AMOXOR => case AMOOR => case AMOAND =>
  }

  lemma OrderingBits(ordering: bv2)
    ensures ordering == 0 || ordering == 1 || ordering == 2 || ordering == 3
  {
  }

  lemma AmoFields(k: AmoKind, ordering: bv2, rd: RegIndex, rs1: RegIndex, rs2: RegIndex, w: bv32)
    requires w == FormatR(0x2f, 2, AmoFunct7(k, ordering), rd, rs1, rs2)
    ensures w & 0x7f == 0x2f
    ensures var f := Numbers(Decode(w, TypeR));
      f.funct7 / 4 == AmoNumber(k) && f.rd == Index(rd) && f.rs1 == Index(rs1) && f.rs2 == Index(rs2)
  {
    hide AmoFunct7;
    AmoFunct(k, ordering);
    OpcodeR(0x2f, 2, AmoFunct7(k, ordering), rd, rs1, rs2);
    DecodeFormatR(0x2f, 2, AmoFunct7(k, ordering), rd, rs1, rs2);
    IndexBits(rd);
    IndexBits(rs1);
    IndexBits(rs2);
  }

  lemma CsrBits(f3: bv32, rd: RegIndex, rs1: RegIndex, address: bv12)
    requires 0 < f3 <= 7
    ensures (FormatI(0x73, f3, rd, rs1, address) >> 12) & 7 == f3
  {
  }

  // ----- one family at a time -----

  lemma TranslateLoadEncoded(c: CallInstr, pc: u32, w: bv32)
    requires c.MemoryLoad? && w == FormatI(0x03, LoadFunct3(c.load), c.rd, c.rs1, c.imm12)
    ensures Translate(w, pc) == Some(CallTranslation(c, pc))
  {
    Funct3Numbers(c.load, SB, CSRRW);
    ImmediateFields(0x03, LoadFunct3(c.load), c.rd, c.rs1, c.imm12, w);
    DispatchLoad(w, pc);
    LoadTranslates(c, pc, Numbers(Decode(w, TypeI)), IOffset(Decode(w, TypeI).imm));
  }

  lemma LoadTranslates(c: CallInstr, pc: u32, f: Fields, offset: u32)
    requires c.MemoryLoad? && f.funct3 == LoadNumber(c.load) && f.rd == Index(c.rd) && f.rs1 == Index(c.rs1)
    requires offset == Wrap(Simm12(c.imm12))
    ensures TranslateLoad(f, offset) == Some(CallTranslation(c, pc))
  {
  }

  lemma TranslateStoreEncoded(c: CallInstr, pc: u32, w: bv32)
    requires c.MemoryStore? && w == FormatS(0x23, StoreFunct3(c.store), c.rs1, c.rs2, c.imm12)
    ensures Translate(w, pc) == Some(CallTranslation(c, pc))
  {
    Funct3Numbers(LB, c.store, CSRRW);
    StoreFields(StoreFunct3(c.store), c.rs1, c.rs2, c.imm12, w);
    DispatchStore(w, pc);
    StoreTranslates(c, pc, Numbers(Decode(w, TypeS)), IOffset(Decode(w, TypeS).imm));
  }

  lemma StoreTranslates(c: CallInstr, pc: u32, f: Fields, offset: u32)
    requires c.MemoryStore? && f.funct3 == StoreNumber(c.store) && f.rs1 == Index(c.rs1) && f.rs2 == Index(c.rs2)
    requires offset == Wrap(Simm12(c.imm12))
    ensures TranslateStore(f, offset) == Some(CallTranslation(c, pc))
  {
  }

  lemma TranslateAmoEncoded(c: CallInstr, pc: u32, w: bv32)
    requires c.Amo? && w == FormatR(0x2f, 2, AmoFunct7(c.amo, c.ordering), c.rd, c.rs1, c.rs2)
    ensures Translate(w, pc) == Some(CallTranslation(c, pc))
  {
    hide AmoFunct7;
    AmoFields(c.amo, c.ordering, c.rd, c.rs1, c.rs2, w);
    DispatchAmo(w, pc);
  }

  lemma TranslateCsrEncoded(c: CallInstr, pc: u32, w: bv32)
    requires c.Csr? && w == EncodeCall(c)
    ensures Translate(w, pc) == Some(CallTranslation(c, pc))
  {
    Funct3Numbers(LB, SB, c.csr);
    CsrBits(CsrFunct3(c.csr), c.rd, c.rs1, c.address);
    ImmediateFields(0x73, CsrFunct3(c.csr), c.rd, c.rs1, c.address, w);
    DispatchSystem(w, pc);
    CsrTranslates(c, pc, Numbers(Decode(w, TypeI)), w as int);
  }

  lemma CsrTranslates(c: CallInstr, pc: u32, f: Fields, word: u32)
    requires c.Csr? && f.funct3 == CsrNumber(c.csr) && word == EncodeCall(c) as int
    ensures TranslateCsr(f, word) == Some(CallTranslation(c, pc))
  {
  }

  // The upper seven bits and the second source register of a privileged instruction.
  function PrivilegedNumbers(c: CallInstr): (int, int) {
    match c
    case SfenceVma(_, rs2) => (9, Index(rs2))
    case Ebreak => (0, 1)
    case Wfi => (8, 5)
    case Mret => (0x18, 2)
    case Sret => (8, 2)
    case _ => (0, 0)
  }

  lemma FenceBits(rs1: RegIndex, rs2: RegIndex)
    ensures FormatR(0x73, 0, 0x09, 0, rs1, rs2) & 0x7f == 0x73 && (FormatR(0x73, 0, 0x09, 0, rs1, rs2) >> 12) & 7 == 0
    ensures Decode(FormatR(0x73, 0, 0x09, 0, rs1, rs2), TypeS) == Decoding(0x73, 0, 0, rs1 as bv32, rs2 as bv32, 0, 0x120)
  {
  }

  lemma PrivilegedWords()
    ensures EncodeCall(Ecall) == 0x73 && EncodeCall(Ebreak) == 0x10_0073 && EncodeCall(Wfi) == 0x1050_0073
    ensures EncodeCall(Mret) == 0x3020_0073 && EncodeCall(Sret) == 0x1020_0073 && EncodeCall(FenceI) == 0x100f
  {
  }

  lemma DecodedWords()
    ensures Decode(0x73, TypeS) == Decoding(0x73, 0, 0, 0, 0, 0, 0)
    ensures Decode(0x10_0073, TypeS) == Decoding(0x73, 0, 0, 0, 1, 0, 0)
    ensures Decode(0x1050_0073, TypeS) == Decoding(0x73, 0, 0, 0, 5, 0, 0x100)
    ensures Decode(0x3020_0073, TypeS) == Decoding(0x73, 0, 0, 0, 2, 0, 0x300)
    ensures Decode(0x1020_0073, TypeS) == Decoding(0x73, 0, 0, 0, 2, 0, 0x100)
  {
  }

  lemma NarrowWords(w: bv32)
    requires w == 0x73 || w == 0x10_0073 || w == 0x1050_0073 || w == 0x3020_0073 || w == 0x1020_0073
    ensures w & 0x7f == 0x73 && (w >> 12) & 7 == 0
  {
  }

  lemma FenceFields(c: CallInstr, w: bv32)
    requires c.SfenceVma? && w == EncodeCall(c)
    ensures w & 0x7f == 0x73 && (w >> 12) & 7 == 0
    ensures var f := Numbers(Decode(w, TypeS)); f.imm / 32 == PrivilegedNumbers(c).0 && f.rs2 == PrivilegedNumbers(c).1
  {
    FenceBits(c.rs1, c.rs2);
    IndexBits(c.rs2);
  }

  lemma PrivilegedFields(c: CallInstr, w: bv32)
    requires c.SfenceVma? || c.Ecall? || c.Ebreak? || c.Wfi? || c.Mret? || c.Sret?
    requires w == EncodeCall(c)
    ensures w & 0x7f == 0x73 && (w >> 12) & 7 == 0
    ensures var f := Numbers(Decode(w, TypeS)); f.imm / 32 == PrivilegedNumbers(c).0 && f.rs2 == PrivilegedNumbers(c).1
  {
    hide EncodeCall, Decode;
    if c.SfenceVma? {
      FenceFields(c, w);
    } else {
      PrivilegedWords();
      NarrowWords(w);
      DecodedWords();
    }
  }

  lemma PrivilegedTranslates(c: CallInstr, pc: u32, f: Fields)
    requires c.SfenceVma? || c.Ecall? || c.Ebreak? || c.Wfi? || c.Mret? || c.Sret?
    requires f.imm / 32 == PrivilegedNumbers(c).0 && f.rs2 == PrivilegedNumbers(c).1
    ensures TranslatePrivileged(f, pc) == Some(CallTranslation(c, pc))
  {
  }

  lemma TranslatePrivilegedEncoded(c: CallInstr, pc: u32, w: bv32)
    requires c.SfenceVma? || c.Ecall? || c.Ebreak? || c.Wfi? || c.Mret? || c.Sret?
    requires w == EncodeCall(c)
    ensures Translate(w, pc) == Some(CallTranslation(c, pc))
  {
    hide EncodeCall, Decode, Translate, CallTranslation;
    PrivilegedFields(c, w);
    DispatchSystem(w, pc);
    PrivilegedTranslates(c, pc, Numbers(Decode(w, TypeS)));
  }

  lemma TranslateFenceIEncoded(c: CallInstr, pc: u32, w: bv32)
    requires c.FenceI? && w == EncodeCall(c)
    ensures Translate(w, pc) == Some(CallTranslation(c, pc))
  {
    PrivilegedWords();
    assert w & 0x7f == 0x0f && Decode(w, TypeS).funct3 == 1;
    Dispatch(w, pc);
  }

  /** Each encoded instruction gets its own template and operands, and stops the unit exactly when it must. */
  lemma TranslateCallEncoded(c: CallInstr, pc: u32)
    ensures Translate(EncodeCall(c), pc) == Some(CallTranslation(c, pc))
  {
    hide Translate, CallTranslation;
    var w := EncodeCall(c);
    match c
    case MemoryLoad(_, _, _, _) => TranslateLoadEncoded(c, pc, w);
    case MemoryStore(_, _, _, _) => TranslateStoreEncoded(c, pc, w);
    case Amo(_, _, _, _, _) => TranslateAmoEncoded(c, pc, w);
    case Csr(_, _, _, _) => TranslateCsrEncoded(c, pc, w);
    case FenceI => TranslateFenceIEncoded(c, pc, w);
    case _ => TranslatePrivilegedEncoded(c, pc, w);
  }
}
