/**
 The instructions whose blocks call back into the vmm: loads, stores, atomics, csr
 accesses, fences and the privileged instructions, with their encodings.
 */
module Rv32System {
  import opened Words
  import opened Rv32

  datatype LoadKind = LB | LH | LW | LBU | LHU
  datatype StoreKind = SB | SH | SW
  datatype AmoKind = AMOADD | AMOSWAP | LR | SC | AMOXOR | AMOOR | AMOAND
  datatype CsrKind = CSRRW | CSRRS | CSRRC | CSRRWI | CSRRSI | CSRRCI

  // The source register field of a csr instruction holds a register or, in the immediate forms, a number.
  datatype CallInstr =
    | MemoryLoad(load: LoadKind, rd: RegIndex, rs1: RegIndex, imm12: bv12)
    | MemoryStore(store: StoreKind, rs1: RegIndex, rs2: RegIndex, imm12: bv12)
    | Amo(amo: AmoKind, ordering: bv2, rd: RegIndex, rs1: RegIndex, rs2: RegIndex)
    | Csr(csr: CsrKind, rd: RegIndex, rs1: RegIndex, address: bv12)
    | SfenceVma(rs1: RegIndex, rs2: RegIndex)
    | FenceI | Ecall | Ebreak | Wfi | Mret | Sret

  // ----- encoding (chapter 24 of the unprivileged and section 3.3 of the privileged specification) -----

  function LoadFunct3(k: LoadKind): bv32 {
    match k
    case LB => 0
    case LH => 1
    case LW => 2
    case LBU => 4
    case LHU => 5
  }

  function StoreFunct3(k: StoreKind): bv32 {
    match k
    case SB => 0
    case SH => 1
    case SW => 2
  }

  function AmoFunct5(k: AmoKind): bv32 {
    match k
    case AMOADD => 0
    case AMOSWAP => 1
    case LR => 2
    case SC => 3
    case AMOXOR => 4
    case AMOOR => 8
    case AMOAND => 12
  }

  function CsrFunct3(k: CsrKind): bv32 {
    match k
    case CSRRW => 1
    case CSRRS => 2
    case CSRRC => 3
    case CSRRWI => 5
    case CSRRSI => 6
    case CSRRCI => 7
  }

  // The acquire and release bits are below the function code.
  function AmoFunct7(k: AmoKind, ordering: bv2): bv32 {
    (AmoFunct5(k) << 2) | (ordering as bv32)
  }

  function EncodeCall(c: CallInstr): bv32 {
    match c
    case MemoryLoad(k, rd, rs1, imm) => FormatI(0x03, LoadFunct3(k), rd, rs1, imm)
    case MemoryStore(k, rs1, rs2, imm) => FormatS(0x23, StoreFunct3(k), rs1, rs2, imm)
    case Amo(k, ordering, rd, rs1, rs2) => FormatR(0x2f, 2, AmoFunct7(k, ordering), rd, rs1, rs2)
    case Csr(k, rd, rs1, address) => FormatI(0x73, CsrFunct3(k), rd, rs1, address)
    case SfenceVma(rs1, rs2) => FormatR(0x73, 0, 0x09, 0, rs1, rs2)
    case FenceI => FormatI(0x0f, 1, 0, 0, 0)
    case Ecall => FormatI(0x73, 0, 0, 0, 0)
    case Ebreak => FormatI(0x73, 0, 0, 0, 1)
    case Wfi => FormatI(0x73, 0, 0, 0, 0x105)
    case Mret => FormatI(0x73, 0, 0, 0, 0x302)
    case Sret => FormatI(0x73, 0, 0, 0, 0x102)
  }

  // Memory accesses and ebreak go on to the next instruction; everything else returns to the vmm.
  predicate CallEndsUnit(c: CallInstr) {
    !(c.MemoryLoad? || c.MemoryStore? || c.Amo? || c.Ebreak?)
  }

  // ----- memory operands -----

  // What a load makes of a word whose low bits are the memory operand (section 2.6).
  function LoadValue(k: LoadKind, v: u32): u32 {
    match k
    case LB => var b := v % 0x100; if b < 0x80 then b else b + 0xffff_ff00
    case LH => var b := v % 0x1_0000; if b < 0x8000 then b else b + 0xffff_0000
    case LW => v
    case LBU => v % 0x100
    case LHU => v % 0x1_0000
  }

  function StoreValue(k: StoreKind, v: u32): u32 {
    match k
    case SB => v % 0x100
    case SH => v % 0x1_0000
    case SW => v
  }
}
