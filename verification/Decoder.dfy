/**
 Instruction decoding: the shift-and-mask extraction of every format, and the
 sign extension its callers apply.  Words are bit-vectors here.
 */
module Decoder {
  import opened Words
  import opened Rv32

  datatype Encoding = TypeU | TypeUJ | TypeI | TypeS | TypeB | TypeR

  // Fields a format does not have stay zero.
  datatype Decoding = Decoding(opcode: bv32, funct3: bv32, rd: bv32, rs1: bv32, rs2: bv32, funct7: bv32, imm: bv32)

  // The layout of each format, field by field.
  function Decode(w: bv32, e: Encoding): Decoding {
    var op, rd, f3 := w & 0x7f, (w >> 7) & 0x1f, (w >> 12) & 7;
    var rs1, rs2, f7 := (w >> 15) & 0x1f, (w >> 20) & 0x1f, (w >> 25) & 0x7f;
    match e
    case TypeU => Decoding(op, 0, rd, 0, 0, 0, (w >> 12) & 0xfffff)
    case TypeUJ => Decoding(op, 0, rd, 0, 0, 0,
      ((w >> 21) & 0x3ff) | (((w >> 20) & 1) << 10) | (((w >> 12) & 0xff) << 11) | (((w >> 31) & 1) << 19))
    case TypeI => Decoding(op, f3, rd, rs1, 0, 0, (w >> 20) & 0xfff)
    case TypeS => Decoding(op, f3, 0, rs1, rs2, 0, ((w >> 7) & 0x1f) | (f7 << 5))
    case TypeB => Decoding(op, f3, 0, rs1, rs2, 0,
      ((w >> 8) & 0xf) | (((w >> 25) & 0x3f) << 4) | (((w >> 7) & 1) << 10) | (((w >> 31) & 1) << 11))
    case TypeR => Decoding(op, f3, rd, rs1, rs2, f7, 0)
  }

  // The split immediates, or-ed together part by part.

  method JumpImmediate(w: bv32) returns (imm: bv32)
    ensures imm == Decode(w, TypeUJ).imm
  {
    imm := (w >> 21) & 0x3ff;
    imm := imm | (((w >> 20) & 0x1) << 10);
    imm := imm | (((w >> 12) & 0xff) << 11);
    imm := imm | (((w >> 31) & 0x1) << 19);
  }

  method StoreImmediate(w: bv32) returns (imm: bv32)
    ensures imm == Decode(w, TypeS).imm
  {
    imm := (w >> 7) & 0x1f;
    imm := imm | (((w >> 25) & 0x7f) << 5);
  }

  method BranchImmediate(w: bv32) returns (imm: bv32)
    ensures imm == Decode(w, TypeB).imm
  {
    imm := (w >> 8) & 0xf;
    imm := imm | (((w >> 25) & 0x3f) << 4);
    imm := imm | (((w >> 7) & 0x1) << 10);
    imm := imm | (((w >> 31) & 0x1) << 11);
  }

  method InstructionDecodingPerType(w: bv32, e: Encoding) returns (dec: Decoding)
    ensures dec == Decode(w, e)
  {
    dec := Decoding(w & 0x7f, 0, 0, 0, 0, 0, 0);
    match e {
      case TypeU =>
        dec := dec.(rd := (w >> 7) & 0x1f, imm := (w >> 12) & 0xfffff);
      case TypeUJ =>
        var imm := JumpImmediate(w);
        dec := dec.(rd := (w >> 7) & 0x1f, imm := imm);
      case TypeI =>
        dec := dec.(rd := (w >> 7) & 0x1f, funct3 := (w >> 12) & 7, rs1 := (w >> 15) & 0x1f);
        dec := dec.(imm := (w >> 20) & 0xfff);
      case TypeS =>
        var imm := StoreImmediate(w);
        dec := dec.(funct3 := (w >> 12) & 7, rs1 := (w >> 15) & 0x1f, rs2 := (w >> 20) & 0x1f, imm := imm);
      case TypeB =>
        var imm := BranchImmediate(w);
        dec := dec.(funct3 := (w >> 12) & 7, rs1 := (w >> 15) & 0x1f, rs2 := (w >> 20) & 0x1f, imm := imm);
      case TypeR =>
        dec := dec.(funct3 := (w >> 12) & 7, rd := (w >> 7) & 0x1f, rs1 := (w >> 15) & 0x1f);
        dec := dec.(rs2 := (w >> 20) & 0x1f, funct7 := (w >> 25) & 0x7f);
    }
  }

  // The bits from `low` up to but not including `high`.
  function Mask(low: bv6, high: bv6): bv32
    requires low <= high <= 32
  {
    (0xffff_ffff << low) & !(0xffff_ffff << high)
  }

  // The sign bit copied over the bits from `low` up to `high`.
  function Filled(data: bv32, low: bv6, high: bv6): bv32
    requires low <= high <= 32 && low <= 31
  {
    if (data >> low) & 1 == 1 then data | Mask(low, high) else data
  }

  // Replicating the sign bit all the way up.
  function SignExtend(data: bv32, bit: bv6): bv32
    requires bit <= 31
  {
    Filled(data, bit, 32)
  }

  lemma MaskGrows(low: bv6, position: bv6)
    requires low <= position <= 31
    ensures Mask(low, position) | (1 << position) == Mask(low, position + 1)
  {
    var all: bv32 := 0xffff_ffff;
    var one: bv32 := 1;
    assert all << position == (all << (position + 1)) | (one << position);
    assert (all << low) & (one << position) == one << position;
    assert (all << (position + 1)) & (one << position) == 0;
  }

  lemma OrAssociates(a: bv32, b: bv32, c: bv32)
    ensures (a | b) | c == a | (b | c)
  {
  }

  lemma SignCases(sign: bv32, position: bv6)
    requires sign == sign & 1 && position <= 31
    ensures sign == 0 || sign == 1
    ensures sign == 0 ==> sign << position == 0
    ensures sign == 1 ==> sign << position == 1 << position
  {
  }

  lemma FilledGrows(data: bv32, low: bv6, position: bv6)
    requires low <= position <= 31
    ensures Filled(data, low, position) | (((data >> low) & 1) << position) == Filled(data, low, position + 1)
  {
    SignCases((data >> low) & 1, position);
    MaskGrows(low, position);
    OrAssociates(data, Mask(low, position), 1 << position);
  }

  lemma FilledStarts(data: bv32, low: bv6)
    requires low <= 31
    ensures Filled(data, low, low) == data
  {
    assert Mask(low, low) == 0;
  }

  // The loop body: set one more bit of `ret` to the sign.
  method OrSign(ret: bv32, data: bv32, signBit: bv6, position: bv6) returns (next: bv32)
    requires signBit <= position <= 31
    requires ret == Filled(data, signBit, position)
    ensures next == Filled(data, signBit, position + 1)
  {
    next := ret | (((data >> signBit) & 1) << position);
    FilledGrows(data, signBit, position);
  }

  method SignExtend32(data: bv32, signBit: bv6) returns (ret: bv32)
    requires signBit <= 31
    ensures ret == SignExtend(data, signBit)
  {
    ret := data;
    var position := signBit;
    FilledStarts(data, signBit);
    while position <= 31
      invariant signBit <= position <= 32
      invariant ret == Filled(data, signBit, position)
      decreases 32 - position
    {
      ret := OrSign(ret, data, signBit, position);
      position := position + 1;
    }
  }

  // ----- decoding inverts encoding -----

  lemma DecodeFormatU(op: bv32, rd: RegIndex, imm: bv20)
    requires op <= 0x7f
    ensures Decode(FormatU(op, rd, imm), TypeU) == Decoding(op, 0, rd as bv32, 0, 0, 0, imm as bv32)
  {
  }

  lemma DecodeFormatJ(op: bv32, rd: RegIndex, half: bv20)
    requires op <= 0x7f
    ensures Decode(FormatJ(op, rd, half), TypeUJ) == Decoding(op, 0, rd as bv32, 0, 0, 0, half as bv32)
  {
  }

  lemma DecodeFormatI(op: bv32, f3: bv32, rd: RegIndex, rs1: RegIndex, imm: bv12)
    requires op <= 0x7f && f3 <= 7
    ensures Decode(FormatI(op, f3, rd, rs1, imm), TypeI) == Decoding(op, f3, rd as bv32, rs1 as bv32, 0, 0, imm as bv32)
  {
  }

  lemma DecodeFormatS(op: bv32, f3: bv32, rs1: RegIndex, rs2: RegIndex, imm: bv12)
    requires op <= 0x7f && f3 <= 7
    ensures Decode(FormatS(op, f3, rs1, rs2, imm), TypeS) == Decoding(op, f3, 0, rs1 as bv32, rs2 as bv32, 0, imm as bv32)
  {
  }

  lemma DecodeFormatB(op: bv32, f3: bv32, rs1: RegIndex, rs2: RegIndex, half: bv12)
    requires op <= 0x7f && f3 <= 7
    ensures Decode(FormatB(op, f3, rs1, rs2, half), TypeB) == Decoding(op, f3, 0, rs1 as bv32, rs2 as bv32, 0, half as bv32)
  {
  }

  lemma DecodeFormatR(op: bv32, f3: bv32, f7: bv32, rd: RegIndex, rs1: RegIndex, rs2: RegIndex)
    requires op <= 0x7f && f3 <= 7 && f7 <= 0x7f
    ensures Decode(FormatR(op, f3, f7, rd, rs1, rs2), TypeR) ==
      Decoding(op, f3, rd as bv32, rs1 as bv32, rs2 as bv32, f7, 0)
  {
  }

  lemma ExtendedBits(i: bv12, j: bv20)
    ensures SignExtend(i as bv32, 11) == if i < 0x800 then i as bv32 else (i as bv32) + 0xffff_f000
    ensures SignExtend((i as bv32) << 1, 12) == if i < 0x800 then (i as bv32) << 1 else ((i as bv32) << 1) + 0xffff_e000
    ensures SignExtend((j as bv32) << 1, 20) == if j < 0x8_0000 then (j as bv32) << 1 else ((j as bv32) << 1) + 0xffe0_0000
  {
  }

  lemma Value12(i: bv12)
    ensures i < 0x800 <==> i as int < 0x800
    ensures (i as bv32) as int == i as int && ((i as bv32) << 1) as int == 2 * (i as int)
    ensures i >= 0x800 ==> ((i as bv32) + 0xffff_f000) as int == i as int + 0xffff_f000
    ensures i >= 0x800 ==> (((i as bv32) << 1) + 0xffff_e000) as int == 2 * (i as int) + 0xffff_e000
  {
  }

  lemma Value20(j: bv20)
    ensures j < 0x8_0000 <==> j as int < 0x8_0000
    ensures ((j as bv32) << 1) as int == 2 * (j as int)
    ensures j >= 0x8_0000 ==> (((j as bv32) << 1) + 0xffe0_0000) as int == 2 * (j as int) + 0xffe0_0000
  {
  }

  lemma WrapOfSmall(x: int)
    requires -TWO32 <= x < TWO32
    ensures Wrap(x) == if x >= 0 then x else x + TWO32
  {
  }

  /** With the callers' shifts and sign bits, the extended immediate is the signed offset modulo 2^32. */
  lemma SignedOffsets(i: bv12, j: bv20)
    ensures SignExtend(i as bv32, 11) as int == Wrap(Simm12(i))
    ensures SignExtend((i as bv32) << 1, 12) as int == Wrap(2 * Simm12(i))
    ensures SignExtend((j as bv32) << 1, 20) as int == Wrap(2 * Simm20(j))
  {
    ExtendedBits(i, j);
    Value12(i);
    Value20(j);
    WrapOfSmall(Simm12(i));
    WrapOfSmall(2 * Simm12(i));
    WrapOfSmall(2 * Simm20(j));
  }
}
