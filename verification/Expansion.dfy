/** The 16-bit instructions as abbreviations of 32-bit ones (chapter 16 of the unprivileged ISA, 20191213). */
module Expansion {
  import opened Standard

  // ----- Instruction words from their fields -----

  function IWord(imm: bv12, rs1: bv5, f3: bv3, rd: bv5, op: bv7): bv32 {
    (imm as bv32 << 20) | (rs1 as bv32 << 15) | (f3 as bv32 << 12) | (rd as bv32 << 7) | op as bv32
  }

  function RWord(f7: bv7, rs2: bv5, rs1: bv5, f3: bv3, rd: bv5, op: bv7): bv32 {
    (f7 as bv32 << 25) | (rs2 as bv32 << 20) | (rs1 as bv32 << 15) | (f3 as bv32 << 12) | (rd as bv32 << 7) | op as bv32
  }

  function SWord(imm: bv12, rs2: bv5, rs1: bv5, f3: bv3, op: bv7): bv32 {
    ((imm >> 5) as bv32 << 25) | (rs2 as bv32 << 20) | (rs1 as bv32 << 15) | (f3 as bv32 << 12)
    | ((imm & 0x1F) as bv32 << 7) | op as bv32
  }

  /** A branch; bit 0 of the offset is not encoded. */
  function BWord(imm: bv13, rs2: bv5, rs1: bv5, f3: bv3, op: bv7): bv32 {
    (((imm >> 12) & 1) as bv32 << 31) | (((imm >> 5) & 0x3F) as bv32 << 25) | (rs2 as bv32 << 20) | (rs1 as bv32 << 15)
    | (f3 as bv32 << 12) | (((imm >> 1) & 0xF) as bv32 << 8) | (((imm >> 11) & 1) as bv32 << 7) | op as bv32
  }

  function UWord(imm: bv20, rd: bv5, op: bv7): bv32 {
    (imm as bv32 << 12) | (rd as bv32 << 7) | op as bv32
  }

  function JWord(imm: bv21, rd: bv5, op: bv7): bv32 {
    (((imm >> 20) & 1) as bv32 << 31) | (((imm >> 1) & 0x3FF) as bv32 << 21) | (((imm >> 11) & 1) as bv32 << 20)
    | (((imm >> 12) & 0xFF) as bv32 << 12) | (rd as bv32 << 7) | op as bv32
  }

  lemma IFields(imm: bv12, rs1: bv5, f3: bv3, rd: bv5, op: bv7)
    ensures var w := IWord(imm, rs1, f3, rd, op);
      Opcode(w) == op && Rd(w) == rd && Funct3(w) == f3 && Rs1(w) == rs1 && Imm12(w) == imm
  {
  }

  function Sext12(x: bv12): bv64 { Sext(x & 0x800 != 0, 0xFFFF_FFFF_FFFF_F800, (x & 0x7FF) as bv64) }

  function Sext13(x: bv13): bv64 { Sext(x & 0x1000 != 0, 0xFFFF_FFFF_FFFF_F000, (x & 0xFFF) as bv64) }

  /** An upper immediate in place: bits 31 to 12 of a sign-extended word. */
  function Upper(x: bv20): bv64 { Sext(x & 0x8_0000 != 0, 0xFFFF_FFFF_0000_0000, (x as bv64) << 12) }

  function Sext21(x: bv21): bv64 { Sext(x & 0x10_0000 != 0, 0xFFFF_FFFF_FFF0_0000, (x & 0xF_FFFF) as bv64) }

  lemma ILow(imm: bv12, rs1: bv5, f3: bv3, rd: bv5, op: bv7)
    ensures var w := IWord(imm, rs1, f3, rd, op); Negative(w) == (imm & 0x800 != 0) && LowI(w) == (imm & 0x7FF) as bv64
  {
  }

  lemma IValue(imm: bv12, rs1: bv5, f3: bv3, rd: bv5, op: bv7)
    ensures ImmI(IWord(imm, rs1, f3, rd, op)) == Sext12(imm)
  {
    hide IWord, LowI, Negative, Sext;
    ILow(imm, rs1, f3, rd, op);
  }

  lemma RFields(f7: bv7, rs2: bv5, rs1: bv5, f3: bv3, rd: bv5, op: bv7)
    ensures var w := RWord(f7, rs2, rs1, f3, rd, op);
      Opcode(w) == op && Rd(w) == rd && Funct3(w) == f3 && Rs1(w) == rs1 && Rs2(w) == rs2 && Funct7(w) == f7
  {
  }

  lemma SFields(imm: bv12, rs2: bv5, rs1: bv5, f3: bv3, op: bv7)
    ensures var w := SWord(imm, rs2, rs1, f3, op);
      Opcode(w) == op && Funct3(w) == f3 && Rs1(w) == rs1 && Rs2(w) == rs2
  {
  }

  lemma SLow(imm: bv12, rs2: bv5, rs1: bv5, f3: bv3, op: bv7)
    ensures var w := SWord(imm, rs2, rs1, f3, op); Negative(w) == (imm & 0x800 != 0) && LowS(w) == (imm & 0x7FF) as bv64
  {
  }

  lemma SValue(imm: bv12, rs2: bv5, rs1: bv5, f3: bv3, op: bv7)
    ensures ImmS(SWord(imm, rs2, rs1, f3, op)) == Sext12(imm)
  {
    hide SWord, LowS, Negative, Sext;
    SLow(imm, rs2, rs1, f3, op);
  }

  lemma BFields(imm: bv13, rs2: bv5, rs1: bv5, f3: bv3, op: bv7)
    ensures var w := BWord(imm, rs2, rs1, f3, op);
      Opcode(w) == op && Funct3(w) == f3 && Rs1(w) == rs1 && Rs2(w) == rs2
  {
  }

  lemma BLow(imm: bv13, rs2: bv5, rs1: bv5, f3: bv3, op: bv7)
    requires imm & 1 == 0
    ensures var w := BWord(imm, rs2, rs1, f3, op);
      Negative(w) == (imm & 0x1000 != 0) && LowB(w) == (imm & 0xFFF) as bv64
  {
  }

  lemma BValue(imm: bv13, rs2: bv5, rs1: bv5, f3: bv3, op: bv7)
    requires imm & 1 == 0
    ensures ImmB(BWord(imm, rs2, rs1, f3, op)) == Sext13(imm)
  {
    hide BWord, LowB, Negative, Sext;
    BLow(imm, rs2, rs1, f3, op);
  }

  lemma UFields(imm: bv20, rd: bv5, op: bv7)
    ensures var w := UWord(imm, rd, op); Opcode(w) == op && Rd(w) == rd
  {
  }

  lemma ULow(imm: bv20, rd: bv5, op: bv7)
    ensures var w := UWord(imm, rd, op); Negative(w) == (imm & 0x8_0000 != 0) && LowU(w) == (imm as bv64) << 12
  {
  }

  lemma UValue(imm: bv20, rd: bv5, op: bv7)
    ensures ImmU(UWord(imm, rd, op)) == Upper(imm)
  {
    hide UWord, LowU, Negative, Sext;
    ULow(imm, rd, op);
  }

  lemma JFields(imm: bv21, rd: bv5, op: bv7)
    ensures var w := JWord(imm, rd, op); Opcode(w) == op && Rd(w) == rd
  {
  }

  lemma JLow(imm: bv21, rd: bv5, op: bv7)
    requires imm & 1 == 0
    ensures var w := JWord(imm, rd, op); Negative(w) == (imm & 0x10_0000 != 0) && LowJ(w) == (imm & 0xF_FFFF) as bv64
  {
  }

  lemma JValue(imm: bv21, rd: bv5, op: bv7)
    requires imm & 1 == 0
    ensures ImmJ(JWord(imm, rd, op)) == Sext21(imm)
  {
    hide JWord, LowJ, Negative, Sext;
    JLow(imm, rd, op);
  }
}
