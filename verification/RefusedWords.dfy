/** The words that no instruction is assigned to, by their bits. */
module RefusedWords {
  import opened Words
  import opened HartState
  import opened Standard
  import opened InstructionMeaning
  import opened ControlMeaning
  import C = CarryLess
  import BM = BitManipulation
  import PT = PageTable

  /** The register operations on 64 bits: the base set, multiplication, and bit manipulation. */
  predicate Register64(m: bv32) {
    || m & 0xFE00_007F == 0x0000_0033 || m & 0xFE00_007F == 0x0200_0033
    || m == 0x4000_0033 || m == 0x4000_5033
    || m == 0x4000_4033 || m == 0x4000_6033 || m == 0x4000_7033
    || m == 0x0A00_1033 || m == 0x0A00_2033 || m == 0x0A00_3033 || m == 0x0A00_4033 || m == 0x0A00_5033
    || m == 0x0A00_6033 || m == 0x0A00_7033
    || m == 0x6000_1033 || m == 0x6000_5033
    || m == 0x2000_2033 || m == 0x2000_4033 || m == 0x2000_6033
    || m == 0x4800_1033 || m == 0x4800_5033 || m == 0x6800_1033 || m == 0x2800_1033
  }

  /** The register operations on 32 bits. */
  predicate Register32(m: bv32) {
    || m == 0x0000_003B || m == 0x4000_003B || m == 0x0000_103B || m == 0x0000_503B || m == 0x4000_503B
    || m == 0x0200_003B || m == 0x0200_403B || m == 0x0200_503B || m == 0x0200_603B || m == 0x0200_703B
    || m == 0x6000_103B || m == 0x6000_503B
    || m == 0x0800_003B || m == 0x2000_203B || m == 0x2000_403B || m == 0x2000_603B
  }

  /** The immediate operations on 32 bits: three kinds, less two codes. */
  predicate Immediate32(i: bv32) {
    || i & 0x707F == 0x001B || i & 0x707F == 0x101B
    || (i & 0x707F == 0x501B && i & 0xFFF0_0000 != 0x6040_0000 && i & 0xFFF0_0000 != 0x6050_0000)
  }

  /** The codes by their two fields. */
  predicate Assigned64(f7: bv7, f3: bv3) {
    || f7 == 0 || f7 == 0x01 || (f7 == 0x20 && (f3 == 0 || f3 == 4 || f3 == 5 || f3 == 6 || f3 == 7))
    || (f7 == 0x05 && f3 != 0) || (f7 == 0x30 && (f3 == 1 || f3 == 5))
    || (f7 == 0x10 && (f3 == 2 || f3 == 4 || f3 == 6))
    || (f7 == 0x24 && (f3 == 1 || f3 == 5)) || (f7 == 0x34 && f3 == 1) || (f7 == 0x14 && f3 == 1)
  }

  lemma AssignedB(f7: bv7, f3: bv3, x: bv64, y: bv64)
    requires f7 != 0 && f7 != 0x01 && !(f7 == 0x20 && (f3 == 0 || f3 == 5))
    ensures AluB(f7, f3, x, y).Some? <==> Assigned64(f7, f3)
  {
    hide C.Product, C.Middle, Smaller, Larger, BM.RotateL, BM.RotateR, BM.ShiftAdd, BM.ClearBit, BM.ExtractBit,
         BM.XorNot, BM.OrNot, BM.AndNot, BM.InvertBit, BM.SetBit, Shamt;
  }

  lemma Alu64Assigned(m: bv32, f7: bv7, f3: bv3, x: bv64, y: bv64)
    requires f7 == (m >> 25) as bv7 && f3 == ((m >> 12) & 0x7) as bv3 && m & 0x7F == 0x33 && m & R_MASK == m
    ensures Alu(f7, f3, x, y).Some? <==> Register64(m)
  {
    Codes64(m, f7, f3);
    hide Register64, Plus, C.ShiftLeft, Less, C.Xor, C.ShiftRight, Or, And, Minus, Sra, AluM, Flag, Shamt, AluB;
    if f7 != 0 && f7 != 0x01 && !(f7 == 0x20 && (f3 == 0 || f3 == 5)) {
      AssignedB(f7, f3, x, y);
    }
  }

  lemma Codes64(m: bv32, f7: bv7, f3: bv3)
    requires f7 == (m >> 25) as bv7 && f3 == ((m >> 12) & 0x7) as bv3 && m & 0x7F == 0x33 && m & R_MASK == m
    ensures Register64(m) <==> Assigned64(f7, f3)
  {
  }

  predicate Assigned32(f7: bv7, f3: bv3) {
    || (f7 == 0 && (f3 == 0 || f3 == 1 || f3 == 5)) || (f7 == 0x20 && (f3 == 0 || f3 == 5))
    || (f7 == 0x01 && (f3 == 0 || f3 >= 4)) || (f7 == 0x30 && (f3 == 1 || f3 == 5)) || (f7 == 0x04 && f3 == 0)
    || (f7 == 0x10 && (f3 == 2 || f3 == 4 || f3 == 6))
  }

  lemma Codes32(m: bv32, f7: bv7, f3: bv3)
    requires f7 == (m >> 25) as bv7 && f3 == ((m >> 12) & 0x7) as bv3 && m & 0x7F == 0x3B && m & R_MASK == m
    ensures Register32(m) <==> Assigned32(f7, f3)
  {
  }

  lemma Alu32Assigned(m: bv32, f7: bv7, f3: bv3, x: bv64, y: bv64)
    requires f7 == (m >> 25) as bv7 && f3 == ((m >> 12) & 0x7) as bv3 && m & 0x7F == 0x3B && m & R_MASK == m
    ensures AluW(f7, f3, x, y).Some? <==> Register32(m)
  {
    Codes32(m, f7, f3);
    hide Register32, Plus, Widen, Low32, Add32, Sub32, ShiftLeft32, ShiftRight32, Sra32, BM.RotateL32, BM.RotateR32,
         ZeroExtend, BM.ShiftAdd, BM.MulLow, BM.Div, BM.DivU, BM.Rem, BM.RemU, Shamt32;
  }

  lemma Immediate32Codes(i: bv32)
    requires i & 0x7F == 0x1B
    ensures Opcode(i) == 0x1B
    ensures Immediate32(i) <==>
            (Funct3(i) == 0 || Funct3(i) == 1 || (Funct3(i) == 5 && Imm12(i) != 0x604 && Imm12(i) != 0x605))
  {
  }

  lemma Immediate32Assigned(i: bv32, x: bv64, imm: bv64)
    requires i & 0x7F == 0x1B
    ensures AluImmW(i, Funct3(i), x, imm).Some? <==> Immediate32(i)
  {
    Immediate32Codes(i);
    hide Immediate32, Funct3, Imm12, Funct7, Widen, Low32, Add32, ShiftLeft32, ShiftRight32, Sra32, BM.RotateR32,
         ZeroExtend, BM.LeadingZeros, BM.TrailingZeros, BM.Population, BM.Count, C.ShiftLeft, Shamt, Shamt32;
  }

  lemma RegisterMasks(i: bv32)
    ensures (i & R_MASK) & R_MASK == i & R_MASK && (i & R_MASK) & 0x7F == i & 0x7F
    ensures i & 0x7F == 0x33 ==> Opcode(i) == 0x33
    ensures i & 0x7F == 0x3B ==> Opcode(i) == 0x3B
  {
  }

  /** The three opcodes with gaps: a word is illegal exactly when its code is not assigned, and otherwise completes. */
  lemma ComputationRefusedIff(h: Hart, i: bv32, len: bv64, o: Oracle)
    requires i & 0x7F == 0x33 || i & 0x7F == 0x3B || i & 0x7F == 0x1B
    ensures var out := Execute(h, i, len, o);
      var legal :=
        if i & 0x7F == 0x33 then Register64(i & R_MASK)
        else if i & 0x7F == 0x3B then Register32(i & R_MASK)
        else Immediate32(i);
      if legal then out.Next? else out == Raise(h, Exc(PT.IllegalInstruction), i as bv64)
  {
    RegisterMasks(i);
    MaskedFields(i);
    hide Execute, Opcode, Funct3, Funct7, Rd, Rs1, Rs2, X, ImmI, Alu, AluW, AluImmW, Register64, Register32,
         Immediate32, Plus, SetX;
    var x, y := X(h, Rs1(i)), X(h, Rs2(i));
    ExecuteRegister(h, i, len, o);
    ExecuteImmediate(h, i, len, o);
    if i & 0x7F == 0x33 {
      Alu64Assigned(i & R_MASK, Funct7(i), Funct3(i), x, y);
    } else if i & 0x7F == 0x3B {
      Alu32Assigned(i & R_MASK, Funct7(i), Funct3(i), x, y);
    } else {
      Immediate32Codes(i);
      Immediate32Assigned(i, x, ImmI(i));
    }
  }

  /** The opcodes that the machine knows. */
  predicate Known(op: bv32) {
    || op == 0x37 || op == 0x17 || op == 0x6F || op == 0x67 || op == 0x63 || op == 0x03 || op == 0x07 || op == 0x23
    || op == 0x27 || op == 0x13 || op == 0x33 || op == 0x1B || op == 0x3B || op == 0x0F || op == 0x2F || op == 0x73
    || op == 0x53 || op == 0x43 || op == 0x47 || op == 0x4B || op == 0x4F
  }

  lemma UnknownOpcode(i: bv32)
    requires !Known(i & 0x7F)
    ensures var op := Opcode(i);
      && op != 0x37 && op != 0x17 && op != 0x6F && op != 0x67 && op != 0x63 && op != 0x03 && op != 0x07 && op != 0x23
      && op != 0x27 && op != 0x13 && op != 0x33 && op != 0x1B && op != 0x3B && op != 0x0F && op != 0x2F && op != 0x73
      && op != 0x53 && op != 0x43 && op != 0x47 && op != 0x4B && op != 0x4F
  {
  }

  /** Loads with kind 7, stores with a kind from 4 on, and every word of an unknown opcode are illegal. */
  lemma GapsRefused(h: Hart, i: bv32, len: bv64, o: Oracle)
    requires i & 0x707F == 0x7003 || i & 0x407F == 0x4023 || !Known(i & 0x7F)
    ensures Execute(h, i, len, o) == Raise(h, Exc(PT.IllegalInstruction), i as bv64)
  {
    GapCodes(i);
    if !Known(i & 0x7F) {
      UnknownOpcode(i);
    }
    hide Opcode, Funct3, ImmU, ImmJ, ImmI, ImmS, Plus, Even, Jump, Branch, FLoad, FStore, AluImm, Alu, AluImmW, AluW,
         MiscMem, Atomic, System, OrIllegal, Write1, X, Rd, Rs1, Rs2, Funct7, FloatingPoint, LoadX, StoreV, Known,
         WidthOf;
  }

  lemma GapCodes(i: bv32)
    ensures i & 0x707F == 0x7003 ==> Opcode(i) == 0x03 && Funct3(i) == 7
    ensures i & 0x407F == 0x4023 ==> Opcode(i) == 0x23 && Funct3(i) >= 4
  {
  }
}
