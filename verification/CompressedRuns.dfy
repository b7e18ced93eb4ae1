/** What the words of the expansion do when executed, and where a 16-bit instruction does otherwise. */
module CompressedRuns {
  import opened Words
  import opened HartState
  import opened Traps
  import opened Standard
  import opened Expansion
  import opened Compressed
  import opened CarryLess
  import PT = PageTable

  // ----- One lemma per format -----

  lemma RunLoad(h: Hart, imm: bv12, rs1: bv5, f3: bv3, rd: bv5, len: bv64, o: Oracle)
    requires f3 != 7
    ensures Execute(h, IWord(imm, rs1, f3, rd, 0x03), len, o) == LoadX(h, f3, rd, Plus(X(h, rs1), Sext12(imm)), len)
  {
    hide Plus, IWord, Opcode, Rd, Funct3, Rs1, ImmI, Sext12, X, LoadX, Imm12;
    IFields(imm, rs1, f3, rd, 0x03);
    IValue(imm, rs1, f3, rd, 0x03);
  }

  lemma RunFLoad(h: Hart, imm: bv12, rs1: bv5, f3: bv3, rd: bv5, len: bv64, o: Oracle)
    requires f3 == 2 || f3 == 3
    ensures Execute(h, IWord(imm, rs1, f3, rd, 0x07), len, o) == LoadF(h, f3, rd, Plus(X(h, rs1), Sext12(imm)), len)
  {
    hide Plus, IWord, Opcode, Rd, Funct3, Rs1, ImmI, Sext12, X, LoadF, Imm12;
    IFields(imm, rs1, f3, rd, 0x07);
    IValue(imm, rs1, f3, rd, 0x07);
  }

  lemma RunStore(h: Hart, imm: bv12, rs2: bv5, rs1: bv5, f3: bv3, len: bv64, o: Oracle)
    requires f3 < 4
    ensures Execute(h, SWord(imm, rs2, rs1, f3, 0x23), len, o)
            == StoreV(h, Plus(X(h, rs1), Sext12(imm)), X(h, rs2), WidthOf(f3), len)
  {
    hide Plus, SWord, Opcode, Rd, Funct3, Rs1, Rs2, ImmS, Sext12, X, StoreV, WidthOf;
    SFields(imm, rs2, rs1, f3, 0x23);
    SValue(imm, rs2, rs1, f3, 0x23);
  }

  lemma RunFStore(h: Hart, imm: bv12, rs2: bv5, rs1: bv5, len: bv64, o: Oracle)
    ensures Execute(h, SWord(imm, rs2, rs1, 3, 0x27), len, o) ==
            StoreV(h, Plus(X(h, rs1), Sext12(imm)), F(h, rs2), 8, len)
  {
    hide Plus, SWord, Opcode, Rd, Funct3, Rs1, Rs2, ImmS, Sext12, X, F, StoreV;
    SFields(imm, rs2, rs1, 3, 0x27);
    SValue(imm, rs2, rs1, 3, 0x27);
  }

  lemma RunOpImm(h: Hart, imm: bv12, rs1: bv5, f3: bv3, rd: bv5, len: bv64, o: Oracle)
    ensures var w := IWord(imm, rs1, f3, rd, 0x13);
      Execute(h, w, len, o) == Write1(h, rd, AluImm(w, f3, X(h, rs1), Sext12(imm)), len)
  {
    hide Plus, IWord, Opcode, Rd, Funct3, Rs1, ImmI, Sext12, X, Write1, Imm12, AluImm;
    IFields(imm, rs1, f3, rd, 0x13);
    IValue(imm, rs1, f3, rd, 0x13);
  }

  lemma RunAddW(h: Hart, imm: bv12, rs1: bv5, rd: bv5, len: bv64, o: Oracle)
    ensures Execute(h, IWord(imm, rs1, 0, rd, 0x1B), len, o)
            == Write1(h, rd, Widen(Add32(Low32(X(h, rs1)), Low32(Sext12(imm)))), len)
  {
    hide Plus, IWord, Opcode, Rd, Funct3, Rs1, ImmI, Sext12, X, Write1, Imm12, Widen, Low32, Add32;
    IFields(imm, rs1, 0, rd, 0x1B);
    IValue(imm, rs1, 0, rd, 0x1B);
  }

  lemma RunOp(h: Hart, f7: bv7, rs2: bv5, rs1: bv5, f3: bv3, rd: bv5, len: bv64, o: Oracle)
    ensures Execute(h, RWord(f7, rs2, rs1, f3, rd, 0x33), len, o)
            == OrIllegal(h, RWord(f7, rs2, rs1, f3, rd, 0x33), rd, Alu(f7, f3, X(h, rs1), X(h, rs2)), len)
  {
    hide Plus, RWord, Opcode, Rd, Funct3, Funct7, Rs1, Rs2, X, OrIllegal, Alu;
    RFields(f7, rs2, rs1, f3, rd, 0x33);
  }

  lemma RunOpW(h: Hart, f7: bv7, rs2: bv5, rs1: bv5, f3: bv3, rd: bv5, len: bv64, o: Oracle)
    ensures Execute(h, RWord(f7, rs2, rs1, f3, rd, 0x3B), len, o)
            == OrIllegal(h, RWord(f7, rs2, rs1, f3, rd, 0x3B), rd, AluW(f7, f3, X(h, rs1), X(h, rs2)), len)
  {
    hide Plus, RWord, Opcode, Rd, Funct3, Funct7, Rs1, Rs2, X, OrIllegal, AluW;
    RFields(f7, rs2, rs1, f3, rd, 0x3B);
  }

  lemma RunLui(h: Hart, imm: bv20, rd: bv5, len: bv64, o: Oracle)
    ensures Execute(h, UWord(imm, rd, 0x37), len, o) == Write1(h, rd, Upper(imm), len)
  {
    hide Plus, UWord, Opcode, Rd, Upper, ImmU, Write1;
    UFields(imm, rd, 0x37);
    UValue(imm, rd, 0x37);
  }

  lemma RunJal(h: Hart, imm: bv21, rd: bv5, len: bv64, o: Oracle)
    requires imm & 1 == 0
    ensures Execute(h, JWord(imm, rd, 0x6F), len, o) == Jump(h, rd, Plus(h.pc, Sext21(imm)), len)
  {
    hide Plus, JWord, Opcode, Rd, Sext21, ImmJ, Jump;
    JFields(imm, rd, 0x6F);
    JValue(imm, rd, 0x6F);
  }

  lemma RunJalr(h: Hart, imm: bv12, rs1: bv5, rd: bv5, len: bv64, o: Oracle)
    ensures Execute(h, IWord(imm, rs1, 0, rd, 0x67), len, o) == Jump(h, rd, Even(Plus(X(h, rs1), Sext12(imm))), len)
  {
    hide Plus, Even, IWord, Opcode, Rd, Funct3, Rs1, ImmI, Sext12, X, Jump, Imm12;
    IFields(imm, rs1, 0, rd, 0x67);
    IValue(imm, rs1, 0, rd, 0x67);
  }

  lemma RunBranch(h: Hart, imm: bv13, rs2: bv5, rs1: bv5, f3: bv3, len: bv64, o: Oracle)
    requires imm & 1 == 0 && f3 < 2
    ensures Execute(h, BWord(imm, rs2, rs1, f3, 0x63), len, o)
            == BranchIf(h, (X(h, rs1) == X(h, rs2)) == (f3 == 0), Sext13(imm), len)
  {
    hide Plus, BWord, Opcode, Funct3, Rs1, Rs2, Sext13, ImmB, BranchIf, X;
    BFields(imm, rs2, rs1, f3, 0x63);
    BValue(imm, rs2, rs1, f3, 0x63);
  }

  lemma NotAFence(imm: bv12, rs1: bv5, f3: bv3, rd: bv5, op: bv7)
    ensures Funct7(IWord(imm, rs1, f3, rd, op)) == (imm >> 5) as bv7
  {
  }

  lemma RunEbreak(h: Hart, len: bv64, o: Oracle)
    ensures Execute(h, IWord(1, 0, 0, 0, 0x73), len, o) == Raise(h, Exc(PT.Breakpoint), h.pc)
  {
    hide Plus, IWord, Opcode, Rd, Funct3, Rs1, Funct7, Imm12;
    IFields(1, 0, 0, 0, 0x73);
    NotAFence(1, 0, 0, 0, 0x73);
  }

  // ----- Shifts: bits 11:6 of the immediate tell them from the Zbb and Zbs instructions -----

  lemma ShiftCode(imm: bv12, rs1: bv5, f3: bv3, rd: bv5)
    ensures (IWord(imm, rs1, f3, rd, 0x13) & 0x4000_0000 == 0) == (imm & 0x400 == 0)
  {
  }

  lemma ShortShift(c: bv16)
    ensures SpecShift(c) < 0x40 && Shamt(Sext12(SpecShift(c))) == Shamt(ImmShift(c))
    ensures SpecShift(c) >> 5 < 2 && SpecShift(c) & 0x400 == 0
  {
    DecodesShift(c);
    SmallShift(c);
    hide Shamt, Sext12, SpecShift, ImmShift;
  }

  lemma SmallShift(c: bv16)
    ensures SpecShift(c) < 0x40 && SpecShift(c) >> 5 < 2 && SpecShift(c) & 0x400 == 0
  {
  }

  lemma ShortShiftArithmetic(c: bv16)
    ensures var s := 0x400 | SpecShift(c);
      && 0x400 <= s < 0x440 && Shamt(Sext12(s)) == Shamt(ImmShift(c))
      && (s >> 5 == 0x20 || s >> 5 == 0x21) && s & 0x400 != 0
  {
  }

  lemma RunSlli(h: Hart, c: bv16, r: bv5, o: Oracle)
    ensures Execute(h, IWord(SpecShift(c), r, 1, r, 0x13), 2, o) ==
            Write1(h, r, ShiftLeft(X(h, r), Shamt(ImmShift(c))), 2)
  {
    hide Plus, IWord, Opcode, Rd, Funct3, Rs1, ImmI, Sext12, X, Write1, Imm12, Funct7, SpecShift, ImmShift, Execute,
         Shamt, ShiftLeft, ShiftRight;
    RunOpImm(h, SpecShift(c), r, 1, r, 2, o);
    IFields(SpecShift(c), r, 1, r, 0x13);
    NotAFence(SpecShift(c), r, 1, r, 0x13);
    ShortShift(c);
  }

  lemma RunSrli(h: Hart, c: bv16, r: bv5, o: Oracle)
    ensures Execute(h, IWord(SpecShift(c), r, 5, r, 0x13), 2, o) ==
            Write1(h, r, ShiftRight(X(h, r), Shamt(ImmShift(c))), 2)
  {
    hide Plus, IWord, Opcode, Rd, Funct3, Rs1, ImmI, Sext12, X, Write1, Imm12, Funct7, SpecShift, ImmShift, Execute,
         Shamt, ShiftLeft, ShiftRight;
    RunOpImm(h, SpecShift(c), r, 5, r, 2, o);
    IFields(SpecShift(c), r, 5, r, 0x13);
    NotAFence(SpecShift(c), r, 5, r, 0x13);
    ShiftCode(SpecShift(c), r, 5, r);
    ShortShift(c);
  }

  lemma RunSrai(h: Hart, c: bv16, r: bv5, o: Oracle)
    ensures Execute(h, IWord(0x400 | SpecShift(c), r, 5, r, 0x13), 2, o) ==
            Write1(h, r, Sra(X(h, r), Shamt(ImmShift(c))), 2)
  {
    hide Plus, IWord, Opcode, Rd, Funct3, Rs1, ImmI, Sext12, X, Write1, Imm12, Funct7, SpecShift, ImmShift, Execute,
         Shamt, ShiftLeft, ShiftRight, Sra;
    var s := 0x400 | SpecShift(c);
    RunOpImm(h, s, r, 5, r, 2, o);
    IFields(s, r, 5, r, 0x13);
    NotAFence(s, r, 5, r, 0x13);
    ShiftCode(s, r, 5, r);
    ShortShiftArithmetic(c);
  }

  // ----- The operations the expansions use -----

  lemma PlusZero(x: bv64)
    ensures Plus(0, x) == x
  {
  }

  lemma RunAddi(h: Hart, imm: bv12, rs1: bv5, rd: bv5, len: bv64, o: Oracle)
    ensures Execute(h, IWord(imm, rs1, 0, rd, 0x13), len, o) == Write1(h, rd, Plus(X(h, rs1), Sext12(imm)), len)
  {
    hide Plus, IWord, Sext12, X, Write1, Imm12, Funct7, Execute;
    RunOpImm(h, imm, rs1, 0, rd, len, o);
  }

  lemma RunAndi(h: Hart, imm: bv12, rs1: bv5, rd: bv5, len: bv64, o: Oracle)
    ensures Execute(h, IWord(imm, rs1, 7, rd, 0x13), len, o) == Write1(h, rd, And(X(h, rs1), Sext12(imm)), len)
  {
    hide Plus, And, IWord, Sext12, X, Write1, Imm12, Funct7, Execute;
    RunOpImm(h, imm, rs1, 7, rd, len, o);
  }

  /** A load immediate: an addition to x0. */
  lemma RunLi(h: Hart, imm: bv12, rd: bv5, len: bv64, o: Oracle)
    ensures Execute(h, IWord(imm, 0, 0, rd, 0x13), len, o) == Write1(h, rd, Sext12(imm), len)
  {
    hide Plus, IWord, Sext12, Write1, Execute;
    RunAddi(h, imm, 0, rd, len, o);
    PlusZero(Sext12(imm));
  }

  lemma RunAdd(h: Hart, rs2: bv5, rs1: bv5, rd: bv5, len: bv64, o: Oracle)
    ensures Execute(h, RWord(0, rs2, rs1, 0, rd, 0x33), len, o) == Write1(h, rd, Plus(X(h, rs1), X(h, rs2)), len)
  {
    hide Plus, RWord, X, Write1, Execute;
    RunOp(h, 0, rs2, rs1, 0, rd, len, o);
  }

  /** A move: an addition to x0. */
  lemma RunMv(h: Hart, rs2: bv5, rd: bv5, len: bv64, o: Oracle)
    ensures Execute(h, RWord(0, rs2, 0, 0, rd, 0x33), len, o) == Write1(h, rd, X(h, rs2), len)
  {
    hide Plus, RWord, Write1, Execute;
    RunAdd(h, rs2, 0, rd, len, o);
    PlusZero(X(h, rs2));
  }

  lemma RunSub(h: Hart, rs2: bv5, rs1: bv5, rd: bv5, len: bv64, o: Oracle)
    ensures Execute(h, RWord(0x20, rs2, rs1, 0, rd, 0x33), len, o) == Write1(h, rd, Minus(X(h, rs1), X(h, rs2)), len)
  {
    hide Minus, RWord, X, Write1, Execute;
    RunOp(h, 0x20, rs2, rs1, 0, rd, len, o);
  }

  lemma RunXor(h: Hart, rs2: bv5, rs1: bv5, rd: bv5, len: bv64, o: Oracle)
    ensures Execute(h, RWord(0, rs2, rs1, 4, rd, 0x33), len, o) == Write1(h, rd, Xor(X(h, rs1), X(h, rs2)), len)
  {
    hide Xor, RWord, X, Write1, Execute;
    RunOp(h, 0, rs2, rs1, 4, rd, len, o);
  }

  lemma RunOr(h: Hart, rs2: bv5, rs1: bv5, rd: bv5, len: bv64, o: Oracle)
    ensures Execute(h, RWord(0, rs2, rs1, 6, rd, 0x33), len, o) == Write1(h, rd, Or(X(h, rs1), X(h, rs2)), len)
  {
    hide Or, RWord, X, Write1, Execute;
    RunOp(h, 0, rs2, rs1, 6, rd, len, o);
  }

  lemma RunAnd(h: Hart, rs2: bv5, rs1: bv5, rd: bv5, len: bv64, o: Oracle)
    ensures Execute(h, RWord(0, rs2, rs1, 7, rd, 0x33), len, o) == Write1(h, rd, And(X(h, rs1), X(h, rs2)), len)
  {
    hide And, RWord, X, Write1, Execute;
    RunOp(h, 0, rs2, rs1, 7, rd, len, o);
  }

  lemma RunSubW(h: Hart, rs2: bv5, rs1: bv5, rd: bv5, len: bv64, o: Oracle)
    ensures Execute(h, RWord(0x20, rs2, rs1, 0, rd, 0x3B), len, o)
            == Write1(h, rd, Widen(Sub32(Low32(X(h, rs1)), Low32(X(h, rs2)))), len)
  {
    hide Widen, Sub32, Low32, RWord, X, Write1, Execute;
    RunOpW(h, 0x20, rs2, rs1, 0, rd, len, o);
  }

  lemma RunAddRegistersW(h: Hart, rs2: bv5, rs1: bv5, rd: bv5, len: bv64, o: Oracle)
    ensures Execute(h, RWord(0, rs2, rs1, 0, rd, 0x3B), len, o)
            == Write1(h, rd, Widen(Add32(Low32(X(h, rs1)), Low32(X(h, rs2)))), len)
  {
    hide Widen, Add32, Low32, RWord, X, Write1, Execute;
    RunOpW(h, 0, rs2, rs1, 0, rd, len, o);
  }

  lemma EmptyAddi4spn(c: bv16)
    ensures SpecAddi4spn(c) == 0 <==> ImmAddi4spn(c) == 0
  {
  }

  // ----- Where a 16-bit instruction is not its expansion -----

  /** When a jump through a register lands where its expansion does: always on an even target, except that
      C.JALR through x1 finds its own link value there. */
  predicate JumpsAlike(h: Hart, c: bv16) {
    if Bit12(c) && Reg7(c) == 1 then Plus(h.pc, 2) == Even(X(h, 1)) else Even(X(h, Reg7(c))) == X(h, Reg7(c))
  }

  lemma EvenPlusZero(x: bv64)
    ensures Even(Plus(x, Sext12(0))) == Even(x)
  {
  }

  lemma IndexDistinct(r: bv5, s: bv5)
    ensures HartState.Index(r) == HartState.Index(s) ==> r == s
  {
  }

  lemma OtherRegister(h: Hart, r: bv5, v: bv64)
    ensures X(SetX(h, 1, v), r) == if r == 1 then v else X(h, r)
    ensures SetX(h, 0, v) == h
  {
    hide HartState.Index;
    IndexDistinct(r, 1);
  }

  lemma SamePlace(k: Hart, a: bv64, b: bv64)
    ensures Next(Goto(k, a)) == Next(Goto(k, b)) <==> a == b
  {
    assert Goto(k, a).pc == a && Goto(k, b).pc == b;
  }

  lemma RegisterJumpIff(h: Hart, c: bv16, o: Oracle)
    requires IsRegisterJump(c)
    ensures Expand(c) == Some(ExpandRegister(c))
    ensures Next(RegisterJump(h, c)) == Execute(h, ExpandRegister(c), 2, o) <==> JumpsAlike(h, c)
  {
    hide Plus, Even, IWord, RWord, Execute, Sext12, X, SetX, Reg7, Bit12, Reg2, F3, Quadrant;
    RunJalr(h, 0, Reg7(c), if Bit12(c) then 1 else 0, 2, o);
    EvenPlusZero(X(h, Reg7(c)));
    OtherRegister(h, Reg7(c), Plus(h.pc, 2));
    var k := if Bit12(c) then SetX(h, 1, Plus(h.pc, 2)) else h;
    SamePlace(k, X(k, Reg7(c)), Even(X(h, Reg7(c))));
  }

  /** C.JR x5 to an odd address keeps the low bit that its expansion drops. */
  lemma JumpToOddDiffers(h: Hart, o: Oracle)
    ensures var c: bv16 := 0x8282;
      var k := SetX(h, 5, 0x1001);
      && IsRegisterJump(c) && !Bit12(c) && Reg7(c) == 5
      && RegisterJump(k, c).pc == 0x1001
      && Next(RegisterJump(k, c)) != Execute(k, ExpandRegister(c), 2, o)
  {
    hide Plus, SetX, X, Execute, ExpandRegister, HartState.Index;
    var k := SetX(h, 5, 0x1001);
    WrittenRegister(h, 5, 0x1001);
    RegisterJumpIff(k, 0x8282, o);
  }

  /** C.JALR x1 jumps to its own link value instead of the address in x1. */
  lemma LinkThroughItselfDiffers(h: Hart, o: Oracle)
    ensures var c: bv16 := 0x9082;
      var k := Goto(SetX(h, 1, 0x2000), 0x1000);
      && IsRegisterJump(c) && Bit12(c) && Reg7(c) == 1
      && RegisterJump(k, c).pc == 0x1002
      && Next(RegisterJump(k, c)) != Execute(k, ExpandRegister(c), 2, o)
  {
    hide SetX, X, Execute, ExpandRegister, HartState.Index;
    var k := Goto(SetX(h, 1, 0x2000), 0x1000);
    WrittenRegister(h, 1, 0x2000);
    SamePcRegisters(SetX(h, 1, 0x2000), 0x1000);
    OtherRegister(k, 1, 0x1002);
    assert Plus(k.pc, 2) == 0x1002;
    RegisterJumpIff(k, 0x9082, o);
  }

  lemma WrittenRegister(h: Hart, r: bv5, v: bv64)
    requires r != 0
    ensures X(SetX(h, r, v), r) == v
  {
    hide HartState.Index;
  }

  lemma SamePcRegisters(h: Hart, pc: bv64)
    ensures forall r :: X(Goto(h, pc), r) == X(h, r)
  {
    hide HartState.Index;
  }
}
