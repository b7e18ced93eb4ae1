/** The meaning of each 16-bit instruction, from its expansion, in terms of its own operands. */
module CompressedMeaning {
  import opened Words
  import opened HartState
  import opened Traps
  import opened Standard
  import opened Expansion
  import opened Compressed
  import opened CompressedRuns
  import opened CarryLess
  import PT = PageTable

  // ----- Quadrant 0 -----

  lemma Addi4spn(h: Hart, c: bv16, o: Oracle)
    requires Quadrant(c) == 0 && F3(c) == 0 && SpecAddi4spn(c) != 0
    ensures ExecuteShort(h, c, o) == Write1(h, Short2(c), Plus(X(h, 2), ImmAddi4spn(c)), 2)
  {
    hide X, F, Plus, IWord, RWord, SWord, BWord, JWord, UWord, LoadX, LoadF, StoreV, Write1, Jump, BranchIf, Execute,
         Sext12, Short2, Short7, Reg2, Reg7, Bit12, Low2, Mid2, Quadrant, F3, SpecAddi4spn, ImmAddi4spn;
    RunAddi(h, SpecAddi4spn(c), 2, Short2(c), 2, o);
    DecodesAddi4spn(c);
  }

  lemma Fld(h: Hart, c: bv16, o: Oracle)
    requires Quadrant(c) == 0 && F3(c) == 1
    ensures ExecuteShort(h, c, o) == LoadF(h, 3, Short2(c), Plus(X(h, Short7(c)), ImmDouble(c)), 2)
  {
    hide X, F, Plus, IWord, RWord, SWord, BWord, JWord, UWord, LoadX, LoadF, StoreV, Write1, Jump, BranchIf, Execute,
         Sext12, Short2, Short7, Reg2, Reg7, Bit12, Low2, Mid2, Quadrant, F3, SpecDouble, ImmDouble;
    RunFLoad(h, SpecDouble(c), Short7(c), 3, Short2(c), 2, o);
    DecodesDouble(c);
  }

  lemma Lw(h: Hart, c: bv16, o: Oracle)
    requires Quadrant(c) == 0 && F3(c) == 2
    ensures ExecuteShort(h, c, o) == LoadX(h, 2, Short2(c), Plus(X(h, Short7(c)), ImmWord(c)), 2)
  {
    hide X, F, Plus, IWord, RWord, SWord, BWord, JWord, UWord, LoadX, LoadF, StoreV, Write1, Jump, BranchIf, Execute,
         Sext12, Short2, Short7, Reg2, Reg7, Bit12, Low2, Mid2, Quadrant, F3, SpecWord, ImmWord;
    RunLoad(h, SpecWord(c), Short7(c), 2, Short2(c), 2, o);
    DecodesWord(c);
  }

  lemma Ld(h: Hart, c: bv16, o: Oracle)
    requires Quadrant(c) == 0 && F3(c) == 3
    ensures ExecuteShort(h, c, o) == LoadX(h, 3, Short2(c), Plus(X(h, Short7(c)), ImmDouble(c)), 2)
  {
    hide X, F, Plus, IWord, RWord, SWord, BWord, JWord, UWord, LoadX, LoadF, StoreV, Write1, Jump, BranchIf, Execute,
         Sext12, Short2, Short7, Reg2, Reg7, Bit12, Low2, Mid2, Quadrant, F3, SpecDouble, ImmDouble;
    RunLoad(h, SpecDouble(c), Short7(c), 3, Short2(c), 2, o);
    DecodesDouble(c);
  }

  lemma Fsd(h: Hart, c: bv16, o: Oracle)
    requires Quadrant(c) == 0 && F3(c) == 5
    ensures ExecuteShort(h, c, o) == StoreV(h, Plus(X(h, Short7(c)), ImmDouble(c)), F(h, Short2(c)), 8, 2)
  {
    hide X, F, Plus, IWord, RWord, SWord, BWord, JWord, UWord, LoadX, LoadF, StoreV, Write1, Jump, BranchIf, Execute,
         Sext12, Short2, Short7, Reg2, Reg7, Bit12, Low2, Mid2, Quadrant, F3, SpecDouble, ImmDouble;
    RunFStore(h, SpecDouble(c), Short2(c), Short7(c), 2, o);
    DecodesDouble(c);
  }

  lemma Sw(h: Hart, c: bv16, o: Oracle)
    requires Quadrant(c) == 0 && F3(c) == 6
    ensures ExecuteShort(h, c, o) == StoreV(h, Plus(X(h, Short7(c)), ImmWord(c)), X(h, Short2(c)), 4, 2)
  {
    hide X, F, Plus, IWord, RWord, SWord, BWord, JWord, UWord, LoadX, LoadF, StoreV, Write1, Jump, BranchIf, Execute,
         Sext12, Short2, Short7, Reg2, Reg7, Bit12, Low2, Mid2, Quadrant, F3, SpecWord, ImmWord;
    RunStore(h, SpecWord(c), Short2(c), Short7(c), 2, 2, o);
    DecodesWord(c);
  }

  lemma Sd(h: Hart, c: bv16, o: Oracle)
    requires Quadrant(c) == 0 && F3(c) == 7
    ensures ExecuteShort(h, c, o) == StoreV(h, Plus(X(h, Short7(c)), ImmDouble(c)), X(h, Short2(c)), 8, 2)
  {
    hide X, F, Plus, IWord, RWord, SWord, BWord, JWord, UWord, LoadX, LoadF, StoreV, Write1, Jump, BranchIf, Execute,
         Sext12, Short2, Short7, Reg2, Reg7, Bit12, Low2, Mid2, Quadrant, F3, SpecDouble, ImmDouble;
    RunStore(h, SpecDouble(c), Short2(c), Short7(c), 3, 2, o);
    DecodesDouble(c);
  }

  // ----- Quadrant 1 -----

  lemma Addi(h: Hart, c: bv16, o: Oracle)
    requires Quadrant(c) == 1 && F3(c) == 0
    ensures ExecuteShort(h, c, o) == Write1(h, Reg7(c), Plus(X(h, Reg7(c)), ImmSmall(c)), 2)
  {
    hide X, F, Plus, IWord, RWord, SWord, BWord, JWord, UWord, LoadX, LoadF, StoreV, Write1, Jump, BranchIf, Execute,
         Sext12, Short2, Short7, Reg2, Reg7, Bit12, Low2, Mid2, Quadrant, F3, SpecSmall, ImmSmall;
    RunAddi(h, SpecSmall(c), Reg7(c), Reg7(c), 2, o);
    DecodesSmall(c);
  }

  lemma Addiw(h: Hart, c: bv16, o: Oracle)
    requires Quadrant(c) == 1 && F3(c) == 1
    ensures ExecuteShort(h, c, o) == Write1(h, Reg7(c), Widen(Add32(Low32(X(h, Reg7(c))), Low32(ImmSmall(c)))), 2)
  {
    hide X, F, Plus, IWord, RWord, SWord, BWord, JWord, UWord, LoadX, LoadF, StoreV, Write1, Jump, BranchIf, Execute,
         Sext12, Short2, Short7, Reg2, Reg7, Bit12, Low2, Mid2, Quadrant, F3, SpecSmall, ImmSmall, Widen, Add32, Low32;
    RunAddW(h, SpecSmall(c), Reg7(c), Reg7(c), 2, o);
    DecodesSmall(c);
  }

  lemma Li(h: Hart, c: bv16, o: Oracle)
    requires Quadrant(c) == 1 && F3(c) == 2
    ensures ExecuteShort(h, c, o) == Write1(h, Reg7(c), ImmSmall(c), 2)
  {
    hide X, F, Plus, IWord, RWord, SWord, BWord, JWord, UWord, LoadX, LoadF, StoreV, Write1, Jump, BranchIf, Execute,
         Sext12, Short2, Short7, Reg2, Reg7, Bit12, Low2, Mid2, Quadrant, F3, SpecSmall, ImmSmall;
    RunLi(h, SpecSmall(c), Reg7(c), 2, o);
    DecodesSmall(c);
  }

  lemma Addi16sp(h: Hart, c: bv16, o: Oracle)
    requires Quadrant(c) == 1 && F3(c) == 3 && Reg7(c) == 2
    ensures ExecuteShort(h, c, o) == Write1(h, 2, Plus(X(h, 2), ImmAddi16sp(c)), 2)
  {
    hide X, F, Plus, IWord, RWord, SWord, BWord, JWord, UWord, LoadX, LoadF, StoreV, Write1, Jump, BranchIf, Execute,
         Sext12, Short2, Short7, Reg2, Reg7, Bit12, Low2, Mid2, Quadrant, F3, SpecAddi16sp, ImmAddi16sp;
    RunAddi(h, SpecAddi16sp(c), 2, 2, 2, o);
    DecodesAddi16sp(c);
  }

  lemma Lui(h: Hart, c: bv16, o: Oracle)
    requires Quadrant(c) == 1 && F3(c) == 3 && Reg7(c) != 2
    ensures ExecuteShort(h, c, o) == Write1(h, Reg7(c), ImmLui(c), 2)
  {
    hide X, F, Plus, IWord, RWord, SWord, BWord, JWord, UWord, LoadX, LoadF, StoreV, Write1, Jump, BranchIf, Execute,
         Sext12, Short2, Short7, Reg2, Reg7, Bit12, Low2, Mid2, Quadrant, F3, SpecLui, ImmLui, Upper;
    RunLui(h, SpecLui(c), Reg7(c), 2, o);
    DecodesLui(c);
  }

  lemma Srli(h: Hart, c: bv16, o: Oracle)
    requires Quadrant(c) == 1 && F3(c) == 4 && Low2(c) == 0
    ensures ExecuteShort(h, c, o) == Write1(h, Short7(c), ShiftRight(X(h, Short7(c)), Shamt(ImmShift(c))), 2)
  {
    hide X, F, Plus, IWord, RWord, SWord, BWord, JWord, UWord, LoadX, LoadF, StoreV, Write1, Jump, BranchIf, Execute,
         Sext12, Short2, Short7, Reg2, Reg7, Bit12, Low2, Mid2, Quadrant, F3, ShiftRight, Shamt, SpecShift, ImmShift;
    RunSrli(h, c, Short7(c), o);
  }

  lemma Srai(h: Hart, c: bv16, o: Oracle)
    requires Quadrant(c) == 1 && F3(c) == 4 && Low2(c) == 1
    ensures ExecuteShort(h, c, o) == Write1(h, Short7(c), Sra(X(h, Short7(c)), Shamt(ImmShift(c))), 2)
  {
    hide X, F, Plus, IWord, RWord, SWord, BWord, JWord, UWord, LoadX, LoadF, StoreV, Write1, Jump, BranchIf, Execute,
         Sext12, Short2, Short7, Reg2, Reg7, Bit12, Low2, Mid2, Quadrant, F3, Sra, Shamt, SpecShift, ImmShift;
    RunSrai(h, c, Short7(c), o);
  }

  lemma Andi(h: Hart, c: bv16, o: Oracle)
    requires Quadrant(c) == 1 && F3(c) == 4 && Low2(c) == 2
    ensures ExecuteShort(h, c, o) == Write1(h, Short7(c), And(X(h, Short7(c)), ImmSmall(c)), 2)
  {
    hide X, F, Plus, IWord, RWord, SWord, BWord, JWord, UWord, LoadX, LoadF, StoreV, Write1, Jump, BranchIf, Execute,
         Sext12, Short2, Short7, Reg2, Reg7, Bit12, Low2, Mid2, Quadrant, F3, SpecSmall, ImmSmall, And;
    RunAndi(h, SpecSmall(c), Short7(c), Short7(c), 2, o);
    DecodesSmall(c);
  }

  lemma Sub(h: Hart, c: bv16, o: Oracle)
    requires Quadrant(c) == 1 && F3(c) == 4 && Low2(c) == 3 && !Bit12(c) && Mid2(c) == 0
    ensures ExecuteShort(h, c, o) == Write1(h, Short7(c), Minus(X(h, Short7(c)), X(h, Short2(c))), 2)
  {
    hide X, F, Plus, IWord, RWord, SWord, BWord, JWord, UWord, LoadX, LoadF, StoreV, Write1, Jump, BranchIf, Execute,
         Sext12, Short2, Short7, Reg2, Reg7, Bit12, Low2, Mid2, Quadrant, F3, Minus;
    RunSub(h, Short2(c), Short7(c), Short7(c), 2, o);
  }

  lemma Xor2(h: Hart, c: bv16, o: Oracle)
    requires Quadrant(c) == 1 && F3(c) == 4 && Low2(c) == 3 && !Bit12(c) && Mid2(c) == 1
    ensures ExecuteShort(h, c, o) == Write1(h, Short7(c), Xor(X(h, Short7(c)), X(h, Short2(c))), 2)
  {
    hide X, F, Plus, IWord, RWord, SWord, BWord, JWord, UWord, LoadX, LoadF, StoreV, Write1, Jump, BranchIf, Execute,
         Sext12, Short2, Short7, Reg2, Reg7, Bit12, Low2, Mid2, Quadrant, F3, Xor;
    RunXor(h, Short2(c), Short7(c), Short7(c), 2, o);
  }

  lemma Or2(h: Hart, c: bv16, o: Oracle)
    requires Quadrant(c) == 1 && F3(c) == 4 && Low2(c) == 3 && !Bit12(c) && Mid2(c) == 2
    ensures ExecuteShort(h, c, o) == Write1(h, Short7(c), Or(X(h, Short7(c)), X(h, Short2(c))), 2)
  {
    hide X, F, Plus, IWord, RWord, SWord, BWord, JWord, UWord, LoadX, LoadF, StoreV, Write1, Jump, BranchIf, Execute,
         Sext12, Short2, Short7, Reg2, Reg7, Bit12, Low2, Mid2, Quadrant, F3, Or;
    RunOr(h, Short2(c), Short7(c), Short7(c), 2, o);
  }

  lemma And2(h: Hart, c: bv16, o: Oracle)
    requires Quadrant(c) == 1 && F3(c) == 4 && Low2(c) == 3 && !Bit12(c) && Mid2(c) == 3
    ensures ExecuteShort(h, c, o) == Write1(h, Short7(c), And(X(h, Short7(c)), X(h, Short2(c))), 2)
  {
    hide X, F, Plus, IWord, RWord, SWord, BWord, JWord, UWord, LoadX, LoadF, StoreV, Write1, Jump, BranchIf, Execute,
         Sext12, Short2, Short7, Reg2, Reg7, Bit12, Low2, Mid2, Quadrant, F3, And;
    RunAnd(h, Short2(c), Short7(c), Short7(c), 2, o);
  }

  lemma Subw(h: Hart, c: bv16, o: Oracle)
    requires Quadrant(c) == 1 && F3(c) == 4 && Low2(c) == 3 && Bit12(c) && Mid2(c) == 0
    ensures ExecuteShort(h, c, o) ==
            Write1(h, Short7(c), Widen(Sub32(Low32(X(h, Short7(c))), Low32(X(h, Short2(c))))), 2)
  {
    hide X, F, Plus, IWord, RWord, SWord, BWord, JWord, UWord, LoadX, LoadF, StoreV, Write1, Jump, BranchIf, Execute,
         Sext12, Short2, Short7, Reg2, Reg7, Bit12, Low2, Mid2, Quadrant, F3, Widen, Sub32, Low32;
    RunSubW(h, Short2(c), Short7(c), Short7(c), 2, o);
  }

  lemma Addw(h: Hart, c: bv16, o: Oracle)
    requires Quadrant(c) == 1 && F3(c) == 4 && Low2(c) == 3 && Bit12(c) && Mid2(c) == 1
    ensures ExecuteShort(h, c, o) ==
            Write1(h, Short7(c), Widen(Add32(Low32(X(h, Short7(c))), Low32(X(h, Short2(c))))), 2)
  {
    hide X, F, Plus, IWord, RWord, SWord, BWord, JWord, UWord, LoadX, LoadF, StoreV, Write1, Jump, BranchIf, Execute,
         Sext12, Short2, Short7, Reg2, Reg7, Bit12, Low2, Mid2, Quadrant, F3, Widen, Add32, Low32;
    RunAddRegistersW(h, Short2(c), Short7(c), Short7(c), 2, o);
  }

  lemma J(h: Hart, c: bv16, o: Oracle)
    requires Quadrant(c) == 1 && F3(c) == 5
    ensures ExecuteShort(h, c, o) == Jump(h, 0, Plus(h.pc, ImmJump(c)), 2)
  {
    hide X, F, Plus, IWord, RWord, SWord, BWord, JWord, UWord, LoadX, LoadF, StoreV, Write1, Jump, BranchIf, Execute,
         Sext12, Short2, Short7, Reg2, Reg7, Bit12, Low2, Mid2, Quadrant, F3, SpecJump, ImmJump, Sext21;
    DecodesJump(c);
    RunJal(h, SpecJump(c), 0, 2, o);
  }

  lemma Beqz(h: Hart, c: bv16, o: Oracle)
    requires Quadrant(c) == 1 && F3(c) == 6
    ensures ExecuteShort(h, c, o) == BranchIf(h, X(h, Short7(c)) == X(h, 0), ImmBranch(c), 2)
  {
    hide X, F, Plus, IWord, RWord, SWord, BWord, JWord, UWord, LoadX, LoadF, StoreV, Write1, Jump, BranchIf, Execute,
         Sext12, Short2, Short7, Reg2, Reg7, Bit12, Low2, Mid2, Quadrant, F3, SpecBranch, ImmBranch, Sext13;
    DecodesBranch(c);
    RunBranch(h, SpecBranch(c), 0, Short7(c), 0, 2, o);
  }

  lemma Bnez(h: Hart, c: bv16, o: Oracle)
    requires Quadrant(c) == 1 && F3(c) == 7
    ensures ExecuteShort(h, c, o) == BranchIf(h, X(h, Short7(c)) != X(h, 0), ImmBranch(c), 2)
  {
    hide X, F, Plus, IWord, RWord, SWord, BWord, JWord, UWord, LoadX, LoadF, StoreV, Write1, Jump, BranchIf, Execute,
         Sext12, Short2, Short7, Reg2, Reg7, Bit12, Low2, Mid2, Quadrant, F3, SpecBranch, ImmBranch, Sext13;
    DecodesBranch(c);
    RunBranch(h, SpecBranch(c), 0, Short7(c), 1, 2, o);
  }

  // ----- Quadrant 2 -----

  lemma Slli(h: Hart, c: bv16, o: Oracle)
    requires Quadrant(c) == 2 && F3(c) == 0
    ensures ExecuteShort(h, c, o) == Write1(h, Reg7(c), ShiftLeft(X(h, Reg7(c)), Shamt(ImmShift(c))), 2)
  {
    hide X, F, Plus, IWord, RWord, SWord, BWord, JWord, UWord, LoadX, LoadF, StoreV, Write1, Jump, BranchIf, Execute,
         Sext12, Short2, Short7, Reg2, Reg7, Bit12, Low2, Mid2, Quadrant, F3, ShiftLeft, Shamt, SpecShift, ImmShift;
    RunSlli(h, c, Reg7(c), o);
  }

  lemma Fldsp(h: Hart, c: bv16, o: Oracle)
    requires Quadrant(c) == 2 && F3(c) == 1
    ensures ExecuteShort(h, c, o) == LoadF(h, 3, Reg7(c), Plus(X(h, 2), ImmDoubleSp(c)), 2)
  {
    hide X, F, Plus, IWord, RWord, SWord, BWord, JWord, UWord, LoadX, LoadF, StoreV, Write1, Jump, BranchIf, Execute,
         Sext12, Short2, Short7, Reg2, Reg7, Bit12, Low2, Mid2, Quadrant, F3, SpecDoubleSp, ImmDoubleSp;
    RunFLoad(h, SpecDoubleSp(c), 2, 3, Reg7(c), 2, o);
    DecodesDoubleSp(c);
  }

  lemma Lwsp(h: Hart, c: bv16, o: Oracle)
    requires Quadrant(c) == 2 && F3(c) == 2 && Reg7(c) != 0
    ensures ExecuteShort(h, c, o) == LoadX(h, 2, Reg7(c), Plus(X(h, 2), ImmWordSp(c)), 2)
  {
    hide X, F, Plus, IWord, RWord, SWord, BWord, JWord, UWord, LoadX, LoadF, StoreV, Write1, Jump, BranchIf, Execute,
         Sext12, Short2, Short7, Reg2, Reg7, Bit12, Low2, Mid2, Quadrant, F3, SpecWordSp, ImmWordSp;
    RunLoad(h, SpecWordSp(c), 2, 2, Reg7(c), 2, o);
    DecodesWordSp(c);
  }

  lemma Ldsp(h: Hart, c: bv16, o: Oracle)
    requires Quadrant(c) == 2 && F3(c) == 3 && Reg7(c) != 0
    ensures ExecuteShort(h, c, o) == LoadX(h, 3, Reg7(c), Plus(X(h, 2), ImmDoubleSp(c)), 2)
  {
    hide X, F, Plus, IWord, RWord, SWord, BWord, JWord, UWord, LoadX, LoadF, StoreV, Write1, Jump, BranchIf, Execute,
         Sext12, Short2, Short7, Reg2, Reg7, Bit12, Low2, Mid2, Quadrant, F3, SpecDoubleSp, ImmDoubleSp;
    RunLoad(h, SpecDoubleSp(c), 2, 3, Reg7(c), 2, o);
    DecodesDoubleSp(c);
  }

  lemma Mv(h: Hart, c: bv16, o: Oracle)
    requires Quadrant(c) == 2 && F3(c) == 4 && !Bit12(c) && Reg2(c) != 0
    ensures ExecuteShort(h, c, o) == Write1(h, Reg7(c), X(h, Reg2(c)), 2)
  {
    hide X, F, Plus, IWord, RWord, SWord, BWord, JWord, UWord, LoadX, LoadF, StoreV, Write1, Jump, BranchIf, Execute,
         Sext12, Short2, Short7, Reg2, Reg7, Bit12, Low2, Mid2, Quadrant, F3;
    RunMv(h, Reg2(c), Reg7(c), 2, o);
  }

  lemma Add2(h: Hart, c: bv16, o: Oracle)
    requires Quadrant(c) == 2 && F3(c) == 4 && Bit12(c) && Reg2(c) != 0
    ensures ExecuteShort(h, c, o) == Write1(h, Reg7(c), Plus(X(h, Reg7(c)), X(h, Reg2(c))), 2)
  {
    hide X, F, Plus, IWord, RWord, SWord, BWord, JWord, UWord, LoadX, LoadF, StoreV, Write1, Jump, BranchIf, Execute,
         Sext12, Short2, Short7, Reg2, Reg7, Bit12, Low2, Mid2, Quadrant, F3;
    RunAdd(h, Reg2(c), Reg7(c), Reg7(c), 2, o);
  }

  lemma Ebreak(h: Hart, c: bv16, o: Oracle)
    requires Quadrant(c) == 2 && F3(c) == 4 && Bit12(c) && Reg2(c) == 0 && Reg7(c) == 0
    ensures ExecuteShort(h, c, o) == Raise(h, Exc(PT.Breakpoint), h.pc)
  {
    hide X, F, Plus, IWord, RWord, SWord, BWord, JWord, UWord, LoadX, LoadF, StoreV, Write1, Jump, BranchIf, Execute,
         Sext12, Short2, Short7, Reg2, Reg7, Bit12, Low2, Mid2, Quadrant, F3;
    RunEbreak(h, 2, o);
  }

  lemma ThroughRegister(h: Hart, c: bv16, o: Oracle)
    requires IsRegisterJump(c)
    ensures ExecuteShort(h, c, o) == Next(RegisterJump(h, c))
  {
    hide X, F, Plus, IWord, RWord, SWord, BWord, JWord, UWord, LoadX, LoadF, StoreV, Write1, Jump, BranchIf, Execute,
         Sext12, Short2, Short7, Reg2, Reg7, Bit12, Low2, Mid2, Quadrant, F3;
  }

  lemma Fsdsp(h: Hart, c: bv16, o: Oracle)
    requires Quadrant(c) == 2 && F3(c) == 5
    ensures ExecuteShort(h, c, o) == StoreV(h, Plus(X(h, 2), ImmDoubleSpS(c)), F(h, Reg2(c)), 8, 2)
  {
    hide X, F, Plus, IWord, RWord, SWord, BWord, JWord, UWord, LoadX, LoadF, StoreV, Write1, Jump, BranchIf, Execute,
         Sext12, Short2, Short7, Reg2, Reg7, Bit12, Low2, Mid2, Quadrant, F3, SpecDoubleSpS, ImmDoubleSpS;
    RunFStore(h, SpecDoubleSpS(c), Reg2(c), 2, 2, o);
    DecodesDoubleSpS(c);
  }

  lemma Swsp(h: Hart, c: bv16, o: Oracle)
    requires Quadrant(c) == 2 && F3(c) == 6
    ensures ExecuteShort(h, c, o) == StoreV(h, Plus(X(h, 2), ImmWordSpS(c)), X(h, Reg2(c)), 4, 2)
  {
    hide X, F, Plus, IWord, RWord, SWord, BWord, JWord, UWord, LoadX, LoadF, StoreV, Write1, Jump, BranchIf, Execute,
         Sext12, Short2, Short7, Reg2, Reg7, Bit12, Low2, Mid2, Quadrant, F3, SpecWordSpS, ImmWordSpS;
    RunStore(h, SpecWordSpS(c), Reg2(c), 2, 2, 2, o);
    DecodesWordSpS(c);
  }

  lemma Sdsp(h: Hart, c: bv16, o: Oracle)
    requires Quadrant(c) == 2 && F3(c) == 7
    ensures ExecuteShort(h, c, o) == StoreV(h, Plus(X(h, 2), ImmDoubleSpS(c)), X(h, Reg2(c)), 8, 2)
  {
    hide X, F, Plus, IWord, RWord, SWord, BWord, JWord, UWord, LoadX, LoadF, StoreV, Write1, Jump, BranchIf, Execute,
         Sext12, Short2, Short7, Reg2, Reg7, Bit12, Low2, Mid2, Quadrant, F3, SpecDoubleSpS, ImmDoubleSpS;
    RunStore(h, SpecDoubleSpS(c), Reg2(c), 2, 3, 2, o);
    DecodesDoubleSpS(c);
  }

  // ----- Reserved encodings -----

  /** Exactly these encodings are refused, with the instruction as the trap value. */
  predicate Refused(c: bv16) {
    || Quadrant(c) == 3
    || (Quadrant(c) == 0 && (F3(c) == 4 || (F3(c) == 0 && ImmAddi4spn(c) == 0)))
    || (Quadrant(c) == 1 && F3(c) == 4 && Low2(c) == 3 && Bit12(c) && Mid2(c) >= 2)
    || (Quadrant(c) == 2 && (F3(c) == 2 || F3(c) == 3) && Reg7(c) == 0)
  }

  lemma RefusedIff(c: bv16)
    ensures Refused(c) <==> Expand(c) == None
  {
    hide ImmAddi4spn, SpecAddi4spn, Short2, Short7, Reg2, Reg7, Bit12, IWord, RWord, SWord, BWord, JWord, UWord;
    EmptyAddi4spn(c);
  }
}
