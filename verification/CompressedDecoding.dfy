/** The emulator's own decoder of 16-bit instructions as a function, and when it is the expansion. */
module CompressedDecoding {
  import opened Words
  import opened HartState
  import opened Traps
  import opened Standard
  import opened Compressed
  import opened CarryLess
  import M = CompressedMeaning
  import R = CompressedRuns
  import PT = PageTable

  // ----- The decoder, branch by branch; the expansion occurs nowhere -----

  function IllegalShort(h: Hart, c: bv16): Outcome {
    Raise(h, Exc(PT.IllegalInstruction), c as bv64)
  }

  function ByHand0(h: Hart, c: bv16): Outcome {
    var f3 := F3(c);
    var base := X(h, Short7(c));
    if f3 == 0 then
      if ImmAddi4spn(c) == 0 then IllegalShort(h, c) else Write1(h, Short2(c), Plus(X(h, 2), ImmAddi4spn(c)), 2)
    else if f3 == 1 then LoadF(h, 3, Short2(c), Plus(base, ImmDouble(c)), 2)
    else if f3 == 2 then LoadX(h, 2, Short2(c), Plus(base, ImmWord(c)), 2)
    else if f3 == 3 then LoadX(h, 3, Short2(c), Plus(base, ImmDouble(c)), 2)
    else if f3 == 4 then IllegalShort(h, c)
    else if f3 == 5 then StoreV(h, Plus(base, ImmDouble(c)), F(h, Short2(c)), 8, 2)
    else if f3 == 6 then StoreV(h, Plus(base, ImmWord(c)), X(h, Short2(c)), 4, 2)
    else StoreV(h, Plus(base, ImmDouble(c)), X(h, Short2(c)), 8, 2)
  }

  function ByHandArithmetic(h: Hart, c: bv16): Outcome {
    var r := Short7(c);
    var x, y := X(h, r), X(h, Short2(c));
    var k, m := Low2(c), Mid2(c);
    if k == 0 then Write1(h, r, ShiftRight(x, Shamt(ImmShift(c))), 2)
    else if k == 1 then Write1(h, r, Sra(x, Shamt(ImmShift(c))), 2)
    else if k == 2 then Write1(h, r, And(x, ImmSmall(c)), 2)
    else if !Bit12(c) then
      if m == 0 then Write1(h, r, Minus(x, y), 2)
      else if m == 1 then Write1(h, r, Xor(x, y), 2)
      else if m == 2 then Write1(h, r, Or(x, y), 2)
      else Write1(h, r, And(x, y), 2)
    else if m == 0 then Write1(h, r, Widen(Sub32(Low32(x), Low32(y))), 2)
    else if m == 1 then Write1(h, r, Widen(Add32(Low32(x), Low32(y))), 2)
    else IllegalShort(h, c)
  }

  function ByHand1(h: Hart, c: bv16): Outcome {
    var f3 := F3(c);
    var r := Reg7(c);
    if f3 == 0 then
      if r == 0 then Next(Goto(h, Plus(h.pc, 2))) else Write1(h, r, Plus(X(h, r), ImmSmall(c)), 2)
    else if f3 == 1 then Write1(h, r, Widen(Add32(Low32(X(h, r)), Low32(ImmSmall(c)))), 2)
    else if f3 == 2 then Write1(h, r, ImmSmall(c), 2)
    else if f3 == 3 then
      if r == 2 then Write1(h, 2, Plus(X(h, 2), ImmAddi16sp(c)), 2) else Write1(h, r, ImmLui(c), 2)
    else if f3 == 4 then ByHandArithmetic(h, c)
    else if f3 == 5 then Next(Goto(h, Plus(h.pc, ImmJump(c))))
    else if f3 == 6 then BranchIf(h, X(h, Short7(c)) == 0, ImmBranch(c), 2)
    else BranchIf(h, X(h, Short7(c)) != 0, ImmBranch(c), 2)
  }

  function ByHandRegister(h: Hart, c: bv16): Outcome {
    if !Bit12(c) then
      if Reg2(c) == 0 then Next(RegisterJump(h, c)) else Write1(h, Reg7(c), X(h, Reg2(c)), 2)
    else if Reg2(c) == 0 then
      if Reg7(c) == 0 then Raise(h, Exc(PT.Breakpoint), h.pc) else Next(RegisterJump(h, c))
    else Write1(h, Reg7(c), Plus(X(h, Reg7(c)), X(h, Reg2(c))), 2)
  }

  function ByHand2(h: Hart, c: bv16): Outcome {
    var f3 := F3(c);
    var r := Reg7(c);
    var sp := X(h, 2);
    if f3 == 0 then Write1(h, r, ShiftLeft(X(h, r), Shamt(ImmShift(c))), 2)
    else if f3 == 1 then LoadF(h, 3, r, Plus(sp, ImmDoubleSp(c)), 2)
    else if f3 == 2 then if r == 0 then IllegalShort(h, c) else LoadX(h, 2, r, Plus(sp, ImmWordSp(c)), 2)
    else if f3 == 3 then if r == 0 then IllegalShort(h, c) else LoadX(h, 3, r, Plus(sp, ImmDoubleSp(c)), 2)
    else if f3 == 4 then ByHandRegister(h, c)
    else if f3 == 5 then StoreV(h, Plus(sp, ImmDoubleSpS(c)), F(h, Reg2(c)), 8, 2)
    else if f3 == 6 then StoreV(h, Plus(sp, ImmWordSpS(c)), X(h, Reg2(c)), 4, 2)
    else StoreV(h, Plus(sp, ImmDoubleSpS(c)), X(h, Reg2(c)), 8, 2)
  }

  /** The effect of a 16-bit instruction, as the decoder computes it. */
  function ByHand(h: Hart, c: bv16): Outcome {
    var q := Quadrant(c);
    if q == 0 then ByHand0(h, c)
    else if q == 1 then ByHand1(h, c)
    else if q == 2 then ByHand2(h, c)
    else IllegalShort(h, c)
  }

  // ----- Against the expansion -----

  lemma RefusedByHand(h: Hart, c: bv16, o: Oracle)
    requires M.Refused(c)
    ensures ExecuteShort(h, c, o) == IllegalShort(h, c)
  {
    hide M.Refused, Expand, Execute;
    M.RefusedIff(c);
  }

  lemma Quadrant0ByHand(h: Hart, c: bv16, o: Oracle)
    requires Quadrant(c) == 0
    ensures ByHand0(h, c) == ExecuteShort(h, c, o)
  {
    hide X, F, Plus, LoadX, LoadF, StoreV, Write1, ExecuteShort, Short2, Short7, ImmAddi4spn, ImmDouble, ImmWord,
         SpecAddi4spn;
    var f3 := F3(c);
    if f3 == 0 {
      R.EmptyAddi4spn(c);
      if ImmAddi4spn(c) != 0 {
        M.Addi4spn(h, c, o);
      } else {
        RefusedByHand(h, c, o);
      }
    } else if f3 == 1 {
      M.Fld(h, c, o);
    } else if f3 == 2 {
      M.Lw(h, c, o);
    } else if f3 == 3 {
      M.Ld(h, c, o);
    } else if f3 == 4 {
      RefusedByHand(h, c, o);
    } else if f3 == 5 {
      M.Fsd(h, c, o);
    } else if f3 == 6 {
      M.Sw(h, c, o);
    } else {
      M.Sd(h, c, o);
    }
  }

  lemma ArithmeticByHand(h: Hart, c: bv16, o: Oracle)
    requires Quadrant(c) == 1 && F3(c) == 4
    ensures ByHandArithmetic(h, c) == ExecuteShort(h, c, o)
  {
    hide X, Write1, ExecuteShort, Short2, Short7, ImmSmall, ImmShift, Shamt, ShiftRight, Sra, And, Or, Xor, Minus,
         Widen, Add32, Sub32, Low32, Low2, Mid2, Bit12, Quadrant, F3;
    var k, m := Low2(c), Mid2(c);
    if k == 0 {
      M.Srli(h, c, o);
    } else if k == 1 {
      M.Srai(h, c, o);
    } else if k == 2 {
      M.Andi(h, c, o);
    } else if !Bit12(c) {
      if m == 0 {
        M.Sub(h, c, o);
      } else if m == 1 {
        M.Xor2(h, c, o);
      } else if m == 2 {
        M.Or2(h, c, o);
      } else {
        M.And2(h, c, o);
      }
    } else if m == 0 {
      M.Subw(h, c, o);
    } else if m == 1 {
      M.Addw(h, c, o);
    } else {
      RefusedByHand(h, c, o);
    }
  }

  lemma NothingWritten(h: Hart, v: bv64)
    ensures Write1(h, 0, v, 2) == Next(Goto(h, Plus(h.pc, 2)))
  {
    hide Plus;
  }

  lemma NoLink(h: Hart, target: bv64)
    ensures Jump(h, 0, target, 2) == Next(Goto(h, target))
  {
    hide Plus;
  }

  lemma Quadrant1ByHand(h: Hart, c: bv16, o: Oracle)
    requires Quadrant(c) == 1
    ensures ByHand1(h, c) == ExecuteShort(h, c, o)
  {
    hide Plus, Write1, Jump, BranchIf, ExecuteShort, ByHandArithmetic, Short7, Reg7, ImmSmall, ImmAddi16sp, ImmLui,
         ImmJump, ImmBranch, Widen, Add32, Low32, HartState.Index;
    var f3 := F3(c);
    if f3 == 0 {
      M.Addi(h, c, o);
      NothingWritten(h, Plus(X(h, Reg7(c)), ImmSmall(c)));
    } else if f3 == 1 {
      M.Addiw(h, c, o);
    } else if f3 == 2 {
      M.Li(h, c, o);
    } else if f3 == 3 {
      if Reg7(c) == 2 {
        M.Addi16sp(h, c, o);
      } else {
        M.Lui(h, c, o);
      }
    } else if f3 == 4 {
      ArithmeticByHand(h, c, o);
    } else if f3 == 5 {
      M.J(h, c, o);
      NoLink(h, Plus(h.pc, ImmJump(c)));
    } else if f3 == 6 {
      M.Beqz(h, c, o);
    } else {
      M.Bnez(h, c, o);
    }
  }

  lemma RegisterByHand(h: Hart, c: bv16, o: Oracle)
    requires Quadrant(c) == 2 && F3(c) == 4
    ensures ByHandRegister(h, c) == ExecuteShort(h, c, o)
  {
    hide Plus, Write1, ExecuteShort, RegisterJump, Reg2, Reg7, Bit12, X, Quadrant, F3;
    if !Bit12(c) {
      if Reg2(c) == 0 {
        M.ThroughRegister(h, c, o);
      } else {
        M.Mv(h, c, o);
      }
    } else if Reg2(c) == 0 {
      if Reg7(c) == 0 {
        M.Ebreak(h, c, o);
      } else {
        M.ThroughRegister(h, c, o);
      }
    } else {
      M.Add2(h, c, o);
    }
  }

  lemma Quadrant2ByHand(h: Hart, c: bv16, o: Oracle)
    requires Quadrant(c) == 2
    ensures ByHand2(h, c) == ExecuteShort(h, c, o)
  {
    hide X, F, Plus, LoadX, LoadF, StoreV, Write1, ExecuteShort, ByHandRegister, Reg2, Reg7, ImmDoubleSp, ImmWordSp,
         ImmWordSpS, ImmDoubleSpS, ImmShift, Shamt, ShiftLeft;
    var f3 := F3(c);
    if f3 == 0 {
      M.Slli(h, c, o);
    } else if f3 == 1 {
      M.Fldsp(h, c, o);
    } else if (f3 == 2 || f3 == 3) && Reg7(c) == 0 {
      RefusedByHand(h, c, o);
    } else if f3 == 2 {
      M.Lwsp(h, c, o);
    } else if f3 == 3 {
      M.Ldsp(h, c, o);
    } else if f3 == 4 {
      RegisterByHand(h, c, o);
    } else if f3 == 5 {
      M.Fsdsp(h, c, o);
    } else if f3 == 6 {
      M.Swsp(h, c, o);
    } else {
      M.Sdsp(h, c, o);
    }
  }

  /** The decoder written out computes the effect used by the step function. */
  lemma DecoderComputes(h: Hart, c: bv16, o: Oracle)
    ensures ByHand(h, c) == ExecuteShort(h, c, o)
  {
    hide ByHand0, ByHand1, ByHand2, ExecuteShort, F3, ImmAddi4spn, Low2, Bit12, Mid2, Reg7;
    var q := Quadrant(c);
    if q == 0 {
      Quadrant0ByHand(h, c, o);
    } else if q == 1 {
      Quadrant1ByHand(h, c, o);
    } else if q == 2 {
      Quadrant2ByHand(h, c, o);
    } else {
      RefusedByHand(h, c, o);
    }
  }

  /** A 16-bit instruction does what its 32-bit expansion does, two bytes long, if and only if it is not C.JR or
      C.JALR with a differing target; one without an expansion is refused. */
  lemma DecoderIsExpansionIff(h: Hart, c: bv16, o: Oracle)
    ensures Expand(c).Some? ==>
              (ByHand(h, c) == Execute(h, Expand(c).value, 2, o) <==> (IsRegisterJump(c) ==> R.JumpsAlike(h, c)))
    ensures Expand(c).None? ==> ByHand(h, c) == IllegalShort(h, c)
  {
    hide ByHand, Expand, Execute, RegisterJump, R.JumpsAlike, IsRegisterJump;
    DecoderComputes(h, c, o);
    if IsRegisterJump(c) {
      R.RegisterJumpIff(h, c, o);
    }
  }
}
