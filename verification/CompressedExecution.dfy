/** `execute_compressed`: each 16-bit instruction decoded by hand, proved to do what its expansion does. */
module CompressedExecution {
  import opened Words
  import opened HartState
  import opened Traps
  import opened Standard
  import opened Compressed
  import M = CompressedMeaning
  import R = CompressedRuns
  import D = CompressedDecoding
  import opened CarryLess
  import opened Processor
  import opened Execution
  import PT = PageTable

  function IllegalShort(c: bv16): Report {
    Some((Exc(PT.IllegalInstruction), c as bv64))
  }

  /** A reserved encoding: nothing happens but the trap. */
  lemma RefusedShort(h: Hart, c: bv16, o: Oracle)
    requires M.Refused(c)
    ensures ExecuteShort(h, c, o) == Reported(h, IllegalShort(c))
  {
    hide M.Refused, ExecuteShort;
    D.RefusedByHand(h, c, o);
  }

  method ExecuteQuadrant0Store(cpu: Cpu, c: bv16, ghost o: Oracle) returns (r: Report)
    requires cpu.Valid() && Quadrant(c) == 0 && F3(c) >= 5
    modifies cpu.Footprint()
    ensures Reported(cpu.State(), r) == ExecuteShort(old(cpu.State()), c, o)
  {
    hide Cpu.State, X, F, Plus, StoreV, ExecuteShort, Short2, Short7, ImmDouble, ImmWord;
    ghost var h := cpu.State();
    var f3 := F3(c);
    var base := cpu.ReadReg(Short7(c));
    if f3 == 5 {
      M.Fsd(h, c, o);
      var value := cpu.ReadFReg(Short2(c));
      r := StoreValue(cpu, Plus(base, ImmDouble(c)), value, 8, 2);
    } else if f3 == 6 {
      M.Sw(h, c, o);
      var value := cpu.ReadReg(Short2(c));
      r := StoreValue(cpu, Plus(base, ImmWord(c)), value, 4, 2);
    } else {
      M.Sd(h, c, o);
      var value := cpu.ReadReg(Short2(c));
      r := StoreValue(cpu, Plus(base, ImmDouble(c)), value, 8, 2);
    }
  }

  method ExecuteQuadrant0(cpu: Cpu, c: bv16, ghost o: Oracle) returns (r: Report)
    requires cpu.Valid() && Quadrant(c) == 0
    modifies cpu.Footprint()
    ensures Reported(cpu.State(), r) == ExecuteShort(old(cpu.State()), c, o)
  {
    hide Cpu.State, X, Plus, LoadX, LoadF, Write1, ExecuteShort, Short2, Short7, ImmAddi4spn, ImmDouble, ImmWord,
         SpecAddi4spn;
    ghost var h := cpu.State();
    var f3 := F3(c);
    if f3 == 0 {
      R.EmptyAddi4spn(c);
      if ImmAddi4spn(c) == 0 {
        RefusedShort(h, c, o);
        return IllegalShort(c);
      }
      M.Addi4spn(h, c, o);
      var sp := cpu.ReadReg(2);
      r := WriteAndAdvance(cpu, Short2(c), Plus(sp, ImmAddi4spn(c)), 2);
    } else if f3 == 1 {
      M.Fld(h, c, o);
      var base := cpu.ReadReg(Short7(c));
      r := LoadFloat(cpu, 3, Short2(c), Plus(base, ImmDouble(c)), 2);
    } else if f3 == 2 {
      M.Lw(h, c, o);
      var base := cpu.ReadReg(Short7(c));
      r := LoadRegister(cpu, 2, Short2(c), Plus(base, ImmWord(c)), 2);
    } else if f3 == 3 {
      M.Ld(h, c, o);
      var base := cpu.ReadReg(Short7(c));
      r := LoadRegister(cpu, 3, Short2(c), Plus(base, ImmDouble(c)), 2);
    } else if f3 >= 5 {
      r := ExecuteQuadrant0Store(cpu, c, o);
    } else {
      RefusedShort(h, c, o);
      r := IllegalShort(c);
    }
  }

  method ExecuteShortArithmetic(cpu: Cpu, c: bv16, ghost o: Oracle) returns (r: Report)
    requires cpu.Valid() && Quadrant(c) == 1 && F3(c) == 4
    modifies cpu.Footprint()
    ensures Reported(cpu.State(), r) == ExecuteShort(old(cpu.State()), c, o)
  {
    hide Cpu.State, X, Write1, ExecuteShort, Short2, Short7, ImmSmall, ImmShift, Shamt, ShiftRight, Sra, And, Or, Xor,
         Minus, Widen, Add32, Sub32, Low32, Low2, Mid2, Bit12, Quadrant, F3;
    ghost var h := cpu.State();
    var funct2 := Low2(c);
    var value := cpu.ReadReg(Short7(c));
    if funct2 == 0 {
      M.Srli(h, c, o);
      r := WriteAndAdvance(cpu, Short7(c), ShiftRight(value, Shamt(ImmShift(c))), 2);
    } else if funct2 == 1 {
      M.Srai(h, c, o);
      r := WriteAndAdvance(cpu, Short7(c), Sra(value, Shamt(ImmShift(c))), 2);
    } else if funct2 == 2 {
      M.Andi(h, c, o);
      r := WriteAndAdvance(cpu, Short7(c), And(value, ImmSmall(c)), 2);
    } else {
      r := ExecuteShortOperation(cpu, c, o);
    }
  }

  /** The six operations on two short registers. */
  method ExecuteShortOperation(cpu: Cpu, c: bv16, ghost o: Oracle) returns (r: Report)
    requires cpu.Valid() && Quadrant(c) == 1 && F3(c) == 4 && Low2(c) == 3
    modifies cpu.Footprint()
    ensures Reported(cpu.State(), r) == ExecuteShort(old(cpu.State()), c, o)
  {
    hide Cpu.State, X, Write1, ExecuteShort, Short2, Short7, And, Or, Xor, Minus, Widen, Add32, Sub32, Low32, Low2,
         Mid2, Bit12, Quadrant, F3;
    ghost var h := cpu.State();
    var value := cpu.ReadReg(Short7(c));
    var other := cpu.ReadReg(Short2(c));
    var low := Mid2(c);
    if !Bit12(c) && low == 0 {
      M.Sub(h, c, o);
      r := WriteAndAdvance(cpu, Short7(c), Minus(value, other), 2);
    } else if !Bit12(c) && low == 1 {
      M.Xor2(h, c, o);
      r := WriteAndAdvance(cpu, Short7(c), Xor(value, other), 2);
    } else if !Bit12(c) && low == 2 {
      M.Or2(h, c, o);
      r := WriteAndAdvance(cpu, Short7(c), Or(value, other), 2);
    } else if !Bit12(c) {
      M.And2(h, c, o);
      r := WriteAndAdvance(cpu, Short7(c), And(value, other), 2);
    } else if low == 0 {
      M.Subw(h, c, o);
      r := WriteAndAdvance(cpu, Short7(c), Widen(Sub32(Low32(value), Low32(other))), 2);
    } else if low == 1 {
      M.Addw(h, c, o);
      r := WriteAndAdvance(cpu, Short7(c), Widen(Add32(Low32(value), Low32(other))), 2);
    } else {
      RefusedShort(h, c, o);
      r := IllegalShort(c);
    }
  }

  method ExecuteQuadrant1(cpu: Cpu, c: bv16, ghost o: Oracle) returns (r: Report)
    requires cpu.Valid() && Quadrant(c) == 1
    modifies cpu.Footprint()
    ensures Reported(cpu.State(), r) == ExecuteShort(old(cpu.State()), c, o)
  {
    hide Cpu.State, Plus, Write1, ExecuteShort, Short2, Short7, Reg7, ImmSmall, ImmAddi16sp, ImmLui, ImmJump, ImmBranch,
         Widen, Add32, Low32, BranchIf, HartState.Index;
    ghost var h := cpu.State();
    var f3 := F3(c);
    if f3 == 0 {
      M.Addi(h, c, o);
      if Reg7(c) == 0 {
        cpu.Advance(2);
        D.NothingWritten(h, Plus(X(h, 0), ImmSmall(c)));
        r := None;
      } else {
        var value := cpu.ReadReg(Reg7(c));
        r := WriteAndAdvance(cpu, Reg7(c), Plus(value, ImmSmall(c)), 2);
      }
    } else if f3 == 1 {
      M.Addiw(h, c, o);
      var value := cpu.ReadReg(Reg7(c));
      r := WriteAndAdvance(cpu, Reg7(c), Widen(Add32(Low32(value), Low32(ImmSmall(c)))), 2);
    } else if f3 == 2 {
      M.Li(h, c, o);
      r := WriteAndAdvance(cpu, Reg7(c), ImmSmall(c), 2);
    } else if f3 == 3 {
      if Reg7(c) == 2 {
        M.Addi16sp(h, c, o);
        var sp := cpu.ReadReg(2);
        r := WriteAndAdvance(cpu, 2, Plus(sp, ImmAddi16sp(c)), 2);
      } else {
        M.Lui(h, c, o);
        r := WriteAndAdvance(cpu, Reg7(c), ImmLui(c), 2);
      }
    } else if f3 == 4 {
      r := ExecuteShortArithmetic(cpu, c, o);
    } else {
      r := ExecuteShortJump(cpu, c, o);
    }
  }

  /** C.J, C.BEQZ and C.BNEZ. */
  method ExecuteShortJump(cpu: Cpu, c: bv16, ghost o: Oracle) returns (r: Report)
    requires cpu.Valid() && Quadrant(c) == 1 && F3(c) >= 5
    modifies cpu.Footprint()
    ensures Reported(cpu.State(), r) == ExecuteShort(old(cpu.State()), c, o)
  {
    hide Plus, ExecuteShort, Short7, ImmJump, ImmBranch, BranchIf, HartState.Index;
    ghost var h := cpu.State();
    var f3 := F3(c);
    if f3 == 5 {
      M.J(h, c, o);
      cpu.SetPc(Plus(cpu.pc, ImmJump(c)));
      r := None;
    } else {
      hide Cpu.State;
      var value := cpu.ReadReg(Short7(c));
      if f3 == 6 {
        M.Beqz(h, c, o);
        r := BranchWhen(cpu, value == 0, ImmBranch(c), 2);
      } else {
        M.Bnez(h, c, o);
        r := BranchWhen(cpu, value != 0, ImmBranch(c), 2);
      }
    }
  }

  /** C.JR, C.MV, C.EBREAK, C.JALR and C.ADD. */
  method ExecuteShortRegister(cpu: Cpu, c: bv16, ghost o: Oracle) returns (r: Report)
    requires cpu.Valid() && Quadrant(c) == 2 && F3(c) == 4
    modifies cpu.Footprint()
    ensures Reported(cpu.State(), r) == ExecuteShort(old(cpu.State()), c, o)
  {
    hide Plus, Write1, ExecuteShort, Reg2, Reg7, Bit12, X, SetX, Quadrant, F3;
    ghost var h := cpu.State();
    if !Bit12(c) {
      if Reg2(c) == 0 {
        M.ThroughRegister(h, c, o);
        var target := cpu.ReadReg(Reg7(c));
        cpu.SetPc(target);
        r := None;
      } else {
        M.Mv(h, c, o);
        var value := cpu.ReadReg(Reg2(c));
        r := WriteAndAdvance(cpu, Reg7(c), value, 2);
      }
    } else if Reg2(c) == 0 {
      if Reg7(c) == 0 {
        M.Ebreak(h, c, o);
        r := Some((Exc(PT.Breakpoint), cpu.pc));
      } else {
        M.ThroughRegister(h, c, o);
        cpu.WriteReg(1, Plus(cpu.pc, 2));
        var target := cpu.ReadReg(Reg7(c));
        cpu.SetPc(target);
        r := None;
      }
    } else {
      M.Add2(h, c, o);
      var value := cpu.ReadReg(Reg7(c));
      var other := cpu.ReadReg(Reg2(c));
      r := WriteAndAdvance(cpu, Reg7(c), Plus(value, other), 2);
    }
  }

  method ExecuteQuadrant2(cpu: Cpu, c: bv16, ghost o: Oracle) returns (r: Report)
    requires cpu.Valid() && Quadrant(c) == 2
    modifies cpu.Footprint()
    ensures Reported(cpu.State(), r) == ExecuteShort(old(cpu.State()), c, o)
  {
    hide Cpu.State, X, F, Plus, LoadX, LoadF, StoreV, Write1, ExecuteShort, Reg2, Reg7, ImmDoubleSp, ImmWordSp,
         ImmWordSpS, ImmDoubleSpS, ImmShift, Shamt, ShiftLeft;
    ghost var h := cpu.State();
    var f3 := F3(c);
    if f3 == 4 {
      r := ExecuteShortRegister(cpu, c, o);
    } else if f3 == 0 {
      M.Slli(h, c, o);
      var value := cpu.ReadReg(Reg7(c));
      r := WriteAndAdvance(cpu, Reg7(c), ShiftLeft(value, Shamt(ImmShift(c))), 2);
    } else if (f3 == 2 || f3 == 3) && Reg7(c) == 0 {
      RefusedShort(h, c, o);
      r := IllegalShort(c);
    } else {
      var sp := cpu.ReadReg(2);
      if f3 == 1 {
        M.Fldsp(h, c, o);
        r := LoadFloat(cpu, 3, Reg7(c), Plus(sp, ImmDoubleSp(c)), 2);
      } else if f3 == 2 {
        M.Lwsp(h, c, o);
        r := LoadRegister(cpu, 2, Reg7(c), Plus(sp, ImmWordSp(c)), 2);
      } else if f3 == 3 {
        M.Ldsp(h, c, o);
        r := LoadRegister(cpu, 3, Reg7(c), Plus(sp, ImmDoubleSp(c)), 2);
      } else if f3 == 5 {
        M.Fsdsp(h, c, o);
        var value := cpu.ReadFReg(Reg2(c));
        r := StoreValue(cpu, Plus(sp, ImmDoubleSpS(c)), value, 8, 2);
      } else if f3 == 6 {
        M.Swsp(h, c, o);
        var value := cpu.ReadReg(Reg2(c));
        r := StoreValue(cpu, Plus(sp, ImmWordSpS(c)), value, 4, 2);
      } else {
        M.Sdsp(h, c, o);
        var value := cpu.ReadReg(Reg2(c));
        r := StoreValue(cpu, Plus(sp, ImmDoubleSpS(c)), value, 8, 2);
      }
    }
  }

  /** A 16-bit instruction leaves the processor, and reports, as the execution of its expansion does with
      the length set to two, unless it is C.JR or C.JALR; a reserved encoding is refused. */
  method ExecuteCompressed(cpu: Cpu, c: bv16, ghost o: Oracle) returns (r: Report)
    requires cpu.Valid()
    modifies cpu.Footprint()
    ensures Reported(cpu.State(), r) == ExecuteShort(old(cpu.State()), c, o) == D.ByHand(old(cpu.State()), c)
    ensures Expand(c).Some? && !IsRegisterJump(c)
            ==> Reported(cpu.State(), r) == Execute(old(cpu.State()), Expand(c).value, 2, o)
    ensures Expand(c) == None
            ==> cpu.State() == old(cpu.State()) && r == Some((Exc(PT.IllegalInstruction), c as bv64))
  {
    hide Cpu.State, Expand, Execute, IsRegisterJump, D.ByHand;
    ghost var h := cpu.State();
    D.DecoderComputes(h, c, o);
    var quadrant := Quadrant(c);
    if quadrant == 0 {
      r := ExecuteQuadrant0(cpu, c, o);
    } else if quadrant == 1 {
      r := ExecuteQuadrant1(cpu, c, o);
    } else if quadrant == 2 {
      r := ExecuteQuadrant2(cpu, c, o);
    } else {
      RefusedShort(h, c, o);
      r := IllegalShort(c);
    }
  }
}
