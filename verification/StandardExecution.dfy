/** `execute` and `step`: the 32-bit instructions and the main loop body as methods on the processor. */
module StandardExecution {
  import opened Words
  import opened Memory
  import opened CsrFile
  import BusRouting
  import opened HartState
  import opened Traps
  import opened Standard
  import opened CarryLess
  import opened BitManipulation
  import opened Processor
  import opened Execution
  import opened Compressed
  import CE = CompressedExecution
  import R = Run
  import PT = PageTable
  import VA = VirtualAccess

  function IllegalWord(i: bv32): Report {
    Some((Exc(PT.IllegalInstruction), i as bv64))
  }

  // ----- Memory-ordering and cache-block instructions -----

  method ExecuteMiscMem(cpu: Cpu, i: bv32, len: bv64) returns (r: Report)
    requires cpu.Valid()
    modifies cpu.Footprint()
    ensures Reported(cpu.State(), r) == MiscMem(old(cpu.State()), i, len)
  {
    hide Cpu.State, X, Plus, Block, CboZero, Funct3, Rs1, Rs2;
    var op := Rs2(i);
    r := None;
    if Funct3(i) == 0 || Funct3(i) == 1 {
      cpu.Advance(len);
    } else if Funct3(i) == 2 {
      var va := cpu.ReadReg(Rs1(i));
      if op == 0 || op == 1 || op == 2 {
        cpu.Advance(len);
      } else if op == 4 {
        r := ZeroBlock(cpu, Block(va), len);
      } else {
        r := IllegalWord(i);
      }
    } else {
      r := IllegalWord(i);
    }
  }

  /** The 64 bytes of a block, a doubleword at a time; a refused write is not reported. */
  method ZeroBlock(cpu: Cpu, va: bv64, len: bv64) returns (r: Report)
    requires cpu.Valid()
    modifies cpu.Footprint()
    ensures Reported(cpu.State(), r) == CboZero(old(cpu.State()), va, len)
  {
    hide Cpu.State, Plus, Locate, Num;
    var pa := cpu.Translate(va, PT.Store);
    if pa.Err? {
      return Some((Exc(pa.error), va));
    }
    ghost var k := cpu.State();
    NumZero();
    for n := 0 to 8
      invariant cpu.State() == k.(mem := ZeroWords(k.mem, pa.value, n))
    {
      var a: int := pa.value as int + 8 * n;
      var ok := cpu.WriteDoubleword(a, 0);
    }
    cpu.Advance(len);
    r := None;
  }

  lemma NumZero()
    ensures Num(0) == 0
  {
  }

  // ----- Atomics -----

  method ExecuteAtomic(cpu: Cpu, i: bv32, len: bv64) returns (r: Report)
    requires cpu.Valid()
    modifies cpu.Footprint()
    ensures Reported(cpu.State(), r) == Atomic(old(cpu.State()), i, len)
  {
    hide Cpu.State, X, Plus, Locate, Funct3, Funct5, Rs1, Rs2, Rd, LoadReserved, StoreConditional, AtomicUpdate, IsAmo;
    var f5 := Funct5(i);
    var va := cpu.ReadReg(Rs1(i));
    var pa := cpu.Translate(va, if f5 == LR then PT.Load else PT.Store);
    if pa.Err? {
      return Some((Exc(pa.error), va));
    }
    var f3 := Funct3(i);
    if f3 != 2 && f3 != 3 {
      r := IllegalWord(i);
    } else if f5 == LR {
      r := ReserveAndLoad(cpu, f3 == 2, Rd(i), va, pa.value, len);
    } else if f5 == SC {
      r := StoreIfReserved(cpu, f3 == 2, Rd(i), Rs2(i), va, pa.value, len);
    } else if IsAmo(f5) {
      r := UpdateAtomically(cpu, f5, f3 == 2, Rd(i), Rs2(i), va, pa.value, len);
    } else {
      r := IllegalWord(i);
    }
  }

  method ReserveAndLoad(cpu: Cpu, word: bool, rd: bv5, va: bv64, pa: u64, len: bv64) returns (r: Report)
    requires cpu.Valid()
    modifies cpu.Footprint()
    ensures Reported(cpu.State(), r) == LoadReserved(old(cpu.State()), word, rd, va, pa, len)
  {
    hide Cpu.State, HartState.Index, Plus, ReadAt, Returned, Granule;
    var value := cpu.ReadPhysical(pa, word);
    if value.None? {
      return Some((Exc(PT.LoadAccessFault), va));
    }
    cpu.WriteReg(rd, Returned(word, value.value));
    cpu.SetReservation(pa);
    cpu.Advance(len);
    r := None;
  }

  method StoreIfReserved(cpu: Cpu, word: bool, rd: bv5, rs2: bv5, va: bv64, pa: u64, len: bv64) returns (r: Report)
    requires cpu.Valid()
    modifies cpu.Footprint()
    ensures Reported(cpu.State(), r) == StoreConditional(old(cpu.State()), word, rd, rs2, va, pa, len)
  {
    hide Cpu.State, X, HartState.Index, Plus, WriteAt, Granule, Num;
    var held := cpu.CheckReservation(pa);
    if held {
      r := StoreHeld(cpu, word, rd, rs2, va, pa, len);
    } else {
      cpu.WriteReg(rd, 1);
      cpu.ForgetReservation();
      cpu.Advance(len);
      r := None;
    }
  }

  method StoreHeld(cpu: Cpu, word: bool, rd: bv5, rs2: bv5, va: bv64, pa: u64, len: bv64) returns (r: Report)
    requires cpu.Valid() && Reserved(cpu.State(), pa)
    modifies cpu.Footprint()
    ensures Reported(cpu.State(), r) == StoreConditional(old(cpu.State()), word, rd, rs2, va, pa, len)
  {
    hide Cpu.State, X, HartState.Index, Plus, WriteAt, Granule, Num;
    var value := cpu.ReadReg(rs2);
    var ok := cpu.WritePhysical(pa, word, value);
    if !ok {
      return Some((Exc(PT.StoreAMOAccessFault), va));
    }
    cpu.WriteReg(rd, 0);
    cpu.ForgetReservation();
    cpu.Advance(len);
    r := None;
  }

  method UpdateAtomically(cpu: Cpu, f5: bv5, word: bool, rd: bv5, rs2: bv5, va: bv64, pa: u64, len: bv64)
    returns (r: Report)
    requires cpu.Valid() && IsAmo(f5)
    modifies cpu.Footprint()
    ensures Reported(cpu.State(), r) == AtomicUpdate(old(cpu.State()), f5, word, rd, rs2, va, pa, len)
  {
    hide Cpu.State, X, HartState.Index, Plus, ReadAt, WriteAt, Returned, Operand, Combine, Num, IsAmo;
    var value := cpu.ReadPhysical(pa, word);
    if value.None? {
      return Some((Exc(PT.LoadAccessFault), va));
    }
    var was := Returned(word, value.value);
    var other := cpu.ReadReg(rs2);
    var next := Combine(f5, Operand(f5, word, was), Operand(f5, word, other));
    var ok := cpu.WritePhysical(pa, word, next);
    if !ok {
      return Some((Exc(PT.StoreAMOAccessFault), va));
    }
    cpu.WriteReg(rd, was);
    cpu.ForgetReservation();
    cpu.Advance(len);
    r := None;
  }

  // ----- System instructions -----

  method ExecuteCsr(cpu: Cpu, i: bv32, len: bv64) returns (r: Report)
    requires cpu.Valid()
    modifies cpu.Footprint()
    ensures Reported(cpu.State(), r) == CsrInstruction(old(cpu.State()), i, len)
  {
    hide X, HartState.Index, Plus, Read, Write, Funct3, Rs1, Rd, CsrOf, ValidCsr, Permitted, CsrAccess, Write1;
    var f3 := Funct3(i);
    var a := CsrOf(i);
    var writes := f3 == 1 || f3 == 5 || Rs1(i) != 0;
    if !ValidCsr(a) || !Permitted(a, cpu.mode, writes) {
      return IllegalWord(i);
    }
    var was := AccessCsr(cpu, f3, a, Rd(i), Rs1(i));
    r := WriteAndAdvance(cpu, Rd(i), was, len);
  }

  /** One CSR access, with the supervisor comparator and the time register intercepted. */
  method AccessCsr(cpu: Cpu, f3: bv3, a: CsrAddr, rd: bv5, rs1: bv5) returns (was: bv64)
    requires cpu.Valid()
    modifies cpu.csr, cpu.bus
    ensures var c := CsrAccess(old(cpu.State()), f3, a, rd, rs1);
      && was == c.was
      && cpu.State() == old(cpu.State()).(csr := c.csr, clint := old(cpu.State()).clint.(stimecmp := c.stimecmp))
  {
    hide X, Read, Write, HartState.Index;
    var operand;
    if f3 < 4 {
      operand := cpu.ReadReg(rs1);
    } else {
      operand := rs1 as bv64;
    }
    if f3 == 1 || f3 == 5 {
      was := SwapCsr(cpu, a, operand, f3 == 1);
    } else if f3 == 2 || f3 == 6 {
      was := MaskCsr(cpu, a, true, operand, rd != 0 || rs1 != 0, rs1 != 0);
    } else {
      was := MaskCsr(cpu, a, false, operand, rd != 0 || rs1 != 0, rs1 != 0);
    }
  }

  method SwapCsr(cpu: Cpu, a: CsrAddr, value: bv64, fromBus: bool) returns (was: bv64)
    requires cpu.Valid()
    modifies cpu.csr, cpu.bus
    ensures var c := CsrSwap(old(cpu.State()), a, value, fromBus);
      && was == c.was
      && cpu.State() == old(cpu.State()).(csr := c.csr, clint := old(cpu.State()).clint.(stimecmp := c.stimecmp))
  {
    hide Read, Write;
    if a == STIMECMP {
      if fromBus {
        was := cpu.bus.stimecmp;
        cpu.csr.WriteReg(a, value);
      } else {
        was := cpu.csr.Csrrw(a, value);
      }
      cpu.bus.stimecmp := value;
    } else if a == TIME {
      was := cpu.bus.mtime;
    } else {
      was := cpu.csr.Csrrw(a, value);
    }
  }

  method MaskCsr(cpu: Cpu, a: CsrAddr, setting: bool, mask: bv64, wanted: bool, writes: bool) returns (was: bv64)
    requires cpu.Valid()
    modifies cpu.csr, cpu.bus
    ensures var op := if setting then SetBits(a, mask) else ClearBits(a, mask);
      var c := CsrMask(old(cpu.State()), a, op, wanted, writes);
      && was == c.was
      && cpu.State() == old(cpu.State()).(csr := c.csr, clint := old(cpu.State()).clint.(stimecmp := c.stimecmp))
  {
    hide Read, Write, SetIn, ClearIn;
    if !wanted {
      was := 0;
    } else if a == TIME {
      was := cpu.bus.mtime;
    } else if setting {
      was := cpu.csr.Csrrs(a, mask);
    } else {
      was := cpu.csr.Csrrc(a, mask);
    }
    if writes && a == STIMECMP {
      cpu.bus.stimecmp := cpu.csr.ReadReg(STIMECMP);
    }
  }

  method ExecuteSystem(cpu: Cpu, i: bv32, len: bv64) returns (r: Report)
    requires cpu.Valid()
    modifies cpu.Footprint()
    ensures Reported(cpu.State(), r) == System(old(cpu.State()), i, len)
  {
    hide Plus, Funct3, Funct7, Imm12, CsrInstruction, Mret, Sret;
    var f3 := Funct3(i);
    var f7 := Funct7(i);
    var imm := Imm12(i);
    r := None;
    if f3 == 4 {
      r := IllegalWord(i);
    } else if f3 != 0 {
      r := ExecuteCsr(cpu, i, len);
    } else if f7 == 0x09 || f7 == 0x31 || f7 == 0x11 {
      cpu.Advance(len);
    } else if imm == 0x000 {
      r := Some((Exc(EcallException(cpu.mode)), 0));
    } else if imm == 0x001 {
      r := Some((Exc(PT.Breakpoint), cpu.pc));
    } else if imm == 0x302 {
      cpu.ReturnM();
    } else if imm == 0x102 {
      cpu.ReturnS();
    } else if imm == 0x105 || imm == 0x00D || imm == 0x01D {
      cpu.Advance(len);
    } else {
      r := IllegalWord(i);
    }
  }

  method ExecuteFloating(cpu: Cpu, i: bv32, len: bv64, o: Oracle) returns (r: Report)
    requires cpu.Valid()
    modifies cpu.Footprint()
    ensures Reported(cpu.State(), r) == FloatingPoint(old(cpu.State()), i, len, o)
  {
    hide Plus, Rd, Read, Write, DirtyFs, HartState.Index, Write1;
    var mstatus := cpu.csr.ReadReg(MSTATUS);
    if mstatus & 0x6000 == 0 || o.floating.Unsupported? {
      return IllegalWord(i);
    }
    hide Cpu.State;
    if o.floating.dirty {
      cpu.MarkFsDirty();
    }
    if o.floating.ToX? {
      r := WriteAndAdvance(cpu, Rd(i), o.floating.value, len);
    } else {
      cpu.WriteFReg(Rd(i), o.floating.value);
      cpu.Advance(len);
      r := None;
    }
  }

  // ----- One instruction -----

  method ExecuteLoad(cpu: Cpu, i: bv32, len: bv64) returns (r: Report)
    requires cpu.Valid() && (Opcode(i) == 0x03 || Opcode(i) == 0x07)
    modifies cpu.Footprint()
    ensures Reported(cpu.State(), r)
            == if Opcode(i) == 0x03 then Load(old(cpu.State()), i, len) else FLoad(old(cpu.State()), i, len)
  {
    hide Cpu.State, X, Plus, LoadX, LoadF, Funct3, Opcode, Rs1, Rd, ImmI;
    var f3 := Funct3(i);
    var base := cpu.ReadReg(Rs1(i));
    if Opcode(i) == 0x03 && f3 != 7 {
      r := LoadRegister(cpu, f3, Rd(i), Plus(base, ImmI(i)), len);
    } else if Opcode(i) == 0x07 && (f3 == 2 || f3 == 3) {
      r := LoadFloat(cpu, f3, Rd(i), Plus(base, ImmI(i)), len);
    } else {
      r := IllegalWord(i);
    }
  }

  method ExecuteStore(cpu: Cpu, i: bv32, len: bv64) returns (r: Report)
    requires cpu.Valid() && (Opcode(i) == 0x23 || Opcode(i) == 0x27)
    modifies cpu.Footprint()
    ensures Reported(cpu.State(), r)
            == if Opcode(i) == 0x23 then Standard.Store(old(cpu.State()), i, len) else FStore(old(cpu.State()), i, len)
  {
    hide Cpu.State, X, F, Plus, StoreV, Funct3, Opcode, Rs1, Rs2, ImmS, And;
    var f3 := Funct3(i);
    var base := cpu.ReadReg(Rs1(i));
    if Opcode(i) == 0x23 && f3 < 4 {
      var value := cpu.ReadReg(Rs2(i));
      r := StoreValue(cpu, Plus(base, ImmS(i)), value, WidthOf(f3), len);
    } else if Opcode(i) == 0x27 && f3 == 2 {
      var value := cpu.ReadFReg(Rs2(i));
      r := StoreValue(cpu, Plus(base, ImmS(i)), And(value, 0xFFFF_FFFF), 4, len);
    } else if Opcode(i) == 0x27 && f3 == 3 {
      var value := cpu.ReadFReg(Rs2(i));
      r := StoreValue(cpu, Plus(base, ImmS(i)), value, 8, len);
    } else {
      r := IllegalWord(i);
    }
  }

  method WriteOrRefuse(cpu: Cpu, i: bv32, v: Option<bv64>, len: bv64) returns (r: Report)
    requires cpu.Valid()
    modifies cpu.Footprint()
    ensures Reported(cpu.State(), r) == OrIllegal(old(cpu.State()), i, Rd(i), v, len)
  {
    hide Cpu.State, Rd, Write1;
    if v.None? {
      r := IllegalWord(i);
    } else {
      r := WriteAndAdvance(cpu, Rd(i), v.value, len);
    }
  }

  /** The carry-less products by their loops, everything else by value. */
  method ComputeOp(i: bv32, x: bv64, y: bv64) returns (v: Option<bv64>)
    ensures v == Alu(Funct7(i), Funct3(i), x, y)
  {
    hide Product, Middle, Plus, Minus, And, Or, Xor, Less, ShiftLeft, ShiftRight, Sra, Shamt, Funct3, Funct7;
    if Funct7(i) == 0x05 && Funct3(i) == 1 {
      var p := Clmul(x, y);
      return Some(p);
    } else if Funct7(i) == 0x05 && Funct3(i) == 2 {
      var p := Clmulr(x, y);
      return Some(p);
    } else if Funct7(i) == 0x05 && Funct3(i) == 3 {
      var p := Clmulh(x, y);
      return Some(p);
    }
    return Alu(Funct7(i), Funct3(i), x, y);
  }

  /** ORC.B by its loop, everything else by value. */
  method ComputeOpImm(i: bv32, x: bv64) returns (v: bv64)
    ensures v == AluImm(i, Funct3(i), x, ImmI(i))
  {
    hide AluImmLeft, Plus, And, Or, Xor, Less, ShiftLeft, ShiftRight, Sra, Shamt, Funct3, Funct7, ImmI, OrBytes,
         SwapBytes, ExtractBit, RotateR, Imm12;
    if Funct3(i) == 5 && Imm12(i) == 0x287 {
      v := OrCombine(x);
    } else {
      v := AluImm(i, Funct3(i), x, ImmI(i));
    }
  }

  lemma ArithmeticIs(h: Hart, i: bv32, len: bv64, o: Oracle)
    ensures var x, y := X(h, Rs1(i)), X(h, Rs2(i));
      && (Opcode(i) == 0x13 ==> Execute(h, i, len, o) == Write1(h, Rd(i), AluImm(i, Funct3(i), x, ImmI(i)), len))
      && (Opcode(i) == 0x33 ==> Execute(h, i, len, o) == OrIllegal(h, i, Rd(i), Alu(Funct7(i), Funct3(i), x, y), len))
      && (Opcode(i) == 0x1B ==> Execute(h, i, len, o) == OrIllegal(h, i, Rd(i), AluImmW(i, Funct3(i), x, ImmI(i)), len))
      && (Opcode(i) == 0x3B ==> Execute(h, i, len, o) == OrIllegal(h, i, Rd(i), AluW(Funct7(i), Funct3(i), x, y), len))
  {
    hide X, Write1, OrIllegal, Funct3, Funct7, Opcode, Rs1, Rs2, Rd, ImmI, AluImm, Alu, AluImmW, AluW, Plus;
  }

  method ExecuteArithmetic(cpu: Cpu, i: bv32, len: bv64, o: Oracle) returns (r: Report)
    requires cpu.Valid() && (var op := Opcode(i); op == 0x13 || op == 0x33 || op == 0x1B || op == 0x3B)
    modifies cpu.Footprint()
    ensures Reported(cpu.State(), r) == Execute(old(cpu.State()), i, len, o)
  {
    hide Cpu.State, Execute, X, Write1, OrIllegal, Funct3, Funct7, Opcode, Rs1, Rs2, Rd, ImmI, AluImm, Alu, AluImmW,
         AluW;
    ArithmeticIs(cpu.State(), i, len, o);
    var op := Opcode(i);
    var x := cpu.ReadReg(Rs1(i));
    var y := cpu.ReadReg(Rs2(i));
    if op == 0x13 {
      var v := ComputeOpImm(i, x);
      r := WriteAndAdvance(cpu, Rd(i), v, len);
    } else if op == 0x33 {
      var v := ComputeOp(i, x, y);
      r := WriteOrRefuse(cpu, i, v, len);
    } else if op == 0x1B {
      r := WriteOrRefuse(cpu, i, AluImmW(i, Funct3(i), x, ImmI(i)), len);
    } else {
      r := WriteOrRefuse(cpu, i, AluW(Funct7(i), Funct3(i), x, y), len);
    }
  }

  method ExecuteJumpOrUpper(cpu: Cpu, i: bv32, len: bv64, ghost o: Oracle) returns (r: Report)
    requires cpu.Valid() && (var op := Opcode(i); op == 0x37 || op == 0x17 || op == 0x6F || op == 0x67 || op == 0x63)
    modifies cpu.Footprint()
    ensures Reported(cpu.State(), r) == Execute(old(cpu.State()), i, len, o)
  {
    hide X, Write1, Jump, BranchIf, Funct3, Opcode, Rs1, Rs2, Rd, ImmI, ImmU, ImmJ, ImmB, Plus, Even, Branches,
         AluImm, Alu, AluImmW, AluW;
    var op := Opcode(i);
    var pc := cpu.pc;
    assert pc == cpu.State().pc;
    hide Cpu.State;
    if op == 0x37 {
      r := WriteAndAdvance(cpu, Rd(i), ImmU(i), len);
    } else if op == 0x17 {
      r := WriteAndAdvance(cpu, Rd(i), Plus(pc, ImmU(i)), len);
    } else if op == 0x6F {
      r := JumpTo(cpu, Rd(i), Plus(pc, ImmJ(i)), len);
    } else {
      var x := cpu.ReadReg(Rs1(i));
      if op == 0x67 {
        r := JumpTo(cpu, Rd(i), Even(Plus(x, ImmI(i))), len);
      } else {
        var y := cpu.ReadReg(Rs2(i));
        var taken := Branches(Funct3(i), x, y);
        if taken.None? {
          r := IllegalWord(i);
        } else {
          r := BranchWhen(cpu, taken.value, ImmB(i), len);
        }
      }
    }
  }

  /** The instruction dispatch: 16-bit instructions by their own decoder, the rest by opcode. */
  method ExecuteInstruction(cpu: Cpu, i: bv32, o: Oracle) returns (r: Report)
    requires cpu.Valid()
    modifies cpu.Footprint()
    ensures Reported(cpu.State(), r) == R.Dispatch(old(cpu.State()), i, o)
  {
    hide Cpu.State, ExecuteShort, Execute, R.IsShort, R.Short;
    if R.IsShort(i) {
      r := CE.ExecuteCompressed(cpu, R.Short(i), o);
    } else {
      r := ExecuteWord(cpu, i, o);
    }
  }

  method ExecuteWord(cpu: Cpu, i: bv32, o: Oracle) returns (r: Report)
    requires cpu.Valid()
    modifies cpu.Footprint()
    ensures Reported(cpu.State(), r) == Execute(old(cpu.State()), i, 4, o)
  {
    hide Cpu.State, Opcode, X, Write1, Jump, OrIllegal, Branch, Load, FLoad, Standard.Store, FStore, MiscMem, Atomic,
         System, FloatingPoint, Funct3, Funct7, Rs1, Rs2, Rd, ImmI, ImmU, ImmJ, Plus, Even, AluImm, Alu, AluImmW, AluW;
    var op := Opcode(i);
    if op == 0x37 || op == 0x17 || op == 0x6F || op == 0x67 || op == 0x63 {
      r := ExecuteJumpOrUpper(cpu, i, 4, o);
    } else if op == 0x03 || op == 0x07 {
      r := ExecuteLoad(cpu, i, 4);
    } else if op == 0x23 || op == 0x27 {
      r := ExecuteStore(cpu, i, 4);
    } else if op == 0x13 || op == 0x33 || op == 0x1B || op == 0x3B {
      r := ExecuteArithmetic(cpu, i, 4, o);
    } else if op == 0x0F {
      r := ExecuteMiscMem(cpu, i, 4);
    } else if op == 0x2F {
      r := ExecuteAtomic(cpu, i, 4);
    } else if op == 0x73 {
      r := ExecuteSystem(cpu, i, 4);
    } else if op == 0x53 || op == 0x43 || op == 0x47 || op == 0x4B || op == 0x4F {
      r := ExecuteFloating(cpu, i, 4, o);
    } else {
      r := IllegalWord(i);
    }
  }

  // ----- Fetch and step -----

  method FetchUpperHalf(cpu: Cpu, pa: u64, lower: bv32) returns (r: Result<bv32, PT.Exception>)
    requires cpu.Valid()
    modifies cpu.Footprint()
    ensures var f := R.FetchUpper(old(cpu.State()), pa, lower);
      r == f.result && cpu.State() == old(cpu.State()).(mem := f.mem)
  {
    hide Locate, ReadAt, R.AtPageEnd, R.Both, R.Halfword, Plus, WrappingAdd;
    var upper: Result<u64, PT.Exception> := Ok(WrappingAdd(pa, 2));
    if R.AtPageEnd(cpu.pc) {
      upper := cpu.Translate(Plus(cpu.pc, 2), PT.Instruction);
    }
    if upper.Err? {
      return Err(upper.error);
    }
    var half := cpu.bus.Read16(upper.value);
    if half.None? {
      return Err(PT.InstructionAccessFault);
    }
    return Ok(R.Both(lower, R.Halfword(half.value)));
  }

  method FetchInstruction(cpu: Cpu) returns (r: Result<bv32, PT.Exception>)
    requires cpu.Valid()
    modifies cpu.Footprint()
    ensures var f := R.Fetch(old(cpu.State())); r == f.result && cpu.State() == old(cpu.State()).(mem := f.mem)
  {
    hide Locate, ReadAt, R.IsShort, R.OddPc, R.Halfword, R.FetchUpper;
    if R.OddPc(cpu.pc) {
      return Err(PT.InstructionAddressMisaligned);
    }
    var pa := cpu.Translate(cpu.pc, PT.Instruction);
    if pa.Err? {
      return Err(pa.error);
    }
    var half := cpu.bus.Read16(pa.value);
    if half.None? {
      return Err(PT.InstructionAccessFault);
    }
    var lower := R.Halfword(half.value);
    if R.IsShort(lower) {
      return Ok(lower);
    }
    r := FetchUpperHalf(cpu, pa.value, lower);
  }

  /** Fetch, execution and trap handling when no interrupt is taken. */
  method RunOne(cpu: Cpu, o: Oracle)
    requires cpu.Valid()
    modifies cpu.Footprint()
    ensures var h := old(cpu.State());
      var f := R.Fetch(h);
      var k := h.(mem := f.mem);
      cpu.State() == match f.result
        case Err(x) => HandleTrap(k, Exc(x), k.pc)
        case Ok(i) => R.Settle(R.Dispatch(k, i, o))
  {
    hide R.Fetch, R.Dispatch, HandleTrap;
    var fetched := FetchInstruction(cpu);
    if fetched.Err? {
      cpu.HandleTrap(Exc(fetched.error), cpu.pc);
    } else {
      var report := ExecuteInstruction(cpu, fetched.value, o);
      if report.Some? {
        cpu.HandleTrap(report.value.0, report.value.1);
      }
    }
  }

  /** One turn of the main loop: interrupt check, fetch, execution, trap handling, timer. */
  method StepOnce(cpu: Cpu, e: R.Env)
    requires cpu.Valid()
    modifies cpu.Footprint()
    ensures cpu.State() == R.Step(old(cpu.State()), e)
  {
    hide R.Fetch, R.Dispatch, R.Settle, HandleTrap, R.Tick, CheckInterrupt, LinesOf;
    var chosen := cpu.CheckInterrupt(e.external, e.sExternal);
    if chosen.Some? {
      cpu.HandleTrap(Intr(chosen.value), 0);
    } else {
      RunOne(cpu, e.oracle);
    }
    AdvanceTimer(cpu, e.ticks);
  }

  method AdvanceTimer(cpu: Cpu, ticks: bv64)
    requires cpu.Valid()
    modifies cpu.bus
    ensures cpu.State() == R.Tick(old(cpu.State()), ticks)
  {
    hide BusRouting.WrappingSum;
    cpu.bus.TickTimerBy(ticks);
  }
}
