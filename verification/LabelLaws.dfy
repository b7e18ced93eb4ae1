/** The label of a step is told without looking at the reservation. */
module LabelLaws {
  import opened Words
  import opened Memory
  import opened CsrFile
  import opened HartState
  import opened Traps
  import opened Standard
  import opened Compressed
  import opened Run
  import opened LrSc
  import PT = PageTable

  /** The same state with another reservation. */
  function With(h: Hart, x: Option<u64>): Hart {
    h.(reservation := x)
  }

  predicate Alike(a: Outcome, b: Outcome) {
    a.Raise? == b.Raise?
  }

  lemma SameReads(h: Hart, x: Option<u64>)
    ensures forall r :: X(With(h, x), r) == X(h, r)
    ensures forall r :: F(With(h, x), r) == F(h, r)
    ensures Space(With(h, x)) == Space(h)
  {
    hide HartState.Index, Num, CsrFile.Read;
  }

  lemma SameAccess(h: Hart, x: Option<u64>, va: bv64, v: bv64, n: nat, access: PT.AccessType)
    ensures LoadFrom(With(h, x), va, n) == LoadFrom(h, va, n)
    ensures StoreTo(With(h, x), va, v, n) == StoreTo(h, va, v, n)
    ensures Locate(With(h, x), va, access) == Locate(h, va, access)
  {
    hide Num, CsrFile.Read, PT.Translate;
  }

  lemma LoadsAlike(h: Hart, x: Option<u64>, i: bv32, len: bv64)
    ensures Alike(Load(With(h, x), i, len), Load(h, i, len)) && Alike(FLoad(With(h, x), i, len), FLoad(h, i, len))
  {
    hide Plus, Funct3, Rs1, Rd, X, LoadX, LoadF, ImmI;
    SameReads(h, x);
    LoadXAlike(h, x, Funct3(i), Rd(i), Plus(X(h, Rs1(i)), ImmI(i)), len);
    LoadFAlike(h, x, Funct3(i), Rd(i), Plus(X(h, Rs1(i)), ImmI(i)), len);
  }

  lemma StoreVAlike(h: Hart, x: Option<u64>, va: bv64, v: bv64, n: nat, len: bv64)
    ensures Alike(StoreV(With(h, x), va, v, n, len), StoreV(h, va, v, n, len))
  {
    hide Plus, StoreTo;
    SameAccess(h, x, va, v, n, PT.Store);
  }

  lemma LoadXAlike(h: Hart, x: Option<u64>, f3: bv3, rd: bv5, va: bv64, len: bv64)
    ensures Alike(LoadX(With(h, x), f3, rd, va, len), LoadX(h, f3, rd, va, len))
  {
    hide Plus, LoadFrom, Extend, Wide, WidthOf, SetX;
    SameAccess(h, x, va, 0, WidthOf(f3), PT.Load);
  }

  lemma LoadFAlike(h: Hart, x: Option<u64>, f3: bv3, rd: bv5, va: bv64, len: bv64)
    ensures Alike(LoadF(With(h, x), f3, rd, va, len), LoadF(h, f3, rd, va, len))
  {
    hide Plus, LoadFrom, Wide, WidthOf, SetF, Box, CsrFile.Read, CsrFile.Write, DirtyFs;
    SameAccess(h, x, va, 0, WidthOf(f3), PT.Load);
  }

  lemma StoresAlike(h: Hart, x: Option<u64>, i: bv32, len: bv64)
    ensures Alike(Standard.Store(With(h, x), i, len), Standard.Store(h, i, len))
  {
    hide Plus, Funct3, Rs1, Rs2, X, F, StoreV, WidthOf, ImmS;
    SameReads(h, x);
    StoreVAlike(h, x, Plus(X(h, Rs1(i)), ImmS(i)), X(h, Rs2(i)), WidthOf(Funct3(i)), len);
  }

  lemma FStoresAlike(h: Hart, x: Option<u64>, i: bv32, len: bv64)
    ensures Alike(FStore(With(h, x), i, len), FStore(h, i, len))
  {
    hide Plus, Funct3, Rs1, Rs2, X, F, StoreV, And, ImmS;
    SameReads(h, x);
    StoreVAlike(h, x, Plus(X(h, Rs1(i)), ImmS(i)), And(F(h, Rs2(i)), 0xFFFF_FFFF), 4, len);
    StoreVAlike(h, x, Plus(X(h, Rs1(i)), ImmS(i)), F(h, Rs2(i)), 8, len);
  }

  lemma BranchesAlike(h: Hart, x: Option<u64>, i: bv32, len: bv64)
    ensures Alike(Branch(With(h, x), i, len), Branch(h, i, len))
  {
    hide Plus, Funct3, Rs1, Rs2, X, Branches, ImmB;
    SameReads(h, x);
  }

  lemma MiscMemAlike(h: Hart, x: Option<u64>, i: bv32, len: bv64)
    ensures Alike(MiscMem(With(h, x), i, len), MiscMem(h, i, len))
  {
    hide Plus, Funct3, Rs1, Rs2, X, Locate, ZeroWords, Block;
    SameReads(h, x);
    SameAccess(h, x, Block(X(h, Rs1(i))), 0, 8, PT.Store);
  }

  lemma FloatingAlike(h: Hart, x: Option<u64>, i: bv32, len: bv64, o: Oracle)
    ensures Alike(FloatingPoint(With(h, x), i, len, o), FloatingPoint(h, i, len, o))
  {
    hide Plus, Rd, CsrFile.Read, CsrFile.Write, SetX, SetF, DirtyFs;
  }

  lemma CsrAlike(h: Hart, x: Option<u64>, i: bv32, len: bv64)
    ensures Alike(CsrInstruction(With(h, x), i, len), CsrInstruction(h, i, len))
  {
    hide Plus, Funct3, Rs1, Rd, CsrOf, ValidCsr, Permitted, X, CsrAccess, SetX;
    SameCsrAccess(h, x, Funct3(i), CsrOf(i), Rd(i), Rs1(i));
  }

  lemma SameCsrAccess(h: Hart, x: Option<u64>, f3: bv3, a: CsrFile.CsrAddr, rd: bv5, rs1: bv5)
    ensures CsrAccess(With(h, x), f3, a, rd, rs1) == CsrAccess(h, f3, a, rd, rs1)
  {
    hide CsrSwap, CsrMask;
    SameReads(h, x);
    SameSwap(h, x, a);
    hide X;
  }

  lemma SameSwap(h: Hart, x: Option<u64>, a: CsrFile.CsrAddr)
    ensures forall v, b :: CsrSwap(With(h, x), a, v, b) == CsrSwap(h, a, v, b)
    ensures forall op, b, c :: CsrMask(With(h, x), a, op, b, c) == CsrMask(h, a, op, b, c)
  {
    hide CsrFile.Read, CsrFile.Write, CsrFile.Apply;
  }

  lemma SystemAlike(h: Hart, x: Option<u64>, i: bv32, len: bv64, o: Oracle)
    ensures Alike(System(With(h, x), i, len), System(h, i, len))
    ensures Alike(FloatingPoint(With(h, x), i, len, o), FloatingPoint(h, i, len, o))
  {
    hide Plus, Funct3, Funct7, Imm12, CsrFile.Read, CsrFile.Write, CsrInstruction, FloatingPoint;
    CsrAlike(h, x, i, len);
    FloatingAlike(h, x, i, len, o);
  }

  lemma LrAlike(h: Hart, x: Option<u64>, word: bool, rd: bv5, va: bv64, pa: u64, len: bv64)
    ensures Alike(LoadReserved(With(h, x), word, rd, va, pa, len), LoadReserved(h, word, rd, va, pa, len))
  {
    hide Plus, Returned, Granule, ReadAt, SetX;
  }

  lemma AmoAlike(h: Hart, x: Option<u64>, f5: bv5, word: bool, rd: bv5, rs2: bv5, va: bv64, pa: u64, len: bv64)
    requires IsAmo(f5)
    ensures Alike(AtomicUpdate(With(h, x), f5, word, rd, rs2, va, pa, len),
            AtomicUpdate(h, f5, word, rd, rs2, va, pa, len))
  {
    SameReads(h, x);
    hide Plus, X, Combine, Returned, Operand, ReadAt, WriteAt, Num, SetX;
  }

  /** All atomics but SC; SC is cleared by either of its outcomes. */
  lemma AtomicAlike(h: Hart, x: Option<u64>, i: bv32, len: bv64)
    requires Funct5(i) != SC
    ensures Alike(Atomic(With(h, x), i, len), Atomic(h, i, len))
  {
    hide Funct3, Funct5, Rs1, Rs2, Rd, X, Locate, IsAmo, LoadReserved, AtomicUpdate;
    SameReads(h, x);
    var va := X(h, Rs1(i));
    SameAccess(h, x, va, 0, 8, PT.Load);
    SameAccess(h, x, va, 0, 8, PT.Store);
    var t := Locate(h, va, if Funct5(i) == LR then PT.Load else PT.Store);
    if t.result.Ok? {
      var k := h.(mem := t.mem);
      LrAlike(k, x, Funct3(i) == 2, Rd(i), va, t.result.value, len);
      if IsAmo(Funct5(i)) {
        AmoAlike(k, x, Funct5(i), Funct3(i) == 2, Rd(i), Rs2(i), va, t.result.value, len);
      }
    }
  }

  lemma ResultAlike(h: Hart, x: Option<u64>, i: bv32, rd: bv5, a: Option<bv64>, len: bv64)
    ensures Alike(OrIllegal(With(h, x), i, rd, a, len), OrIllegal(h, i, rd, a, len))
  {
    hide Plus, SetX;
  }

  lemma NeverTraps(h: Hart, rd: bv5, v: bv64, len: bv64)
    ensures !Write1(h, rd, v, len).Raise? && !Jump(h, rd, v, len).Raise?
  {
    hide Plus, SetX;
  }

  lemma PlainAlike(h: Hart, x: Option<u64>, i: bv32, len: bv64, o: Oracle)
    requires Computes(i)
    ensures Alike(Execute(With(h, x), i, len, o), Execute(h, i, len, o))
  {
    hide Plus, Even, Opcode, Funct3, Funct7, Rs1, Rs2, Rd, X, SetX, Alu, AluImm, AluW, AluImmW, ImmU, ImmJ, ImmI,
         Write1, Jump, OrIllegal;
    SameReads(h, x);
    forall k: Hart, rd, v { NeverTraps(k, rd, v, len); }
    forall rd, a { ResultAlike(h, x, i, rd, a, len); }
  }

  lemma AccessAlike(h: Hart, x: Option<u64>, i: bv32, len: bv64, o: Oracle)
    requires var op := Opcode(i); op == 0x03 || op == 0x07 || op == 0x23 || op == 0x27
    ensures Alike(Execute(With(h, x), i, len, o), Execute(h, i, len, o))
  {
    hide Opcode, Load, FLoad, Standard.Store, FStore;
    LoadsAlike(h, x, i, len);
    StoresAlike(h, x, i, len);
    FStoresAlike(h, x, i, len);
  }

  lemma OtherwiseAlike(h: Hart, x: Option<u64>, i: bv32, len: bv64, o: Oracle)
    requires !(Opcode(i) == 0x2F && Funct5(i) == SC)
    requires var op := Opcode(i); !Computes(i) && op != 0x03 && op != 0x07 && op != 0x23 && op != 0x27
    ensures Alike(Execute(With(h, x), i, len, o), Execute(h, i, len, o))
  {
    hide Opcode, Branch, MiscMem, Atomic, System, FloatingPoint, Funct5, With;
    BranchesAlike(h, x, i, len);
    MiscMemAlike(h, x, i, len);
    SystemAlike(h, x, i, len, o);
    if Opcode(i) == 0x2F {
      AtomicAlike(h, x, i, len);
    }
  }

  lemma ExecuteAlike(h: Hart, x: Option<u64>, i: bv32, len: bv64, o: Oracle)
    requires !(Opcode(i) == 0x2F && Funct5(i) == SC)
    ensures Alike(Execute(With(h, x), i, len, o), Execute(h, i, len, o))
  {
    hide Execute, Opcode, Funct5, With, Computes, Alike;
    var op := Opcode(i);
    if Computes(i) {
      PlainAlike(h, x, i, len, o);
    } else if op == 0x03 || op == 0x07 || op == 0x23 || op == 0x27 {
      AccessAlike(h, x, i, len, o);
    } else {
      OtherwiseAlike(h, x, i, len, o);
    }
  }

  // ----- Labels -----

  lemma LabelOfAlike(h: Hart, x: Option<u64>, i: bv32)
    ensures LabelOf(With(h, x), i) == LabelOf(h, i)
    ensures Opcode(i) == 0x2F && Funct5(i) == SC ==> LabelOf(h, i) == Clears
  {
    hide Opcode, Funct5, Rs1, X, Locate, Granule, IsReturn;
    SameReads(h, x);
    SameAccess(h, x, X(h, Rs1(i)), 0, 8, PT.Load);
  }

  lemma WordLabelAlike(h: Hart, x: Option<u64>, i: bv32, len: bv64, o: Oracle)
    ensures (if Execute(With(h, x), i, len, o).Raise? then Clears else LabelOf(With(h, x), i))
            == (if Execute(h, i, len, o).Raise? then Clears else LabelOf(h, i))
  {
    hide Execute, LabelOf, With, Opcode, Funct5;
    LabelOfAlike(h, x, i);
    if !(Opcode(i) == 0x2F && Funct5(i) == SC) {
      ExecuteAlike(h, x, i, len, o);
    }
  }

  lemma InstructionLabelAlike(h: Hart, x: Option<u64>, i: bv32, o: Oracle)
    ensures InstructionLabel(With(h, x), i, o) == InstructionLabel(h, i, o)
  {
    hide Execute, LabelOf, Expand, IsRegisterJump, IsShort, Short, RegisterJump, With;
    if IsShort(i) {
      if Expand(Short(i)).Some? {
        WordLabelAlike(h, x, Expand(Short(i)).value, 2, o);
      }
    } else {
      WordLabelAlike(h, x, i, 4, o);
    }
  }

  lemma PrepareAlike(h: Hart, x: Option<u64>, e: Env)
    ensures var a := Prepare(h, e); var b := Prepare(With(h, x), e);
      && b.hart == With(a.hart, x)
      && a.Ready? == b.Ready? && (a.Ready? ==> a.word == b.word)
  {
    hide Select, Sampled, Sample, CsrFile.Read, LinesOf, Pending, Fetch;
    var k := CheckInterrupt(h, LinesOf(h.clint, e.external, e.sExternal)).0;
    FetchAlike(k, x);
  }

  lemma FetchAlike(h: Hart, x: Option<u64>)
    ensures Fetch(With(h, x)) == Fetch(h)
  {
    hide OddPc, Locate, ReadAt, IsShort, Halfword, FetchUpper;
    SameAccess(h, x, h.pc, 0, 8, PT.Instruction);
    var t := Locate(h, h.pc, PT.Instruction);
    if t.result.Ok? && ReadAt(t.mem, t.result.value, 2).Some? {
      UpperAlike(h.(mem := t.mem), x, t.result.value, Halfword(ReadAt(t.mem, t.result.value, 2).value));
    }
  }

  lemma UpperAlike(h: Hart, x: Option<u64>, pa: u64, lower: bv32)
    ensures FetchUpper(With(h, x), pa, lower) == FetchUpper(h, pa, lower)
  {
    hide AtPageEnd, Locate, ReadAt, Both, Halfword, Plus, WrappingAdd;
    SameAccess(h, x, Plus(h.pc, 2), 0, 8, PT.Instruction);
  }

  /** The label of a step is the same whatever the reservation. */
  lemma StepLabelIgnoresReservation(h: Hart, x: Option<u64>, e: Env)
    ensures StepLabel(With(h, x), e) == StepLabel(h, e)
  {
    hide Prepare, InstructionLabel, With;
    PrepareAlike(h, x, e);
    var s := Prepare(h, e);
    if s.Ready? {
      InstructionLabelAlike(s.hart, x, s.word, e.oracle);
    }
  }
}
