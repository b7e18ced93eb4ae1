/** Load-reserved and store-conditional over whole runs. */
module LrSc {
  import opened Words
  import opened Memory
  import opened CsrFile
  import opened HartState
  import opened Traps
  import opened Standard
  import opened Compressed
  import opened Run
  import PT = PageTable
  import PL = PagingLaws

  /** What a step does to the reservation, told without looking at the reservation: it completes a load-reserved at a
      physical address, clears the reservation or keeps it. */
  datatype Label = Reserves(address: u64) | Clears | Keeps

  /** MRET and SRET. */
  predicate IsReturn(i: bv32) {
    var f7 := Funct7(i);
    && Opcode(i) == 0x73 && Funct3(i) == 0 && f7 != 0x09 && f7 != 0x31 && f7 != 0x11
    && (Imm12(i) == 0x302 || Imm12(i) == 0x102)
  }

  /** The label of a 32-bit word that completes without a trap. */
  function LabelOf(h: Hart, i: bv32): Label {
    var op := Opcode(i);
    if op == 0x23 || op == 0x27 then Clears
    else if op == 0x2F then
      var t := Locate(h, X(h, Rs1(i)), PT.Load);
      if Funct5(i) == LR && t.result.Ok? then Reserves(t.result.value) else Clears
    else if IsReturn(i) then Clears
    else Keeps
  }

  function ShortLabel(h: Hart, c: bv16): Label {
    match Expand(c)
    case None => Clears
    case Some(w) => if IsRegisterJump(c) then Keeps else LabelOf(h, w)
  }

  /** Whether an instruction traps; of the reservation this may depend only through SC, which clears it either way. */
  function InstructionLabel(h: Hart, i: bv32, o: Oracle): Label {
    if Dispatch(h, i, o).Raise? then Clears
    else if IsShort(i) then ShortLabel(h, Short(i))
    else LabelOf(h, i)
  }

  function StepLabel(h: Hart, e: Env): Label {
    match Prepare(h, e)
    case Ready(k, i) => InstructionLabel(k, i, e.oracle)
    case _ => Clears
  }

  function Apply(l: Label, was: Option<u64>): Option<u64> {
    match l
    case Reserves(a) => Some(Granule(a))
    case Clears => None
    case Keeps => was
  }

  // ----- What each instruction does to the reservation -----

  predicate Keeping(h: Hart, out: Outcome) {
    out.Next? ==> out.hart.reservation == h.reservation
  }

  predicate Clearing(out: Outcome) {
    out.Next? ==> out.hart.reservation == None
  }

  lemma SystemReservation(h: Hart, i: bv32, len: bv64)
    requires Opcode(i) == 0x73
    ensures if IsReturn(i) then Clearing(System(h, i, len)) else Keeping(h, System(h, i, len))
  {
    hide CsrFile.Read, CsrFile.Write, PopM, PopS, Mpp, Spp, ModeOf, Plus, Opcode, Funct3, Funct7, Imm12, CsrAccess, X,
         HartState.Index, CsrOf, Permitted, ValidCsr;
  }

  lemma AtomicReservation(h: Hart, i: bv32, len: bv64)
    ensures var t := Locate(h, X(h, Rs1(i)), PT.Load);
      var out := Atomic(h, i, len);
      if Funct5(i) == LR then out.Next? ==> t.result.Ok? && out.hart.reservation == Some(Granule(t.result.value))
      else Clearing(out)
  {
    hide Plus, Funct3, Funct5, Rs1, Rs2, Rd, X, Locate, LoadReserved, StoreConditional, AtomicUpdate, IsAmo, Granule;
    var f5 := Funct5(i);
    var va := X(h, Rs1(i));
    var t := Locate(h, va, if f5 == LR then PT.Load else PT.Store);
    if t.result.Ok? {
      var k := h.(mem := t.mem);
      LrReserves(k, Funct3(i) == 2, Rd(i), va, t.result.value, len);
      ScClears(k, Funct3(i) == 2, Rd(i), Rs2(i), va, t.result.value, len);
      if IsAmo(f5) {
        AmoClears(k, f5, Funct3(i) == 2, Rd(i), Rs2(i), va, t.result.value, len);
      }
    }
  }

  lemma LrReserves(h: Hart, word: bool, rd: bv5, va: bv64, pa: u64, len: bv64)
    ensures var out := LoadReserved(h, word, rd, va, pa, len); out.Next? ==> out.hart.reservation == Some(Granule(pa))
  {
    hide Plus, HartState.Index, Returned, ReadAt, Granule;
  }

  lemma ScClears(h: Hart, word: bool, rd: bv5, rs2: bv5, va: bv64, pa: u64, len: bv64)
    ensures Clearing(StoreConditional(h, word, rd, rs2, va, pa, len))
  {
    hide Plus, X, HartState.Index, WriteAt, Num, Granule;
  }

  lemma AmoClears(h: Hart, f5: bv5, word: bool, rd: bv5, rs2: bv5, va: bv64, pa: u64, len: bv64)
    requires IsAmo(f5)
    ensures Clearing(AtomicUpdate(h, f5, word, rd, rs2, va, pa, len))
  {
    hide Plus, X, HartState.Index, Combine, Returned, Operand, ReadAt, WriteAt, Num, IsAmo;
  }

  lemma LoadsKeep(h: Hart, i: bv32, len: bv64)
    ensures Keeping(h, Load(h, i, len)) && Keeping(h, FLoad(h, i, len))
  {
    hide Plus, Funct3, Rs1, Rd, X, HartState.Index, LoadFrom, Extend, Wide, WidthOf, ImmI, CsrFile.Read, CsrFile.Write,
         DirtyFs, Box;
  }

  lemma StoresClear(h: Hart, i: bv32, len: bv64)
    ensures Clearing(Standard.Store(h, i, len)) && Clearing(FStore(h, i, len))
  {
    hide Plus, Funct3, Rs1, Rs2, X, F, HartState.Index, StoreTo, WidthOf, ImmS;
  }

  lemma BranchKeeps(h: Hart, i: bv32, len: bv64)
    ensures Keeping(h, Branch(h, i, len))
  {
    hide Plus, Funct3, Rs1, Rs2, X, Branches, ImmB;
  }

  /** Also cache-block zero, although it writes memory. */
  lemma MiscMemKeeps(h: Hart, i: bv32, len: bv64)
    ensures Keeping(h, MiscMem(h, i, len))
  {
    hide Plus, Funct3, Rs1, Rs2, X, Locate, ZeroWords;
  }

  lemma FloatingKeeps(h: Hart, i: bv32, len: bv64, o: Oracle)
    ensures Keeping(h, FloatingPoint(h, i, len, o))
  {
    hide Plus, Rd, HartState.Index, CsrFile.Read, CsrFile.Write, DirtyFs;
  }

  /** A 32-bit word that completes does to the reservation what its label says. */
  lemma ExecuteReservation(h: Hart, i: bv32, len: bv64, o: Oracle)
    ensures var out := Execute(h, i, len, o); out.Next? ==> out.hart.reservation == Apply(LabelOf(h, i), h.reservation)
  {
    hide Plus, Even, Opcode, Funct3, Funct5, Funct7, Rs1, Rs2, Rd, X, Load, FLoad, Standard.Store, FStore, Branch,
         MiscMem, Atomic, System, FloatingPoint, Write1, Jump, OrIllegal, Alu, AluImm, AluW, AluImmW, ImmU, ImmJ, ImmI,
         Locate, IsReturn, Granule;
    var op := Opcode(i);
    if op == 0x2F {
      AtomicReservation(h, i, len);
    } else if op == 0x73 {
      SystemReservation(h, i, len);
    } else if op == 0x23 || op == 0x27 {
      StoresClear(h, i, len);
    } else {
      NotAReturn(i);
      LoadsKeep(h, i, len);
      BranchKeeps(h, i, len);
      MiscMemKeeps(h, i, len);
      FloatingKeeps(h, i, len, o);
      PlainKeep(h, i, len, o);
    }
  }

  lemma NotAReturn(i: bv32)
    ensures Opcode(i) != 0x73 ==> !IsReturn(i)
  {
  }

  lemma PlainKeep(h: Hart, i: bv32, len: bv64, o: Oracle)
    ensures Computes(i) ==> Keeping(h, Execute(h, i, len, o))
  {
    hide Plus, Even, Opcode, Funct3, Funct5, Funct7, Rs1, Rs2, Rd, X, HartState.Index, Alu, AluImm, AluW, AluImmW, ImmU,
         ImmJ, ImmI;
  }

  lemma ShortReservation(h: Hart, c: bv16, o: Oracle)
    ensures var out := ExecuteShort(h, c, o);
      out.Next? ==> out.hart.reservation == Apply(ShortLabel(h, c), h.reservation)
  {
    hide Execute, Expand, IsRegisterJump, LabelOf, X, HartState.Index, Plus;
    if Expand(c).Some? {
      ExecuteReservation(h, Expand(c).value, 2, o);
    }
  }

  lemma TrapClears(h: Hart, t: Trap, v: bv64)
    ensures HandleTrap(h, t, v).reservation == None
  {
    hide CsrFile.Read, CsrFile.Write, PushM, PushS, Vector, Code, BitSet, Number, ModeNumber;
  }

  lemma DispatchReservation(h: Hart, i: bv32, o: Oracle)
    ensures Settle(Dispatch(h, i, o)).reservation == Apply(InstructionLabel(h, i, o), h.reservation)
  {
    hide Execute, ExecuteShort, LabelOf, ShortLabel, HandleTrap, IsShort, Short;
    var out := Dispatch(h, i, o);
    if out.Raise? {
      TrapClears(out.hart, out.trap, out.tval);
    } else if IsShort(i) {
      ShortReservation(h, Short(i), o);
    } else {
      ExecuteReservation(h, i, 4, o);
    }
  }

  lemma PrepareKeeps(h: Hart, e: Env)
    ensures Prepare(h, e).hart.reservation == h.reservation
  {
    hide CsrFile.Read, CsrFile.Write, Fetch, Select, Sampled, Sample, LinesOf;
  }

  /** A step does to the reservation what its label says. */
  lemma StepReservation(h: Hart, e: Env)
    ensures Step(h, e).reservation == Apply(StepLabel(h, e), h.reservation)
  {
    hide Prepare, Dispatch, HandleTrap, InstructionLabel, Plus;
    PrepareKeeps(h, e);
    match Prepare(h, e) {
      case Interrupted(k, i) => TrapClears(k, Intr(i), 0);
      case FetchFault(k, x) => TrapClears(k, Exc(x), k.pc);
      case Ready(k, i) => DispatchReservation(k, i, e.oracle);
    }
  }

  // ----- Runs -----

  function Labels(h: Hart, es: seq<Env>): (ls: seq<Label>)
    ensures |ls| == |es|
    decreases |es|
  {
    if es == [] then []
    else Labels(h, es[..|es| - 1]) + [StepLabel(After(h, es[..|es| - 1]), es[|es| - 1])]
  }

  /** Two addresses share a granule exactly when they lie in the same aligned doubleword. */
  lemma GranuleIff(a: u64, b: u64)
    ensures Granule(a) == Granule(b) <==> a / 8 == b / 8
  {
    EightTimes(a);
    EightTimes(b);
  }

  lemma EightTimes(a: u64)
    ensures Granule(a) == 8 * (a / 8)
  {
  }

  /** Some step completed a load-reserved in the doubleword of `pa`, and every later step kept the reservation. */
  ghost predicate HeldSince(ls: seq<Label>, pa: u64) {
    exists i :: 0 <= i < |ls| && IsReservation(ls[i], pa) && forall j :: i < j < |ls| ==> ls[j] == Keeps
  }

  predicate IsReservation(l: Label, pa: u64) {
    l.Reserves? && l.address / 8 == pa / 8
  }

  lemma HeldExtend(ls: seq<Label>, l: Label, pa: u64)
    ensures HeldSince(ls + [l], pa) <==> IsReservation(l, pa) || (l == Keeps && HeldSince(ls, pa))
  {
    hide IsReservation;
    KeepsIsNone(pa);
    var all := ls + [l];
    assert all[|ls|] == l;
    if HeldSince(ls, pa) && l == Keeps {
      var i :| 0 <= i < |ls| && IsReservation(ls[i], pa) && forall j :: i < j < |ls| ==> ls[j] == Keeps;
      assert IsReservation(all[i], pa);
    }
    if HeldSince(all, pa) {
      var i :| 0 <= i < |all| && IsReservation(all[i], pa) && forall j :: i < j < |all| ==> all[j] == Keeps;
      if i < |ls| {
        assert IsReservation(ls[i], pa);
        assert forall j :: i < j < |ls| ==> ls[j] == all[j];
      }
    }
  }

  lemma KeepsIsNone(pa: u64)
    ensures !IsReservation(Keeps, pa)
  {
  }

  /** After any run from a state without a reservation, an address is reserved exactly when some step of the run
      completed a load-reserved in its doubleword and every later step kept it. */
  lemma {:induction false} RunReservation(h: Hart, es: seq<Env>, pa: u64)
    requires h.reservation == None
    ensures Reserved(After(h, es), pa) <==> HeldSince(Labels(h, es), pa)
    decreases |es|
  {
    hide Step, StepLabel, HeldSince, Granule, IsReservation;
    if es == [] {
      NothingHeld(pa);
    } else {
      var init := es[..|es| - 1];
      var last := es[|es| - 1];
      var l := StepLabel(After(h, init), last);
      RunReservation(h, init, pa);
      StepReservation(After(h, init), last);
      HeldExtend(Labels(h, init), l, pa);
      ReservesIff(l, pa);
    }
  }

  lemma ReservesIff(l: Label, pa: u64)
    ensures IsReservation(l, pa) <==> l.Reserves? && Granule(l.address) == Granule(pa)
  {
    hide Granule;
    if l.Reserves? {
      GranuleIff(l.address, pa);
    }
  }

  lemma NothingHeld(pa: u64)
    ensures !HeldSince([], pa)
  {
  }

  // ----- Store-conditional -----

  predicate IsSc(i: bv32) {
    Opcode(i) == 0x2F && Funct5(i) == SC && (Funct3(i) == 2 || Funct3(i) == 3)
  }

  lemma SetThenRead(h: Hart, rd: bv5, v: bv64)
    ensures rd != 0 ==> X(SetX(h, rd, v), rd) == v
    ensures SetX(h, rd, v).mem == h.mem && SetX(h, rd, v).pc == h.pc
  {
  }

  /** The width of an atomic word in bytes. */
  function ScWidth(i: bv32): nat { if i & 0x1000 == 0 then 4 else 8 }

  lemma ScWidthIs(i: bv32)
    ensures Funct3(i) == 2 || Funct3(i) == 3 ==> WidthAmo(Funct3(i) == 2) == ScWidth(i)
  {
  }

  /** A store-conditional that does not trap has found its address, answers 0 exactly when it holds the reservation,
      with it writes its operand there, and without it leaves memory as the translation alone left it. */
  lemma ScOutcome(h: Hart, i: bv32, len: bv64, o: Oracle)
    requires IsSc(i) && Execute(h, i, len, o).Next?
    ensures var j := Execute(h, i, len, o).hart;
      var t := Locate(h, X(h, Rs1(i)), PT.Store);
      && t.result.Ok?
      && (Rd(i) != 0 ==> X(j, Rd(i)) == if Reserved(h, t.result.value) then 0 else 1)
      && (!Reserved(h, t.result.value) ==> j.mem == t.mem)
      && (Reserved(h, t.result.value)
          ==> WriteAt(t.mem, t.result.value, ScWidth(i), Num(X(h, Rs2(i)))) == Some(j.mem))
  {
    hide Plus, Opcode, Funct3, Funct5, Rs1, Rs2, Rd, X, HartState.Index, Locate, Granule, ReadAt, WriteAt, Num, SetX,
         WidthAmo, ScWidth;
    ScWidthIs(i);
    SameRegisters(h, Locate(h, X(h, Rs1(i)), PT.Store).mem, Rs2(i));
    var t := Locate(h, X(h, Rs1(i)), PT.Store);
    var k := h.(mem := t.mem);
    assert Execute(h, i, len, o) == Atomic(h, i, len);
    SetThenRead(k, Rd(i), 1);
    if t.result.Ok? {
      ScStored(k, Funct3(i) == 2, Rd(i), Rs2(i), X(h, Rs1(i)), t.result.value, len);
    }
  }

  lemma SameRegisters(h: Hart, m: Phys, r: bv5)
    ensures X(h.(mem := m), r) == X(h, r)
  {
    hide HartState.Index;
  }

  lemma GotoReads(h: Hart, pc: bv64, r: bv5)
    ensures X(Goto(ClearReservation(h), pc), r) == X(h, r) && Goto(ClearReservation(h), pc).mem == h.mem
  {
  }

  lemma ScStored(k: Hart, word: bool, rd: bv5, rs2: bv5, va: bv64, pa: u64, len: bv64)
    ensures var out := StoreConditional(k, word, rd, rs2, va, pa, len);
      out.Next? ==>
        && (rd != 0 ==> X(out.hart, rd) == if Reserved(k, pa) then 0 else 1)
        && (!Reserved(k, pa) ==> out.hart.mem == k.mem)
        && (Reserved(k, pa) ==> WriteAt(k.mem, pa, WidthAmo(word), Num(X(k, rs2))) == Some(out.hart.mem))
  {
    hide Plus, X, HartState.Index, Granule, ReadAt, WriteAt, Num, SetX, WidthAmo;
    SetThenRead(k, rd, 1);
    GotoReads(SetX(k, rd, 1), Plus(SetX(k, rd, 1).pc, len), rd);
    if Reserved(k, pa) {
      var w := WriteAt(k.mem, pa, WidthAmo(word), Num(X(k, rs2)));
      if w.Some? {
        var m := k.(mem := w.value);
        SetThenRead(m, rd, 0);
        GotoReads(SetX(m, rd, 0), Plus(m.pc, len), rd);
      }
    }
  }

  /** The law of LR/SC. From a state without a reservation, after any run, a store-conditional that does not trap
      answers 0 exactly when some step of the run completed a load-reserved in the same aligned doubleword and every
      later step kept the reservation: no other load-reserved, store, floating-point store, atomic, store-conditional,
      trap, interrupt or return came between. A successful one writes its operand there, a failing one changes memory
      only in accessed and dirty bits. */
  lemma ScSucceedsIff(start: Hart, es: seq<Env>, e: Env)
    requires start.reservation == None
    requires var s := Prepare(After(start, es), e); s.Ready? && !IsShort(s.word) && IsSc(s.word)
    requires var s := Prepare(After(start, es), e); Dispatch(s.hart, s.word, e.oracle).Next?
    ensures var s := Prepare(After(start, es), e);
      var j := Dispatch(s.hart, s.word, e.oracle).hart;
      var t := Locate(s.hart, X(s.hart, Rs1(s.word)), PT.Store);
      && t.result.Ok?
      && var held := HeldSince(Labels(start, es), t.result.value);
        && (Rd(s.word) != 0 ==> X(j, Rd(s.word)) == if held then 0 else 1)
        && (!held ==> PL.EqualButAD(s.hart.mem, j.mem))
        && (held ==> WriteAt(t.mem, t.result.value, ScWidth(s.word), Num(X(s.hart, Rs2(s.word)))) == Some(j.mem))
  {
    hide Prepare, Execute, IsSc, HeldSince, Labels, After, Locate, X, Rd, Rs1, Rs2, IsShort, WriteAt, ScWidth, Num,
         Granule, PL.EqualButAD, ExecuteShort;
    var h := After(start, es);
    var s := Prepare(h, e);
    PrepareKeeps(h, e);
    ScOutcome(s.hart, s.word, 4, e.oracle);
    var t := Locate(s.hart, X(s.hart, Rs1(s.word)), PT.Store);
    RunReservation(start, es, t.result.value);
    LocateTouchesAD(s.hart, X(s.hart, Rs1(s.word)), PT.Store);
  }

  lemma LocateTouchesAD(h: Hart, va: bv64, access: PT.AccessType)
    ensures PL.EqualButAD(h.mem, Locate(h, va, access).mem)
  {
    hide PL.EqualButAD, PT.Translate, Space, Num;
    PL.EqualButADReflexive(h.mem);
    var c := Space(h);
    PL.TranslateErasure(h.mem, h.mem, Num(va), access, c.mode, c.satp, c.mstatus);
  }

  /** cbo.zero writes memory and keeps the reservation, even one of the block it clears. */
  lemma ZeroBlockKeepsReservation(h: Hart, va: bv64, len: bv64)
    ensures var out := CboZero(h, va, len); out.Next? ==> out.hart.reservation == h.reservation
  {
    hide Plus, Locate, ZeroWords;
  }
}
