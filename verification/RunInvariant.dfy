/** What every run of the machine keeps: the register-file invariant and the supervisor timer comparator. */
module RunInvariant {
  import opened Words
  import opened Memory
  import opened CsrFile
  import opened CsrLaws
  import opened BusRouting
  import opened HartState
  import opened Traps
  import opened Standard
  import opened Compressed
  import opened Run
  import PT = PageTable

  /** The comparator on the bus is the STIMECMP register. */
  predicate Synced(r: Regs, stimecmp: bv64) {
    Read(r, STIMECMP) == stimecmp
  }

  predicate Good(h: Hart) {
    Inv(h.csr) && Synced(h.csr, h.clint.stimecmp)
  }

  lemma StimecmpReadsBack(r: Regs, v: bv64)
    ensures Read(Write(r, STIMECMP, v), STIMECMP) == v
  {
    hide Read, Write;
    ReadBack(r, STIMECMP, v, STIMECMP);
  }

  lemma StimecmpAlone(a: CsrAddr)
    ensures (WriteBacking(a) == STIMECMP <==> a == STIMECMP) && ReadBacking(STIMECMP) == STIMECMP
  {
  }

  lemma WriteGood(r: Regs, a: CsrAddr, v: bv64)
    requires Inv(r)
    ensures Inv(Write(r, a, v))
    ensures a != STIMECMP ==> Read(Write(r, a, v), STIMECMP) == Read(r, STIMECMP)
  {
    hide Inv, Read, Write, WriteBacking, ReadBacking;
    WriteKeepsInv(r, a, v);
    StimecmpAlone(a);
    if a != STIMECMP {
      WriteFrame(r, a, v, STIMECMP);
    }
  }

  lemma ApplyGood(r: Regs, op: Op)
    requires Inv(r)
    ensures Inv(CsrFile.Apply(r, op))
    ensures op.addr != STIMECMP ==> Read(CsrFile.Apply(r, op), STIMECMP) == Read(r, STIMECMP)
  {
    hide Inv, Read, Write, SetIn, ClearIn;
    match op {
      case Store(a, v) => WriteGood(r, a, v);
      case Swap(a, v) => WriteGood(r, a, v);
      case SetBits(a, m) => WriteGood(r, a, SetIn(Read(r, a), m));
      case ClearBits(a, m) => WriteGood(r, a, ClearIn(Read(r, a), m));
    }
  }

  // ----- CSR instructions -----

  predicate GoodResult(c: CsrResult) {
    Inv(c.csr) && Synced(c.csr, c.stimecmp)
  }

  lemma SwapGood(h: Hart, a: CsrAddr, v: bv64, fromBus: bool)
    requires Good(h)
    ensures GoodResult(CsrSwap(h, a, v, fromBus))
  {
    hide Inv, Read, Write;
    WriteGood(h.csr, a, v);
    StimecmpReadsBack(h.csr, v);
    ApplyGood(h.csr, Swap(a, v));
  }

  lemma MaskGood(h: Hart, a: CsrAddr, op: Op, wanted: bool, writes: bool)
    requires Good(h) && op.addr == a
    requires !writes ==> (op.SetBits? || op.ClearBits?) && op.mask == 0
    ensures GoodResult(CsrMask(h, a, op, wanted, writes))
  {
    hide Inv, Read, Write;
    ApplyGood(h.csr, op);
  }

  lemma ZeroUimm(r: bv5)
    ensures r == 0 ==> r as bv64 == 0
  {
  }

  lemma AccessGood(h: Hart, f3: bv3, a: CsrAddr, rd: bv5, rs1: bv5)
    requires Good(h)
    ensures GoodResult(CsrAccess(h, f3, a, rd, rs1))
  {
    hide Good, GoodResult, CsrSwap, CsrMask, HartState.Index;
    ZeroUimm(rs1);
    var v := if f3 < 4 then X(h, rs1) else rs1 as bv64;
    SwapGood(h, a, v, f3 == 1);
    MaskGood(h, a, SetBits(a, v), rd != 0 || rs1 != 0, rs1 != 0);
    MaskGood(h, a, ClearBits(a, v), rd != 0 || rs1 != 0, rs1 != 0);
  }

  predicate GoodOutcome(out: Outcome) {
    Good(out.hart)
  }

  /** Same registers that matter here. */
  predicate SameFiles(h: Hart, k: Hart) {
    k.csr == h.csr && k.clint == h.clint
  }

  lemma CsrInstructionGood(h: Hart, i: bv32, len: bv64)
    requires Good(h)
    ensures GoodOutcome(CsrInstruction(h, i, len))
  {
    hide Inv, Read, Plus, SetX, CsrAccess, Funct3, CsrOf, Rd, Rs1, ValidCsr, Permitted;
    AccessGood(h, Funct3(i), CsrOf(i), Rd(i), Rs1(i));
    var c := CsrAccess(h, Funct3(i), CsrOf(i), Rd(i), Rs1(i));
    var k := h.(csr := c.csr, clint := h.clint.(stimecmp := c.stimecmp));
    SetXFiles(k, Rd(i), c.was);
  }

  lemma SetXFiles(h: Hart, rd: bv5, v: bv64)
    ensures SameFiles(h, SetX(h, rd, v))
  {
  }

  lemma MarkDirtyGood(h: Hart)
    requires Good(h)
    ensures Good(MarkDirty(h))
  {
    hide Inv, Read, Write, DirtyFs;
    WriteGood(h.csr, MSTATUS, DirtyFs(Read(h.csr, MSTATUS)));
  }

  lemma MretGood(h: Hart)
    requires Good(h)
    ensures Good(Mret(h))
  {
    hide Inv, Read, Write, PopM, Mpp, ModeOf;
    WriteGood(h.csr, MSTATUS, PopM(Read(h.csr, MSTATUS)));
  }

  lemma SretGood(h: Hart)
    requires Good(h)
    ensures Good(Sret(h))
  {
    hide Inv, Read, Write, PopS, Spp;
    WriteGood(h.csr, SSTATUS, PopS(Read(h.csr, SSTATUS)));
  }

  lemma RecordGood(r: Regs, epc: CsrAddr, cause: CsrAddr, tval: CsrAddr, pc: bv64, t: Trap, v: bv64)
    requires Inv(r) && epc != STIMECMP && cause != STIMECMP && tval != STIMECMP
    ensures var r' := Record(r, epc, cause, tval, pc, t, v); Inv(r') && Read(r', STIMECMP) == Read(r, STIMECMP)
  {
    hide Inv, Read, Write, Code;
    WriteGood(r, epc, pc);
    WriteGood(Write(r, epc, pc), cause, Code(t));
    WriteGood(Write(Write(r, epc, pc), cause, Code(t)), tval, v);
  }

  lemma TrapGood(h: Hart, t: Trap, v: bv64)
    requires Good(h)
    ensures Good(HandleTrap(h, t, v))
  {
    hide Inv, Read, Write, Record, PushM, PushS, ModeNumber, Vector, Delegated;
    RecordGood(h.csr, MEPC, MCAUSE, MTVAL, h.pc, t, v);
    RecordGood(h.csr, SEPC, SCAUSE, STVAL, h.pc, t, v);
    var m := Record(h.csr, MEPC, MCAUSE, MTVAL, h.pc, t, v);
    var s := Record(h.csr, SEPC, SCAUSE, STVAL, h.pc, t, v);
    WriteGood(m, MSTATUS, PushM(Read(m, MSTATUS), ModeNumber(h.mode)));
    WriteGood(s, SSTATUS, PushS(Read(s, SSTATUS), ModeNumber(h.mode)));
  }

  lemma SampleGood(h: Hart, l: Lines)
    requires Good(h)
    ensures Good(CheckInterrupt(h, l).0)
  {
    hide Inv, Read, Write, Sampled, Select, Pending;
    WriteGood(h.csr, MIP, Sampled(Read(h.csr, MIP), l));
  }

  // ----- Every instruction -----

  lemma GotoGood(h: Hart, pc: bv64)
    requires Good(h)
    ensures Good(Goto(h, pc))
  {
    hide Inv, Read;
  }

  lemma SystemGood(h: Hart, i: bv32, len: bv64)
    requires Good(h)
    ensures GoodOutcome(System(h, i, len))
  {
    hide Good, Goto, Plus, CsrInstruction, Mret, Sret, Funct3, Funct7, Imm12;
    GotoGood(h, Plus(h.pc, len));
    CsrInstructionGood(h, i, len);
    MretGood(h);
    SretGood(h);
  }

  lemma FloatingGood(h: Hart, i: bv32, len: bv64, o: Oracle)
    requires Good(h)
    ensures GoodOutcome(FloatingPoint(h, i, len, o))
  {
    hide Inv, Read, Plus, MarkDirty, SetX, SetF, Rd;
    MarkDirtyGood(h);
    match o.floating {
      case Unsupported =>
      case ToX(v, d) => SetXFiles(if d then MarkDirty(h) else h, Rd(i), v);
      case ToF(v, d) => SetFFiles(if d then MarkDirty(h) else h, Rd(i), v);
    }
  }

  lemma SetFFiles(h: Hart, rd: bv5, v: bv64)
    ensures SameFiles(h, SetF(h, rd, v)) && SetF(h, rd, v).pc == h.pc
  {
  }

  lemma FLoadGood(h: Hart, i: bv32, len: bv64)
    requires Good(h)
    ensures GoodOutcome(FLoad(h, i, len))
  {
    hide Inv, Read, Plus, MarkDirty, SetF, Rd, Funct3, Rs1, X, ImmI, LoadFrom, Box, Wide, WidthOf;
    var va := Plus(X(h, Rs1(i)), ImmI(i));
    var l := LoadFrom(h, va, WidthOf(Funct3(i)));
    if l.result.Ok? {
      var v := if Funct3(i) == 2 then Box(Wide(l.result.value)) else Wide(l.result.value);
      var k := h.(mem := l.mem);
      SetFFiles(k, Rd(i), v);
      MarkDirtyGood(SetF(k, Rd(i), v));
    }
  }

  // The rest touch neither file.

  lemma LoadFiles(h: Hart, i: bv32, len: bv64)
    ensures SameFiles(h, Load(h, i, len).hart)
  {
    hide Plus, Funct3, Rs1, Rd, X, HartState.Index, LoadFrom, Extend, Wide, WidthOf, ImmI;
  }

  lemma StoreVFiles(h: Hart, va: bv64, v: bv64, n: nat, len: bv64)
    ensures SameFiles(h, StoreV(h, va, v, n, len).hart)
  {
    hide Plus, StoreTo;
  }

  lemma StoreFiles(h: Hart, i: bv32, len: bv64)
    ensures SameFiles(h, Standard.Store(h, i, len).hart) && SameFiles(h, FStore(h, i, len).hart)
  {
    hide Plus, Funct3, Rs1, Rs2, X, F, StoreV, WidthOf, ImmS, And;
    StoreVFiles(h, Plus(X(h, Rs1(i)), ImmS(i)), X(h, Rs2(i)), WidthOf(Funct3(i)), len);
    StoreVFiles(h, Plus(X(h, Rs1(i)), ImmS(i)), And(F(h, Rs2(i)), 0xFFFF_FFFF), 4, len);
    StoreVFiles(h, Plus(X(h, Rs1(i)), ImmS(i)), F(h, Rs2(i)), 8, len);
  }

  lemma BranchFiles(h: Hart, i: bv32, len: bv64)
    ensures SameFiles(h, Branch(h, i, len).hart) && SameFiles(h, MiscMem(h, i, len).hart)
  {
    hide Plus, Funct3, Rs1, Rs2, X, Branches, ImmB, Locate, ZeroWords, Block;
  }

  lemma LrFiles(h: Hart, word: bool, rd: bv5, va: bv64, pa: u64, len: bv64)
    ensures SameFiles(h, LoadReserved(h, word, rd, va, pa, len).hart)
  {
    hide Plus, X, HartState.Index, Returned, Granule, ReadAt;
  }

  lemma ScFiles(h: Hart, word: bool, rd: bv5, rs2: bv5, va: bv64, pa: u64, len: bv64)
    ensures SameFiles(h, StoreConditional(h, word, rd, rs2, va, pa, len).hart)
  {
    hide Plus, X, HartState.Index, Granule, WriteAt, Num;
  }

  lemma AmoFiles(h: Hart, f5: bv5, word: bool, rd: bv5, rs2: bv5, va: bv64, pa: u64, len: bv64)
    requires IsAmo(f5)
    ensures SameFiles(h, AtomicUpdate(h, f5, word, rd, rs2, va, pa, len).hart)
  {
    hide Plus, X, HartState.Index, Combine, Returned, Operand, ReadAt, WriteAt, Num, IsAmo;
  }

  lemma AtomicFiles(h: Hart, i: bv32, len: bv64)
    ensures SameFiles(h, Atomic(h, i, len).hart)
  {
    hide Funct3, Funct5, Rs1, Rs2, Rd, X, Locate, IsAmo, LoadReserved, StoreConditional, AtomicUpdate;
    var va := X(h, Rs1(i));
    var t := Locate(h, va, if Funct5(i) == LR then PT.Load else PT.Store);
    if t.result.Ok? {
      var k := h.(mem := t.mem);
      LrFiles(k, Funct3(i) == 2, Rd(i), va, t.result.value, len);
      ScFiles(k, Funct3(i) == 2, Rd(i), Rs2(i), va, t.result.value, len);
      if IsAmo(Funct5(i)) {
        AmoFiles(k, Funct5(i), Funct3(i) == 2, Rd(i), Rs2(i), va, t.result.value, len);
      }
    }
  }

  lemma WriteFiles(h: Hart, rd: bv5, v: bv64, len: bv64)
    ensures SameFiles(h, Write1(h, rd, v, len).hart)
  {
    hide Plus, HartState.Index;
  }

  lemma JumpFiles(h: Hart, rd: bv5, target: bv64, len: bv64)
    ensures SameFiles(h, Jump(h, rd, target, len).hart)
  {
    hide Plus, HartState.Index;
  }

  lemma ResultFiles(h: Hart, i: bv32, rd: bv5, a: Option<bv64>, len: bv64)
    ensures SameFiles(h, OrIllegal(h, i, rd, a, len).hart)
  {
    hide Plus, HartState.Index;
  }

  lemma FilesGood(h: Hart, k: Hart)
    requires Good(h) && SameFiles(h, k)
    ensures Good(k)
  {
    hide Inv, Read;
  }

  /** The instructions that write MSTATUS or the CSR named in the word. */
  predicate TouchesCsrs(i: bv32) {
    var op := Opcode(i);
    op == 0x07 || op == 0x73 || op == 0x53 || op == 0x43 || op == 0x47 || op == 0x4B || op == 0x4F
  }

  lemma ComputeFiles(h: Hart, i: bv32, len: bv64, o: Oracle)
    requires Computes(i)
    ensures SameFiles(h, Execute(h, i, len, o).hart)
  {
    hide Plus, Even, Opcode, Funct3, Funct7, Rs1, Rs2, Rd, X, Load, FLoad, Standard.Store, FStore, Branch, MiscMem,
         Atomic, System, FloatingPoint, Write1, Jump, OrIllegal, Alu, AluImm, AluW, AluImmW, ImmU, ImmJ, ImmI;
    forall rd, v { WriteFiles(h, rd, v, len); }
    forall rd, target { JumpFiles(h, rd, target, len); }
    forall rd, a { ResultFiles(h, i, rd, a, len); }
  }

  lemma SilentFiles(h: Hart, i: bv32, len: bv64, o: Oracle)
    requires !Computes(i) && !TouchesCsrs(i)
    ensures SameFiles(h, Execute(h, i, len, o).hart)
  {
    hide Plus, Even, Opcode, Funct3, Funct7, Rs1, Rs2, Rd, X, Load, FLoad, Standard.Store, FStore, Branch, MiscMem,
         Atomic, System, FloatingPoint, Write1, Jump, OrIllegal, Alu, AluImm, AluW, AluImmW, ImmU, ImmJ, ImmI;
    LoadFiles(h, i, len);
    StoreFiles(h, i, len);
    BranchFiles(h, i, len);
    AtomicFiles(h, i, len);
  }

  lemma CsrsGood(h: Hart, i: bv32, len: bv64, o: Oracle)
    requires Good(h) && TouchesCsrs(i)
    ensures GoodOutcome(Execute(h, i, len, o))
  {
    hide Good, Plus, Even, Opcode, Funct3, Funct7, Rs1, Rs2, Rd, X, Load, FLoad, Standard.Store, FStore, Branch,
         MiscMem, Atomic, System, FloatingPoint, Write1, Jump, OrIllegal, Alu, AluImm, AluW, AluImmW, ImmU, ImmJ, ImmI;
    FLoadGood(h, i, len);
    SystemGood(h, i, len);
    FloatingGood(h, i, len, o);
  }

  lemma ExecuteGood(h: Hart, i: bv32, len: bv64, o: Oracle)
    requires Good(h)
    ensures GoodOutcome(Execute(h, i, len, o))
  {
    hide Good, Execute, SameFiles, Computes, TouchesCsrs;
    if TouchesCsrs(i) {
      CsrsGood(h, i, len, o);
    } else {
      if Computes(i) {
        ComputeFiles(h, i, len, o);
      } else {
        SilentFiles(h, i, len, o);
      }
      FilesGood(h, Execute(h, i, len, o).hart);
    }
  }

  lemma ShortGood(h: Hart, c: bv16, o: Oracle)
    requires Good(h)
    ensures GoodOutcome(ExecuteShort(h, c, o))
  {
    hide Good, Execute, Expand, IsRegisterJump, SetX, X, Reg7, Bit12, Plus;
    if Expand(c).Some? {
      ExecuteGood(h, Expand(c).value, 2, o);
    }
    RegisterJumpFiles(h, c);
    FilesGood(h, RegisterJump(h, c));
  }

  lemma RegisterJumpFiles(h: Hart, c: bv16)
    ensures SameFiles(h, RegisterJump(h, c))
  {
    hide Reg7, Bit12, Plus, HartState.Index;
  }

  // ----- Steps and runs -----

  lemma DispatchGood(h: Hart, i: bv32, o: Oracle)
    requires Good(h)
    ensures Good(Settle(Dispatch(h, i, o)))
  {
    hide Good, Execute, ExecuteShort, HandleTrap, IsShort, Short;
    if IsShort(i) {
      ShortGood(h, Short(i), o);
    } else {
      ExecuteGood(h, i, 4, o);
    }
    var out := Dispatch(h, i, o);
    if out.Raise? {
      TrapGood(out.hart, out.trap, out.tval);
    }
  }

  lemma PrepareGood(h: Hart, e: Env)
    requires Good(h)
    ensures Good(Prepare(h, e).hart)
  {
    hide Good, CheckInterrupt, Fetch, LinesOf;
    var l := LinesOf(h.clint, e.external, e.sExternal);
    SampleGood(h, l);
    var k := CheckInterrupt(h, l).0;
    FilesGood(k, k.(mem := Fetch(k).mem));
  }

  lemma TickGood(h: Hart, ticks: bv64)
    requires Good(h)
    ensures Good(Tick(h, ticks))
  {
    hide Inv, Read, Plus;
  }

  lemma StepGood(h: Hart, e: Env)
    requires Good(h)
    ensures Good(Step(h, e))
  {
    hide Good, Prepare, Dispatch, HandleTrap, Tick, Settle;
    PrepareGood(h, e);
    match Prepare(h, e) {
      case Interrupted(k, i) =>
        TrapGood(k, Intr(i), 0);
        TickGood(HandleTrap(k, Intr(i), 0), e.ticks);
      case FetchFault(k, x) =>
        TrapGood(k, Exc(x), k.pc);
        TickGood(HandleTrap(k, Exc(x), k.pc), e.ticks);
      case Ready(k, i) =>
        DispatchGood(k, i, e.oracle);
        TickGood(Settle(Dispatch(k, i, e.oracle)), e.ticks);
    }
  }

  lemma {:induction false} RunGood(h: Hart, es: seq<Env>)
    requires Good(h)
    ensures Good(After(h, es))
    decreases |es|
  {
    hide Good, Step;
    if es != [] {
      RunGood(h, es[..|es| - 1]);
      StepGood(After(h, es[..|es| - 1]), es[|es| - 1]);
    }
  }

  /** The processor as it leaves the constructor. */
  predicate IsReset(h: Hart) {
    h.csr == ApplyAll(map[], ResetWrites()) && h.clint.stimecmp == 0xFFFF_FFFF_FFFF_FFFF
  }

  lemma {:induction false} RunKeepsStimecmp(r: Regs, ops: seq<Op>)
    requires Inv(r) && forall i :: 0 <= i < |ops| ==> ops[i].addr != STIMECMP
    ensures Read(ApplyAll(r, ops), STIMECMP) == Read(r, STIMECMP)
    decreases |ops|
  {
    hide Inv, Read, CsrFile.Apply;
    if ops != [] {
      ApplyGood(r, ops[0]);
      RunKeepsStimecmp(CsrFile.Apply(r, ops[0]), ops[1..]);
    }
  }

  lemma EmptyInv()
    ensures Inv(map[])
  {
  }

  lemma ResetGood(h: Hart)
    requires IsReset(h)
    ensures Good(h)
  {
    hide Inv, Read, ApplyAll, ResetSupervisor, ResetRest;
    EmptyInv();
    var tail := [Store(STIMECMP, 0xFFFF_FFFF_FFFF_FFFF)] + ResetRest();
    assert ResetWrites() == ResetSupervisor() + tail;
    ApplyAllConcat(map[], ResetSupervisor(), tail);
    RunKeepsInv(map[], ResetWrites());
    RunKeepsInv(map[], ResetSupervisor());
    ResetComparator(ApplyAll(map[], ResetSupervisor()), tail);
  }

  lemma ResetComparator(r: Regs, ops: seq<Op>)
    requires Inv(r) && ops != [] && ops[0] == Store(STIMECMP, 0xFFFF_FFFF_FFFF_FFFF)
    requires forall i :: 0 < i < |ops| ==> ops[i].addr != STIMECMP
    ensures Read(ApplyAll(r, ops), STIMECMP) == 0xFFFF_FFFF_FFFF_FFFF
  {
    hide Inv, Read, Write;
    var next := CsrFile.Apply(r, ops[0]);
    ApplyGood(r, ops[0]);
    StimecmpReadsBack(r, 0xFFFF_FFFF_FFFF_FFFF);
    RunKeepsStimecmp(next, ops[1..]);
  }

  /** From reset, after any run: the register-file invariant holds and the comparator on the bus equals the
      STIMECMP register. */
  lemma ReachableGood(h: Hart, es: seq<Env>)
    requires IsReset(h)
    ensures var k := After(h, es); Inv(k.csr) && Read(k.csr, STIMECMP) == k.clint.stimecmp
  {
    hide Inv, Read, After, IsReset;
    ResetGood(h);
    RunGood(h, es);
  }

  // ----- The paging mode is always one that translation knows -----

  function TopNibble(x: bv64): bv4 { (x >> 60) as bv4 }

  function BelowNibble(x: bv64): bv60 { (x & 0x0FFF_FFFF_FFFF_FFFF) as bv60 }

  lemma NibbleParts(x: bv64)
    ensures x as int == ((x >> 60) as bv4) as int * 0x1000_0000_0000_0000 + ((x & 0x0FFF_FFFF_FFFF_FFFF) as bv60) as int
  {
  }

  lemma SupportedNibble(x: bv64)
    requires SatpModeOk(x)
    ensures TopNibble(x) == 0 || TopNibble(x) == 8 || TopNibble(x) == 9 || TopNibble(x) == 10
  {
  }

  lemma ModeKnown(satp: bv64)
    requires SatpModeOk(satp)
    ensures var m := PT.SatpMode(Num(satp)); m == 0 || m == 8 || m == 9 || m == 10
  {
    NibbleParts(satp);
    SupportedNibble(satp);
    hide SatpModeOk, TopNibble, BelowNibble;
    DivModUnique(Num(satp), 0x1000_0000_0000_0000, TopNibble(satp) as int, BelowNibble(satp) as int);
  }

  /** In no reachable state does a translation meet a paging mode it does not implement. */
  lemma FallbackUnreachable(h: Hart, es: seq<Env>)
    requires IsReset(h)
    ensures var m := PT.SatpMode(Space(After(h, es)).satp); m == 0 || m == 8 || m == 9 || m == 10
  {
    ReachableGood(h, es);
    hide After, IsReset, PT.SatpMode, Num, SatpModeOk, Read, Inv;
    SatpFromInv(After(h, es).csr);
    ModeKnown(Read(After(h, es).csr, SATP));
  }

  lemma SatpFromInv(r: Regs)
    requires Inv(r)
    ensures SatpModeOk(Read(r, SATP))
  {
  }
}
