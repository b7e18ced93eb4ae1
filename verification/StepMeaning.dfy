/** One step of the machine as its registers show it, and the clock over whole runs. */
module StepMeaning {
  import opened Words
  import opened WordNumbers
  import opened CsrFile
  import opened HartState
  import opened Traps
  import opened TrapMeaning
  import opened Standard
  import opened Compressed
  import opened Run
  import opened RunInvariant
  import IM = InstructionMeaning
  import PT = PageTable

  // ----- What changes the timers -----

  /** The clock, the machine comparator and the software interrupt flag are the same. */
  predicate SameClock(h: Hart, k: Hart) { k.clint == h.clint.(stimecmp := k.clint.stimecmp) }

  lemma SystemClock(h: Hart, i: bv32, len: bv64)
    ensures SameClock(h, System(h, i, len).hart)
  {
    hide Plus, Funct3, Funct7, Imm12, Read, Write, CsrAccess, CsrOf, Rd, Rs1, ValidCsr, Permitted, SetX, PopM, PopS,
         Mpp, Spp, ModeOf;
    var c := CsrAccess(h, Funct3(i), CsrOf(i), Rd(i), Rs1(i));
    SetXFiles(h.(csr := c.csr, clint := h.clint.(stimecmp := c.stimecmp)), Rd(i), c.was);
  }

  lemma DirtyClock(h: Hart)
    ensures SameClock(h, MarkDirty(h))
  {
    hide Read, Write, DirtyFs;
  }

  lemma FloatingClock(h: Hart, i: bv32, len: bv64, o: Oracle)
    ensures SameClock(h, FloatingPoint(h, i, len, o).hart)
  {
    hide Read, Write, Plus, SetX, SetF, Rd, MarkDirty;
    DirtyClock(h);
    match o.floating {
      case Unsupported =>
      case ToX(v, d) => SetXFiles(if d then MarkDirty(h) else h, Rd(i), v);
      case ToF(v, d) => SetFFiles(if d then MarkDirty(h) else h, Rd(i), v);
    }
  }

  lemma FloatLoadClock(h: Hart, i: bv32, len: bv64)
    ensures SameClock(h, FLoad(h, i, len).hart)
  {
    hide Read, Write, Plus, SetF, Rd, Funct3, Rs1, X, ImmI, LoadFrom, Box, Wide, WidthOf, MarkDirty;
    var va := Plus(X(h, Rs1(i)), ImmI(i));
    var l := LoadFrom(h, va, WidthOf(Funct3(i)));
    if l.result.Ok? {
      var k := h.(mem := l.mem);
      var v := if Funct3(i) == 2 then Box(Wide(l.result.value)) else Wide(l.result.value);
      SetFFiles(k, Rd(i), v);
      DirtyClock(SetF(k, Rd(i), v));
    }
  }

  lemma CsrsClock(h: Hart, i: bv32, len: bv64, o: Oracle)
    requires TouchesCsrs(i)
    ensures SameClock(h, Execute(h, i, len, o).hart)
  {
    hide SameClock, Plus, Even, Opcode, Funct3, Funct7, Rs1, Rs2, Rd, X, Load, FLoad, Standard.Store, FStore, Branch,
         MiscMem, Atomic, System, FloatingPoint, Write1, Jump, OrIllegal, Alu, AluImm, AluW, AluImmW, ImmU, ImmJ, ImmI;
    SystemClock(h, i, len);
    FloatingClock(h, i, len, o);
    FloatLoadClock(h, i, len);
  }

  lemma ExecuteClock(h: Hart, i: bv32, len: bv64, o: Oracle)
    ensures SameClock(h, Execute(h, i, len, o).hart)
  {
    hide Execute, Computes, TouchesCsrs;
    if TouchesCsrs(i) {
      CsrsClock(h, i, len, o);
    } else if Computes(i) {
      ComputeFiles(h, i, len, o);
    } else {
      SilentFiles(h, i, len, o);
    }
  }

  lemma DispatchClock(h: Hart, i: bv32, o: Oracle)
    ensures SameClock(h, Dispatch(h, i, o).hart)
  {
    hide Execute, Expand, IsRegisterJump, RegisterJump, IsShort, Short, Plus;
    if IsShort(i) {
      var c := Short(i);
      if Expand(c).Some? {
        ExecuteClock(h, Expand(c).value, 2, o);
      }
      RegisterJumpFiles(h, c);
    } else {
      ExecuteClock(h, i, 4, o);
    }
  }

  // ----- One step -----

  /** The clock of the hart put back. */
  function At(h: Hart, mtime: bv64): Hart { h.(clint := h.clint.(mtime := mtime)) }

  lemma TickIs(h: Hart, ticks: bv64)
    ensures At(Tick(h, ticks), h.clint.mtime) == h
    ensures Unsigned(Tick(h, ticks).clint.mtime) == (Unsigned(h.clint.mtime) + Unsigned(ticks)) % TWO_64
  {
    AddNumber(h.clint.mtime, ticks);
    IM.PlusIs(h.clint.mtime, ticks);
    hide Plus, Added, Unsigned;
  }

  /** The outcome of an instruction as the hart after it. */
  ghost predicate Settled(out: Outcome, k: Hart) {
    match out
    case Next(j) => k == j
    case Raise(j, t, v) => Trapped(j, k, t, v)
  }

  /** A step that is interrupted takes the trap with value 0, one that cannot fetch takes the fault with the address it
      wanted, and otherwise the instruction runs and its own trap, if any, is taken; then the clock moves on. */
  lemma StepIs(h: Hart, e: Env)
    ensures var r := Step(h, e);
      var k := At(r, Prepare(h, e).hart.clint.mtime);
      && (match Prepare(h, e)
          case Interrupted(j, i) => Trapped(j, k, Intr(i), 0)
          case FetchFault(j, x) => Trapped(j, k, Exc(x), j.pc)
          case Ready(j, i) => Settled(Dispatch(j, i, e.oracle), k))
      && Unsigned(r.clint.mtime) == (Unsigned(h.clint.mtime) + Unsigned(e.ticks)) % TWO_64
  {
    hide Dispatch, HandleTrap, Tick, Trapped, Unsigned, CheckInterrupt, Fetch, LinesOf;
    PrepareClock(h, e);
    match Prepare(h, e) {
      case Interrupted(j, i) =>
        TrapIs(j, Intr(i), 0);
        TickIs(HandleTrap(j, Intr(i), 0), e.ticks);
      case FetchFault(j, x) =>
        TrapIs(j, Exc(x), j.pc);
        TickIs(HandleTrap(j, Exc(x), j.pc), e.ticks);
      case Ready(j, i) =>
        var out := Dispatch(j, i, e.oracle);
        DispatchClock(j, i, e.oracle);
        if out.Raise? {
          TrapIs(out.hart, out.trap, out.tval);
        }
        TickIs(Settle(out), e.ticks);
    }
  }

  lemma PrepareClock(h: Hart, e: Env)
    ensures SameClock(h, Prepare(h, e).hart)
  {
    hide Read, Write, Sampled, Select, Pending, Fetch, LinesOf;
  }

  lemma TrapIs(h: Hart, t: Trap, v: bv64)
    ensures Trapped(h, HandleTrap(h, t, v), t, v) && SameClock(h, HandleTrap(h, t, v))
  {
    hide HandleTrap, ToMachine, StackedM, StackedS, Read, EntryPoint, Unsigned;
    TrapEntry(h, t, v);
  }

  // ----- The clock of a run -----

  /** The ticks of all steps together. */
  function Ticks(es: seq<Env>): nat
    decreases |es|
  {
    if es == [] then 0 else Ticks(es[..|es| - 1]) + Unsigned(es[|es| - 1].ticks)
  }

  /** No instruction, trap or interrupt moves the clock: over every run it advances by the ticks given, modulo 2^64. */
  lemma {:induction false} ClockOverRuns(h: Hart, es: seq<Env>)
    ensures Unsigned(After(h, es).clint.mtime) == (Unsigned(h.clint.mtime) + Ticks(es)) % TWO_64
    decreases |es|
  {
    hide Step, Unsigned;
    if es == [] {
      Reduced(Unsigned(h.clint.mtime));
    } else {
      var k := After(h, es[..|es| - 1]);
      var e := es[|es| - 1];
      ClockOverRuns(h, es[..|es| - 1]);
      StepClock(k, e);
      IM.ModSum(Unsigned(e.ticks), Unsigned(h.clint.mtime) + Ticks(es[..|es| - 1]));
    }
  }

  lemma StepClock(h: Hart, e: Env)
    ensures Unsigned(Step(h, e).clint.mtime) == (Unsigned(h.clint.mtime) + Unsigned(e.ticks)) % TWO_64
  {
    hide Step, Unsigned, Settled, Trapped, Prepare, Dispatch;
    StepIs(h, e);
  }
}
