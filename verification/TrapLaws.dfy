/** Laws of the trap machine: returns undo entries, nesting is invisible, selection agrees with delivery. */
module TrapLaws {
  import opened Words
  import opened CsrFile
  import opened CsrLaws
  import opened HartState
  import opened Traps
  import PT = PageTable

  // ----- Status words that read back as written -----

  predicate SdRight(x: bv64) {
    Bits(x, SD_BIT) == Summary(x)
  }

  /** A value MSTATUS can show: SXL and UXL are 2 and SD is right. */
  predicate Coherent(x: bv64) {
    x & 0xF_0000_0000 == 0xA_0000_0000 && SdRight(x)
  }

  /** A value SSTATUS can show. */
  predicate CoherentS(x: bv64) {
    SShape(x) && SdRight(x)
  }

  predicate SShape(x: bv64) {
    x & SSTATUS_MASK == x && x & 0x3_0000_0000 == 0x2_0000_0000
  }

  lemma ShownCoherent(raw: bv64)
    ensures Coherent(MstatusView(raw))
  {
  }

  lemma SShownCoherent(raw: bv64)
    ensures CoherentS(Bits(MstatusView(raw), SSTATUS_MASK))
  {
  }

  lemma SameSummary(raw: bv64, x: bv64)
    ensures Summary(WithoutSd(x)) == Summary(x)
    ensures Summary(WithoutSd(Blend(raw, x, SSTATUS_MASK))) == Summary(x)
  {
  }

  lemma CleanKept(x: bv64)
    requires x & 0xF_0000_0000 == 0xA_0000_0000
    ensures Forced(WithoutSd(x)) == WithoutSd(x)
  {
  }

  lemma SdPutBack(x: bv64)
    ensures WithoutSd(x) | Bits(x, SD_BIT) == x
  {
  }

  lemma CoherentKept(x: bv64)
    requires Coherent(x)
    ensures MstatusView(WithoutSd(x)) == x
  {
    hide Summary, WithoutSd, Forced, Bits;
    SameSummary(0, x);
    CleanKept(x);
    SdPutBack(x);
  }

  lemma CleanSKept(raw: bv64, x: bv64)
    requires SShape(x)
    ensures Bits(Forced(WithoutSd(Blend(raw, x, SSTATUS_MASK))), SSTATUS_MASK) == WithoutSd(x)
  {
  }

  lemma ViewMasked(raw: bv64)
    ensures Bits(MstatusView(raw), SSTATUS_MASK) == Bits(Forced(raw), SSTATUS_MASK) | Summary(raw)
  {
  }

  lemma CoherentSKept(raw: bv64, x: bv64)
    requires CoherentS(x)
    ensures Bits(MstatusView(WithoutSd(Blend(raw, x, SSTATUS_MASK))), SSTATUS_MASK) == x
  {
    hide Summary, WithoutSd, Blend, Bits, Forced, SShape, MstatusView;
    SameSummary(raw, x);
    CleanSKept(raw, x);
    SdPutBack(x);
    ViewMasked(WithoutSd(Blend(raw, x, SSTATUS_MASK)));
  }

  lemma PushMCoherent(x: bv64, mode: bv64)
    requires Coherent(x) && mode < 4
    ensures Coherent(PushM(x, mode))
  {
  }

  lemma PopMCoherent(x: bv64)
    requires Coherent(x)
    ensures Coherent(PopM(x))
  {
  }

  lemma PushSCoherent(x: bv64, mode: bv64)
    requires CoherentS(x)
    ensures CoherentS(PushS(x, mode))
  {
  }

  lemma PopSCoherent(x: bv64)
    requires CoherentS(x)
    ensures CoherentS(PopS(x))
  {
  }

  lemma MstatusCoherent(r: Regs)
    ensures Coherent(Read(r, MSTATUS))
  {
    hide Raw, MstatusView, Coherent;
    ShownCoherent(Raw(r, MSTATUS));
  }

  lemma SstatusCoherent(r: Regs)
    ensures CoherentS(Read(r, SSTATUS))
  {
    hide Raw, MstatusView, CoherentS, Bits;
    SShownCoherent(Raw(r, MSTATUS));
  }

  lemma MstatusReadsBack(r: Regs, x: bv64)
    requires Coherent(x)
    ensures Read(Write(r, MSTATUS, x), MSTATUS) == x
  {
    hide Raw, MstatusView, Coherent, WithoutSd, Write;
    ReadBack(r, MSTATUS, x, MSTATUS);
    CoherentKept(x);
  }

  lemma SstatusReadsBack(r: Regs, x: bv64)
    requires CoherentS(x)
    ensures Read(Write(r, SSTATUS, x), SSTATUS) == x
  {
    hide Raw, MstatusView, CoherentS, WithoutSd, Bits, Blend, Write;
    ReadBack(r, SSTATUS, x, SSTATUS);
    CoherentSKept(Raw(r, MSTATUS), x);
  }

  // ----- The stack of one level: what a return restores -----

  /** MSTATUS after an entry and its return: MPIE set, MPP cleared, the rest as before. */
  function Unstacked(x: bv64): bv64 {
    (x | 0x80) & !0x1800
  }

  /** SSTATUS after an entry and its return. */
  function UnstackedS(x: bv64): bv64 {
    (x | 0x20) & !0x100
  }

  lemma PopPushM(x: bv64, mode: bv64)
    requires mode < 4
    ensures PopM(PushM(x, mode)) == Unstacked(x)
  {
  }

  lemma MppPushM(x: bv64, mode: bv64)
    requires mode < 4
    ensures Mpp(PushM(x, mode)) == mode
  {
  }

  lemma PopPushS(x: bv64, mode: bv64)
    ensures PopS(PushS(x, mode)) == UnstackedS(x)
  {
  }

  lemma SppPushS(x: bv64, mode: bv64)
    ensures Spp(PushS(x, mode)) == mode & 1
  {
  }

  lemma ModeRoundTrip(m: PT.Mode)
    ensures ModeNumber(m) < 4 && ModeOf(ModeNumber(m)) == m
    ensures (ModeNumber(m) & 1 == 0) <==> m == PT.User || m == PT.Hypervisor
  {
  }

  lemma UnstackedKeepsMie(x: bv64)
    ensures Bits(Unstacked(x), 0x8) == Bits(x, 0x8)
  {
  }

  lemma UnstackedKeepsView(x: bv64)
    ensures Bits(Unstacked(x), SSTATUS_MASK) == Bits(x, SSTATUS_MASK)
  {
  }

  lemma UnstackedKeepsSie(x: bv64)
    ensures Bits(UnstackedS(x), 0x2) == Bits(x, 0x2)
  {
  }

  // ----- What entry leaves in the register file -----

  lemma RecordReads(r: Regs, epc: CsrAddr, cause: CsrAddr, tval: CsrAddr, pc: bv64, t: Trap, v: bv64, b: CsrAddr)
    requires (epc, cause, tval) == (MEPC, MCAUSE, MTVAL) || (epc, cause, tval) == (SEPC, SCAUSE, STVAL)
    ensures var r' := Record(r, epc, cause, tval, pc, t, v);
      Read(r', b) == if b == epc then pc else if b == cause then Code(t) else if b == tval then v else Read(r, b)
  {
    hide Read, Write, Code;
    var r1 := Write(r, epc, pc);
    var r2 := Write(r1, cause, Code(t));
    Elsewhere(r, epc, pc, b);
    Elsewhere(r1, cause, Code(t), b);
    Elsewhere(r2, tval, v, b);
  }

  /** Registers with plain storage of their own. */
  predicate Plain(a: CsrAddr) {
    a == MEPC || a == MCAUSE || a == MTVAL || a == SEPC || a == SCAUSE || a == STVAL
  }

  lemma Elsewhere(r: Regs, a: CsrAddr, v: bv64, b: CsrAddr)
    requires Plain(a)
    ensures Read(Write(r, a, v), b) == if a == b then v else Read(r, b)
  {
    hide Read, Write;
    if a == b {
      PlainReadsBack(r, a, v);
    } else {
      WriteFrame(r, a, v, b);
    }
  }

  lemma PlainReadsBack(r: Regs, a: CsrAddr, v: bv64)
    requires Plain(a)
    ensures Read(Write(r, a, v), a) == v
  {
    hide Read, Write;
    ReadBack(r, a, v, a);
  }

  /** Every register after an M-level entry. */
  lemma TakeTrapReads(h: Hart, t: Trap, v: bv64, b: CsrAddr)
    ensures var r := TakeTrap(h, t, v).csr;
      && Read(r, MSTATUS) == PushM(Read(h.csr, MSTATUS), ModeNumber(h.mode))
      && Read(r, MEPC) == h.pc && Read(r, MCAUSE) == Code(t) && Read(r, MTVAL) == v
      && (b != MEPC && b != MCAUSE && b != MTVAL && ReadBacking(b) != MSTATUS ==> Read(r, b) == Read(h.csr, b))
  {
    hide Read, Write, PushM, Coherent, Code, Record, Vector;
    var r := Record(h.csr, MEPC, MCAUSE, MTVAL, h.pc, t, v);
    RecordReads(h.csr, MEPC, MCAUSE, MTVAL, h.pc, t, v, MSTATUS);
    RecordReads(h.csr, MEPC, MCAUSE, MTVAL, h.pc, t, v, MEPC);
    RecordReads(h.csr, MEPC, MCAUSE, MTVAL, h.pc, t, v, MCAUSE);
    RecordReads(h.csr, MEPC, MCAUSE, MTVAL, h.pc, t, v, MTVAL);
    RecordReads(h.csr, MEPC, MCAUSE, MTVAL, h.pc, t, v, b);
    var status := PushM(Read(r, MSTATUS), ModeNumber(h.mode));
    MstatusCoherent(r);
    ModeRoundTrip(h.mode);
    PushMCoherent(Read(r, MSTATUS), ModeNumber(h.mode));
    MstatusReadsBack(r, status);
    MstatusFrame(r, MSTATUS, status, MEPC);
    MstatusFrame(r, MSTATUS, status, MCAUSE);
    MstatusFrame(r, MSTATUS, status, MTVAL);
    MstatusFrame(r, MSTATUS, status, b);
  }

  lemma MstatusFrame(r: Regs, a: CsrAddr, v: bv64, b: CsrAddr)
    requires a == MSTATUS || a == SSTATUS
    ensures ReadBacking(b) != MSTATUS ==> Read(Write(r, a, v), b) == Read(r, b)
  {
    hide Read, Write;
    if ReadBacking(b) != MSTATUS {
      WriteFrame(r, a, v, b);
    }
  }

  /** Every register after an S-level entry. */
  lemma TakeSTrapReads(h: Hart, t: Trap, v: bv64, b: CsrAddr)
    ensures var r := TakeSTrap(h, t, v).csr;
      && Read(r, SSTATUS) == PushS(Read(h.csr, SSTATUS), ModeNumber(h.mode))
      && Read(r, SEPC) == h.pc && Read(r, SCAUSE) == Code(t) && Read(r, STVAL) == v
      && (b != SEPC && b != SCAUSE && b != STVAL && ReadBacking(b) != MSTATUS ==> Read(r, b) == Read(h.csr, b))
  {
    hide Read, Write, PushS, CoherentS, Code, Record, Vector;
    var r := Record(h.csr, SEPC, SCAUSE, STVAL, h.pc, t, v);
    RecordReads(h.csr, SEPC, SCAUSE, STVAL, h.pc, t, v, SSTATUS);
    RecordReads(h.csr, SEPC, SCAUSE, STVAL, h.pc, t, v, SEPC);
    RecordReads(h.csr, SEPC, SCAUSE, STVAL, h.pc, t, v, SCAUSE);
    RecordReads(h.csr, SEPC, SCAUSE, STVAL, h.pc, t, v, STVAL);
    RecordReads(h.csr, SEPC, SCAUSE, STVAL, h.pc, t, v, b);
    var status := PushS(Read(r, SSTATUS), ModeNumber(h.mode));
    SstatusCoherent(r);
    PushSCoherent(Read(r, SSTATUS), ModeNumber(h.mode));
    SstatusReadsBack(r, status);
    MstatusFrame(r, SSTATUS, status, SEPC);
    MstatusFrame(r, SSTATUS, status, SCAUSE);
    MstatusFrame(r, SSTATUS, status, STVAL);
    MstatusFrame(r, SSTATUS, status, b);
  }

  // ----- Returns -----

  lemma MretReads(k: Hart, b: CsrAddr)
    ensures var j := Mret(k);
      && j == k.(csr := j.csr, mode := ModeOf(Mpp(Read(k.csr, MSTATUS))), pc := Read(k.csr, MEPC), reservation := None)
      && Read(j.csr, MSTATUS) == PopM(Read(k.csr, MSTATUS))
      && (ReadBacking(b) != MSTATUS ==> Read(j.csr, b) == Read(k.csr, b))
  {
    hide Read, Write, PopM, Mpp, Coherent, ModeOf;
    var x := PopM(Read(k.csr, MSTATUS));
    MstatusCoherent(k.csr);
    PopMCoherent(Read(k.csr, MSTATUS));
    MstatusReadsBack(k.csr, x);
    MstatusFrame(k.csr, MSTATUS, x, MEPC);
    MstatusFrame(k.csr, MSTATUS, x, b);
  }

  lemma SretReads(k: Hart, b: CsrAddr)
    ensures var j := Sret(k);
      && j == k.(csr := j.csr, mode := if Spp(Read(k.csr, SSTATUS)) == 0 then PT.User else PT.Supervisor,
                 pc := Read(k.csr, SEPC), reservation := None)
      && Read(j.csr, SSTATUS) == PopS(Read(k.csr, SSTATUS))
      && (ReadBacking(b) != MSTATUS ==> Read(j.csr, b) == Read(k.csr, b))
  {
    hide Read, Write, PopS, Spp, CoherentS;
    var x := PopS(Read(k.csr, SSTATUS));
    SstatusCoherent(k.csr);
    PopSCoherent(Read(k.csr, SSTATUS));
    SstatusReadsBack(k.csr, x);
    MstatusFrame(k.csr, SSTATUS, x, SEPC);
    MstatusFrame(k.csr, SSTATUS, x, b);
  }

  /** An M-level entry and its return give back everything but MSTATUS.MPIE and MPP, MEPC, MCAUSE, MTVAL
      and the reservation. */
  lemma TrapThenMret(h: Hart, t: Trap, v: bv64, b: CsrAddr)
    ensures var j := Mret(TakeTrap(h, t, v));
      && j == h.(csr := j.csr, reservation := None)
      && Read(j.csr, MSTATUS) == Unstacked(Read(h.csr, MSTATUS))
      && Bits(Read(j.csr, MSTATUS), 0x8) == Bits(Read(h.csr, MSTATUS), 0x8)
      && (b != MEPC && b != MCAUSE && b != MTVAL && ReadBacking(b) != MSTATUS ==> Read(j.csr, b) == Read(h.csr, b))
  {
    hide Read, Write, PopM, PushM, Mpp, ModeOf, ModeNumber, Unstacked, Bits, Code, Vector;
    var x := Read(h.csr, MSTATUS);
    TakeTrapReads(h, t, v, b);
    MretReads(TakeTrap(h, t, v), b);
    ModeRoundTrip(h.mode);
    PopPushM(x, ModeNumber(h.mode));
    MppPushM(x, ModeNumber(h.mode));
    UnstackedKeepsMie(x);
  }

  /** An S-level entry and its return: pc and SIE always come back, the mode exactly when it was U or S. */
  lemma STrapThenSret(h: Hart, t: Trap, v: bv64, b: CsrAddr)
    ensures var j := Sret(TakeSTrap(h, t, v));
      && j == h.(csr := j.csr, mode := j.mode, reservation := None)
      && (j.mode == h.mode <==> h.mode == PT.User || h.mode == PT.Supervisor)
      && Read(j.csr, SSTATUS) == UnstackedS(Read(h.csr, SSTATUS))
      && Bits(Read(j.csr, SSTATUS), 0x2) == Bits(Read(h.csr, SSTATUS), 0x2)
      && (b != SEPC && b != SCAUSE && b != STVAL && ReadBacking(b) != MSTATUS ==> Read(j.csr, b) == Read(h.csr, b))
  {
    hide Read, Write, PopS, PushS, Spp, ModeNumber, UnstackedS, Bits, Code, Vector;
    var x := Read(h.csr, SSTATUS);
    TakeSTrapReads(h, t, v, b);
    SretReads(TakeSTrap(h, t, v), b);
    ModeRoundTrip(h.mode);
    PopPushS(x, ModeNumber(h.mode));
    SppPushS(x, ModeNumber(h.mode));
    UnstackedKeepsSie(x);
  }

  // ----- Nesting -----

  lemma SstatusOfMstatus(r: Regs)
    ensures Read(r, SSTATUS) == Bits(Read(r, MSTATUS), SSTATUS_MASK)
  {
    hide MstatusView, Bits, Raw;
  }

  /** An M-level entry and return in the middle of an S-level handler changes nothing that the handler or
      its return can see. */
  lemma MPairInvisible(h: Hart, t: Trap, v: bv64, b: CsrAddr)
    requires b != MSTATUS && b != MEPC && b != MCAUSE && b != MTVAL
    ensures Read(Mret(TakeTrap(h, t, v)).csr, b) == Read(h.csr, b)
  {
    hide Read, Write, Unstacked, Bits, Mret, TakeTrap;
    TrapThenMret(h, t, v, b);
    if b == SSTATUS {
      SstatusOfMstatus(h.csr);
      SstatusOfMstatus(Mret(TakeTrap(h, t, v)).csr);
      UnstackedKeepsView(Read(h.csr, MSTATUS));
    }
  }

  /** What the handler of an S-level trap goes through before its SRET: its own steps, and M-level traps
      whose handler is about to return from `body`. */
  datatype Phase = Own(to: Hart) | Excursion(trap: Trap, tval: bv64, body: Hart)

  const S_STACK: bv64 := 0x120

  /** SEPC, SPIE and SPP. */
  function SStack(h: Hart): (bv64, bv64) {
    (Read(h.csr, SEPC), Bits(Read(h.csr, SSTATUS), S_STACK))
  }

  function AfterPhase(p: Phase): Hart {
    match p
    case Own(k) => k
    case Excursion(_, _, body) => Mret(body)
  }

  /** The handler's own steps leave its stack alone; an M-level handler leaves SEPC, and the MEPC and MSTATUS
      it was entered with. */
  predicate WellBehaved(h: Hart, p: Phase) {
    match p
    case Own(k) => SStack(k) == SStack(h)
    case Excursion(t, v, body) =>
      var e := TakeTrap(h, t, v).csr;
      && Read(body.csr, SEPC) == Read(e, SEPC)
      && Read(body.csr, MEPC) == Read(e, MEPC)
      && Read(body.csr, MSTATUS) == Read(e, MSTATUS)
  }

  predicate HandlerRun(h: Hart, ps: seq<Phase>)
    decreases |ps|
  {
    ps == [] || (WellBehaved(h, ps[0]) && HandlerRun(AfterPhase(ps[0]), ps[1..]))
  }

  function AfterRun(h: Hart, ps: seq<Phase>): Hart
    decreases |ps|
  {
    if ps == [] then h else AfterRun(AfterPhase(ps[0]), ps[1..])
  }

  lemma StackOfUnstacked(x: bv64)
    ensures Bits(Bits(Unstacked(x), SSTATUS_MASK), S_STACK) == Bits(Bits(x, SSTATUS_MASK), S_STACK)
  {
  }

  /** The M-level return brings the S-level handler back where it was, with its stack intact. */
  lemma ExcursionReturns(h: Hart, t: Trap, v: bv64, body: Hart)
    requires WellBehaved(h, Excursion(t, v, body))
    ensures var j := Mret(body); j.pc == h.pc && j.mode == h.mode && SStack(j) == SStack(h)
  {
    hide Read, Write, PopM, PushM, Mpp, ModeOf, ModeNumber, Unstacked, Bits, Mret, TakeTrap;
    var x := Read(h.csr, MSTATUS);
    TakeTrapReads(h, t, v, SEPC);
    MretReads(body, SEPC);
    ModeRoundTrip(h.mode);
    PopPushM(x, ModeNumber(h.mode));
    MppPushM(x, ModeNumber(h.mode));
    SstatusOfMstatus(h.csr);
    SstatusOfMstatus(Mret(body).csr);
    StackOfUnstacked(x);
  }

  lemma {:induction false} RunKeepsStack(h: Hart, ps: seq<Phase>)
    requires HandlerRun(h, ps)
    ensures SStack(AfterRun(h, ps)) == SStack(h)
    decreases |ps|
  {
    hide SStack, Mret, TakeTrap;
    if ps != [] {
      if ps[0].Excursion? {
        ExcursionReturns(h, ps[0].trap, ps[0].tval, ps[0].body);
      }
      RunKeepsStack(AfterPhase(ps[0]), ps[1..]);
    }
  }

  lemma StackDecides(x: bv64, y: bv64)
    requires Bits(x, S_STACK) == Bits(y, S_STACK)
    ensures Spp(x) == Spp(y) && Bits(PopS(x), 0x2) == Bits(PopS(y), 0x2)
  {
  }

  /** Whatever an S-level handler does between entry and SRET, any number of M-level traps included, SRET
      resumes the interrupted U- or S-mode code with its SIE. */
  lemma NestedTrapsReturn(h: Hart, t: Trap, v: bv64, ps: seq<Phase>)
    requires h.mode == PT.User || h.mode == PT.Supervisor
    requires HandlerRun(TakeSTrap(h, t, v), ps)
    ensures var j := Sret(AfterRun(TakeSTrap(h, t, v), ps));
      j.pc == h.pc && j.mode == h.mode && Bits(Read(j.csr, SSTATUS), 0x2) == Bits(Read(h.csr, SSTATUS), 0x2)
  {
    hide Read, Write, PopS, PushS, Spp, ModeNumber, UnstackedS, Bits, TakeSTrap, Sret, HandlerRun, AfterRun;
    var e := TakeSTrap(h, t, v);
    var k := AfterRun(e, ps);
    RunKeepsStack(e, ps);
    TakeSTrapReads(h, t, v, SEPC);
    SretReads(k, SEPC);
    StackDecides(Read(k.csr, SSTATUS), Read(e.csr, SSTATUS));
    ModeRoundTrip(h.mode);
    PopPushS(Read(h.csr, SSTATUS), ModeNumber(h.mode));
    SppPushS(Read(h.csr, SSTATUS), ModeNumber(h.mode));
    UnstackedKeepsSie(Read(h.csr, SSTATUS));
  }
}
