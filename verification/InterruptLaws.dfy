/** Laws of interrupt selection: what is chosen, how it is delivered, when there is silence. */
module InterruptLaws {
  import opened Words
  import opened CsrFile
  import opened CsrLaws
  import opened HartState
  import opened Traps
  import opened TrapLaws
  import TM = TrapMeaning
  import WB = WordBits
  import WN = WordNumbers
  import PT = PageTable

  predicate Mie(mstatus: bv64) { mstatus & 0x8 != 0 }

  predicate Sie(mstatus: bv64) { mstatus & 0x2 != 0 }

  // ----- Which interrupts may be taken, and in what order -----

  /** Machine-level interrupts are masked only by MIE in M mode; supervisor-level ones need delegation and
      are masked by SIE in S mode, and never in U mode. */
  predicate Eligible(mode: PT.Mode, mstatus: bv64, pending: bv64, mideleg: bv64, i: Interrupt) {
    && Has(pending, i)
    && if IsMachineLevel(i) then mode != PT.Machine || Mie(mstatus)
       else Has(mideleg, i) && (mode == PT.User || (mode == PT.Supervisor && Sie(mstatus)))
  }

  /** External before software before timer; machine level first, except in S mode with SIE set. */
  function Rank(mode: PT.Mode, mstatus: bv64, i: Interrupt): int {
    var kind := if i.MachineExternal? || i.SupervisorExternal? then 2
                else if i.MachineSoftware? || i.SupervisorSoftware? then 1 else 0;
    var supervisorFirst := mode == PT.Supervisor && Sie(mstatus);
    kind + if IsMachineLevel(i) != supervisorFirst then 3 else 0
  }

  ghost predicate Best(mode: PT.Mode, mstatus: bv64, pending: bv64, mideleg: bv64, i: Interrupt) {
    && Eligible(mode, mstatus, pending, mideleg, i)
    && forall j :: Eligible(mode, mstatus, pending, mideleg, j) ==> Rank(mode, mstatus, j) <= Rank(mode, mstatus, i)
  }

  lemma SelectIs(mode: PT.Mode, mstatus: bv64, pending: bv64, mideleg: bv64)
    ensures var m := FirstMachine(pending); var s := FirstSupervisor(pending, mideleg);
      Select(mode, mstatus, pending, mideleg) ==
        if mode == PT.Machine then (if Mie(mstatus) then m else None)
        else if mode == PT.Supervisor then (if Sie(mstatus) then OrElse(s, m) else m)
        else if mode == PT.User then OrElse(m, s)
        else m
  {
    hide FirstMachine, FirstSupervisor;
  }

  /** The interrupt selected is the eligible one of highest rank, and none is selected exactly when none is
      eligible. */
  lemma SelectIsBest(mode: PT.Mode, mstatus: bv64, pending: bv64, mideleg: bv64, i: Interrupt)
    ensures Select(mode, mstatus, pending, mideleg) == Some(i) <==> Best(mode, mstatus, pending, mideleg, i)
    ensures Select(mode, mstatus, pending, mideleg) == None
            <==> forall j :: !Eligible(mode, mstatus, pending, mideleg, j)
  {
    hide Select, Has, Mie, Sie;
    SelectIs(mode, mstatus, pending, mideleg);
    var s := Select(mode, mstatus, pending, mideleg);
    if s.Some? {
      BestOf(mode, mstatus, pending, mideleg, s.value, i);
    } else {
      assert forall j :: !Eligible(mode, mstatus, pending, mideleg, j);
    }
  }

  lemma BestOf(mode: PT.Mode, mstatus: bv64, pending: bv64, mideleg: bv64, s: Interrupt, i: Interrupt)
    requires Select(mode, mstatus, pending, mideleg) == Some(s)
    ensures Best(mode, mstatus, pending, mideleg, s)
    ensures Best(mode, mstatus, pending, mideleg, i) <==> s == i
  {
    hide Select, Has, Mie, Sie;
    SelectIs(mode, mstatus, pending, mideleg);
  }

  // ----- Silence -----

  /** Nothing at all can interrupt exactly when the mode is M and MIE is clear. */
  lemma SilentIff(mode: PT.Mode, mstatus: bv64)
    ensures (forall pending, mideleg :: Select(mode, mstatus, pending, mideleg) == None) <==>
            mode == PT.Machine && !Mie(mstatus)
  {
    hide Select, Mie, Sie;
    forall pending, mideleg
      ensures mode == PT.Machine && !Mie(mstatus) ==> Select(mode, mstatus, pending, mideleg) == None
    {
      SelectIs(mode, mstatus, pending, mideleg);
    }
    if mode != PT.Machine || Mie(mstatus) {
      SelectIs(mode, mstatus, 0x800, 0);
      assert FirstMachine(0x800) == Some(MachineExternal) && FirstSupervisor(0x800, 0) == None;
      assert Select(mode, mstatus, 0x800, 0) != None;
    }
  }

  predicate SupervisorChosen(mode: PT.Mode, mstatus: bv64, pending: bv64, mideleg: bv64) {
    var s := Select(mode, mstatus, pending, mideleg);
    s.Some? && !IsMachineLevel(s.value)
  }

  /** No supervisor-level interrupt can be chosen exactly in M and H mode, and in S mode with SIE clear. */
  lemma SupervisorSilentIff(mode: PT.Mode, mstatus: bv64)
    ensures (forall pending, mideleg :: !SupervisorChosen(mode, mstatus, pending, mideleg))
            <==> mode == PT.Machine || mode == PT.Hypervisor || (mode == PT.Supervisor && !Sie(mstatus))
  {
    hide Select, Mie, Sie;
    forall pending, mideleg
      ensures mode == PT.Machine || mode == PT.Hypervisor || (mode == PT.Supervisor && !Sie(mstatus))
              ==> !SupervisorChosen(mode, mstatus, pending, mideleg)
    {
      SelectIs(mode, mstatus, pending, mideleg);
    }
    if mode == PT.User || (mode == PT.Supervisor && Sie(mstatus)) {
      SelectIs(mode, mstatus, 0x200, 0x200);
      assert FirstMachine(0x200) == None && FirstSupervisor(0x200, 0x200) == Some(SupervisorExternal);
      assert SupervisorChosen(mode, mstatus, 0x200, 0x200);
    }
  }

  lemma PushedMasks(x: bv64, mode: bv64)
    requires mode < 4
    ensures !Mie(PushM(x, mode)) && !Sie(PushS(x, mode))
  {
  }

  lemma SieInView(x: bv64)
    ensures Sie(Bits(x, SSTATUS_MASK)) == Sie(x)
  {
  }

  /** After an M-level entry no device can interrupt until MIE or the mode changes. */
  lemma MEntrySilences(h: Hart, t: Trap, v: bv64, k: Hart, l: Lines)
    requires var e := TakeTrap(h, t, v); k.mode == e.mode && Mie(Read(k.csr, MSTATUS)) == Mie(Read(e.csr, MSTATUS))
    ensures CheckInterrupt(k, l).1 == None
  {
    hide Select, Mie, Read, Write, PushM, PushS, Sample, Sampled, Pending, ModeNumber, Vector, Code, Record;
    ModeRoundTrip(h.mode);
    TakeTrapReads(h, t, v, MEPC);
    PushedMasks(Read(h.csr, MSTATUS), ModeNumber(h.mode));
    SelectIs(k.mode, Read(k.csr, MSTATUS), Pending(Sampled(Read(k.csr, MIP), l), Read(Sample(k.csr, l), MIE)),
        Read(Sample(k.csr, l), MIDELEG));
  }

  /** After an S-level entry no supervisor-level interrupt can be taken until SIE or the mode changes. */
  lemma SEntrySilences(h: Hart, t: Trap, v: bv64, k: Hart, l: Lines)
    requires var e := TakeSTrap(h, t, v); k.mode == e.mode && Sie(Read(k.csr, MSTATUS)) == Sie(Read(e.csr, MSTATUS))
    ensures var s := CheckInterrupt(k, l).1; s.Some? ==> IsMachineLevel(s.value)
  {
    hide Select, Sie, Mie, Read, Write, PushM, PushS, Sample, Sampled, Pending, ModeNumber, Bits, Vector, Code, Record,
         FirstMachine;
    ModeRoundTrip(h.mode);
    TakeSTrapReads(h, t, v, SEPC);
    SstatusOfMstatus(TakeSTrap(h, t, v).csr);
    SieInView(Read(TakeSTrap(h, t, v).csr, MSTATUS));
    PushedMasks(Read(h.csr, SSTATUS), ModeNumber(h.mode));
    var pending := Pending(Sampled(Read(k.csr, MIP), l), Read(Sample(k.csr, l), MIE));
    SelectIs(k.mode, Read(k.csr, MSTATUS), pending, Read(Sample(k.csr, l), MIDELEG));
    FirstMachineLevel(pending);
  }

  lemma FirstMachineLevel(pending: bv64)
    ensures var m := FirstMachine(pending); m.Some? ==> IsMachineLevel(m.value)
  {
  }

  // ----- Delivery -----

  lemma MaskIsBit(x: bv64, i: Interrupt)
    ensures Has(x, i) == BitSet(x, InterruptNumber(i))
  {
  }

  lemma SampleFrame(r: Regs, l: Lines, b: CsrAddr)
    ensures ReadBacking(b) != MIP ==> Read(Sample(r, l), b) == Read(r, b)
  {
    hide Read, Write, Sampled;
    if ReadBacking(b) != MIP {
      WriteFrame(r, MIP, Sampled(Read(r, MIP), l), b);
    }
  }

  lemma SampledHart(h: Hart, l: Lines)
    ensures var k := CheckInterrupt(h, l).0;
      k == h.(csr := k.csr) && forall b: CsrAddr :: ReadBacking(b) != MIP ==> Read(k.csr, b) == Read(h.csr, b)
  {
    hide Read, Write, Sampled, Sample, Select, ReadBacking;
    forall b: CsrAddr | ReadBacking(b) != MIP
      ensures Read(Sample(h.csr, l), b) == Read(h.csr, b)
    {
      SampleFrame(h.csr, l, b);
    }
  }

  /** The interrupts of numbers 3, 7 and 11 are the machine-level ones. */
  lemma LevelByNumber(i: Interrupt)
    ensures IsMachineLevel(i) <==> TM.CauseOf(Intr(i)) % 4 == 3
  {
  }

  predicate NumberDelegated(r: Regs, i: Interrupt) {
    WB.BitAt(Read(r, 0x303), TM.CauseOf(Intr(i)))
  }

  lemma DelegatedByNumber(r: Regs, i: Interrupt)
    ensures Has(Read(r, MIDELEG), i) <==> NumberDelegated(r, i)
  {
    hide Read, Has, BitSet, WB.BitAt;
    TM.NumberIs(Intr(i));
    TM.BitSetNumber(Read(r, MIDELEG), InterruptNumber(i));
    MaskIsBit(Read(r, MIDELEG), i);
  }

  /** The hart `e` starts the handler of interrupt `i` through the vector register `tvec` of `r`. */
  predicate Starts(r: Regs, e: Hart, i: Interrupt, mode: PT.Mode, tvec: CsrAddr) {
    var x := WN.Unsigned(Read(r, tvec));
    e.mode == mode && WN.Unsigned(e.pc) == (x / 4 * 4 + if x % 2 == 1 then 4 * TM.CauseOf(Intr(i)) else 0) % TWO_64
  }

  lemma EntryStarts(h: Hart, r: Regs, i: Interrupt, v: bv64)
    requires Read(h.csr, 0x305) == Read(r, 0x305) && Read(h.csr, 0x105) == Read(r, 0x105)
    requires Read(h.csr, 0x303) == Read(r, 0x303)
    ensures var e := HandleTrap(h, Intr(i), v);
      if h.mode == PT.Machine || !NumberDelegated(r, i) then Starts(r, e, i, PT.Machine, 0x305)
      else Starts(r, e, i, PT.Supervisor, 0x105)
  {
    hide Read, HandleTrap, WB.BitAt, TM.CauseOf, TM.StackedM, TM.StackedS, WN.Unsigned;
    TM.TrapEntry(h, Intr(i), v);
  }

  /** A supervisor-level interrupt, one of numbers 1, 5 and 9, is only ever chosen in U or S mode with its bit of
      MIDELEG set, and always starts in S mode through STVEC; a machine-level one starts in M mode through MTVEC exactly
      when the hart is in M mode or its bit is clear. In vectored mode the handler is four bytes per number further. */
  lemma SelectionAgreesWithDelivery(h: Hart, l: Lines, v: bv64)
    ensures var (k, s) := CheckInterrupt(h, l); s.Some? ==>
      var e := HandleTrap(k, Intr(s.value), v);
      && (TM.CauseOf(Intr(s.value)) % 4 == 1 ==>
            && (h.mode == PT.User || h.mode == PT.Supervisor)
            && NumberDelegated(h.csr, s.value)
            && Starts(h.csr, e, s.value, PT.Supervisor, 0x105))
      && (TM.CauseOf(Intr(s.value)) % 4 == 3 ==>
            if h.mode == PT.Machine || !NumberDelegated(h.csr, s.value)
            then Starts(h.csr, e, s.value, PT.Machine, 0x305)
            else Starts(h.csr, e, s.value, PT.Supervisor, 0x105))
  {
    hide Select, Mie, Sie, Has, Read, Write, HandleTrap, Sample, Sampled, Pending, BitSet, TM.CauseOf, NumberDelegated,
         Starts, ReadBacking;
    var (k, s) := CheckInterrupt(h, l);
    Backings();
    SampleFrame(h.csr, l, MIDELEG);
    SampledHart(h, l);
    if s.Some? {
      var pending := Pending(Sampled(Read(h.csr, MIP), l), Read(Sample(h.csr, l), MIE));
      BestOf(h.mode, Read(h.csr, MSTATUS), pending, Read(h.csr, MIDELEG), s.value, s.value);
      DelegatedByNumber(h.csr, s.value);
      LevelByNumber(s.value);
      EntryStarts(k, h.csr, s.value, v);
    }
  }

  lemma Backings()
    ensures ReadBacking(0x303) != MIP && ReadBacking(0x305) != MIP && ReadBacking(0x105) != MIP
    ensures ReadBacking(0x300) != MIP && ReadBacking(0x304) != MIP
  {
  }

  // ----- What sampling leaves in MIP -----

  lemma DriveHere(x: bv64, mask: bv64, on: bool)
    ensures Bits(Drive(x, mask, on), mask) == Level(on, mask)
  {
  }

  lemma DriveElsewhere(x: bv64, mask: bv64, on: bool, other: bv64)
    requires mask & other == 0
    ensures Bits(Drive(x, mask, on), other) == Bits(x, other)
  {
  }

  /** One bit of the sampled word that a single line drives, or none. */
  lemma SampledBits(mip: bv64, l: Lines)
    ensures var m := Sampled(mip, l);
      && Bits(m, 0x200) == Level(l.seip, 0x200) && Bits(m, 0x20) == Level(l.stip, 0x20)
      && Bits(m, 0x800) == Level(l.meip, 0x800) && Bits(m, 0x80) == Level(l.mtip, 0x80)
      && Bits(m, 0x8) == Level(l.msip, 0x8) && Bits(m, 0x2) == Bits(mip, 0x2)
  {
    hide Drive, Bits, Level;
    var m1 := Drive(mip, 0x800, l.meip);
    var m2 := Drive(m1, 0x80, l.mtip);
    var m3 := Drive(m2, 0x8, l.msip);
    var m4 := Drive(m3, 0x200, l.seip);
    DriveHere(m4, 0x20, l.stip);
    DriveHere(m3, 0x200, l.seip);
    DriveElsewhere(m4, 0x20, l.stip, 0x200);
    DriveElsewhere(mip, 0x800, l.meip, 0x2);
    DriveElsewhere(m1, 0x80, l.mtip, 0x2);
    DriveElsewhere(m2, 0x8, l.msip, 0x2);
    DriveElsewhere(m3, 0x200, l.seip, 0x2);
    DriveElsewhere(m4, 0x20, l.stip, 0x2);
    DriveHere(mip, 0x800, l.meip);
    DriveElsewhere(m1, 0x80, l.mtip, 0x800);
    DriveElsewhere(m2, 0x8, l.msip, 0x800);
    DriveElsewhere(m3, 0x200, l.seip, 0x800);
    DriveElsewhere(m4, 0x20, l.stip, 0x800);
    DriveHere(m1, 0x80, l.mtip);
    DriveElsewhere(m2, 0x8, l.msip, 0x80);
    DriveElsewhere(m3, 0x200, l.seip, 0x80);
    DriveElsewhere(m4, 0x20, l.stip, 0x80);
    DriveHere(m2, 0x8, l.msip);
    DriveElsewhere(m3, 0x200, l.seip, 0x8);
    DriveElsewhere(m4, 0x20, l.stip, 0x8);
  }

  lemma BlendedBit(kept: bv64, v: bv64, bit: bv64)
    requires bit == 0x2 || bit == 0x20 || bit == 0x200
    ensures Bits(Blend(kept, v, S_INTERRUPTS), bit) == Bits(v, bit)
  {
  }

  /** Sampling leaves SEIP and STIP as the lines are, SSIP as software left it, and nothing else in MIP: the
      three machine-level lines decide the selection but are never stored. */
  lemma SampleStores(r: Regs, l: Lines)
    requires Inv(r)
    ensures var m := Read(Sample(r, l), MIP);
      && Bits(m, 0x200) == Level(l.seip, 0x200) && Bits(m, 0x20) == Level(l.stip, 0x20)
      && Bits(m, 0x2) == Bits(Read(r, MIP), 0x2) && MipOk(m)
  {
    hide Inv, Write, Bits, Blend, Sampled, MipOk, Level;
    var x := Sampled(Read(r, MIP), l);
    WriteKeepsInv(r, MIP, x);
    MipFromInv(Write(r, MIP, x));
    ReadBack(r, MIP, x, MIP);
    SampledBits(Read(r, MIP), l);
    BlendedBit(Read(r, MIP), x, 0x2);
    BlendedBit(Read(r, MIP), x, 0x20);
    BlendedBit(Read(r, MIP), x, 0x200);
  }

  lemma MipFromInv(r: Regs)
    requires Inv(r)
    ensures MipOk(Read(r, MIP))
  {
  }

  // ----- Inputs that show the departures -----

  /** In S mode with SIE set, a supervisor external interrupt is taken although a machine external one is pending. */
  lemma SupervisorBeforeMachine()
    ensures Has(0xA00, MachineExternal) && Select(PT.Supervisor, 0x2, 0xA00, 0x200) == Some(SupervisorExternal)
  {
  }

  lemma WrittenMask(v: bv64)
    ensures Delegable(v) & 0x80 == v & 0x80
  {
  }

  lemma BitSeven(x: bv64)
    ensures Has(x, MachineTimer) <==> x & 0x80 != 0
  {
  }

  lemma WrittenDelegation(r: Regs)
    ensures Has(Read(Write(r, 0x303, 0x80), MIDELEG), MachineTimer)
    ensures Read(Write(r, 0x303, 0x80), 0x105) == Read(r, 0x105)
  {
    hide Read, Write, Has, Delegable;
    ReadBack(r, MIDELEG, 0x80, MIDELEG);
    WrittenMask(0x80);
    BitSeven(Delegable(0x80));
    WriteFrame(r, MIDELEG, 0x80, 0x105);
  }

  lemma SameStart(q: Regs, r: Regs, e: Hart, i: Interrupt, mode: PT.Mode, tvec: CsrAddr)
    requires Read(q, tvec) == Read(r, tvec) && Starts(q, e, i, mode, tvec)
    ensures Starts(r, e, i, mode, tvec)
  {
    hide Read, WN.Unsigned, TM.CauseOf;
  }

  /** Writing bit 7 of MIDELEG delegates the machine timer interrupt: from S mode it starts in S mode through STVEC. */
  lemma MachineTimerDelegated(h: Hart, r: Regs, v: bv64)
    requires h.mode == PT.Supervisor && h.csr == Write(r, 0x303, 0x80)
    ensures Starts(r, HandleTrap(h, Intr(MachineTimer), v), MachineTimer, PT.Supervisor, 0x105)
  {
    hide Read, Write, HandleTrap, Has, NumberDelegated, Starts;
    WrittenDelegation(r);
    DelegatedByNumber(h.csr, MachineTimer);
    EntryStarts(h, h.csr, MachineTimer, v);
    SameStart(h.csr, r, HandleTrap(h, Intr(MachineTimer), v), MachineTimer, PT.Supervisor, 0x105);
  }
}
