/** Interrupt selection told by interrupt numbers and register bits. */
module InterruptNumbers {
  import opened Words
  import opened WordNumbers
  import opened WordBits
  import opened BusRouting
  import opened CsrFile
  import opened HartState
  import opened Traps
  import opened InterruptLaws
  import opened TrapMeaning
  import CM = ControlMeaning
  import PT = PageTable

  /** The line of an interrupt number, where a device drives one. */
  predicate LineOf(l: Lines, n: nat) {
    || (n == 11 && l.meip) || (n == 7 && l.mtip) || (n == 3 && l.msip) || (n == 9 && l.seip) || (n == 5 && l.stip)
  }

  /** The number is pending and enabled: by its line, or for number 1 by bit 1 of MIP, and by its bit of MIE. */
  predicate Wanting(h: Hart, l: Lines, n: nat) {
    (if n == 1 then BitAt(Read(h.csr, 0x344), 1) else LineOf(l, n)) && BitAt(Read(h.csr, 0x304), n)
  }

  /** The hart accepts the number: 3, 7 and 11 outside M mode or under MIE, the others when delegated in U mode, or in
      S mode under SIE. */
  predicate Accepts(h: Hart, n: nat) {
    if n % 4 == 3 then h.mode != PT.Machine || BitAt(Read(h.csr, 0x300), 3)
    else
      && BitAt(Read(h.csr, 0x303), n)
      && (h.mode == PT.User || (h.mode == PT.Supervisor && BitAt(Read(h.csr, 0x300), 1)))
  }

  /** The numbers in the order in which they are tested. */
  function Order(h: Hart): seq<nat> {
    if h.mode == PT.Supervisor && BitAt(Read(h.csr, 0x300), 1) then [9, 1, 5, 11, 3, 7] else [11, 3, 7, 9, 1, 5]
  }

  function OfNumber(n: nat): Interrupt {
    if n == 1 then SupervisorSoftware
    else if n == 3 then MachineSoftware
    else if n == 5 then SupervisorTimer
    else if n == 7 then MachineTimer
    else if n == 9 then SupervisorExternal
    else MachineExternal
  }

  /** The first of the numbers that is wanting and accepted. */
  function FirstOf(h: Hart, l: Lines, ns: seq<nat>): Option<Interrupt> {
    if ns == [] then None
    else if Wanting(h, l, ns[0]) && Accepts(h, ns[0]) then Some(OfNumber(ns[0]))
    else FirstOf(h, l, ns[1..])
  }

  // ----- The masks of the code as bit numbers -----

  lemma StatusMasks(x: bv64)
    ensures Mie(x) <==> BitSet(x, 3)
    ensures Sie(x) <==> BitSet(x, 1)
  {
  }

  lemma StatusBits(x: bv64)
    ensures Mie(x) <==> BitAt(x, 3)
    ensures Sie(x) <==> BitAt(x, 1)
  {
    hide Mie, Sie, BitSet, BitAt;
    StatusMasks(x);
    BitSetNumber(x, 3);
    BitSetNumber(x, 1);
    assert Position(3) == 3 && Position(1) == 1;
  }

  lemma HasNumber(x: bv64, i: Interrupt)
    ensures Has(x, i) <==> BitAt(x, CauseOf(Intr(i)))
  {
    hide Has, BitSet, BitAt;
    NumberIs(Intr(i));
    BitSetNumber(x, InterruptNumber(i));
    MaskIsBit(x, i);
  }

  lemma HasBoth(x: bv64, y: bv64, i: Interrupt)
    ensures Has(Pending(x, y), i) <==> Has(x, i) && Has(y, i)
  {
    hide Has, BitSet, BitAt;
    HasNumber(x, i);
    HasNumber(y, i);
    HasNumber(Pending(x, y), i);
    PendingIs(x, y);
    BitwiseBits(x, y, CauseOf(Intr(i)));
  }

  lemma PendingIs(x: bv64, y: bv64)
    ensures Pending(x, y) == Meet(x, y)
  {
  }

  lemma HasBits(x: bv64, i: Interrupt)
    ensures Has(x, i) <==> Bits(x, Mask(i)) != 0
  {
  }

  lemma LevelOn(on: bool, i: Interrupt)
    ensures Level(on, Mask(i)) != 0 <==> on
  {
  }

  lemma SampledHas(mip: bv64, l: Lines, i: Interrupt)
    ensures Has(Sampled(mip, l), i) <==> if i.SupervisorSoftware? then Has(mip, i) else LineOf(l, CauseOf(Intr(i)))
  {
    hide Sampled, Bits, Level, Has;
    SampledBits(mip, l);
    HasBits(Sampled(mip, l), i);
    HasBits(mip, i);
    LevelOn(l.meip, MachineExternal);
    LevelOn(l.mtip, MachineTimer);
    LevelOn(l.msip, MachineSoftware);
    LevelOn(l.seip, SupervisorExternal);
    LevelOn(l.stip, SupervisorTimer);
  }

  lemma PendingNumber(h: Hart, l: Lines, i: Interrupt)
    ensures Has(Pending(Sampled(Read(h.csr, MIP), l), Read(h.csr, MIE)), i) <==> Wanting(h, l, CauseOf(Intr(i)))
  {
    hide Read, Sampled, Pending, Has, BitAt, LineOf;
    HasBoth(Sampled(Read(h.csr, MIP), l), Read(h.csr, MIE), i);
    SampledHas(Read(h.csr, MIP), l, i);
    HasNumber(Read(h.csr, MIP), i);
    HasNumber(Read(h.csr, MIE), i);
  }

  // ----- The chains of the code -----

  function MachineChain(h: Hart, l: Lines): Option<Interrupt> {
    if Wanting(h, l, 11) then Some(MachineExternal)
    else if Wanting(h, l, 3) then Some(MachineSoftware)
    else if Wanting(h, l, 7) then Some(MachineTimer)
    else None
  }

  function SupervisorChain(h: Hart, l: Lines): Option<Interrupt> {
    if Wanting(h, l, 9) && BitAt(Read(h.csr, 0x303), 9) then Some(SupervisorExternal)
    else if Wanting(h, l, 1) && BitAt(Read(h.csr, 0x303), 1) then Some(SupervisorSoftware)
    else if Wanting(h, l, 5) && BitAt(Read(h.csr, 0x303), 5) then Some(SupervisorTimer)
    else None
  }

  lemma ChainsAre(h: Hart, l: Lines)
    ensures var pending := Pending(Sampled(Read(h.csr, MIP), l), Read(h.csr, MIE));
      && FirstMachine(pending) == MachineChain(h, l)
      && FirstSupervisor(pending, Read(h.csr, MIDELEG)) == SupervisorChain(h, l)
  {
    hide Read, Sampled, Pending, Has, BitAt, Wanting;
    PendingNumber(h, l, MachineExternal);
    PendingNumber(h, l, MachineSoftware);
    PendingNumber(h, l, MachineTimer);
    PendingNumber(h, l, SupervisorExternal);
    PendingNumber(h, l, SupervisorSoftware);
    PendingNumber(h, l, SupervisorTimer);
    HasNumber(Read(h.csr, MIDELEG), SupervisorExternal);
    HasNumber(Read(h.csr, MIDELEG), SupervisorSoftware);
    HasNumber(Read(h.csr, MIDELEG), SupervisorTimer);
  }

  lemma FirstOfThree(h: Hart, l: Lines, a: nat, b: nat, c: nat, rest: seq<nat>)
    ensures FirstOf(h, l, [a, b, c] + rest) ==
            if Wanting(h, l, a) && Accepts(h, a) then Some(OfNumber(a))
            else if Wanting(h, l, b) && Accepts(h, b) then Some(OfNumber(b))
            else if Wanting(h, l, c) && Accepts(h, c) then Some(OfNumber(c))
            else FirstOf(h, l, rest)
  {
    hide FirstOf, Wanting, Accepts, OfNumber;
    FirstStep(h, l, a, [b, c] + rest);
    FirstStep(h, l, b, [c] + rest);
    FirstStep(h, l, c, rest);
    assert [a, b, c] + rest == [a] + ([b, c] + rest) && [b, c] + rest == [b] + ([c] + rest);
  }

  lemma FirstStep(h: Hart, l: Lines, n: nat, rest: seq<nat>)
    ensures FirstOf(h, l, [n] + rest) ==
            if Wanting(h, l, n) && Accepts(h, n) then Some(OfNumber(n)) else FirstOf(h, l, rest)
  {
    hide Wanting, Accepts, OfNumber;
    assert ([n] + rest)[1..] == rest;
  }

  lemma FirstOfOrder(h: Hart, l: Lines)
    ensures FirstOf(h, l, Order(h)) ==
            if h.mode == PT.Machine then (if BitAt(Read(h.csr, 0x300), 3) then MachineChain(h, l) else None)
            else if h.mode == PT.Supervisor && BitAt(Read(h.csr, 0x300), 1) then
              OrElse(SupervisorChain(h, l), MachineChain(h, l))
            else if h.mode == PT.User then OrElse(MachineChain(h, l), SupervisorChain(h, l))
            else MachineChain(h, l)
  {
    hide Read, BitAt, Wanting;
    FirstOfThree(h, l, 9, 1, 5, [11, 3, 7]);
    FirstOfThree(h, l, 11, 3, 7, [9, 1, 5]);
    FirstOfThree(h, l, 11, 3, 7, []);
    FirstOfThree(h, l, 9, 1, 5, []);
    assert [9, 1, 5] + [11, 3, 7] == [9, 1, 5, 11, 3, 7] && [11, 3, 7] + [9, 1, 5] == [11, 3, 7, 9, 1, 5];
    assert [11, 3, 7] + [] == [11, 3, 7] && [9, 1, 5] + [] == [9, 1, 5];
    hide FirstOf;
  }

  /** The check chooses the first number that is wanting and accepted: external before software before timer, machine
      level before supervisor level, except in S mode under SIE. */
  lemma SelectionByNumbers(h: Hart, l: Lines)
    ensures CheckInterrupt(h, l).1 == FirstOf(h, l, Order(h))
  {
    hide Select, Read, Sample, Sampled, Pending, BitAt, FirstOf, Order, Mie, Sie, MachineChain, SupervisorChain,
         FirstMachine, FirstSupervisor;
    Backings();
    SampleFrame(h.csr, l, MIDELEG);
    SampleFrame(h.csr, l, MIE);
    var pending := Pending(Sampled(Read(h.csr, MIP), l), Read(h.csr, MIE));
    SelectIs(h.mode, Read(h.csr, MSTATUS), pending, Read(h.csr, MIDELEG));
    StatusBits(Read(h.csr, MSTATUS));
    ChainsAre(h, l);
    FirstOfOrder(h, l);
  }

  // ----- The lines of the timers -----

  lemma SoftwareBit(msip: bv64)
    ensures SoftwareDue(msip) <==> Lowest(msip) != 0
  {
  }

  lemma Comparators(x: bv64, y: bv64)
    ensures TimerDue(x, y) <==> AtMost(y, x)
    ensures STimerDue(x, y) <==> y != 0xFFFF_FFFF_FFFF_FFFF && AtMost(y, x)
  {
    CM.NotBelowIs(x, y);
  }

  /** The machine timer's line is high from its comparator on, the supervisor timer's likewise unless its comparator is
      2^64 - 1, and the software line shows bit 0 of its register. */
  lemma TimerLines(c: Clint, external: bool, sExternal: bool)
    ensures var l := LinesOf(c, external, sExternal);
      && (l.mtip <==> Unsigned(c.mtime) >= Unsigned(c.mtimecmp))
      && (l.stip <==> Unsigned(c.stimecmp) != TWO_64 - 1 && Unsigned(c.mtime) >= Unsigned(c.stimecmp))
      && (l.msip <==> Unsigned(c.msip) % 2 == 1) && l.meip == external && l.seip == sExternal
  {
    hide Unsigned, TimerDue, STimerDue, SoftwareDue, AtMost, Lowest;
    Comparators(c.mtime, c.mtimecmp);
    Comparators(c.mtime, c.stimecmp);
    OrderNumber(c.mtimecmp, c.mtime);
    OrderNumber(c.stimecmp, c.mtime);
    SoftwareBit(c.msip);
    HalfNumber(c.msip);
    Identities(c.msip, 0);
    Bits0And1();
    if Unsigned(c.stimecmp) == TWO_64 - 1 {
      SameNumber(c.stimecmp, 0xFFFF_FFFF_FFFF_FFFF);
    }
  }
}
