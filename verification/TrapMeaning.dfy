/** Trap entry and return in numbers and single bits: where the hart goes, what it records, what it stacks. */
module TrapMeaning {
  import opened Words
  import opened WordNumbers
  import opened WordBits
  import opened CsrFile
  import opened HartState
  import opened Traps
  import opened TrapLaws
  import C = CarryLess
  import AM = ArithmeticMeaning
  import PT = PageTable

  // ----- Cause numbers -----

  /** The numbers of the privileged architecture, the same for the cause registers and the delegation bits. */
  function CauseOf(t: Trap): (n: nat)
    ensures n < 16
  {
    match t
    case Intr(SupervisorSoftware) => 1
    case Intr(MachineSoftware) => 3
    case Intr(SupervisorTimer) => 5
    case Intr(MachineTimer) => 7
    case Intr(SupervisorExternal) => 9
    case Intr(MachineExternal) => 11
    case Exc(InstructionAddressMisaligned) => 0
    case Exc(InstructionAccessFault) => 1
    case Exc(IllegalInstruction) => 2
    case Exc(Breakpoint) => 3
    case Exc(LoadAccessFault) => 5
    case Exc(StoreAMOAccessFault) => 7
    case Exc(EnvironmentCallFromUMode) => 8
    case Exc(EnvironmentCallFromSMode) => 9
    case Exc(EnvironmentCallFromMMode) => 11
    case Exc(InstructionPageFault) => 12
    case Exc(LoadPageFault) => 13
    case Exc(StoreAMOPageFault) => 15
  }

  lemma NumberIs(t: Trap)
    ensures Position(Number(t)) == CauseOf(t)
  {
  }

  lemma SmallNumbers()
    ensures Unsigned(0x8000_0000_0000_0001) == TWO_63 + 1 && Unsigned(0x8000_0000_0000_0003) == TWO_63 + 3
    ensures Unsigned(0x8000_0000_0000_0005) == TWO_63 + 5 && Unsigned(0x8000_0000_0000_0007) == TWO_63 + 7
    ensures Unsigned(0x8000_0000_0000_0009) == TWO_63 + 9 && Unsigned(0x8000_0000_0000_000B) == TWO_63 + 11
  {
  }

  lemma InterruptCode(i: Interrupt)
    ensures Code(Intr(i)) ==
            match i
            case SupervisorSoftware => 0x8000_0000_0000_0001
            case MachineSoftware => 0x8000_0000_0000_0003
            case SupervisorTimer => 0x8000_0000_0000_0005
            case MachineTimer => 0x8000_0000_0000_0007
            case SupervisorExternal => 0x8000_0000_0000_0009
            case MachineExternal => 0x8000_0000_0000_000B
  {
  }

  lemma ExceptionCode(e: PT.Exception)
    ensures Unsigned(Code(Exc(e))) == CauseOf(Exc(e))
  {
  }

  /** The value of a cause register: the number, and bit 63 for an interrupt. */
  lemma CodeNumber(t: Trap)
    ensures Unsigned(Code(t)) == CauseOf(t) + if t.Intr? then TWO_63 else 0
  {
    hide Unsigned, Code;
    match t {
      case Exc(e) => ExceptionCode(e);
      case Intr(i) =>
        InterruptCode(i);
        SmallNumbers();
    }
  }

  lemma BitSetIs(x: bv64, n: bv6)
    ensures BitSet(x, n) <==> Lowest(C.ShiftRight(x, n)) != 0
  {
  }

  lemma BitSetNumber(x: bv64, n: bv6)
    ensures BitSet(x, n) <==> BitAt(x, Position(n))
  {
    hide Unsigned, BitSet, Lowest, C.ShiftRight, Position;
    BitSetIs(x, n);
    ShiftNumbers(x, n);
    HalfNumber(C.ShiftRight(x, n));
    Identities(C.ShiftRight(x, n), 0);
    Bits0And1();
  }

  // ----- The handler's address -----

  function Base(tvec: bv64): bv64 { tvec & !0x3 }

  function Slot(t: Trap): bv64 { 4 * (Code(t) & 0x3F) }

  lemma VectorIs(tvec: bv64, t: Trap)
    ensures Vector(tvec, t) == if t.Intr? && Lowest(tvec) != 0 then Added(Base(tvec), Slot(t)) else Base(tvec)
  {
    assert Slot(t) == 4 * (Code(t) & 0x3F) && Base(tvec) == tvec & !0x3;
    hide Slot, Base, Code;
  }

  lemma BaseParts(x: bv64)
    ensures Added(Base(x), Meet(x, 3)) == x && AtMost(Base(x), x)
  {
  }

  lemma LowParts(x: bv64)
    ensures Added(C.ShiftLeft(C.ShiftRight(x, 2), 2), Meet(x, 3)) == x && Below(Meet(x, 3), 4)
  {
  }

  lemma FourIs()
    ensures Unsigned(4) == 4 && C.Index(2) == 2 && Pow2(2) == 4
  {
  }

  lemma BaseNumber(x: bv64)
    ensures Unsigned(Base(x)) == Unsigned(x) / 4 * 4
  {
    hide Unsigned, Added, Base, Meet, AtMost, Below, C.ShiftLeft, C.ShiftRight, C.Index, Pow2;
    BaseParts(x);
    LowParts(x);
    FourIs();
    OrderNumber(Base(x), x);
    OrderNumber(Meet(x, 3), 4);
    AM.LowPart(x, Meet(x, 3), 2);
    AddNumber(Base(x), Meet(x, 3));
    Reduced(Unsigned(Base(x)) + Unsigned(Meet(x, 3)));
  }

  lemma SlotIs(i: Interrupt)
    ensures Slot(Intr(i)) ==
            match i
            case SupervisorSoftware => 4
            case MachineSoftware => 12
            case SupervisorTimer => 20
            case MachineTimer => 28
            case SupervisorExternal => 36
            case MachineExternal => 44
  {
  }

  lemma SlotSizes()
    ensures Unsigned(4) == 4 && Unsigned(12) == 12 && Unsigned(20) == 20
    ensures Unsigned(28) == 28 && Unsigned(36) == 36 && Unsigned(44) == 44
  {
  }

  lemma SlotNumber(i: Interrupt)
    ensures Unsigned(Slot(Intr(i))) == 4 * CauseOf(Intr(i))
  {
    hide Unsigned, Slot;
    SlotIs(i);
    SlotSizes();
  }

  /** Where a trap goes through a vector register that reads `tvec`. */
  function EntryPoint(tvec: bv64, t: Trap): int {
    var base := Unsigned(tvec) / 4 * 4;
    (base + if t.Intr? && Unsigned(tvec) % 2 == 1 then 4 * CauseOf(t) else 0) % TWO_64
  }

  lemma VectorNumber(tvec: bv64, t: Trap)
    ensures Unsigned(Vector(tvec, t)) == EntryPoint(tvec, t)
  {
    hide Unsigned, Vector, Added, Base, Slot, Lowest;
    VectorIs(tvec, t);
    BaseNumber(tvec);
    HalfNumber(tvec);
    Identities(tvec, 0);
    Bits0And1();
    Reduced(Unsigned(Base(tvec)));
    if t.Intr? {
      SlotNumber(t.interrupt);
      AddNumber(Base(tvec), Slot(t));
    }
  }

  // ----- The status words -----

  /** The number of a privilege mode, in bits 12 and 11. */
  function ModeBits(m: PT.Mode): bv64 {
    match m
    case User => 0
    case Supervisor => 0x800
    case Hypervisor => 0x1000
    case Machine => 0x1800
  }

  /** MSTATUS across an M-level entry: bit 7 takes bit 3, bit 3 is cleared, bits 12 and 11 take the mode. */
  predicate StackedM(was: bv64, now: bv64, m: PT.Mode) {
    && (now & 0x80 != 0 <==> was & 0x8 != 0) && now & 0x8 == 0 && now & 0x1800 == ModeBits(m)
    && now & 0xFFFF_FFFF_FFFF_E777 == was & 0xFFFF_FFFF_FFFF_E777
  }

  /** SSTATUS across an S-level entry: bit 5 takes bit 1, bit 1 is cleared, bit 8 is set from S and M mode. */
  predicate StackedS(was: bv64, now: bv64, m: PT.Mode) {
    && (now & 0x20 != 0 <==> was & 0x2 != 0) && now & 0x2 == 0
    && (now & 0x100 != 0 <==> m == PT.Supervisor || m == PT.Machine)
    && now & 0xFFFF_FFFF_FFFF_FEDD == was & 0xFFFF_FFFF_FFFF_FEDD
  }

  /** MSTATUS across MRET: bit 3 takes bit 7, bit 7 is set, bits 12 and 11 are cleared. */
  predicate UnstackedBitsM(was: bv64, now: bv64) {
    && (now & 0x8 != 0 <==> was & 0x80 != 0) && now & 0x80 != 0 && now & 0x1800 == 0
    && now & 0xFFFF_FFFF_FFFF_E777 == was & 0xFFFF_FFFF_FFFF_E777
  }

  /** SSTATUS across SRET: bit 1 takes bit 5, bit 5 is set, bit 8 is cleared. */
  predicate UnstackedBitsS(was: bv64, now: bv64) {
    && (now & 0x2 != 0 <==> was & 0x20 != 0) && now & 0x20 != 0 && now & 0x100 == 0
    && now & 0xFFFF_FFFF_FFFF_FEDD == was & 0xFFFF_FFFF_FFFF_FEDD
  }

  lemma PushMStack(x: bv64, mode: bv64)
    requires mode < 4
    ensures var now := PushM(x, mode);
      && (now & 0x80 != 0 <==> x & 0x8 != 0) && now & 0x8 == 0 && now & 0x1800 == mode << 11
  {
  }

  lemma PushMRest(x: bv64, mode: bv64)
    requires mode < 4
    ensures PushM(x, mode) & 0xFFFF_FFFF_FFFF_E777 == x & 0xFFFF_FFFF_FFFF_E777
  {
  }

  lemma ModeShifted(m: PT.Mode)
    ensures ModeNumber(m) < 4 && ModeNumber(m) << 11 == ModeBits(m)
  {
  }

  lemma PushMBits(x: bv64, m: PT.Mode)
    ensures StackedM(x, PushM(x, ModeNumber(m)), m)
  {
    hide PushM, ModeNumber, ModeBits;
    ModeShifted(m);
    PushMStack(x, ModeNumber(m));
    PushMRest(x, ModeNumber(m));
  }

  lemma PushSBits(x: bv64, m: PT.Mode)
    ensures StackedS(x, PushS(x, ModeNumber(m)), m)
  {
  }

  lemma PopMStack(x: bv64)
    ensures var now := PopM(x); (now & 0x8 != 0 <==> x & 0x80 != 0) && now & 0x80 != 0 && now & 0x1800 == 0
  {
  }

  lemma PopMRest(x: bv64)
    ensures PopM(x) & 0xFFFF_FFFF_FFFF_E777 == x & 0xFFFF_FFFF_FFFF_E777
  {
  }

  lemma PopSStack(x: bv64)
    ensures var now := PopS(x); (now & 0x2 != 0 <==> x & 0x20 != 0) && now & 0x20 != 0 && now & 0x100 == 0
  {
  }

  lemma PopSRest(x: bv64)
    ensures PopS(x) & 0xFFFF_FFFF_FFFF_FEDD == x & 0xFFFF_FFFF_FFFF_FEDD
  {
  }

  lemma PopBits(x: bv64)
    ensures UnstackedBitsM(x, PopM(x)) && UnstackedBitsS(x, PopS(x))
  {
    hide PopM, PopS;
    PopMStack(x);
    PopMRest(x);
    PopSStack(x);
    PopSRest(x);
  }

  lemma PreviousModes(x: bv64, m: PT.Mode)
    ensures ModeOf(Mpp(x)) == m <==> x & 0x1800 == ModeBits(m)
    ensures Spp(x) == 0 <==> x & 0x100 == 0
  {
  }

  // ----- Entry and return -----

  /** The hart `k` that has taken trap `t` from `h` through the five registers given. */
  predicate Entered(h: Hart, k: Hart, t: Trap, v: bv64, mode: PT.Mode, tvec: CsrAddr, epc: CsrAddr, cause: CsrAddr,
    tval: CsrAddr)
  {
    && k == h.(pc := k.pc, mode := mode, csr := k.csr, reservation := None)
    && Unsigned(k.pc) == EntryPoint(Read(h.csr, tvec), t)
    && Read(k.csr, epc) == h.pc
    && Unsigned(Read(k.csr, cause)) == CauseOf(t) + (if t.Intr? then 0x8000_0000_0000_0000 else 0)
    && Read(k.csr, tval) == v
  }

  /** Whether the trap is taken in M mode: always from M mode, and otherwise unless its bit is set in MEDELEG, or in
      MIDELEG for an interrupt. */
  predicate ToMachine(h: Hart, t: Trap) {
    h.mode == PT.Machine || !BitAt(Read(h.csr, if t.Intr? then 0x303 else 0x302), CauseOf(t))
  }

  lemma DelegatedIs(h: Hart, t: Trap)
    ensures Delegated(h.csr, t) && h.mode != PT.Machine <==> !ToMachine(h, t)
  {
    hide Read, BitSet, BitAt, Number, CauseOf, Position;
    NumberIs(t);
    BitSetNumber(Read(h.csr, if t.Intr? then MIDELEG else MEDELEG), Number(t));
  }

  lemma MachineEntry(h: Hart, t: Trap, v: bv64)
    ensures var k := TakeTrap(ClearReservation(h), t, v);
      && Entered(h, k, t, v, PT.Machine, 0x305, 0x341, 0x342, 0x343)
      && StackedM(Read(h.csr, 0x300), Read(k.csr, 0x300), h.mode)
  {
    hide Read, Write, Record, PushM, Vector, Code, CauseOf, Unsigned, EntryPoint, StackedM, ModeNumber;
    TakeTrapReads(ClearReservation(h), t, v, 0x341);
    VectorNumber(Read(h.csr, MTVEC), t);
    CodeNumber(t);
    PushMBits(Read(h.csr, MSTATUS), h.mode);
  }

  lemma SupervisorEntry(h: Hart, t: Trap, v: bv64)
    ensures var k := TakeSTrap(ClearReservation(h), t, v);
      && Entered(h, k, t, v, PT.Supervisor, 0x105, 0x141, 0x142, 0x143)
      && StackedS(Read(h.csr, 0x100), Read(k.csr, 0x100), h.mode)
  {
    hide Read, Write, Record, PushS, Vector, Code, CauseOf, Unsigned, EntryPoint, StackedS, ModeNumber;
    TakeSTrapReads(ClearReservation(h), t, v, 0x141);
    VectorNumber(Read(h.csr, STVEC), t);
    CodeNumber(t);
    PushSBits(Read(h.csr, SSTATUS), h.mode);
  }

  /** `k` is `h` after the trap: in M mode through MTVEC, or in S mode through STVEC when it is delegated. */
  predicate Trapped(h: Hart, k: Hart, t: Trap, v: bv64) {
    if ToMachine(h, t) then
      && Entered(h, k, t, v, PT.Machine, 0x305, 0x341, 0x342, 0x343)
      && StackedM(Read(h.csr, 0x300), Read(k.csr, 0x300), h.mode)
    else
      && Entered(h, k, t, v, PT.Supervisor, 0x105, 0x141, 0x142, 0x143)
      && StackedS(Read(h.csr, 0x100), Read(k.csr, 0x100), h.mode)
  }

  /** Trap entry. In M mode, or when the delegation bit of its number is clear, a trap enters M mode through MTVEC;
      otherwise it enters S mode through STVEC. The handler starts at the base of that register, with its two lowest
      bits clear, plus four times the number exactly for an interrupt with bit 0 set. The pc, the number with bit 63
      for an interrupt, and the value are recorded, and the status bits are stacked. */
  lemma TrapEntry(h: Hart, t: Trap, v: bv64)
    ensures Trapped(h, HandleTrap(h, t, v), t, v)
  {
    hide Read, TakeTrap, TakeSTrap, Entered, StackedM, StackedS, ToMachine, Delegated;
    DelegatedIs(h, t);
    MachineEntry(h, t, v);
    SupervisorEntry(h, t, v);
  }

  /** MRET goes to MEPC in the mode of bits 12 and 11 of MSTATUS. */
  lemma MachineReturn(h: Hart, m: PT.Mode)
    requires Read(h.csr, 0x300) & 0x1800 == ModeBits(m)
    ensures var k := Mret(h);
      && k == h.(pc := Read(h.csr, 0x341), mode := m, csr := k.csr, reservation := None)
      && UnstackedBitsM(Read(h.csr, 0x300), Read(k.csr, 0x300))
  {
    hide Read, Write, PopM, Mpp, ModeOf, UnstackedBitsM, UnstackedBitsS, ModeBits;
    MretReads(h, 0x341);
    PopBits(Read(h.csr, MSTATUS));
    PreviousModes(Read(h.csr, MSTATUS), m);
  }

  /** SRET goes to SEPC, in S mode exactly when bit 8 of SSTATUS is set and otherwise in U mode. */
  lemma SupervisorReturn(h: Hart)
    ensures var k := Sret(h);
      && k == h.(pc := Read(h.csr, 0x141), csr := k.csr, reservation := None,
          mode := if Read(h.csr, 0x100) & 0x100 != 0 then PT.Supervisor else PT.User)
      && UnstackedBitsS(Read(h.csr, 0x100), Read(k.csr, 0x100))
  {
    hide Read, Write, PopS, Spp, UnstackedBitsM, UnstackedBitsS;
    SretReads(h, 0x141);
    PopBits(Read(h.csr, SSTATUS));
    PreviousModes(Read(h.csr, SSTATUS), PT.User);
  }
}
