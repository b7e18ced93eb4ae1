/** From the serial port's registers to the interrupt the processor takes. */
module SerialInterrupt {
  import opened Words
  import opened CsrFile
  import opened HartState
  import opened Traps
  import opened Processor
  import opened SerialLine
  import IL = InterruptLaws
  import WN = WordNumbers
  import P = PlicDevice
  import PLaws = PlicLaws
  import U = UartDevice
  import PT = PageTable

  // ----- The windows of the two devices on the bus -----

  const UART_BASE := 0x1000_0000
  const UART_SIZE := 0x100
  const PLIC_BASE := 0x0c00_0000
  const PLIC_SIZE := 0x60_0000

  predicate InUart(addr: int) { UART_BASE <= addr < UART_BASE + UART_SIZE }

  predicate InPlic(addr: int) { PLIC_BASE <= addr < PLIC_BASE + PLIC_SIZE }

  /** What an access of `width` bytes amounts to: the port has byte registers behind every width, the controller
      answers words only. */
  function ReadEvents(addr: int, width: nat): seq<Event> {
    if InUart(addr) then [UartRead(addr - UART_BASE)]
    else if InPlic(addr) && width == 4 then [PlicRead(addr - PLIC_BASE)]
    else []
  }

  function WriteEvents(addr: int, width: nat, value: bv64): seq<Event> {
    if InUart(addr) then [UartWrite(addr - UART_BASE, LowByte(value))]
    else if InPlic(addr) && width == 4 then [PlicWrite(addr - PLIC_BASE, LowWord(value))]
    else []
  }

  function LowByte(v: bv64): bv8 { (v & 0xFF) as bv8 }

  function LowWord(v: bv64): bv32 { (v & 0xFFFF_FFFF) as bv32 }

  function FromByte(b: bv8): bv64 { b as bv64 }

  function FromWord(w: bv32): bv64 { w as bv64 }

  function ReadAnswer(p: Pair, addr: int, width: nat): bv64 {
    if InUart(addr) then FromByte(U.ReadValue(p.uart, addr - UART_BASE))
    else if InPlic(addr) && width == 4 then FromWord(P.ReadValue(p.plic, addr - PLIC_BASE))
    else 0
  }

  lemma OneEvent(p: Pair, e: Event)
    ensures AfterAll(p, [e]) == After(p, e) && AfterAll(p, []) == p
  {
    hide After;
    assert [e][..0] == [];
    assert AfterAll(p, [e][..0]) == p;
  }

  /** The two devices as the bus holds them. */
  class Devices {
    const uart: U.Uart
    const plic: P.Plic

    ghost predicate Valid() { plic.Valid() }

    ghost function Footprint(): set<object> { {uart} + plic.Footprint() }

    ghost function Value(): Pair
      requires Valid()
      reads Footprint()
    {
      Pair(uart.Value(), plic.Value())
    }

    constructor (uart: U.Uart, plic: P.Plic)
      requires plic.Valid()
      ensures Valid() && this.uart == uart && this.plic == plic
    {
      this.uart := uart;
      this.plic := plic;
    }

    /** Reads of 1, 4 and 8 bytes. */
    method ReadDevice(addr: int, width: nat) returns (value: bv64)
      requires Valid() && (InUart(addr) || InPlic(addr)) && (width == 1 || width == 4 || width == 8)
      modifies Footprint()
      ensures value == ReadAnswer(old(Value()), addr, width)
      ensures Value() == AfterAll(old(Value()), ReadEvents(addr, width))
    {
      hide After, AfterAll, U.ReadValue, P.ReadValue, FromByte, FromWord;
      ghost var was := Value();
      if InUart(addr) {
        OneEvent(was, UartRead(addr - UART_BASE));
        var byte := ReadUart(uart, plic, addr - UART_BASE);
        value := FromByte(byte);
      } else if width == 4 {
        OneEvent(was, PlicRead(addr - PLIC_BASE));
        PlicReadIs(was, addr - PLIC_BASE);
        var word := plic.Read32(addr - PLIC_BASE);
        value := FromWord(word);
      } else {
        OneEvent(was, Check);
        value := 0;
      }
    }

    method WriteDevice(addr: int, width: nat, value: bv64)
      requires Valid() && (InUart(addr) || InPlic(addr)) && (width == 1 || width == 4 || width == 8)
      modifies Footprint()
      ensures Value() == AfterAll(old(Value()), WriteEvents(addr, width, value))
    {
      hide After, AfterAll, LowByte, LowWord;
      ghost var was := Value();
      if InUart(addr) {
        OneEvent(was, UartWrite(addr - UART_BASE, LowByte(value)));
        WriteUart(uart, plic, addr - UART_BASE, LowByte(value));
      } else if width == 4 {
        OneEvent(was, PlicWrite(addr - PLIC_BASE, LowWord(value)));
        WritePlic(uart, plic, addr - PLIC_BASE, LowWord(value));
      } else {
        OneEvent(was, Check);
      }
    }

    /** The input thread: a byte into the queue, then the pending bit. */
    method Deliver(b: bv8)
      requires Valid()
      modifies Footprint()
      ensures Value() == AfterAll(old(Value()), [Queue(b), Event.Raise])
    {
      ghost var was := Value();
      assert [Queue(b), Event.Raise][..1] == [Queue(b)];
      OneEvent(was, Queue(b));
      hide P.SetPending, AfterAll;
      uart.Arrive(b);
      plic.SetPendingBit(UART_IRQ);
      TwoEvents(was, Queue(b), Event.Raise);
    }

    /** The head of the main loop: the line is driven, both contexts of the controller are asked, and the interrupt is
        chosen. */
    method CheckInterrupts(cpu: Cpu) returns (chosen: Option<Interrupt>)
      requires Valid() && cpu.Valid() && cpu.Footprint() !! Footprint()
      modifies cpu.csr, plic.pending
      ensures Value() == Synced(old(Value()))
      ensures (cpu.State(), chosen)
              == Traps.CheckInterrupt(old(cpu.State()), LinesFrom(old(cpu.State()), Synced(old(Value())).plic))
    {
      hide P.HasPending, Synced, Traps.CheckInterrupt;
      UpdateUartIrq(uart, plic);
      assert cpu.State() == old(cpu.State());
      assert cpu.bus.Timers() == old(cpu.State()).clint;
      var external := plic.HasPendingInterrupt(0);
      var sExternal := plic.HasPendingInterrupt(1);
      chosen := cpu.CheckInterrupt(external, sExternal);
    }
  }

  lemma PlicReadIs(p: Pair, o: nat)
    ensures After(p, PlicRead(o)) == p.(plic := P.AfterRead(p.plic, o))
  {
  }

  lemma TwoEvents(p: Pair, d: Event, e: Event)
    ensures AfterAll(p, [d, e]) == After(After(p, d), e)
  {
    hide After;
    assert [d, e][..1] == [d];
    OneEvent(p, d);
  }

  /** The lines as the timers and the controller drive them. */
  function LinesFrom(h: Hart, plic: P.State): Lines {
    LinesOf(h.clint, P.HasPending(plic, 0), P.HasPending(plic, 1))
  }

  // ----- End to end -----

  /** The driver has given the port's number a priority above the supervisor threshold and enabled it there. */
  predicate Routed(p: P.State) {
    P.BitOf(P.EnableOf(p, 1), UART_IRQ) && p.priority[UART_IRQ] > P.ThresholdOf(p, 1)
  }

  /** Some other source has the supervisor context's attention. */
  ghost predicate OthersWant(p: P.State) {
    exists irq :: 0 < irq < P.MAX_IRQS && irq != UART_IRQ && P.Eligible(p, 1, irq)
  }

  lemma SyncedPending(p: Pair, irq: nat)
    requires 0 < irq < P.MAX_IRQS
    ensures P.BitOf(Synced(p).plic.pending, irq) <==>
            if irq == UART_IRQ then U.HasPending(p.uart) else P.BitOf(p.plic.pending, irq)
  {
    hide P.BitOf, U.HasPending;
    PLaws.ChangeOne(p.plic, UART_IRQ, irq);
  }

  lemma SyncedKeepsRouting(p: Pair)
    ensures var q := Synced(p).plic;
      && q.priority == p.plic.priority
      && P.EnableOf(q, 1) == P.EnableOf(p.plic, 1)
      && P.ThresholdOf(q, 1) == P.ThresholdOf(p.plic, 1)
  {
    hide U.HasPending;
  }

  /** After the sync the supervisor context is asserted by the port, exactly when it has something and is routed, or by
      another source. */
  lemma SupervisorAsserted(p: Pair)
    ensures P.HasPending(Synced(p).plic, 1) <==> (Routed(p.plic) && U.HasPending(p.uart)) || OthersWant(p.plic)
  {
    hide P.BitOf, Synced, U.HasPending;
    SyncedKeepsRouting(p);
    forall irq | 0 < irq < P.MAX_IRQS
      ensures P.Eligible(Synced(p).plic, 1, irq)
              <==> if irq == UART_IRQ then Routed(p.plic) && U.HasPending(p.uart) else P.Eligible(p.plic, 1, irq)
    {
      SyncedPending(p, irq);
    }
    hide P.Eligible, Routed;
    if OthersWant(p.plic) {
      var irq :| 0 < irq < P.MAX_IRQS && irq != UART_IRQ && P.Eligible(p.plic, 1, irq);
      assert P.Eligible(Synced(p).plic, 1, irq);
    } else if Routed(p.plic) && U.HasPending(p.uart) {
      assert P.Eligible(Synced(p).plic, 1, UART_IRQ);
    }
  }

  /** The supervisor takes its external interrupts. */
  predicate Listening(h: Hart) {
    && h.mode == PT.Supervisor
    && IL.Sie(Read(h.csr, MSTATUS))
    && Has(Read(h.csr, MIE), SupervisorExternal) && Has(Read(h.csr, MIDELEG), SupervisorExternal)
  }

  lemma PendingBit(mip: bv64, l: Lines, mie: bv64)
    ensures Has(Pending(Sampled(mip, l), mie), SupervisorExternal) <==> l.seip && Has(mie, SupervisorExternal)
  {
    hide Sampled;
    IL.SampledBits(mip, l);
    MaskedBit(Sampled(mip, l), mie, l.seip);
  }

  lemma MaskedBit(m: bv64, mie: bv64, on: bool)
    requires CsrFile.Bits(m, 0x200) == Level(on, 0x200)
    ensures Has(Pending(m, mie), SupervisorExternal) <==> on && Has(mie, SupervisorExternal)
  {
  }

  /** In S mode with SIE set, the check chooses the supervisor external interrupt exactly when it is enabled and
      delegated and its line is high. */
  lemma ExternalChosenIff(h: Hart, l: Lines)
    requires h.mode == PT.Supervisor && IL.Sie(Read(h.csr, MSTATUS))
    ensures Traps.CheckInterrupt(h, l).1 == Some(SupervisorExternal) <==> Listening(h) && l.seip
  {
    hide Read, Sampled, Sample, Pending, Has, Select, IL.Sie;
    IL.SampleFrame(h.csr, l, MIE);
    IL.SampleFrame(h.csr, l, MIDELEG);
    PendingBit(Read(h.csr, MIP), l, Read(h.csr, MIE));
    IL.SelectIs(h.mode, Read(h.csr, MSTATUS), Pending(Sampled(Read(h.csr, MIP), l), Read(h.csr, MIE)),
        Read(h.csr, MIDELEG));
  }

  /** From the port to the processor: a listening supervisor is interrupted by the check exactly when the port has an
      interrupt and is routed, or another source has; it then starts in S mode at the base of STVEC, and nine slots of
      four bytes further when bit 0 of STVEC is set. */
  lemma SerialReachesSupervisor(h: Hart, p: Pair, v: bv64)
    requires Listening(h)
    ensures var (k, chosen) := Traps.CheckInterrupt(h, LinesFrom(h, Synced(p).plic));
      && (chosen == Some(SupervisorExternal) <==> (Routed(p.plic) && U.HasPending(p.uart)) || OthersWant(p.plic))
      && (chosen == Some(SupervisorExternal) ==>
            var e := HandleTrap(k, Intr(SupervisorExternal), v);
            var stvec := WN.Unsigned(Read(h.csr, 0x105));
            && e.mode == PT.Supervisor
            && WN.Unsigned(e.pc) == (stvec / 4 * 4 + if stvec % 2 == 1 then 36 else 0) % TWO_64)
  {
    hide Routed, U.HasPending, OthersWant, Synced, P.HasPending, Traps.CheckInterrupt, HandleTrap, Read, IL.Sie, Has,
         WN.Unsigned, IL.NumberDelegated;
    SupervisorAsserted(p);
    ExternalChosenIff(h, LinesFrom(h, Synced(p).plic));
    IL.SelectionAgreesWithDelivery(h, LinesFrom(h, Synced(p).plic), v);
  }
}
