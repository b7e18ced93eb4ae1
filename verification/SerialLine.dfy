/** The serial port's interrupt line and bit 10 of the interrupt controller. */
module SerialLine {
  import opened Words
  import U = UartDevice
  import opened PlicDevice
  import opened PlicLaws

  const UART_IRQ := 10

  /** The two devices as the bus holds them. */
  datatype Pair = Pair(uart: U.State, plic: State)

  /** `update_uart_irq`: the level of the line becomes the pending bit. */
  function Synced(p: Pair): Pair {
    if U.HasPending(p.uart)
    then p.(plic := SetPending(p.plic, UART_IRQ))
    else p.(plic := ClearPending(p.plic, UART_IRQ))
  }

  /** What can happen to either device. The input thread queues a byte and raises the bit in two steps. */
  datatype Event =
    | UartRead(offset: nat)
    | UartWrite(offset: nat, value: bv8)
    | PlicRead(offset: nat)
    | PlicWrite(offset: nat, word: bv32)
    | Queue(value: bv8)
    | Raise
    | OtherSet(irq: nat)
    | OtherClear(irq: nat)
    | Check

  function After(p: Pair, e: Event): Pair {
    match e
    case UartRead(o) => Synced(p.(uart := U.AfterRead(p.uart, o)))
    case UartWrite(o, v) => Synced(p.(uart := U.AfterWrite(p.uart, o, v)))
    case PlicRead(o) => p.(plic := AfterRead(p.plic, o))
    case PlicWrite(o, v) => Synced(p.(plic := WriteReg(p.plic, o, v)))
    case Queue(b) => p.(uart := p.uart.(input := p.uart.input + [b]))
    case Raise => p.(plic := SetPending(p.plic, UART_IRQ))
    case OtherSet(irq) => p.(plic := SetPending(p.plic, irq))
    case OtherClear(irq) => p.(plic := ClearPending(p.plic, irq))
    case Check => Synced(p)
  }

  function AfterAll(p: Pair, es: seq<Event>): Pair
    decreases |es|
  {
    if es == [] then p else After(AfterAll(p, es[..|es| - 1]), es[|es| - 1])
  }

  /** The pending bit tells the level of the line. */
  predicate InStep(p: Pair) {
    BitOf(p.plic.pending, UART_IRQ) <==> U.HasPending(p.uart)
  }

  lemma SyncedInStep(p: Pair)
    ensures InStep(Synced(p)) && Synced(p).uart == p.uart
  {
    hide U.HasPending, BitOf;
    ChangeOne(p.plic, UART_IRQ, UART_IRQ);
  }

  lemma OtherLine(p: State, irq: nat)
    requires irq != UART_IRQ
    ensures BitOf(SetPending(p, irq).pending, UART_IRQ) == BitOf(p.pending, UART_IRQ)
    ensures BitOf(ClearPending(p, irq).pending, UART_IRQ) == BitOf(p.pending, UART_IRQ)
  {
    hide BitOf;
    if 0 < irq < MAX_IRQS {
      ChangeOne(p, irq, UART_IRQ);
    }
  }

  lemma SetAgain(p: State)
    ensures BitOf(SetPending(p, UART_IRQ).pending, UART_IRQ)
  {
    hide BitOf;
    ChangeOne(p, UART_IRQ, UART_IRQ);
  }

  lemma ClaimOther(p: State, context: nat)
    requires Claimed(p, context) != UART_IRQ
    ensures BitOf(AfterClaim(p, context).pending, UART_IRQ) == BitOf(p.pending, UART_IRQ)
  {
    hide BitOf;
    ClaimClearsOne(p, context, UART_IRQ);
  }

  // ----- Whole runs -----

  /** The events after which the bus drives the bit from the line. */
  predicate Syncs(e: Event) {
    e.UartRead? || e.UartWrite? || e.PlicWrite? || e.Check?
  }

  /** The events that part the bit from the line, or undo that: a claim of number 10, a byte that raises the line,
      and a change of the bit from elsewhere. */
  predicate Flips(p: Pair, e: Event) {
    match e
    case PlicRead(o) => (o == 0x20_0004 && Claimed(p.plic, 0) == UART_IRQ) ||
        (o == 0x20_1004 && Claimed(p.plic, 1) == UART_IRQ)
    case Queue(_) => U.Receiving(p.uart.ier) && p.uart.input == [] && !(U.Transmitting(p.uart.ier) && p.uart.thrPending)
    case Raise => !BitOf(p.plic.pending, UART_IRQ)
    case OtherSet(irq) => irq == UART_IRQ && !BitOf(p.plic.pending, UART_IRQ)
    case OtherClear(irq) => irq == UART_IRQ && BitOf(p.plic.pending, UART_IRQ)
    case _ => false
  }

  /** How often the bit and the line have parted or met since they were last driven together. */
  function Partings(p: Pair, es: seq<Event>): nat
    decreases |es|
  {
    if es == [] then (if InStep(p) then 0 else 1)
    else
      var before, e := es[..|es| - 1], es[|es| - 1];
      if Syncs(e) then 0 else Partings(p, before) + if Flips(AfterAll(p, before), e) then 1 else 0
  }

  lemma ClaimedBit(p: State, context: nat)
    requires Claimed(p, context) == UART_IRQ
    ensures BitOf(p.pending, UART_IRQ) && !BitOf(AfterClaim(p, context).pending, UART_IRQ)
  {
    hide BitOf, BestBelow, HasPending;
    ClaimIsBest(p, context);
    ChangeOne(p, UART_IRQ, UART_IRQ);
  }

  lemma ReadStep(p: Pair, o: nat)
    ensures InStep(After(p, PlicRead(o))) <==> (InStep(p) != Flips(p, PlicRead(o)))
  {
    hide BitOf, BestBelow, Claimed, AfterClaim, U.HasPending;
    if o == 0x20_0004 || o == 0x20_1004 {
      var k := if o == 0x20_0004 then 0 else 1;
      if Claimed(p.plic, k) == UART_IRQ {
        ClaimedBit(p.plic, k);
      } else {
        ClaimOther(p.plic, k);
      }
    }
  }

  lemma ClearedBit(p: State)
    ensures !BitOf(ClearPending(p, UART_IRQ).pending, UART_IRQ)
  {
    hide BitOf;
    ChangeOne(p, UART_IRQ, UART_IRQ);
  }

  /** One event: driving the bit brings it in step, and any other keeps or turns what was. */
  lemma StepTurns(p: Pair, e: Event)
    ensures InStep(After(p, e)) <==> Syncs(e) || (InStep(p) != Flips(p, e))
  {
    hide BitOf, Claimed, SetPending, ClearPending, AfterClaim, WriteReg, U.AfterRead, U.AfterWrite;
    match e {
      case UartRead(o) => SyncedInStep(p.(uart := U.AfterRead(p.uart, o)));
      case UartWrite(o, v) => SyncedInStep(p.(uart := U.AfterWrite(p.uart, o, v)));
      case PlicWrite(o, v) => SyncedInStep(p.(plic := WriteReg(p.plic, o, v)));
      case Check => SyncedInStep(p);
      case OtherSet(irq) =>
        SetAgain(p.plic);
        if irq != UART_IRQ {
          OtherLine(p.plic, irq);
        }
      case OtherClear(irq) =>
        ClearedBit(p.plic);
        if irq != UART_IRQ {
          OtherLine(p.plic, irq);
        }
      case Raise => SetAgain(p.plic);
      case Queue(_) =>
      case PlicRead(o) => ReadStep(p, o);
    }
  }

  /** Neither lost nor spurious, over any run: the bit tells the level of the line exactly when the two have parted and
      met evenly since the bus last drove the one from the other. */
  lemma {:induction false} InStepIff(p: Pair, es: seq<Event>)
    ensures InStep(AfterAll(p, es)) <==> Partings(p, es) % 2 == 0
    decreases |es|
  {
    hide InStep, Flips, After;
    if es != [] {
      InStepIff(p, es[..|es| - 1]);
      StepTurns(AfterAll(p, es[..|es| - 1]), es[|es| - 1]);
    }
  }

  /** In particular at the interrupt check, whatever happened before, and from then on until the first such event. */
  lemma {:induction false} NeverLostSince(p: Pair, es: seq<Event>, k: nat)
    requires k < |es| && Syncs(es[k])
    requires forall j :: k < j < |es| ==> !Flips(AfterAll(p, es[..j]), es[j])
    ensures Partings(p, es) == 0 && InStep(AfterAll(p, es))
    decreases |es|
  {
    hide InStep, Flips, After;
    InStepIff(p, es);
    if k < |es| - 1 {
      var before := es[..|es| - 1];
      forall j | k < j < |before|
        ensures !Flips(AfterAll(p, before[..j]), before[j])
      {
        assert before[..j] == es[..j];
      }
      NeverLostSince(p, before, k);
    }
  }

  // ----- The interrupt status register -----

  /** Reading the status register shows an interrupt exactly when the line was high; reading the
      transmit-empty cause takes the line down, and a receive cause leaves it up. */
  lemma StatusTellsLine(s: U.State)
    ensures var v := U.ReadValue(s, U.ISR);
      var k := U.AfterRead(s, U.ISR);
      && (v != 0x01 <==> U.HasPending(s))
      && (v == 0x02 ==> !U.HasPending(k))
      && (v == 0x04 ==> U.HasPending(k) && k == s)
  {
    hide U.Receiving, U.Transmitting;
  }

  /** The transmit-empty cause, once taken, comes back only by a transmission or by enabling it anew. */
  lemma TransmitCauseReturns(s: U.State, offset: nat, value: bv8)
    requires !s.thrPending
    ensures U.AfterWrite(s, offset, value).thrPending
            <==> offset == U.THR || (offset == U.IER && !U.Transmitting(s.ier) && U.Transmitting(value))
    ensures !U.AfterRead(s, offset).thrPending
  {
    hide U.Receiving, U.Transmitting, U.MentionsPanic, U.Window;
  }

  // ----- The bus routines on the device objects -----

  /** Drives the pending bit from the level of the line. */
  method UpdateUartIrq(uart: U.Uart, plic: Plic)
    requires plic.Valid()
    modifies plic.pending
    ensures Pair(uart.Value(), plic.Value()) == Synced(old(Pair(uart.Value(), plic.Value())))
  {
    hide U.HasPending;
    var pending := uart.HasPendingInterrupt();
    if pending {
      plic.SetPendingBit(UART_IRQ);
    } else {
      plic.ClearPendingBit(UART_IRQ);
    }
  }

  method ReadUart(uart: U.Uart, plic: Plic, offset: nat) returns (value: bv8)
    requires plic.Valid()
    modifies uart, plic.pending
    ensures value == U.ReadValue(old(uart.Value()), offset)
    ensures Pair(uart.Value(), plic.Value()) == After(old(Pair(uart.Value(), plic.Value())), UartRead(offset))
  {
    hide U.ReadValue, U.AfterRead, Synced;
    value := uart.Read8(offset);
    UpdateUartIrq(uart, plic);
  }

  method WriteUart(uart: U.Uart, plic: Plic, offset: nat, value: bv8)
    requires plic.Valid()
    modifies uart, plic.pending
    ensures Pair(uart.Value(), plic.Value()) == After(old(Pair(uart.Value(), plic.Value())), UartWrite(offset, value))
  {
    hide U.AfterWrite, Synced;
    uart.Write8(offset, value);
    UpdateUartIrq(uart, plic);
  }

  /** A completion, or any other write, lets the line raise the bit again at once. */
  method WritePlic(uart: U.Uart, plic: Plic, offset: nat, word: bv32)
    requires plic.Valid()
    modifies plic.Footprint()
    ensures Pair(uart.Value(), plic.Value()) == After(old(Pair(uart.Value(), plic.Value())), PlicWrite(offset, word))
  {
    hide WriteReg, Synced;
    plic.Write32(offset, word);
    UpdateUartIrq(uart, plic);
  }
}
