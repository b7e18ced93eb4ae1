/** Trap entry, trap return and interrupt selection. */
module Traps {
  import opened Words
  import opened BusRouting
  import opened CsrFile
  import opened HartState
  import PT = PageTable

  // ----- Trap codes -----

  const INTERRUPT_FLAG: bv64 := 0x8000_0000_0000_0000

  function ExceptionNumber(e: PT.Exception): bv6 {
    match e
    case InstructionAddressMisaligned => 0
    case InstructionAccessFault => 1
    case IllegalInstruction => 2
    case Breakpoint => 3
    case LoadAccessFault => 5
    case StoreAMOAccessFault => 7
    case EnvironmentCallFromUMode => 8
    case EnvironmentCallFromSMode => 9
    case EnvironmentCallFromMMode => 11
    case InstructionPageFault => 12
    case LoadPageFault => 13
    case StoreAMOPageFault => 15
  }

  function InterruptNumber(i: Interrupt): bv6 {
    match i
    case SupervisorSoftware => 1
    case MachineSoftware => 3
    case SupervisorTimer => 5
    case MachineTimer => 7
    case SupervisorExternal => 9
    case MachineExternal => 11
  }

  function Number(t: Trap): bv6 {
    match t
    case Exc(e) => ExceptionNumber(e)
    case Intr(i) => InterruptNumber(i)
  }

  function Code(t: Trap): bv64 {
    match t
    case Exc(e) => ExceptionNumber(e) as bv64
    case Intr(i) => INTERRUPT_FLAG | (InterruptNumber(i) as bv64)
  }

  predicate BitSet(x: bv64, n: bv6) {
    (x >> n) & 1 != 0
  }

  // ----- Status words -----

  function ModeNumber(m: PT.Mode): bv64 {
    match m
    case User => 0
    case Supervisor => 1
    case Hypervisor => 2
    case Machine => 3
  }

  function ModeOf(n: bv64): PT.Mode {
    if n == 0 then PT.User else if n == 1 then PT.Supervisor else if n == 2 then PT.Hypervisor else PT.Machine
  }

  /** MPIE takes MIE, MIE is cleared, MPP takes the mode. */
  function PushM(mstatus: bv64, mode: bv64): bv64 {
    var mie := (mstatus >> 3) & 1;
    var s1 := (mstatus & !0x80) | (mie << 7);
    var s2 := s1 & !0x8;
    (s2 & !0x1800) | (mode << 11)
  }

  /** MIE takes MPIE, MPIE is set, MPP is cleared. */
  function PopM(mstatus: bv64): bv64 {
    var mpie := (mstatus >> 7) & 1;
    (((mstatus & !0x8) | (mpie << 3)) | 0x80) & !0x1800
  }

  function Mpp(mstatus: bv64): bv64 {
    (mstatus >> 11) & 3
  }

  /** SPIE takes SIE, SIE is cleared, SPP takes the low bit of the mode. */
  function PushS(sstatus: bv64, mode: bv64): bv64 {
    var sie := (sstatus >> 1) & 1;
    var s1 := (sstatus & !0x20) | (sie << 5);
    var s2 := s1 & !0x2;
    (s2 & !0x100) | ((mode & 1) << 8)
  }

  function PopS(sstatus: bv64): bv64 {
    var spie := (sstatus >> 5) & 1;
    (((sstatus & !0x2) | (spie << 1)) | 0x20) & !0x100
  }

  function Spp(sstatus: bv64): bv64 {
    (sstatus >> 8) & 1
  }

  // ----- Entry and return -----

  /** The handler's address: the base, or a slot of a vector table for an interrupt in vectored mode. */
  function Vector(tvec: bv64, t: Trap): bv64 {
    var base := tvec & !0x3;
    if t.Intr? && tvec & 1 != 0 then base + 4 * (Code(t) & 0x3F) else base
  }

  /** The three registers that record a trap. */
  function Record(r: Regs, epc: CsrAddr, cause: CsrAddr, tval: CsrAddr, pc: bv64, t: Trap, value: bv64): Regs {
    Write(Write(Write(r, epc, pc), cause, Code(t)), tval, value)
  }

  function TakeTrap(h: Hart, t: Trap, tval: bv64): Hart {
    var r := Record(h.csr, MEPC, MCAUSE, MTVAL, h.pc, t, tval);
    h.(csr := Write(r, MSTATUS, PushM(Read(r, MSTATUS), ModeNumber(h.mode))),
       mode := PT.Machine,
       pc := Vector(Read(h.csr, MTVEC), t))
  }

  function TakeSTrap(h: Hart, t: Trap, tval: bv64): Hart {
    var r := Record(h.csr, SEPC, SCAUSE, STVAL, h.pc, t, tval);
    h.(csr := Write(r, SSTATUS, PushS(Read(r, SSTATUS), ModeNumber(h.mode))),
       mode := PT.Supervisor,
       pc := Vector(Read(h.csr, STVEC), t))
  }

  /** The delegation bit of a trap. */
  predicate Delegated(r: Regs, t: Trap) {
    BitSet(Read(r, if t.Intr? then MIDELEG else MEDELEG), Number(t))
  }

  function HandleTrap(h: Hart, t: Trap, tval: bv64): Hart {
    var c := ClearReservation(h);
    if Delegated(h.csr, t) && h.mode != PT.Machine then TakeSTrap(c, t, tval) else TakeTrap(c, t, tval)
  }

  function Mret(h: Hart): Hart {
    var was := Read(h.csr, MSTATUS);
    var r := Write(h.csr, MSTATUS, PopM(was));
    ClearReservation(h.(csr := r, mode := ModeOf(Mpp(was)), pc := Read(r, MEPC)))
  }

  function Sret(h: Hart): Hart {
    var was := Read(h.csr, SSTATUS);
    var r := Write(h.csr, SSTATUS, PopS(was));
    ClearReservation(h.(csr := r, mode := if Spp(was) == 0 then PT.User else PT.Supervisor, pc := Read(r, SEPC)))
  }

  // ----- Interrupts -----

  /** The five interrupt lines that the devices drive. */
  datatype Lines = Lines(meip: bool, mtip: bool, msip: bool, seip: bool, stip: bool)

  function Level(on: bool, mask: bv64): bv64 {
    if on then mask else 0
  }

  /** One line bit set or cleared. */
  function Drive(mip: bv64, mask: bv64, on: bool): bv64 {
    if on then mip | mask else mip & !mask
  }

  /** MIP with the five line bits as the devices drive them. */
  function Sampled(mip: bv64, l: Lines): bv64 {
    var m1 := Drive(mip, 0x800, l.meip);
    var m2 := Drive(m1, 0x80, l.mtip);
    var m3 := Drive(m2, 0x8, l.msip);
    var m4 := Drive(m3, 0x200, l.seip);
    Drive(m4, 0x20, l.stip)
  }

  /** The lines: the timers decide theirs, the interrupt controller the external ones. */
  function LinesOf(c: Clint, external: bool, sExternal: bool): Lines {
    Lines(external, TimerDue(c.mtime, c.mtimecmp), SoftwareDue(c.msip), sExternal, STimerDue(c.mtime, c.stimecmp))
  }

  function Mask(i: Interrupt): bv64 {
    match i
    case SupervisorSoftware => 0x2
    case MachineSoftware => 0x8
    case SupervisorTimer => 0x20
    case MachineTimer => 0x80
    case SupervisorExternal => 0x200
    case MachineExternal => 0x800
  }

  predicate IsMachineLevel(i: Interrupt) {
    i.MachineExternal? || i.MachineSoftware? || i.MachineTimer?
  }

  predicate Has(x: bv64, i: Interrupt) {
    x & Mask(i) != 0
  }

  /** The first of the machine-level interrupts: external, software, timer. */
  function FirstMachine(pending: bv64): Option<Interrupt> {
    if Has(pending, MachineExternal) then Some(MachineExternal)
    else if Has(pending, MachineSoftware) then Some(MachineSoftware)
    else if Has(pending, MachineTimer) then Some(MachineTimer)
    else None
  }

  /** The first of the delegated supervisor-level interrupts: external, software, timer. */
  function FirstSupervisor(pending: bv64, mideleg: bv64): Option<Interrupt> {
    if Has(pending, SupervisorExternal) && Has(mideleg, SupervisorExternal) then Some(SupervisorExternal)
    else if Has(pending, SupervisorSoftware) && Has(mideleg, SupervisorSoftware) then Some(SupervisorSoftware)
    else if Has(pending, SupervisorTimer) && Has(mideleg, SupervisorTimer) then Some(SupervisorTimer)
    else None
  }

  lemma NothingPending(mideleg: bv64)
    ensures FirstMachine(0) == None && FirstSupervisor(0, mideleg) == None
  {
  }

  function OrElse(a: Option<Interrupt>, b: Option<Interrupt>): Option<Interrupt> {
    if a.Some? then a else b
  }

  /** The interrupt to take, if any. */
  function Select(mode: PT.Mode, mstatus: bv64, pending: bv64, mideleg: bv64): Option<Interrupt> {
    var mie := mstatus & 0x8 != 0;
    var sie := mstatus & 0x2 != 0;
    var first := if mode == PT.Machine && mie then FirstMachine(pending) else None;
    var second := if mode == PT.Supervisor && sie then FirstSupervisor(pending, mideleg) else None;
    var third := if mode != PT.Machine then FirstMachine(pending) else None;
    var fourth := if mode == PT.User then FirstSupervisor(pending, mideleg) else None;
    OrElse(first, OrElse(second, OrElse(third, fourth)))
  }

  lemma NothingSelected(mode: PT.Mode, mstatus: bv64, mideleg: bv64)
    ensures Select(mode, mstatus, 0, mideleg) == None
  {
    hide FirstMachine, FirstSupervisor;
    NothingPending(mideleg);
  }

  /** The register file once the lines have been sampled into MIP. */
  function Sample(r: Regs, l: Lines): Regs {
    Write(r, MIP, Sampled(Read(r, MIP), l))
  }

  function Pending(mip: bv64, mie: bv64): bv64 {
    mip & mie
  }

  function CheckInterrupt(h: Hart, l: Lines): (Hart, Option<Interrupt>) {
    var r := Sample(h.csr, l);
    var pending := Pending(Sampled(Read(h.csr, MIP), l), Read(r, MIE));
    (h.(csr := r), Select(h.mode, Read(h.csr, MSTATUS), pending, Read(r, MIDELEG)))
  }
}
