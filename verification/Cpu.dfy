/** The processor object: its registers, traps and interrupt check, as methods on its fields. */
module Processor {
  import opened Words
  import opened Memory
  import opened BusRouting
  import opened CsrFile
  import opened HartState
  import opened Traps
  import opened Standard
  import PT = PageTable
  import VA = VirtualAccess
  import Mmu

  /** What an instruction reports besides its effect: nothing, or a trap and its value. */
  type Report = Option<(Trap, bv64)>

  function Reported(h: Hart, r: Report): Outcome {
    match r
    case None => Next(h)
    case Some(t) => Raise(h, t.0, t.1)
  }

  lemma BeyondTheBus(p: Phys, pa: int, v: nat)
    requires pa >= TWO_64
    ensures Write64At(p, pa, v) == None
  {
  }

  class Cpu {
    var pc: bv64
    const regs: array<bv64>
    const fregs: array<bv64>
    const csr: Csr
    var mode: PT.Mode
    const bus: Bus
    var reservation: Option<u64>

    ghost predicate Valid() {
      && regs.Length == 32 && fregs.Length == 32 && regs != fregs
      && regs as object != bus.dram.memory && fregs as object != bus.dram.memory
    }

    ghost function Footprint(): set<object> {
      {this, regs, fregs, csr, bus, bus.dram.memory}
    }

    /** The abstract value of the processor with its bus. */
    ghost function State(): Hart
      requires Valid()
      reads Footprint()
    {
      Hart(pc, regs[..], fregs[..], csr.regs, mode, reservation, bus.Contents(), bus.Timers())
    }

    constructor (bus: Bus)
      ensures Valid() && fresh(regs) && fresh(fregs) && fresh(csr) && this.bus == bus
      ensures State() == Hart(0, seq(32, _ => 0), seq(32, _ => 0), ApplyAll(map[], ResetWrites()), PT.Machine, None,
                              bus.Contents(), bus.Timers())
    {
      hide ApplyAll, ResetWrites;
      pc := 0;
      regs := new bv64[32](_ => 0);
      fregs := new bv64[32](_ => 0);
      csr := new Csr();
      mode := PT.Machine;
      this.bus := bus;
      reservation := None;
    }

    // ----- Registers -----

    method ReadReg(r: bv5) returns (v: bv64)
      requires Valid()
      ensures v == X(State(), r)
    {
      if r == 0 {
        v := 0;
      } else {
        v := regs[Index(r)];
      }
    }

    method WriteReg(r: bv5, v: bv64)
      requires Valid()
      modifies regs
      ensures State() == SetX(old(State()), r, v)
    {
      if r != 0 {
        regs[Index(r)] := v;
        assert regs[..] == old(regs[..])[Index(r) := v];
      }
    }

    method ReadFReg(r: bv5) returns (v: bv64)
      requires Valid()
      ensures v == F(State(), r)
    {
      v := fregs[Index(r)];
    }

    method WriteFReg(r: bv5, v: bv64)
      requires Valid()
      modifies fregs
      ensures State() == SetF(old(State()), r, v)
    {
      fregs[Index(r)] := v;
      assert fregs[..] == old(fregs[..])[Index(r) := v];
    }

    method SetPc(v: bv64)
      requires Valid()
      modifies this`pc
      ensures State() == Goto(old(State()), v)
    {
      pc := v;
    }

    /** Falls through to the next instruction. */
    method Advance(len: bv64)
      requires Valid()
      modifies this`pc
      ensures State() == Goto(old(State()), Plus(old(State()).pc, len))
    {
      pc := Plus(pc, len);
    }

    method MarkFsDirty()
      requires Valid()
      modifies csr
      ensures State() == MarkDirty(old(State()))
    {
      hide Write, Read, DirtyFs;
      var mstatus := csr.ReadReg(MSTATUS);
      csr.WriteReg(MSTATUS, DirtyFs(mstatus));
    }

    // ----- Reservations -----

    method ForgetReservation()
      requires Valid()
      modifies this`reservation
      ensures State() == ClearReservation(old(State()))
    {
      reservation := None;
    }

    method SetReservation(addr: u64)
      requires Valid()
      modifies this`reservation
      ensures State() == Reserve(old(State()), addr)
    {
      reservation := Some(Granule(addr));
    }

    method CheckReservation(addr: u64) returns (held: bool)
      requires Valid()
      ensures held == Reserved(State(), addr)
    {
      match reservation {
        case Some(reserved) => held := Granule(addr) == reserved;
        case None => held := false;
      }
    }

    // ----- Memory -----

    method CurrentSpace() returns (c: VA.Context)
      requires Valid()
      ensures c == Space(State())
    {
      hide Read, Num;
      var satp := csr.ReadReg(SATP);
      var mstatus := csr.ReadReg(MSTATUS);
      c := VA.Context(mode, Num(satp), Num(mstatus));
    }

    method LoadVa(va: bv64, size: nat) returns (r: Result<nat, PT.Exception>)
      requires Valid() && VA.Width(size)
      modifies bus.dram.memory
      ensures var l := LoadFrom(old(State()), va, size); r == l.result && State() == old(State()).(mem := l.mem)
    {
      hide Space, Num, VA.LoadVa;
      var c := CurrentSpace();
      var l := VA.LoadVirtual(bus, c, Num(va), size);
      assert regs[..] == old(regs[..]) && fregs[..] == old(fregs[..]);
      r := match l case Ok(v) => Ok(v) case Err(e) => Err(e.0);
    }

    method StoreVa(va: bv64, value: bv64, size: nat) returns (r: Result<(), PT.Exception>)
      requires Valid() && VA.Width(size)
      modifies bus.dram.memory
      ensures var s := StoreTo(old(State()), va, value, size); r == s.result && State() == old(State()).(mem := s.mem)
    {
      hide Space, Num, VA.StoreVa;
      var c := CurrentSpace();
      var s := VA.StoreVirtual(bus, c, Num(va), Num(value), size);
      assert regs[..] == old(regs[..]) && fregs[..] == old(fregs[..]);
      r := match s case Ok(v) => Ok(v) case Err(e) => Err(e.0);
    }

    method Translate(va: bv64, access: PT.AccessType) returns (r: Result<u64, PT.Exception>)
      requires Valid()
      modifies bus.dram.memory
      ensures var t := Locate(old(State()), va, access); r == t.result && State() == old(State()).(mem := t.mem)
    {
      hide Space, Num, PT.Translate;
      var c := CurrentSpace();
      r := Mmu.TranslateAddress(bus, Num(va), access, c.mode, c.satp, c.mstatus);
      assert regs[..] == old(regs[..]) && fregs[..] == old(fregs[..]);
    }

    method ReadPhysical(pa: u64, word: bool) returns (v: Option<nat>)
      requires Valid()
      ensures v == ReadAt(State().mem, pa, WidthAmo(word))
    {
      if word {
        v := bus.Read32(pa);
      } else {
        v := bus.Read64(pa);
      }
    }

    method WritePhysical(pa: u64, word: bool, value: bv64) returns (ok: bool)
      requires Valid()
      modifies bus.dram.memory
      ensures var w := WriteAt(old(State()).mem, pa, WidthAmo(word), Num(value));
        ok == w.Some? && State() == if w.Some? then old(State()).(mem := w.value) else old(State())
    {
      hide Num, ReadAt, Write64At, WriteNarrowAt;
      VA.TruncatedWrite(bus.Contents(), pa, Num(value), WidthAmo(word));
      if word {
        ok := bus.Write32(pa, Num(value) % 0x1_0000_0000);
      } else {
        ok := bus.Write64(pa, Num(value));
      }
      assert regs[..] == old(regs[..]) && fregs[..] == old(fregs[..]);
    }

    method WriteDoubleword(pa: int, value: bv64) returns (ok: bool)
      requires Valid() && 0 <= pa
      modifies bus.dram.memory
      ensures var w := Write64At(old(State()).mem, pa, Num(value));
        ok == w.Some? && State() == if w.Some? then old(State()).(mem := w.value) else old(State())
    {
      hide Num, Write64At;
      if pa < TWO_64 {
        ok := bus.Write64(pa, Num(value));
      } else {
        BeyondTheBus(bus.Contents(), pa, Num(value));
        ok := false;
      }
      assert regs[..] == old(regs[..]) && fregs[..] == old(fregs[..]);
    }

    // ----- Traps -----

    method HandleTrap(t: Trap, tval: bv64)
      requires Valid()
      modifies this, csr
      ensures State() == Traps.HandleTrap(old(State()), t, tval)
    {
      hide Read, BitSet, Number, Traps.TakeTrap, Traps.TakeSTrap;
      ForgetReservation();
      var mideleg := csr.ReadReg(MIDELEG);
      var medeleg := csr.ReadReg(MEDELEG);
      var shouldDelegate := BitSet(if t.Intr? then mideleg else medeleg, Number(t));
      if shouldDelegate && mode != PT.Machine {
        TakeSTrap(t, tval);
      } else {
        TakeTrap(t, tval);
      }
    }

    method TakeSTrap(t: Trap, tval: bv64)
      requires Valid()
      modifies this, csr
      ensures State() == Traps.TakeSTrap(old(State()), t, tval)
    {
      hide Read, Write, Code, PushS, Vector, ModeNumber;
      var stvec := csr.ReadReg(STVEC);
      csr.WriteReg(SEPC, pc);
      csr.WriteReg(SCAUSE, Code(t));
      csr.WriteReg(STVAL, tval);
      var sstatus := csr.ReadReg(SSTATUS);
      csr.WriteReg(SSTATUS, PushS(sstatus, ModeNumber(mode)));
      mode := PT.Supervisor;
      pc := Vector(stvec, t);
    }

    method TakeTrap(t: Trap, tval: bv64)
      requires Valid()
      modifies this, csr
      ensures State() == Traps.TakeTrap(old(State()), t, tval)
    {
      hide Read, Write, Code, PushM, Vector, ModeNumber;
      var mtvec := csr.ReadReg(MTVEC);
      csr.WriteReg(MEPC, pc);
      csr.WriteReg(MCAUSE, Code(t));
      csr.WriteReg(MTVAL, tval);
      var mstatus := csr.ReadReg(MSTATUS);
      csr.WriteReg(MSTATUS, PushM(mstatus, ModeNumber(mode)));
      mode := PT.Machine;
      pc := Vector(mtvec, t);
    }

    method ReturnM()
      requires Valid()
      modifies this, csr
      ensures State() == Mret(old(State()))
    {
      hide Read, Write, PopM, Mpp, ModeOf;
      var mstatus := csr.ReadReg(MSTATUS);
      csr.WriteReg(MSTATUS, PopM(mstatus));
      mode := ModeOf(Mpp(mstatus));
      pc := csr.ReadReg(MEPC);
      ForgetReservation();
    }

    method ReturnS()
      requires Valid()
      modifies this, csr
      ensures State() == Sret(old(State()))
    {
      hide Read, Write, PopS, Spp;
      var sstatus := csr.ReadReg(SSTATUS);
      csr.WriteReg(SSTATUS, PopS(sstatus));
      mode := if Spp(sstatus) == 0 then PT.User else PT.Supervisor;
      pc := csr.ReadReg(SEPC);
      ForgetReservation();
    }

    // ----- Interrupts -----

    /** Writes the state of the device lines into MIP; bits 3, 7 and 11 are in the result only. */
    method SampleLines(external: bool, sExternal: bool) returns (mip: bv64)
      requires Valid()
      modifies csr
      ensures var l := LinesOf(bus.Timers(), external, sExternal);
        mip == Sampled(Read(old(csr.regs), MIP), l) && State() == old(State()).(csr := Sample(old(csr.regs), l))
    {
      hide Read, Write, Drive, TimerDue, STimerDue, SoftwareDue;
      mip := csr.ReadReg(MIP);
      mip := Drive(mip, 0x800, external);
      mip := Drive(mip, 0x80, bus.HasTimerInterrupt());
      mip := Drive(mip, 0x8, bus.HasSoftwareInterrupt());
      mip := Drive(mip, 0x200, sExternal);
      mip := Drive(mip, 0x20, bus.HasSTimerInterrupt());
      csr.WriteReg(MIP, mip);
    }

    /** The tests of the interrupt check, in its order. */
    method Choose(mstatus: bv64, pending: bv64, mideleg: bv64) returns (chosen: Option<Interrupt>)
      ensures chosen == Select(mode, mstatus, pending, mideleg)
    {
      hide Has;
      var mieEnabled := mstatus & 0x8 != 0;
      var sieEnabled := mstatus & 0x2 != 0;
      if mode == PT.Machine && mieEnabled {
        var m := FirstMachine(pending);
        if m.Some? {
          return m;
        }
      }
      if mode == PT.Supervisor && sieEnabled {
        var s := FirstSupervisor(pending, mideleg);
        if s.Some? {
          return s;
        }
      }
      if mode != PT.Machine {
        var m := FirstMachine(pending);
        if m.Some? {
          return m;
        }
      }
      if mode == PT.User {
        return FirstSupervisor(pending, mideleg);
      }
      return None;
    }

    /** Samples the devices into MIP and chooses the interrupt to take. The two arguments are the answers of
        the interrupt controller for its machine-level and supervisor-level contexts. */
    method CheckInterrupt(external: bool, sExternal: bool) returns (chosen: Option<Interrupt>)
      requires Valid()
      modifies csr
      ensures (State(), chosen) == Traps.CheckInterrupt(old(State()), LinesOf(bus.Timers(), external, sExternal))
    {
      hide Read, Write, Sampled, Select, Sample, LinesOf, Pending;
      var mstatus := csr.ReadReg(MSTATUS);
      var mip := SampleLines(external, sExternal);
      var mie := csr.ReadReg(MIE);
      var pending := Pending(mip, mie);
      var mideleg := csr.ReadReg(MIDELEG);
      if pending == 0 {
        NothingSelected(mode, mstatus, mideleg);
        return None;
      }
      chosen := Choose(mstatus, pending, mideleg);
    }
  }
}
