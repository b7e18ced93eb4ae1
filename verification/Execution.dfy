/** The steps instructions share, as methods on the processor. */
module Execution {
  import opened Words
  import opened HartState
  import opened Traps
  import opened Standard
  import opened Processor
  import PT = PageTable
  import VA = VirtualAccess

  method WriteAndAdvance(cpu: Cpu, rd: bv5, v: bv64, len: bv64) returns (r: Report)
    requires cpu.Valid()
    modifies cpu.Footprint()
    ensures Reported(cpu.State(), r) == Write1(old(cpu.State()), rd, v, len)
  {
    hide Cpu.State, Index, Plus;
    cpu.WriteReg(rd, v);
    cpu.Advance(len);
    r := None;
  }

  method LoadRegister(cpu: Cpu, f3: bv3, rd: bv5, va: bv64, len: bv64) returns (r: Report)
    requires cpu.Valid()
    modifies cpu.Footprint()
    ensures Reported(cpu.State(), r) == LoadX(old(cpu.State()), f3, rd, va, len)
  {
    hide Cpu.State, Index, Plus, LoadFrom, Extend, Wide, Write1;
    var value := cpu.LoadVa(va, WidthOf(f3));
    if value.Err? {
      return Some((Exc(value.error), va));
    }
    r := WriteAndAdvance(cpu, rd, Extend(f3, Wide(value.value)), len);
  }

  method LoadFloat(cpu: Cpu, f3: bv3, rd: bv5, va: bv64, len: bv64) returns (r: Report)
    requires cpu.Valid()
    modifies cpu.Footprint()
    ensures Reported(cpu.State(), r) == LoadF(old(cpu.State()), f3, rd, va, len)
  {
    hide Cpu.State, Index, Plus, LoadFrom, Box, Wide, CsrFile.Write, CsrFile.Read, DirtyFs;
    var value := cpu.LoadVa(va, WidthOf(f3));
    if value.Err? {
      return Some((Exc(value.error), va));
    }
    cpu.WriteFReg(rd, if f3 == 2 then Box(Wide(value.value)) else Wide(value.value));
    cpu.MarkFsDirty();
    cpu.Advance(len);
    r := None;
  }

  method StoreValue(cpu: Cpu, va: bv64, v: bv64, n: nat, len: bv64) returns (r: Report)
    requires cpu.Valid() && VA.Width(n)
    modifies cpu.Footprint()
    ensures Reported(cpu.State(), r) == StoreV(old(cpu.State()), va, v, n, len)
  {
    hide Cpu.State, Plus, StoreTo;
    var stored := cpu.StoreVa(va, v, n);
    if stored.Err? {
      return Some((Exc(stored.error), va));
    }
    cpu.ForgetReservation();
    cpu.Advance(len);
    r := None;
  }

  method JumpTo(cpu: Cpu, rd: bv5, target: bv64, len: bv64) returns (r: Report)
    requires cpu.Valid()
    modifies cpu.Footprint()
    ensures Reported(cpu.State(), r) == Jump(old(cpu.State()), rd, target, len)
  {
    hide Index, Plus;
    var next := Plus(cpu.pc, len);
    hide Cpu.State;
    cpu.WriteReg(rd, next);
    cpu.SetPc(target);
    r := None;
  }

  method BranchWhen(cpu: Cpu, taken: bool, offset: bv64, len: bv64) returns (r: Report)
    requires cpu.Valid()
    modifies cpu.Footprint()
    ensures Reported(cpu.State(), r) == BranchIf(old(cpu.State()), taken, offset, len)
  {
    hide Plus;
    if taken {
      cpu.SetPc(Plus(cpu.pc, offset));
    } else {
      cpu.Advance(len);
    }
    r := None;
  }
}
