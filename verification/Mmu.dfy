/** The three page-table walkers and `translate`, proved against the walk of PageTable. */
module Mmu {
  import opened Words
  import opened Memory
  import opened PageTable
  import opened BusRouting

  /** The sign-extension test of Sv39. */
  lemma CanonicalSv39(va: u64)
    ensures var sign, ext := va / 0x40_0000_0000 % 2, va / 0x80_0000_0000 % 0x200_0000;
      Canonical(va, 3) <==> !((sign == 0 && ext != 0) || (sign == 1 && ext != 0x1FF_FFFF))
  {
  }

  /** The sign-extension test of Sv48. */
  lemma CanonicalSv48(va: u64)
    ensures var sign, ext := va / 0x8000_0000_0000 % 2, va / 0x1_0000_0000_0000 % 0x1_0000;
      Canonical(va, 4) <==> !((sign == 0 && ext != 0) || (sign == 1 && ext != 0xFFFF))
  {
  }

  /** The sign-extension test of Sv57. */
  lemma CanonicalSv57(va: u64)
    ensures var sign, ext := va / 0x100_0000_0000_0000 % 2, va / 0x200_0000_0000_0000 % 0x80;
      Canonical(va, 5) <==> !((sign == 0 && ext != 0) || (sign == 1 && ext != 0x7F))
  {
  }

  /** Sets A, and D on a store, writing the entry back only when something changed. */
  method UpdateAD(bus: Bus, pteAddr: u64, pte: u64, access: AccessType) returns (ok: bool)
    modifies bus.dram.memory
    ensures Touched(pte, access) == pte ==> ok && bus.Contents() == old(bus.Contents())
    ensures Touched(pte, access) != pte ==>
      && ok == Write64At(old(bus.Contents()), pteAddr, Touched(pte, access)).Some?
      && bus.Contents() == if ok then Write64At(old(bus.Contents()), pteAddr, Touched(pte, access)).value
         else old(bus.Contents())
  {
    var updated: int, needsUpdate := pte, false;
    if !PteA(pte) {
      updated := updated + 0x40;
      needsUpdate := true;
    }
    if access == Store && !PteD(pte) {
      updated := updated + 0x80;
      needsUpdate := true;
    }
    TouchedSteps(pte, access);
    ok := true;
    if needsUpdate {
      ok := bus.Write64(pteAddr, updated);
    }
  }

  /** Superpage alignment and address formation of Sv39. */
  method LeafAddressSv39(pte: u64, level: nat, va: u64) returns (r: Option<u64>)
    requires level < 3
    ensures r == if Aligned(PtePpn(pte), level) then Some(PhysicalAddress(pte, level, va)) else None
  {
    var ppn := PtePpn(pte);
    var pa: u64;
    if level == 2 {
      if ppn % 0x4_0000 != 0 {
        return None;
      }
      pa := ppn * 0x1000 + va % 0x4000_0000;
    } else if level == 1 {
      if ppn % 0x200 != 0 {
        return None;
      }
      pa := ppn * 0x1000 + va % 0x20_0000;
    } else {
      pa := ppn * 0x1000 + va % 0x1000;
    }
    return Some(pa);
  }

  /** A leaf entry of Sv39: permissions, alignment, A/D write-back. */
  method LeafSv39(bus: Bus, pteAddr: u64, pte: u64, level: nat, va: u64, access: AccessType, mode: Mode, mstatus: u64)
    returns (r: Result<u64, Exception>)
    requires level < 3
    modifies bus.dram.memory
    ensures Translated(r, bus.Contents()) ==
      AtLeafEntry(old(bus.Contents()), AtLeaf(pteAddr, pte, level), va, access, mode, mstatus)
  {
    hide PtePpn, PhysicalAddress, Aligned, Touched, CheckPermissions;
    var allowed := CheckPermissions(pte, access, mode, mstatus);
    if allowed.Err? {
      PermissionFault(pte, access, mode, mstatus);
      return Err(allowed.error);
    }
    var pa := LeafAddressSv39(pte, level, va);
    if pa.None? {
      return Err(PageFault(access));
    }
    var ok := UpdateAD(bus, pteAddr, pte, access);
    if !ok {
      return Err(PageFault(access));
    }
    return Ok(pa.value);
  }

  function VpnsSv39(va: u64): (vpn: seq<nat>)
    ensures |vpn| == 3 && forall i :: 0 <= i < 3 ==> vpn[i] == Vpn(va, i)
  {
    [va / 0x1000 % 0x200, va / 0x20_0000 % 0x200, va / 0x4000_0000 % 0x200]
  }

  /** The level-by-level descent of Sv39, from the root table to a leaf entry. */
  method DescendSv39(bus: Bus, va: u64, satp: u64) returns (d: Descent)
    ensures d == Descend(bus.Contents(), Root(satp), 2, va)
  {
    hide PtePpn, PteR, PteW, PteX, PteV, Vpn, VpnsSv39, Descend;
    var vpn := VpnsSv39(va);
    var pteAddr: u64 := satp % 0x1000_0000_0000 * 0x1000;
    ghost var p := bus.Contents();
    for level := 3 downto 0
      invariant pteAddr < 0x100_0000_0000_0000
      invariant Descend(p, Root(satp), 2, va) == if level == 0 then NoLeaf else Descend(p, pteAddr, level - 1, va)
    {
      DescendStep(p, pteAddr, level, va);
      pteAddr := pteAddr + vpn[level] * 8;
      var word := bus.Read64(pteAddr);
      if word.None? {
        return NoLeaf;
      }
      var pte := word.value;
      if !PteV(pte) {
        return NoLeaf;
      }
      if !PteR(pte) && PteW(pte) {
        return NoLeaf;
      }
      if PteR(pte) || PteW(pte) || PteX(pte) {
        return AtLeaf(pteAddr, pte, level);
      }
      pteAddr := PtePpn(pte) * 0x1000;
    }
    return NoLeaf;
  }

  method TranslateSv39(bus: Bus, va: u64, access: AccessType, mode: Mode, satp: u64, mstatus: u64)
    returns (r: Result<u64, Exception>)
    modifies bus.dram.memory
    ensures Translated(r, bus.Contents()) == Walk(old(bus.Contents()), 3, va, access, mode, satp, mstatus)
  {
    var sign := va / 0x40_0000_0000 % 2;
    var ext := va / 0x80_0000_0000 % 0x200_0000;
    CanonicalSv39(va);
    if (sign == 0 && ext != 0) || (sign == 1 && ext != 0x1FF_FFFF) {
      return Err(PageFault(access));
    }
    var d := DescendSv39(bus, va, satp);
    if d.NoLeaf? {
      return Err(PageFault(access));
    }
    DescendLevel(bus.Contents(), Root(satp), 2, va);
    r := LeafSv39(bus, d.addr, d.pte, d.level, va, access, mode, mstatus);
  }

  /** Superpage alignment and address formation of Sv48. */
  method LeafAddressSv48(pte: u64, level: nat, va: u64) returns (r: Option<u64>)
    requires level < 4
    ensures r == if Aligned(PtePpn(pte), level) then Some(PhysicalAddress(pte, level, va)) else None
  {
    var ppn := PtePpn(pte);
    var pa: u64;
    if level == 3 {
      if ppn % 0x800_0000 != 0 {
        return None;
      }
      pa := ppn * 0x1000 + va % 0x80_0000_0000;
    } else if level == 2 {
      if ppn % 0x4_0000 != 0 {
        return None;
      }
      pa := ppn * 0x1000 + va % 0x4000_0000;
    } else if level == 1 {
      if ppn % 0x200 != 0 {
        return None;
      }
      pa := ppn * 0x1000 + va % 0x20_0000;
    } else {
      pa := ppn * 0x1000 + va % 0x1000;
    }
    return Some(pa);
  }

  /** A leaf entry of Sv48: permissions, alignment, A/D write-back. */
  method LeafSv48(bus: Bus, pteAddr: u64, pte: u64, level: nat, va: u64, access: AccessType, mode: Mode, mstatus: u64)
    returns (r: Result<u64, Exception>)
    requires level < 4
    modifies bus.dram.memory
    ensures Translated(r, bus.Contents()) ==
      AtLeafEntry(old(bus.Contents()), AtLeaf(pteAddr, pte, level), va, access, mode, mstatus)
  {
    hide PtePpn, PhysicalAddress, Aligned, Touched, CheckPermissions;
    var allowed := CheckPermissions(pte, access, mode, mstatus);
    if allowed.Err? {
      PermissionFault(pte, access, mode, mstatus);
      return Err(allowed.error);
    }
    var pa := LeafAddressSv48(pte, level, va);
    if pa.None? {
      return Err(PageFault(access));
    }
    var ok := UpdateAD(bus, pteAddr, pte, access);
    if !ok {
      return Err(PageFault(access));
    }
    return Ok(pa.value);
  }

  function VpnsSv48(va: u64): (vpn: seq<nat>)
    ensures |vpn| == 4 && forall i :: 0 <= i < 4 ==> vpn[i] == Vpn(va, i)
  {
    [va / 0x1000 % 0x200, va / 0x20_0000 % 0x200, va / 0x4000_0000 % 0x200, va / 0x80_0000_0000 % 0x200]
  }

  /** The level-by-level descent of Sv48, from the root table to a leaf entry. */
  method DescendSv48(bus: Bus, va: u64, satp: u64) returns (d: Descent)
    ensures d == Descend(bus.Contents(), Root(satp), 3, va)
  {
    hide PtePpn, PteR, PteW, PteX, PteV, Vpn, VpnsSv48, Descend;
    var vpn := VpnsSv48(va);
    var pteAddr: u64 := satp % 0x1000_0000_0000 * 0x1000;
    ghost var p := bus.Contents();
    for level := 4 downto 0
      invariant pteAddr < 0x100_0000_0000_0000
      invariant Descend(p, Root(satp), 3, va) == if level == 0 then NoLeaf else Descend(p, pteAddr, level - 1, va)
    {
      DescendStep(p, pteAddr, level, va);
      pteAddr := pteAddr + vpn[level] * 8;
      var word := bus.Read64(pteAddr);
      if word.None? {
        return NoLeaf;
      }
      var pte := word.value;
      if !PteV(pte) {
        return NoLeaf;
      }
      if !PteR(pte) && PteW(pte) {
        return NoLeaf;
      }
      if PteR(pte) || PteW(pte) || PteX(pte) {
        return AtLeaf(pteAddr, pte, level);
      }
      pteAddr := PtePpn(pte) * 0x1000;
    }
    return NoLeaf;
  }

  method TranslateSv48(bus: Bus, va: u64, access: AccessType, mode: Mode, satp: u64, mstatus: u64)
    returns (r: Result<u64, Exception>)
    modifies bus.dram.memory
    ensures Translated(r, bus.Contents()) == Walk(old(bus.Contents()), 4, va, access, mode, satp, mstatus)
  {
    var sign := va / 0x8000_0000_0000 % 2;
    var ext := va / 0x1_0000_0000_0000 % 0x1_0000;
    CanonicalSv48(va);
    if (sign == 0 && ext != 0) || (sign == 1 && ext != 0xFFFF) {
      return Err(PageFault(access));
    }
    var d := DescendSv48(bus, va, satp);
    if d.NoLeaf? {
      return Err(PageFault(access));
    }
    DescendLevel(bus.Contents(), Root(satp), 3, va);
    r := LeafSv48(bus, d.addr, d.pte, d.level, va, access, mode, mstatus);
  }

  /** Superpage alignment and address formation of Sv57. */
  method LeafAddressSv57(pte: u64, level: nat, va: u64) returns (r: Option<u64>)
    requires level < 5
    ensures r == if Aligned(PtePpn(pte), level) then Some(PhysicalAddress(pte, level, va)) else None
  {
    var ppn := PtePpn(pte);
    var pa: u64;
    if level == 4 {
      if ppn % 0x10_0000_0000 != 0 {
        return None;
      }
      pa := ppn * 0x1000 + va % 0x1_0000_0000_0000;
    } else if level == 3 {
      if ppn % 0x800_0000 != 0 {
        return None;
      }
      pa := ppn * 0x1000 + va % 0x80_0000_0000;
    } else if level == 2 {
      if ppn % 0x4_0000 != 0 {
        return None;
      }
      pa := ppn * 0x1000 + va % 0x4000_0000;
    } else if level == 1 {
      if ppn % 0x200 != 0 {
        return None;
      }
      pa := ppn * 0x1000 + va % 0x20_0000;
    } else {
      pa := ppn * 0x1000 + va % 0x1000;
    }
    return Some(pa);
  }

  /** A leaf entry of Sv57: permissions, alignment, A/D write-back. */
  method LeafSv57(bus: Bus, pteAddr: u64, pte: u64, level: nat, va: u64, access: AccessType, mode: Mode, mstatus: u64)
    returns (r: Result<u64, Exception>)
    requires level < 5
    modifies bus.dram.memory
    ensures Translated(r, bus.Contents()) ==
      AtLeafEntry(old(bus.Contents()), AtLeaf(pteAddr, pte, level), va, access, mode, mstatus)
  {
    hide PtePpn, PhysicalAddress, Aligned, Touched, CheckPermissions;
    var allowed := CheckPermissions(pte, access, mode, mstatus);
    if allowed.Err? {
      PermissionFault(pte, access, mode, mstatus);
      return Err(allowed.error);
    }
    var pa := LeafAddressSv57(pte, level, va);
    if pa.None? {
      return Err(PageFault(access));
    }
    var ok := UpdateAD(bus, pteAddr, pte, access);
    if !ok {
      return Err(PageFault(access));
    }
    return Ok(pa.value);
  }

  function VpnsSv57(va: u64): (vpn: seq<nat>)
    ensures |vpn| == 5 && forall i :: 0 <= i < 5 ==> vpn[i] == Vpn(va, i)
  {
    [va / 0x1000 % 0x200, va / 0x20_0000 % 0x200, va / 0x4000_0000 % 0x200, va / 0x80_0000_0000 % 0x200,
        va / 0x1_0000_0000_0000 % 0x200]
  }

  /** The level-by-level descent of Sv57, from the root table to a leaf entry. */
  method DescendSv57(bus: Bus, va: u64, satp: u64) returns (d: Descent)
    ensures d == Descend(bus.Contents(), Root(satp), 4, va)
  {
    hide PtePpn, PteR, PteW, PteX, PteV, Vpn, VpnsSv57, Descend;
    var vpn := VpnsSv57(va);
    var pteAddr: u64 := satp % 0x1000_0000_0000 * 0x1000;
    ghost var p := bus.Contents();
    for level := 5 downto 0
      invariant pteAddr < 0x100_0000_0000_0000
      invariant Descend(p, Root(satp), 4, va) == if level == 0 then NoLeaf else Descend(p, pteAddr, level - 1, va)
    {
      DescendStep(p, pteAddr, level, va);
      pteAddr := pteAddr + vpn[level] * 8;
      var word := bus.Read64(pteAddr);
      if word.None? {
        return NoLeaf;
      }
      var pte := word.value;
      if !PteV(pte) {
        return NoLeaf;
      }
      if !PteR(pte) && PteW(pte) {
        return NoLeaf;
      }
      if PteR(pte) || PteW(pte) || PteX(pte) {
        return AtLeaf(pteAddr, pte, level);
      }
      pteAddr := PtePpn(pte) * 0x1000;
    }
    return NoLeaf;
  }

  method TranslateSv57(bus: Bus, va: u64, access: AccessType, mode: Mode, satp: u64, mstatus: u64)
    returns (r: Result<u64, Exception>)
    modifies bus.dram.memory
    ensures Translated(r, bus.Contents()) == Walk(old(bus.Contents()), 5, va, access, mode, satp, mstatus)
  {
    var sign := va / 0x100_0000_0000_0000 % 2;
    var ext := va / 0x200_0000_0000_0000 % 0x80;
    CanonicalSv57(va);
    if (sign == 0 && ext != 0) || (sign == 1 && ext != 0x7F) {
      return Err(PageFault(access));
    }
    var d := DescendSv57(bus, va, satp);
    if d.NoLeaf? {
      return Err(PageFault(access));
    }
    DescendLevel(bus.Contents(), Root(satp), 4, va);
    r := LeafSv57(bus, d.addr, d.pte, d.level, va, access, mode, mstatus);
  }

  /** `translate`: effective mode, bare mode, then the walker that SATP selects. */
  method TranslateAddress(bus: Bus, va: u64, access: AccessType, mode: Mode, satp: u64, mstatus: u64)
    returns (r: Result<u64, Exception>)
    modifies bus.dram.memory
    ensures Translated(r, bus.Contents()) == Translate(old(bus.Contents()), va, access, mode, satp, mstatus)
  {
    var satpMode := satp / 0x1000_0000_0000_0000;
    if mode == Machine && access == Instruction {
      return Ok(va);
    }
    var effective := mode;
    if mode == Machine {
      var mprv := mstatus / 0x2_0000 % 2;
      if mprv == 1 {
        var mpp := mstatus / 0x800 % 4;
        effective := if mpp == 0 then User
                     else if mpp == 1 then Supervisor
                     else if mpp == 2 then Hypervisor
                     else Machine;
      }
    }
    if effective == Machine {
      return Ok(va);
    }
    if satpMode == 0 {
      return Ok(va);
    }
    if satpMode == 8 {
      r := TranslateSv39(bus, va, access, effective, satp, mstatus);
    } else if satpMode == 9 {
      r := TranslateSv48(bus, va, access, effective, satp, mstatus);
    } else if satpMode == 10 {
      r := TranslateSv57(bus, va, access, effective, satp, mstatus);
    } else {
      r := Err(PageFault(access));
    }
  }
}
