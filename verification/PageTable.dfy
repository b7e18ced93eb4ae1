/** Page-table walks as functions of physical memory, and what they depend on. */
module PageTable {
  import opened Words
  import opened Memory

  datatype Mode = User | Supervisor | Hypervisor | Machine

  datatype AccessType = Instruction | Load | Store

  datatype Exception =
    | InstructionAddressMisaligned
    | InstructionAccessFault
    | IllegalInstruction
    | Breakpoint
    | LoadAccessFault
    | StoreAMOAccessFault
    | EnvironmentCallFromUMode
    | EnvironmentCallFromSMode
    | EnvironmentCallFromMMode
    | InstructionPageFault
    | LoadPageFault
    | StoreAMOPageFault

  function PageFault(access: AccessType): Exception {
    match access
    case Instruction => InstructionPageFault
    case Load => LoadPageFault
    case Store => StoreAMOPageFault
  }

  // ----- Page-table entries -----

  // Bit i is set when the value modulo 2^(i+1) is at least 2^i.
  predicate PteV(pte: u64) { pte % 0x40 % 2 >= 1 }
  predicate PteR(pte: u64) { pte % 0x40 % 4 >= 2 }
  predicate PteW(pte: u64) { pte % 0x40 % 8 >= 4 }
  predicate PteX(pte: u64) { pte % 0x40 % 0x10 >= 8 }
  predicate PteU(pte: u64) { pte % 0x40 % 0x20 >= 0x10 }
  predicate PteA(pte: u64) { pte / 0x40 % 2 == 1 }
  predicate PteD(pte: u64) { pte / 0x80 % 2 == 1 }

  /** Bits 53:10. */
  function PtePpn(pte: u64): (ppn: nat)
    ensures ppn < 0x1000_0000_0000
  {
    pte / 0x100 / 4 % 0x1000_0000_0000
  }

  predicate IsLeaf(pte: u64) {
    PteR(pte) || PteW(pte) || PteX(pte)
  }

  /** Valid, and not the reserved write-only combination. */
  predicate Acceptable(pte: u64) {
    PteV(pte) && (PteR(pte) || !PteW(pte))
  }

  /** Equal except possibly for the accessed and dirty bits, bits 6 and 7. */
  predicate SameButAD(p: u64, q: u64) {
    p / 0x100 == q / 0x100 && p % 0x40 == q % 0x40
  }

  lemma SameButADFields(p: u64, q: u64)
    requires SameButAD(p, q)
    ensures PteV(p) == PteV(q) && PteR(p) == PteR(q) && PteW(p) == PteW(q)
    ensures PteX(p) == PteX(q) && PteU(p) == PteU(q) && PtePpn(p) == PtePpn(q)
  {
  }

  /** A value from its bits 7 and 6, what lies above and what lies below. */
  lemma FromDigits(x: int, h: int, d: int, a: int, l: int)
    requires 0 <= d < 2 && 0 <= a < 2 && 0 <= l < 0x40
    requires x == 0x100 * h + 0x80 * d + 0x40 * a + l
    ensures x / 0x100 == h && x / 0x80 % 2 == d && x / 0x40 % 2 == a && x % 0x40 == l
  {
    DivModUnique(x, 0x100, h, 0x80 * d + 0x40 * a + l);
    DivModUnique(x, 0x80, 2 * h + d, 0x40 * a + l);
    DivModUnique(x, 0x40, 4 * h + 2 * d + a, l);
    DivModUnique(2 * h + d, 2, h, d);
    DivModUnique(4 * h + 2 * d + a, 2, 2 * h + d, a);
  }

  function Bit(b: bool): int {
    if b then 1 else 0
  }

  /** The entry after an access: A becomes set, and D too on a store. */
  function Touched(pte: u64, access: AccessType): (r: u64)
  {
    pte / 0x100 * 0x100 + 0x80 * Bit(PteD(pte) || access == Store) + 0x40 + pte % 0x40
  }

  lemma TouchedBits(pte: u64, access: AccessType)
    ensures SameButAD(pte, Touched(pte, access))
    ensures PteA(Touched(pte, access))
    ensures PteD(Touched(pte, access)) <==> PteD(pte) || access == Store
  {
    FromDigits(Touched(pte, access), pte / 0x100, Bit(PteD(pte) || access == Store), 1, pte % 0x40);
  }

  /** The two bits are set one at a time, and only when clear. */
  lemma TouchedSteps(pte: u64, access: AccessType)
    ensures Touched(pte, access) ==
            pte + (if PteA(pte) then 0 else 0x40) + (if access == Store && !PteD(pte) then 0x80 else 0)
  {
    Split256(pte);
  }

  lemma Split256(x: nat)
    ensures x == x / 0x100 * 0x100 + 0x80 * (x / 0x80 % 2) + 0x40 * (x / 0x40 % 2) + x % 0x40
  {
    assert x / 0x80 == x / 0x100 * 2 + x / 0x80 % 2;
    assert x / 0x40 == x / 0x80 * 2 + x / 0x40 % 2;
  }

  // ----- Virtual addresses -----

  /** Nine bits of virtual page number, and the bytes a leaf at that level spans. */
  function Vpn(va: u64, level: nat): (v: nat)
    requires level < 5
    ensures v < 0x200
  {
    if level == 0 then va / 0x1000 % 0x200
    else if level == 1 then va / 0x20_0000 % 0x200
    else if level == 2 then va / 0x4000_0000 % 0x200
    else if level == 3 then va / 0x80_0000_0000 % 0x200
    else va / 0x1_0000_0000_0000 % 0x200
  }

  function Offset(va: u64, level: nat): (v: nat)
    requires level < 5
  {
    if level == 0 then va % 0x1000
    else if level == 1 then va % 0x20_0000
    else if level == 2 then va % 0x4000_0000
    else if level == 3 then va % 0x80_0000_0000
    else va % 0x1_0000_0000_0000
  }

  /** 512^level, the number of 4 KiB frames behind a leaf at that level. */
  function Frames(level: nat): (n: nat)
    requires level < 5
    ensures n > 0
  {
    if level == 0 then 1
    else if level == 1 then 0x200
    else if level == 2 then 0x4_0000
    else if level == 3 then 0x800_0000
    else 0x10_0000_0000
  }

  predicate Aligned(ppn: nat, level: nat)
    requires level < 5
  {
    if level == 0 then true
    else if level == 1 then ppn % 0x200 == 0
    else if level == 2 then ppn % 0x4_0000 == 0
    else if level == 3 then ppn % 0x800_0000 == 0
    else ppn % 0x10_0000_0000 == 0
  }

  /** All bits above the top translated bit equal it. */
  predicate Canonical(va: u64, levels: nat)
    requires 3 <= levels <= 5
  {
    if levels == 3 then va < 0x40_0000_0000 || va >= TWO_64 - 0x40_0000_0000
    else if levels == 4 then va < 0x8000_0000_0000 || va >= TWO_64 - 0x8000_0000_0000
    else va < 0x100_0000_0000_0000 || va >= TWO_64 - 0x100_0000_0000_0000
  }

  // ----- Walks -----

  /** How the descent ends: no usable entry, or a leaf entry and where it is. */
  datatype Descent = NoLeaf | AtLeaf(addr: u64, pte: u64, level: nat)

  function Entry(base: nat, va: u64, level: nat): nat
    requires level < 5
  {
    base + Vpn(va, level) * 8
  }

  function Word(p: Phys, a: int): (w: Option<u64>) {
    var r := ReadAt(p, a, 8);
    match r
    case None => None
    case Some(v) => WordBound(); Some(v)
  }

  lemma WordBound()
    ensures Pow256(8) == TWO_64
  {
  }

  /** The descent from the table at `base`, whose entries are `level` levels above a page. */
  function Descend(p: Phys, base: nat, level: nat, va: u64): (d: Descent)
    requires level < 5 && base < 0x100_0000_0000_0000
    decreases level
  {
    var a := Entry(base, va, level);
    match Word(p, a)
    case None => NoLeaf
    case Some(pte) =>
      if !Acceptable(pte) then NoLeaf
      else if IsLeaf(pte) then AtLeaf(a, pte, level)
      else if level == 0 then NoLeaf
      else Descend(p, PtePpn(pte) * 0x1000, level - 1, va)
  }

  /** One step of the descent. */
  lemma DescendStep(p: Phys, base: nat, level: nat, va: u64)
    requires level < 5 && base < 0x100_0000_0000_0000
    ensures var a := base + Vpn(va, level) * 8; var w := Word(p, a);
      Descend(p, base, level, va) ==
        if w.None? || !PteV(w.value) || (!PteR(w.value) && PteW(w.value)) then NoLeaf
        else if PteR(w.value) || PteW(w.value) || PteX(w.value) then AtLeaf(a, w.value, level)
        else if level == 0 then NoLeaf
        else Descend(p, PtePpn(w.value) * 0x1000, level - 1, va)
  {
    hide PtePpn, Vpn, PteR, PteW, PteX, PteV;
  }

  /** The addresses of the entries that the descent reads, in order. */
  function Visited(p: Phys, base: nat, level: nat, va: u64): (s: seq<nat>)
    requires level < 5 && base < 0x100_0000_0000_0000
    ensures |s| > 0
    decreases level
  {
    var a := Entry(base, va, level);
    match Word(p, a)
    case None => [a]
    case Some(pte) =>
      if !Acceptable(pte) || IsLeaf(pte) || level == 0 then [a]
      else [a] + Visited(p, PtePpn(pte) * 0x1000, level - 1, va)
  }

  // ----- Leaves -----

  /** `check_permissions`: user pages, SUM and MXR, then the access's own bit. */
  function CheckPermissions(pte: u64, access: AccessType, mode: Mode, mstatus: u64): (r: Result<(), Exception>)
  {
    var mxr := mstatus / 0x8_0000 % 2 != 0;
    var sum := mstatus / 0x4_0000 % 2 != 0;
    if PteU(pte) && mode == Supervisor && !sum then Err(PageFault(access))
    else if !PteU(pte) && mode == User then Err(PageFault(access))
    else
      match access
      case Instruction =>
        if PteU(pte) && mode == Supervisor then Err(InstructionPageFault)
        else if !PteX(pte) then Err(InstructionPageFault)
        else Ok(())
      case Load =>
        if !PteR(pte) && !(mxr && PteX(pte)) then Err(LoadPageFault) else Ok(())
      case Store =>
        if !PteW(pte) then Err(StoreAMOPageFault) else Ok(())
  }

  /** Every refusal is the page fault of the access that was tried. */
  lemma PermissionFault(pte: u64, access: AccessType, mode: Mode, mstatus: u64)
    ensures var c := CheckPermissions(pte, access, mode, mstatus); c.Err? ==> c.error == PageFault(access)
  {
  }

  function PhysicalAddress(pte: u64, level: nat, va: u64): (pa: u64)
    requires level < 5
  {
    PtePpn(pte) * 0x1000 + Offset(va, level)
  }

  /** The result of one translation and the memory it leaves behind. */
  datatype Translated = Translated(result: Result<u64, Exception>, mem: Phys)

  /** What happens once the leaf is found: permissions, alignment, then A/D write-back. */
  function AtLeafEntry(p: Phys, leaf: Descent, va: u64, access: AccessType, mode: Mode, mstatus: u64): Translated
    requires leaf.AtLeaf? && leaf.level < 5
  {
    if CheckPermissions(leaf.pte, access, mode, mstatus).Err? || !Aligned(PtePpn(leaf.pte), leaf.level) then
      Translated(Err(PageFault(access)), p)
    else
      var updated := Touched(leaf.pte, access);
      var pa := PhysicalAddress(leaf.pte, leaf.level, va);
      if updated == leaf.pte then Translated(Ok(pa), p)
      else
        match Write64At(p, leaf.addr, updated)
        case None => Translated(Err(PageFault(access)), p)
        case Some(p') => Translated(Ok(pa), p')
  }

  function Root(satp: u64): (base: nat)
    ensures base < 0x100_0000_0000_0000
  {
    satp % 0x1000_0000_0000 * 0x1000
  }

  /** A walk of `levels` levels: 3, 4 and 5 are Sv39, Sv48 and Sv57. */
  function Walk(p: Phys, levels: nat, va: u64, access: AccessType, mode: Mode, satp: u64, mstatus: u64): Translated
    requires 3 <= levels <= 5
  {
    if !Canonical(va, levels) then Translated(Err(PageFault(access)), p)
    else
      DescendLevel(p, Root(satp), levels - 1, va);
      match Descend(p, Root(satp), levels - 1, va)
      case NoLeaf => Translated(Err(PageFault(access)), p)
      case AtLeaf(a, pte, l) => AtLeafEntry(p, AtLeaf(a, pte, l), va, access, mode, mstatus)
  }

  function EffectiveMode(mode: Mode, access: AccessType, mstatus: u64): Mode {
    if mode != Machine || access == Instruction || mstatus / 0x2_0000 % 2 == 0 then mode
    else
      var mpp := mstatus / 0x800 % 4;
      if mpp == 0 then User else if mpp == 1 then Supervisor else if mpp == 2 then Hypervisor else Machine
  }

  /** The number of levels selected by SATP.MODE; 0 for no translation. */
  function SatpMode(satp: u64): (m: nat) {
    satp / 0x1000_0000_0000_0000
  }

  /** One translation of any address in any mode. */
  function Translate(p: Phys, va: u64, access: AccessType, mode: Mode, satp: u64, mstatus: u64): Translated {
    var eff := EffectiveMode(mode, access, mstatus);
    var sm := SatpMode(satp);
    if eff == Machine || sm == 0 then Translated(Ok(va), p)
    else if sm == 8 then Walk(p, 3, va, access, eff, satp, mstatus)
    else if sm == 9 then Walk(p, 4, va, access, eff, satp, mstatus)
    else if sm == 10 then Walk(p, 5, va, access, eff, satp, mstatus)
    else Translated(Err(PageFault(access)), p)
  }

  // ----- What a descent depends on -----

  lemma {:induction false} DescendLevel(p: Phys, base: nat, level: nat, va: u64)
    requires level < 5 && base < 0x100_0000_0000_0000
    ensures var d := Descend(p, base, level, va);
      d.AtLeaf? ==> d.level <= level && Acceptable(d.pte) && IsLeaf(d.pte) && Word(p, d.addr) == Some(d.pte)
    decreases level
  {
    hide PtePpn, Vpn, Acceptable, IsLeaf;
    var w := Word(p, Entry(base, va, level));
    if w.Some? && Acceptable(w.value) && !IsLeaf(w.value) && level > 0 {
      DescendLevel(p, PtePpn(w.value) * 0x1000, level - 1, va);
    }
  }

  /** The same word up to A/D bits, or unreadable in both memories. */
  predicate SameWord(p: Phys, q: Phys, a: int) {
    match (Word(p, a), Word(q, a))
    case (None, None) => true
    case (Some(v), Some(w)) => SameButAD(v, w)
    case _ => false
  }

  predicate SameDescent(d: Descent, e: Descent) {
    match (d, e)
    case (NoLeaf, NoLeaf) => true
    case (AtLeaf(a, v, l), AtLeaf(b, w, k)) => a == b && l == k && SameButAD(v, w)
    case _ => false
  }

  /** A descent depends only on the words it visits, and not on their A/D bits. */
  lemma {:induction false} DescendLocal(p: Phys, q: Phys, base: nat, level: nat, va: u64)
    requires level < 5 && base < 0x100_0000_0000_0000
    requires forall a :: a in Visited(p, base, level, va) ==> SameWord(p, q, a)
    ensures Visited(q, base, level, va) == Visited(p, base, level, va)
    ensures SameDescent(Descend(p, base, level, va), Descend(q, base, level, va))
    decreases level
  {
    var a := Entry(base, va, level);
    assert a in Visited(p, base, level, va);
    var v, w := Word(p, a), Word(q, a);
    if v.Some? {
      SameButADFields(v.value, w.value);
      if Acceptable(v.value) && !IsLeaf(v.value) && level > 0 {
        var next := PtePpn(v.value) * 0x1000;
        assert forall b :: b in Visited(p, next, level - 1, va) ==> b in Visited(p, base, level, va);
        DescendLocal(p, q, next, level - 1, va);
      }
    }
  }

  /** Every visited entry but the last is a pointer to a further table. */
  predicate IsPointer(p: Phys, a: int) {
    Word(p, a).Some? && Acceptable(Word(p, a).value) && !IsLeaf(Word(p, a).value)
  }

  lemma {:induction false} VisitedPointers(p: Phys, base: nat, level: nat, va: u64, i: nat)
    requires level < 5 && base < 0x100_0000_0000_0000
    requires i < |Visited(p, base, level, va)| - 1
    ensures IsPointer(p, Visited(p, base, level, va)[i])
    decreases level
  {
    hide PtePpn, Vpn, Acceptable, IsLeaf;
    if i > 0 {
      VisitedPointers(p, PtePpn(Word(p, Entry(base, va, level)).value) * 0x1000, level - 1, va, i - 1);
    }
  }

  lemma {:induction false} VisitedLast(p: Phys, base: nat, level: nat, va: u64)
    requires level < 5 && base < 0x100_0000_0000_0000
    requires Descend(p, base, level, va).AtLeaf?
    ensures var s := Visited(p, base, level, va); s[|s| - 1] == Descend(p, base, level, va).addr
    decreases level
  {
    hide PtePpn, Vpn, Acceptable, IsLeaf;
    var a := Entry(base, va, level);
    if !IsLeaf(Word(p, a).value) {
      VisitedLast(p, PtePpn(Word(p, a).value) * 0x1000, level - 1, va);
    }
  }

  /** The leaf entry is the last one visited and aliases no earlier entry of the walk. */
  lemma LeafNotRevisited(p: Phys, base: nat, level: nat, va: u64)
    requires level < 5 && base < 0x100_0000_0000_0000
    requires Descend(p, base, level, va).AtLeaf?
    ensures var s := Visited(p, base, level, va);
      var leaf := Descend(p, base, level, va).addr;
      && s[|s| - 1] == leaf
      && leaf !in s[..|s| - 1]
  {
    VisitedLast(p, base, level, va);
    DescendLevel(p, base, level, va);
    forall i | 0 <= i < |Visited(p, base, level, va)| - 1
      ensures IsPointer(p, Visited(p, base, level, va)[i])
    {
      VisitedPointers(p, base, level, va, i);
    }
  }
}
