/** Address translation told by the bits of the entries, of SATP and of MSTATUS. */
module PagingMeaning {
  import opened Words
  import opened WordBits
  import opened Memory
  import opened PageTable
  import PL = PagingLaws

  // ----- The walk, as the list of entries it goes through -----

  /** The nine bits of the address that index a table whose entries are `level` levels above a page. */
  function IndexAt(va: u64, level: nat): nat { va / Pow2(12 + 9 * level) % 512 }

  /** The address of the table or page that an entry points to: bits 53 to 10, times 4096. */
  function Target(w: nat): nat { w / 1024 % 0x1000_0000_0000 * 4096 }

  predicate Points(w: nat) { Digit(w, 0) && !Digit(w, 1) && !Digit(w, 2) && !Digit(w, 3) }

  /** Bit 0 set, some of bits 1, 2 and 3 set, and not bit 2 without bit 1. */
  predicate EndsWalk(w: nat) {
    Digit(w, 0) && (Digit(w, 1) || Digit(w, 2) || Digit(w, 3)) && (Digit(w, 2) ==> Digit(w, 1))
  }

  /** `path` lists the addresses of the entries from the table at `base` to a leaf: each but the last holds a pointer to
      the table with the next. */
  predicate Leads(p: Phys, base: nat, level: nat, va: u64, path: seq<nat>)
    decreases level
  {
    && path != []
    && path[0] == base + 8 * IndexAt(va, level)
    && var w := ReadAt(p, path[0], 8);
    && w.Some?
    && if |path| == 1 then EndsWalk(w.value)
       else Points(w.value) && level > 0 && Leads(p, Target(w.value), level - 1, va, path[1..])
  }

  // ----- The rules at the leaf -----

  /** The privilege rule. A User access needs bit 4. A Supervisor access through an entry with bit 4 needs bit 18 of
      MSTATUS and must not be a fetch. A fetch needs bit 3; a Load bit 1, or bit 3 and bit 19 of MSTATUS; a Store bit
      2. */
  predicate Allows(w: nat, access: AccessType, mode: Mode, mstatus: nat) {
    && (mode == User ==> Digit(w, 4))
    && (mode == Supervisor && Digit(w, 4) ==> Digit(mstatus, 18) && access != Instruction)
    && match access
       case Instruction => Digit(w, 3)
       case Load => Digit(w, 1) || (Digit(w, 3) && Digit(mstatus, 19))
       case Store => Digit(w, 2)
  }

  /** The entry with bit 6 set, and bit 7 too for a Store. */
  function Marked(w: nat, access: AccessType): nat {
    w + (if Digit(w, 6) then 0 else 64) + (if access == Store && !Digit(w, 7) then 128 else 0)
  }

  /** The entry at `a` can be left as it is or written back into DRAM. */
  predicate CanMark(p: Phys, a: nat, w: nat, access: AccessType) {
    Marked(w, access) == w || (0x8000_0000 <= a < 0x1_0000_0000 && a - 0x8000_0000 + 8 <= |p.dram|)
  }

  /** The leaf at `a`, `level` levels above a page, translates the address to `pa`. */
  predicate Grants(p: Phys, va: u64, access: AccessType, mode: Mode, mstatus: nat, a: nat, level: nat, pa: nat) {
    var w := ReadAt(p, a, 8);
    && w.Some?
    && Allows(w.value, access, mode, mstatus)
    && Target(w.value) % Pow2(12 + 9 * level) == 0
    && CanMark(p, a, w.value, access)
    && pa == Target(w.value) + va % Pow2(12 + 9 * level)
  }

  /** All bits from the highest translated one on are equal. */
  predicate Extends(va: u64, levels: nat)
    requires levels <= 5
  {
    var top := va / Pow2(9 * levels + 11);
    top == 0 || top == Pow2(53 - 9 * levels) - 1
  }

  /** A walk of `levels` levels from the table that bits 43 to 0 of SATP give accepts the access and translates to
      `pa`. */
  ghost predicate Accepts(p: Phys, levels: nat, va: u64, access: AccessType, mode: Mode, satp: u64, mstatus: u64,
      pa: nat)
    requires 3 <= levels <= 5
  {
    && Extends(va, levels)
    && exists path: seq<nat> ::
        && Leads(p, satp % 0x1000_0000_0000 * 4096, levels - 1, va, path)
        && GrantsAtEnd(p, levels, va, access, mode, mstatus, path, pa)
  }

  predicate GrantsAtEnd(p: Phys, levels: nat, va: u64, access: AccessType, mode: Mode, mstatus: u64, path: seq<nat>,
    pa: nat)
  {
    0 < |path| <= levels && Grants(p, va, access, mode, mstatus, path[|path| - 1], levels - |path|, pa)
  }

  /** The privilege of an access: in M mode that of bits 12 and 11 of MSTATUS under bit 17, except for a fetch. */
  function Privilege(mode: Mode, access: AccessType, mstatus: u64): Mode {
    if mode == Machine && access != Instruction && Digit(mstatus, 17) then
      if mstatus / 2048 % 4 == 0 then User
      else if mstatus / 2048 % 4 == 1 then Supervisor
      else if mstatus / 2048 % 4 == 2 then Hypervisor
      else Machine
    else mode
  }

  // ----- The fields of the code as bits -----

  lemma LowPowers()
    ensures Pow2(0) == 1 && Pow2(1) == 2 && Pow2(2) == 4 && Pow2(3) == 8 && Pow2(4) == 16 && Pow2(5) == 32
    ensures Pow2(6) == 64 && Pow2(7) == 128 && Pow2(9) == 512 && Pow2(12) == 4096
  {
    SmallPowers();
    assert Pow2(2) == 2 * Pow2(1) && Pow2(3) == 2 * Pow2(2) && Pow2(4) == 2 * Pow2(3);
    assert Pow2(5) == 2 * Pow2(4) && Pow2(6) == 2 * Pow2(5) && Pow2(7) == 2 * Pow2(6);
    hide Pow2;
    PowerAdds(8, 1);
    PowerAdds(8, 4);
  }

  lemma HighPowers()
    ensures Pow2(17) == 0x2_0000 && Pow2(18) == 0x4_0000 && Pow2(19) == 0x8_0000 && Pow2(21) == 0x20_0000
    ensures Pow2(30) == 0x4000_0000 && Pow2(39) == 0x80_0000_0000 && Pow2(48) == 0x1_0000_0000_0000
  {
    LowPowers();
    hide Pow2;
    PowerAdds(12, 5);
    PowerAdds(12, 6);
    PowerAdds(12, 7);
    PowerAdds(12, 9);
    PowerAdds(21, 9);
    PowerAdds(30, 9);
    PowerAdds(39, 9);
  }

  lemma LowBit(w: nat, m: nat)
    requires m > 0 && 0x40 % (2 * m) == 0
    ensures w % 0x40 % (2 * m) >= m <==> w / m % 2 == 1
  {
    var q := 0x40 / (2 * m);
    var c, r := w / 0x40, w % 0x40;
    Remainders(w, m, q, c, r);
  }

  lemma Remainders(w: nat, m: nat, q: nat, c: nat, r: nat)
    requires m > 0 && 0x40 == 2 * m * q && w == 0x40 * c + r && r < 0x40
    ensures r % (2 * m) >= m <==> w / m % 2 == 1
  {
    var d, s := r / (2 * m), r % (2 * m);
    assert r == 2 * m * d + s;
    var e := if s >= m then 1 else 0;
    Regrouped(m, q, c, d, e, s);
    assert w == m * (2 * (q * c + d) + e) + (s - m * e);
    DivModUnique(w, m, 2 * (q * c + d) + e, s - m * e);
  }

  lemma Regrouped(m: nat, q: nat, c: nat, d: nat, e: nat, s: nat)
    ensures 2 * m * q * c + 2 * m * d + s == m * (2 * (q * c + d) + e) + (s - m * e)
  {
    assert 2 * m * q * c == m * (2 * (q * c));
    assert m * (2 * (q * c + d) + e) == m * (2 * (q * c)) + m * (2 * d) + m * e;
  }

  lemma EntryBits(w: u64)
    ensures PteV(w) == Digit(w, 0) && PteR(w) == Digit(w, 1) && PteW(w) == Digit(w, 2) && PteX(w) == Digit(w, 3)
    ensures PteU(w) == Digit(w, 4) && PteA(w) == Digit(w, 6) && PteD(w) == Digit(w, 7)
    ensures PtePpn(w) * 0x1000 == Target(w)
  {
    LowPowers();
    hide Pow2;
    LowBit(w, 1);
    LowBit(w, 2);
    LowBit(w, 4);
    LowBit(w, 8);
    LowBit(w, 16);
    DivTwice(w, 0x100, 4);
  }

  lemma IndexIs(va: u64, level: nat)
    requires level < 5
    ensures Vpn(va, level) == IndexAt(va, level) && Offset(va, level) == va % Pow2(12 + 9 * level)
  {
    LowPowers();
    HighPowers();
    hide Pow2;
  }

  lemma MstatusBits(mstatus: u64)
    ensures mstatus / 0x2_0000 % 2 != 0 <==> Digit(mstatus, 17)
    ensures mstatus / 0x4_0000 % 2 != 0 <==> Digit(mstatus, 18)
    ensures mstatus / 0x8_0000 % 2 != 0 <==> Digit(mstatus, 19)
  {
    HighPowers();
    hide Pow2;
  }

  lemma PermissionsAre(w: u64, access: AccessType, mode: Mode, mstatus: u64)
    ensures CheckPermissions(w, access, mode, mstatus).Ok? <==> Allows(w, access, mode, mstatus)
  {
    hide Digit, PteV, PteR, PteW, PteX, PteU, PteA, PteD, PtePpn;
    EntryBits(w);
    MstatusBits(mstatus);
  }

  lemma EndsIs(w: u64)
    ensures Acceptable(w) && IsLeaf(w) <==> EndsWalk(w)
    ensures Acceptable(w) && !IsLeaf(w) <==> Points(w)
  {
    hide Digit, PteV, PteR, PteW, PteX, PteU, PteA, PteD, PtePpn;
    EntryBits(w);
  }

  lemma MarkedIs(w: u64, access: AccessType)
    ensures Touched(w, access) == Marked(w, access)
  {
    hide Digit, PteV, PteR, PteW, PteX, PteU, PteA, PteD, PtePpn, Touched;
    EntryBits(w);
    TouchedSteps(w, access);
  }

  // ----- The walk of the code is the one path -----

  lemma {:induction false} PathIsDescent(p: Phys, base: nat, level: nat, va: u64, path: seq<nat>)
    requires level < 5 && base < 0x100_0000_0000_0000 && Leads(p, base, level, va, path)
    ensures |path| <= level + 1
    ensures var a := path[|path| - 1]; var w := ReadAt(p, a, 8);
      w.Some? && w.value < TWO_64 && Descend(p, base, level, va) == AtLeaf(a, w.value, level + 1 - |path|)
    decreases level
  {
    hide Digit, Acceptable, IsLeaf, PtePpn, Vpn, IndexAt, Points, EndsWalk, ReadAt;
    IndexIs(va, level);
    WordIs(p, path[0]);
    var w := Word(p, path[0]).value;
    EndsIs(w);
    EntryBits(w);
    DescendOnce(p, base, level, va);
    if |path| > 1 {
      assert path[1..][|path[1..]| - 1] == path[|path| - 1];
      PathIsDescent(p, Target(w), level - 1, va, path[1..]);
    }
  }

  lemma WordIs(p: Phys, a: int)
    ensures ReadAt(p, a, 8).Some? ==> Word(p, a) == ReadAt(p, a, 8)
    ensures Word(p, a).Some? ==> ReadAt(p, a, 8) == Some(Word(p, a).value)
  {
    hide ReadAt;
  }

  lemma DescendOnce(p: Phys, base: nat, level: nat, va: u64)
    requires level < 5 && base < 0x100_0000_0000_0000
    ensures var a := base + Vpn(va, level) * 8; var w := Word(p, a);
      Descend(p, base, level, va) ==
        if w.None? || !Acceptable(w.value) then NoLeaf
        else if IsLeaf(w.value) then AtLeaf(a, w.value, level)
        else if level == 0 then NoLeaf
        else Descend(p, PtePpn(w.value) * 0x1000, level - 1, va)
  {
    hide PtePpn, Vpn, Acceptable, IsLeaf, Word;
  }

  lemma {:induction false} DescentIsPath(p: Phys, base: nat, level: nat, va: u64) returns (path: seq<nat>)
    requires level < 5 && base < 0x100_0000_0000_0000 && Descend(p, base, level, va).AtLeaf?
    ensures Leads(p, base, level, va, path)
    decreases level
  {
    hide Digit, Acceptable, IsLeaf, PtePpn, Vpn, IndexAt, Points, EndsWalk, ReadAt, Word;
    IndexIs(va, level);
    var a := base + Vpn(va, level) * 8;
    WordIs(p, a);
    DescendOnce(p, base, level, va);
    var w := Word(p, a).value;
    EndsIs(w);
    EntryBits(w);
    if IsLeaf(w) {
      path := [a];
    } else {
      var rest := DescentIsPath(p, PtePpn(w) * 0x1000, level - 1, va);
      path := [a] + rest;
      assert path[1..] == rest;
    }
  }

  // ----- Alignment, write-back and canonical addresses -----

  lemma AlignedIs(w: u64, level: nat)
    requires level < 5
    ensures Aligned(PtePpn(w), level) <==> Target(w) % Pow2(12 + 9 * level) == 0
  {
    hide Digit, PtePpn, PteV, PteR, PteW, PteX, PteU, PteA, PteD, Target;
    EntryBits(w);
    LowPowers();
    HighPowers();
    hide Pow2;
    ScaledMultiple(PtePpn(w), Frames(level));
  }

  lemma ScaledMultiple(ppn: nat, n: nat)
    requires n > 0
    ensures ppn % n == 0 <==> ppn * 0x1000 % (0x1000 * n) == 0
  {
    var q, r := ppn / n, ppn % n;
    assert ppn == n * q + r;
    Rescaled(n, q, r);
    DivModUnique(ppn * 0x1000, 0x1000 * n, q, 0x1000 * r);
  }

  lemma Rescaled(n: nat, q: nat, r: nat)
    ensures (n * q + r) * 0x1000 == 0x1000 * n * q + 0x1000 * r
  {
    assert 0x1000 * n * q == 0x1000 * (n * q);
  }

  lemma CanMarkIs(p: Phys, a: u64, w: u64, access: AccessType)
    ensures Touched(w, access) == w || Write64At(p, a, Touched(w, access)).Some? <==> CanMark(p, a, w, access)
  {
    hide Touched, Marked, Poke;
    MarkedIs(w, access);
  }

  lemma CanonicalIs(va: u64, levels: nat)
    requires 3 <= levels <= 5
    ensures Canonical(va, levels) <==> Extends(va, levels)
  {
    TopPowers();
    hide Pow2;
    if levels == 3 {
      TopBits(va, 0x40_0000_0000, 0x400_0000);
    } else if levels == 4 {
      TopBits(va, 0x8000_0000_0000, 0x2_0000);
    } else {
      TopBits(va, 0x100_0000_0000_0000, 0x100);
    }
  }

  lemma TopPowers()
    ensures Pow2(38) == 0x40_0000_0000 && Pow2(47) == 0x8000_0000_0000 && Pow2(56) == 0x100_0000_0000_0000
    ensures Pow2(26) == 0x400_0000 && Pow2(17) == 0x2_0000 && Pow2(8) == 0x100
  {
    SmallPowers();
    LowPowers();
    HighPowers();
    hide Pow2;
    PowerAdds(21, 5);
    PowerAdds(30, 17);
    PowerAdds(39, 17);
    PowerAdds(21, 17);
  }

  lemma TopBits(va: u64, p: nat, q: nat)
    requires p > 0 && q > 1 && p * q == TWO_64
    ensures va < p || va >= TWO_64 - p <==> va / p == 0 || va / p == q - 1
  {
    var d, r := va / p, va % p;
    assert va == p * d + r;
    if va < p {
      DivModUnique(va, p, 0, va);
    }
    if va >= TWO_64 - p {
      LastMultiple(p, q);
      DivModUnique(va, p, q - 1, va - (TWO_64 - p));
    }
    if d == q - 1 {
      LastMultiple(p, q);
    }
  }

  lemma LastMultiple(p: nat, q: nat)
    requires q > 0 && p * q == TWO_64
    ensures p * (q - 1) == TWO_64 - p
  {
  }

  // ----- One walk -----

  lemma LeafIff(p: Phys, a: u64, w: u64, level: nat, va: u64, access: AccessType, mode: Mode, mstatus: u64, pa: nat)
    requires level < 5 && ReadAt(p, a, 8) == Some(w)
    ensures var r := AtLeafEntry(p, AtLeaf(a, w, level), va, access, mode, mstatus).result;
      r.Ok? && r.value == pa <==> Grants(p, va, access, mode, mstatus, a, level, pa)
  {
    hide Digit, CheckPermissions, Aligned, PtePpn, Touched, Write64At, Pow2, Allows, CanMark, ReadAt, Offset, Target;
    PermissionsAre(w, access, mode, mstatus);
    AlignedIs(w, level);
    CanMarkIs(p, a, w, access);
    EntryBits(w);
    IndexIs(va, level);
  }

  lemma WalkOfPath(p: Phys, levels: nat, va: u64, access: AccessType, mode: Mode, satp: u64, mstatus: u64, pa: nat,
    path: seq<nat>)
    requires 3 <= levels <= 5 && Canonical(va, levels) && Leads(p, Root(satp), levels - 1, va, path)
    ensures var r := Walk(p, levels, va, access, mode, satp, mstatus).result;
      r.Ok? && r.value == pa <==> GrantsAtEnd(p, levels, va, access, mode, mstatus, path, pa)
  {
    hide Canonical, Descend, AtLeafEntry, Leads, Grants, ReadAt;
    LeadsSome(p, Root(satp), levels - 1, va, path);
    PathIsDescent(p, Root(satp), levels - 1, va, path);
    var a := path[|path| - 1];
    LeafIff(p, a, ReadAt(p, a, 8).value, levels - |path|, va, access, mode, mstatus, pa);
  }

  lemma WalkIff(p: Phys, levels: nat, va: u64, access: AccessType, mode: Mode, satp: u64, mstatus: u64, pa: nat)
    requires 3 <= levels <= 5
    ensures var r := Walk(p, levels, va, access, mode, satp, mstatus).result;
      r.Ok? && r.value == pa <==> Accepts(p, levels, va, access, mode, satp, mstatus, pa)
  {
    hide Canonical, Extends, Descend, Leads, GrantsAtEnd, AtLeafEntry;
    CanonicalIs(va, levels);
    var base := Root(satp);
    if Canonical(va, levels) {
      if Descend(p, base, levels - 1, va).AtLeaf? {
        var path := DescentIsPath(p, base, levels - 1, va);
        WalkOfPath(p, levels, va, access, mode, satp, mstatus, pa, path);
      }
      hide Walk;
      forall path | Leads(p, base, levels - 1, va, path)
        ensures var r := Walk(p, levels, va, access, mode, satp, mstatus).result;
          r.Ok? && r.value == pa <==> GrantsAtEnd(p, levels, va, access, mode, mstatus, path, pa)
      {
        WalkOfPath(p, levels, va, access, mode, satp, mstatus, pa, path);
      }
    }
  }

  lemma LeadsSome(p: Phys, base: nat, level: nat, va: u64, path: seq<nat>)
    requires Leads(p, base, level, va, path)
    ensures |path| > 0
  {
  }

  // ----- Translation -----

  function Fault(access: AccessType): Exception {
    match access
    case Instruction => InstructionPageFault
    case Load => LoadPageFault
    case Store => StoreAMOPageFault
  }

  lemma PrivilegeIs(mode: Mode, access: AccessType, mstatus: u64)
    ensures EffectiveMode(mode, access, mstatus) == Privilege(mode, access, mstatus)
  {
    hide Digit;
    MstatusBits(mstatus);
  }

  lemma WalkFault(p: Phys, levels: nat, va: u64, access: AccessType, mode: Mode, satp: u64, mstatus: u64)
    requires 3 <= levels <= 5
    ensures var r := Walk(p, levels, va, access, mode, satp, mstatus).result; r.Err? ==> r.error == Fault(access)
  {
    hide Canonical, Descend, CheckPermissions, Aligned, PtePpn, Touched, Write64At, PhysicalAddress;
  }

  /** Translation is off for an access of M privilege and for mode 0 of SATP, and the address is then physical. Modes 8,
      9 and 10 walk three, four and five levels, and the access is accepted exactly when the walk accepts it; no other
      mode accepts anything. A refusal is the page fault of the access. */
  lemma TranslationIff(p: Phys, va: u64, access: AccessType, mode: Mode, satp: u64, mstatus: u64, pa: nat)
    ensures var r := Translate(p, va, access, mode, satp, mstatus).result;
      var e := Privilege(mode, access, mstatus);
      var s := satp / 0x1000_0000_0000_0000;
      && (r.Ok? && r.value == pa <==>
            if e == Machine || s == 0 then pa == va
            else if 8 <= s <= 10 then Accepts(p, s - 5, va, access, e, satp, mstatus, pa)
            else false)
      && (r.Err? ==> r.error == Fault(access))
  {
    hide Walk, Accepts, Digit, EffectiveMode, Privilege;
    PrivilegeIs(mode, access, mstatus);
    var e := Privilege(mode, access, mstatus);
    WalkIff(p, 3, va, access, e, satp, mstatus, pa);
    WalkIff(p, 4, va, access, e, satp, mstatus, pa);
    WalkIff(p, 5, va, access, e, satp, mstatus, pa);
    WalkFault(p, 3, va, access, e, satp, mstatus);
    WalkFault(p, 4, va, access, e, satp, mstatus);
    WalkFault(p, 5, va, access, e, satp, mstatus);
  }

  /** No User access is accepted through an entry whose bit 4 is clear: neither one from U mode nor a load or store from
      M mode with bit 17 of MSTATUS set and bits 12 and 11 clear. */
  lemma SupervisorPageRefusesUser(p: Phys, va: u64, access: AccessType, mode: Mode, satp: u64, mstatus: u64,
    path: seq<nat>)
    requires 8 <= satp / 0x1000_0000_0000_0000 <= 10
    requires mode == User ||
             (mode == Machine && access != Instruction && Digit(mstatus, 17) && mstatus / 2048 % 4 == 0)
    requires Leads(p, satp % 0x1000_0000_0000 * 4096, satp / 0x1000_0000_0000_0000 - 6, va, path)
    requires path != [] && ReadAt(p, path[|path| - 1], 8).Some? && !Digit(ReadAt(p, path[|path| - 1], 8).value, 4)
    ensures Translate(p, va, access, mode, satp, mstatus).result == Err(Fault(access))
  {
    hide Walk, Digit, Leads, Translate, ReadAt, Extends, Target, CanMark, Pow2;
    var r := Translate(p, va, access, mode, satp, mstatus).result;
    var levels := satp / 0x1000_0000_0000_0000 - 5;
    var pa := if r.Ok? then r.value else 0;
    TranslationIff(p, va, access, mode, satp, mstatus, pa);
    if r.Ok? {
      var other: seq<nat> :| Leads(p, satp % 0x1000_0000_0000 * 4096, levels - 1, va, other) &&
                   GrantsAtEnd(p, levels, va, access, User, mstatus, other, pa);
      OnePath(p, satp % 0x1000_0000_0000 * 4096, levels - 1, va, path, other);
    }
  }

  /** There is at most one path. */
  lemma {:induction false} OnePath(p: Phys, base: nat, level: nat, va: u64, s: seq<nat>, t: seq<nat>)
    requires Leads(p, base, level, va, s) && Leads(p, base, level, va, t)
    ensures s == t
    decreases level
  {
    hide Digit, IndexAt, Target, ReadAt;
    if |s| > 1 && |t| > 1 {
      OnePath(p, Target(ReadAt(p, s[0], 8).value), level - 1, va, s[1..], t[1..]);
      assert s == [s[0]] + s[1..] && t == [t[0]] + t[1..];
    } else {
      assert |s| == |t|;
      assert s[0] == t[0];
    }
  }

  /** An accepted access leaves its leaf entry with bit 6 set, with bit 7 set too after a Store, and otherwise as it
      was. */
  lemma LeafIsMarked(p: Phys, va: u64, access: AccessType, mode: Mode, satp: u64, mstatus: u64, path: seq<nat>)
    requires 8 <= satp / 0x1000_0000_0000_0000 <= 10 && Privilege(mode, access, mstatus) != Machine
    requires Leads(p, satp % 0x1000_0000_0000 * 4096, satp / 0x1000_0000_0000_0000 - 6, va, path) && path != []
    requires Translate(p, va, access, mode, satp, mstatus).result.Ok?
    ensures var a := path[|path| - 1];
      var w := ReadAt(p, a, 8);
      w.Some? && ReadAt(Translate(p, va, access, mode, satp, mstatus).mem, a, 8) == Some(Marked(w.value, access))
  {
    hide Digit, Leads, ReadAt, Canonical, CheckPermissions, Aligned, PtePpn, Touched, Marked, PhysicalAddress, Descend,
         Write64At, EffectiveMode, Privilege;
    PrivilegeIs(mode, access, mstatus);
    var levels := satp / 0x1000_0000_0000_0000 - 5;
    PathIsDescent(p, Root(satp), levels - 1, va, path);
    var a := path[|path| - 1];
    var w := ReadAt(p, a, 8).value;
    MarkedIs(w, access);
    var q := Write64At(p, a, Touched(w, access));
    if q.Some? {
      PL.WriteWordHere(p, a, Touched(w, access));
      WordIs(q.value, a);
    }
  }
}
