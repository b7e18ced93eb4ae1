/** Table surgery that preserves translation: nesting a root one level deeper, and splitting a superpage. */
module PagingShapes {
  import opened Words
  import opened Memory
  import opened PageTable
  import opened PagingLaws

  // ----- A narrow address space inside a wider one -----

  /** The entry at `a` points to the table at `base`. */
  predicate PointsTo(p: Phys, a: int, base: nat) {
    IsPointer(p, a) && PtePpn(Word(p, a).value) * 0x1000 == base
  }

  /** The first and last entries of the wide root both point to the narrow root. */
  predicate Nested(p: Phys, wide: u64, narrow: u64) {
    PointsTo(p, Root(wide), Root(narrow)) && PointsTo(p, Root(wide) + 511 * 8, Root(narrow))
  }

  /** A canonical address of the narrow space uses only those two entries of the wide root. */
  lemma CanonicalWidens(va: u64, n: nat)
    requires 3 <= n <= 4 && Canonical(va, n)
    ensures Canonical(va, n + 1) && (Vpn(va, n) == 0 || Vpn(va, n) == 511)
  {
  }

  lemma DescendPointer(p: Phys, base: nat, level: nat, va: u64, next: nat)
    requires 0 < level < 5 && base < 0x100_0000_0000_0000
    requires PointsTo(p, base + Vpn(va, level) * 8, next)
    ensures Descend(p, base, level, va) == Descend(p, next, level - 1, va)
  {
    DescendStep(p, base, level, va);
    hide Descend, Vpn, PtePpn, PteV, PteR, PteW, PteX, Word;
  }

  lemma WalkNested(p: Phys, n: nat, va: u64, access: AccessType, mode: Mode, wide: u64, narrow: u64, mstatus: u64)
    requires 3 <= n <= 4 && Canonical(va, n) && Nested(p, wide, narrow)
    ensures Walk(p, n + 1, va, access, mode, wide, mstatus) == Walk(p, n, va, access, mode, narrow, mstatus)
  {
    hide Canonical, Descend, Root, Vpn, PointsTo, AtLeafEntry;
    CanonicalWidens(va, n);
    DescendPointer(p, Root(wide), n, va, Root(narrow));
  }

  /** An Sv48 root whose entries 0 and 511 lead to an Sv39 root, or an Sv57 root that leads so to an
      Sv48 root, translates every address of the narrower space exactly as the narrower root does. */
  lemma NestedRootTranslatesAlike(p: Phys, va: u64, access: AccessType, mode: Mode, wide: u64, narrow: u64,
      mstatus: u64)
    requires SatpMode(narrow) == 8 || SatpMode(narrow) == 9
    requires SatpMode(wide) == SatpMode(narrow) + 1
    requires Nested(p, wide, narrow) && Canonical(va, SatpMode(narrow) - 5)
    ensures Translate(p, va, access, mode, wide, mstatus) == Translate(p, va, access, mode, narrow, mstatus)
  {
    hide Walk, EffectiveMode, Canonical, Nested;
    WalkNested(p, SatpMode(narrow) - 5, va, access, EffectiveMode(mode, access, mstatus), wide, narrow, mstatus);
  }

  // ----- Splitting a superpage -----

  /** The entry of the fresh table that covers the i-th part of the superpage. */
  predicate IsPart(e: u64, pte: u64, level: nat, i: nat)
    requires level < 5
  {
    e % 0x400 == pte % 0x400 && PtePpn(e) == PtePpn(pte) + i * Frames(level)
  }

  predicate OutsidePage(b: int, t: nat) {
    !(t <= b < t + 0x1000)
  }

  /** `q` is `p` with the aligned level-`k` leaf at `a` replaced by a pointer to the table at `t`,
      whose 512 leaves cover the same frames one level down. */
  ghost predicate Split(p: Phys, q: Phys, a: int, pte: u64, k: nat, t: nat) {
    && 1 <= k < 5
    && Word(p, a) == Some(pte) && Acceptable(pte) && IsLeaf(pte) && Aligned(PtePpn(pte), k)
    && InDram(a) && InDram(t) && InDram(t + 0xFFF) && |q.dram| == |p.dram|
    && PointsTo(q, a, t)
    && (forall i: nat :: i < 512 ==> PartAt(q, pte, k, t, i))
    && (forall b :: Aligned8(b) && b != a && OutsidePage(b, t) ==> Word(q, b) == Word(p, b))
  }

  predicate PartAt(q: Phys, pte: u64, k: nat, t: nat, i: nat)
    requires 1 <= k < 5
  {
    var w := Word(q, t + i * 8);
    w.Some? && IsPart(w.value, pte, k - 1, i)
  }

  lemma LowBits(e: nat)
    ensures e % 0x40 == e % 0x400 % 0x40
  {
    var q, r := e / 0x400, e % 0x400;
    DivModUnique(e, 0x40, 0x10 * q + r / 0x40, r % 0x40);
  }

  lemma PartFields(e: u64, pte: u64)
    requires e % 0x400 == pte % 0x400
    ensures e % 0x40 == pte % 0x40
  {
    LowBits(e);
    LowBits(pte);
  }

  /** A superpage offset is a part number and an offset within the part. */
  lemma OffsetSplits(va: u64, k: nat)
    requires 1 <= k < 5
    ensures Offset(va, k) == Vpn(va, k - 1) * Frames(k - 1) * 0x1000 + Offset(va, k - 1)
  {
    if k == 1 { OffsetSplitsAt(va, 0x1000); }
    else if k == 2 { OffsetSplitsAt(va, 0x20_0000); }
    else if k == 3 { OffsetSplitsAt(va, 0x4000_0000); }
    else { OffsetSplitsAt(va, 0x80_0000_0000); }
  }

  lemma OffsetSplitsAt(va: nat, d: nat)
    requires d > 0
    ensures va % (0x200 * d) == va / d % 0x200 * d + va % d
  {
    var q, r := va / d, va % d;
    var q', r' := q / 0x200, q % 0x200;
    assert q == 0x200 * q' + r';
    MulDistributes3(d, q', r');
    MulBound(d, r');
    DivModUnique(va, 0x200 * d, q', r' * d + r);
  }

  lemma MulDistributes3(d: int, x: int, y: int)
    ensures d * (0x200 * x + y) == 0x200 * d * x + y * d
  {
  }

  lemma MulBound(d: int, r: int)
    requires d > 0 && 0 <= r < 0x200
    ensures 0 <= r * d <= 0x1FF * d
  {
  }

  lemma AlignedParts(ppn: nat, k: nat, i: nat)
    requires 1 <= k < 5 && Aligned(ppn, k)
    ensures Aligned(ppn + i * Frames(k - 1), k - 1)
  {
    if k == 2 { AlignedPartsAt(ppn, 0x200, i); }
    else if k == 3 { AlignedPartsAt(ppn, 0x4_0000, i); }
    else if k == 4 { AlignedPartsAt(ppn, 0x800_0000, i); }
  }

  lemma AlignedPartsAt(ppn: nat, d: nat, i: nat)
    requires d > 0 && ppn % (0x200 * d) == 0
    ensures (ppn + i * d) % d == 0
  {
    var q := ppn / (0x200 * d);
    MulDistributes3(d, q, i);
    DivModUnique(ppn + i * d, d, 0x200 * q + i, 0);
  }

  /** A part keeps the superpage's flags, permissions, alignment and physical addresses. */
  lemma PartAnswers(e: u64, pte: u64, k: nat, va: u64, access: AccessType, mode: Mode, mstatus: u64)
    requires 1 <= k < 5 && Aligned(PtePpn(pte), k)
    requires IsPart(e, pte, k - 1, Vpn(va, k - 1))
    ensures Acceptable(e) == Acceptable(pte) && IsLeaf(e) == IsLeaf(pte)
    ensures CheckPermissions(e, access, mode, mstatus) == CheckPermissions(pte, access, mode, mstatus)
    ensures Aligned(PtePpn(e), k - 1)
    ensures PhysicalAddress(e, k - 1, va) == PhysicalAddress(pte, k, va)
  {
    PartFields(e, pte);
    OffsetSplits(va, k);
    AlignedParts(PtePpn(pte), k, Vpn(va, k - 1));
    hide PtePpn, Vpn, Offset, Frames, Aligned;
  }

  /** In DRAM the write-back cannot fail, so the outcome is decided by permissions and alignment. */
  lemma DramLeafResult(p: Phys, d: Descent, va: u64, access: AccessType, mode: Mode, mstatus: u64)
    requires d.AtLeaf? && d.level < 5 && InDram(d.addr) && Word(p, d.addr).Some?
    ensures AtLeafEntry(p, d, va, access, mode, mstatus).result ==
      if CheckPermissions(d.pte, access, mode, mstatus).Err? || !Aligned(PtePpn(d.pte), d.level)
      then Err(PageFault(access))
      else Ok(PhysicalAddress(d.pte, d.level, va))
  {
    hide CheckPermissions, Aligned, PhysicalAddress, PtePpn, Touched, Poke, FromBytes;
  }

  /** Where a descent ends after the split. */
  ghost predicate SplitEnd(q: Phys, d: Descent, e: Descent, a: int, pte: u64, k: nat, va: u64)
    requires 1 <= k < 5
  {
    if d.AtLeaf? && d.addr == a
    then e.AtLeaf? && e.level == k - 1 && IsPart(e.pte, pte, k - 1, Vpn(va, k - 1)) && InDram(e.addr) &&
        Word(q, e.addr) == Some(e.pte)
    else e == d
  }

  /** The entry of the fresh table that covers the address is a leaf in DRAM. */
  lemma FreshPart(p: Phys, q: Phys, a: int, pte: u64, k: nat, t: nat, va: u64)
    requires Split(p, q, a, pte, k, t)
    ensures var e := Entry(t, va, k - 1);
      var w := Word(q, e);
      && w.Some? && IsPart(w.value, pte, k - 1, Vpn(va, k - 1)) && InDram(e) && Acceptable(w.value) && IsLeaf(w.value)
  {
    hide Vpn, Acceptable, IsLeaf, Word, IsPart, Aligned, PointsTo, PtePpn, OutsidePage, Aligned8;
    var i := Vpn(va, k - 1);
    assert PartAt(q, pte, k, t, i);
    PartAnswers(Word(q, t + i * 8).value, pte, k, va, Load, User, 0);
  }

  /** In the fresh table the descent stops at once, at the part that covers the address. */
  lemma FreshEnd(p: Phys, q: Phys, a: int, pte: u64, k: nat, t: nat, va: u64)
    requires Split(p, q, a, pte, k, t) && t < 0x100_0000_0000_0000
    ensures SplitEnd(q, AtLeaf(a, pte, k), Descend(q, t, k - 1, va), a, pte, k, va)
  {
    FreshPart(p, q, a, pte, k, t, va);
    hide Split, Descend, Vpn, Acceptable, IsLeaf, Word, IsPart, Aligned, PointsTo, PtePpn, CheckPermissions,
         PhysicalAddress, OutsidePage, Aligned8;
    DescendLeaf(q, t, k - 1, va);
  }

  lemma DescendLeaf(p: Phys, base: nat, level: nat, va: u64)
    requires level < 5 && base < 0x100_0000_0000_0000
    requires var w := Word(p, Entry(base, va, level)); w.Some? && Acceptable(w.value) && IsLeaf(w.value)
    ensures Descend(p, base, level, va) == AtLeaf(Entry(base, va, level), Word(p, Entry(base, va, level)).value, level)
  {
    hide Vpn, PtePpn, Acceptable, IsLeaf, Word;
  }

  /** The same non-pointer word ends both descents in the same way. */
  lemma DescendSameEnd(p: Phys, q: Phys, base: nat, level: nat, va: u64)
    requires level < 5 && base < 0x100_0000_0000_0000
    requires Word(p, Entry(base, va, level)) == Word(q, Entry(base, va, level))
    requires !IsPointer(p, Entry(base, va, level)) || level == 0
    ensures Descend(p, base, level, va) == Descend(q, base, level, va)
  {
    hide Vpn, PtePpn, Acceptable, IsLeaf, Word;
  }

  lemma SplitHere(p: Phys, q: Phys, a: int, pte: u64, k: nat, t: nat, base: nat, level: nat, va: u64)
    requires Split(p, q, a, pte, k, t) && t < 0x100_0000_0000_0000
    requires level < 5 && base < 0x100_0000_0000_0000 && Entry(base, va, level) == a
    requires Descend(p, base, level, va).AtLeaf? ==> Descend(p, base, level, va).level == k
    ensures SplitEnd(q, Descend(p, base, level, va), Descend(q, base, level, va), a, pte, k, va)
  {
    hide Descend, Vpn, Acceptable, IsLeaf, Word, Aligned, PointsTo, PtePpn, OutsidePage, Aligned8, PartAt, SplitEnd;
    DescendLeaf(p, base, level, va);
    DescendPointer(q, base, level, va, t);
    FreshEnd(p, q, a, pte, k, t, va);
  }

  lemma VisitedStep(p: Phys, base: nat, level: nat, va: u64)
    requires level < 5 && base < 0x100_0000_0000_0000
    ensures Entry(base, va, level) in Visited(p, base, level, va)
    ensures IsPointer(p, Entry(base, va, level)) && level > 0 ==>
      forall b :: b in Visited(p, PtePpn(Word(p, Entry(base, va, level)).value) * 0x1000, level - 1, va) ==>
        b in Visited(p, base, level, va)
  {
    hide Vpn, PtePpn, Acceptable, IsLeaf, Word;
  }

  lemma {:induction false} SplitDescend(p: Phys, q: Phys, a: int, pte: u64, k: nat, t: nat, base: nat, level: nat,
      va: u64)
    requires Split(p, q, a, pte, k, t) && t < 0x100_0000_0000_0000
    requires level < 5 && base < 0x100_0000_0000_0000 && Aligned8(base)
    requires forall b :: b in Visited(p, base, level, va) ==> OutsidePage(b, t)
    requires var d := Descend(p, base, level, va); d.AtLeaf? && d.addr == a ==> d.level == k
    ensures SplitEnd(q, Descend(p, base, level, va), Descend(q, base, level, va), a, pte, k, va)
    decreases level
  {
    hide Descend, Visited, Vpn, Acceptable, IsLeaf, Aligned, PtePpn, OutsidePage, Aligned8, PartAt, Word;
    var x := Entry(base, va, level);
    EntryAligned(base, va, level);
    VisitedStep(p, base, level, va);
    if x == a {
      DescendLeaf(p, base, level, va);
      SplitHere(p, q, a, pte, k, t, base, level, va);
    } else {
      assert Word(q, x) == Word(p, x);
      if !IsPointer(p, x) || level == 0 {
        DescendSameEnd(p, q, base, level, va);
        DescendNotAt(p, base, level, va, a);
      } else {
        var next := PtePpn(Word(p, x).value) * 0x1000;
        PageAligned(PtePpn(Word(p, x).value));
        DescendPointer(p, base, level, va, next);
        DescendPointer(q, base, level, va, next);
        SplitDescend(p, q, a, pte, k, t, next, level - 1, va);
      }
    }
  }

  lemma DescendNotAt(p: Phys, base: nat, level: nat, va: u64, a: int)
    requires level < 5 && base < 0x100_0000_0000_0000
    requires !IsPointer(p, Entry(base, va, level)) || level == 0
    requires Entry(base, va, level) != a
    ensures var d := Descend(p, base, level, va); !(d.AtLeaf? && d.addr == a)
  {
    hide Vpn, PtePpn, Acceptable, IsLeaf, Word;
  }

  /** Splitting an aligned superpage changes no translation: every address whose walk does not run
      through the fresh table gets the same physical address or the same fault as before. */
  lemma SuperpageSplitPreservesTranslation(p: Phys, q: Phys, a: int, pte: u64, k: nat, t: nat,
      n: nat, va: u64, access: AccessType, mode: Mode, satp: u64, mstatus: u64)
    requires Split(p, q, a, pte, k, t) && 3 <= n <= 5 && t < 0x100_0000_0000_0000
    requires forall b :: b in Visited(p, Root(satp), n - 1, va) ==> OutsidePage(b, t)
    requires var d := Descend(p, Root(satp), n - 1, va); d.AtLeaf? && d.addr == a ==> d.level == k
    ensures Walk(q, n, va, access, mode, satp, mstatus).result == Walk(p, n, va, access, mode, satp, mstatus).result
  {
    hide Descend, Visited, Root, Word, Canonical, AtLeafEntry, Acceptable, IsLeaf, Split, SplitEnd;
    RootAligned(satp);
    SplitDescend(p, q, a, pte, k, t, Root(satp), n - 1, va);
    DescendLevel(p, Root(satp), n - 1, va);
    DescendLevel(q, Root(satp), n - 1, va);
    SplitOutcome(p, q, a, pte, k, t, Descend(p, Root(satp), n - 1, va), Descend(q, Root(satp), n - 1, va), va, access,
        mode, mstatus);
  }

  lemma SplitOutcome(p: Phys, q: Phys, a: int, pte: u64, k: nat, t: nat, d: Descent, e: Descent,
      va: u64, access: AccessType, mode: Mode, mstatus: u64)
    requires Split(p, q, a, pte, k, t) && SplitEnd(q, d, e, a, pte, k, va)
    requires d.AtLeaf? ==> d.level < 5 && Word(p, d.addr) == Some(d.pte)
    requires d.AtLeaf? && d.addr == a ==> d.level == k
    ensures d.AtLeaf? == e.AtLeaf? && (e.AtLeaf? ==> e.level < 5)
    ensures d.AtLeaf? ==>
      AtLeafEntry(p, d, va, access, mode, mstatus).result == AtLeafEntry(q, e, va, access, mode, mstatus).result
  {
    hide Word, AtLeafEntry, IsPart, Acceptable, IsLeaf, CheckPermissions, PhysicalAddress, Aligned, PointsTo, PtePpn,
         PartAt, OutsidePage;
    if d.AtLeaf? {
      if d.addr == a {
        PartAnswers(e.pte, pte, k, va, access, mode, mstatus);
        DramLeafResult(p, d, va, access, mode, mstatus);
        DramLeafResult(q, e, va, access, mode, mstatus);
      } else {
        SameWordSameOutcome(p, q, d, va, access, mode, mstatus);
      }
    }
  }

  lemma SameWordSameOutcome(p: Phys, q: Phys, d: Descent, va: u64, access: AccessType, mode: Mode, mstatus: u64)
    requires d.AtLeaf? && d.level < 5 && |p.dram| == |q.dram|
    ensures AtLeafEntry(p, d, va, access, mode, mstatus).result == AtLeafEntry(q, d, va, access, mode, mstatus).result
  {
    hide CheckPermissions, Aligned, PhysicalAddress, PtePpn, Touched, Poke;
  }
}
