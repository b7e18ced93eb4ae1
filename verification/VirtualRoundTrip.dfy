/** What a store through paging writes is what a load through paging reads. */
module VirtualRoundTrip {
  import opened Words
  import opened Memory
  import opened PageTable
  import opened PagingLaws
  import opened VirtualAccess

  // ----- Settled translations -----

  /** The request translates to `pa` and has no A/D bit left to set. */
  predicate Settled(p: Phys, r: Request, pa: u64) {
    Perform(p, r) == Translated(Ok(pa), p)
  }

  lemma SettledAfter(p: Phys, r: Request)
    requires Perform(p, r).result.Ok?
    ensures Settled(Perform(p, r).mem, r, Perform(p, r).result.value)
  {
    hide Translate;
    TranslateIdempotent(p, r.va, r.access, r.mode, r.satp, r.mstatus);
  }

  /** The walk's words are the same in both memories up to A/D bits. */
  ghost predicate SameWalk(p: Phys, q: Phys, r: Request) {
    forall a :: a in Reads(p, r) ==> SameWord(p, q, a)
  }

  /** A request reads only its walk words, and ignores their A/D bits. */
  lemma SameWalkSameResult(p: Phys, q: Phys, r: Request)
    requires SameWalk(p, q, r) && p.rom == q.rom && |p.dram| == |q.dram|
    ensures Reads(q, r) == Reads(p, r) && Perform(q, r).result == Perform(p, r).result
  {
    hide Walk, Translate, EffectiveMode, SatpMode, SameWord, Canonical, Root, Visited;
    TranslateCases(p, r.va, r.access, r.mode, r.satp, r.mstatus);
    TranslateCases(q, r.va, r.access, r.mode, r.satp, r.mstatus);
    var n := Levels(r.access, r.mode, r.satp, r.mstatus);
    if n != 0 && Canonical(r.va, n) {
      DescendLocal(p, q, Root(r.satp), n - 1, r.va);
    }
    if n != 0 {
      WalkSameResult(p, q, n, r.va, r.access, EffectiveMode(r.mode, r.access, r.mstatus), r.satp, r.mstatus);
    }
  }

  lemma WalkSameResult(p: Phys, q: Phys, n: nat, va: u64, access: AccessType, mode: Mode, satp: u64, mstatus: u64)
    requires 3 <= n <= 5 && p.rom == q.rom && |p.dram| == |q.dram|
    requires Canonical(va, n) ==> SameDescent(Descend(p, Root(satp), n - 1, va), Descend(q, Root(satp), n - 1, va))
    ensures Walk(p, n, va, access, mode, satp, mstatus).result == Walk(q, n, va, access, mode, satp, mstatus).result
  {
    hide AtLeafEntry, Canonical, Descend, Root, Word, Acceptable, IsLeaf;
    DescendLevel(p, Root(satp), n - 1, va);
    DescendLevel(q, Root(satp), n - 1, va);
    var d, e := Descend(p, Root(satp), n - 1, va), Descend(q, Root(satp), n - 1, va);
    if d.AtLeaf? && Canonical(va, n) {
      AtLeafErasure(p, q, d, e, va, access, mode, mstatus);
    }
  }

  /** The leaf entry of a settled walk has every bit it needs. */
  lemma SettledLeaf(p: Phys, r: Request, pa: u64)
    requires Settled(p, r, pa) && Reads(p, r) != []
    ensures var w := Word(p, Last(Reads(p, r))); w.Some? && Touched(w.value, r.access) == w.value
  {
    hide Walk, Translate, EffectiveMode, SatpMode, Canonical, Root, Visited, Word, Touched;
    TranslateCases(p, r.va, r.access, r.mode, r.satp, r.mstatus);
    SettledWalkLeaf(p, Levels(r.access, r.mode, r.satp, r.mstatus), r.va, r.access,
      EffectiveMode(r.mode, r.access, r.mstatus), r.satp, r.mstatus);
  }

  lemma SettledWalkLeaf(p: Phys, n: nat, va: u64, access: AccessType, mode: Mode, satp: u64, mstatus: u64)
    requires 3 <= n <= 5
    requires var t := Walk(p, n, va, access, mode, satp, mstatus); t.result.Ok? && t.mem == p
    ensures var w := Word(p, Last(Visited(p, Root(satp), n - 1, va))); w.Some? && Touched(w.value, access) == w.value
  {
    hide Canonical, Descend, Visited, Word, Touched, Root, Write64At, CheckPermissions, Aligned, PhysicalAddress,
         Aligned8;
    var d := Descend(p, Root(satp), n - 1, va);
    LeafWord(p, satp, n - 1, va);
    if Touched(d.pte, access) != d.pte {
      WriteWordHere(p, d.addr, Touched(d.pte, access));
    }
  }

  /** A settled request stays settled when its walk words stay as they are, leaf included. */
  lemma SettledStays(p: Phys, q: Phys, r: Request, pa: u64)
    requires Settled(p, r, pa) && SameWalk(p, q, r) && p.rom == q.rom && |p.dram| == |q.dram|
    requires Reads(p, r) != [] ==> Word(q, Last(Reads(p, r))) == Word(p, Last(Reads(p, r)))
    ensures Settled(q, r, pa) && Reads(q, r) == Reads(p, r)
  {
    hide Translate, SameWord, Word, WalkWords, Touched, Write64At;
    SameWalkSameResult(p, q, r);
    TranslateFrame(q, r.va, r.access, r.mode, r.satp, r.mstatus);
    if Perform(q, r).mem != q {
      SettledLeaf(p, r, pa);
    }
  }

  lemma ReadsAligned(p: Phys, r: Request)
    ensures forall a :: a in Reads(p, r) ==> Aligned8(a)
  {
    hide Visited, Root, Aligned8, Canonical, EffectiveMode, SatpMode;
    RootAligned(r.satp);
    var n := Levels(r.access, r.mode, r.satp, r.mstatus);
    if n != 0 {
      VisitedAligned(p, Root(r.satp), n - 1, r.va);
    }
  }

  /** Any other translation leaves a settled store settled: its leaf has both bits already. */
  lemma SettledUnderTranslation(p: Phys, r: Request, pa: u64, s: Request)
    requires Settled(p, r, pa) && r.access == Store
    ensures var q := Perform(p, s).mem;
      && Settled(q, r, pa) && Reads(q, r) == Reads(p, r) && EqualButAD(p, q)
  {
    hide Translate, SameWord, Word, WalkWords, Touched, Write64At, Aligned8, PteA, PteD;
    var q := Perform(p, s).mem;
    EqualButADReflexive(p);
    TranslateErasure(p, p, s.va, s.access, s.mode, s.satp, s.mstatus);
    ReadsAligned(p, r);
    TranslateFrame(p, s.va, s.access, s.mode, s.satp, s.mstatus);
    if q != p && Reads(p, r) != [] {
      SettledLeaf(p, r, pa);
      var leaf, a := Last(Reads(p, r)), Last(Reads(p, s));
      TouchedSteps(Word(p, leaf).value, Store);
      TouchedSteps(Word(p, leaf).value, s.access);
      assert a != leaf;
      assert leaf in Reads(p, r);
      WriteWord(p, a, Touched(Word(p, a).value, s.access), leaf);
    }
    SettledStays(p, q, r, pa);
  }

  /** The byte at `x` lies outside the word at `a`. */
  predicate Misses(x: int, a: int) {
    !(a <= x < a + 8)
  }

  lemma ByteWriteElsewhere(p: Phys, x: int, b: u8, a: int)
    requires InDram(x) && WriteAt(p, x, 1, b).Some? && Misses(x, a)
    ensures Word(WriteAt(p, x, 1, b).value, a) == Word(p, a)
  {
    hide FromBytes, ToBytes, Pow256, Poke;
    if InDram(a) {
      PeekFrame(p.dram, WriteAt(p, x, 1, b).value.dram, a - DRAM_BASE, 8);
    }
  }

  lemma ByteReadBack(p: Phys, x: int, b: u8, y: int)
    requires InDram(x) && WriteAt(p, x, 1, b).Some?
    ensures ReadAt(WriteAt(p, x, 1, b).value, y, 1) == if y == x then Some(b) else ReadAt(p, y, 1)
  {
    hide FromBytes, ToBytes, Poke;
    if y == x {
      PeekPoke(p.dram, x - DRAM_BASE, 1, b);
      assert Pow256(1) == 0x100;
    } else if InDram(y) {
      PeekFrame(p.dram, WriteAt(p, x, 1, b).value.dram, y - DRAM_BASE, 1);
    }
  }

  /** A translation changes no byte outside the last word of its walk. */
  lemma TranslationKeepsByte(p: Phys, s: Request, x: int)
    requires Reads(p, s) != [] ==> Misses(x, Last(Reads(p, s)))
    ensures ReadAt(Perform(p, s).mem, x, 1) == ReadAt(p, x, 1)
  {
    hide Translate, Word, WalkWords, Touched, FromBytes, ToBytes, Poke;
    TranslateFrame(p, s.va, s.access, s.mode, s.satp, s.mstatus);
    var q := Perform(p, s).mem;
    if q != p && InDram(x) {
      PeekFrame(p.dram, q.dram, x - DRAM_BASE, 1);
    }
  }

  /** A settled store is also a settled load. */
  lemma SettledStoreLoads(p: Phys, c: Context, va: u64, pa: u64)
    requires Settled(p, Ask(c, va, Store), pa)
    ensures Settled(p, Ask(c, va, Load), pa)
  {
    StoreImpliesLoad(p, va, c.mode, c.satp, c.mstatus);
    TranslateFrame(p, va, Load, c.mode, c.satp, c.mstatus);
    SameContextSameReads(p, c, va);
    hide Translate, Word, WalkWords, Touched, Write64At, PteA, PteD;
    if Perform(p, Ask(c, va, Load)).mem != p {
      SettledLeaf(p, Ask(c, va, Store), pa);
      var w := Word(p, Last(Reads(p, Ask(c, va, Store)))).value;
      TouchedSteps(w, Store);
      TouchedSteps(w, Load);
    }
  }

  lemma SameContextSameReads(p: Phys, c: Context, va: u64)
    ensures Reads(p, Ask(c, va, Load)) == Reads(p, Ask(c, va, Store))
  {
    hide Visited, Canonical, SatpMode, Root;
  }

  /** Translation keeps the offset within a page. */
  lemma PageOffsetKept(p: Phys, r: Request)
    requires Perform(p, r).result.Ok?
    ensures Perform(p, r).result.value % 0x1000 == r.va % 0x1000
  {
    hide Translate, Walk, EffectiveMode, SatpMode;
    TranslateCases(p, r.va, r.access, r.mode, r.satp, r.mstatus);
    var n := Levels(r.access, r.mode, r.satp, r.mstatus);
    if n != 0 {
      WalkOffsetKept(p, n, r.va, r.access, EffectiveMode(r.mode, r.access, r.mstatus), r.satp, r.mstatus);
    }
  }

  lemma WalkOffsetKept(p: Phys, n: nat, va: u64, access: AccessType, mode: Mode, satp: u64, mstatus: u64)
    requires 3 <= n <= 5 && Walk(p, n, va, access, mode, satp, mstatus).result.Ok?
    ensures Walk(p, n, va, access, mode, satp, mstatus).result.value % 0x1000 == va % 0x1000
  {
    hide Canonical, Descend, Root, CheckPermissions, Touched, PhysicalAddress, PtePpn, Word, Aligned;
    var d := Descend(p, Root(satp), n - 1, va);
    DescendLevel(p, Root(satp), n - 1, va);
    AddressOffset(d.pte, d.level, va);
  }

  lemma AddressOffset(pte: u64, level: nat, va: u64)
    requires level < 5
    ensures PhysicalAddress(pte, level, va) % 0x1000 == va % 0x1000
  {
    OffsetLow(va, level);
    var off := Offset(va, level);
    hide PtePpn, Offset;
    DivModUnique(PtePpn(pte) * 0x1000 + off, 0x1000, PtePpn(pte) + off / 0x1000, off % 0x1000);
  }

  lemma OffsetLow(va: u64, level: nat)
    requires level < 5
    ensures Offset(va, level) % 0x1000 == va % 0x1000
  {
    if level == 1 { LowOf(va, 0x200); }
    else if level == 2 { LowOf(va, 0x4_0000); }
    else if level == 3 { LowOf(va, 0x800_0000); }
    else if level == 4 { LowOf(va, 0x10_0000_0000); }
  }

  lemma LowOf(va: nat, m: nat)
    requires m > 0
    ensures va % (0x1000 * m) % 0x1000 == va % 0x1000
  {
    var q, r := va / (0x1000 * m), va % (0x1000 * m);
    MulAssoc(0x1000, m, q);
    DivModUnique(va, 0x1000, m * q + r / 0x1000, r % 0x1000);
  }

  // ----- The byte path of a store -----

  /** The store translation of the i-th byte. */
  function Spot(c: Context, va: u64, i: nat): Request {
    Ask(c, WrappingAdd(va, i), Store)
  }

  function Target(p: Phys, c: Context, va: u64, i: nat): Result<u64, Exception> {
    Perform(p, Spot(c, va, i)).result
  }

  /** Byte i, where it lands, is a DRAM byte outside the entries that translating byte j reads. */
  ghost predicate Apart(p: Phys, c: Context, va: u64, i: nat, j: nat) {
    var t := Target(p, c, va, i);
    t.Ok? ==> InDram(t.value) && forall a :: a in Reads(p, Spot(c, va, j)) ==> Misses(t.value, a)
  }

  /** The written bytes are DRAM bytes, disjoint from the page-table words of the walks. */
  ghost predicate DataApart(p: Phys, c: Context, va: u64, n: nat) {
    forall i: nat, j: nat :: i < n && j < n ==> Apart(p, c, va, i, j)
  }

  /** Byte j has been written and its translation will not change memory again. */
  ghost predicate Done(p: Phys, m: Phys, c: Context, va: u64, b: u8, j: nat) {
    var t := Target(p, c, va, j);
    t.Ok? && Settled(m, Spot(c, va, j), t.value) && ReadAt(m, t.value, 1) == Some(b)
  }

  /** `m` is reached from `p` by storing the first `i` bytes of `bs`. */
  ghost predicate Progress(p: Phys, m: Phys, c: Context, va: u64, bs: seq<u8>, i: nat) {
    && i <= |bs|
    && p.rom == m.rom && |p.dram| == |m.dram|
    && (forall j: nat :: j < |bs| ==> SameWalk(p, m, Spot(c, va, j)))
    && (forall j: nat :: j < i ==> Done(p, m, c, va, bs[j], j))
  }

  lemma SameWalkTransitive(p: Phys, m: Phys, q: Phys, r: Request)
    requires SameWalk(p, m, r) && forall a :: a in Reads(p, r) ==> SameWord(m, q, a)
    ensures SameWalk(p, q, r)
  {
    hide WalkWords;
    forall a | a in Reads(p, r)
      ensures SameWord(p, q, a)
    {
      assert SameWord(p, m, a) && SameWord(m, q, a);
    }
  }

  /** Storing byte i leaves the walk of byte j alone. */
  lemma StoreKeepsWalk(p: Phys, m: Phys, c: Context, va: u64, i: nat, j: nat, b: u8)
    requires p.rom == m.rom && |p.dram| == |m.dram|
    requires SameWalk(p, m, Spot(c, va, i)) && SameWalk(p, m, Spot(c, va, j)) && Apart(p, c, va, i, j)
    requires var t := Perform(m, Spot(c, va, i)); t.result.Ok? && WriteAt(t.mem, t.result.value, 1, b).Some?
    ensures var t := Perform(m, Spot(c, va, i));
      SameWalk(p, WriteAt(t.mem, t.result.value, 1, b).value, Spot(c, va, j))
  {
    hide Translate, WalkWords, Word;
    var s := Spot(c, va, i);
    var t := Perform(m, s);
    SameWalkSameResult(p, m, s);
    EqualButADReflexive(m);
    TranslateErasure(m, m, s.va, s.access, s.mode, s.satp, s.mstatus);
    ReadsAligned(p, Spot(c, va, j));
    SameWalkTransitive(p, m, t.mem, Spot(c, va, j));
    var q := WriteAt(t.mem, t.result.value, 1, b).value;
    forall a | a in Reads(p, Spot(c, va, j))
      ensures SameWord(t.mem, q, a)
    {
      ByteWriteElsewhere(t.mem, t.result.value, b, a);
      SameWordReflexive(t.mem, a);
    }
    SameWalkTransitive(p, t.mem, q, Spot(c, va, j));
  }

  /** A byte write outside the walk keeps a settled request settled. */
  lemma SettledUnderWrite(m: Phys, r: Request, pa: u64, x: int, b: u8)
    requires Settled(m, r, pa) && InDram(x) && WriteAt(m, x, 1, b).Some?
    requires forall a :: a in Reads(m, r) ==> Misses(x, a)
    ensures Settled(WriteAt(m, x, 1, b).value, r, pa)
  {
    hide Translate, WalkWords, Word, Misses;
    var q := WriteAt(m, x, 1, b).value;
    forall a | a in Reads(m, r)
      ensures Word(q, a) == Word(m, a) && SameWord(m, q, a)
    {
      ByteWriteElsewhere(m, x, b, a);
      SameWordReflexive(m, a);
    }
    SettledStays(m, q, r, pa);
  }

  /** Storing byte i keeps byte j, already stored, done. */
  lemma StoreKeepsDone(p: Phys, m: Phys, c: Context, va: u64, bs: seq<u8>, i: nat, j: nat)
    requires Progress(p, m, c, va, bs, i) && j < i < |bs| <= 0x1000 && DataApart(p, c, va, |bs|)
    requires var t := Perform(m, Spot(c, va, i)); t.result.Ok? && WriteAt(t.mem, t.result.value, 1, bs[i]).Some?
    ensures var t := Perform(m, Spot(c, va, i));
      Done(p, WriteAt(t.mem, t.result.value, 1, bs[i]).value, c, va, bs[j], j)
  {
    hide Translate, WalkWords, Word, Misses;
    var s, r := Spot(c, va, i), Spot(c, va, j);
    var t := Perform(m, s);
    assert Done(p, m, c, va, bs[j], j) && SameWalk(p, m, s) && SameWalk(p, m, r);
    assert Apart(p, c, va, i, j) && Apart(p, c, va, j, i);
    var x := Target(p, c, va, j).value;
    SameWalkSameResult(p, m, s);
    SameWalkSameResult(p, m, r);
    SettledUnderTranslation(m, r, x, s);
    SettledUnderWrite(t.mem, r, x, t.result.value, bs[i]);
    if Reads(m, s) != [] {
      assert Last(Reads(m, s)) in Reads(p, s);
    }
    TranslationKeepsByte(m, s, x);
    DistinctTargets(m, c, va, i, j);
    ByteReadBack(t.mem, t.result.value, bs[i], x);
  }

  /** Bytes less than a page apart land at different addresses. */
  lemma DistinctTargets(m: Phys, c: Context, va: u64, i: nat, j: nat)
    requires j < i < 0x1000 && Target(m, c, va, i).Ok? && Target(m, c, va, j).Ok?
    ensures Target(m, c, va, i).value != Target(m, c, va, j).value
  {
    hide Translate;
    PageOffsetKept(m, Spot(c, va, i));
    PageOffsetKept(m, Spot(c, va, j));
    OffsetsDiffer(va, i, j);
  }

  lemma OffsetsDiffer(va: u64, i: nat, j: nat)
    requires j < i < 0x1000
    ensures WrappingAdd(va, i) % 0x1000 != WrappingAdd(va, j) % 0x1000
  {
    WrapLow(va + i);
    WrapLow(va + j);
    SmallGap(va + i, va + j);
  }

  lemma SmallGap(x: nat, y: nat)
    requires y < x < y + 0x1000
    ensures x % 0x1000 != y % 0x1000
  {
  }

  lemma WrapLow(x: nat)
    ensures x % TWO_64 % 0x1000 == x % 0x1000
  {
    LowOf(x, 0x10_0000_0000_0000);
  }

  /** The byte just stored is done. */
  lemma StoreDone(p: Phys, m: Phys, c: Context, va: u64, i: nat, b: u8)
    requires p.rom == m.rom && |p.dram| == |m.dram|
    requires SameWalk(p, m, Spot(c, va, i)) && Apart(p, c, va, i, i)
    requires var t := Perform(m, Spot(c, va, i)); t.result.Ok? && WriteAt(t.mem, t.result.value, 1, b).Some?
    ensures var t := Perform(m, Spot(c, va, i)); Done(p, WriteAt(t.mem, t.result.value, 1, b).value, c, va, b, i)
  {
    hide Translate, WalkWords, Word, Misses;
    var s := Spot(c, va, i);
    var t := Perform(m, s);
    SameWalkSameResult(p, m, s);
    SettledAfter(m, s);
    SettledUnderTranslationKeepsReads(m, s);
    SettledUnderWrite(t.mem, s, t.result.value, t.result.value, b);
    ByteReadBack(t.mem, t.result.value, b, t.result.value);
  }

  lemma SettledUnderTranslationKeepsReads(m: Phys, s: Request)
    ensures Reads(Perform(m, s).mem, s) == Reads(m, s)
  {
    hide Translate, WalkWords, SameWord, Aligned8;
    EqualButADReflexive(m);
    TranslateErasure(m, m, s.va, s.access, s.mode, s.satp, s.mstatus);
    ReadsAligned(m, s);
    SameWalkSameResult(m, Perform(m, s).mem, s);
  }

  lemma StoreBytesStep(m: Phys, c: Context, va: u64, v: nat, n: nat)
    requires n > 0
    ensures var t := Perform(m, Ask(c, va, Store));
      StoreBytes(m, c, va, v, n) ==
        if t.result.Err? then Stored(Err(t.result.error), t.mem)
        else
          var q := WriteAt(t.mem, t.result.value, 1, v % 0x100);
          if q.None? then Stored(Err(StoreAMOAccessFault), t.mem)
          else StoreBytes(q.value, c, WrappingAdd(va, 1), v / 0x100, n - 1)
  {
    hide Perform, WriteAt;
  }

  lemma StoreNothing(m: Phys, c: Context, va: u64, v: nat)
    ensures StoreBytes(m, c, va, v, 0) == Stored(Ok(()), m)
  {
  }

  lemma FirstByte(v: nat, n: nat)
    requires n > 0
    ensures ToBytes(v, n)[0] == v % 0x100 && ToBytes(v, n)[1..] == ToBytes(v / 0x100, n - 1)
  {
  }

  lemma {:induction false} StoreBytesProgress(p: Phys, m: Phys, c: Context, va: u64, bs: seq<u8>, i: nat, v: nat)
    requires |bs| <= 0x1000 && DataApart(p, c, va, |bs|) && Progress(p, m, c, va, bs, i)
    requires ToBytes(v, |bs| - i) == bs[i..]
    requires StoreBytes(m, c, WrappingAdd(va, i), v, |bs| - i).result.Ok?
    ensures Progress(p, StoreBytes(m, c, WrappingAdd(va, i), v, |bs| - i).mem, c, va, bs, |bs|)
    decreases |bs| - i
  {
    hide Perform, DataApart, Progress, WriteAt, StoreBytes, ToBytes;
    if i == |bs| {
      StoreNothing(m, c, WrappingAdd(va, i), v);
    } else {
      FirstByte(v, |bs| - i);
      StoreBytesStep(m, c, WrappingAdd(va, i), v, |bs| - i);
      assert bs[i] == bs[i..][0] == v % 0x100;
      assert bs[i + 1..] == bs[i..][1..] == ToBytes(v / 0x100, |bs| - i - 1);
      var t := Perform(m, Spot(c, va, i));
      assert WrappingAdd(WrappingAdd(va, i), 1) == WrappingAdd(va, i + 1);
      ProgressStep(p, m, c, va, bs, i);
      StoreBytesProgress(p, WriteAt(t.mem, t.result.value, 1, bs[i]).value, c, va, bs, i + 1, v / 0x100);
    }
  }

  lemma ProgressStep(p: Phys, m: Phys, c: Context, va: u64, bs: seq<u8>, i: nat)
    requires i < |bs| <= 0x1000 && DataApart(p, c, va, |bs|) && Progress(p, m, c, va, bs, i)
    requires var t := Perform(m, Spot(c, va, i)); t.result.Ok? && WriteAt(t.mem, t.result.value, 1, bs[i]).Some?
    ensures var t := Perform(m, Spot(c, va, i));
      Progress(p, WriteAt(t.mem, t.result.value, 1, bs[i]).value, c, va, bs, i + 1)
  {
    hide Translate, Apart, SameWalk, Done;
    var t := Perform(m, Spot(c, va, i));
    var q := WriteAt(t.mem, t.result.value, 1, bs[i]).value;
    SettledFrame(m, Spot(c, va, i));
    forall j: nat | j < |bs|
      ensures SameWalk(p, q, Spot(c, va, j))
    {
      assert Apart(p, c, va, i, j);
      StoreKeepsWalk(p, m, c, va, i, j, bs[i]);
    }
    forall j: nat | j < i + 1
      ensures Done(p, q, c, va, bs[j], j)
    {
      if j < i {
        StoreKeepsDone(p, m, c, va, bs, i, j);
      } else {
        assert Apart(p, c, va, i, i);
        StoreDone(p, m, c, va, i, bs[i]);
      }
    }
  }

  lemma SettledFrame(m: Phys, s: Request)
    ensures Perform(m, s).mem.rom == m.rom && |Perform(m, s).mem.dram| == |m.dram|
  {
    hide Translate, SameWord;
    EqualButADReflexive(m);
    TranslateErasure(m, m, s.va, s.access, s.mode, s.satp, s.mstatus);
  }
}
