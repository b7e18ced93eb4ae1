/** Laws of address translation: A/D erasure, frame, idempotence, embedding, superpage splitting. */
module PagingLaws {
  import opened Words
  import opened Memory
  import opened PageTable

  // ----- Words of memory -----

  predicate Aligned8(a: int) {
    a % 8 == 0
  }

  /** Equal memories except for bits 6 and 7 of aligned words. */
  ghost predicate EqualButAD(p: Phys, q: Phys) {
    && p.rom == q.rom
    && |p.dram| == |q.dram|
    && forall a :: Aligned8(a) ==> SameWord(p, q, a)
  }

  lemma AlignedApart(a: int, b: int)
    requires Aligned8(a) && Aligned8(b) && a != b
    ensures a + 8 <= b || b + 8 <= a
  {
  }

  lemma WriteWordHere(p: Phys, a: int, v: u64)
    requires Write64At(p, a, v).Some?
    ensures Word(Write64At(p, a, v).value, a) == Some(v)
  {
    hide FromBytes, ToBytes, Poke, Pow256;
    PeekPoke(p.dram, a - DRAM_BASE, 8, v);
    WordBound();
    assert v % Pow256(8) == v;
  }

  lemma WriteWordElsewhere(p: Phys, a: int, v: u64, b: int)
    requires a + 8 <= b || b + 8 <= a
    requires Write64At(p, a, v).Some?
    ensures Word(Write64At(p, a, v).value, b) == Word(p, b)
  {
    hide FromBytes, ToBytes, Pow256, Poke;
    if InDram(b) {
      PeekFrame(p.dram, Write64At(p, a, v).value.dram, b - DRAM_BASE, 8);
    }
  }

  /** Writing an aligned word changes that word and no other. */
  lemma WriteWord(p: Phys, a: int, v: u64, b: int)
    requires Aligned8(a) && Aligned8(b) && Write64At(p, a, v).Some?
    ensures Word(Write64At(p, a, v).value, b) == if b == a then Some(v) else Word(p, b)
  {
    hide Word, Write64At;
    if b == a {
      WriteWordHere(p, a, v);
    } else {
      AlignedApart(a, b);
      WriteWordElsewhere(p, a, v, b);
    }
  }

  lemma PageAligned(frame: nat)
    ensures Aligned8(frame * 0x1000)
  {
    DivModUnique(frame * 0x1000, 8, frame * 0x200, 0);
  }

  lemma EntryAligned(base: nat, va: u64, level: nat)
    requires level < 5 && Aligned8(base)
    ensures Aligned8(Entry(base, va, level))
  {
    hide Vpn;
  }

  lemma {:induction false} VisitedAligned(p: Phys, base: nat, level: nat, va: u64)
    requires level < 5 && base < 0x100_0000_0000_0000 && Aligned8(base)
    ensures forall a :: a in Visited(p, base, level, va) ==> Aligned8(a)
    decreases level
  {
    EntryAligned(base, va, level);
    var w := Word(p, Entry(base, va, level));
    if w.Some? && Acceptable(w.value) && !IsLeaf(w.value) && level > 0 {
      var next := PtePpn(w.value) * 0x1000;
      PageAligned(PtePpn(w.value));
      hide Vpn, PtePpn, Acceptable, IsLeaf, Aligned8, Word;
      VisitedAligned(p, next, level - 1, va);
    }
  }

  lemma RootAligned(satp: u64)
    ensures Aligned8(Root(satp))
  {
    PageAligned(satp % 0x1000_0000_0000);
    hide Aligned8;
  }

  function Last(s: seq<nat>): nat
    requires |s| > 0
  {
    s[|s| - 1]
  }

  /** The leaf of a walk from a root table is an aligned word holding the entry. */
  lemma LeafWord(p: Phys, satp: u64, level: nat, va: u64)
    requires level < 5 && Descend(p, Root(satp), level, va).AtLeaf?
    ensures var d := Descend(p, Root(satp), level, va);
      Aligned8(d.addr) && d.level <= level && Word(p, d.addr) == Some(d.pte) &&
          d.addr == Last(Visited(p, Root(satp), level, va))
  {
    RootAligned(satp);
    VisitedAligned(p, Root(satp), level, va);
    VisitedLast(p, Root(satp), level, va);
    DescendLevel(p, Root(satp), level, va);
    hide Root, Descend, Visited, Word, Acceptable, IsLeaf, Aligned8;
    assert Descend(p, Root(satp), level, va).addr in Visited(p, Root(satp), level, va);
  }

  lemma EqualButADTransitive(p: Phys, q: Phys, r: Phys)
    requires EqualButAD(p, q) && EqualButAD(q, r)
    ensures EqualButAD(p, r)
  {
    forall a | Aligned8(a)
      ensures SameWord(p, r, a)
    {
      assert SameWord(p, q, a) && SameWord(q, r, a);
    }
  }

  lemma EqualButADSymmetric(p: Phys, q: Phys)
    requires EqualButAD(p, q)
    ensures EqualButAD(q, p)
  {
    forall a | Aligned8(a)
      ensures SameWord(q, p, a)
    {
      assert SameWord(p, q, a);
    }
  }

  // ----- The leaf's own step -----

  /** On refusal nothing changes; on success at most the leaf's own word does, by setting A and D. */
  lemma AtLeafFrame(p: Phys, d: Descent, va: u64, access: AccessType, mode: Mode, mstatus: u64, a: int)
    requires d.AtLeaf? && d.level < 5 && Aligned8(d.addr) && Aligned8(a) && Word(p, d.addr) == Some(d.pte)
    ensures var t := AtLeafEntry(p, d, va, access, mode, mstatus);
      && t.mem.rom == p.rom && |t.mem.dram| == |p.dram|
      && (t.result.Err? ==> t.mem == p && t.result.error == PageFault(access))
      && (t.result.Ok? ==> Word(t.mem, a) == if a == d.addr then Some(Touched(d.pte, access)) else Word(p, a))
  {
    hide Touched, CheckPermissions, PhysicalAddress, Aligned, PtePpn, Word;
    if Write64At(p, d.addr, Touched(d.pte, access)).Some? {
      WriteWord(p, d.addr, Touched(d.pte, access), a);
    }
  }

  lemma SameFieldsSameAnswer(v: u64, w: u64, level: nat, va: u64, access: AccessType, mode: Mode, mstatus: u64)
    requires SameButAD(v, w) && level < 5
    ensures CheckPermissions(v, access, mode, mstatus) == CheckPermissions(w, access, mode, mstatus)
    ensures PhysicalAddress(v, level, va) == PhysicalAddress(w, level, va) && PtePpn(v) == PtePpn(w)
  {
    SameButADFields(v, w);
    hide PteR, PteW, PteX, PteU, PteV, PtePpn, Offset;
  }

  /** Entries that differ only in A/D give the same outcome at the same place. */
  lemma AtLeafErasure(p: Phys, q: Phys, d: Descent, e: Descent, va: u64, access: AccessType, mode: Mode, mstatus: u64)
    requires p.rom == q.rom && |p.dram| == |q.dram|
    requires d.AtLeaf? && d.level < 5 && SameDescent(d, e)
    requires Word(p, d.addr) == Some(d.pte) && Word(q, e.addr) == Some(e.pte)
    ensures AtLeafEntry(p, d, va, access, mode, mstatus).result == AtLeafEntry(q, e, va, access, mode, mstatus).result
  {
    SameFieldsSameAnswer(d.pte, e.pte, d.level, va, access, mode, mstatus);
    LeafResult(p, d, va, access, mode, mstatus);
    LeafResult(q, e, va, access, mode, mstatus);
    hide AtLeafEntry, Touched, Aligned, PtePpn, CheckPermissions, PhysicalAddress, SameButAD, Word, InDram;
    if !InDram(d.addr) {
      SameOutsideDram(p, q, d.addr);
    }
  }

  /** The outcome at a leaf: permissions and alignment decide, and the write-back where it is needed outside DRAM. */
  lemma LeafResult(p: Phys, d: Descent, va: u64, access: AccessType, mode: Mode, mstatus: u64)
    requires d.AtLeaf? && d.level < 5 && Word(p, d.addr) == Some(d.pte)
    ensures AtLeafEntry(p, d, va, access, mode, mstatus).result ==
      if CheckPermissions(d.pte, access, mode, mstatus).Ok? && Aligned(PtePpn(d.pte), d.level)
         && (Touched(d.pte, access) == d.pte || InDram(d.addr))
      then Ok(PhysicalAddress(d.pte, d.level, va)) else Err(PageFault(access))
  {
    hide Touched, Aligned, PtePpn, CheckPermissions, PhysicalAddress, Write64At, Word;
    WrittenInDram(p, d.addr, Touched(d.pte, access));
  }

  /** A word that can be read in DRAM can be written there, and no word anywhere else. */
  lemma WrittenInDram(p: Phys, a: u64, v: u64)
    requires Word(p, a).Some?
    ensures Write64At(p, a, v).Some? == InDram(a)
  {
    hide Poke, FromBytes;
  }

  lemma SameOutsideDram(p: Phys, q: Phys, a: u64)
    requires p.rom == q.rom && !InDram(a)
    ensures Word(p, a) == Word(q, a)
  {
    hide FromBytes;
  }

  // ----- One translation -----

  /** The leaf that a translation ends at, when it walks at all. */
  function Levels(access: AccessType, mode: Mode, satp: u64, mstatus: u64): (n: nat)
    ensures n == 0 || 3 <= n <= 5
  {
    var sm := SatpMode(satp);
    if EffectiveMode(mode, access, mstatus) == Machine then 0
    else if sm == 8 then 3 else if sm == 9 then 4 else if sm == 10 then 5 else 0
  }

  /** The page-table words that a translation reads. */
  function WalkWords(p: Phys, va: u64, access: AccessType, mode: Mode, satp: u64, mstatus: u64): seq<nat> {
    var n := Levels(access, mode, satp, mstatus);
    if n == 0 || !Canonical(va, n) then [] else Visited(p, Root(satp), n - 1, va)
  }

  /** Walking in equal-but-A/D memories gives equal results and equal-but-A/D memories. */
  lemma WalkErasure(p: Phys, q: Phys, n: nat, va: u64, access: AccessType, mode: Mode, satp: u64, mstatus: u64)
    requires 3 <= n <= 5 && EqualButAD(p, q)
    ensures var s, t := Walk(p, n, va, access, mode, satp, mstatus), Walk(q, n, va, access, mode, satp, mstatus);
      s.result == t.result && EqualButAD(p, s.mem) && EqualButAD(s.mem, t.mem)
  {
    hide AtLeafEntry, Canonical, SameWord, Descend, Visited, Root, Aligned8, Word, Acceptable, IsLeaf;
    RootAligned(satp);
    var s, t := Walk(p, n, va, access, mode, satp, mstatus), Walk(q, n, va, access, mode, satp, mstatus);
    VisitedAligned(p, Root(satp), n - 1, va);
    DescendLocal(p, q, Root(satp), n - 1, va);
    WalkKeeps(p, n, va, access, mode, satp, mstatus);
    WalkKeeps(q, n, va, access, mode, satp, mstatus);
    EqualButADTransitive(p, q, t.mem);
    EqualButADSymmetric(p, s.mem);
    EqualButADTransitive(s.mem, p, t.mem);
    var d, e := Descend(p, Root(satp), n - 1, va), Descend(q, Root(satp), n - 1, va);
    DescendLevel(p, Root(satp), n - 1, va);
    DescendLevel(q, Root(satp), n - 1, va);
    if d.AtLeaf? {
      AtLeafErasure(p, q, d, e, va, access, mode, mstatus);
    }
  }

  lemma AtLeafKeeps(p: Phys, d: Descent, va: u64, access: AccessType, mode: Mode, mstatus: u64)
    requires d.AtLeaf? && d.level < 5 && Aligned8(d.addr) && Word(p, d.addr) == Some(d.pte)
    ensures EqualButAD(p, AtLeafEntry(p, d, va, access, mode, mstatus).mem)
  {
    hide AtLeafEntry, Touched, Word, SameButAD;
    var t := AtLeafEntry(p, d, va, access, mode, mstatus);
    TouchedBits(d.pte, access);
    AtLeafFrame(p, d, va, access, mode, mstatus, d.addr);
    forall a | Aligned8(a)
      ensures SameWord(p, t.mem, a)
    {
      AtLeafFrame(p, d, va, access, mode, mstatus, a);
      SameWordReflexive(p, a);
    }
  }

  lemma SameWordReflexive(p: Phys, a: int)
    ensures SameWord(p, p, a)
  {
  }

  lemma WalkKeeps(p: Phys, n: nat, va: u64, access: AccessType, mode: Mode, satp: u64, mstatus: u64)
    requires 3 <= n <= 5
    ensures EqualButAD(p, Walk(p, n, va, access, mode, satp, mstatus).mem)
  {
    hide AtLeafEntry, Canonical, Descend, Visited, Word, Acceptable, IsLeaf, Root, Aligned8, SameWord;
    var d := Descend(p, Root(satp), n - 1, va);
    EqualButADReflexive(p);
    if d.AtLeaf? {
      LeafWord(p, satp, n - 1, va);
      AtLeafKeeps(p, d, va, access, mode, mstatus);
    }
  }

  // ----- The laws of translate -----

  /** A translation is the identity, a fixed fault, or one walk. */
  lemma TranslateCases(p: Phys, va: u64, access: AccessType, mode: Mode, satp: u64, mstatus: u64)
    ensures var n, eff := Levels(access, mode, satp, mstatus), EffectiveMode(mode, access, mstatus);
      Translate(p, va, access, mode, satp, mstatus) ==
        if n != 0 then Walk(p, n, va, access, eff, satp, mstatus)
        else Translated(if eff == Machine || SatpMode(satp) == 0 then Ok(va) else Err(PageFault(access)), p)
  {
    hide Walk, EffectiveMode, SatpMode;
  }

  /** A/D erasure: memories that differ only in A/D bits translate alike and stay alike. */
  lemma TranslateErasure(p: Phys, q: Phys, va: u64, access: AccessType, mode: Mode, satp: u64, mstatus: u64)
    requires EqualButAD(p, q)
    ensures var s, t := Translate(p, va, access, mode, satp, mstatus), Translate(q, va, access, mode, satp, mstatus);
      s.result == t.result && EqualButAD(p, s.mem) && EqualButAD(s.mem, t.mem)
  {
    hide Walk, EffectiveMode, SatpMode, Translate, SameWord;
    TranslateCases(p, va, access, mode, satp, mstatus);
    TranslateCases(q, va, access, mode, satp, mstatus);
    var n := Levels(access, mode, satp, mstatus);
    if n != 0 {
      WalkErasure(p, q, n, va, access, EffectiveMode(mode, access, mstatus), satp, mstatus);
    } else {
      EqualButADReflexive(p);
    }
  }

  lemma EqualButADReflexive(p: Phys)
    ensures EqualButAD(p, p)
  {
  }

  /** One translation asked for by anyone: any mode, any root table. */
  datatype Request = Request(va: u64, access: AccessType, mode: Mode, satp: u64, mstatus: u64)

  function Perform(p: Phys, r: Request): Translated {
    Translate(p, r.va, r.access, r.mode, r.satp, r.mstatus)
  }

  /** The memory left by a sequence of translations. */
  function PerformAll(p: Phys, rs: seq<Request>): Phys
    decreases |rs|
  {
    if rs == [] then p else PerformAll(Perform(p, rs[0]).mem, rs[1..])
  }

  /** No sequence of translations changes the outcome of any other, however tables are shared. */
  lemma {:induction false} TranslationsDoNotInterfere(p: Phys, rs: seq<Request>, r: Request)
    ensures EqualButAD(p, PerformAll(p, rs))
    ensures Perform(PerformAll(p, rs), r).result == Perform(p, r).result
    decreases |rs|
  {
    hide Translate, SameWord;
    if rs == [] {
      EqualButADReflexive(p);
    } else {
      var q := Perform(p, rs[0]).mem;
      EqualButADReflexive(p);
      TranslateErasure(p, p, rs[0].va, rs[0].access, rs[0].mode, rs[0].satp, rs[0].mstatus);
      TranslationsDoNotInterfere(q, rs[1..], r);
      EqualButADTransitive(p, q, PerformAll(q, rs[1..]));
      TranslateErasure(p, q, r.va, r.access, r.mode, r.satp, r.mstatus);
    }
  }

  /** `q` is `p` with A (and D, on a store) set in the one entry at `a`, which lacked one of them. */
  predicate OneEntryTouched(p: Phys, q: Phys, a: int, access: AccessType) {
    && Aligned8(a)
    && Word(p, a).Some?
    && Touched(Word(p, a).value, access) != Word(p, a).value
    && Write64At(p, a, Touched(Word(p, a).value, access)) == Some(q)
  }

  lemma WalkFrame(p: Phys, n: nat, va: u64, access: AccessType, mode: Mode, satp: u64, mstatus: u64)
    requires 3 <= n <= 5
    ensures var t := Walk(p, n, va, access, mode, satp, mstatus);
      && (t.result.Err? ==> t.mem == p && t.result.error == PageFault(access))
      && (t.mem != p ==> Canonical(va, n) && OneEntryTouched(p, t.mem, Last(Visited(p, Root(satp), n - 1, va)), access))
  {
    hide Canonical, Descend, Visited, Word, Acceptable, IsLeaf, CheckPermissions, PhysicalAddress, Aligned, Touched,
         Write64At, PtePpn, Root, Aligned8;
    var d := Descend(p, Root(satp), n - 1, va);
    if d.AtLeaf? {
      LeafWord(p, satp, n - 1, va);
    }
  }

  /** A refused translation is the access's own page fault and changes nothing; an accepted one
      changes at most the last entry of its walk, by setting A and, on a store, D. */
  lemma TranslateFrame(p: Phys, va: u64, access: AccessType, mode: Mode, satp: u64, mstatus: u64)
    ensures var t := Translate(p, va, access, mode, satp, mstatus);
      var words := WalkWords(p, va, access, mode, satp, mstatus);
      && (t.result.Err? ==> t.mem == p && t.result.error == PageFault(access))
      && (t.mem != p ==> words != [] && OneEntryTouched(p, t.mem, Last(words), access))
  {
    hide Walk, EffectiveMode, SatpMode, Translate, OneEntryTouched, Canonical, Visited;
    TranslateCases(p, va, access, mode, satp, mstatus);
    var n := Levels(access, mode, satp, mstatus);
    if n != 0 {
      WalkFrame(p, n, va, access, EffectiveMode(mode, access, mstatus), satp, mstatus);
    }
  }

  /** Once an entry has been touched, touching it again writes nothing. */
  lemma AtLeafAgain(p: Phys, d: Descent, e: Descent, va: u64, access: AccessType, mode: Mode, mstatus: u64)
    requires d.AtLeaf? && d.level < 5 && Aligned8(d.addr) && Word(p, d.addr) == Some(d.pte)
    requires AtLeafEntry(p, d, va, access, mode, mstatus).result.Ok?
    requires SameDescent(d, e) && Word(AtLeafEntry(p, d, va, access, mode, mstatus).mem, e.addr) == Some(e.pte)
    ensures var q := AtLeafEntry(p, d, va, access, mode, mstatus).mem;
      AtLeafEntry(q, e, va, access, mode, mstatus) == AtLeafEntry(p, d, va, access, mode, mstatus)
  {
    AtLeafFrame(p, d, va, access, mode, mstatus, d.addr);
    TouchedBits(d.pte, access);
    TouchedSteps(e.pte, access);
    SameFieldsSameAnswer(d.pte, e.pte, d.level, va, access, mode, mstatus);
    hide Touched, Aligned, PtePpn, CheckPermissions, PhysicalAddress, SameButAD, Word, PteA, PteD;
  }

  lemma WalkAgain(p: Phys, n: nat, va: u64, access: AccessType, mode: Mode, satp: u64, mstatus: u64)
    requires 3 <= n <= 5
    requires Walk(p, n, va, access, mode, satp, mstatus).result.Ok?
    ensures var t := Walk(p, n, va, access, mode, satp, mstatus);
      Walk(t.mem, n, va, access, mode, satp, mstatus) == t
  {
    hide Canonical, Descend, Visited, Word, Acceptable, IsLeaf, AtLeafEntry, Root, Aligned8, SameWord;
    var q := Walk(p, n, va, access, mode, satp, mstatus).mem;
    WalkKeeps(p, n, va, access, mode, satp, mstatus);
    RootAligned(satp);
    VisitedAligned(p, Root(satp), n - 1, va);
    DescendLocal(p, q, Root(satp), n - 1, va);
    LeafWord(p, satp, n - 1, va);
    DescendLevel(q, Root(satp), n - 1, va);
    AtLeafAgain(p, Descend(p, Root(satp), n - 1, va), Descend(q, Root(satp), n - 1, va), va, access, mode, mstatus);
  }

  /** Repeating an accepted translation gives the same address and writes nothing. */
  lemma TranslateIdempotent(p: Phys, va: u64, access: AccessType, mode: Mode, satp: u64, mstatus: u64)
    requires Translate(p, va, access, mode, satp, mstatus).result.Ok?
    ensures var t := Translate(p, va, access, mode, satp, mstatus);
      Translate(t.mem, va, access, mode, satp, mstatus) == t
  {
    hide Walk, EffectiveMode, SatpMode, Translate;
    TranslateCases(p, va, access, mode, satp, mstatus);
    var q := Translate(p, va, access, mode, satp, mstatus).mem;
    TranslateCases(q, va, access, mode, satp, mstatus);
    if Levels(access, mode, satp, mstatus) != 0 {
      WalkAgain(p, Levels(access, mode, satp, mstatus), va, access, EffectiveMode(mode, access, mstatus), satp,
          mstatus);
    }
  }

  /** An entry that accepts a store accepts a load, because W without R is reserved. */
  lemma StoreEntryLoads(p: Phys, d: Descent, va: u64, mode: Mode, mstatus: u64)
    requires d.AtLeaf? && d.level < 5 && Word(p, d.addr) == Some(d.pte) && Acceptable(d.pte)
    requires AtLeafEntry(p, d, va, Store, mode, mstatus).result.Ok?
    ensures AtLeafEntry(p, d, va, Load, mode, mstatus).result == AtLeafEntry(p, d, va, Store, mode, mstatus).result
  {
    assert CheckPermissions(d.pte, Load, mode, mstatus).Ok?;
    TouchedSteps(d.pte, Store);
    TouchedSteps(d.pte, Load);
    hide Touched, Aligned, PtePpn, CheckPermissions, PhysicalAddress, PteA, PteD, PteR, PteW, PteX, PteV, Poke,
         FromBytes;
  }

  /** A virtual address that can be stored to can be loaded from, at the same physical address. */
  lemma StoreImpliesLoad(p: Phys, va: u64, mode: Mode, satp: u64, mstatus: u64)
    requires Translate(p, va, Store, mode, satp, mstatus).result.Ok?
    ensures Translate(p, va, Load, mode, satp, mstatus).result == Translate(p, va, Store, mode, satp, mstatus).result
  {
    hide Walk, SatpMode, Translate;
    TranslateCases(p, va, Store, mode, satp, mstatus);
    TranslateCases(p, va, Load, mode, satp, mstatus);
    assert EffectiveMode(mode, Store, mstatus) == EffectiveMode(mode, Load, mstatus);
    hide EffectiveMode;
    var n := Levels(Store, mode, satp, mstatus);
    if n != 0 {
      WalkStoreLoads(p, n, va, EffectiveMode(mode, Store, mstatus), satp, mstatus);
    }
  }

  lemma WalkStoreLoads(p: Phys, n: nat, va: u64, mode: Mode, satp: u64, mstatus: u64)
    requires 3 <= n <= 5 && Walk(p, n, va, Store, mode, satp, mstatus).result.Ok?
    ensures Walk(p, n, va, Load, mode, satp, mstatus).result == Walk(p, n, va, Store, mode, satp, mstatus).result
  {
    hide Canonical, Descend, Visited, Word, Acceptable, IsLeaf, AtLeafEntry;
    DescendLevel(p, Root(satp), n - 1, va);
    StoreEntryLoads(p, Descend(p, Root(satp), n - 1, va), va, mode, mstatus);
  }
}
