/** The fast path of an access is the byte path, and stores round-trip to loads. */
module FastPath {
  import opened Words
  import opened Memory
  import opened PageTable
  import opened PagingLaws
  import opened VirtualAccess
  import opened VirtualRoundTrip

  // ----- Neighbouring bytes of one page -----

  predicate SamePageBytes(va: u64, k: nat) {
    va % 0x1000 + k < 0x1000
  }

  /** Within a page, only the offset moves. */
  lemma SamePageDigits(va: u64, k: nat, level: nat)
    requires SamePageBytes(va, k) && level < 5
    ensures va + k < TWO_64
    ensures Vpn(va + k, level) == Vpn(va, level)
    ensures Offset(va + k, level) == Offset(va, level) + k
  {
    SamePageBound(va, k);
    if level == 0 { NextInBlock(va, k, 0x1000, 1); }
    else if level == 1 { NextInBlock(va, k, 0x20_0000, 0x200); }
    else if level == 2 { NextInBlock(va, k, 0x4000_0000, 0x4_0000); }
    else if level == 3 { NextInBlock(va, k, 0x80_0000_0000, 0x800_0000); }
    else { NextInBlock(va, k, 0x1_0000_0000_0000, 0x10_0000_0000); }
  }

  lemma SamePageBound(va: u64, k: nat)
    requires SamePageBytes(va, k)
    ensures va + k < TWO_64
  {
    var q := va / 0x1000;
    assert va == 0x1000 * q + va % 0x1000;
    assert q < 0x10_0000_0000_0000;
  }

  lemma NextInBlock(va: nat, k: nat, d: nat, m: nat)
    requires va % 0x1000 + k < 0x1000 && d == 0x1000 * m && m > 0
    ensures (va + k) / d == va / d && (va + k) % d == va % d + k
  {
    var q, r := va / d, va % d;
    LowOf(va, m);
    var s := r / 0x1000;
    assert r == 0x1000 * s + va % 0x1000;
    assert s < m;
    DivModUnique(va + k, d, q, r + k);
  }

  lemma SamePageCanonical(va: u64, k: nat, n: nat)
    requires SamePageBytes(va, k) && 3 <= n <= 5
    ensures va + k < TWO_64 && Canonical(va + k, n) == Canonical(va, n)
  {
    SamePageBound(va, k);
    var q := va / 0x1000;
    assert va == 0x1000 * q + va % 0x1000;
  }

  lemma {:induction false} SamePageDescend(p: Phys, base: nat, level: nat, va: u64, k: nat)
    requires level < 5 && base < 0x100_0000_0000_0000 && SamePageBytes(va, k) && va + k < TWO_64
    ensures Descend(p, base, level, va + k) == Descend(p, base, level, va)
    ensures Visited(p, base, level, va + k) == Visited(p, base, level, va)
    decreases level
  {
    hide Vpn, Offset, Acceptable, IsLeaf, Word, PtePpn, SamePageBytes;
    SamePageDigits(va, k, level);
    if IsPointer(p, Entry(base, va, level)) && level > 0 {
      SamePageDescend(p, PtePpn(Word(p, Entry(base, va, level)).value) * 0x1000, level - 1, va, k);
    }
  }

  lemma SamePageWalk(p: Phys, n: nat, va: u64, k: nat, access: AccessType, mode: Mode, satp: u64, mstatus: u64)
    requires 3 <= n <= 5 && SamePageBytes(va, k) && va + k < TWO_64
    ensures var s, t := Walk(p, n, va, access, mode, satp, mstatus), Walk(p, n, va + k, access, mode, satp, mstatus);
      && t.mem == s.mem
      && (s.result.Err? ==> t.result == s.result)
      && (s.result.Ok? ==> t.result.Ok? && t.result.value == s.result.value + k)
  {
    hide Canonical, Descend, Visited, Root, AtLeafEntry, SamePageBytes, Word, Acceptable, IsLeaf;
    SamePageCanonical(va, k, n);
    SamePageDescend(p, Root(satp), n - 1, va, k);
    DescendLevel(p, Root(satp), n - 1, va);
    var d := Descend(p, Root(satp), n - 1, va);
    if d.AtLeaf? {
      SamePageLeaf(p, d, va, k, access, mode, mstatus);
    }
  }

  lemma SamePageLeaf(p: Phys, d: Descent, va: u64, k: nat, access: AccessType, mode: Mode, mstatus: u64)
    requires d.AtLeaf? && d.level < 5 && SamePageBytes(va, k) && va + k < TWO_64
    ensures var s, t := AtLeafEntry(p, d, va, access, mode, mstatus), AtLeafEntry(p, d, va + k, access, mode, mstatus);
      && t.mem == s.mem
      && (s.result.Err? ==> t.result == s.result)
      && (s.result.Ok? ==> t.result.Ok? && t.result.value == s.result.value + k)
  {
    hide SamePageBytes, CheckPermissions, Aligned, Touched, PtePpn, Offset, Vpn, Write64At;
    SamePageDigits(va, k, d.level);
  }

  /** Two bytes of one page are translated alike, to neighbouring addresses, by the same walk. */
  lemma SamePage(p: Phys, c: Context, va: u64, k: nat, access: AccessType)
    requires SamePageBytes(va, k)
    ensures WrappingAdd(va, k) == va + k
    ensures var s, t := Perform(p, Ask(c, va, access)), Perform(p, Ask(c, WrappingAdd(va, k), access));
      && t.mem == s.mem
      && (s.result.Err? ==> t.result == s.result)
      && (s.result.Ok? ==> t.result.Ok? && t.result.value == s.result.value + k)
    ensures Reads(p, Ask(c, WrappingAdd(va, k), access)) == Reads(p, Ask(c, va, access))
  {
    hide Translate, Walk, EffectiveMode, SatpMode, Canonical, Visited, SamePageBytes, Root;
    SamePageBound(va, k);
    TranslateCases(p, va, access, c.mode, c.satp, c.mstatus);
    TranslateCases(p, va + k, access, c.mode, c.satp, c.mstatus);
    var n := Levels(access, c.mode, c.satp, c.mstatus);
    if n != 0 {
      SamePageCanonical(va, k, n);
      SamePageDescend(p, Root(c.satp), n - 1, va, k);
      SamePageWalk(p, n, va, k, access, EffectiveMode(c.mode, access, c.mstatus), c.satp, c.mstatus);
    }
  }

  // ----- Loads -----

  /** A read that stays within a page splits into its first byte and the rest. */
  lemma ReadSplit(m: Phys, a: u64, n: nat)
    requires n > 1 && a % 0x1000 + n <= 0x1000
    ensures ReadAt(m, a, n).Some? <==> ReadAt(m, a, 1).Some? && ReadAt(m, a + 1, n - 1).Some?
    ensures ReadAt(m, a, n).Some? ==>
            ReadAt(m, a, n).value == ReadAt(m, a, 1).value + 0x100 * ReadAt(m, a + 1, n - 1).value
  {
    SamePageRegion(a, n);
    hide FromBytes;
    if InRom(a) && a - MROM_BASE + n <= |m.rom| {
      PeekSplit(m.rom, a - MROM_BASE, n);
    } else if InDram(a) && a - DRAM_BASE + n <= |m.dram| {
      PeekSplit(m.dram, a - DRAM_BASE, n);
    }
  }

  lemma SamePageRegion(a: u64, n: nat)
    requires n > 1 && a % 0x1000 + n <= 0x1000
    ensures InRom(a + 1) == InRom(a) && InDram(a + 1) == InDram(a)
  {
    assert a == 0x1000 * (a / 0x1000) + a % 0x1000;
  }

  lemma PeekSplit(m: seq<u8>, o: nat, n: nat)
    requires n > 1 && o + n <= |m|
    ensures Peek(m, o, n).value == Peek(m, o, 1).value + 0x100 * Peek(m, o + 1, n - 1).value
  {
    var b := m[o..o + n];
    assert b[1..] == m[o + 1..o + n];
    assert m[o..o + 1] == [b[0]];
    assert FromBytes([b[0]]) == b[0] + 0x100 * FromBytes([]);
  }

  /** What a bus read in a settled page amounts to. */
  function Outcome(m: Phys, pa: u64, n: nat): Loaded {
    match ReadAt(m, pa, n)
    case None => Loaded(Err(LoadAccessFault), m)
    case Some(v) => Loaded(Ok(v), m)
  }

  lemma {:induction false} LoadBytesSettled(m: Phys, c: Context, va: u64, pa: u64, n: nat)
    requires n > 0 && WithinPage(va, n) && Settled(m, Ask(c, va, Load), pa)
    ensures LoadBytes(m, c, va, n) == Outcome(m, pa, n)
    decreases n
  {
    hide Translate, ReadAt, WalkWords;
    if n == 1 {
      assert LoadBytes(m, c, WrappingAdd(va, 1), 0) == Loaded(Ok(0), m);
    } else {
      PageOffsetKept(m, Ask(c, va, Load));
      SamePage(m, c, va, 1, Load);
      NextWithinPage(va, n);
      LoadBytesSettled(m, c, va + 1, pa + 1, n - 1);
      ReadSplit(m, pa, n);
    }
  }

  lemma NextWithinPage(va: u64, n: nat)
    requires n > 1 && WithinPage(va, n)
    ensures va + 1 < TWO_64 && WithinPage(va + 1, n - 1)
  {
    SamePageBound(va, 1);
    NextInBlock(va, 1, 0x1000, 1);
  }

  /** Translating once and reading n bytes equals translating and reading each byte. */
  lemma FastLoadIsByteLoad(p: Phys, c: Context, va: u64, n: nat)
    requires n > 0 && WithinPage(va, n)
    ensures LoadWhole(p, c, va, n) == LoadBytes(p, c, va, n)
  {
    hide Translate, WalkWords, ReadAt;
    var t := Perform(p, Ask(c, va, Load));
    if t.result.Ok? {
      SettledAfter(p, Ask(c, va, Load));
      LoadBytesSettled(t.mem, c, va, t.result.value, n);
    }
  }

  // ----- Stores -----

  /** A memory with `n` bytes of `v` stored at `pa`, or an access fault. */
  function Written(m: Phys, pa: u64, v: nat, n: nat): Stored {
    match WriteAt(m, pa, n, v)
    case None => Stored(Err(StoreAMOAccessFault), m)
    case Some(q) => Stored(Ok(()), q)
  }

  lemma PokeSplit(m: seq<u8>, o: nat, n: nat, v: nat)
    requires n > 0 && o + n <= |m|
    ensures Poke(m, o, n, v) == Poke(Poke(m, o, 1, v % 0x100), o + 1, n - 1, v / 0x100)
  {
    assert ToBytes(v, n) == [v % 0x100] + ToBytes(v / 0x100, n - 1);
    assert ToBytes(v % 0x100, 1) == [v % 0x100] + ToBytes(0, 0);
  }

  /** The bytes of a write are DRAM bytes outside the given words. */
  ghost predicate BytesApart(pa: u64, n: nat, words: seq<nat>) {
    && (forall x :: pa <= x < pa + n ==> InDram(x))
    && (forall x, a: nat :: pa <= x < pa + n && a in words ==> Misses(x, a))
  }

  lemma WriteSplit(m: Phys, pa: u64, v: nat, n: nat)
    requires n > 1 && InDram(pa) && InDram(pa + 1) && pa % 0x1000 + n <= 0x1000 && |m.dram| % 0x1000 == 0
    ensures WriteAt(m, pa, n, v).Some? <==> WriteAt(m, pa, 1, v % 0x100).Some?
    ensures WriteAt(m, pa, 1, v % 0x100).Some? ==>
      WriteAt(m, pa, n, v) == WriteAt(WriteAt(m, pa, 1, v % 0x100).value, pa + 1, n - 1, v / 0x100)
  {
    hide ToBytes, Poke;
    WholePages(pa - DRAM_BASE, n, |m.dram|);
    if pa - DRAM_BASE + n <= |m.dram| {
      PokeSplit(m.dram, pa - DRAM_BASE, n, v);
    }
  }

  /** Whole pages either hold all of an in-page access or none of it. */
  lemma WholePages(o: nat, n: nat, size: nat)
    requires n > 0 && o % 0x1000 + n <= 0x1000 && size % 0x1000 == 0
    ensures o + n <= size <==> o + 1 <= size
  {
    assert o == 0x1000 * (o / 0x1000) + o % 0x1000;
    assert size == 0x1000 * (size / 0x1000);
  }

  lemma {:induction false} StoreBytesSettled(m: Phys, c: Context, va: u64, pa: u64, v: nat, n: nat)
    requires n > 0 && WithinPage(va, n) && Settled(m, Ask(c, va, Store), pa) && |m.dram| % 0x1000 == 0
    requires BytesApart(pa, n, Reads(m, Ask(c, va, Store)))
    ensures StoreBytes(m, c, va, v, n) == Written(m, pa, v, n)
    decreases n
  {
    hide Translate, WalkWords, WriteNarrowAt, Write64At, Misses;
    var r := Ask(c, va, Store);
    if n == 1 {
      ByteOnly(m, pa, v);
      if WriteAt(m, pa, 1, v % 0x100).Some? {
        assert StoreBytes(WriteAt(m, pa, 1, v % 0x100).value, c, WrappingAdd(va, 1), v / 0x100, 0).result.Ok?;
      }
    } else {
      PageOffsetKept(m, r);
      assert InDram(pa) && InDram(pa + 1);
      WriteSplit(m, pa, v, n);
      if WriteAt(m, pa, 1, v % 0x100).Some? {
        var q := WriteAt(m, pa, 1, v % 0x100).value;
        SettledUnderByte(m, r, pa, v % 0x100);
        SamePage(q, c, va, 1, Store);
        NextWithinPage(va, n);
        StoreBytesSettled(q, c, va + 1, pa + 1, v / 0x100, n - 1);
      }
    }
  }

  lemma ByteOnly(m: Phys, pa: u64, v: nat)
    ensures WriteAt(m, pa, 1, v) == WriteAt(m, pa, 1, v % 0x100)
  {
    assert ToBytes(v, 1) == [v % 0x100] + ToBytes(v / 0x100, 0);
    assert ToBytes(v % 0x100, 1) == [v % 0x100] + ToBytes(0, 0);
  }

  lemma SettledUnderByte(m: Phys, r: Request, pa: u64, b: u8)
    requires Settled(m, r, pa) && InDram(pa) && WriteAt(m, pa, 1, b).Some?
    requires forall a :: a in Reads(m, r) ==> Misses(pa, a)
    ensures var q := WriteAt(m, pa, 1, b).value;
      Settled(q, r, pa) && Reads(q, r) == Reads(m, r) && |q.dram| == |m.dram|
  {
    hide Translate, WalkWords, Word, Misses;
    var q := WriteAt(m, pa, 1, b).value;
    SettledUnderWrite(m, r, pa, pa, b);
    forall a | a in Reads(m, r)
      ensures SameWord(m, q, a)
    {
      ByteWriteElsewhere(m, pa, b, a);
      SameWordReflexive(m, a);
    }
    SameWalkSameResult(m, q, r);
  }

  /** Within a page, the separation of the written bytes from the walk is that of n neighbouring bytes. */
  lemma DataApartInPage(p: Phys, c: Context, va: u64, n: nat)
    requires n > 0 && WithinPage(va, n) && DataApart(p, c, va, n) && Perform(p, Ask(c, va, Store)).result.Ok?
    ensures BytesApart(Perform(p, Ask(c, va, Store)).result.value, n, Reads(p, Ask(c, va, Store)))
  {
    hide Translate, WalkWords, Misses;
    var r := Ask(c, va, Store);
    var pa := Perform(p, r).result.value;
    SamePage(p, c, va, 0, Store);
    forall x | pa <= x < pa + n
      ensures InDram(x)
    {
      SamePage(p, c, va, x - pa, Store);
      assert Apart(p, c, va, x - pa, 0);
    }
    forall x, a: nat | pa <= x < pa + n && a in Reads(p, r)
      ensures Misses(x, a)
    {
      SamePage(p, c, va, x - pa, Store);
      assert Apart(p, c, va, x - pa, 0);
    }
  }

  /** Translating once and writing n bytes equals translating and writing each byte. */
  lemma FastStoreIsByteStore(p: Phys, c: Context, va: u64, v: nat, n: nat)
    requires n > 0 && WithinPage(va, n) && |p.dram| % 0x1000 == 0 && DataApart(p, c, va, n)
    ensures StoreWhole(p, c, va, v, n) == StoreBytes(p, c, va, v, n)
  {
    hide Translate, WalkWords, WriteAt, BytesApart;
    var r := Ask(c, va, Store);
    var t := Perform(p, r);
    if t.result.Ok? {
      SettledAfter(p, r);
      DataApartInPage(p, c, va, n);
      SettledUnderTranslationKeepsReads(p, r);
      SettledFrame(p, r);
      StoreBytesSettled(t.mem, c, va, t.result.value, v, n);
      FirstByteSettled(p, c, va, v, n);
    }
  }

  /** The first byte's translation may as well have been made beforehand. */
  lemma FirstByteSettled(p: Phys, c: Context, va: u64, v: nat, n: nat)
    requires n > 0 && Perform(p, Ask(c, va, Store)).result.Ok?
    ensures StoreBytes(p, c, va, v, n) == StoreBytes(Perform(p, Ask(c, va, Store)).mem, c, va, v, n)
  {
    hide Translate, WriteAt;
    SettledAfter(p, Ask(c, va, Store));
  }

  // ----- The round trip -----

  lemma {:induction false} LoadBytesDone(p: Phys, m: Phys, c: Context, va: u64, bs: seq<u8>, i: nat)
    requires Progress(p, m, c, va, bs, |bs|) && i <= |bs|
    ensures LoadBytes(m, c, WrappingAdd(va, i), |bs| - i) == Loaded(Ok(FromBytes(bs[i..])), m)
    decreases |bs| - i
  {
    hide Translate, ReadAt, SameWalk;
    if i < |bs| {
      assert Done(p, m, c, va, bs[i], i);
      SettledStoreLoads(m, c, WrappingAdd(va, i), Target(p, c, va, i).value);
      LoadBytesDone(p, m, c, va, bs, i + 1);
      assert WrappingAdd(WrappingAdd(va, i), 1) == WrappingAdd(va, i + 1);
      assert bs[i..][0] == bs[i] && bs[i..][1..] == bs[i + 1..];
    }
  }

  /** A store that is accepted, to DRAM bytes outside its own page-table walks, is read back by a load of
      the same width at the same virtual address, across pages or not; that load changes nothing. */
  lemma StoreThenLoad(p: Phys, c: Context, va: u64, v: nat, n: nat)
    requires 0 < n <= 0x1000 && |p.dram| % 0x1000 == 0 && DataApart(p, c, va, n)
    requires StoreVa(p, c, va, v, n).result.Ok?
    ensures var q := StoreVa(p, c, va, v, n).mem;
      LoadVa(q, c, va, n) == Loaded(Ok(v % Pow256(n)), q)
  {
    hide Translate, ReadAt, WriteAt, SameWalk, Done, Apart, LoadWhole, StoreWhole, LoadBytes, StoreBytes;
    if WithinPage(va, n) {
      FastStoreIsByteStore(p, c, va, v, n);
    }
    var q := StoreBytes(p, c, va, v, n).mem;
    var bs := ToBytes(v, n);
    assert bs[0..] == bs;
    NoProgressYet(p, c, va, bs);
    StoreBytesProgress(p, p, c, va, bs, 0, v);
    LoadBytesDone(p, q, c, va, bs, 0);
    FromToBytes(v, n);
    if WithinPage(va, n) {
      FastLoadIsByteLoad(q, c, va, n);
    }
  }

  lemma NoProgressYet(p: Phys, c: Context, va: u64, bs: seq<u8>)
    ensures Progress(p, p, c, va, bs, 0)
  {
    hide WalkWords, Word;
    forall j: nat | j < |bs|
      ensures SameWalk(p, p, Spot(c, va, j))
    {
      forall a | a in Reads(p, Spot(c, va, j))
        ensures SameWord(p, p, a)
      {
        SameWordReflexive(p, a);
      }
    }
  }
}
