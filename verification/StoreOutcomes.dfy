/** Every outcome of a store, accepted or refused, and exactly what it leaves in memory. */
module StoreOutcomes {
  import opened Words
  import opened Memory
  import opened PageTable
  import opened PagingLaws
  import opened VirtualAccess
  import opened VirtualRoundTrip
  import opened FastPath

  // ----- What a caller can ask beforehand -----

  /** The byte at `va` can be stored: its translation is accepted, and not to a DRAM address past the end. */
  predicate Takes(p: Phys, c: Context, va: u64) {
    var t := Perform(p, Ask(c, va, Store)).result;
    t.Ok? && (InDram(t.value) ==> t.value - DRAM_BASE < |p.dram|)
  }

  /** The fault with which it is refused otherwise. */
  function Refusal(p: Phys, c: Context, va: u64): Exception {
    var t := Perform(p, Ask(c, va, Store)).result;
    if t.Err? then t.error else StoreAMOAccessFault
  }

  /** How many of the bytes from `va` lie before the end of its page. */
  function RestOfPage(va: u64): (k: nat)
    ensures 0 < k <= 0x1000
  {
    0x1000 - va % 0x1000
  }

  function NextPage(va: u64): u64 {
    WrappingAdd(va, RestOfPage(va))
  }

  /** The number of bytes that are stored: the two pages are asked in turn. */
  function Stops(p: Phys, c: Context, va: u64, n: nat): (k: nat) {
    if !Takes(p, c, va) then 0
    else if WithinPage(va, n) || Takes(p, c, NextPage(va)) then n
    else RestOfPage(va)
  }

  // ----- What is left in memory -----

  function PutByte(m: Phys, t: Result<u64, Exception>, b: u8): Phys {
    if t.Ok? && WriteAt(m, t.value, 1, b).Some? then WriteAt(m, t.value, 1, b).value else m
  }

  /** `p` with the first `k` bytes of `bs` in place, each where `p` translates its address to. */
  function Patched(p: Phys, c: Context, va: u64, bs: seq<u8>, k: nat): Phys
    requires k <= |bs|
  {
    if k == 0 then p else PutByte(Patched(p, c, va, bs, k - 1), Target(p, c, va, k - 1), bs[k - 1])
  }

  /** The store translations of the first `k` bytes. */
  function Spots(c: Context, va: u64, k: nat): (rs: seq<Request>)
    ensures |rs| == k
    ensures forall j :: 0 <= j < k ==> rs[j] == Spot(c, va, j)
  {
    seq(k, j requires 0 <= j => Spot(c, va, j))
  }

  lemma {:induction false} PerformAllAppend(p: Phys, rs: seq<Request>, r: Request)
    ensures PerformAll(p, rs + [r]) == Perform(PerformAll(p, rs), r).mem
    decreases |rs|
  {
    hide Translate;
    if rs == [] {
      assert [r][1..] == [];
    } else {
      assert (rs + [r])[1..] == rs[1..] + [r];
      PerformAllAppend(Perform(p, rs[0]).mem, rs[1..], r);
    }
  }

  lemma SpotsNext(p: Phys, c: Context, va: u64, k: nat)
    ensures PerformAll(p, Spots(c, va, k + 1)) == Perform(PerformAll(p, Spots(c, va, k)), Spot(c, va, k)).mem
  {
    hide Translate;
    assert Spots(c, va, k + 1) == Spots(c, va, k) + [Spot(c, va, k)];
    PerformAllAppend(p, Spots(c, va, k), Spot(c, va, k));
  }

  // ----- Translations and byte writes commute -----

  /** Translations do not move the walk of any request. */
  lemma PerformAllKeepsReads(m: Phys, rs: seq<Request>, r: Request)
    ensures var q := PerformAll(m, rs);
      && q.rom == m.rom && |q.dram| == |m.dram|
      && Reads(q, r) == Reads(m, r) && Perform(q, r).result == Perform(m, r).result
  {
    hide Translate, WalkWords, SameWord, Aligned8;
    TranslationsDoNotInterfere(m, rs, r);
    ReadsAligned(m, r);
    SameWalkSameResult(m, PerformAll(m, rs), r);
  }

  lemma PerformKeepsReads(m: Phys, s: Request, r: Request)
    ensures var q := Perform(m, s).mem;
      && q.rom == m.rom && |q.dram| == |m.dram|
      && Reads(q, r) == Reads(m, r) && Perform(q, r).result == Perform(m, r).result
  {
    hide Translate, WalkWords;
    PerformAllKeepsReads(m, [s], r);
    assert [s][1..] == [];
    assert PerformAll(Perform(m, s).mem, []) == Perform(m, s).mem;
  }

  /** An accepted translation writes its leaf exactly when the leaf lacks a bit. */
  lemma AcceptedWrites(m: Phys, s: Request)
    requires Perform(m, s).result.Ok? && Reads(m, s) != []
    ensures var a := Last(Reads(m, s));
      && Word(m, a).Some?
      && var w := Touched(Word(m, a).value, s.access);
         Some(Perform(m, s).mem) == if w == Word(m, a).value then Some(m) else Write64At(m, a, w)
  {
    hide Translate, WalkWords, Word, Touched, Write64At, Aligned8;
    TranslateFrame(m, s.va, s.access, s.mode, s.satp, s.mstatus);
    if Perform(m, s).mem == m {
      SettledLeaf(m, s, Perform(m, s).result.value);
    }
  }

  lemma PokesCommute(m: seq<u8>, o: nat, b: nat, x: nat, w: nat)
    requires o + 1 <= |m| && x + 8 <= |m| && !(x <= o < x + 8)
    ensures Poke(Poke(m, o, 1, b), x, 8, w) == Poke(Poke(m, x, 8, w), o, 1, b)
  {
    hide ToBytes;
    var r, s := Poke(Poke(m, o, 1, b), x, 8, w), Poke(Poke(m, x, 8, w), o, 1, b);
    forall i | 0 <= i < |m|
      ensures r[i] == s[i]
    {
      PokeAt(m, o, 1, b, i);
      PokeAt(m, x, 8, w, i);
      PokeAt(Poke(m, o, 1, b), x, 8, w, i);
      PokeAt(Poke(m, x, 8, w), o, 1, b, i);
    }
  }

  lemma PokeAt(m: seq<u8>, o: nat, n: nat, v: nat, i: nat)
    requires o + n <= |m| && i < |m|
    ensures Poke(m, o, n, v)[i] == if o <= i < o + n then ToBytes(v, n)[i - o] else m[i]
  {
  }

  predicate Stored1(m: Phys, x: int) {
    InDram(x) && x - DRAM_BASE < |m.dram|
  }

  /** Storing a byte outside the walk before or after translating is the same. */
  lemma WriteCommutes(m: Phys, s: Request, x: int, b: u8)
    requires Stored1(m, x) && forall a :: a in Reads(m, s) ==> Misses(x, a)
    ensures Stored1(Perform(m, s).mem, x)
    ensures var q := WriteAt(m, x, 1, b).value;
      Perform(q, s).result == Perform(m, s).result && Perform(q, s).mem == WriteAt(Perform(m, s).mem, x, 1, b).value
  {
    hide Translate, WalkWords, Word, Touched, Poke, Misses;
    var q := WriteAt(m, x, 1, b).value;
    forall a | a in Reads(m, s)
      ensures Word(q, a) == Word(m, a) && SameWord(m, q, a)
    {
      ByteWriteElsewhere(m, x, b, a);
      SameWordReflexive(m, a);
    }
    SameWalkSameResult(m, q, s);
    PerformKeepsReads(m, s, s);
    if Perform(m, s).result.Err? || Reads(m, s) == [] {
      TranslateFrame(m, s.va, s.access, s.mode, s.satp, s.mstatus);
      TranslateFrame(q, s.va, s.access, s.mode, s.satp, s.mstatus);
    } else {
      AcceptedWrites(m, s);
      AcceptedWrites(q, s);
      LeafAndByte(m, x, b, Last(Reads(m, s)), Touched(Word(m, Last(Reads(m, s))).value, s.access));
    }
  }

  lemma LeafAndByte(m: Phys, x: int, b: u8, a: int, w: nat)
    requires Stored1(m, x) && Misses(x, a)
    ensures Write64At(m, a, w).Some? ==>
              Write64At(WriteAt(m, x, 1, b).value, a, w) == WriteAt(Write64At(m, a, w).value, x, 1, b)
  {
    hide Poke;
    if Write64At(m, a, w).Some? {
      PokesCommute(m.dram, x - DRAM_BASE, b, a - DRAM_BASE, w);
    }
  }

  lemma {:induction false} WriteCommutesAll(m: Phys, rs: seq<Request>, x: int, b: u8)
    requires Stored1(m, x) && forall r :: r in rs ==> forall a :: a in Reads(m, r) ==> Misses(x, a)
    ensures Stored1(PerformAll(m, rs), x)
    ensures PerformAll(WriteAt(m, x, 1, b).value, rs) == WriteAt(PerformAll(m, rs), x, 1, b).value
    decreases |rs|
  {
    hide Translate, WalkWords, WriteAt, Misses;
    if rs != [] {
      var q := Perform(m, rs[0]).mem;
      WriteCommutes(m, rs[0], x, b);
      forall r | r in rs[1..]
        ensures forall a :: a in Reads(q, r) ==> Misses(x, a)
      {
        PerformKeepsReads(m, rs[0], r);
      }
      WriteCommutesAll(q, rs[1..], x, b);
    }
  }

  // ----- The byte path, byte by byte -----

  /** The first `k` bytes can be stored. */
  ghost predicate TakesAll(p: Phys, c: Context, va: u64, k: nat) {
    forall j: nat :: j < k ==> Takes(p, c, WrappingAdd(va, j))
  }

  /** Patching leaves every walk of the store where it was. */
  lemma {:induction false} PatchedKeepsReads(p: Phys, c: Context, va: u64, bs: seq<u8>, k: nat, j: nat)
    requires k <= |bs| && j < |bs| && DataApart(p, c, va, |bs|) && TakesAll(p, c, va, k)
    ensures var q := Patched(p, c, va, bs, k);
      && q.rom == p.rom && |q.dram| == |p.dram|
      && SameWalk(p, q, Spot(c, va, j))
      && Reads(q, Spot(c, va, j)) == Reads(p, Spot(c, va, j))
      && Perform(q, Spot(c, va, j)).result == Target(p, c, va, j)
    decreases k
  {
    hide Translate, WalkWords, Word, Misses, Poke;
    var q, r := Patched(p, c, va, bs, k), Spot(c, va, j);
    if k == 0 {
      forall a | a in Reads(p, r)
        ensures SameWord(p, q, a)
      {
        SameWordReflexive(p, a);
      }
    } else {
      var m := Patched(p, c, va, bs, k - 1);
      PatchedKeepsReads(p, c, va, bs, k - 1, j);
      assert Apart(p, c, va, k - 1, j) && Takes(p, c, WrappingAdd(va, k - 1));
      forall a | a in Reads(p, r)
        ensures SameWord(m, q, a)
      {
        ByteWriteElsewhere(m, Target(p, c, va, k - 1).value, bs[k - 1], a);
        SameWordReflexive(m, a);
      }
      SameWalkTransitive(p, m, q, r);
    }
    SameWalkSameResult(p, q, r);
  }

  /** The memory once `k` bytes have been stored and `t` of the bytes translated. */
  function Left(p: Phys, c: Context, va: u64, bs: seq<u8>, k: nat, t: nat): Phys
    requires k <= |bs|
  {
    PerformAll(Patched(p, c, va, bs, k), Spots(c, va, t))
  }

  lemma LeftReads(p: Phys, c: Context, va: u64, bs: seq<u8>, k: nat, t: nat, j: nat)
    requires k <= |bs| && j < |bs| && DataApart(p, c, va, |bs|) && TakesAll(p, c, va, k)
    ensures var q := Left(p, c, va, bs, k, t);
      && |q.dram| == |p.dram|
      && Reads(q, Spot(c, va, j)) == Reads(p, Spot(c, va, j))
      && Perform(q, Spot(c, va, j)).result == Target(p, c, va, j)
  {
    hide Translate, WalkWords, Patched, SameWalk;
    PatchedKeepsReads(p, c, va, bs, k, j);
    PerformAllKeepsReads(Patched(p, c, va, bs, k), Spots(c, va, t), Spot(c, va, j));
  }

  /** One more byte: translated and then written, or patched in first and translated later. */
  lemma LeftNext(p: Phys, c: Context, va: u64, bs: seq<u8>, k: nat)
    requires k < |bs| && DataApart(p, c, va, |bs|) && TakesAll(p, c, va, k + 1)
    ensures var x := Target(p, c, va, k);
      x.Ok? && WriteAt(Left(p, c, va, bs, k, k + 1), x.value, 1, bs[k]) == Some(Left(p, c, va, bs, k + 1, k + 1))
  {
    hide Translate, WalkWords, Poke, Misses, PerformAll;
    assert Takes(p, c, WrappingAdd(va, k)) && Apart(p, c, va, k, k);
    var m, x := Patched(p, c, va, bs, k), Target(p, c, va, k).value;
    PatchedKeepsReads(p, c, va, bs, k, k);
    forall r | r in Spots(c, va, k + 1)
      ensures forall a :: a in Reads(m, r) ==> Misses(x, a)
    {
      var j :| 0 <= j < k + 1 && r == Spot(c, va, j);
      assert Apart(p, c, va, k, j);
      PatchedKeepsReads(p, c, va, bs, k, j);
    }
    WriteCommutesAll(m, Spots(c, va, k + 1), x, bs[k]);
  }

  /** The byte path runs through the bytes that can be stored and stops at the first that cannot. */
  lemma {:induction false} StoreBytesOutcome(p: Phys, c: Context, va: u64, bs: seq<u8>, i: nat, k: nat, v: nat)
    requires i <= k <= |bs| && DataApart(p, c, va, |bs|) && TakesAll(p, c, va, k)
    requires k < |bs| ==> !Takes(p, c, WrappingAdd(va, k))
    requires ToBytes(v, |bs| - i) == bs[i..]
    ensures StoreBytes(Left(p, c, va, bs, i, i), c, WrappingAdd(va, i), v, |bs| - i) ==
            if k == |bs| then Stored(Ok(()), Left(p, c, va, bs, k, k))
            else Stored(Err(Refusal(p, c, WrappingAdd(va, k))), Left(p, c, va, bs, k, k + 1))
    decreases |bs| - i
  {
    hide Perform, Left, StoreBytes, WriteAt, ToBytes, DataApart, TakesAll, Takes, Refusal;
    if i == |bs| {
      StoreNothing(Left(p, c, va, bs, i, i), c, WrappingAdd(va, i), v);
    } else {
      FirstByte(v, |bs| - i);
      StoreBytesStep(Left(p, c, va, bs, i, i), c, WrappingAdd(va, i), v, |bs| - i);
      assert bs[i] == bs[i..][0] == v % 0x100;
      if i < k {
        assert bs[i + 1..] == bs[i..][1..] == ToBytes(v / 0x100, |bs| - i - 1);
        assert WrappingAdd(WrappingAdd(va, i), 1) == WrappingAdd(va, i + 1);
        TakenStep(p, c, va, bs, i, k);
        StoreBytesOutcome(p, c, va, bs, i + 1, k, v / 0x100);
      } else {
        RefusedStep(p, c, va, bs, i);
      }
    }
  }

  lemma TakenStep(p: Phys, c: Context, va: u64, bs: seq<u8>, i: nat, k: nat)
    requires i < k <= |bs| && DataApart(p, c, va, |bs|) && TakesAll(p, c, va, k)
    ensures var t := Perform(Left(p, c, va, bs, i, i), Ask(c, WrappingAdd(va, i), Store));
      t.result.Ok? && WriteAt(t.mem, t.result.value, 1, bs[i]) == Some(Left(p, c, va, bs, i + 1, i + 1))
  {
    hide Perform, Left, WriteAt, DataApart, Takes;
    LeftReads(p, c, va, bs, i, i, i);
    SpotsNextLeft(p, c, va, bs, i);
    LeftNext(p, c, va, bs, i);
  }

  lemma RefusedStep(p: Phys, c: Context, va: u64, bs: seq<u8>, i: nat)
    requires i < |bs| && DataApart(p, c, va, |bs|) && TakesAll(p, c, va, i) && !Takes(p, c, WrappingAdd(va, i))
    ensures var t := Perform(Left(p, c, va, bs, i, i), Ask(c, WrappingAdd(va, i), Store));
      && t.mem == Left(p, c, va, bs, i, i + 1)
      && (t.result.Err? ==> t.result.error == Refusal(p, c, WrappingAdd(va, i)))
      && (t.result.Ok? ==> Refusal(p, c, WrappingAdd(va, i)) == StoreAMOAccessFault
                           && WriteAt(t.mem, t.result.value, 1, bs[i]) == None)
  {
    hide Perform, Left, WriteAt, DataApart, TakesAll, Takes;
    LeftReads(p, c, va, bs, i, i, i);
    SpotsNextLeft(p, c, va, bs, i);
    RefusedHere(p, c, va, bs, i);
  }

  lemma SpotsNextLeft(p: Phys, c: Context, va: u64, bs: seq<u8>, k: nat)
    requires k <= |bs|
    ensures Left(p, c, va, bs, k, k + 1) == Perform(Left(p, c, va, bs, k, k), Spot(c, va, k)).mem
  {
    SpotsNext(Patched(p, c, va, bs, k), c, va, k);
  }

  lemma RefusedHere(p: Phys, c: Context, va: u64, bs: seq<u8>, k: nat)
    requires k < |bs| && DataApart(p, c, va, |bs|) && TakesAll(p, c, va, k) && !Takes(p, c, WrappingAdd(va, k))
    ensures Target(p, c, va, k).Ok? ==>
            WriteAt(Left(p, c, va, bs, k, k + 1), Target(p, c, va, k).value, 1, bs[k]) == None
  {
    hide Translate, WalkWords, Poke, Misses, Left;
    LeftReads(p, c, va, bs, k, k + 1, k);
  }

  // ----- Pages -----

  /** The bytes of one page are taken or refused together. */
  lemma SamePageTakes(p: Phys, c: Context, va: u64, k: nat)
    requires SamePageBytes(va, k) && |p.dram| % 0x1000 == 0
    ensures WrappingAdd(va, k) == va + k && Takes(p, c, WrappingAdd(va, k)) == Takes(p, c, va)
  {
    hide Translate;
    SamePage(p, c, va, k, Store);
    var t := Perform(p, Ask(c, va, Store)).result;
    if t.Ok? {
      PageOffsetKept(p, Ask(c, va, Store));
      SamePlace(t.value, k, |p.dram|);
    }
  }

  lemma SamePlace(x: u64, k: nat, size: nat)
    requires x % 0x1000 + k < 0x1000 && size % 0x1000 == 0
    ensures InDram(x + k) == InDram(x)
    ensures InDram(x) ==> (x + k - DRAM_BASE < size <==> x - DRAM_BASE < size)
  {
    assert x == 0x1000 * (x / 0x1000) + x % 0x1000;
    assert size == 0x1000 * (size / 0x1000);
  }

  lemma SecondPage(va: u64, j: nat)
    requires RestOfPage(va) <= j < 0x1000
    ensures SamePageBytes(NextPage(va), j - RestOfPage(va))
    ensures WrappingAdd(NextPage(va), j - RestOfPage(va)) == WrappingAdd(va, j)
  {
    var k := RestOfPage(va);
    WrapLow(va + k);
    assert (va + k) % 0x1000 == 0;
    WrapTwice(va + k, j - k);
  }

  lemma WrapTwice(x: int, y: int)
    ensures (x % TWO_64 + y) % TWO_64 == (x + y) % TWO_64
  {
  }

  /** The bytes before the stop can be stored, and the one at it cannot. */
  lemma StopsThere(p: Phys, c: Context, va: u64, n: nat)
    requires 0 < n <= 0x1000 && |p.dram| % 0x1000 == 0
    ensures var k := Stops(p, c, va, n);
      k <= n && TakesAll(p, c, va, k) && (k < n ==> !Takes(p, c, WrappingAdd(va, k)))
  {
    hide Takes;
    var k := Stops(p, c, va, n);
    forall j: nat | j < k
      ensures Takes(p, c, WrappingAdd(va, j))
    {
      if j < RestOfPage(va) {
        SamePageTakes(p, c, va, j);
      } else {
        SecondPage(va, j);
        SamePageTakes(p, c, NextPage(va), j - RestOfPage(va));
      }
    }
  }

  // ----- The outcome of every store -----

  /** A store is accepted exactly when every page it touches takes it. What it leaves is memory with the bytes
      up to the first refusing page in place, as the translations asked for until then leave it. */
  lemma StoreOutcome(p: Phys, c: Context, va: u64, v: nat, n: nat)
    requires 0 < n <= 0x1000 && |p.dram| % 0x1000 == 0 && DataApart(p, c, va, n)
    ensures Stops(p, c, va, n) <= n
    ensures var k := Stops(p, c, va, n);
      StoreVa(p, c, va, v, n) ==
        if k == n then Stored(Ok(()), Left(p, c, va, ToBytes(v, n), n, n))
        else Stored(Err(Refusal(p, c, WrappingAdd(va, k))), Left(p, c, va, ToBytes(v, n), k, k + 1))
  {
    hide StoreVa, StoreBytes, DataApart, TakesAll, Stops, Takes, Refusal, ToBytes, Left;
    var bs := ToBytes(v, n);
    StopsThere(p, c, va, n);
    StoreIsBytes(p, c, va, v, n);
    assert bs[0..] == bs;
    NothingLeft(p, c, va, bs);
    StoreBytesOutcome(p, c, va, bs, 0, Stops(p, c, va, n), v);
  }

  lemma StoreIsBytes(p: Phys, c: Context, va: u64, v: nat, n: nat)
    requires 0 < n && |p.dram| % 0x1000 == 0 && DataApart(p, c, va, n)
    ensures StoreVa(p, c, va, v, n) == StoreBytes(p, c, va, v, n)
  {
    hide DataApart, StoreBytes, StoreWhole;
    if WithinPage(va, n) {
      FastStoreIsByteStore(p, c, va, v, n);
    }
  }

  lemma NothingLeft(p: Phys, c: Context, va: u64, bs: seq<u8>)
    ensures Left(p, c, va, bs, 0, 0) == p && WrappingAdd(va, 0) == va
  {
  }

  // ----- All or nothing? -----

  /** The bytes that `Patched` has put in place, and all others. */
  lemma {:induction false} PatchedByte(p: Phys, c: Context, va: u64, bs: seq<u8>, k: nat, y: int)
    requires k <= |bs| <= 0x1000 && DataApart(p, c, va, |bs|) && TakesAll(p, c, va, k)
    ensures forall j: nat :: j < k && Target(p, c, va, j) == Ok(y) ==>
            ReadAt(Patched(p, c, va, bs, k), y, 1) == Some(bs[j])
    ensures (forall j: nat :: j < k ==> Target(p, c, va, j) != Ok(y)) ==>
            ReadAt(Patched(p, c, va, bs, k), y, 1) == ReadAt(p, y, 1)
    decreases k
  {
    hide Translate, WalkWords, ReadAt, Misses, WriteAt;
    if k > 0 {
      PatchedByte(p, c, va, bs, k - 1, y);
      var m, x := Patched(p, c, va, bs, k - 1), Target(p, c, va, k - 1);
      assert Takes(p, c, WrappingAdd(va, k - 1)) && Apart(p, c, va, k - 1, k - 1);
      PatchedKeepsReads(p, c, va, bs, k - 1, k - 1);
      PutHere(m, x.value, bs[k - 1]);
      ByteReadBack(m, x.value, bs[k - 1], y);
      forall j: nat | j < k - 1
        ensures Target(p, c, va, j) != x
      {
        assert Takes(p, c, WrappingAdd(va, j));
        DistinctTargets(p, c, va, k - 1, j);
      }
    }
  }

  lemma PutHere(m: Phys, x: u64, b: u8)
    requires Stored1(m, x)
    ensures WriteAt(m, x, 1, b) == Some(PutByte(m, Ok(x), b))
  {
  }

  lemma {:induction false} TranslationsKeepByte(m: Phys, rs: seq<Request>, x: int)
    requires forall r :: r in rs ==> forall a :: a in Reads(m, r) ==> Misses(x, a)
    ensures ReadAt(PerformAll(m, rs), x, 1) == ReadAt(m, x, 1)
    decreases |rs|
  {
    hide Translate, WalkWords, ReadAt, Misses;
    if rs != [] {
      var q := Perform(m, rs[0]).mem;
      TranslationKeepsByte(m, rs[0], x);
      forall r | r in rs[1..]
        ensures forall a :: a in Reads(q, r) ==> Misses(x, a)
      {
        PerformKeepsReads(m, rs[0], r);
      }
      TranslationsKeepByte(q, rs[1..], x);
    }
  }

  predicate Lies(m: Phys, x: Result<u64, Exception>, b: u8) {
    x.Ok? && ReadAt(m, x.value, 1) == Some(b)
  }

  /** Each of the first `k` bytes is in memory already. */
  ghost predicate AlreadyThere(p: Phys, c: Context, va: u64, bs: seq<u8>, k: nat)
    requires k <= |bs|
  {
    forall j: nat :: j < k ==> Lies(p, Target(p, c, va, j), bs[j])
  }

  lemma {:induction false} NothingToPatch(p: Phys, c: Context, va: u64, bs: seq<u8>, k: nat)
    requires k <= |bs| && DataApart(p, c, va, |bs|) && TakesAll(p, c, va, k) && AlreadyThere(p, c, va, bs, k)
    ensures Patched(p, c, va, bs, k) == p
    decreases k
  {
    hide Translate, ReadAt, WriteAt;
    if k > 0 {
      NothingToPatch(p, c, va, bs, k - 1);
      assert Takes(p, c, WrappingAdd(va, k - 1)) && Lies(p, Target(p, c, va, k - 1), bs[k - 1]) &&
          Apart(p, c, va, k - 1, k - 1);
      WriteSameByte(p, Target(p, c, va, k - 1).value, bs[k - 1]);
    }
  }

  lemma WriteSameByte(m: Phys, x: int, b: u8)
    requires Stored1(m, x) && ReadAt(m, x, 1) == Some(b)
    ensures WriteAt(m, x, 1, b) == Some(m)
  {
    var o := x - DRAM_BASE;
    assert m.dram[o..o + 1] == [m.dram[o]];
    assert FromBytes([m.dram[o]]) == m.dram[o] + 0x100 * FromBytes([]);
    assert ToBytes(b, 1) == [b] + ToBytes(0, 0);
    assert Poke(m.dram, o, 1, b) == m.dram;
  }

  /** Memory is as the translations alone would have left it exactly when nothing new was patched in. */
  lemma OnlyTranslatedIff(p: Phys, c: Context, va: u64, bs: seq<u8>, k: nat, t: nat)
    requires k <= |bs| <= 0x1000 && t <= |bs| && DataApart(p, c, va, |bs|) && TakesAll(p, c, va, k)
    ensures Left(p, c, va, bs, k, t) == PerformAll(p, Spots(c, va, t)) <==> AlreadyThere(p, c, va, bs, k)
  {
    hide Translate, WalkWords, ReadAt, WriteAt, Misses, Patched, PerformAll, Takes;
    if AlreadyThere(p, c, va, bs, k) {
      NothingToPatch(p, c, va, bs, k);
    } else {
      var j: nat :| j < k && !Lies(p, Target(p, c, va, j), bs[j]);
      assert Takes(p, c, WrappingAdd(va, j));
      TakenTarget(p, c, va, j);
      var x := Target(p, c, va, j).value;
      PatchedByte(p, c, va, bs, k, x);
      ByteSurvives(p, p, c, va, |bs|, t, j);
      forall i: nat | i < |bs|
        ensures Reads(Patched(p, c, va, bs, k), Spot(c, va, i)) == Reads(p, Spot(c, va, i))
      {
        PatchedKeepsReads(p, c, va, bs, k, i);
      }
      ByteSurvives(p, Patched(p, c, va, bs, k), c, va, |bs|, t, j);
    }
  }

  lemma TakenTarget(p: Phys, c: Context, va: u64, j: nat)
    requires Takes(p, c, WrappingAdd(va, j))
    ensures Target(p, c, va, j).Ok?
  {
  }

  lemma ByteSurvives(p: Phys, m: Phys, c: Context, va: u64, n: nat, t: nat, j: nat)
    requires j < n && t <= n && DataApart(p, c, va, n) && Target(p, c, va, j).Ok?
    requires forall i: nat :: i < n ==> Reads(m, Spot(c, va, i)) == Reads(p, Spot(c, va, i))
    ensures ReadAt(PerformAll(m, Spots(c, va, t)), Target(p, c, va, j).value, 1) ==
            ReadAt(m, Target(p, c, va, j).value, 1)
  {
    hide Translate, WalkWords, ReadAt, Misses, PerformAll;
    var x := Target(p, c, va, j).value;
    forall r | r in Spots(c, va, t)
      ensures forall a :: a in Reads(m, r) ==> Misses(x, a)
    {
      var i :| 0 <= i < t && r == Spot(c, va, i);
      assert Apart(p, c, va, j, i);
    }
    TranslationsKeepByte(m, Spots(c, va, t), x);
  }

  /** What a refused store leaves behind. Within a page, or when the first page refuses, it is what asking for
      the first translation leaves, equal to the old memory up to A and D. Otherwise the bytes of the first page
      stay written: memory is as translations alone leave it exactly when those bytes were there before. */
  lemma RefusedStore(p: Phys, c: Context, va: u64, v: nat, n: nat)
    requires 0 < n <= 0x1000 && |p.dram| % 0x1000 == 0 && DataApart(p, c, va, n)
    requires StoreVa(p, c, va, v, n).result.Err?
    ensures Stops(p, c, va, n) < n
    ensures var q := StoreVa(p, c, va, v, n).mem;
      if WithinPage(va, n) || !Takes(p, c, va) then
        q == Perform(p, Ask(c, va, Store)).mem && EqualButAD(p, q)
      else
        var k := RestOfPage(va);
        && k < n && !Takes(p, c, NextPage(va))
        && q == Left(p, c, va, ToBytes(v, n), k, k + 1)
        && EqualButAD(Patched(p, c, va, ToBytes(v, n), k), q)
        && (forall j: nat :: j < k ==> Lies(q, Target(p, c, va, j), ToBytes(v, n)[j]))
        && (q == PerformAll(p, Spots(c, va, k + 1)) <==> AlreadyThere(p, c, va, ToBytes(v, n), k))
  {
    hide StoreVa, Takes, Refusal, ToBytes, Translate, PerformAll, Patched, Apart, SameWord, DataApart, Left,
         AlreadyThere;
    StoreOutcome(p, c, va, v, n);
    StopsThere(p, c, va, n);
    var k := Stops(p, c, va, n);
    if k == 0 {
      FirstRefused(p, c, va, ToBytes(v, n));
    } else {
      OnlyTranslatedIff(p, c, va, ToBytes(v, n), k, k + 1);
      LeftEqualButAD(p, c, va, ToBytes(v, n), k, k + 1);
      forall j: nat | j < k
        ensures Lies(StoreVa(p, c, va, v, n).mem, Target(p, c, va, j), ToBytes(v, n)[j])
      {
        LeftByte(p, c, va, ToBytes(v, n), k, k + 1, j);
      }
    }
  }

  lemma LeftEqualButAD(p: Phys, c: Context, va: u64, bs: seq<u8>, k: nat, t: nat)
    requires k <= |bs|
    ensures EqualButAD(Patched(p, c, va, bs, k), Left(p, c, va, bs, k, t))
  {
    hide Patched, Translate, SameWord;
    TranslationsDoNotInterfere(Patched(p, c, va, bs, k), Spots(c, va, t), Spot(c, va, 0));
  }

  /** A byte that was stored is still there at the end. */
  lemma LeftByte(p: Phys, c: Context, va: u64, bs: seq<u8>, k: nat, t: nat, j: nat)
    requires j < k <= |bs| <= 0x1000 && t <= |bs| && DataApart(p, c, va, |bs|) && TakesAll(p, c, va, k)
    ensures Lies(Left(p, c, va, bs, k, t), Target(p, c, va, j), bs[j])
  {
    hide Translate, WalkWords, ReadAt, WriteAt, Misses, Patched, PerformAll, Takes;
    assert Takes(p, c, WrappingAdd(va, j));
    TakenTarget(p, c, va, j);
    PatchedByte(p, c, va, bs, k, Target(p, c, va, j).value);
    forall i: nat | i < |bs|
      ensures Reads(Patched(p, c, va, bs, k), Spot(c, va, i)) == Reads(p, Spot(c, va, i))
    {
      PatchedKeepsReads(p, c, va, bs, k, i);
    }
    ByteSurvives(p, Patched(p, c, va, bs, k), c, va, |bs|, t, j);
  }

  lemma FirstRefused(p: Phys, c: Context, va: u64, bs: seq<u8>)
    ensures Left(p, c, va, bs, 0, 1) == Perform(p, Ask(c, va, Store)).mem && EqualButAD(p, Left(p, c, va, bs, 0, 1))
  {
    hide Translate, SameWord;
    SpotsNextLeft(p, c, va, bs, 0);
    assert Left(p, c, va, bs, 0, 0) == p;
    assert Spot(c, va, 0) == Ask(c, va, Store);
    EqualButADReflexive(p);
    TranslateErasure(p, p, va, Store, c.mode, c.satp, c.mstatus);
  }

  // ----- A store that is refused halfway -----

  const HALF_VA: u64 := 0x3FFF_FFFF
  const HALF_PA: u64 := 0xBFFF_FFFF
  const GIGAPAGE: u64 := 0x2000_00C7

  /** One gigabyte of DRAM whose first table maps the first gigabyte, writable, and nothing after it. */
  function OneGigapage(): Phys {
    Phys([], Poke(Poke(seq(0x4000_0000, _ => 0), 0, 8, GIGAPAGE), 8, 8, 0))
  }

  function BareSupervisor(): Context {
    Context(Supervisor, 0x8000_0000_0008_0000, 0)
  }

  predicate MapsOne(m: Phys) {
    Word(m, 0x8000_0000) == Some(GIGAPAGE) && Word(m, 0x8000_0008) == Some(0)
  }

  lemma OneGigapageMaps()
    ensures MapsOne(OneGigapage()) && |OneGigapage().dram| == 0x4000_0000
  {
    hide Poke, FromBytes, Pow256;
    WordBound();
    var first := Poke(seq(0x4000_0000, _ => 0), 0, 8, GIGAPAGE);
    PeekPoke(seq(0x4000_0000, _ => 0), 0, 8, GIGAPAGE);
    PeekPoke(first, 8, 8, 0);
    PeekFrame(first, OneGigapage().dram, 0, 8);
  }

  lemma GigapageBits()
    ensures Acceptable(GIGAPAGE) && IsLeaf(GIGAPAGE) && PtePpn(GIGAPAGE) == 0x8_0000
  {
  }

  lemma GigapageFields()
    ensures Acceptable(GIGAPAGE) && IsLeaf(GIGAPAGE) && PtePpn(GIGAPAGE) == 0x8_0000 &&
            Touched(GIGAPAGE, Store) == GIGAPAGE
    ensures CheckPermissions(GIGAPAGE, Store, Supervisor, 0) == Ok(())
  {
    GigapageBits();
  }

  lemma MapsLast(m: Phys)
    requires MapsOne(m)
    ensures Perform(m, Ask(BareSupervisor(), HALF_VA, Store)) == Translated(Ok(HALF_PA), m)
    ensures Reads(m, Ask(BareSupervisor(), HALF_VA, Store)) == [0x8000_0000]
  {
    hide Word, Acceptable, IsLeaf, PtePpn, Touched, CheckPermissions, Write64At;
    GigapageFields();
    assert Entry(Root(BareSupervisor().satp), HALF_VA, 2) == 0x8000_0000;
  }

  lemma NothingThere(m: Phys)
    requires MapsOne(m)
    ensures Root(BareSupervisor().satp) == 0x8000_0000 && Canonical(0x4000_0000, 3)
    ensures Descend(m, 0x8000_0000, 2, 0x4000_0000) == NoLeaf &&
            Visited(m, 0x8000_0000, 2, 0x4000_0000) == [0x8000_0008]
  {
    assert !Acceptable(0);
    hide Word, Acceptable, IsLeaf, PtePpn;
    assert Entry(0x8000_0000, 0x4000_0000, 2) == 0x8000_0008;
  }

  lemma MapsNoMore(m: Phys)
    requires MapsOne(m)
    ensures Perform(m, Ask(BareSupervisor(), 0x4000_0000, Store)) == Translated(Err(StoreAMOPageFault), m)
    ensures Reads(m, Ask(BareSupervisor(), 0x4000_0000, Store)) == [0x8000_0008]
  {
    NothingThere(m);
    hide Word, Acceptable, IsLeaf, Descend, Visited, AtLeafEntry, Root, Canonical, MapsOne;
  }

  lemma HalfwayApart()
    ensures DataApart(OneGigapage(), BareSupervisor(), HALF_VA, 2)
  {
    hide Translate, WalkWords, OneGigapage, MapsOne;
    OneGigapageMaps();
    MapsLast(OneGigapage());
    MapsNoMore(OneGigapage());
    assert WrappingAdd(HALF_VA, 0) == HALF_VA && WrappingAdd(HALF_VA, 1) == 0x4000_0000;
    forall i: nat, j: nat | i < 2 && j < 2
      ensures Apart(OneGigapage(), BareSupervisor(), HALF_VA, i, j)
    {
    }
  }

  lemma TopByte(m: seq<u8>, o: nat)
    requires o + 8 <= |m|
    ensures Peek(m, o, 8).value / 0x100 / 0x1_0000_0000_0000 == m[o + 7]
  {
    assert m[o..o + 8] == m[o..o + 7] + [m[o + 7]];
    FromBytesConcat(m[o..o + 7], [m[o + 7]]);
    assert FromBytes([m[o + 7]]) == m[o + 7] + 0x100 * FromBytes([]);
    assert Pow256(7) == 0x100_0000_0000_0000;
  }

  lemma TopBytesDiffer(p: Phys, q: Phys, a: int)
    requires Aligned8(a) && InDram(a) && a - DRAM_BASE + 8 <= |p.dram| && a - DRAM_BASE + 8 <= |q.dram|
    requires p.dram[a - DRAM_BASE + 7] != q.dram[a - DRAM_BASE + 7]
    ensures !EqualButAD(p, q)
  {
    hide FromBytes;
    TopByte(p.dram, a - DRAM_BASE);
    TopByte(q.dram, a - DRAM_BASE);
    assert !SameWord(p, q, a);
  }

  lemma ByteAt(m: Phys, x: int)
    requires InDram(x) && x - DRAM_BASE < |m.dram|
    ensures ReadAt(m, x, 1) == Some(m.dram[x - DRAM_BASE])
  {
    var o := x - DRAM_BASE;
    assert m.dram[o..o + 1] == [m.dram[o]];
    assert FromBytes([m.dram[o]]) == m.dram[o] + 0x100 * FromBytes([]);
  }

  lemma HalfwayOutcome()
    ensures var p := OneGigapage();
      var s := StoreVa(p, BareSupervisor(), HALF_VA, 0x0201, 2);
      && s.result == Err(StoreAMOPageFault)
      && |s.mem.dram| == |p.dram|
      && ReadAt(s.mem, HALF_PA, 1) == Some(1)
  {
    hide Translate, WalkWords, OneGigapage, MapsOne, DataApart, WriteAt, ReadAt, EqualButAD, StoreVa, Left,
         AlreadyThere, Patched, PerformAll, ToBytes;
    var p, c := OneGigapage(), BareSupervisor();
    OneGigapageMaps();
    HalfwayApart();
    MapsLast(p);
    MapsNoMore(p);
    assert NextPage(HALF_VA) == 0x4000_0000 && WrappingAdd(HALF_VA, 0) == HALF_VA;
    StoreOutcome(p, c, HALF_VA, 0x0201, 2);
    RefusedStore(p, c, HALF_VA, 0x0201, 2);
    FirstByte(0x0201, 2);
    LeftReads(p, c, HALF_VA, ToBytes(0x0201, 2), 1, 2, 0);
  }

  lemma LastByteZero()
    ensures |OneGigapage().dram| == 0x4000_0000 && OneGigapage().dram[0x3FFF_FFFF] == 0
  {
    hide ToBytes;
  }

  /** A store is not all-or-nothing: two bytes across the end of the mapping fault, and the first stays. */
  lemma RefusedHalfway()
    ensures var p := OneGigapage();
      var s := StoreVa(p, BareSupervisor(), HALF_VA, 0x0201, 2);
      && |p.dram| % 0x1000 == 0 && DataApart(p, BareSupervisor(), HALF_VA, 2)
      && s.result == Err(StoreAMOPageFault)
      && !EqualButAD(p, s.mem)
  {
    hide OneGigapage, StoreVa, DataApart, MapsOne, EqualButAD, ReadAt, Translate, WalkWords;
    var p := OneGigapage();
    OneGigapageMaps();
    HalfwayApart();
    HalfwayOutcome();
    var q := StoreVa(p, BareSupervisor(), HALF_VA, 0x0201, 2).mem;
    LastByteZero();
    ByteAt(q, HALF_PA);
    TopBytesDiffer(p, q, 0xBFFF_FFF8);
  }
}
