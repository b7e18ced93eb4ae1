/** Bus accesses byte by byte: which addresses answer, and in which order the bytes of a number lie. */
module MemoryMeaning {
  import opened Words
  import opened Memory
  import PT = PageTable
  import VA = VirtualAccess

  /** Byte `k` of a number. */
  function ByteOf(v: nat, k: nat): nat { v / Pow256(k) % 0x100 }

  /** The `n` bytes from `a` on lie in boot ROM, from 0x1000 to 0xFFFF. */
  predicate RomHas(p: Phys, a: int, n: nat) { 0x1000 <= a < 0x1_0000 && a - 0x1000 + n <= |p.rom| }

  /** The `n` bytes from `a` on lie in DRAM, from 0x8000_0000 to 0xFFFF_FFFF. */
  predicate DramHas(p: Phys, a: int, n: nat) { 0x8000_0000 <= a < 0x1_0000_0000 && a - 0x8000_0000 + n <= |p.dram| }

  // ----- Bytes of numbers -----

  lemma {:induction false} ByteOfFromBytes(b: seq<u8>, k: nat)
    requires k < |b|
    ensures ByteOf(FromBytes(b), k) == b[k]
    decreases k
  {
    var v := FromBytes(b);
    DivModUnique(v, 0x100, FromBytes(b[1..]), b[0]);
    if k == 0 {
      assert Pow256(0) == 1 && v / 1 == v;
    } else {
      ByteOfFromBytes(b[1..], k - 1);
      ByteAbove(v, k);
    }
  }

  lemma ByteAbove(v: nat, k: nat)
    requires k > 0
    ensures ByteOf(v, k) == ByteOf(v / 0x100, k - 1)
  {
    DivTwice(v, 0x100, Pow256(k - 1));
  }

  lemma {:induction false} ByteOfToBytes(v: nat, n: nat, k: nat)
    requires k < n
    ensures ToBytes(v, n)[k] == ByteOf(v, k)
    decreases k
  {
    if k == 0 {
      assert Pow256(0) == 1 && v / 1 == v;
    } else {
      ByteOfToBytes(v / 0x100, n - 1, k - 1);
      ByteAbove(v, k);
    }
  }

  // ----- Bus reads and writes -----

  /** A read answers exactly inside one of the two memories, with the number whose byte `k` is the byte `k` addresses
      further. */
  lemma ReadsBytes(p: Phys, a: int, n: nat, k: nat)
    requires k < n
    ensures ReadAt(p, a, n).Some? <==> RomHas(p, a, n) || DramHas(p, a, n)
    ensures ReadAt(p, a, n).Some? ==>
        && ReadAt(p, a, n).value < Pow256(n)
        && ByteOf(ReadAt(p, a, n).value, k) == if RomHas(p, a, n) then p.rom[a - 0x1000 + k]
                                               else p.dram[a - 0x8000_0000 + k]
  {
    hide FromBytes, Pow256, ByteOf;
    if RomHas(p, a, n) {
      ByteOfFromBytes(p.rom[a - 0x1000..a - 0x1000 + n], k);
    } else if DramHas(p, a, n) {
      ByteOfFromBytes(p.dram[a - 0x8000_0000..a - 0x8000_0000 + n], k);
    }
  }

  /** A write inside DRAM replaces its bytes, least significant first, and no other. Outside DRAM, boot ROM included, a
      write of eight bytes is refused and a narrower one dropped. */
  lemma WritesBytes(p: Phys, a: int, n: nat, v: nat)
    requires n == 1 || n == 2 || n == 4 || n == 8
    ensures var w := WriteAt(p, a, n, v);
      if DramHas(p, a, n) then
        && w.Some? && w.value.rom == p.rom && |w.value.dram| == |p.dram|
        && forall j :: 0 <= j < |p.dram| ==>
            w.value.dram[j] == if a - 0x8000_0000 <= j < a - 0x8000_0000 + n then ByteOf(v, j - (a - 0x8000_0000))
                               else p.dram[j]
      else if 0x8000_0000 <= a < 0x1_0000_0000 || n == 8 then w == None
      else w == Some(p)
  {
    hide ToBytes, ByteOf, Poke;
    if DramHas(p, a, n) {
      var o := a - 0x8000_0000;
      var r := Poke(p.dram, o, n, v);
      forall j | o <= j < o + n
        ensures r[j] == ByteOf(v, j - o)
      {
        ByteOfToBytes(v, n, j - o);
        assert r[o..o + n][j - o] == r[j];
      }
    }
  }

  // ----- Virtual accesses -----

  /** An access inside one page, and with it every access of one byte, is one translation and one bus access: it faults
      as the translation does, and with an access fault when the bus refuses. */
  lemma InsidePage(p: Phys, c: VA.Context, va: u64, n: nat, v: nat)
    requires va % 4096 + n <= 4096
    ensures var t := PT.Translate(p, va, PT.Load, c.mode, c.satp, c.mstatus);
      VA.LoadVa(p, c, va, n) ==
        if t.result.Err? then VA.Loaded(Err(t.result.error), t.mem)
        else match ReadAt(t.mem, t.result.value, n)
             case None => VA.Loaded(Err(PT.LoadAccessFault), t.mem)
             case Some(x) => VA.Loaded(Ok(x), t.mem)
    ensures var t := PT.Translate(p, va, PT.Store, c.mode, c.satp, c.mstatus);
      VA.StoreVa(p, c, va, v, n) ==
        if t.result.Err? then VA.Stored(Err(t.result.error), t.mem)
        else match WriteAt(t.mem, t.result.value, n, v)
             case None => VA.Stored(Err(PT.StoreAMOAccessFault), t.mem)
             case Some(m) => VA.Stored(Ok(()), m)
  {
    hide PT.Translate, ReadAt, WriteAt;
  }

  /** The loads of single bytes from `va` on that give `bs`, one after the other, and the memories in between. */
  ghost predicate LoadSteps(c: VA.Context, va: u64, ms: seq<Phys>, bs: seq<nat>) {
    && |ms| == |bs| + 1
    && forall k :: 0 <= k < |bs| ==> VA.LoadVa(ms[k], c, (va + k) % TWO_64, 1) == VA.Loaded(Ok(bs[k]), ms[k + 1])
  }

  /** The stores of the bytes of `v`, from `va` on. */
  ghost predicate StoreSteps(c: VA.Context, va: u64, v: nat, ms: seq<Phys>) {
    && |ms| > 0
    && forall k :: 0 <= k < |ms| - 1 ==>
        VA.StoreVa(ms[k], c, (va + k) % TWO_64, ByteOf(v, k), 1) == VA.Stored(Ok(()), ms[k + 1])
  }

  lemma NextPlace(va: u64, k: nat)
    ensures (WrappingAdd(va, 1) + k) % TWO_64 == (va + (k + 1)) % TWO_64
  {
  }

  lemma ByteFits(p: Phys, a: int)
    ensures ReadAt(p, a, 1).Some? ==> ReadAt(p, a, 1).value < 0x100
  {
    hide ReadAt, RomHas, DramHas, ByteOf;
    ReadsBytes(p, a, 1, 0);
    assert Pow256(1) == 0x100;
  }

  lemma FirstLoad(p: Phys, c: VA.Context, va: u64, n: nat)
    requires n > 0
    ensures var f := VA.LoadVa(p, c, va, 1);
      && (f.result.Ok? ==> f.result.value < 0x100)
      && VA.LoadBytes(p, c, va, n) ==
        if f.result.Err? then f
        else
          var rest := VA.LoadBytes(f.mem, c, WrappingAdd(va, 1), n - 1);
          if rest.result.Err? then rest else VA.Loaded(Ok(f.result.value + 0x100 * rest.result.value), rest.mem)
  {
    hide PT.Translate, ReadAt, WriteAt, WrappingAdd;
    InsidePage(p, c, va, 1, 0);
    var t := PT.Translate(p, va, PT.Load, c.mode, c.satp, c.mstatus);
    if t.result.Ok? {
      ByteFits(t.mem, t.result.value);
    }
  }

  lemma LowestByte(b: nat, r: nat, k: nat)
    requires b < 0x100
    ensures ByteOf(b + 0x100 * r, k) == if k == 0 then b else ByteOf(r, k - 1)
  {
    DivModUnique(b + 0x100 * r, 0x100, r, b);
    if k > 0 {
      ByteAbove(b + 0x100 * r, k);
    } else {
      assert Pow256(0) == 1 && (b + 0x100 * r) / 1 == b + 0x100 * r;
    }
  }

  /** What a byte-wise load of `n` bytes comes to: all bytes in order, or the fault of the first that faults. */
  ghost predicate LoadsInOrder(p: Phys, c: VA.Context, va: u64, n: nat, l: VA.Loaded, ms: seq<Phys>, bs: seq<nat>) {
    && LoadSteps(c, va, ms, bs) && ms[0] == p
    && match l.result
       case Ok(v) => |bs| == n && l.mem == ms[n] && forall k :: 0 <= k < n ==> ByteOf(v, k) == bs[k]
       case Err(e) => |bs| < n && VA.LoadVa(ms[|bs|], c, (va + |bs|) % TWO_64, 1) == l
  }

  lemma {:induction false} LoadBytesInOrder(p: Phys, c: VA.Context, va: u64, n: nat)
    returns (ms: seq<Phys>, bs: seq<nat>)
    ensures LoadsInOrder(p, c, va, n, VA.LoadBytes(p, c, va, n), ms, bs)
    decreases n
  {
    hide VA.LoadVa, VA.LoadBytes, ByteOf, WrappingAdd;
    if n == 0 {
      ms, bs := [p], [];
      NoBytes(p, c, va);
    } else {
      FirstLoad(p, c, va, n);
      NextPlace(va, 0);
      var f := VA.LoadVa(p, c, va, 1);
      if f.result.Err? {
        ms, bs := [p], [];
      } else {
        var next := WrappingAdd(va, 1);
        var ms', bs' := LoadBytesInOrder(f.mem, c, next, n - 1);
        ms, bs := [p] + ms', [f.result.value] + bs';
        forall k | 0 <= k < |bs|
          ensures VA.LoadVa(ms[k], c, (va + k) % TWO_64, 1) == VA.Loaded(Ok(bs[k]), ms[k + 1])
        {
          if k > 0 {
            NextPlace(va, k - 1);
            assert bs[k] == bs'[k - 1] && ms[k] == ms'[k - 1] && ms[k + 1] == ms'[k];
          }
        }
        NextPlace(va, |bs'|);
        var rest := VA.LoadBytes(f.mem, c, next, n - 1);
        if rest.result.Ok? {
          forall k | 0 <= k < n
            ensures ByteOf(f.result.value + 0x100 * rest.result.value, k) == bs[k]
          {
            LowestByte(f.result.value, rest.result.value, k);
          }
        }
      }
    }
  }

  lemma NoBytes(p: Phys, c: VA.Context, va: u64)
    ensures VA.LoadBytes(p, c, va, 0) == VA.Loaded(Ok(0), p)
  {
  }

  /** A load across the end of a page is its single bytes, loaded one after the other in the memory the one before has
      left: byte `k` of the value is the k-th, and the first that faults gives the fault. */
  lemma LoadAcross(p: Phys, c: VA.Context, va: u64, n: nat) returns (ms: seq<Phys>, bs: seq<nat>)
    requires va % 4096 + n > 4096
    ensures LoadsInOrder(p, c, va, n, VA.LoadVa(p, c, va, n), ms, bs)
  {
    hide VA.LoadBytes, LoadsInOrder;
    ms, bs := LoadBytesInOrder(p, c, va, n);
  }

  lemma FirstStore(p: Phys, c: VA.Context, va: u64, v: nat, n: nat)
    requires n > 0
    ensures var f := VA.StoreVa(p, c, va, v % 0x100, 1);
      VA.StoreBytes(p, c, va, v, n) ==
        if f.result.Err? then f else VA.StoreBytes(f.mem, c, WrappingAdd(va, 1), v / 0x100, n - 1)
  {
    hide PT.Translate, ReadAt, WriteAt, WrappingAdd;
    InsidePage(p, c, va, 1, v % 0x100);
  }

  /** What a byte-wise store comes to: all bytes in order, or those before the first that faults. */
  ghost predicate StoresInOrder(p: Phys, c: VA.Context, va: u64, v: nat, n: nat, s: VA.Stored, ms: seq<Phys>) {
    && StoreSteps(c, va, v, ms) && ms[0] == p
    && match s.result
       case Ok(_) => |ms| == n + 1 && s.mem == ms[n]
       case Err(e) =>
         var k := |ms| - 1;
         k < n && VA.StoreVa(ms[k], c, (va + k) % TWO_64, ByteOf(v, k), 1) == s
  }

  lemma FirstByte(v: nat)
    ensures ByteOf(v, 0) == v % 0x100
  {
    assert Pow256(0) == 1 && v / 1 == v;
  }

  lemma StepsFromSecond(p: Phys, c: VA.Context, va: u64, v: nat, ms: seq<Phys>)
    requires StoreSteps(c, WrappingAdd(va, 1), v / 0x100, ms)
    requires VA.StoreVa(p, c, va, ByteOf(v, 0), 1) == VA.Stored(Ok(()), ms[0])
    ensures StoreSteps(c, va, v, [p] + ms)
  {
    hide VA.StoreVa, ByteOf, WrappingAdd;
    var all := [p] + ms;
    forall k | 0 <= k < |all| - 1
      ensures VA.StoreVa(all[k], c, (va + k) % TWO_64, ByteOf(v, k), 1) == VA.Stored(Ok(()), all[k + 1])
    {
      if k > 0 {
        var j := k - 1;
        NextPlace(va, j);
        ByteAbove(v, k);
        assert all[k] == ms[j] && all[k + 1] == ms[j + 1];
      }
    }
  }

  lemma {:induction false} StoreBytesInOrder(p: Phys, c: VA.Context, va: u64, v: nat, n: nat) returns (ms: seq<Phys>)
    ensures StoresInOrder(p, c, va, v, n, VA.StoreBytes(p, c, va, v, n), ms)
    decreases n
  {
    hide VA.StoreVa, VA.StoreBytes, ByteOf, WrappingAdd;
    FirstByte(v);
    NextPlace(va, 0);
    if n == 0 {
      ms := [p];
      NothingStored(p, c, va, v);
    } else {
      FirstStore(p, c, va, v, n);
      var f := VA.StoreVa(p, c, va, v % 0x100, 1);
      if f.result.Err? {
        ms := [p];
      } else {
        var next := WrappingAdd(va, 1);
        var ms' := StoreBytesInOrder(f.mem, c, next, v / 0x100, n - 1);
        ms := [p] + ms';
        assert f.result.value == ();
        StepsFromSecond(p, c, va, v, ms');
        NextPlace(va, |ms'| - 1);
        ByteAbove(v, |ms'|);
      }
    }
  }

  lemma NothingStored(p: Phys, c: VA.Context, va: u64, v: nat)
    ensures VA.StoreBytes(p, c, va, v, 0) == VA.Stored(Ok(()), p)
  {
  }

  /** A store across the end of a page is the stores of its single bytes, least significant first; the first that faults
      gives the fault and leaves those before it. */
  lemma StoreAcross(p: Phys, c: VA.Context, va: u64, v: nat, n: nat) returns (ms: seq<Phys>)
    requires va % 4096 + n > 4096
    ensures StoresInOrder(p, c, va, v, n, VA.StoreVa(p, c, va, v, n), ms)
  {
    hide VA.StoreBytes, StoresInOrder;
    ms := StoreBytesInOrder(p, c, va, v, n);
  }
}
