/** Whole notifications: the used ring they produce, and why batching them makes no difference. */
module RingProtocol {
  import opened Words
  import opened Memory
  import opened GuestMemory
  import opened BlockDevice
  import opened RingLaws

  // ----- Similar memories are served alike -----

  lemma MiddleOff(q: Queue, ds: seq<Desc>)
    requires q.Usable() && |ds| >= 2 && BuffersOff(q, ds)
    ensures DataOff(q, Buffers(ds[1..|ds| - 1]))
  {
    hide OffRing;
    var data := Buffers(ds[1..|ds| - 1]);
    forall i | 0 <= i < |data|
      ensures OffRing(q, data[i].addr, data[i].len)
    {
      assert ds[1..|ds| - 1][i] == ds[i + 1];
    }
  }

  lemma ServeChainSimilar(q: Queue, m: seq<u8>, n: seq<u8>, disk: seq<u8>, capacity: nat, i: nat, head: nat,
      ds: seq<Desc>)
    requires q.Usable() && Similar(q, m, n) && |ds| >= 2 && BuffersOff(q, ds)
    ensures var s, t := ServeChain(World(m, disk), capacity, q, i, head, ds),
            ServeChain(World(n, disk), capacity, q, i, head, ds);
      s.ok == t.ok && s.world.disk == t.world.disk && Parallel(q, m, n, s.world.mem, t.world.mem)
  {
    hide Answered, Complete, GuestRead, Parallel, OffIndex, OffRing, DataOff, Buffers;
    SimilarStart(q, m, n);
    var h := ds[0].addr;
    HeaderOff(q, h);
    ReadSimilar(q, m, n, h, 4);
    ReadSimilar(q, m, n, h + 4, 4);
    ReadSimilar(q, m, n, h + 8, 8);
    MiddleOff(q, ds);
    var data := Buffers(ds[1..|ds| - 1]);
    var reqType, sector := GuestRead(m, h, 4), GuestRead(m, h + 8, 8);
    if reqType.Some? && sector.Some? && GuestRead(m, h + 4, 4).Some? {
      AnsweredSimilar(q, m, n, disk, capacity, reqType.value, sector.value, data);
      var a := Answered(World(m, disk), capacity, reqType.value, sector.value, data);
      var b := Answered(World(n, disk), capacity, reqType.value, sector.value, data);
      if a.handled.ok {
        var st := ds[|ds| - 1].addr;
        ParallelSimilar(q, m, n, a.handled.world.mem, b.handled.world.mem);
        CompleteSimilar(q, a.handled.world.mem, b.handled.world.mem, a.handled.world.disk, i, head, st,
            a.handled.status, a.usedLen);
        var s := Complete(a.handled.world, q, i, head, st, a.handled.status, a.usedLen);
        var t := Complete(b.handled.world, q, i, head, st, b.handled.status, b.usedLen);
        ParallelTransitive(q, m, n, a.handled.world.mem, b.handled.world.mem, s.world.mem, t.world.mem);
      }
    }
  }

  lemma ParallelSimilar(q: Queue, m: seq<u8>, n: seq<u8>, m': seq<u8>, n': seq<u8>)
    requires q.Usable() && Parallel(q, m, n, m', n')
    ensures Similar(q, m', n') && SameIndices(q, m, m') && SameIndices(q, n, n')
  {
  }

  lemma HeaderOff(q: Queue, h: nat)
    requires q.Usable() && OffRing(q, h, 16)
    ensures OffIndex(q, h, 4) && OffIndex(q, h + 4, 4) && OffIndex(q, h + 8, 8)
  {
    OffRingOffIndex(q, h, 16);
    hide Queue.UsedIdx, Queue.AvailIdx;
  }

  lemma ServeSlotSimilar(q: Queue, m: seq<u8>, n: seq<u8>, disk: seq<u8>, capacity: nat, i: nat)
    requires q.Usable() && Similar(q, m, n) && SlotOk(m, q, i)
    ensures var s, t := ServeSlot(World(m, disk), capacity, q, i), ServeSlot(World(n, disk), capacity, q, i);
      s.ok == t.ok && s.world.disk == t.world.disk && Parallel(q, m, n, s.world.mem, t.world.mem)
    ensures SlotOk(n, q, i)
  {
    hide ServeChain, GuestRead, Parallel, Similar, Chain, InTable, BuffersOff, Queue.AvailSlot, OffIndex;
    SimilarStart(q, m, n);
    SlotsOffIndex(q, i, 0);
    ReadSimilar(q, m, n, q.AvailSlot(i), 2);
    var head := GuestRead(m, q.AvailSlot(i), 2);
    if head.Some? {
      ChainSimilar(q, m, n, head.value, MAX_CHAIN_LEN);
      var ds := Chain(m, q, head.value, MAX_CHAIN_LEN);
      if ds.Some? && |ds.value| >= 2 {
        ServeChainSimilar(q, m, n, disk, capacity, i, head.value, ds.value);
      }
    }
  }

  // ----- What serving leaves alone -----

  predicate InRing(q: Queue, x: nat)
    requires q.Usable()
  {
    q.addr <= x < RingEnd(q)
  }

  predicate InUsedSlot(q: Queue, i: nat, x: nat)
    requires q.Usable()
  {
    q.UsedSlot(i) <= x < q.UsedSlot(i) + 8
  }

  lemma AnsweredFrame(q: Queue, w: World, capacity: nat, reqType: nat, sector: nat, data: seq<Buffer>, o: nat)
    requires q.Usable() && DataOff(q, data) && o < |w.mem| && InRing(q, o + DRAM_BASE)
    ensures var r := Answered(w, capacity, reqType, sector, data).handled.world.mem; |r| == |w.mem| && r[o] == w.mem[o]
  {
    hide WriteRun, Scatter, Gather, SerialBytes, FileRead, FileWrite, SectorsNeeded, Queue.UsedOffset;
    assert !InBuffers(data, o + DRAM_BASE) by {
      forall i | 0 <= i < |data|
        ensures !InBuffer(data[i], o + DRAM_BASE)
      {
        assert OffRing(q, data[i].addr, data[i].len);
      }
    }
    if reqType == T_IN {
      var d := FileRead(w.disk, sector * SECTOR_SIZE, TotalLength(data));
      if d.Some? {
        ScatterFrame(w.mem, data, d.value, o);
      }
    } else if reqType == T_GET_ID && data != [] {
      assert !InBuffer(data[0], o + DRAM_BASE);
      WriteRunFrame(w.mem, data[0].addr, SerialBytes(data[0].len), o);
    }
  }

  lemma CompleteFrame(q: Queue, w: World, i: nat, head: nat, statusAddr: nat, status: u8, usedLen: nat, o: nat)
    requires q.Usable() && OffRing(q, statusAddr, 1) && o < |w.mem|
    requires InRing(q, o + DRAM_BASE) && !InUsedSlot(q, i, o + DRAM_BASE)
    ensures var r := Complete(w, q, i, head, statusAddr, status, usedLen).world.mem; |r| == |w.mem| && r[o] == w.mem[o]
  {
    hide Queue.UsedOffset, Queue.UsedSlot, ToBytes;
  }

  /** A served slot's used element names its head and its length. */
  lemma CompleteElement(q: Queue, w: World, i: nat, head: u16, statusAddr: nat, status: u8, usedLen: nat)
    requires q.Usable() && Complete(w, q, i, head, statusAddr, status, usedLen).ok
    ensures var r := Complete(w, q, i, head, statusAddr, status, usedLen).world.mem;
      && GuestRead(r, q.UsedSlot(i), 4) == Some(head)
      && GuestRead(r, q.UsedSlot(i) + 4, 4) == Some(usedLen % 0x1_0000_0000)
  {
    hide Queue.UsedSlot, ToBytes, FromBytes, Poke;
    var a := q.UsedSlot(i);
    var m1 := GuestWrite(w.mem, statusAddr, 1, status).value;
    var m2 := GuestWrite(m1, a, 4, head).value;
    var m3 := GuestWrite(m2, a + 4, 4, usedLen).value;
    PeekPoke(m1, a - DRAM_BASE, 4, head);
    PeekFrame(m2, m3, a - DRAM_BASE, 4);
    PeekPoke(m2, a + 4 - DRAM_BASE, 4, usedLen);
    Pow4();
    assert head % 0x1_0000_0000 == head;
  }

  lemma Pow4()
    ensures Pow256(4) == 0x1_0000_0000
  {
  }

  lemma ServeChainFrame(q: Queue, w: World, capacity: nat, i: nat, head: nat, ds: seq<Desc>, o: nat)
    requires q.Usable() && |ds| >= 2 && BuffersOff(q, ds) && o < |w.mem|
    requires InRing(q, o + DRAM_BASE) && !InUsedSlot(q, i, o + DRAM_BASE)
    ensures var r := ServeChain(w, capacity, q, i, head, ds).world.mem; |r| == |w.mem| && r[o] == w.mem[o]
  {
    hide Answered, Complete, GuestRead, OffRing, InRing, InUsedSlot, DataOff, Buffers;
    MiddleOff(q, ds);
    var data := Buffers(ds[1..|ds| - 1]);
    var reqType, sector := GuestRead(w.mem, ds[0].addr, 4), GuestRead(w.mem, ds[0].addr + 8, 8);
    if reqType.Some? && sector.Some? {
      AnsweredFrame(q, w, capacity, reqType.value, sector.value, data, o);
      var a := Answered(w, capacity, reqType.value, sector.value, data);
      CompleteFrame(q, a.handled.world, i, head, ds[|ds| - 1].addr, a.handled.status, a.usedLen, o);
    }
  }

  /** Serving a slot changes no ring byte outside that slot's used element. */
  lemma ServeSlotFrame(q: Queue, w: World, capacity: nat, i: nat, o: nat)
    requires q.Usable() && SlotOk(w.mem, q, i) && o < |w.mem|
    requires InRing(q, o + DRAM_BASE) && !InUsedSlot(q, i, o + DRAM_BASE)
    ensures var r := ServeSlot(w, capacity, q, i).world.mem; |r| == |w.mem| && r[o] == w.mem[o]
  {
    hide ServeChain, GuestRead, Chain, InTable, BuffersOff, InRing, InUsedSlot, Queue.AvailSlot;
    var head := GuestRead(w.mem, q.AvailSlot(i), 2);
    if head.Some? {
      var ds := Chain(w.mem, q, head.value, MAX_CHAIN_LEN);
      if ds.Some? && |ds.value| >= 2 {
        ServeChainFrame(q, w, capacity, i, head.value, ds.value, o);
      }
    }
  }

  /** A slot served with success gets, as its used element, the head that was in its available slot. */
  lemma ServeSlotElement(q: Queue, w: World, capacity: nat, i: nat)
    requires q.Usable() && ServeSlot(w, capacity, q, i).ok
    ensures GuestRead(w.mem, q.AvailSlot(i), 2).Some?
    ensures GuestRead(ServeSlot(w, capacity, q, i).world.mem, q.UsedSlot(i), 4) == GuestRead(w.mem, q.AvailSlot(i), 2)
  {
    hide Complete, Answered, Chain, Queue.AvailSlot, Queue.UsedSlot, FromBytes;
    var head := GuestRead(w.mem, q.AvailSlot(i), 2).value;
    var ds := Chain(w.mem, q, head, MAX_CHAIN_LEN).value;
    var reqType, sector := GuestRead(w.mem, ds[0].addr, 4).value, GuestRead(w.mem, ds[0].addr + 8, 8).value;
    var a := Answered(w, capacity, reqType, sector, Buffers(ds[1..|ds| - 1]));
    assert Pow256(2) == 0x1_0000;
    CompleteElement(q, a.handled.world, i, head, ds[|ds| - 1].addr, a.handled.status, a.usedLen);
  }

  /** The request in slot `i`: its type and its data buffers. */
  datatype Request = Request(reqType: nat, data: seq<Buffer>)

  function RequestAt(m: seq<u8>, q: Queue, i: nat): Option<Request>
    requires q.Usable()
  {
    var head := GuestRead(m, q.AvailSlot(i), 2);
    if head.None? then None
    else
      var ds := Chain(m, q, head.value, MAX_CHAIN_LEN);
      if ds.None? || |ds.value| < 2 then None
      else
        var reqType := GuestRead(m, ds.value[0].addr, 4);
        if reqType.None? then None else Some(Request(reqType.value, Buffers(ds.value[1..|ds.value| - 1])))
  }

  /** What a request reports as written: the status byte, and before it all data buffers of a read, even a refused one,
      or the first of a query for the serial number. */
  function LengthOf(r: Request): nat {
    if r.reqType == T_IN then TotalLength(r.data) + 1
    else if r.reqType == T_GET_ID && r.data != [] then r.data[0].len + 1
    else 1
  }

  /** A slot served with success holds, as its used element's length, what its request reports. */
  lemma ServeSlotLength(q: Queue, w: World, capacity: nat, i: nat)
    requires q.Usable() && ServeSlot(w, capacity, q, i).ok
    ensures var r := RequestAt(w.mem, q, i);
      && r.Some?
      && GuestRead(ServeSlot(w, capacity, q, i).world.mem, q.UsedSlot(i) + 4, 4) ==
         Some(LengthOf(r.value) % 0x1_0000_0000)
  {
    hide Complete, Chain, Queue.AvailSlot, Queue.UsedSlot, FromBytes, Buffers, HandleIn, HandleOut, WriteRun,
         SerialBytes;
    var head := GuestRead(w.mem, q.AvailSlot(i), 2).value;
    var ds := Chain(w.mem, q, head, MAX_CHAIN_LEN).value;
    var reqType, sector := GuestRead(w.mem, ds[0].addr, 4).value, GuestRead(w.mem, ds[0].addr + 8, 8).value;
    var a := Answered(w, capacity, reqType, sector, Buffers(ds[1..|ds| - 1]));
    assert Pow256(2) == 0x1_0000;
    CompleteElement(q, a.handled.world, i, head, ds[|ds| - 1].addr, a.handled.status, a.usedLen);
  }

  // ----- The fixed part of the rings -----

  /** Descriptors, available ring and both indices hold the same bytes. */
  ghost predicate FixedKept(q: Queue, m: seq<u8>, n: seq<u8>)
    requires q.Usable()
  {
    |m| == |n| && forall o :: 0 <= o < |m| && IsFixedByte(q, o + DRAM_BASE) ==> m[o] == n[o]
  }

  /** The `n` bytes at `a` lie in the fixed part. */
  predicate Fixed(q: Queue, a: nat, n: nat)
    requires q.Usable()
  {
    q.addr <= a && a + n <= q.addr + q.UsedOffset() + 4
  }

  lemma ReadFixed(q: Queue, m: seq<u8>, n: seq<u8>, a: nat, len: nat)
    requires q.Usable() && FixedKept(q, m, n) && Fixed(q, a, len)
    ensures GuestRead(m, a, len) == GuestRead(n, a, len)
  {
    hide Queue.UsedOffset, FromBytes;
    if a >= DRAM_BASE {
      PeekFrame(m, n, a - DRAM_BASE, len);
    }
  }

  lemma FixedParts(q: Queue, i: nat, d: nat)
    requires q.Usable() && d < q.num
    ensures Fixed(q, q.AvailSlot(i), 2) && Fixed(q, q.AvailFlags(), 2) && Fixed(q, q.AvailIdx(), 2) &&
            Fixed(q, q.UsedIdx(), 2)
    ensures Fixed(q, q.DescAt(d), 8) && Fixed(q, q.DescAt(d) + 8, 4) && Fixed(q, q.DescAt(d) + 12, 2) &&
            Fixed(q, q.DescAt(d) + 14, 2)
  {
    SlotsOffIndex(q, i, d);
    hide Queue.UsedOffset, OffIndex;
  }

  lemma {:induction false} ChainFixed(q: Queue, m: seq<u8>, n: seq<u8>, idx: nat, left: nat)
    requires q.Usable() && FixedKept(q, m, n) && InTable(m, q, idx, left)
    ensures Chain(m, q, idx, left) == Chain(n, q, idx, left) && InTable(n, q, idx, left)
    decreases left
  {
    hide GuestRead, FixedKept, Fixed, Queue.DescAt;
    FixedParts(q, 0, idx);
    var a := q.DescAt(idx);
    ReadFixed(q, m, n, a, 8);
    ReadFixed(q, m, n, a + 8, 4);
    ReadFixed(q, m, n, a + 12, 2);
    ReadFixed(q, m, n, a + 14, 2);
    var d := ReadDesc(m, a);
    if d.Some? && HasNext(d.value) && left > 1 {
      ChainFixed(q, m, n, d.value.next, left - 1);
    }
  }

  lemma SlotFixed(q: Queue, m: seq<u8>, n: seq<u8>, i: nat)
    requires q.Usable() && FixedKept(q, m, n) && SlotOk(m, q, i)
    ensures SlotOk(n, q, i) && GuestRead(m, q.AvailSlot(i), 2) == GuestRead(n, q.AvailSlot(i), 2)
  {
    hide GuestRead, FixedKept, Fixed, Queue.AvailSlot, Chain, InTable, BuffersOff;
    FixedParts(q, i, 0);
    ReadFixed(q, m, n, q.AvailSlot(i), 2);
    var head := GuestRead(m, q.AvailSlot(i), 2);
    if head.Some? {
      ChainFixed(q, m, n, head.value, MAX_CHAIN_LEN);
    }
  }

  lemma ServeSlotFixed(q: Queue, w: World, capacity: nat, i: nat)
    requires q.Usable() && SlotOk(w.mem, q, i)
    ensures FixedKept(q, w.mem, ServeSlot(w, capacity, q, i).world.mem)
  {
    hide ServeSlot, SlotOk, Queue.UsedOffset;
    var r := ServeSlot(w, capacity, q, i).world.mem;
    ServeSlotSize(w, capacity, q, i);
    forall o | 0 <= o < |w.mem| && IsFixedByte(q, o + DRAM_BASE)
      ensures w.mem[o] == r[o]
    {
      ServeSlotFrame(q, w, capacity, i, o);
    }
  }

  lemma ServeSlotSize(w: World, capacity: nat, q: Queue, i: nat)
    requires q.Usable()
    ensures |ServeSlot(w, capacity, q, i).world.mem| == |w.mem|
  {
    hide GuestRead, Chain, Queue.UsedSlot, WriteRun, Scatter, FileRead, FileWrite, Gather, SectorsNeeded;
  }
}
