/** Laws of the virtqueue: layout, what serving leaves alone, the used ring, and batching of notifications. */
module RingLaws {
  import opened Words
  import opened Memory
  import opened GuestMemory
  import opened BlockDevice

  // ----- Layout -----

  /** The used ring starts at or after the end of the available ring. */
  lemma UsedAfterAvail(q: Queue)
    requires q.Usable()
    ensures q.UsedOffset() >= 18 * q.num + 6
  {
    RoundUp(18 * q.num + 6, q.align);
  }

  lemma RoundUp(x: nat, align: nat)
    requires align > 0
    ensures (x + align - 1) / align * align >= x
  {
    var d, r := (x + align - 1) / align, (x + align - 1) % align;
    assert x + align - 1 == align * d + r;
  }

  /** One past the last byte of the ring area, the trailing event field included. */
  function RingEnd(q: Queue): nat
    requires q.Usable()
  {
    q.addr + q.UsedOffset() + 6 + 8 * q.num
  }

  /** The `n` bytes at `a` do not meet the ring area. */
  predicate OffRing(q: Queue, a: nat, n: nat)
    requires q.Usable()
  {
    n == 0 || a + n <= q.addr || RingEnd(q) <= a
  }

  /** The byte at `x` belongs to one of the two published indices. */
  predicate IsIndexByte(q: Queue, x: nat)
    requires q.Usable()
  {
    q.AvailIdx() <= x < q.AvailIdx() + 2 || q.UsedIdx() <= x < q.UsedIdx() + 2
  }

  /** The byte at `x` belongs to the descriptors, the available ring, or the used ring's header. */
  predicate IsFixedByte(q: Queue, x: nat)
    requires q.Usable()
  {
    q.addr <= x < q.addr + q.UsedOffset() + 4
  }

  /** The `n` bytes at `a` hold no index byte. */
  predicate OffIndex(q: Queue, a: nat, n: nat)
    requires q.Usable()
  {
    && (n == 0 || a + n <= q.AvailIdx() || q.AvailIdx() + 2 <= a)
    && (n == 0 || a + n <= q.UsedIdx() || q.UsedIdx() + 2 <= a)
  }

  lemma OffRingOffIndex(q: Queue, a: nat, n: nat)
    requires q.Usable() && OffRing(q, a, n)
    ensures OffIndex(q, a, n)
  {
    UsedAfterAvail(q);
  }

  /** Descriptors, available slots and used elements keep clear of the indices. */
  lemma SlotsOffIndex(q: Queue, i: nat, d: nat)
    requires q.Usable() && d < q.num
    ensures OffIndex(q, q.AvailSlot(i), 2)
    ensures OffIndex(q, q.UsedSlot(i), 8)
    ensures OffIndex(q, q.DescAt(d), 16)
    ensures OffIndex(q, q.AvailFlags(), 2)
    ensures q.addr <= q.DescAt(d) && q.DescAt(d) + 16 <= q.AvailFlags()
    ensures q.AvailFlags() + 4 <= q.AvailSlot(i) && q.AvailSlot(i) + 2 <= q.addr + q.UsedOffset()
    ensures q.addr + q.UsedOffset() + 4 <= q.UsedSlot(i) && q.UsedSlot(i) + 8 <= RingEnd(q)
  {
    UsedAfterAvail(q);
    ModBelow(i, q.num);
    hide Queue.UsedOffset;
  }

  lemma ModBelow(i: nat, n: nat)
    requires n > 0
    ensures 0 <= i % n < n
  {
  }

  // ----- Memories that differ only in the indices -----

  /** Equal except at the index bytes. */
  ghost predicate Similar(q: Queue, m: seq<u8>, n: seq<u8>)
    requires q.Usable()
  {
    |m| == |n| && forall o :: 0 <= o < |m| && !IsIndexByte(q, o + DRAM_BASE) ==> m[o] == n[o]
  }

  /** Equal at the index bytes. */
  ghost predicate SameIndices(q: Queue, m: seq<u8>, n: seq<u8>)
    requires q.Usable()
  {
    |m| == |n| && forall o :: 0 <= o < |m| && IsIndexByte(q, o + DRAM_BASE) ==> m[o] == n[o]
  }

  /** Two runs of the same step: both succeed or both fail, staying similar and keeping the indices. */
  ghost predicate Parallel(q: Queue, m: seq<u8>, n: seq<u8>, m': seq<u8>, n': seq<u8>)
    requires q.Usable()
  {
    Similar(q, m', n') && SameIndices(q, m, m') && SameIndices(q, n, n')
  }

  lemma ParallelTransitive(q: Queue, m: seq<u8>, n: seq<u8>, m1: seq<u8>, n1: seq<u8>, m2: seq<u8>, n2: seq<u8>)
    requires q.Usable() && Parallel(q, m, n, m1, n1) && Parallel(q, m1, n1, m2, n2)
    ensures Parallel(q, m, n, m2, n2)
  {
  }

  lemma ReadSimilar(q: Queue, m: seq<u8>, n: seq<u8>, a: nat, len: nat)
    requires q.Usable() && Similar(q, m, n) && OffIndex(q, a, len)
    ensures GuestRead(m, a, len) == GuestRead(n, a, len)
  {
    hide Queue.UsedIdx, Queue.AvailIdx, FromBytes;
    if a >= DRAM_BASE {
      PeekFrame(m, n, a - DRAM_BASE, len);
    }
  }

  lemma WriteSimilar(q: Queue, m: seq<u8>, n: seq<u8>, a: nat, len: nat, v: nat)
    requires q.Usable() && Similar(q, m, n) && OffIndex(q, a, len)
    ensures GuestWrite(m, a, len, v).Some? == GuestWrite(n, a, len, v).Some?
    ensures GuestWrite(m, a, len, v).Some? ==>
      Parallel(q, m, n, GuestWrite(m, a, len, v).value, GuestWrite(n, a, len, v).value)
  {
    hide Queue.UsedIdx, Queue.AvailIdx, ToBytes;
    if GuestWrite(m, a, len, v).Some? {
      var o := a - DRAM_BASE;
      var m', n' := Poke(m, o, len, v), Poke(n, o, len, v);
      forall i | 0 <= i < |m| && !IsIndexByte(q, i + DRAM_BASE)
        ensures m'[i] == n'[i]
      {
        if o <= i < o + len {
          assert m'[i] == m'[o..o + len][i - o];
          assert n'[i] == n'[o..o + len][i - o];
        }
      }
    }
  }

  lemma {:induction false} RunSimilar(q: Queue, m: seq<u8>, n: seq<u8>, a: nat, bytes: seq<u8>)
    requires q.Usable() && Similar(q, m, n) && OffIndex(q, a, |bytes|)
    ensures WriteRun(m, a, bytes).ok == WriteRun(n, a, bytes).ok
    ensures Parallel(q, m, n, WriteRun(m, a, bytes).mem, WriteRun(n, a, bytes).mem)
    decreases |bytes|
  {
    hide Queue.UsedIdx, Queue.AvailIdx;
    if bytes != [] && a >= DRAM_BASE && a - DRAM_BASE < |m| {
      RunSimilar(q, m[a - DRAM_BASE := bytes[0]], n[a - DRAM_BASE := bytes[0]], a + 1, bytes[1..]);
    }
  }

  predicate AllOffIndex(q: Queue, bufs: seq<Buffer>)
    requires q.Usable()
  {
    forall i :: 0 <= i < |bufs| ==> OffIndex(q, bufs[i].addr, bufs[i].len)
  }

  lemma {:induction false} ScatterSimilar(q: Queue, m: seq<u8>, n: seq<u8>, bufs: seq<Buffer>, data: seq<u8>)
    requires q.Usable() && Similar(q, m, n) && AllOffIndex(q, bufs) && |data| == TotalLength(bufs)
    ensures Scatter(m, bufs, data).ok == Scatter(n, bufs, data).ok
    ensures Parallel(q, m, n, Scatter(m, bufs, data).mem, Scatter(n, bufs, data).mem)
    decreases |bufs|
  {
    hide WriteRun, OffIndex, Similar, SameIndices;
    if bufs == [] {
      SimilarStart(q, m, n);
    } else {
      var x, y := data[..bufs[0].len], data[bufs[0].len..];
      RunSimilar(q, m, n, bufs[0].addr, x);
      var m1, n1 := WriteRun(m, bufs[0].addr, x), WriteRun(n, bufs[0].addr, x);
      if m1.ok {
        ScatterSimilar(q, m1.mem, n1.mem, bufs[1..], y);
        ParallelTransitive(q, m, n, m1.mem, n1.mem, Scatter(m1.mem, bufs[1..], y).mem,
            Scatter(n1.mem, bufs[1..], y).mem);
      }
    }
  }

  lemma SimilarStart(q: Queue, m: seq<u8>, n: seq<u8>)
    requires q.Usable() && Similar(q, m, n)
    ensures Parallel(q, m, n, m, n)
  {
  }

  lemma GatherSimilar(q: Queue, m: seq<u8>, n: seq<u8>, bufs: seq<Buffer>)
    requires q.Usable() && Similar(q, m, n) && AllOffIndex(q, bufs)
    ensures Gather(m, bufs) == Gather(n, bufs)
  {
    hide Queue.UsedIdx, Queue.AvailIdx;
    forall o | 0 <= o < |m| && InBuffers(bufs, o + DRAM_BASE)
      ensures m[o] == n[o]
    {
      var i :| 0 <= i < |bufs| && InBuffer(bufs[i], o + DRAM_BASE);
      assert OffIndex(q, bufs[i].addr, bufs[i].len);
    }
    GatherFrame(m, n, bufs);
  }

  // ----- Well-behaved drivers -----

  /** Every descriptor that the chain walks through lies in the table. */
  predicate InTable(m: seq<u8>, q: Queue, idx: nat, left: nat)
    decreases left
  {
    && idx < q.num
    && match ReadDesc(m, q.DescAt(idx))
       case None => true
       case Some(d) => HasNext(d) && left > 1 ==> InTable(m, q, d.next, left - 1)
  }

  /** The header, the data buffers and the status byte keep clear of the rings. */
  predicate BuffersOff(q: Queue, ds: seq<Desc>)
    requires q.Usable() && |ds| >= 2
  {
    && OffRing(q, ds[0].addr, 16)
    && OffRing(q, ds[|ds| - 1].addr, 1)
    && forall i :: 1 <= i < |ds| - 1 ==> OffRing(q, ds[i].addr, ds[i].len)
  }

  /** The request in available slot `i` obeys the driver's side of the protocol. */
  predicate SlotOk(m: seq<u8>, q: Queue, i: nat)
    requires q.Usable()
  {
    match GuestRead(m, q.AvailSlot(i), 2)
    case None => true
    case Some(head) =>
      && InTable(m, q, head, MAX_CHAIN_LEN)
      && match Chain(m, q, head, MAX_CHAIN_LEN)
         case None => true
         case Some(ds) => |ds| >= 2 ==> BuffersOff(q, ds)
  }

  lemma DescSimilar(q: Queue, m: seq<u8>, n: seq<u8>, idx: nat)
    requires q.Usable() && Similar(q, m, n) && idx < q.num
    ensures ReadDesc(m, q.DescAt(idx)) == ReadDesc(n, q.DescAt(idx))
  {
    hide Queue.UsedIdx, Queue.AvailIdx, Queue.DescAt, GuestRead, Similar;
    SlotsOffIndex(q, 0, idx);
    var a := q.DescAt(idx);
    ReadSimilar(q, m, n, a, 8);
    ReadSimilar(q, m, n, a + 8, 4);
    ReadSimilar(q, m, n, a + 12, 2);
    ReadSimilar(q, m, n, a + 14, 2);
  }

  lemma {:induction false} ChainSimilar(q: Queue, m: seq<u8>, n: seq<u8>, idx: nat, left: nat)
    requires q.Usable() && Similar(q, m, n) && InTable(m, q, idx, left)
    ensures Chain(m, q, idx, left) == Chain(n, q, idx, left) && InTable(n, q, idx, left)
    decreases left
  {
    hide ReadDesc, Similar;
    DescSimilar(q, m, n, idx);
    var d := ReadDesc(m, q.DescAt(idx));
    if d.Some? && HasNext(d.value) && left > 1 {
      ChainSimilar(q, m, n, d.value.next, left - 1);
    }
  }

  predicate DataOff(q: Queue, data: seq<Buffer>)
    requires q.Usable()
  {
    forall i :: 0 <= i < |data| ==> OffRing(q, data[i].addr, data[i].len)
  }

  lemma DataOffIndex(q: Queue, data: seq<Buffer>)
    requires q.Usable() && DataOff(q, data)
    ensures AllOffIndex(q, data)
  {
    hide OffIndex, OffRing;
    forall i | 0 <= i < |data|
      ensures OffIndex(q, data[i].addr, data[i].len)
    {
      OffRingOffIndex(q, data[i].addr, data[i].len);
    }
  }

  lemma AnsweredSimilar(q: Queue, m: seq<u8>, n: seq<u8>, disk: seq<u8>, capacity: nat, reqType: nat, sector: nat,
      data: seq<Buffer>)
    requires q.Usable() && Similar(q, m, n) && DataOff(q, data)
    ensures var a, b := Answered(World(m, disk), capacity, reqType, sector, data),
            Answered(World(n, disk), capacity, reqType, sector, data);
      && a.handled.ok == b.handled.ok && a.handled.status == b.handled.status && a.usedLen == b.usedLen
      && a.handled.world.disk == b.handled.world.disk
      && Parallel(q, m, n, a.handled.world.mem, b.handled.world.mem)
  {
    hide Parallel, Similar, WriteRun, Scatter, Gather, SerialBytes, FileRead, FileWrite, SectorsNeeded, OffIndex,
         OffRing;
    SimilarStart(q, m, n);
    DataOffIndex(q, data);
    if reqType == T_IN {
      var d := FileRead(disk, sector * SECTOR_SIZE, TotalLength(data));
      if d.Some? {
        ScatterSimilar(q, m, n, data, d.value);
      }
    } else if reqType == T_OUT {
      GatherSimilar(q, m, n, data);
    } else if reqType == T_GET_ID && data != [] {
      RunSimilar(q, m, n, data[0].addr, SerialBytes(data[0].len));
    }
  }

  lemma CompleteSimilar(q: Queue, m: seq<u8>, n: seq<u8>, disk: seq<u8>, i: nat, head: nat, statusAddr: nat, status: u8,
      usedLen: nat)
    requires q.Usable() && Similar(q, m, n) && OffRing(q, statusAddr, 1)
    ensures var s, t := Complete(World(m, disk), q, i, head, statusAddr, status, usedLen),
        Complete(World(n, disk), q, i, head, statusAddr, status, usedLen);
      s.ok == t.ok && s.world.disk == t.world.disk == disk && Parallel(q, m, n, s.world.mem, t.world.mem)
  {
    hide GuestWrite, OffRing, Queue.UsedSlot, Queue.UsedIdx, Queue.AvailIdx;
    SimilarStart(q, m, n);
    OffRingOffIndex(q, statusAddr, 1);
    SlotsOffIndex(q, i, 0);
    var a := q.UsedSlot(i);
    WriteSimilar(q, m, n, statusAddr, 1, status);
    var m1, n1 := GuestWrite(m, statusAddr, 1, status), GuestWrite(n, statusAddr, 1, status);
    if m1.Some? {
      WriteSimilar(q, m1.value, n1.value, a, 4, head);
      var m2, n2 := GuestWrite(m1.value, a, 4, head), GuestWrite(n1.value, a, 4, head);
      if m2.Some? {
        ParallelTransitive(q, m, n, m1.value, n1.value, m2.value, n2.value);
        WriteSimilar(q, m2.value, n2.value, a + 4, 4, usedLen);
        var m3, n3 := GuestWrite(m2.value, a + 4, 4, usedLen), GuestWrite(n2.value, a + 4, 4, usedLen);
        if m3.Some? {
          ParallelTransitive(q, m, n, m2.value, n2.value, m3.value, n3.value);
        }
      }
    }
  }
}
