/** Laws of the entropy device: bytes reported are bytes drawn, rings are left alone, batching does not matter. */
module EntropyLaws {
  import opened Words
  import opened Memory
  import opened GuestMemory
  import opened EntropyDevice
  import B = BlockDevice
  import opened RingLaws
  import opened RingProtocol
  import opened Batching

  // ----- Well-behaved drivers -----

  /** Every descriptor reached lies in the table, and every writable buffer keeps clear of the rings. */
  predicate ChainOk(m: seq<u8>, q: B.Queue, idx: nat, left: nat)
    requires q.Usable()
    decreases left
  {
    left == 0 ||
    (&& idx < q.num
     && match B.ReadDesc(m, q.DescAt(idx))
        case None => true
        case Some(d) =>
          && (DeviceWritable(d) ==> OffRing(q, d.addr, d.len))
          && (B.HasNext(d) ==> ChainOk(m, q, d.next, left - 1)))
  }

  predicate EntryOk(m: seq<u8>, q: B.Queue, i: nat)
    requires q.Usable()
  {
    match GuestRead(m, q.AvailSlot(i), 2)
    case None => true
    case Some(head) => ChainOk(m, q, head, ENTROPY_CHAIN_LEN)
  }

  ghost predicate AllOk(m: seq<u8>, q: B.Queue, i: nat, n: nat)
    requires q.Usable()
  {
    forall k: nat :: k < n ==> EntryOk(m, q, Nth(i, k))
  }

  lemma DescFixed(q: B.Queue, m: seq<u8>, n: seq<u8>, idx: nat)
    requires q.Usable() && FixedKept(q, m, n) && idx < q.num
    ensures B.ReadDesc(m, q.DescAt(idx)) == B.ReadDesc(n, q.DescAt(idx))
  {
    hide GuestRead, FixedKept, Fixed, B.Queue.DescAt;
    FixedParts(q, 0, idx);
    var a := q.DescAt(idx);
    ReadFixed(q, m, n, a, 8);
    ReadFixed(q, m, n, a + 8, 4);
    ReadFixed(q, m, n, a + 12, 2);
    ReadFixed(q, m, n, a + 14, 2);
  }

  lemma {:induction false} ChainOkFixed(q: B.Queue, m: seq<u8>, n: seq<u8>, idx: nat, left: nat)
    requires q.Usable() && FixedKept(q, m, n) && ChainOk(m, q, idx, left)
    ensures ChainOk(n, q, idx, left)
    decreases left
  {
    hide B.ReadDesc, FixedKept, OffRing;
    if left > 0 {
      DescFixed(q, m, n, idx);
      var d := B.ReadDesc(m, q.DescAt(idx));
      if d.Some? && B.HasNext(d.value) {
        ChainOkFixed(q, m, n, d.value.next, left - 1);
      }
    }
  }

  lemma EntryOkFixed(q: B.Queue, m: seq<u8>, n: seq<u8>, i: nat)
    requires q.Usable() && FixedKept(q, m, n) && EntryOk(m, q, i)
    ensures EntryOk(n, q, i) && GuestRead(m, q.AvailSlot(i), 2) == GuestRead(n, q.AvailSlot(i), 2)
  {
    hide GuestRead, FixedKept, Fixed, B.Queue.AvailSlot, ChainOk;
    FixedParts(q, i, 0);
    ReadFixed(q, m, n, q.AvailSlot(i), 2);
    var head := GuestRead(m, q.AvailSlot(i), 2);
    if head.Some? {
      ChainOkFixed(q, m, n, head.value, ENTROPY_CHAIN_LEN);
    }
  }

  lemma AllOkFixed(q: B.Queue, m: seq<u8>, m': seq<u8>, i: nat, n: nat, k: nat)
    requires q.Usable() && AllOk(m, q, i, n + k) && FixedKept(q, m, m')
    ensures AllOk(m', q, i, n) && AllOk(m', q, Nth(i, n), k)
  {
    hide EntryOk, FixedKept;
    forall j: nat | j < n
      ensures EntryOk(m', q, Nth(i, j))
    {
      EntryOkFixed(q, m, m', Nth(i, j));
    }
    forall j: nat | j < k
      ensures EntryOk(m', q, Nth(Nth(i, n), j))
    {
      NthNth(i, n, j);
      EntryOkFixed(q, m, m', Nth(i, n + j));
    }
  }

  // ----- What a chain is filled with -----

  lemma FillDescKeepsFixed(q: B.Queue, m: seq<u8>, e: Source, at: nat, d: B.Desc)
    requires q.Usable() && (DeviceWritable(d) ==> OffRing(q, d.addr, d.len))
    ensures FixedKept(q, m, FillDesc(m, e, at, d).mem)
  {
    hide B.Queue.UsedOffset, DeviceWritable, Drawn, WriteRun;
    var r := FillDesc(m, e, at, d).mem;
    if DeviceWritable(d) {
      forall o | 0 <= o < |m| && IsFixedByte(q, o + DRAM_BASE)
        ensures m[o] == r[o]
      {
        WriteRunFrame(m, d.addr, Drawn(e, at, d.len), o);
      }
    }
  }

  lemma FixedKeptChain(q: B.Queue, a: seq<u8>, b: seq<u8>, c: seq<u8>)
    requires q.Usable() && FixedKept(q, a, b) && FixedKept(q, b, c)
    ensures FixedKept(q, a, c)
  {
  }

  /** Filling a chain leaves descriptors, available ring and indices alone, and reports exactly the bytes it
      has drawn from the source. */
  lemma {:induction false} FillReportsDrawn(m: seq<u8>, e: Source, at: nat, q: B.Queue, idx: nat, left: nat, total: nat)
    requires q.Usable() && ChainOk(m, q, idx, left)
    ensures var f := FillChain(m, e, at, q, idx, left, total);
      && FixedKept(q, m, f.mem)
      && (f.ok ==> f.total - total == f.at - at)
    decreases left
  {
    hide B.ReadDesc, FixedKept, FillDesc, OffRing, DeviceWritable;
    FixedKeptSelf(q, m);
    if left > 0 {
      var d := B.ReadDesc(m, q.DescAt(idx));
      if d.Some? {
        var r := FillDesc(m, e, at, d.value);
        FillDescKeepsFixed(q, m, e, at, d.value);
        if r.ok && B.HasNext(d.value) {
          ChainOkFixed(q, m, r.mem, d.value.next, left - 1);
          FillReportsDrawn(r.mem, e, at + Taken(d.value), q, d.value.next, left - 1, total + Taken(d.value));
          var f := FillChain(r.mem, e, at + Taken(d.value), q, d.value.next, left - 1, total + Taken(d.value));
          FixedKeptChain(q, m, r.mem, f.mem);
        }
      }
    }
  }

  // ----- One request -----

  lemma ReportKeepsFixed(q: B.Queue, m: seq<u8>, i: nat, head: nat, total: nat)
    requires q.Usable()
    ensures FixedKept(q, m, Report(m, q, i, head, total).mem)
  {
    hide B.Queue.UsedOffset, ToBytes;
    SlotsOffIndex(q, i, 0);
  }

  lemma ReportReads(q: B.Queue, m: seq<u8>, i: nat, head: nat, total: nat)
    requires q.Usable() && Report(m, q, i, head, total).ok && head < 0x1_0000
    ensures var r := Report(m, q, i, head, total).mem;
      GuestRead(r, q.UsedSlot(i), 4) == Some(head) && GuestRead(r, q.UsedSlot(i) + 4, 4) == Some(total % 0x1_0000_0000)
  {
    hide B.Queue.UsedSlot, ToBytes, FromBytes, Poke;
    var a := q.UsedSlot(i);
    var m1 := GuestWrite(m, a, 4, head).value;
    assert Pow256(4) == 0x1_0000_0000;
    PeekPoke(m, a - DRAM_BASE, 4, head);
    PeekPoke(m1, a + 4 - DRAM_BASE, 4, total);
    PeekFrame(m1, GuestWrite(m1, a + 4, 4, total).value, a - DRAM_BASE, 4);
  }

  lemma HeadBound(m: seq<u8>, a: nat)
    ensures var r := GuestRead(m, a, 2); r.Some? ==> r.value < 0x1_0000
  {
    assert Pow256(2) == 0x1_0000;
  }

  /** A request that succeeds is reported in its used element: its head, and as its length the number of
      bytes drawn for it, modulo 2^32. The rest of the driver's data is untouched either way. */
  lemma SlotReported(w: Pool, e: Source, q: B.Queue, i: nat)
    requires q.Usable() && EntryOk(w.mem, q, i)
    ensures var s := FillSlot(w, e, q, i);
      && FixedKept(q, w.mem, s.pool.mem)
      && (s.ok ==>
            && GuestRead(w.mem, q.AvailSlot(i), 2).Some?
            && GuestRead(s.pool.mem, q.UsedSlot(i), 4) == GuestRead(w.mem, q.AvailSlot(i), 2)
            && s.pool.at >= w.at
            && GuestRead(s.pool.mem, q.UsedSlot(i) + 4, 4) == Some((s.pool.at - w.at) % 0x1_0000_0000))
  {
    hide GuestRead, FixedKept, ChainOk, FillChain, Report, B.Queue.AvailSlot, B.Queue.UsedSlot;
    FixedKeptSelf(q, w.mem);
    HeadBound(w.mem, q.AvailSlot(i));
    var head := GuestRead(w.mem, q.AvailSlot(i), 2);
    if head.Some? {
      FillReportsDrawn(w.mem, e, w.at, q, head.value, ENTROPY_CHAIN_LEN, 0);
      var f := FillChain(w.mem, e, w.at, q, head.value, ENTROPY_CHAIN_LEN, 0);
      ReportKeepsFixed(q, f.mem, i, head.value, f.total);
      FixedKeptChain(q, w.mem, f.mem, Report(f.mem, q, i, head.value, f.total).mem);
      if f.ok && Report(f.mem, q, i, head.value, f.total).ok {
        ReportReads(q, f.mem, i, head.value, f.total);
      }
    }
  }

  // ----- What serving leaves alone -----

  lemma FillDescFrame(q: B.Queue, m: seq<u8>, e: Source, at: nat, d: B.Desc, o: nat)
    requires q.Usable() && (DeviceWritable(d) ==> OffRing(q, d.addr, d.len)) && o < |m| && InRing(q, o + DRAM_BASE)
    ensures FillDesc(m, e, at, d).mem[o] == m[o]
  {
    hide B.Queue.UsedOffset, DeviceWritable, Drawn, WriteRun;
    if DeviceWritable(d) {
      WriteRunFrame(m, d.addr, Drawn(e, at, d.len), o);
    }
  }

  lemma {:induction false} FillChainFrame(m: seq<u8>, e: Source, at: nat, q: B.Queue, idx: nat, left: nat, total: nat,
      o: nat)
    requires q.Usable() && ChainOk(m, q, idx, left) && o < |m| && InRing(q, o + DRAM_BASE)
    ensures FillChain(m, e, at, q, idx, left, total).mem[o] == m[o]
    decreases left
  {
    hide B.ReadDesc, FixedKept, FillDesc, OffRing, DeviceWritable, InRing;
    if left > 0 {
      var d := B.ReadDesc(m, q.DescAt(idx));
      if d.Some? {
        var r := FillDesc(m, e, at, d.value);
        FillDescFrame(q, m, e, at, d.value, o);
        FillDescKeepsFixed(q, m, e, at, d.value);
        if r.ok && B.HasNext(d.value) {
          ChainOkFixed(q, m, r.mem, d.value.next, left - 1);
          FillChainFrame(r.mem, e, at + Taken(d.value), q, d.value.next, left - 1, total + Taken(d.value), o);
        }
      }
    }
  }

  lemma ReportFrame(q: B.Queue, m: seq<u8>, i: nat, head: nat, total: nat, o: nat)
    requires q.Usable() && o < |m| && !InUsedSlot(q, i, o + DRAM_BASE)
    ensures var r := Report(m, q, i, head, total).mem; |r| == |m| && r[o] == m[o]
  {
    hide B.Queue.UsedSlot, ToBytes;
  }

  /** Serving a request changes no ring byte outside its own used element. */
  lemma FillSlotFrame(w: Pool, e: Source, q: B.Queue, i: nat, o: nat)
    requires q.Usable() && EntryOk(w.mem, q, i) && o < |w.mem|
    requires InRing(q, o + DRAM_BASE) && !InUsedSlot(q, i, o + DRAM_BASE)
    ensures var r := FillSlot(w, e, q, i).pool.mem; |r| == |w.mem| && r[o] == w.mem[o]
  {
    hide GuestRead, ChainOk, FillChain, Report, InRing, InUsedSlot, B.Queue.AvailSlot;
    var head := GuestRead(w.mem, q.AvailSlot(i), 2);
    if head.Some? {
      var f := FillChain(w.mem, e, w.at, q, head.value, ENTROPY_CHAIN_LEN, 0);
      FillChainFrame(w.mem, e, w.at, q, head.value, ENTROPY_CHAIN_LEN, 0, o);
      ReportFrame(q, f.mem, i, head.value, f.total, o);
    }
  }

  lemma FillSlotKeepsElement(w: Pool, e: Source, q: B.Queue, i: nat, j: nat, d: nat)
    requires q.Usable() && EntryOk(w.mem, q, i) && !SameEntry(q, i, j) && d <= 4
    ensures GuestRead(FillSlot(w, e, q, i).pool.mem, q.UsedSlot(j) + d, 4) == GuestRead(w.mem, q.UsedSlot(j) + d, 4)
  {
    hide FillSlot, EntryOk, SameEntry, B.Queue.UsedSlot, FromBytes, InRing;
    var r := FillSlot(w, e, q, i).pool.mem;
    SlotSize(w, e, q, i);
    var a := q.UsedSlot(j) + d;
    if a >= DRAM_BASE && a - DRAM_BASE + 4 <= |w.mem| {
      forall o | a - DRAM_BASE <= o < a - DRAM_BASE + 4
        ensures w.mem[o] == r[o]
      {
        UsedSlotsApart(q, i, j, o + DRAM_BASE);
        FillSlotFrame(w, e, q, i, o);
      }
      PeekFrame(w.mem, r, a - DRAM_BASE, 4);
    }
  }

  lemma SlotSize(w: Pool, e: Source, q: B.Queue, i: nat)
    requires q.Usable()
    ensures |FillSlot(w, e, q, i).pool.mem| == |w.mem|
  {
    hide GuestRead, FillChain, B.Queue.UsedSlot;
  }

  // ----- Similar memories -----

  lemma FillDescSimilar(q: B.Queue, m: seq<u8>, n: seq<u8>, e: Source, at: nat, d: B.Desc)
    requires q.Usable() && Similar(q, m, n) && (DeviceWritable(d) ==> OffRing(q, d.addr, d.len))
    ensures var r, s := FillDesc(m, e, at, d), FillDesc(n, e, at, d); r.ok == s.ok && Parallel(q, m, n, r.mem, s.mem)
  {
    hide Similar, Parallel, OffRing, OffIndex, Drawn, WriteRun, DeviceWritable;
    SimilarStart(q, m, n);
    if DeviceWritable(d) {
      OffRingOffIndex(q, d.addr, d.len);
      RunSimilar(q, m, n, d.addr, Drawn(e, at, d.len));
    }
  }

  lemma {:induction false} FillSimilar(q: B.Queue, m: seq<u8>, n: seq<u8>, e: Source, at: nat, idx: nat, left: nat,
      total: nat)
    requires q.Usable() && Similar(q, m, n) && ChainOk(m, q, idx, left)
    ensures var f, g := FillChain(m, e, at, q, idx, left, total), FillChain(n, e, at, q, idx, left, total);
      f.ok == g.ok && f.at == g.at && f.total == g.total && Parallel(q, m, n, f.mem, g.mem)
    decreases left
  {
    hide B.ReadDesc, FixedKept, FillDesc, OffRing, DeviceWritable, Similar, Parallel;
    SimilarStart(q, m, n);
    if left > 0 {
      DescSimilar(q, m, n, idx);
      var d := B.ReadDesc(m, q.DescAt(idx));
      if d.Some? {
        var r, s := FillDesc(m, e, at, d.value), FillDesc(n, e, at, d.value);
        FillDescSimilar(q, m, n, e, at, d.value);
        if r.ok && B.HasNext(d.value) {
          FillDescKeepsFixed(q, m, e, at, d.value);
          ChainOkFixed(q, m, r.mem, d.value.next, left - 1);
          ParallelSimilar(q, m, n, r.mem, s.mem);
          FillSimilar(q, r.mem, s.mem, e, at + Taken(d.value), d.value.next, left - 1, total + Taken(d.value));
          var f := FillChain(r.mem, e, at + Taken(d.value), q, d.value.next, left - 1, total + Taken(d.value));
          var g := FillChain(s.mem, e, at + Taken(d.value), q, d.value.next, left - 1, total + Taken(d.value));
          ParallelTransitive(q, m, n, r.mem, s.mem, f.mem, g.mem);
        }
      }
    }
  }

  lemma ReportSimilar(q: B.Queue, m: seq<u8>, n: seq<u8>, i: nat, head: nat, total: nat)
    requires q.Usable() && Similar(q, m, n)
    ensures var r, s := Report(m, q, i, head, total), Report(n, q, i, head, total);
      r.ok == s.ok && Parallel(q, m, n, r.mem, s.mem)
  {
    hide Similar, Parallel, GuestWrite, B.Queue.UsedSlot, B.Queue.AvailIdx, B.Queue.UsedIdx;
    SimilarStart(q, m, n);
    SlotsOffIndex(q, i, 0);
    var a := q.UsedSlot(i);
    WriteSimilar(q, m, n, a, 4, head);
    var m1, n1 := GuestWrite(m, a, 4, head), GuestWrite(n, a, 4, head);
    if m1.Some? {
      ParallelSimilar(q, m, n, m1.value, n1.value);
      WriteSimilar(q, m1.value, n1.value, a + 4, 4, total);
      var m2, n2 := GuestWrite(m1.value, a + 4, 4, total), GuestWrite(n1.value, a + 4, 4, total);
      if m2.Some? {
        ParallelTransitive(q, m, n, m1.value, n1.value, m2.value, n2.value);
      }
    }
  }

  lemma SlotSimilar(q: B.Queue, m: seq<u8>, n: seq<u8>, at: nat, e: Source, i: nat)
    requires q.Usable() && Similar(q, m, n) && EntryOk(m, q, i)
    ensures var s, t := FillSlot(Pool(m, at), e, q, i), FillSlot(Pool(n, at), e, q, i);
      s.ok == t.ok && s.pool.at == t.pool.at && Parallel(q, m, n, s.pool.mem, t.pool.mem)
  {
    hide Similar, Parallel, GuestRead, FillChain, Report, ChainOk, B.Queue.AvailSlot;
    SimilarStart(q, m, n);
    SlotsOffIndex(q, i, 0);
    ReadSimilar(q, m, n, q.AvailSlot(i), 2);
    var head := GuestRead(m, q.AvailSlot(i), 2);
    if head.Some? {
      FillSimilar(q, m, n, e, at, head.value, ENTROPY_CHAIN_LEN, 0);
      var f, g := FillChain(m, e, at, q, head.value, ENTROPY_CHAIN_LEN, 0),
          FillChain(n, e, at, q, head.value, ENTROPY_CHAIN_LEN, 0);
      if f.ok {
        ParallelSimilar(q, m, n, f.mem, g.mem);
        ReportSimilar(q, f.mem, g.mem, i, head.value, f.total);
        ParallelTransitive(q, m, n, f.mem, g.mem, Report(f.mem, q, i, head.value, f.total).mem,
            Report(g.mem, q, i, head.value, f.total).mem);
      }
    }
  }

  // ----- Many requests -----

  lemma AllOkNext(q: B.Queue, m: seq<u8>, m': seq<u8>, i: nat, n: nat)
    requires q.Usable() && i < 0x1_0000 && n > 0 && AllOk(m, q, i, n) && FixedKept(q, m, m')
    ensures EntryOk(m, q, i) && AllOk(m', q, B.NextIndex(i), n - 1)
  {
    hide EntryOk, FixedKept;
    NthZero(i);
    assert EntryOk(m, q, Nth(i, 0));
    forall j: nat | j < n - 1
      ensures EntryOk(m', q, Nth(B.NextIndex(i), j))
    {
      NthNext(i, j);
      EntryOkFixed(q, m, m', Nth(i, j + 1));
    }
  }

  lemma {:induction false} FillManyFixed(q: B.Queue, w: Pool, e: Source, i: nat, n: nat)
    requires q.Usable() && i < 0x1_0000 && AllOk(w.mem, q, i, n)
    ensures FixedKept(q, w.mem, FillMany(w, e, q, i, n).pool.mem)
    decreases n
  {
    hide FillSlot, EntryOk, AllOk, FixedKept, B.NextIndex;
    FixedKeptSelf(q, w.mem);
    if n > 0 {
      AllOkNext(q, w.mem, w.mem, i, n);
      SlotReported(w, e, q, i);
      var s := FillSlot(w, e, q, i);
      if s.ok {
        AllOkNext(q, w.mem, s.pool.mem, i, n);
        NextBound(i);
        FillManyFixed(q, s.pool, e, B.NextIndex(i), n - 1);
        FixedKeptChain(q, w.mem, s.pool.mem, FillMany(s.pool, e, q, B.NextIndex(i), n - 1).pool.mem);
      }
    }
  }

  /** The elements of entries that are not served again stay as they are. */
  lemma {:induction false} FillManyKeepsElement(q: B.Queue, w: Pool, e: Source, i: nat, n: nat, j: nat, d: nat)
    requires q.Usable() && i < 0x1_0000 && AllOk(w.mem, q, i, n) && d <= 4
    requires forall k: nat :: k < n ==> !SameEntry(q, Nth(i, k), j)
    ensures GuestRead(FillMany(w, e, q, i, n).pool.mem, q.UsedSlot(j) + d, 4) == GuestRead(w.mem, q.UsedSlot(j) + d, 4)
    decreases n
  {
    hide FillSlot, EntryOk, AllOk, GuestRead, SameEntry, B.Queue.UsedSlot, FixedKept, B.NextIndex;
    if n > 0 {
      FixedKeptSelf(q, w.mem);
      AllOkNext(q, w.mem, w.mem, i, n);
      NthZero(i);
      assert !SameEntry(q, Nth(i, 0), j);
      FillSlotKeepsElement(w, e, q, i, j, d);
      var s := FillSlot(w, e, q, i);
      if s.ok {
        SlotReported(w, e, q, i);
        AllOkNext(q, w.mem, s.pool.mem, i, n);
        NextBound(i);
        forall k: nat | k < n - 1
          ensures !SameEntry(q, Nth(B.NextIndex(i), k), j)
        {
          NthNext(i, k);
          assert !SameEntry(q, Nth(i, k + 1), j);
        }
        FillManyKeepsElement(q, s.pool, e, B.NextIndex(i), n - 1, j, d);
      }
    }
  }

  /** Entry `k` of the used ring names the head in entry `k` of the available ring, and as its length the number of
      bytes drawn for that request. */
  lemma {:induction false} UsedRingReports(q: B.Queue, w: Pool, e: Source, i: nat, n: nat, k: nat)
    requires q.Usable() && i < 0x1_0000 && AllOk(w.mem, q, i, n)
    requires 0x1_0000 % q.num == 0 && n <= q.num && k < n
    requires FillMany(w, e, q, i, n).ok
    ensures var r := FillMany(w, e, q, i, n).pool.mem;
      var drawn := FillMany(w, e, q, i, k + 1).pool.at - FillMany(w, e, q, i, k).pool.at;
      && GuestRead(w.mem, q.AvailSlot(Nth(i, k)), 2).Some?
      && GuestRead(r, q.UsedSlot(Nth(i, k)), 4) == GuestRead(w.mem, q.AvailSlot(Nth(i, k)), 2)
      && drawn >= 0
      && GuestRead(r, q.UsedSlot(Nth(i, k)) + 4, 4) == Some(drawn % 0x1_0000_0000)
    decreases n
  {
    hide FillSlot, EntryOk, AllOk, GuestRead, SameEntry, B.Queue.UsedSlot, B.Queue.AvailSlot, FixedKept, Nth,
         B.NextIndex;
    FixedKeptSelf(q, w.mem);
    AllOkNext(q, w.mem, w.mem, i, n);
    SlotReported(w, e, q, i);
    var s := FillSlot(w, e, q, i);
    AllOkNext(q, w.mem, s.pool.mem, i, n);
    NextBound(i);
    FillNone(w, e, q, i);
    FillNone(s.pool, e, q, B.NextIndex(i));
    if k == 0 {
      NthZero(i);
      forall j: nat | j < n - 1
        ensures !SameEntry(q, Nth(B.NextIndex(i), j), i)
      {
        NthNext(i, j);
        EntriesDiffer(q, i, j + 1);
      }
      FillManyKeepsElement(q, s.pool, e, B.NextIndex(i), n - 1, i, 0);
      FillManyKeepsElement(q, s.pool, e, B.NextIndex(i), n - 1, i, 4);
    } else {
      NthNext(i, k - 1);
      UsedRingReports(q, s.pool, e, B.NextIndex(i), n - 1, k - 1);
      EntryAt(w.mem, q, i, n, k);
      EntryOkFixed(q, w.mem, s.pool.mem, Nth(i, k));
    }
  }

  lemma EntryAt(m: seq<u8>, q: B.Queue, i: nat, n: nat, k: nat)
    requires q.Usable() && AllOk(m, q, i, n) && k < n
    ensures EntryOk(m, q, Nth(i, k))
  {
  }

  lemma {:induction false} FillManySimilar(q: B.Queue, m: seq<u8>, n: seq<u8>, at: nat, e: Source, i: nat, cnt: nat)
    requires q.Usable() && i < 0x1_0000 && AllOk(m, q, i, cnt) && Similar(q, m, n)
    ensures var s, t := FillMany(Pool(m, at), e, q, i, cnt), FillMany(Pool(n, at), e, q, i, cnt);
      s.ok == t.ok && s.pool.at == t.pool.at && Parallel(q, m, n, s.pool.mem, t.pool.mem)
    decreases cnt
  {
    hide FillSlot, EntryOk, AllOk, Parallel, Similar, FixedKept, B.NextIndex;
    if cnt == 0 {
      SimilarStart(q, m, n);
    } else {
      FixedKeptSelf(q, m);
      AllOkNext(q, m, m, i, cnt);
      SlotSimilar(q, m, n, at, e, i);
      var s, t := FillSlot(Pool(m, at), e, q, i), FillSlot(Pool(n, at), e, q, i);
      if s.ok {
        SlotReported(Pool(m, at), e, q, i);
        AllOkNext(q, m, s.pool.mem, i, cnt);
        ParallelSimilar(q, m, n, s.pool.mem, t.pool.mem);
        NextBound(i);
        FillManySimilar(q, s.pool.mem, t.pool.mem, s.pool.at, e, B.NextIndex(i), cnt - 1);
        var s', t' := FillMany(s.pool, e, q, B.NextIndex(i), cnt - 1), FillMany(t.pool, e, q, B.NextIndex(i), cnt - 1);
        ParallelTransitive(q, m, n, s.pool.mem, t.pool.mem, s'.pool.mem, t'.pool.mem);
      }
    }
  }

  lemma {:induction false} FillManySplit(w: Pool, e: Source, q: B.Queue, i: nat, a: nat, b: nat)
    requires q.Usable() && i < 0x1_0000
    ensures var s := FillMany(w, e, q, i, a);
      FillMany(w, e, q, i, a + b) == if s.ok then FillMany(s.pool, e, q, Nth(i, a), b) else s
    decreases a
  {
    hide FillSlot, B.NextIndex, Nth;
    NthZero(i);
    if a > 0 {
      NthNext(i, a - 1);
      NextBound(i);
      var s := FillSlot(w, e, q, i);
      if s.ok {
        FillManySplit(s.pool, e, q, B.NextIndex(i), a - 1, b);
      }
    }
  }

  /** Batching does not matter: serving n + k requests, and serving n, then k more in a memory where any
      index has since been published, succeed together, draw the same bytes, and leave memories that differ
      at most in the indices. */
  lemma BatchesAgree(w: Pool, e: Source, q: B.Queue, used: nat, n: nat, k: nat, later: seq<u8>)
    requires q.Usable() && used < 0x1_0000 && AllOk(w.mem, q, used, n + k)
    requires Similar(q, FillMany(w, e, q, used, n).pool.mem, later)
    ensures var one := FillMany(w, e, q, used, n + k);
      var first := FillMany(w, e, q, used, n);
      if !first.ok then one == first
      else
        var second := FillMany(Pool(later, first.pool.at), e, q, Nth(used, n), k);
        one.ok == second.ok && one.pool.at == second.pool.at && Similar(q, one.pool.mem, second.pool.mem)
  {
    hide FillMany, AllOk, Similar, Parallel, FixedKept, Nth;
    FillManySplit(w, e, q, used, n, k);
    var first := FillMany(w, e, q, used, n);
    if first.ok {
      FixedKeptSelf(q, w.mem);
      AllOkFixed(q, w.mem, w.mem, used, n, k);
      FillManyFixed(q, w, e, used, n);
      AllOkFixed(q, w.mem, first.pool.mem, used, n, k);
      NthBelow(used, n);
      FillManySimilar(q, first.pool.mem, later, first.pool.at, e, Nth(used, n), k);
      ParallelSimilar(q, first.pool.mem, later, FillMany(first.pool, e, q, Nth(used, n), k).pool.mem,
                      FillMany(Pool(later, first.pool.at), e, q, Nth(used, n), k).pool.mem);
    }
  }

  lemma NthBelow(i: nat, k: nat)
    ensures Nth(i, k) < 0x1_0000
  {
  }

  // ----- Notifications -----

  /** A notification that succeeds publishes the available index; one that fails keeps the used index. */
  lemma NotifyPublishes(w: Pool, e: Source, q: B.Queue, used: u16, n: nat)
    requires q.Usable() && n < 0x1_0000
    requires GuestRead(w.mem, q.UsedIdx(), 2) == Some(used) && GuestRead(w.mem, q.AvailIdx(), 2) == Some(Nth(used, n))
    requires GuestRead(w.mem, q.AvailFlags(), 2).Some? && AllOk(w.mem, q, used, n)
    ensures var s := FillMany(w, e, q, used, n);
      var r := Notify(w, e, q);
      && r.ok == s.ok && r.pool.at == s.pool.at && Similar(q, s.pool.mem, r.pool.mem)
      && GuestRead(r.pool.mem, q.UsedIdx(), 2) == Some(if r.ok then Nth(used, n) else used)
      && GuestRead(r.pool.mem, q.AvailIdx(), 2) == Some(Nth(used, n))
      && r.interrupt == (n > 0 && r.ok && GuestRead(w.mem, q.AvailFlags(), 2).value % 2 == 0)
      && r.pool.mem == (if n > 0 && s.ok then Publish(s.pool.mem, q.UsedIdx(), Nth(used, n)) else s.pool.mem)
  {
    hide GuestRead, FillMany, B.Outstanding, Nth, B.Queue.UsedIdx, B.Queue.AvailIdx, B.Queue.AvailFlags, AllOk,
         FixedKept, Publish, Fixed, Similar;
    OutstandingCount(used, n);
    FillManyFixed(q, w, e, used, n);
    var s := FillMany(w, e, q, used, n);
    FixedParts(q, 0, 0);
    ReadFixed(q, w.mem, s.pool.mem, q.UsedIdx(), 2);
    ReadFixed(q, w.mem, s.pool.mem, q.AvailIdx(), 2);
    PublishDefined(s.pool.mem, q.UsedIdx(), Nth(used, n));
    SimilarSelf(q, s.pool.mem);
    IndicesApart(q);
    PublishReads(s.pool.mem, q.UsedIdx(), Nth(used, n), q.AvailIdx());
    PublishSimilar(q, s.pool.mem, q.UsedIdx(), Nth(used, n));
    if n == 0 {
      FillNone(w, e, q, used);
    }
  }

  /** A notification that succeeds lists every outstanding head once, in order,
      with the number of bytes drawn for it. */
  lemma NotifyReports(w: Pool, e: Source, q: B.Queue, used: u16, n: nat, k: nat)
    requires q.Usable() && 0x1_0000 % q.num == 0 && n <= q.num && n < 0x1_0000 && k < n
    requires GuestRead(w.mem, q.UsedIdx(), 2) == Some(used) && GuestRead(w.mem, q.AvailIdx(), 2) == Some(Nth(used, n))
    requires GuestRead(w.mem, q.AvailFlags(), 2).Some? && AllOk(w.mem, q, used, n)
    requires Notify(w, e, q).ok
    ensures var r := Notify(w, e, q).pool.mem;
      var drawn := FillMany(w, e, q, used, k + 1).pool.at - FillMany(w, e, q, used, k).pool.at;
      && GuestRead(w.mem, q.AvailSlot(Nth(used, k)), 2).Some?
      && GuestRead(r, q.UsedSlot(Nth(used, k)), 4) == GuestRead(w.mem, q.AvailSlot(Nth(used, k)), 2)
      && GuestRead(r, q.UsedSlot(Nth(used, k)) + 4, 4) == Some(drawn % 0x1_0000_0000)
  {
    hide GuestRead, FillMany, Notify, Nth, B.Queue.UsedIdx, B.Queue.AvailIdx, B.Queue.AvailFlags, B.Queue.AvailSlot,
         B.Queue.UsedSlot, AllOk, Publish, Fixed, FixedKept, Similar;
    NotifyPublishes(w, e, q, used, n);
    UsedRingReports(q, w, e, used, n, k);
    var m := FillMany(w, e, q, used, n).pool.mem;
    FillManyFixed(q, w, e, used, n);
    FixedParts(q, 0, 0);
    ReadFixed(q, w.mem, m, q.UsedIdx(), 2);
    PublishKeepsElement(q, m, Nth(used, n), Nth(used, k), 0);
    PublishKeepsElement(q, m, Nth(used, n), Nth(used, k), 4);
  }

  lemma SimilarSelf(q: B.Queue, m: seq<u8>)
    requires q.Usable()
    ensures Similar(q, m, m)
  {
  }

  lemma FillNone(w: Pool, e: Source, q: B.Queue, i: nat)
    requires q.Usable()
    ensures FillMany(w, e, q, i, 0) == Served(true, w)
  {
  }

  // ----- Batching of notifications -----

  lemma {:induction false} ChainOkSimilar(q: B.Queue, m: seq<u8>, n: seq<u8>, idx: nat, left: nat)
    requires q.Usable() && Similar(q, m, n) && ChainOk(m, q, idx, left)
    ensures ChainOk(n, q, idx, left)
    decreases left
  {
    hide B.ReadDesc, Similar, OffRing;
    if left > 0 {
      DescSimilar(q, m, n, idx);
      var d := B.ReadDesc(m, q.DescAt(idx));
      if d.Some? && B.HasNext(d.value) {
        ChainOkSimilar(q, m, n, d.value.next, left - 1);
      }
    }
  }

  lemma AllOkSimilar(q: B.Queue, m: seq<u8>, n: seq<u8>, i: nat, cnt: nat)
    requires q.Usable() && AllOk(m, q, i, cnt) && Similar(q, m, n)
    ensures AllOk(n, q, i, cnt)
  {
    hide GuestRead, Similar, ChainOk, B.Queue.AvailSlot;
    forall k: nat | k < cnt
      ensures EntryOk(n, q, Nth(i, k))
    {
      SlotsOffIndex(q, Nth(i, k), 0);
      ReadSimilar(q, m, n, q.AvailSlot(Nth(i, k)), 2);
      assert EntryOk(m, q, Nth(i, k));
      var head := GuestRead(m, q.AvailSlot(Nth(i, k)), 2);
      if head.Some? {
        ChainOkSimilar(q, m, n, head.value, ENTROPY_CHAIN_LEN);
      }
    }
  }

  /** The driver makes requests available up to index `v`. */
  function Offered(w: Pool, q: B.Queue, v: u16): Pool
    requires q.Usable() && GuestRead(w.mem, q.AvailIdx(), 2).Some?
  {
    Pool(Publish(w.mem, q.AvailIdx(), v), w.at)
  }

  /** The used index is `used`, the ring registers are readable, and the next `n` requests are well formed. */
  ghost predicate Prepared(w: Pool, q: B.Queue, used: u16, n: nat)
    requires q.Usable()
  {
    && GuestRead(w.mem, q.UsedIdx(), 2) == Some(used)
    && GuestRead(w.mem, q.AvailIdx(), 2).Some?
    && GuestRead(w.mem, q.AvailFlags(), 2).Some?
    && AllOk(w.mem, q, used, n)
  }

  lemma OfferedPrepared(w: Pool, q: B.Queue, used: u16, n: nat, v: u16)
    requires q.Usable() && Prepared(w, q, used, n)
    ensures var a := Offered(w, q, v);
      Prepared(a, q, used, n) && Similar(q, w.mem, a.mem) && Similar(q, a.mem, w.mem) &&
          GuestRead(a.mem, q.AvailIdx(), 2) == Some(v)
      && GuestRead(a.mem, q.AvailFlags(), 2) == GuestRead(w.mem, q.AvailFlags(), 2)
  {
    hide GuestRead, B.Queue.UsedIdx, B.Queue.AvailIdx, B.Queue.AvailFlags, AllOk, Similar, Publish;
    IndicesApart(q);
    PublishReads(w.mem, q.AvailIdx(), v, q.UsedIdx());
    PublishReads(w.mem, q.AvailIdx(), v, q.AvailFlags());
    PublishSimilar(q, w.mem, q.AvailIdx(), v);
    AllOkSimilar(q, w.mem, Offered(w, q, v).mem, used, n);
  }

  lemma FewerOk(q: B.Queue, m: seq<u8>, i: nat, n: nat, k: nat)
    requires q.Usable() && AllOk(m, q, i, n + k)
    ensures AllOk(m, q, i, n) && AllOk(m, q, Nth(i, n), k)
  {
    hide FixedKept, EntryOk, AllOk;
    FixedKeptSelf(q, m);
    AllOkFixed(q, m, m, i, n, k);
  }

  /** After the first notification, the state in which the second is given. */
  lemma FirstNotified(w: Pool, e: Source, q: B.Queue, used: u16, n: nat, k: nat)
    requires q.Usable() && n + k < 0x1_0000 && Prepared(w, q, used, n + k)
    ensures var a := Offered(w, q, Nth(used, n + k));
      var s := FillMany(a, e, q, used, n);
      var f := Notify(Offered(w, q, Nth(used, n)), e, q);
      && f.ok == s.ok && f.pool.at == s.pool.at
      && (f.ok ==> Prepared(f.pool, q, Nth(used, n), k) && Similar(q, s.pool.mem, f.pool.mem))
      && f.interrupt == (n > 0 && f.ok && GuestRead(w.mem, q.AvailFlags(), 2).value % 2 == 0)
      && (f.ok ==> GuestRead(f.pool.mem, q.AvailFlags(), 2) == GuestRead(w.mem, q.AvailFlags(), 2))
  {
    hide GuestRead, FillMany, Notify, Nth, B.Queue.UsedIdx, B.Queue.AvailIdx, B.Queue.AvailFlags, AllOk, Similar,
         Parallel, Publish, Offered, FixedKept;
    var a, b := Offered(w, q, Nth(used, n + k)), Offered(w, q, Nth(used, n));
    OfferedPrepared(w, q, used, n + k, Nth(used, n + k));
    OfferedPrepared(w, q, used, n + k, Nth(used, n));
    SameAt(w, q, Nth(used, n + k), Nth(used, n));
    FewerOk(q, a.mem, used, n, k);
    FewerOk(q, b.mem, used, n, k);
    SimilarTransitive(q, a.mem, w.mem, b.mem);
    FillManySimilar(q, a.mem, b.mem, w.at, e, used, n);
    NotifyPublishes(b, e, q, used, n);
    var s, t := FillMany(a, e, q, used, n), FillMany(b, e, q, used, n);
    var f := Notify(b, e, q);
    ParallelSimilar(q, a.mem, b.mem, s.pool.mem, t.pool.mem);
    SimilarTransitive(q, s.pool.mem, t.pool.mem, f.pool.mem);
    if f.ok {
      FillManyFixed(q, a, e, used, n);
      AllOkFixed(q, a.mem, s.pool.mem, used, n, k);
      AllOkSimilar(q, s.pool.mem, f.pool.mem, Nth(used, n), k);
      FlagsKept(q, a.mem, s.pool.mem, f.pool.mem);
    }
  }

  lemma SameAt(w: Pool, q: B.Queue, v: u16, u: u16)
    requires q.Usable() && GuestRead(w.mem, q.AvailIdx(), 2).Some?
    ensures Offered(w, q, v) == Pool(Offered(w, q, v).mem, w.at) && Offered(w, q, u) == Pool(Offered(w, q, u).mem, w.at)
  {
  }

  lemma FlagsKept(q: B.Queue, a: seq<u8>, s: seq<u8>, f: seq<u8>)
    requires q.Usable() && FixedKept(q, a, s) && Similar(q, s, f)
    ensures GuestRead(a, q.AvailFlags(), 2) == GuestRead(f, q.AvailFlags(), 2)
  {
    hide GuestRead, FixedKept, Fixed, Similar, B.Queue.AvailFlags;
    FixedParts(q, 0, 0);
    ReadFixed(q, a, s, q.AvailFlags(), 2);
    SimilarFlags(q, s, f);
  }

  /** One notification for n + k requests and two, for n and then for the k more, succeed together and leave
      the same guest memory, having drawn the same random bytes, with an interrupt raised by one exactly when it is
      raised by the two. */
  lemma NotificationsAgree(w: Pool, e: Source, q: B.Queue, used: u16, n: nat, k: nat)
    requires q.Usable() && n + k < 0x1_0000 && Prepared(w, q, used, n + k)
    ensures var one := Notify(Offered(w, q, Nth(used, n + k)), e, q);
      var first := Notify(Offered(w, q, Nth(used, n)), e, q);
      && (!first.ok ==> !one.ok)
      && (first.ok ==>
            && GuestRead(first.pool.mem, q.AvailIdx(), 2).Some?
            && var second := Notify(Offered(first.pool, q, Nth(used, n + k)), e, q);
               && one.ok == second.ok
               && one.interrupt == (one.ok && (first.interrupt || second.interrupt))
               && (one.ok ==> one.pool == second.pool))
  {
    hide GuestRead, FillMany, Notify, Nth, B.Queue.UsedIdx, B.Queue.AvailIdx, B.Queue.AvailFlags, AllOk, Similar,
         Publish, Offered;
    var v := Nth(used, n + k);
    var a := Offered(w, q, v);
    OfferedPrepared(w, q, used, n + k, v);
    NotifyPublishes(a, e, q, used, n + k);
    FirstNotified(w, e, q, used, n, k);
    FillManySplit(a, e, q, used, n, k);
    var s := FillMany(a, e, q, used, n);
    var first := Notify(Offered(w, q, Nth(used, n)), e, q);
    if first.ok {
      SecondNotified(a, s, first.pool, e, q, used, n, k);
    }
  }

  lemma SecondNotified(a: Pool, s: Served, f: Pool, e: Source, q: B.Queue, used: u16, n: nat, k: nat)
    requires q.Usable() && n + k < 0x1_0000 && Prepared(a, q, used, n + k)
    requires GuestRead(a.mem, q.AvailIdx(), 2) == Some(Nth(used, n + k))
    requires s == FillMany(a, e, q, used, n) && s.ok && s.pool.at == f.at && Similar(q, s.pool.mem, f.mem)
    requires Prepared(f, q, Nth(used, n), k)
    ensures var one := Notify(a, e, q);
      var second := Notify(Offered(f, q, Nth(used, n + k)), e, q);
      && one.ok == second.ok && (one.ok ==> one.pool == second.pool)
      && one.interrupt == (n + k > 0 && one.ok && GuestRead(a.mem, q.AvailFlags(), 2).value % 2 == 0)
      && second.interrupt == (k > 0 && second.ok && GuestRead(f.mem, q.AvailFlags(), 2).value % 2 == 0)
  {
    hide GuestRead, FillMany, Notify, Nth, B.Queue.UsedIdx, B.Queue.AvailIdx, B.Queue.AvailFlags, AllOk, Similar,
         Publish, Offered;
    var v := Nth(used, n + k);
    var c := Offered(f, q, v);
    OfferedPrepared(f, q, Nth(used, n), k, v);
    SameAt(f, q, v, v);
    SimilarTransitive(q, s.pool.mem, f.mem, c.mem);
    BatchesAgree(a, e, q, used, n, k, c.mem);
    NotifyPublishes(a, e, q, used, n + k);
    NthNth(used, n, k);
    NotifyPublishes(c, e, q, Nth(used, n), k);
    var one, second := Notify(a, e, q), Notify(c, e, q);
    var x, y := FillMany(a, e, q, used, n + k).pool.mem, FillMany(c, e, q, Nth(used, n), k).pool.mem;
    SimilarSymmetric(q, x, one.pool.mem);
    SimilarTransitive(q, one.pool.mem, x, y);
    SimilarTransitive(q, one.pool.mem, y, second.pool.mem);
    if one.ok {
      SimilarAndIndicesEqual(q, one.pool.mem, second.pool.mem);
    }
  }
}
