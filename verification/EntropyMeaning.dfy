/** What the entropy device writes: the bytes it has drawn, end to end in the writable buffers of a chain. */
module EntropyMeaning {
  import opened Words
  import opened GuestMemory
  import opened EntropyDevice
  import opened EntropyLaws
  import opened RequestMeaning
  import opened RingProtocol
  import opened Batching
  import RL = RingLaws
  import B = BlockDevice

  /** Bit 1 of the flags of descriptor `d`: the device may write. */
  predicate Writable(m: seq<u8>, table: nat, d: nat)
    requires Present(m, table, d)
  {
    NumberAt(m, table + 16 * d + 12, 2).value / 2 % 2 == 1
  }

  /** `path` lists the descriptors of a chain from its head on, to its end or to the `left`-th. */
  predicate Visits(m: seq<u8>, table: nat, path: seq<nat>, left: nat) {
    && path != [] && |path| <= left
    && Present(m, table, path[0])
    && if !Continues(m, table, path[0]) || left == 1 then |path| == 1
       else
         && |path| > 1
         && NumberAt(m, table + 16 * path[0] + 14, 2) == Some(path[1])
         && Visits(m, table, path[1..], left - 1)
  }

  /** The writable buffers on the path, in order. */
  function WritableBuffers(m: seq<u8>, table: nat, path: seq<nat>): seq<Buffer> {
    if path == [] then []
    else
      var rest := WritableBuffers(m, table, path[1..]);
      if Present(m, table, path[0]) && Writable(m, table, path[0]) then
        [Buffer(NumberAt(m, table + 16 * path[0], 8).value, NumberAt(m, table + 16 * path[0] + 8, 4).value)] + rest
      else rest
  }

  /** The next `n` bytes of the source. */
  function Supplied(e: Source, at: nat, n: nat): (b: seq<u8>)
    ensures |b| == n
  {
    seq(n, x requires 0 <= x < n => e(at + x))
  }

  lemma SuppliedIs(e: Source, at: nat, n: nat)
    ensures Drawn(e, at, n) == Supplied(e, at, n)
  {
  }

  lemma SuppliedSplit(e: Source, at: nat, n: nat, k: nat)
    requires n <= k
    ensures Supplied(e, at, k)[..n] == Supplied(e, at, n) && Supplied(e, at, k)[n..] == Supplied(e, at + n, k - n)
  {
  }

  lemma WritableIs(m: seq<u8>, q: B.Queue, d: nat)
    ensures Present(m, q.addr, d) ==>
      (DeviceWritable(B.ReadDesc(m, q.DescAt(d)).value) <==> Writable(m, q.addr, d))
  {
    hide GuestRead, NumberAt;
    DescriptorIs(m, q, d);
    NumberIs(m, q.addr + 16 * d + 12, 2);
  }

  /** The first buffer of a scatter. */
  lemma ScatterStep(m: seq<u8>, b: Buffer, rest: seq<Buffer>, data: seq<u8>)
    requires |data| == b.len + TotalLength(rest)
    ensures TotalLength([b] + rest) == b.len + TotalLength(rest)
    ensures var first := WriteRun(m, b.addr, data[..b.len]);
      Scatter(m, [b] + rest, data) == if !first.ok then first else Scatter(first.mem, rest, data[b.len..])
  {
    hide WriteRun;
    assert ([b] + rest)[1..] == rest;
  }

  /** The filled chain is a scatter of the source's bytes over the writable buffers that the driver laid out in `m0`. */
  ghost predicate FilledBy(m: seq<u8>, e: Source, at: nat, bufs: seq<Buffer>, f: Filled, total: nat) {
    var n := TotalLength(bufs);
    f.at == at + n && f.total == total + n && Scatter(m, bufs, Supplied(e, at, n)) == Run(true, f.mem)
  }

  lemma FilledNothing(m: seq<u8>, e: Source, at: nat, total: nat)
    ensures FilledBy(m, e, at, [], Filled(true, m, at, total), total)
  {
  }

  lemma FilledStep(m: seq<u8>, e: Source, at: nat, d: B.Desc, rest: seq<Buffer>, f: Filled, total: nat)
    requires var r := FillDesc(m, e, at, d);
      r.ok && FilledBy(r.mem, e, at + Taken(d), rest, f, total + Taken(d))
    ensures FilledBy(m, e, at, (if DeviceWritable(d) then [Buffer(d.addr, d.len)] else []) + rest, f, total)
  {
    hide WriteRun, Scatter, DeviceWritable, Supplied;
    if DeviceWritable(d) {
      var n := d.len + TotalLength(rest);
      var data := Supplied(e, at, n);
      SuppliedIs(e, at, d.len);
      SuppliedSplit(e, at, d.len, n);
      ScatterStep(m, Buffer(d.addr, d.len), rest, data);
    } else {
      assert [] + rest == rest;
    }
  }

  lemma KeptThrough(q: B.Queue, m0: seq<u8>, m: seq<u8>, e: Source, at: nat, d: B.Desc)
    requires q.Usable() && FixedKept(q, m0, m) && (DeviceWritable(d) ==> RL.OffRing(q, d.addr, d.len))
    ensures FixedKept(q, m0, FillDesc(m, e, at, d).mem)
  {
    hide FixedKept, FillDesc, RL.OffRing, DeviceWritable;
    FillDescKeepsFixed(q, m, e, at, d);
    FixedKeptChain(q, m0, m, FillDesc(m, e, at, d).mem);
  }

  /** The descriptor that a well-behaved driver has put at `idx`. */
  lemma Reached(m0: seq<u8>, m: seq<u8>, q: B.Queue, idx: nat, left: nat)
    requires q.Usable() && left > 0 && ChainOk(m0, q, idx, left) && FixedKept(q, m0, m)
    ensures B.ReadDesc(m, q.DescAt(idx)) == B.ReadDesc(m0, q.DescAt(idx))
    ensures var d := B.ReadDesc(m0, q.DescAt(idx));
      d.Some? ==>
        && (DeviceWritable(d.value) ==> RL.OffRing(q, d.value.addr, d.value.len))
        && (B.HasNext(d.value) ==> ChainOk(m0, q, d.value.next, left - 1))
  {
    hide B.ReadDesc, FixedKept, DeviceWritable, B.HasNext, B.Queue.DescAt, RL.OffRing;
    DescFixed(q, m0, m, idx);
  }

  lemma VisitsStep(m: seq<u8>, table: nat, idx: nat, p: seq<nat>, left: nat)
    requires Present(m, table, idx) && left > 0
    requires if !Continues(m, table, idx) || left == 1 then p == []
             else p != [] && NumberAt(m, table + 16 * idx + 14, 2) == Some(p[0]) && Visits(m, table, p, left - 1)
    ensures Visits(m, table, [idx] + p, left)
    ensures WritableBuffers(m, table, [idx] + p) ==
      (if Writable(m, table, idx)
       then [Buffer(NumberAt(m, table + 16 * idx, 8).value, NumberAt(m, table + 16 * idx + 8, 4).value)] else [])
      + WritableBuffers(m, table, p)
  {
    hide NumberAt, Writable, Continues;
    assert ([idx] + p)[1..] == p;
  }

  lemma {:induction false} FilledAlong(m0: seq<u8>, m: seq<u8>, e: Source, at: nat, q: B.Queue, idx: nat, left: nat,
      total: nat) returns (path: seq<nat>)
    requires q.Usable() && left > 0 && ChainOk(m0, q, idx, left) && FixedKept(q, m0, m)
    requires FillChain(m, e, at, q, idx, left, total).ok
    ensures Visits(m0, q.addr, path, left) && path[0] == idx
    ensures FilledBy(m, e, at, WritableBuffers(m0, q.addr, path), FillChain(m, e, at, q, idx, left, total), total)
    decreases left
  {
    hide B.ReadDesc, FixedKept, NumberAt, DeviceWritable, B.HasNext, B.Queue.DescAt, RL.OffRing, FillDesc, Present,
         Writable, Continues, FillChain, ChainOk, FilledBy, Visits, WritableBuffers;
    FillStep(m, e, at, q, idx, left, total);
    Reached(m0, m, q, idx, left);
    DescriptorIs(m0, q, idx);
    WritableIs(m0, q, idx);
    var d := B.ReadDesc(m0, q.DescAt(idx)).value;
    var r := FillDesc(m, e, at, d);
    var f := FillChain(m, e, at, q, idx, left, total);
    var p: seq<nat> := [];
    if !B.HasNext(d) || left == 1 {
      FillCut(r.mem, e, at + Taken(d), q, d.next, total + Taken(d));
      FilledNothing(r.mem, e, at + Taken(d), total + Taken(d));
      NoBuffers(m0, q.addr);
    } else {
      KeptThrough(q, m0, m, e, at, d);
      p := FilledAlong(m0, r.mem, e, at + Taken(d), q, d.next, left - 1, total + Taken(d));
      PathStarts(m0, q.addr, p, left - 1);
    }
    path := [idx] + p;
    VisitsStep(m0, q.addr, idx, p, left);
    FilledStep(m, e, at, d, WritableBuffers(m0, q.addr, p), f, total);
  }

  lemma NoBuffers(m: seq<u8>, table: nat)
    ensures WritableBuffers(m, table, []) == []
  {
  }

  lemma PathStarts(m: seq<u8>, table: nat, path: seq<nat>, left: nat)
    requires Visits(m, table, path, left)
    ensures path != []
  {
  }

  /** A chain that is filled: from its head on the device visits at most 64 descriptors and draws exactly as many bytes
      as the writable ones among them hold. When their buffers are disjoint, they hold these bytes, in order; no other
      byte of memory has changed. */
  lemma ChainFilled(m: seq<u8>, e: Source, at: nat, q: B.Queue, head: nat) returns (path: seq<nat>)
    requires q.Usable() && ChainOk(m, q, head, 64) && FillChain(m, e, at, q, head, 64, 0).ok
    ensures Visits(m, q.addr, path, 64) && path[0] == head
    ensures var f := FillChain(m, e, at, q, head, 64, 0);
      var bufs := WritableBuffers(m, q.addr, path);
      var n := TotalLength(bufs);
      && f.total == n && f.at == at + n && Spares(m, f.mem, bufs)
      && (PairwiseDisjoint(bufs) ==> HoldsBytes(f.mem, bufs, Supplied(e, at, n)))
  {
    hide FillChain, ChainOk, Visits, WritableBuffers, Scatter, Supplied, HoldsBytes, Spares, PairwiseDisjoint,
         FixedKept;
    FixedKeptSelf(q, m);
    path := FilledAlong(m, m, e, at, q, head, 64, 0);
    var bufs := WritableBuffers(m, q.addr, path);
    var data := Supplied(e, at, TotalLength(bufs));
    FilledSpares(m, bufs, data);
    if PairwiseDisjoint(bufs) {
      FilledHolds(m, bufs, data);
    }
  }

  // ----- One request -----

  /** The memory `n` is `m` with element `i` of the used ring at `ring` written. */
  ghost predicate Listed(m: seq<u8>, n: seq<u8>, q: B.Queue, ring: nat, i: nat, head: nat, len: nat)
    requires q.num > 0
  {
    var x := ring + 4 + 8 * (i % q.num);
    && |n| == |m|
    && NumberAt(n, x, 4) == Some(head) && NumberAt(n, x + 4, 4) == Some(len % 0x1_0000_0000)
    && forall o :: 0 <= o < |m| && !(x <= o + 0x8000_0000 < x + 8) ==> n[o] == m[o]
  }

  lemma ReportIs(m: seq<u8>, q: B.Queue, ring: nat, i: nat, head: nat, total: nat)
    requires q.Usable() && UsedRingAt(q, ring) && head < 0x1_0000 && Report(m, q, i, head, total).ok
    ensures Listed(m, Report(m, q, i, head, total).mem, q, ring, i, head, total)
  {
    hide NumberAt, ToBytes, FromBytes, B.Queue.UsedOffset, GuestRead, UsedRingAt;
    UsedRingIs(q);
    UsedRingUnique(q, ring, q.addr + q.UsedOffset());
    var x := ring + 4 + 8 * (i % q.num);
    assert q.UsedSlot(i) == x;
    hide B.Queue.UsedSlot;
    var n := Report(m, q, i, head, total).mem;
    ReportReads(q, m, i, head, total);
    NumberIs(n, x, 4);
    NumberIs(n, x + 4, 4);
    hide Report;
    forall o | 0 <= o < |m| && !(x <= o + 0x8000_0000 < x + 8)
      ensures n[o] == m[o]
    {
      ReportFrame(q, m, i, head, total, o);
    }
  }

  lemma HeadIs(m: seq<u8>, q: B.Queue, i: nat)
    requires q.num > 0
    ensures GuestRead(m, q.AvailSlot(i), 2) == NumberAt(m, q.addr + 16 * q.num + 4 + 2 * (i % q.num), 2)
    ensures var r := GuestRead(m, q.AvailSlot(i), 2); r.Some? ==> r.value < 0x1_0000
  {
    assert q.AvailSlot(i) == q.addr + 16 * q.num + 4 + 2 * (i % q.num);
    hide NumberAt, GuestRead, B.Queue.AvailSlot;
    NumberIs(m, q.AvailSlot(i), 2);
    HeadBound(m, q.AvailSlot(i));
  }

  lemma SlotParts(w: Pool, e: Source, q: B.Queue, i: nat)
    requires q.Usable() && EntryOk(w.mem, q, i) && FillSlot(w, e, q, i).ok
    ensures GuestRead(w.mem, q.AvailSlot(i), 2).Some?
    ensures var head := GuestRead(w.mem, q.AvailSlot(i), 2).value;
      var f := FillChain(w.mem, e, w.at, q, head, 64, 0);
      && ChainOk(w.mem, q, head, 64) && f.ok && Report(f.mem, q, i, head, f.total).ok
      && FillSlot(w, e, q, i).pool == Pool(Report(f.mem, q, i, head, f.total).mem, f.at)
  {
    hide FillChain, ChainOk, Report, GuestRead, B.Queue.AvailSlot;
  }

  /** A request that succeeds: the chain whose head the slot of the available ring names is filled to give the memory
      `f`, and its used element lists the head and the number of bytes drawn, modulo 2^32. */
  lemma SlotFilled(w: Pool, e: Source, q: B.Queue, ring: nat, i: nat) returns (path: seq<nat>, f: seq<u8>)
    requires q.Usable() && EntryOk(w.mem, q, i) && UsedRingAt(q, ring) && FillSlot(w, e, q, i).ok
    ensures Visits(w.mem, q.addr, path, 64)
    ensures NumberAt(w.mem, q.addr + 16 * q.num + 4 + 2 * (i % q.num), 2) == Some(path[0])
    ensures var after := FillSlot(w, e, q, i).pool;
      var bufs := WritableBuffers(w.mem, q.addr, path);
      var n := TotalLength(bufs);
      && after.at == w.at + n && Spares(w.mem, f, bufs)
      && (PairwiseDisjoint(bufs) ==> HoldsBytes(f, bufs, Supplied(e, w.at, n)))
      && Listed(f, after.mem, q, ring, i, path[0], n)
  {
    hide FillChain, ChainOk, Visits, WritableBuffers, Supplied, HoldsBytes, Spares, PairwiseDisjoint, UsedRingAt,
         Report, Listed, NumberAt, GuestRead, FillSlot, EntryOk, B.Queue.AvailSlot;
    HeadIs(w.mem, q, i);
    SlotParts(w, e, q, i);
    var head := GuestRead(w.mem, q.AvailSlot(i), 2).value;
    path := ChainFilled(w.mem, e, w.at, q, head);
    var r := FillChain(w.mem, e, w.at, q, head, 64, 0);
    f := r.mem;
    ReportIs(f, q, ring, i, head, r.total);
  }
}
