/** What a queue notification does, told by the numbers in the rings, the bytes of the buffers and those of the disk. */
module RequestMeaning {
  import opened Words
  import opened GuestMemory
  import opened BlockDevice
  import BL = BlockLaws
  import RL = RingLaws
  import M = Memory

  // ----- A request as the driver has laid it out -----

  /** The little-endian number in `n` bytes of guest memory. */
  function NumberAt(m: seq<u8>, a: nat, n: nat): Option<nat> {
    if 0x8000_0000 <= a && a - 0x8000_0000 + n <= |m|
    then Some(FromBytes(m[a - 0x8000_0000..a - 0x8000_0000 + n]))
    else None
  }

  /** The four fields of descriptor `d` of the table are in memory. */
  predicate Present(m: seq<u8>, table: nat, d: nat) {
    && NumberAt(m, table + 16 * d, 8).Some? && NumberAt(m, table + 16 * d + 8, 4).Some?
    && NumberAt(m, table + 16 * d + 12, 2).Some? && NumberAt(m, table + 16 * d + 14, 2).Some?
  }

  /** Bit 0 of the flags of descriptor `d`: another one follows. */
  predicate Continues(m: seq<u8>, table: nat, d: nat)
    requires Present(m, table, d)
  {
    NumberAt(m, table + 16 * d + 12, 2).value % 2 == 1
  }

  /** `path` lists the descriptors of one chain. */
  predicate Walks(m: seq<u8>, table: nat, path: seq<nat>) {
    && path != []
    && Present(m, table, path[0])
    && if |path| == 1 then !Continues(m, table, path[0])
       else
         && Continues(m, table, path[0])
         && NumberAt(m, table + 16 * path[0] + 14, 2) == Some(path[1])
         && Walks(m, table, path[1..])
  }

  /** A request: the head of its chain, the kind and sector in its header, its buffers and its status byte. */
  datatype Request = Request(head: nat, header: nat, kind: nat, sector: nat, bufs: seq<Buffer>, status: nat)

  /** Available slot `i` holds the head of a chain of at least two and at most 256 descriptors: the first points to the
      header, with the kind in its first four bytes and the sector in its last eight, the last points to the status
      byte, and those between describe the buffers. */
  predicate Names(m: seq<u8>, q: Queue, i: nat, path: seq<nat>, r: Request)
    requires q.num > 0
  {
    && 2 <= |path| <= 256 && Walks(m, q.addr, path)
    && NumberAt(m, q.addr + 16 * q.num + 4 + 2 * (i % q.num), 2) == Some(path[0]) && r.head == path[0]
    && NumberAt(m, q.addr + 16 * path[0], 8) == Some(r.header)
    && NumberAt(m, r.header, 4) == Some(r.kind) && NumberAt(m, r.header + 8, 8) == Some(r.sector)
    && |r.bufs| == |path| - 2
    && (forall k :: 0 <= k < |r.bufs| ==>
          && NumberAt(m, q.addr + 16 * path[k + 1], 8) == Some(r.bufs[k].addr)
          && NumberAt(m, q.addr + 16 * path[k + 1] + 8, 4) == Some(r.bufs[k].len))
    && NumberAt(m, q.addr + 16 * path[|path| - 1], 8) == Some(r.status)
  }

  // ----- What a request is to do -----

  /** The byte at guest address `a`. */
  predicate ByteIs(m: seq<u8>, a: nat, v: u8) {
    0x8000_0000 <= a < 0x8000_0000 + |m| && m[a - 0x8000_0000] == v
  }

  predicate RunIs(m: seq<u8>, a: nat, bytes: seq<u8>) {
    forall x :: 0 <= x < |bytes| ==> ByteIs(m, a + x, bytes[x])
  }

  /** The buffers hold `data`, end to end. */
  predicate HoldsBytes(m: seq<u8>, bufs: seq<Buffer>, data: seq<u8>) {
    if bufs == [] then data == []
    else
      var b := bufs[0];
      && b.len <= |data|
      && RunIs(m, b.addr, data[..b.len])
      && HoldsBytes(m, bufs[1..], data[b.len..])
  }

  /** A transfer that does not fit the capacity, an identification without a buffer, and every kind but 0, 1, 4 and 8
      are answered with status 2. */
  predicate Refused(r: Request, capacity: nat) {
    if r.kind == 0 || r.kind == 1 then r.sector + (TotalLength(r.bufs) + 511) / 512 > capacity
    else if r.kind == 8 then r.bufs == []
    else r.kind != 4
  }

  /** A write, kind 1, replaces the bytes from 512 times the sector on by those of the buffers; nothing else changes the
      disk. */
  ghost predicate DiskAfter(w: World, capacity: nat, r: Request, disk: seq<u8>) {
    var from, total := 512 * r.sector, TotalLength(r.bufs);
    if r.kind == 1 && !Refused(r, capacity) then
      && |disk| == |w.disk| && from + total <= |disk|
      && HoldsBytes(w.mem, r.bufs, disk[from..from + total])
      && forall o :: 0 <= o < |disk| && !(from <= o < from + total) ==> disk[o] == w.disk[o]
    else disk == w.disk
  }

  /** Bytes outside the buffers are as they were. */
  ghost predicate Spares(m: seq<u8>, n: seq<u8>, bufs: seq<Buffer>) {
    |n| == |m| && forall o :: 0 <= o < |m| && !InBuffers(bufs, o + 0x8000_0000) ==> n[o] == m[o]
  }

  /** A read, kind 0, fills the buffers with the bytes from 512 times the sector on; an identification, kind 8, fills
      the first with the serial number and zeros; no other kind writes a buffer. */
  ghost predicate BuffersAfter(w: World, capacity: nat, r: Request, m: seq<u8>) {
    var from, total := 512 * r.sector, TotalLength(r.bufs);
    if r.kind == 0 && !Refused(r, capacity) then
      && from + total <= |w.disk| && Spares(w.mem, m, r.bufs)
      && (PairwiseDisjoint(r.bufs) ==> HoldsBytes(m, r.bufs, w.disk[from..from + total]))
    else if r.kind == 8 && !Refused(r, capacity) then
      && Spares(w.mem, m, r.bufs[..1]) && HoldsBytes(m, r.bufs[..1], Serial(r.bufs[0].len))
    else m == w.mem
  }

  /** The text MYSIM-VIRTIO-BLK, cut or filled with zeros. */
  function Serial(len: nat): (b: seq<u8>)
    ensures |b| == len
  {
    var text: seq<u8> := [77, 89, 83, 73, 77, 45, 86, 73, 82, 84, 73, 79, 45, 66, 76, 75];
    seq(len, x requires 0 <= x < len => if x < 16 then text[x] else 0)
  }

  /** Where the used ring starts: the first multiple of the alignment from the end of the available ring on. */
  ghost predicate UsedRingAt(q: Queue, a: nat) {
    && q.align > 0
    && q.addr <= a && (a - q.addr) % q.align == 0
    && 18 * q.num + 6 <= a - q.addr < 18 * q.num + 6 + q.align
  }

  /** The memory `n` is `m` with the status byte and element `i` of the used ring at `ring` written. */
  ghost predicate Reported(m: seq<u8>, n: seq<u8>, q: Queue, ring: nat, i: nat, r: Request, status: nat, len: nat)
    requires q.num > 0
  {
    var e := ring + 4 + 8 * (i % q.num);
    && |n| == |m|
    && NumberAt(n, e, 4) == Some(r.head % 0x1_0000_0000) && NumberAt(n, e + 4, 4) == Some(len % 0x1_0000_0000)
    && 0x8000_0000 <= r.status < 0x8000_0000 + |m|
    && (!(e <= r.status < e + 8) ==> n[r.status - 0x8000_0000] == status)
    && forall o :: 0 <= o < |m| && o + 0x8000_0000 != r.status && !(e <= o + 0x8000_0000 < e + 8) ==> n[o] == m[o]
  }

  /** The length reported: one for the status byte, and the bytes of the buffers for a read, of the first for an
      identification. */
  function ReportedLength(r: Request): nat {
    if r.kind == 0 then TotalLength(r.bufs) + 1
    else if r.kind == 8 && r.bufs != [] then r.bufs[0].len + 1
    else 1
  }

  /** The request in slot `i` has been served: its buffers are filled to give the memory `m`, the disk is written, and
      the outcome is reported. */
  ghost predicate Serves(w: World, capacity: nat, q: Queue, ring: nat, i: nat, r: Request, m: seq<u8>, after: World)
    requires q.num > 0
  {
    && DiskAfter(w, capacity, r, after.disk)
    && BuffersAfter(w, capacity, r, m)
    && Reported(m, after.mem, q, ring, i, r, if Refused(r, capacity) then 2 else 0, ReportedLength(r))
  }

  // ----- Numbers, chains and buffers of the code -----

  lemma NumberIs(m: seq<u8>, a: nat, n: nat)
    ensures GuestRead(m, a, n) == NumberAt(m, a, n)
  {
  }

  lemma DescriptorIs(m: seq<u8>, q: Queue, d: nat)
    ensures ReadDesc(m, q.DescAt(d)).Some? <==> Present(m, q.addr, d)
    ensures Present(m, q.addr, d) ==>
              var x := ReadDesc(m, q.DescAt(d)).value;
              && NumberAt(m, q.addr + 16 * d, 8) == Some(x.addr) && NumberAt(m, q.addr + 16 * d + 8, 4) == Some(x.len)
              && NumberAt(m, q.addr + 16 * d + 14, 2) == Some(x.next) && (HasNext(x) <==> Continues(m, q.addr, d))
  {
    hide GuestRead, NumberAt;
    var a := q.addr + 16 * d;
    assert q.DescAt(d) == a;
    NumberIs(m, a, 8);
    NumberIs(m, a + 8, 4);
    NumberIs(m, a + 12, 2);
    NumberIs(m, a + 14, 2);
  }

  /** The chain that the device follows is the one path from the head. */
  lemma {:induction false} WalksChain(m: seq<u8>, q: Queue, path: seq<nat>, left: nat)
    requires Walks(m, q.addr, path) && |path| <= left
    ensures var c := Chain(m, q, path[0], left);
      && c.Some? && |c.value| == |path|
      && forall k :: 0 <= k < |path| ==> ReadDesc(m, q.DescAt(path[k])) == Some(c.value[k])
    decreases |path|
  {
    hide ReadDesc, NumberAt, HasNext, Queue.DescAt;
    DescriptorIs(m, q, path[0]);
    if |path| > 1 {
      WalksChain(m, q, path[1..], left - 1);
      var rest := Chain(m, q, path[1], left - 1).value;
      forall k | 0 <= k < |path|
        ensures ReadDesc(m, q.DescAt(path[k])) == Some(Chain(m, q, path[0], left).value[k])
      {
        if k > 0 {
          assert path[1..][k - 1] == path[k];
        }
      }
    }
  }

  lemma {:induction false} ChainWalks(m: seq<u8>, q: Queue, idx: nat, left: nat) returns (path: seq<nat>)
    requires Chain(m, q, idx, left).Some?
    ensures Walks(m, q.addr, path) && path[0] == idx && |path| <= left && |path| == |Chain(m, q, idx, left).value|
    decreases left
  {
    hide ReadDesc, NumberAt, HasNext, Queue.DescAt;
    DescriptorIs(m, q, idx);
    var d := ReadDesc(m, q.DescAt(idx)).value;
    if HasNext(d) {
      var rest := ChainWalks(m, q, d.next, left - 1);
      path := [idx] + rest;
      assert path[1..] == rest;
    } else {
      path := [idx];
    }
  }

  /** The bytes that the device gathers are those the buffers hold. */
  lemma {:induction false} GatherIs(m: seq<u8>, bufs: seq<Buffer>, data: seq<u8>)
    ensures Gather(m, bufs) == Some(data) <==> HoldsBytes(m, bufs, data)
    decreases |bufs|
  {
    hide ReadRun, Gather, RunIs;
    GatherUnfold(m, bufs);
    if bufs != [] {
      var b := bufs[0];
      if b.len <= |data| {
        RunHolds(m, b, data[..b.len]);
        GatherIs(m, bufs[1..], data[b.len..]);
      }
      GatherSplit(m, bufs, data);
    }
  }

  lemma GatherUnfold(m: seq<u8>, bufs: seq<Buffer>)
    ensures bufs == [] ==> Gather(m, bufs) == Some([])
    ensures bufs != [] ==>
      Gather(m, bufs) == match (ReadRun(m, bufs[0].addr, bufs[0].len), Gather(m, bufs[1..]))
                         case (Some(x), Some(y)) => Some(x + y)
                         case _ => None
  {
    hide ReadRun;
  }

  lemma GatherSplit(m: seq<u8>, bufs: seq<Buffer>, data: seq<u8>)
    requires bufs != []
    ensures Gather(m, bufs) == Some(data) <==>
            && bufs[0].len <= |data|
            && ReadRun(m, bufs[0].addr, bufs[0].len) == Some(data[..bufs[0].len])
            && Gather(m, bufs[1..]) == Some(data[bufs[0].len..])
  {
    hide ReadRun, Gather;
    GatherUnfold(m, bufs);
    var n := bufs[0].len;
    var x, y := ReadRun(m, bufs[0].addr, n), Gather(m, bufs[1..]);
    if x.Some? && y.Some? {
      assert (x.value + y.value)[..n] == x.value && (x.value + y.value)[n..] == y.value;
    }
    if n <= |data| {
      assert data == data[..n] + data[n..];
    }
  }

  lemma RunHolds(m: seq<u8>, b: Buffer, bytes: seq<u8>)
    requires |bytes| == b.len
    ensures ReadRun(m, b.addr, b.len) == Some(bytes) <==> RunIs(m, b.addr, bytes)
  {
    if b.len > 0 {
      var o := b.addr - 0x8000_0000;
      if RunIs(m, b.addr, bytes) {
        assert ByteIs(m, b.addr + 0, bytes[0]) && ByteIs(m, b.addr + (b.len - 1), bytes[b.len - 1]);
        forall x | 0 <= x < b.len
          ensures m[o + x] == bytes[x]
        {
          assert ByteIs(m, b.addr + x, bytes[x]);
        }
        assert m[o..o + b.len] == bytes;
      }
    }
  }

  // ----- Where the used ring is -----

  lemma UsedRingIs(q: Queue)
    requires q.Usable()
    ensures UsedRingAt(q, q.addr + q.UsedOffset())
  {
    var x, n := 18 * q.num + 6, q.align;
    assert q.num * 16 + (4 + 2 * q.num + 2) == x;
    var d, r := (x + n - 1) / n, (x + n - 1) % n;
    assert x + n - 1 == n * d + r;
    MulSwap(d, n);
    DivModUnique(d * n, n, d, 0);
  }

  lemma MulSwap(d: int, n: int)
    ensures d * n == n * d
  {
  }

  /** There is one such place. */
  lemma UsedRingUnique(q: Queue, a: nat, b: nat)
    requires UsedRingAt(q, a) && UsedRingAt(q, b)
    ensures a == b
  {
    var n, x, y := q.align, a - q.addr, b - q.addr;
    assert x == n * (x / n) && y == n * (y / n);
    if x / n > y / n {
      AtLeastOne(n, x / n, y / n);
    } else if x / n < y / n {
      AtLeastOne(n, y / n, x / n);
    }
  }

  lemma AtLeastOne(n: nat, c: int, d: int)
    requires n > 0 && c > d
    ensures n * c >= n * d + n
  {
    MulDistributes(n, c, d);
    MulAtLeast(n, c - d);
  }

  // ----- The device does what the request says -----

  lemma CeilingIs(bytes: nat)
    ensures SectorsNeeded(bytes) == (bytes + 511) / 512
  {
  }

  lemma FilledSpares(m: seq<u8>, bufs: seq<Buffer>, data: seq<u8>)
    requires |data| == TotalLength(bufs)
    ensures Spares(m, Scatter(m, bufs, data).mem, bufs)
  {
    hide Scatter, InBuffers;
    forall o | 0 <= o < |m| && !InBuffers(bufs, o + 0x8000_0000)
      ensures Scatter(m, bufs, data).mem[o] == m[o]
    {
      ScatterFrame(m, bufs, data, o);
    }
  }

  lemma FilledHolds(m: seq<u8>, bufs: seq<Buffer>, data: seq<u8>)
    requires |data| == TotalLength(bufs) && Scatter(m, bufs, data).ok && PairwiseDisjoint(bufs)
    ensures HoldsBytes(Scatter(m, bufs, data).mem, bufs, data)
  {
    hide Scatter, PairwiseDisjoint, HoldsBytes;
    ScatterThenGather(m, bufs, data);
    GatherIs(Scatter(m, bufs, data).mem, bufs, data);
  }

  lemma ReadDone(w: World, capacity: nat, r: Request)
    requires BL.DiskFits(w.disk, capacity) && r.kind == 0
    ensures var h := HandleIn(w, capacity, r.sector, r.bufs);
      h.ok ==>
        && h.status == (if Refused(r, capacity) then 2 else 0)
        && DiskAfter(w, capacity, r, h.world.disk) && BuffersAfter(w, capacity, r, h.world.mem)
  {
    hide Scatter, SectorsNeeded, PairwiseDisjoint, HoldsBytes, Spares;
    CeilingIs(TotalLength(r.bufs));
    if !Refused(r, capacity) {
      BL.InBounds(w.disk, capacity, r.sector, TotalLength(r.bufs));
      var from, total := 512 * r.sector, TotalLength(r.bufs);
      assert total == 0 ==> w.disk[from..from + total] == [];
      var data := w.disk[from..from + total];
      FilledSpares(w.mem, r.bufs, data);
      if Scatter(w.mem, r.bufs, data).ok && PairwiseDisjoint(r.bufs) {
        FilledHolds(w.mem, r.bufs, data);
      }
    }
  }

  lemma WriteDone(w: World, capacity: nat, r: Request)
    requires BL.DiskFits(w.disk, capacity) && r.kind == 1
    ensures var h := HandleOut(w, capacity, r.sector, r.bufs);
      h.ok ==>
        && h.status == (if Refused(r, capacity) then 2 else 0)
        && DiskAfter(w, capacity, r, h.world.disk) && BuffersAfter(w, capacity, r, h.world.mem)
  {
    hide SectorsNeeded, HandleOut, Gather, HoldsBytes, Spares;
    CeilingIs(TotalLength(r.bufs));
    BL.OutEffect(w, capacity, r.sector, r.bufs);
    var h := HandleOut(w, capacity, r.sector, r.bufs);
    if h.ok && !Refused(r, capacity) {
      var from, total := 512 * r.sector, TotalLength(r.bufs);
      GatherIs(w.mem, r.bufs, h.world.disk[from..from + total]);
    }
  }

  lemma SerialIs(len: nat)
    ensures SerialBytes(len) == Serial(len)
  {
    var text: seq<u8> := [77, 89, 83, 73, 77, 45, 86, 73, 82, 84, 73, 79, 45, 66, 76, 75];
    assert SERIAL == text && |text| == 16;
  }

  lemma IdentifyDone(w: World, b: Buffer)
    ensures var x := WriteRun(w.mem, b.addr, SerialBytes(b.len));
      x.ok ==> Spares(w.mem, x.mem, [b]) && HoldsBytes(x.mem, [b], Serial(b.len))
  {
    hide WriteRun, SerialBytes, Serial, RunIs;
    SerialIs(b.len);
    var bytes := SerialBytes(b.len);
    var x := WriteRun(w.mem, b.addr, bytes);
    forall o | 0 <= o < |w.mem| && !InBuffers([b], o + 0x8000_0000)
      ensures x.mem[o] == w.mem[o]
    {
      assert !InBuffer([b][0], o + 0x8000_0000);
      WriteRunFrame(w.mem, b.addr, bytes, o);
    }
    if x.ok {
      WriteRunPlaces(w.mem, b.addr, bytes);
      RunHolds(x.mem, b, bytes);
      assert bytes[..b.len] == bytes && bytes[b.len..] == [] && [b][1..] == [];
    }
  }

  lemma RequestDone(w: World, capacity: nat, r: Request)
    requires BL.DiskFits(w.disk, capacity)
    ensures var a := Answered(w, capacity, r.kind, r.sector, r.bufs);
      a.handled.ok ==>
        && a.handled.status == (if Refused(r, capacity) then 2 else 0)
        && a.usedLen == ReportedLength(r)
        && DiskAfter(w, capacity, r, a.handled.world.disk) && BuffersAfter(w, capacity, r, a.handled.world.mem)
  {
    hide HandleIn, HandleOut, WriteRun, SerialBytes, Serial, HoldsBytes, Spares, PairwiseDisjoint;
    if r.kind == 0 {
      ReadDone(w, capacity, r);
    } else if r.kind == 1 {
      WriteDone(w, capacity, r);
    } else if r.kind == 8 && r.bufs != [] {
      IdentifyDone(w, r.bufs[0]);
      assert r.bufs[..1] == [r.bufs[0]];
    }
  }

  // ----- The report -----

  lemma PokedNumber(m: seq<u8>, a: nat, n: nat, v: nat)
    requires GuestWrite(m, a, n, v).Some?
    ensures var p := GuestWrite(m, a, n, v).value;
      && |p| == |m| && NumberAt(p, a, n) == Some(v % Pow256(n))
      && 0x8000_0000 <= a && a - 0x8000_0000 + n <= |m|
      && forall o :: 0 <= o < |m| && !(a <= o + 0x8000_0000 < a + n) ==> p[o] == m[o]
  {
    hide FromBytes, ToBytes, Pow256;
    M.PeekPoke(m, a - 0x8000_0000, n, v);
  }

  lemma NumberFrame(m: seq<u8>, p: seq<u8>, a: nat, n: nat)
    requires |m| == |p|
    requires forall o :: 0 <= o < |m| && a <= o + 0x8000_0000 < a + n ==> p[o] == m[o]
    ensures NumberAt(p, a, n) == NumberAt(m, a, n)
  {
    hide FromBytes;
    if 0x8000_0000 <= a && a - 0x8000_0000 + n <= |m| {
      var o := a - 0x8000_0000;
      forall x | o <= x < o + n
        ensures p[x] == m[x]
      {
        assert a <= x + 0x8000_0000 < a + n;
      }
      assert m[o..o + n] == p[o..o + n];
    }
  }

  lemma OneByte(p: seq<u8>, a: nat, v: u8)
    requires NumberAt(p, a, 1) == Some(v)
    ensures p[a - 0x8000_0000] == v
  {
    var o := a - 0x8000_0000;
    assert p[o..o + 1] == [p[o]];
    assert FromBytes([p[o]]) == p[o] by {
      assert [p[o]][1..] == [];
    }
  }

  lemma WidthsAre()
    ensures Pow256(1) == 0x100 && Pow256(4) == 0x1_0000_0000
  {
  }

  lemma ReportDone(w: World, q: Queue, i: nat, r: Request, status: u8, len: nat)
    requires q.Usable()
    ensures var s := Complete(w, q, i, r.head, r.status, status, len);
      s.ok ==> s.world.disk == w.disk && Reported(w.mem, s.world.mem, q, q.addr + q.UsedOffset(), i, r, status, len)
  {
    hide GuestWrite, NumberAt, Pow256, Queue.UsedOffset;
    var e := q.addr + q.UsedOffset() + 4 + 8 * (i % q.num);
    SlotIs(q, i);
    WidthsAre();
    hide Queue.UsedSlot;
    var m1 := GuestWrite(w.mem, r.status, 1, status);
    if m1.Some? {
      PokedNumber(w.mem, r.status, 1, status);
      OneByte(m1.value, r.status, status);
      var m2 := GuestWrite(m1.value, e, 4, r.head);
      if m2.Some? {
        PokedNumber(m1.value, e, 4, r.head);
        var m3 := GuestWrite(m2.value, e + 4, 4, len);
        if m3.Some? {
          PokedNumber(m2.value, e + 4, 4, len);
          NumberFrame(m2.value, m3.value, e, 4);
        }
      }
    }
  }

  lemma SlotIs(q: Queue, i: nat)
    requires q.Usable()
    ensures q.UsedSlot(i) == q.addr + q.UsedOffset() + 4 + 8 * (i % q.num)
    ensures q.AvailSlot(i) == q.addr + 16 * q.num + 4 + 2 * (i % q.num)
    ensures q.AvailFlags() == q.addr + 16 * q.num && q.AvailIdx() == q.addr + 16 * q.num + 2
    ensures q.UsedIdx() == q.addr + q.UsedOffset() + 2
  {
    hide Queue.UsedOffset;
  }

  // ----- One slot -----

  /** Slot `i` names no other request. */
  lemma RequestUnique(m: seq<u8>, q: Queue, i: nat, path: seq<nat>, r: Request, ds: seq<Desc>)
    requires q.num > 0 && Names(m, q, i, path, r) && Chain(m, q, path[0], MAX_CHAIN_LEN) == Some(ds)
    ensures |ds| == |path| && Buffers(ds[1..|ds| - 1]) == r.bufs
    ensures ds[0].addr == r.header && ds[|ds| - 1].addr == r.status
  {
    hide NumberAt, Chain, ReadDesc, Continues, HasNext, Queue.DescAt;
    WalksChain(m, q, path, MAX_CHAIN_LEN);
    forall k | 0 <= k < |path|
      ensures NumberAt(m, q.addr + 16 * path[k], 8) == Some(ds[k].addr)
      ensures NumberAt(m, q.addr + 16 * path[k] + 8, 4) == Some(ds[k].len)
    {
      DescriptorIs(m, q, path[k]);
    }
    var middle := ds[1..|ds| - 1];
    forall k | 0 <= k < |r.bufs|
      ensures Buffers(middle)[k] == r.bufs[k]
    {
      assert middle[k] == ds[k + 1];
    }
  }

  lemma ChainServed(w: World, capacity: nat, q: Queue, i: nat, r: Request, ds: seq<Desc>) returns (m: seq<u8>)
    requires q.Usable() && BL.DiskFits(w.disk, capacity) && |ds| >= 2
    requires Buffers(ds[1..|ds| - 1]) == r.bufs && ds[|ds| - 1].addr == r.status && ds[0].addr == r.header
    requires GuestRead(w.mem, r.header, 4) == Some(r.kind) && GuestRead(w.mem, r.header + 8, 8) == Some(r.sector)
    requires ServeChain(w, capacity, q, i, r.head, ds).ok
    ensures Serves(w, capacity, q, q.addr + q.UsedOffset(), i, r, m, ServeChain(w, capacity, q, i, r.head, ds).world)
  {
    hide GuestRead, Answered, Complete, Buffers, DiskAfter, BuffersAfter, Reported, Refused, ReportedLength,
         Queue.UsedOffset;
    var a := Answered(w, capacity, r.kind, r.sector, r.bufs);
    RequestDone(w, capacity, r);
    m := a.handled.world.mem;
    ReportDone(a.handled.world, q, i, r, a.handled.status, a.usedLen);
  }

  /** A slot that is served without a failure names a request, and the device has done that request. */
  lemma SlotServed(w: World, capacity: nat, q: Queue, i: nat) returns (path: seq<nat>, r: Request)
    requires q.Usable() && BL.DiskFits(w.disk, capacity) && ServeSlot(w, capacity, q, i).ok
    ensures Names(w.mem, q, i, path, r)
  {
    hide NumberAt, GuestRead, Chain, ServeChain, ReadDesc, Continues, HasNext, Queue.DescAt;
    SlotIs(q, i);
    NumberIs(w.mem, q.AvailSlot(i), 2);
    var head := GuestRead(w.mem, q.AvailSlot(i), 2).value;
    var ds := Chain(w.mem, q, head, MAX_CHAIN_LEN).value;
    path := ChainWalks(w.mem, q, head, MAX_CHAIN_LEN);
    WalksChain(w.mem, q, path, MAX_CHAIN_LEN);
    forall k | 0 <= k < |path|
      ensures NumberAt(w.mem, q.addr + 16 * path[k], 8) == Some(ds[k].addr)
      ensures NumberAt(w.mem, q.addr + 16 * path[k] + 8, 4) == Some(ds[k].len)
    {
      DescriptorIs(w.mem, q, path[k]);
    }
    HeaderPresent(w, capacity, q, i, head, ds);
    var h := ds[0].addr;
    NumberIs(w.mem, h, 4);
    NumberIs(w.mem, h + 8, 8);
    var bufs := seq(|path| - 2, k requires 0 <= k < |path| - 2 => Buffer(ds[k + 1].addr, ds[k + 1].len));
    r := Request(head, h, GuestRead(w.mem, h, 4).value, GuestRead(w.mem, h + 8, 8).value, bufs, ds[|ds| - 1].addr);
  }

  lemma HeaderPresent(w: World, capacity: nat, q: Queue, i: nat, head: nat, ds: seq<Desc>)
    requires q.Usable() && |ds| >= 2 && ServeChain(w, capacity, q, i, head, ds).ok
    ensures GuestRead(w.mem, ds[0].addr, 4).Some? && GuestRead(w.mem, ds[0].addr + 8, 8).Some?
  {
    hide GuestRead, Answered, Complete, Buffers;
  }

  /** Whatever request slot `i` names, serving the slot does it. */
  lemma SlotDoes(w: World, capacity: nat, q: Queue, ring: nat, i: nat, path: seq<nat>, r: Request)
    returns (m: seq<u8>)
    requires q.Usable() && BL.DiskFits(w.disk, capacity) && UsedRingAt(q, ring)
    requires Names(w.mem, q, i, path, r) && ServeSlot(w, capacity, q, i).ok
    ensures Serves(w, capacity, q, ring, i, r, m, ServeSlot(w, capacity, q, i).world)
  {
    hide NumberAt, GuestRead, Chain, ServeChain, Walks, Serves, UsedRingAt, Queue.UsedOffset;
    SlotIs(q, i);
    NumberIs(w.mem, q.AvailSlot(i), 2);
    NumberIs(w.mem, r.header, 4);
    NumberIs(w.mem, r.header + 8, 8);
    UsedRingIs(q);
    UsedRingUnique(q, ring, q.addr + q.UsedOffset());
    var ds := Chain(w.mem, q, path[0], MAX_CHAIN_LEN).value;
    RequestUnique(w.mem, q, i, path, r, ds);
    m := ChainServed(w, capacity, q, i, r, ds);
  }

  // ----- Notifications -----

  /** The world `after` is `w` with the request of slot `i` done. */
  ghost predicate StepOf(w: World, capacity: nat, q: Queue, ring: nat, i: nat, after: World)
    requires q.num > 0
  {
    exists path, r, m :: Names(w.mem, q, i, path, r) && Serves(w, capacity, q, ring, i, r, m, after)
  }

  /** `ws` are the worlds from `w` on, as the requests of the slots from `i` on are done one by one. */
  ghost predicate Trace(w: World, capacity: nat, q: Queue, ring: nat, i: nat, ws: seq<World>)
    requires q.num > 0
    decreases |ws|
  {
    && ws != [] && ws[0] == w
    && (|ws| > 1 ==> StepOf(w, capacity, q, ring, i, ws[1]) &&
                     Trace(ws[1], capacity, q, ring, (i + 1) % 0x1_0000, ws[1..]))
  }

  lemma {:induction false} ManyServed(w: World, capacity: nat, q: Queue, ring: nat, i: nat, n: nat)
    returns (ws: seq<World>)
    requires q.Usable() && BL.DiskFits(w.disk, capacity) && UsedRingAt(q, ring)
    requires ServeMany(w, capacity, q, i, n).ok
    ensures |ws| == n + 1 && Trace(w, capacity, q, ring, i, ws) && ws[n] == ServeMany(w, capacity, q, i, n).world
    decreases n
  {
    hide ServeSlot, Names, Serves, UsedRingAt;
    if n == 0 {
      ws := [w];
    } else {
      var s := ServeSlot(w, capacity, q, i);
      var path, r := SlotServed(w, capacity, q, i);
      var m := SlotDoes(w, capacity, q, ring, i, path, r);
      BL.ServeSlotKeepsSize(w, capacity, q, i);
      var rest := ManyServed(s.world, capacity, q, ring, NextIndex(i), n - 1);
      ws := [w] + rest;
      assert ws[1..] == rest && ws[n] == rest[n - 1];
      assert StepOf(w, capacity, q, ring, i, ws[1]);
    }
  }

  /** The memory `n` is `m` with the two bytes of the used index written. */
  ghost predicate Published(m: seq<u8>, n: seq<u8>, ring: nat, index: nat) {
    && |n| == |m| && NumberAt(n, ring + 2, 2) == Some(index)
    && forall o :: 0 <= o < |m| && !(ring + 2 <= o + 0x8000_0000 < ring + 4) ==> n[o] == m[o]
  }

  lemma PublishDone(m: seq<u8>, ring: nat, index: nat)
    requires index < 0x1_0000 && GuestWrite(m, ring + 2, 2, index).Some?
    ensures Published(m, GuestWrite(m, ring + 2, 2, index).value, ring, index)
  {
    PokedNumber(m, ring + 2, 2, index);
    hide NumberAt, GuestWrite, Pow256;
    HalfwordWidth();
  }

  lemma HalfwordWidth()
    ensures Pow256(2) == 0x1_0000
  {
  }

  lemma IndexBelow(m: seq<u8>, a: nat)
    requires NumberAt(m, a, 2).Some?
    ensures NumberAt(m, a, 2).value < 0x1_0000
  {
    HalfwordWidth();
  }

  /** A notification that succeeds does every request between the used and the available index, in order, each in the
      world the previous one left, and then publishes the available index; it interrupts when bit 0 of the flags is
      clear and there was something to do. */
  lemma NotificationDoes(w: World, capacity: nat, q: Queue, ring: nat) returns (ws: seq<World>)
    requires q.Usable() && BL.DiskFits(w.disk, capacity) && UsedRingAt(q, ring)
    requires Process(w, capacity, q).ok
    ensures var flags, avail, used := NumberAt(w.mem, q.addr + 16 * q.num, 2),
          NumberAt(w.mem, q.addr + 16 * q.num + 2, 2), NumberAt(w.mem, ring + 2, 2);
      var after := Process(w, capacity, q);
      && flags.Some? && avail.Some? && used.Some?
      && if avail == used then after.world == w && !after.interrupt
         else
           && |ws| == (avail.value - used.value) % 0x1_0000 + 1 && Trace(w, capacity, q, ring, used.value, ws)
           && after.world.disk == ws[|ws| - 1].disk
           && Published(ws[|ws| - 1].mem, after.world.mem, ring, avail.value)
           && after.interrupt == (flags.value % 2 == 0)
  {
    hide NumberAt, GuestRead, GuestWrite, ServeMany, Trace, Published, UsedRingAt, Queue.UsedOffset;
    SlotIs(q, 0);
    UsedRingIs(q);
    UsedRingUnique(q, ring, q.addr + q.UsedOffset());
    NumberIs(w.mem, q.addr + 16 * q.num, 2);
    NumberIs(w.mem, q.addr + 16 * q.num + 2, 2);
    NumberIs(w.mem, ring + 2, 2);
    var avail, used := NumberAt(w.mem, q.addr + 16 * q.num + 2, 2).value, NumberAt(w.mem, ring + 2, 2).value;
    IndexBelow(w.mem, q.addr + 16 * q.num + 2);
    if avail == used {
      ws := [w];
    } else {
      ws := ManyServed(w, capacity, q, ring, used, Outstanding(avail, used));
      PublishDone(ws[|ws| - 1].mem, ring, avail);
    }
  }

  // ----- OUT, then IN -----

  /** Exactly one request is outstanding, in the slot of the used index. */
  predicate OneOutstanding(m: seq<u8>, q: Queue, ring: nat, used: nat) {
    && NumberAt(m, ring + 2, 2) == Some(used)
    && NumberAt(m, q.addr + 16 * q.num + 2, 2) == Some((used + 1) % 0x1_0000)
  }

  lemma OneStep(w: World, capacity: nat, q: Queue, ring: nat, used: nat, path: seq<nat>, r: Request)
    returns (m: seq<u8>, after: World)
    requires q.Usable() && BL.DiskFits(w.disk, capacity) && UsedRingAt(q, ring)
    requires OneOutstanding(w.mem, q, ring, used) && Names(w.mem, q, used, path, r)
    requires Process(w, capacity, q).ok
    ensures Serves(w, capacity, q, ring, used, r, m, after)
    ensures Process(w, capacity, q).world.disk == after.disk
    ensures Published(after.mem, Process(w, capacity, q).world.mem, ring, (used + 1) % 0x1_0000)
  {
    hide NumberAt, GuestRead, GuestWrite, ServeSlot, Names, Published, Serves, UsedRingAt, Queue.UsedOffset;
    SlotIs(q, 0);
    UsedRingIs(q);
    UsedRingUnique(q, ring, q.addr + q.UsedOffset());
    NumberIs(w.mem, q.addr + 16 * q.num, 2);
    NumberIs(w.mem, q.addr + 16 * q.num + 2, 2);
    NumberIs(w.mem, ring + 2, 2);
    IndexBelow(w.mem, ring + 2);
    OneMore(used);
    var avail := (used + 1) % 0x1_0000;
    assert ServeMany(w, capacity, q, used, 1) == ServeSlot(w, capacity, q, used) by {
      OneSlot(w, capacity, q, used);
    }
    after := ServeSlot(w, capacity, q, used).world;
    m := SlotDoes(w, capacity, q, ring, used, path, r);
    PublishDone(after.mem, ring, avail);
  }

  lemma OneMore(used: nat)
    requires used < 0x1_0000
    ensures Outstanding((used + 1) % 0x1_0000, used) == 1 && (used + 1) % 0x1_0000 != used
  {
  }

  lemma OneSlot(w: World, capacity: nat, q: Queue, i: nat)
    requires q.Usable()
    ensures ServeMany(w, capacity, q, i, 1) == ServeSlot(w, capacity, q, i)
  {
    hide ServeSlot;
    var s := ServeSlot(w, capacity, q, i);
    if s.ok {
      assert ServeMany(s.world, capacity, q, NextIndex(i), 0) == Step(true, s.world);
    }
  }

  /** The buffers keep clear of the status byte, of the used element of slot `i` and of the used index. */
  ghost predicate ClearOf(r: Request, q: Queue, ring: nat, i: nat)
    requires q.num > 0
  {
    forall k: nat, x: nat :: k < |r.bufs| && InBuffer(r.bufs[k], x) ==>
        && x != r.status && !(ring + 2 <= x < ring + 4)
        && !(ring + 4 + 8 * (i % q.num) <= x < ring + 12 + 8 * (i % q.num))
  }

  lemma {:induction false} HoldsFrame(m: seq<u8>, n: seq<u8>, bufs: seq<Buffer>, data: seq<u8>)
    requires |m| == |n| && HoldsBytes(m, bufs, data)
    requires forall o :: 0 <= o < |m| && InBuffers(bufs, o + 0x8000_0000) ==> n[o] == m[o]
    ensures HoldsBytes(n, bufs, data)
  {
    hide HoldsBytes, InBuffers, Gather;
    GatherIs(m, bufs, data);
    GatherIs(n, bufs, data);
    GatherFrame(m, n, bufs);
  }

  lemma ReportSpares(r: Request, q: Queue, ring: nat, i: nat, m: seq<u8>, after: seq<u8>, last: seq<u8>, status: nat,
    len: nat, index: nat)
    requires q.num > 0 && ClearOf(r, q, ring, i)
    requires Reported(m, after, q, ring, i, r, status, len) && Published(after, last, ring, index)
    ensures |last| == |m| && forall o :: 0 <= o < |m| && InBuffers(r.bufs, o + 0x8000_0000) ==> last[o] == m[o]
  {
    hide NumberAt;
    forall o | 0 <= o < |m| && InBuffers(r.bufs, o + 0x8000_0000)
      ensures last[o] == m[o]
    {
      var k :| 0 <= k < |r.bufs| && InBuffer(r.bufs[k], o + 0x8000_0000);
    }
  }

  /** What one notification writes to the disk, a later one reads back: after an accepted write of kind 1, and whatever
      happens to guest memory in between, a read of kind 0 from the same sector, of the same length, into disjoint
      buffers clear of what the device reports, leaves in its buffers the bytes that the buffers of the write held. */
  lemma WriteThenRead(w: World, capacity: nat, q: Queue, ring: nat, used: nat, path: seq<nat>, out: Request,
      later: seq<u8>, q': Queue, ring': nat, used': nat, path': seq<nat>, back: Request) returns (data: seq<u8>)
    requires q.Usable() && BL.DiskFits(w.disk, capacity) && UsedRingAt(q, ring)
    requires OneOutstanding(w.mem, q, ring, used) && Names(w.mem, q, used, path, out) && Process(w, capacity, q).ok
    requires out.kind == 1 && !Refused(out, capacity)
    requires q'.Usable() && UsedRingAt(q', ring')
    requires OneOutstanding(later, q', ring', used') && Names(later, q', used', path', back)
    requires back.kind == 0 && back.sector == out.sector && TotalLength(back.bufs) == TotalLength(out.bufs)
    requires PairwiseDisjoint(back.bufs) && ClearOf(back, q', ring', used')
    requires Process(World(later, Process(w, capacity, q).world.disk), capacity, q').ok
    ensures HoldsBytes(w.mem, out.bufs, data)
    ensures HoldsBytes(Process(World(later, Process(w, capacity, q).world.disk), capacity, q').world.mem, back.bufs,
            data)
  {
    hide Process, Names, OneOutstanding, UsedRingAt, HoldsBytes, PairwiseDisjoint, Spares, ClearOf, Published,
         InBuffers, ReportedLength, Reported;
    var m, after := OneStep(w, capacity, q, ring, used, path, out);
    var from, total := 512 * out.sector, TotalLength(out.bufs);
    data := after.disk[from..from + total];
    var w' := World(later, Process(w, capacity, q).world.disk);
    var m', after' := OneStep(w', capacity, q', ring', used', path', back);
    var last := Process(w', capacity, q').world.mem;
    ReportSpares(back, q', ring', used', m', after'.mem, last, 0, ReportedLength(back), (used' + 1) % 0x1_0000);
    HoldsFrame(m', last, back.bufs, data);
  }
}
