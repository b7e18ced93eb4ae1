/** Laws of single block requests: what OUT changes, and that IN gives it back. */
module BlockLaws {
  import opened Words
  import opened Memory
  import opened GuestMemory
  import opened BlockDevice

  /** The disk holds every sector that the device advertises. */
  predicate DiskFits(disk: seq<u8>, capacity: nat) {
    capacity * SECTOR_SIZE <= |disk|
  }

  /** A request that passes the sector check stays within the image. */
  lemma InBounds(disk: seq<u8>, capacity: nat, sector: nat, total: nat)
    requires DiskFits(disk, capacity) && sector + SectorsNeeded(total) <= capacity
    ensures sector * SECTOR_SIZE + total <= |disk|
  {
  }

  /** An accepted OUT stores the gathered bytes at its sector, changes no other disk byte, never
      changes the size of the image and leaves guest memory alone; a refused one changes nothing. */
  lemma OutEffect(w: World, capacity: nat, sector: nat, bufs: seq<Buffer>)
    requires DiskFits(w.disk, capacity)
    ensures var h := HandleOut(w, capacity, sector, bufs);
      var off, total := sector * SECTOR_SIZE, TotalLength(bufs);
      && h.world.mem == w.mem
      && |h.world.disk| == |w.disk|
      && h.status == (if sector + SectorsNeeded(total) > capacity then S_IOERR else S_OK)
      && (h.ok <==> h.status == S_IOERR || Gather(w.mem, bufs).Some?)
      && (h.ok && h.status == S_OK ==>
            && off + total <= |w.disk|
            && h.world.disk[off..off + total] == Gather(w.mem, bufs).value
            && forall o :: 0 <= o < |w.disk| && !(off <= o < off + total) ==> h.world.disk[o] == w.disk[o])
      && (!(h.ok && h.status == S_OK) ==> h.world == w)
  {
    hide SectorsNeeded;
    if sector + SectorsNeeded(TotalLength(bufs)) <= capacity && Gather(w.mem, bufs).Some? {
      InBounds(w.disk, capacity, sector, TotalLength(bufs));
      SpliceReads(w.disk, sector * SECTOR_SIZE, Gather(w.mem, bufs).value);
    }
  }

  lemma SpliceReads(f: seq<u8>, off: nat, data: seq<u8>)
    requires off + |data| <= |f|
    ensures var g := FileWrite(f, off, data);
      && |g| == |f|
      && g[off..off + |data|] == data
      && forall o :: 0 <= o < |f| && !(off <= o < off + |data|) ==> g[o] == f[o]
  {
    if data == [] {
      assert f[off..off] == data;
    }
  }

  /** Reading back at the same sector, into any disjoint buffers of the same total length and in any
      guest memory, yields the byte string that OUT gathered. */
  lemma OutThenIn(w: World, capacity: nat, sector: nat, out: seq<Buffer>, later: seq<u8>, into: seq<Buffer>)
    requires DiskFits(w.disk, capacity)
    requires HandleOut(w, capacity, sector, out).ok && HandleOut(w, capacity, sector, out).status == S_OK
    requires TotalLength(into) == TotalLength(out) && PairwiseDisjoint(into)
    requires HandleIn(World(later, HandleOut(w, capacity, sector, out).world.disk), capacity, sector, into).ok
    ensures var r := HandleIn(World(later, HandleOut(w, capacity, sector, out).world.disk), capacity, sector, into);
      && r.status == S_OK
      && Gather(r.world.mem, into) == Gather(w.mem, out)
      && r.world.disk == HandleOut(w, capacity, sector, out).world.disk
  {
    hide SectorsNeeded, FileWrite;
    OutEffect(w, capacity, sector, out);
    var h := HandleOut(w, capacity, sector, out);
    InBounds(h.world.disk, capacity, sector, TotalLength(into));
    var data := FileRead(h.world.disk, sector * SECTOR_SIZE, TotalLength(into)).value;
    assert data == Gather(w.mem, out).value;
    ScatterThenGather(later, into, data);
  }

  /** No request, whatever its kind, changes the size of the image. */
  lemma AnsweredKeepsSize(w: World, capacity: nat, reqType: nat, sector: nat, data: seq<Buffer>)
    requires DiskFits(w.disk, capacity)
    ensures var r := Answered(w, capacity, reqType, sector, data).handled.world;
      |r.disk| == |w.disk| && |r.mem| == |w.mem|
  {
    hide WriteRun, FileWrite;
    OutEffect(w, capacity, sector, data);
  }

  lemma ServeSlotKeepsSize(w: World, capacity: nat, q: Queue, i: nat)
    requires q.Usable() && DiskFits(w.disk, capacity)
    ensures var r := ServeSlot(w, capacity, q, i).world; |r.disk| == |w.disk| && |r.mem| == |w.mem|
  {
    hide Answered, GuestRead, Chain, Queue.UsedSlot;
    forall reqType: nat, sector: nat, data: seq<Buffer>
      ensures var r := Answered(w, capacity, reqType, sector, data).handled.world;
        |r.disk| == |w.disk| && |r.mem| == |w.mem|
    {
      AnsweredKeepsSize(w, capacity, reqType, sector, data);
    }
  }

  lemma {:induction false} ServeManyKeepsSize(w: World, capacity: nat, q: Queue, i: nat, n: nat)
    requires q.Usable() && DiskFits(w.disk, capacity)
    ensures var r := ServeMany(w, capacity, q, i, n).world; |r.disk| == |w.disk| && |r.mem| == |w.mem|
    decreases n
  {
    hide ServeSlot;
    if n > 0 {
      ServeSlotKeepsSize(w, capacity, q, i);
      var s := ServeSlot(w, capacity, q, i);
      if s.ok {
        ServeManyKeepsSize(s.world, capacity, q, NextIndex(i), n - 1);
      }
    }
  }

  /** A notification never changes the size of the image or of memory. */
  lemma ProcessKeepsSize(w: World, capacity: nat, q: Queue)
    requires q.Usable() && DiskFits(w.disk, capacity)
    ensures var r := Process(w, capacity, q).world; |r.disk| == |w.disk| && |r.mem| == |w.mem|
  {
    hide ServeMany, GuestRead, Outstanding, Queue.UsedIdx, Queue.AvailIdx, Queue.AvailFlags;
    forall i: nat, n: nat
      ensures var r := ServeMany(w, capacity, q, i, n).world; |r.disk| == |w.disk| && |r.mem| == |w.mem|
    {
      ServeManyKeepsSize(w, capacity, q, i, n);
    }
  }

  /** A read beyond the capacity is answered with an I/O error and changes nothing, yet reports all its buffers as
      written. */
  lemma RefusedReadReportsAll(w: World, capacity: nat, sector: nat, data: seq<Buffer>)
    requires sector + SectorsNeeded(TotalLength(data)) > capacity
    ensures var a := Answered(w, capacity, T_IN, sector, data);
      && a.handled.status == S_IOERR && a.handled.world == w
      && a.usedLen == TotalLength(data) + 1
  {
    hide SectorsNeeded, Scatter, FileRead;
  }
}
