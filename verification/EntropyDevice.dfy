/** The entropy device: the second user of the split virtqueue. */
module EntropyDevice {
  import opened Words
  import opened Memory
  import opened GuestMemory
  import opened BlockDevice
  import opened VirtioBlockDevice

  const ENTROPY_CHAIN_LEN := 64
  const LEGACY_ALIGN := 4096

  /** The random bytes the host will hand out, by position. */
  type Source = nat -> u8

  function Drawn(e: Source, at: nat, n: nat): (b: seq<u8>)
    ensures |b| == n
  {
    seq(n, i requires 0 <= i < n => e(at + i))
  }

  /** The device may write the buffer. */
  predicate DeviceWritable(d: Desc) { d.flags / 2 % 2 == 1 }

  /** The result of filling a chain: how far the source has been used, and the bytes reported. */
  datatype Filled = Filled(ok: bool, mem: seq<u8>, at: nat, total: nat)

  function FillDesc(m: seq<u8>, e: Source, at: nat, d: Desc): (r: Run)
    ensures |r.mem| == |m|
  {
    if DeviceWritable(d) then WriteRun(m, d.addr, Drawn(e, at, d.len)) else Run(true, m)
  }

  function Taken(d: Desc): nat {
    if DeviceWritable(d) then d.len else 0
  }

  /** Fills the writable buffers of a chain, reading each descriptor only when it is reached; a chain that
      does not end is cut without complaint. */
  function FillChain(m: seq<u8>, e: Source, at: nat, q: Queue, idx: nat, left: nat, total: nat): (r: Filled)
    ensures |r.mem| == |m|
    decreases left
  {
    if left == 0 then Filled(true, m, at, total)
    else
      match ReadDesc(m, q.DescAt(idx))
      case None => Filled(false, m, at, total)
      case Some(d) =>
        var r := FillDesc(m, e, at, d);
        if !r.ok then Filled(false, r.mem, at + Taken(d), total)
        else if !HasNext(d) then Filled(true, r.mem, at + Taken(d), total + Taken(d))
        else FillChain(r.mem, e, at + Taken(d), q, d.next, left - 1, total + Taken(d))
  }

  /** The chain one buffer further. */
  lemma FillStep(m: seq<u8>, e: Source, at: nat, q: Queue, idx: nat, left: nat, total: nat)
    requires left > 0
    ensures FillChain(m, e, at, q, idx, left, total) ==
            match ReadDesc(m, q.DescAt(idx))
            case None => Filled(false, m, at, total)
            case Some(d) =>
              var r := FillDesc(m, e, at, d);
              if !r.ok then Filled(false, r.mem, at + Taken(d), total)
              else if !HasNext(d) then Filled(true, r.mem, at + Taken(d), total + Taken(d))
              else FillChain(r.mem, e, at + Taken(d), q, d.next, left - 1, total + Taken(d))
  {
    hide ReadDesc, FillDesc, HasNext;
  }

  lemma FillCut(m: seq<u8>, e: Source, at: nat, q: Queue, idx: nat, total: nat)
    ensures FillChain(m, e, at, q, idx, 0, total) == Filled(true, m, at, total)
  {
  }

  /** Guest memory and the position in the source. */
  datatype Pool = Pool(mem: seq<u8>, at: nat)

  datatype Served = Served(ok: bool, pool: Pool)

  /** The used-ring element of slot `i`. */
  function Report(m: seq<u8>, q: Queue, i: nat, head: nat, total: nat): Run
    requires q.Usable()
  {
    match GuestWrite(m, q.UsedSlot(i), 4, head)
    case None => Run(false, m)
    case Some(m1) =>
      match GuestWrite(m1, q.UsedSlot(i) + 4, 4, total)
      case None => Run(false, m1)
      case Some(m2) => Run(true, m2)
  }

  function FillSlot(w: Pool, e: Source, q: Queue, i: nat): Served
    requires q.Usable()
  {
    match GuestRead(w.mem, q.AvailSlot(i), 2)
    case None => Served(false, w)
    case Some(head) =>
      var f := FillChain(w.mem, e, w.at, q, head, ENTROPY_CHAIN_LEN, 0);
      if !f.ok then Served(false, Pool(f.mem, f.at))
      else
        var r := Report(f.mem, q, i, head, f.total);
        Served(r.ok, Pool(r.mem, f.at))
  }

  function FillMany(w: Pool, e: Source, q: Queue, i: nat, n: nat): Served
    requires q.Usable()
    decreases n
  {
    if n == 0 then Served(true, w)
    else
      var s := FillSlot(w, e, q, i);
      if !s.ok then s else FillMany(s.pool, e, q, NextIndex(i), n - 1)
  }

  datatype Notice = Notice(ok: bool, pool: Pool, interrupt: bool)

  function Notify(w: Pool, e: Source, q: Queue): Notice
    requires q.Usable()
  {
    match (GuestRead(w.mem, q.AvailFlags(), 2), GuestRead(w.mem, q.AvailIdx(), 2), GuestRead(w.mem, q.UsedIdx(), 2))
    case (Some(flags), Some(avail), Some(used)) =>
      if avail == used then Notice(true, w, false)
      else
        var s := FillMany(w, e, q, used, Outstanding(avail, used));
        if !s.ok then Notice(false, s.pool, false)
        else
          (match GuestWrite(s.pool.mem, q.UsedIdx(), 2, avail)
           case None => Notice(false, s.pool, false)
           case Some(m) => Notice(true, Pool(m, s.pool.at), flags % 2 == 0))
    case _ => Notice(false, w, false)
  }

  // ----- The device object -----

  class VirtioRng {
    const source: Source
    var at: nat
    var queueNum: u32
    var queuePfn: u32
    var interruptStatus: bv32

    constructor (source: Source)
      ensures this.source == source && at == 0 && queuePfn == 0 && queueNum == 0 && interruptStatus == 0
    {
      this.source := source;
      at, queueNum, queuePfn, interruptStatus := 0, 0, 0, 0;
    }

    function QueueRegs(): Queue
      reads this
    {
      Queue(queuePfn * 0x1000, queueNum, LEGACY_ALIGN)
    }

    ghost function Value(dram: Dram): Pool
      reads this, dram.memory
    {
      Pool(dram.memory[..], at)
    }

    method GenerateRandomBytes(count: nat) returns (bytes: seq<u8>)
      modifies this`at
      ensures bytes == Drawn(source, old(at), count) && at == old(at) + count
    {
      bytes := Drawn(source, at, count);
      at := at + count;
    }

    /** The chain loop. */
    method FillBuffers(dram: Dram, q: Queue, head: nat) returns (ok: bool, totalWritten: nat)
      modifies this`at, dram.memory
      ensures Filled(ok, dram.memory[..], at, totalWritten)
              == FillChain(old(dram.memory[..]), source, old(at), q, head, ENTROPY_CHAIN_LEN, 0)
    {
      hide ReadDesc, WriteRun, Drawn, HasNext, DeviceWritable, FillChain;
      totalWritten := 0;
      var currentIdx := head;
      var chainLen := 0;
      ghost var goal := FillChain(dram.memory[..], source, at, q, head, ENTROPY_CHAIN_LEN, 0);
      while chainLen < ENTROPY_CHAIN_LEN
        invariant 0 <= chainLen <= ENTROPY_CHAIN_LEN && currentIdx >= 0
        invariant goal == FillChain(dram.memory[..], source, at, q, currentIdx, ENTROPY_CHAIN_LEN - chainLen,
                totalWritten)
        decreases ENTROPY_CHAIN_LEN - chainLen
      {
        FillStep(dram.memory[..], source, at, q, currentIdx, ENTROPY_CHAIN_LEN - chainLen, totalWritten);
        var desc := ReadDescriptor(dram, q.DescAt(currentIdx));
        if desc.None? {
          return false, totalWritten;
        }
        if DeviceWritable(desc.value) {
          var bytes := GenerateRandomBytes(desc.value.len);
          ok := FillBuffer(dram, desc.value.addr, bytes);
          if !ok {
            return false, totalWritten;
          }
          totalWritten := totalWritten + desc.value.len;
        }
        chainLen := chainLen + 1;
        if !HasNext(desc.value) {
          return true, totalWritten;
        }
        currentIdx := desc.value.next;
      }
      FillCut(dram.memory[..], source, at, q, currentIdx, totalWritten);
      return true, totalWritten;
    }

    method ServeOne(dram: Dram, q: Queue, usedIdx: nat) returns (ok: bool)
      requires q.Usable()
      modifies this`at, dram.memory
      ensures Served(ok, Value(dram)) == FillSlot(old(Value(dram)), source, q, usedIdx)
    {
      hide GuestRead, GuestWrite, FillChain, Queue.AvailSlot, Queue.UsedSlot;
      var head := ReadU16(dram, q.AvailSlot(usedIdx));
      if head.None? {
        return false;
      }
      var totalWritten;
      ok, totalWritten := FillBuffers(dram, q, head.value);
      if !ok {
        return false;
      }
      ok := WriteSized(dram, q.UsedSlot(usedIdx), 4, head.value);
      if !ok {
        return false;
      }
      ok := WriteSized(dram, q.UsedSlot(usedIdx) + 4, 4, totalWritten);
    }

    method ServeOutstanding(dram: Dram, q: Queue, availIdx: u16, startIdx: u16) returns (ok: bool)
      requires q.Usable()
      modifies this`at, dram.memory
      ensures Served(ok, Value(dram)) ==
              FillMany(old(Value(dram)), source, q, startIdx, Outstanding(availIdx, startIdx))
    {
      hide FillSlot, Outstanding, NextIndex;
      var usedIdx: u16 := startIdx;
      OutstandingNext(availIdx, startIdx);
      ghost var goal := FillMany(Value(dram), source, q, startIdx, Outstanding(availIdx, startIdx));
      while availIdx != usedIdx
        invariant goal == FillMany(Value(dram), source, q, usedIdx, Outstanding(availIdx, usedIdx))
        decreases Outstanding(availIdx, usedIdx)
      {
        OutstandingNext(availIdx, usedIdx);
        ok := ServeOne(dram, q, usedIdx);
        if !ok {
          return false;
        }
        usedIdx := NextIndex(usedIdx);
      }
      OutstandingNext(availIdx, usedIdx);
      return true;
    }

    /** A queue notification; without a queue, or with one of no entries, nothing happens. */
    method ProcessQueue(dram: Dram) returns (ok: bool)
      modifies this`at, this`interruptStatus, dram.memory
      ensures old(queueNum) == 0 || old(queuePfn) == 0 ==>
        ok && Value(dram) == old(Value(dram)) && interruptStatus == old(interruptStatus)
      ensures old(queueNum) != 0 && old(queuePfn) != 0 ==>
        var r := Notify(old(Value(dram)), source, Queue(old(queuePfn) * 4096, old(queueNum), 4096));
        && ok == r.ok && Value(dram) == r.pool
        && interruptStatus == if r.interrupt then old(interruptStatus) | 1 else old(interruptStatus)
    {
      if queuePfn == 0 || queueNum == 0 {
        return true;
      }
      hide GuestRead, GuestWrite, FillMany, Outstanding, Queue.UsedIdx, Queue.AvailIdx, Queue.AvailFlags,
           Queue.UsedOffset;
      var q := QueueRegs();
      var availFlags := ReadU16(dram, q.AvailFlags());
      var availIdx := ReadU16(dram, q.AvailIdx());
      var usedIdxRead := ReadU16(dram, q.UsedIdx());
      if availFlags.None? || availIdx.None? || usedIdxRead.None? {
        return false;
      }
      var usedIdx := usedIdxRead.value;
      if availIdx.value == usedIdx {
        return true;
      }
      ok := ServeOutstanding(dram, q, availIdx.value, usedIdx);
      if !ok {
        return false;
      }
      ok := WriteSized(dram, q.UsedIdx(), 2, availIdx.value);
      if !ok {
        return false;
      }
      if availFlags.value % 2 == 0 {
        interruptStatus := interruptStatus | 1;
      }
    }
  }
}
