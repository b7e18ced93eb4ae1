/** The block device object: registers, queue processing loops, each proved against BlockDevice. */
module VirtioBlockDevice {
  import opened Words
  import opened Memory
  import opened GuestMemory
  import opened BlockDevice

  // ----- Guest memory accessors -----

  method ReadU16(dram: Dram, addr: nat) returns (r: Option<u16>)
    ensures r == GuestRead(dram.memory[..], addr, 2)
  {
    if addr < DRAM_BASE {
      return None;
    }
    r := dram.Read16(addr - DRAM_BASE);
  }

  method ReadU32(dram: Dram, addr: nat) returns (r: Option<nat>)
    ensures r == GuestRead(dram.memory[..], addr, 4)
  {
    if addr < DRAM_BASE {
      return None;
    }
    r := dram.Read32(addr - DRAM_BASE);
  }

  method ReadU64(dram: Dram, addr: nat) returns (r: Option<nat>)
    ensures r == GuestRead(dram.memory[..], addr, 8)
  {
    if addr < DRAM_BASE {
      return None;
    }
    r := dram.Read64(addr - DRAM_BASE);
  }

  method WriteSized(dram: Dram, addr: nat, n: nat, value: nat) returns (ok: bool)
    modifies dram.memory
    ensures var w := GuestWrite(old(dram.memory[..]), addr, n, value);
      ok == w.Some? && dram.memory[..] == if ok then w.value else old(dram.memory[..])
  {
    if addr < DRAM_BASE || addr - DRAM_BASE + n > dram.memory.Length {
      return false;
    }
    dram.WriteBytes(addr - DRAM_BASE, n, value);
    return true;
  }

  method ReadDescriptor(dram: Dram, addr: nat) returns (r: Option<Desc>)
    ensures r == ReadDesc(dram.memory[..], addr)
  {
    var a := ReadU64(dram, addr);
    var len := ReadU32(dram, addr + 8);
    var flags := ReadU16(dram, addr + 12);
    var next := ReadU16(dram, addr + 14);
    if a.None? || len.None? || flags.None? || next.None? {
      return None;
    }
    return Some(Desc(a.value, len.value, flags.value, next.value));
  }

  /** Puts the descriptors collected so far in front of the rest of the chain. */
  function Prepend(got: seq<Desc>, rest: Option<seq<Desc>>): Option<seq<Desc>> {
    match rest
    case None => None
    case Some(ds) => Some(got + ds)
  }

  lemma ChainStep(m: seq<u8>, q: Queue, idx: nat, left: nat)
    ensures left == 0 ==> Chain(m, q, idx, left) == None
    ensures left > 0 ==>
              var d := ReadDesc(m, q.DescAt(idx));
              Chain(m, q, idx, left) ==
                if d.None? then None
                else if !HasNext(d.value) then Some([d.value])
                else Prepend([d.value], Chain(m, q, d.value.next, left - 1))
  {
    hide ReadDesc, HasNext;
  }

  /** The descriptor-chain loop. */
  method ReadChain(dram: Dram, q: Queue, head: nat) returns (r: Option<seq<Desc>>)
    ensures r == Chain(dram.memory[..], q, head, MAX_CHAIN_LEN)
  {
    hide ReadDesc, Chain, HasNext;
    var descChain: seq<Desc> := [];
    var currentIdx := head;
    ghost var m := dram.memory[..];
    ghost var all := Chain(m, q, head, MAX_CHAIN_LEN);
    assert all.Some? ==> [] + all.value == all.value;
    while true
      invariant |descChain| <= MAX_CHAIN_LEN && currentIdx >= 0
      invariant all == Prepend(descChain, Chain(m, q, currentIdx, MAX_CHAIN_LEN - |descChain|))
      decreases MAX_CHAIN_LEN - |descChain|
    {
      ChainStep(m, q, currentIdx, MAX_CHAIN_LEN - |descChain|);
      if |descChain| >= MAX_CHAIN_LEN {
        return None;
      }
      var desc := ReadDescriptor(dram, q.DescAt(currentIdx));
      if desc.None? {
        return None;
      }
      ghost var before := descChain;
      ghost var rest := Chain(m, q, desc.value.next, MAX_CHAIN_LEN - |descChain| - 1);
      descChain := descChain + [desc.value];
      if !HasNext(desc.value) {
        return Some(descChain);
      }
      assert rest.Some? ==> before + ([desc.value] + rest.value) == descChain + rest.value;
      currentIdx := desc.value.next;
    }
  }

  /** One buffer's worth of a scatter. */
  method FillBuffer(dram: Dram, addr: nat, bytes: seq<u8>) returns (ok: bool)
    modifies dram.memory
    ensures Run(ok, dram.memory[..]) == WriteRun(old(dram.memory[..]), addr, bytes)
  {
    hide WriteRun;
    ghost var goal := WriteRun(dram.memory[..], addr, bytes);
    assert bytes[0..] == bytes;
    for j := 0 to |bytes|
      invariant goal == WriteRun(dram.memory[..], addr + j, bytes[j..])
    {
      assert bytes[j..][0] == bytes[j] && bytes[j..][1..] == bytes[j + 1..];
      WriteRunStep(dram.memory[..], addr + j, bytes[j..]);
      ok := WriteSizedByte(dram, addr + j, bytes[j]);
      if !ok {
        return false;
      }
    }
    WriteRunStep(dram.memory[..], addr + |bytes|, bytes[|bytes|..]);
    return true;
  }

  method WriteSizedByte(dram: Dram, addr: nat, value: u8) returns (ok: bool)
    modifies dram.memory
    ensures ok <==> DRAM_BASE <= addr && addr - DRAM_BASE < dram.memory.Length
    ensures dram.memory[..] == if ok then old(dram.memory[..])[addr - DRAM_BASE := value] else old(dram.memory[..])
  {
    if addr < DRAM_BASE || addr - DRAM_BASE >= dram.memory.Length {
      return false;
    }
    dram.memory[addr - DRAM_BASE] := value;
    return true;
  }

  /** One buffer's worth of a gather, byte by byte. */
  method AppendBuffer(dram: Dram, addr: nat, len: nat, got: seq<u8>) returns (r: Option<seq<u8>>)
    ensures var run := ReadRun(dram.memory[..], addr, len);
      r == match run case None => None case Some(x) => Some(got + x)
  {
    var diskBuffer := got;
    for j := 0 to len
      invariant j > 0 ==> addr >= DRAM_BASE && addr - DRAM_BASE + j <= dram.memory.Length
      invariant diskBuffer == if j == 0 then got else got + dram.memory[addr - DRAM_BASE..addr - DRAM_BASE + j]
    {
      if addr + j < DRAM_BASE || addr + j - DRAM_BASE >= dram.memory.Length {
        return None;
      }
      diskBuffer := diskBuffer + [dram.memory[addr + j - DRAM_BASE]];
    }
    assert len == 0 ==> diskBuffer == got + [];
    return Some(diskBuffer);
  }

  /** The bytes gathered so far in front of those still to come. */
  function Joined(got: seq<u8>, rest: Option<seq<u8>>): Option<seq<u8>> {
    match rest
    case None => None
    case Some(x) => Some(got + x)
  }

  lemma JoinedStep(got: seq<u8>, x: seq<u8>, rest: Option<seq<u8>>)
    ensures Joined(got, Joined(x, rest)) == Joined(got + x, rest)
  {
    if rest.Some? {
      assert got + (x + rest.value) == got + x + rest.value;
    }
  }

  lemma JoinedEnds(r: Option<seq<u8>>)
    ensures Joined([], r) == r
    ensures r.Some? ==> Joined(r.value, Some([])) == r
  {
    if r.Some? {
      assert [] + r.value == r.value && r.value + [] == r.value;
    }
  }

  /** The gather loop over all buffers. */
  method GatherBuffers(dram: Dram, buffers: seq<Buffer>) returns (r: Option<seq<u8>>)
    ensures r == Gather(dram.memory[..], buffers)
  {
    hide ReadRun, Joined;
    ghost var m := dram.memory[..];
    ghost var goal := Gather(m, buffers);
    var diskBuffer: seq<u8> := [];
    JoinedEnds(goal);
    for i := 0 to |buffers|
      invariant goal == Joined(diskBuffer, Gather(m, buffers[i..]))
    {
      assert buffers[i..][0] == buffers[i] && buffers[i..][1..] == buffers[i + 1..];
      GatherStep(m, buffers[i..], diskBuffer);
      var more := AppendBuffer(dram, buffers[i].addr, buffers[i].len, diskBuffer);
      if more.None? {
        return None;
      }
      diskBuffer := more.value;
    }
    JoinedEnds(Some(diskBuffer));
    return Some(diskBuffer);
  }

  lemma GatherStep(m: seq<u8>, bufs: seq<Buffer>, got: seq<u8>)
    requires bufs != []
    ensures Joined(got, Gather(m, bufs)) ==
      match ReadRun(m, bufs[0].addr, bufs[0].len)
      case None => None
      case Some(x) => Joined(got + x, Gather(m, bufs[1..]))
  {
    var x := ReadRun(m, bufs[0].addr, bufs[0].len);
    if x.Some? {
      JoinedStep(got, x.value, Gather(m, bufs[1..]));
    }
  }

  class VirtioBlock {
    var disk: seq<u8>
    const capacity: nat
    var status: u32
    var queueSel: u32
    var queueAlign: u32
    var queueNum: u32
    var queuePfn: u32
    var queueReady: bool
    var driverFeatures: bv64
    var deviceFeaturesSel: u32
    var driverFeaturesSel: u32
    var interruptStatus: bv32

    constructor (image: seq<u8>)
      ensures disk == image && capacity == |image| / SECTOR_SIZE
      ensures RegisterValues() == ResetRegisters()
    {
      disk := image;
      capacity := |image| / SECTOR_SIZE;
      status, queueSel, queueAlign, queueNum, queuePfn := 0, 0, 4096, 0, 0;
      queueReady := false;
      driverFeatures, deviceFeaturesSel, driverFeaturesSel := 0, 0, 0;
      interruptStatus := 0;
    }

    function RegisterValues(): Registers
      reads this
    {
      Registers(status, queueSel, queueAlign, queueNum, queuePfn, queueReady, driverFeatures, deviceFeaturesSel,
                driverFeaturesSel, interruptStatus)
    }

    /** The queue that the registers describe. */
    function QueueRegs(): Queue
      reads this
    {
      Queue(queuePfn * 0x1000, queueNum, queueAlign)
    }

    ghost function State(dram: Dram): World
      reads this, dram.memory
    {
      World(dram.memory[..], disk)
    }

    /** IN: read the disk, then scatter over the buffers. */
    method HandleReadRequestSg(dram: Dram, sector: nat, buffers: seq<Buffer>) returns (ok: bool, st: u8)
      modifies dram.memory
      ensures Handled(ok, State(dram), st) == HandleIn(old(State(dram)), capacity, sector, buffers)
    {
      var totalLen := TotalLength(buffers);
      if sector + SectorsNeeded(totalLen) > capacity {
        return true, S_IOERR;
      }
      var data := FileRead(disk, sector * SECTOR_SIZE, totalLen);
      if data.None? {
        return true, S_IOERR;
      }
      var diskBuffer := data.value;
      ghost var goal := Scatter(dram.memory[..], buffers, diskBuffer);
      var diskOffset := 0;
      for i := 0 to |buffers|
        invariant 0 <= diskOffset <= |diskBuffer|
        invariant |diskBuffer| - diskOffset == TotalLength(buffers[i..])
        invariant goal == Scatter(dram.memory[..], buffers[i..], diskBuffer[diskOffset..])
      {
        var end := diskOffset + buffers[i].len;
        assert buffers[i..][0] == buffers[i] && buffers[i..][1..] == buffers[i + 1..];
        assert diskBuffer[diskOffset..][..buffers[i].len] == diskBuffer[diskOffset..end];
        assert diskBuffer[diskOffset..][buffers[i].len..] == diskBuffer[end..];
        ok := FillBuffer(dram, buffers[i].addr, diskBuffer[diskOffset..end]);
        if !ok {
          return false, S_OK;
        }
        diskOffset := end;
      }
      return true, S_OK;
    }

    /** OUT: gather all buffers, then write the disk once. */
    method HandleWriteRequestSg(dram: Dram, sector: nat, buffers: seq<Buffer>) returns (ok: bool, st: u8)
      modifies this`disk
      ensures Handled(ok, State(dram), st) == HandleOut(old(State(dram)), capacity, sector, buffers)
    {
      var totalLen := TotalLength(buffers);
      if sector + SectorsNeeded(totalLen) > capacity {
        return true, S_IOERR;
      }
      var diskBuffer := GatherBuffers(dram, buffers);
      if diskBuffer.None? {
        return false, S_OK;
      }
      disk := FileWrite(disk, sector * SECTOR_SIZE, diskBuffer.value);
      return true, S_OK;
    }

    /** GET_ID: the serial number, padded with zeros. */
    method HandleGetIdRequest(dram: Dram, addr: nat, length: nat) returns (ok: bool)
      modifies dram.memory
      ensures Run(ok, dram.memory[..]) == WriteRun(old(dram.memory[..]), addr, SerialBytes(length))
    {
      hide WriteRun;
      var writeLen := if length < |SERIAL| then length else |SERIAL|;
      ghost var bytes := SerialBytes(length);
      ghost var goal := WriteRun(dram.memory[..], addr, bytes);
      assert bytes[0..] == bytes;
      for i := 0 to writeLen
        invariant goal == WriteRun(dram.memory[..], addr + i, bytes[i..])
      {
        assert bytes[i..][0] == SERIAL[i] && bytes[i..][1..] == bytes[i + 1..];
        WriteRunStep(dram.memory[..], addr + i, bytes[i..]);
        ok := WriteSizedByte(dram, addr + i, SERIAL[i]);
        if !ok {
          return false;
        }
      }
      for i := writeLen to length
        invariant goal == WriteRun(dram.memory[..], addr + i, bytes[i..])
      {
        assert bytes[i..][0] == 0 && bytes[i..][1..] == bytes[i + 1..];
        WriteRunStep(dram.memory[..], addr + i, bytes[i..]);
        ok := WriteSizedByte(dram, addr + i, 0);
        if !ok {
          return false;
        }
      }
      WriteRunStep(dram.memory[..], addr + length, bytes[length..]);
      return true;
    }

    /** The request dispatch. */
    method Dispatch(dram: Dram, reqType: nat, sector: nat, data: seq<Buffer>) returns (ok: bool, st: u8, usedLen: nat)
      modifies this`disk, dram.memory
      ensures Answered(old(State(dram)), capacity, reqType, sector, data) ==
              Answer(Handled(ok, State(dram), st), usedLen)
    {
      hide HandleIn, HandleOut, WriteRun, SerialBytes;
      if reqType == T_IN {
        ok, st := HandleReadRequestSg(dram, sector, data);
        usedLen := TotalLength(data) + 1;
      } else if reqType == T_OUT {
        ok, st := HandleWriteRequestSg(dram, sector, data);
        usedLen := 1;
      } else if reqType == T_FLUSH {
        ok, st, usedLen := true, S_OK, 1;
      } else if reqType == T_GET_ID {
        if data != [] {
          ok := HandleGetIdRequest(dram, data[0].addr, data[0].len);
          st, usedLen := S_OK, data[0].len + 1;
        } else {
          ok, st, usedLen := true, S_IOERR, 1;
        }
      } else {
        ok, st, usedLen := true, S_IOERR, 1;
      }
    }

    /** The status byte and the used-ring element. */
    method CompleteRequest(dram: Dram, q: Queue, usedIdx: nat, head: nat, statusAddr: nat, st: u8, usedLen: nat)
      returns (ok: bool)
      requires q.Usable()
      modifies dram.memory
      ensures Step(ok, State(dram)) == Complete(old(State(dram)), q, usedIdx, head, statusAddr, st, usedLen)
    {
      hide GuestWrite;
      ok := WriteSized(dram, statusAddr, 1, st);
      if !ok {
        return;
      }
      ok := WriteSized(dram, q.UsedSlot(usedIdx), 4, head);
      if !ok {
        return;
      }
      ok := WriteSized(dram, q.UsedSlot(usedIdx) + 4, 4, usedLen);
    }

    /** The body of the queue loop: one available entry, from its chain to its used element. */
    method ServeOne(dram: Dram, q: Queue, usedIdx: nat) returns (ok: bool)
      requires q.Usable()
      modifies this`disk, dram.memory
      ensures Step(ok, State(dram)) == ServeSlot(old(State(dram)), capacity, q, usedIdx)
    {
      hide GuestRead, Answered, Complete, Chain;
      var head := ReadU16(dram, q.AvailSlot(usedIdx));
      if head.None? {
        return false;
      }
      var chain := ReadChain(dram, q, head.value);
      if chain.None? {
        return false;
      }
      var descChain := chain.value;
      if |descChain| < 2 {
        return false;
      }
      var headerAddr := descChain[0].addr;
      var reqType := ReadU32(dram, headerAddr);
      var reserved := ReadU32(dram, headerAddr + 4);
      var sector := ReadU64(dram, headerAddr + 8);
      if reqType.None? || reserved.None? || sector.None? {
        return false;
      }
      var dataBuffers := Buffers(descChain[1..|descChain| - 1]);
      var st, usedLen;
      ok, st, usedLen := Dispatch(dram, reqType.value, sector.value, dataBuffers);
      if !ok {
        return false;
      }
      ok := CompleteRequest(dram, q, usedIdx, head.value, descChain[|descChain| - 1].addr, st, usedLen);
    }

    /** A queue notification. */
    method ProcessQueue(dram: Dram) returns (ok: bool)
      requires queuePfn != 0 ==> queueNum > 0 && queueAlign > 0
      modifies this`disk, this`interruptStatus, dram.memory
      ensures old(queuePfn) == 0 ==>
        ok && State(dram) == old(State(dram)) && interruptStatus == old(interruptStatus)
      ensures old(queuePfn) != 0 ==>
        var r := Process(old(State(dram)), capacity, Queue(old(queuePfn) * 4096, old(queueNum), old(queueAlign)));
        && ok == r.ok && State(dram) == r.world
        && interruptStatus == if r.interrupt then old(interruptStatus) | 1 else old(interruptStatus)
    {
      if queuePfn == 0 {
        return true;
      }
      hide GuestRead, GuestWrite, ServeMany, Outstanding, Queue.UsedIdx, Queue.AvailIdx, Queue.AvailFlags,
           Queue.UsedOffset;
      var q := QueueRegs();
      var availFlags := ReadU16(dram, q.AvailFlags());
      var availIdx := ReadU16(dram, q.AvailIdx());
      var usedIdxRead := ReadU16(dram, q.UsedIdx());
      if availFlags.None? || availIdx.None? || usedIdxRead.None? {
        return false;
      }
      var usedIdx := usedIdxRead.value;
      if availIdx.value == usedIdx {
        return true;
      }
      ok := ServeOutstanding(dram, q, availIdx.value, usedIdx);
      if !ok {
        return false;
      }
      ok := WriteSized(dram, q.UsedIdx(), 2, availIdx.value);
      if !ok {
        return false;
      }
      if availFlags.value % 2 == 0 {
        interruptStatus := interruptStatus | 1;
      }
      return true;
    }

    /** The queue loop: runs until the 16-bit used index reaches the available index. */
    method ServeOutstanding(dram: Dram, q: Queue, availIdx: u16, startIdx: u16) returns (ok: bool)
      requires q.Usable()
      modifies this`disk, dram.memory
      ensures Step(ok, State(dram)) ==
        ServeMany(old(State(dram)), capacity, q, startIdx, Outstanding(availIdx, startIdx))
    {
      hide ServeSlot, Outstanding, NextIndex;
      var usedIdx: u16 := startIdx;
      OutstandingNext(availIdx, startIdx);
      ghost var goal := ServeMany(State(dram), capacity, q, startIdx, Outstanding(availIdx, startIdx));
      while availIdx != usedIdx
        invariant goal == ServeMany(State(dram), capacity, q, usedIdx, Outstanding(availIdx, usedIdx))
        decreases Outstanding(availIdx, usedIdx)
      {
        OutstandingNext(availIdx, usedIdx);
        ok := ServeOne(dram, q, usedIdx);
        if !ok {
          return false;
        }
        usedIdx := NextIndex(usedIdx);
      }
      OutstandingNext(availIdx, usedIdx);
      return true;
    }

    /** The register writes: feature negotiation, queue setup, acknowledgement and reset. */
    method Write32(offset: nat, value: u32)
      modifies this
      ensures RegisterValues() == AfterWrite(old(RegisterValues()), offset, value) && disk == old(disk)
    {
      hide Acknowledged, WithFeatures;
      if offset == 0x14 {
        deviceFeaturesSel := value;
      } else if offset == 0x20 {
        driverFeatures := WithFeatures(driverFeatures, driverFeaturesSel, value);
      } else if offset == 0x24 {
        driverFeaturesSel := value;
      } else if offset == 0x30 {
        queueSel := value;
      } else if offset == 0x38 {
        if queueSel == 0 {
          queueNum := value;
        }
      } else if offset == 0x3c {
        queueAlign := value;
      } else if offset == 0x40 {
        if queueSel == 0 {
          queuePfn := value;
          queueReady := value != 0;
        }
      } else if offset == 0x44 {
        if queueSel == 0 {
          queueReady := value != 0;
        }
      } else if offset == 0x64 {
        interruptStatus := Acknowledged(interruptStatus, value);
      } else if offset == 0x70 {
        if value == 0 {
          queueNum, queuePfn, queueReady, queueSel := 0, 0, false, 0;
          interruptStatus := 0;
          driverFeatures, deviceFeaturesSel, driverFeaturesSel := 0, 0, 0;
          queueAlign := 4096;
        }
        status := value;
      }
    }
  }

  // ----- The registers as a value -----

  datatype Registers = Registers(
    status: u32, queueSel: u32, queueAlign: u32, queueNum: u32, queuePfn: u32, queueReady: bool, driverFeatures: bv64,
    deviceFeaturesSel: u32, driverFeaturesSel: u32, interruptStatus: bv32)

  function ResetRegisters(): Registers {
    Registers(0, 0, 4096, 0, 0, false, 0, 0, 0, 0)
  }

  function Acknowledged(interruptStatus: bv32, value: u32): bv32 {
    interruptStatus & !(value as bv32)
  }

  /** One half of the accepted features replaced. */
  function WithFeatures(features: bv64, sel: u32, value: u32): bv64 {
    if sel == 0 then (features & 0xFFFF_FFFF_0000_0000) | (value as bv64)
    else (features & 0x0000_0000_FFFF_FFFF) | ((value as bv64) << 32)
  }

  function AfterWrite(r: Registers, offset: nat, value: u32): Registers {
    if offset == 0x14 then r.(deviceFeaturesSel := value)
    else if offset == 0x20 then r.(driverFeatures := WithFeatures(r.driverFeatures, r.driverFeaturesSel, value))
    else if offset == 0x24 then r.(driverFeaturesSel := value)
    else if offset == 0x30 then r.(queueSel := value)
    else if offset == 0x38 then if r.queueSel == 0 then r.(queueNum := value) else r
    else if offset == 0x3c then r.(queueAlign := value)
    else if offset == 0x40 then if r.queueSel == 0 then r.(queuePfn := value, queueReady := value != 0) else r
    else if offset == 0x44 then if r.queueSel == 0 then r.(queueReady := value != 0) else r
    else if offset == 0x64 then r.(interruptStatus := Acknowledged(r.interruptStatus, value))
    else if offset == 0x70 then if value == 0 then ResetRegisters() else r.(status := value)
    else r
  }

  datatype RegisterWrite = RegisterWrite(offset: nat, value: u32)

  function AfterWrites(r: Registers, ws: seq<RegisterWrite>): Registers
    decreases |ws|
  {
    if ws == [] then r else AfterWrites(AfterWrite(r, ws[0].offset, ws[0].value), ws[1..])
  }

  /** Gives the device a queue, when queue 0 is selected. */
  predicate SetsQueue(w: RegisterWrite) {
    w.offset == 0x40 && w.value != 0
  }

  lemma {:induction false} NoQueueStays(r: Registers, ws: seq<RegisterWrite>)
    requires r.queuePfn == 0 && forall i :: 0 <= i < |ws| ==> !SetsQueue(ws[i])
    ensures AfterWrites(r, ws).queuePfn == 0
    decreases |ws|
  {
    hide Acknowledged, WithFeatures;
    if ws != [] {
      NoQueueStays(AfterWrite(r, ws[0].offset, ws[0].value), ws[1..]);
    }
  }

  lemma {:induction false} WritesSplit(r: Registers, ws: seq<RegisterWrite>, k: nat)
    requires k <= |ws|
    ensures AfterWrites(r, ws) == AfterWrites(AfterWrites(r, ws[..k]), ws[k..])
    decreases |ws|
  {
    hide AfterWrite;
    if k == 0 {
      assert ws[k..] == ws;
    } else {
      assert ws[..k][1..] == ws[1..][..k - 1] && ws[k..] == ws[1..][k - 1..];
      WritesSplit(AfterWrite(r, ws[0].offset, ws[0].value), ws[1..], k - 1);
    }
  }

  /** Once the driver writes a zero status, at any point of any sequence of register writes, the device has no queue
      until a page number is written again, and the reset itself restores every register. */
  lemma ResetUntilConfigured(r: Registers, ws: seq<RegisterWrite>, k: nat)
    requires k < |ws| && ws[k] == RegisterWrite(0x70, 0)
    requires forall i :: k < i < |ws| ==> !SetsQueue(ws[i])
    ensures AfterWrites(r, ws[..k + 1]) == ResetRegisters()
    ensures AfterWrites(r, ws).queuePfn == 0
  {
    hide SetsQueue;
    var before := AfterWrites(r, ws[..k]);
    WritesSplit(r, ws[..k + 1], k);
    assert ws[..k + 1][..k] == ws[..k] && ws[..k + 1][k..] == [ws[k]];
    assert AfterWrites(before, [ws[k]]) == AfterWrite(before, 0x70, 0) by {
      assert [ws[k]][1..] == [];
    }
    WritesSplit(r, ws, k + 1);
    NoQueueStays(ResetRegisters(), ws[k + 1..]);
  }
}
