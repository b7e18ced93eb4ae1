/** Guest memory as a VirtIO device sees it: DRAM bytes at guest-physical addresses. */
module GuestMemory {
  import opened Words
  import opened Memory

  /** The little-endian number in `n` guest bytes. */
  function GuestRead(m: seq<u8>, a: nat, n: nat): Option<nat> {
    if a < DRAM_BASE then None else Peek(m, a - DRAM_BASE, n)
  }

  function GuestWrite(m: seq<u8>, a: nat, n: nat, v: nat): (r: Option<seq<u8>>)
    ensures r.Some? ==> |r.value| == |m|
  {
    if a < DRAM_BASE || a - DRAM_BASE + n > |m| then None else Some(Poke(m, a - DRAM_BASE, n, v))
  }

  /** The bytes of one buffer, or nothing when one of them lies outside DRAM. */
  function ReadRun(m: seq<u8>, a: nat, len: nat): (r: Option<seq<u8>>)
    ensures r.Some? ==> |r.value| == len
  {
    if len == 0 then Some([])
    else if a < DRAM_BASE || a - DRAM_BASE + len > |m| then None
    else Some(m[a - DRAM_BASE..a - DRAM_BASE + len])
  }

  datatype Run = Run(ok: bool, mem: seq<u8>)

  /** Writes bytes one after another; stops at the first that lies outside DRAM. */
  function WriteRun(m: seq<u8>, a: nat, bytes: seq<u8>): (r: Run)
    ensures |r.mem| == |m|
    decreases |bytes|
  {
    if bytes == [] then Run(true, m)
    else if a < DRAM_BASE || a - DRAM_BASE >= |m| then Run(false, m)
    else WriteRun(m[a - DRAM_BASE := bytes[0]], a + 1, bytes[1..])
  }

  lemma WriteRunStep(m: seq<u8>, a: nat, bytes: seq<u8>)
    ensures bytes == [] ==> WriteRun(m, a, bytes) == Run(true, m)
    ensures bytes != [] ==>
              WriteRun(m, a, bytes) ==
                if a < DRAM_BASE || a - DRAM_BASE >= |m| then Run(false, m)
                else WriteRun(m[a - DRAM_BASE := bytes[0]], a + 1, bytes[1..])
  {
  }

  /** A buffer: where it starts and how many bytes it has. */
  datatype Buffer = Buffer(addr: nat, len: nat)

  function TotalLength(bufs: seq<Buffer>): nat {
    if bufs == [] then 0 else bufs[0].len + TotalLength(bufs[1..])
  }

  /** The contents of the buffers, end to end. */
  function Gather(m: seq<u8>, bufs: seq<Buffer>): (r: Option<seq<u8>>)
    ensures r.Some? ==> |r.value| == TotalLength(bufs)
  {
    if bufs == [] then Some([])
    else
      match (ReadRun(m, bufs[0].addr, bufs[0].len), Gather(m, bufs[1..]))
      case (Some(x), Some(y)) => Some(x + y)
      case _ => None
  }

  /** Fills the buffers in order from the front of `data`. */
  function Scatter(m: seq<u8>, bufs: seq<Buffer>, data: seq<u8>): (r: Run)
    requires |data| == TotalLength(bufs)
    ensures |r.mem| == |m|
    decreases |bufs|
  {
    if bufs == [] then Run(true, m)
    else
      var first := WriteRun(m, bufs[0].addr, data[..bufs[0].len]);
      if !first.ok then first
      else Scatter(first.mem, bufs[1..], data[bufs[0].len..])
  }

  // ----- What the runs do -----

  /** Address `x` belongs to the buffer. */
  predicate InBuffer(b: Buffer, x: nat) {
    b.addr <= x < b.addr + b.len
  }

  predicate InBuffers(bufs: seq<Buffer>, x: nat) {
    exists i :: 0 <= i < |bufs| && InBuffer(bufs[i], x)
  }

  /** No two buffers share a byte. */
  predicate PairwiseDisjoint(bufs: seq<Buffer>) {
    forall i, j :: 0 <= i < j < |bufs| ==> BuffersApart(bufs[i], bufs[j])
  }

  predicate BuffersApart(b: Buffer, c: Buffer) {
    b.addr + b.len <= c.addr || c.addr + c.len <= b.addr || b.len == 0 || c.len == 0
  }

  lemma {:induction false} WriteRunFrame(m: seq<u8>, a: nat, bytes: seq<u8>, o: nat)
    requires o < |m| && !(a <= o + DRAM_BASE < a + |bytes|)
    ensures WriteRun(m, a, bytes).mem[o] == m[o]
    decreases |bytes|
  {
    if bytes != [] && a >= DRAM_BASE && a - DRAM_BASE < |m| {
      WriteRunFrame(m[a - DRAM_BASE := bytes[0]], a + 1, bytes[1..], o);
    }
  }

  /** A run that succeeds puts every byte in its place, and succeeds exactly when all fit. */
  lemma {:induction false} WriteRunPlaces(m: seq<u8>, a: nat, bytes: seq<u8>)
    ensures WriteRun(m, a, bytes).ok <==> bytes == [] || (DRAM_BASE <= a && a - DRAM_BASE + |bytes| <= |m|)
    ensures WriteRun(m, a, bytes).ok ==> ReadRun(WriteRun(m, a, bytes).mem, a, |bytes|) == Some(bytes)
    decreases |bytes|
  {
    if bytes != [] && a >= DRAM_BASE && a - DRAM_BASE < |m| {
      var o := a - DRAM_BASE;
      var m1 := m[o := bytes[0]];
      WriteRunPlaces(m1, a + 1, bytes[1..]);
      WriteRunFrame(m1, a + 1, bytes[1..], o);
      var r := WriteRun(m, a, bytes);
      if r.ok {
        assert r.mem[o] == bytes[0];
        assert r.mem[o + 1..o + |bytes|] == bytes[1..];
        assert r.mem[o..o + |bytes|] == [bytes[0]] + bytes[1..] == bytes;
      }
    }
  }

  lemma {:induction false} ScatterFrame(m: seq<u8>, bufs: seq<Buffer>, data: seq<u8>, o: nat)
    requires |data| == TotalLength(bufs) && o < |m| && !InBuffers(bufs, o + DRAM_BASE)
    ensures Scatter(m, bufs, data).mem[o] == m[o]
    decreases |bufs|
  {
    if bufs != [] {
      assert !InBuffer(bufs[0], o + DRAM_BASE);
      WriteRunFrame(m, bufs[0].addr, data[..bufs[0].len], o);
      assert forall i :: 0 <= i < |bufs| - 1 ==> bufs[1..][i] == bufs[i + 1];
      assert !InBuffers(bufs[1..], o + DRAM_BASE);
      ScatterFrame(WriteRun(m, bufs[0].addr, data[..bufs[0].len]).mem, bufs[1..], data[bufs[0].len..], o);
    }
  }

  /** Buffers read the same bytes from memories that agree on them. */
  lemma {:induction false} GatherFrame(m: seq<u8>, m': seq<u8>, bufs: seq<Buffer>)
    requires |m| == |m'|
    requires forall o :: 0 <= o < |m| && InBuffers(bufs, o + DRAM_BASE) ==> m[o] == m'[o]
    ensures Gather(m, bufs) == Gather(m', bufs)
    decreases |bufs|
  {
    if bufs != [] {
      var b := bufs[0];
      if b.len > 0 && b.addr >= DRAM_BASE && b.addr - DRAM_BASE + b.len <= |m| {
        var o := b.addr - DRAM_BASE;
        forall i | o <= i < o + b.len
          ensures m[i] == m'[i]
        {
          assert InBuffer(bufs[0], i + DRAM_BASE);
        }
        assert m[o..o + b.len] == m'[o..o + b.len];
      }
      forall i | 0 <= i < |m| && InBuffers(bufs[1..], i + DRAM_BASE)
        ensures m[i] == m'[i]
      {
        var k :| 0 <= k < |bufs[1..]| && InBuffer(bufs[1..][k], i + DRAM_BASE);
        assert InBuffer(bufs[k + 1], i + DRAM_BASE);
      }
      GatherFrame(m, m', bufs[1..]);
    }
  }

  /** Filling other buffers leaves a separate buffer as it was. */
  lemma ScatterMisses(m: seq<u8>, bufs: seq<Buffer>, data: seq<u8>, b: Buffer)
    requires |data| == TotalLength(bufs)
    requires forall i :: 0 <= i < |bufs| ==> BuffersApart(b, bufs[i])
    ensures ReadRun(Scatter(m, bufs, data).mem, b.addr, b.len) == ReadRun(m, b.addr, b.len)
  {
    var m' := Scatter(m, bufs, data).mem;
    forall o | 0 <= o < |m| && InBuffer(b, o + DRAM_BASE)
      ensures m'[o] == m[o]
    {
      ScatterFrame(m, bufs, data, o);
    }
    RunSame(m', m, b);
  }

  /** Disjoint buffers give back exactly what was scattered into them. */
  lemma {:induction false} ScatterThenGather(m: seq<u8>, bufs: seq<Buffer>, data: seq<u8>)
    requires |data| == TotalLength(bufs) && PairwiseDisjoint(bufs) && Scatter(m, bufs, data).ok
    ensures Gather(Scatter(m, bufs, data).mem, bufs) == Some(data)
    decreases |bufs|
  {
    hide WriteRun, ReadRun, BuffersApart;
    if bufs != [] {
      var b := bufs[0];
      var x, y := data[..b.len], data[b.len..];
      var m1 := WriteRun(m, b.addr, x).mem;
      WriteRunPlaces(m, b.addr, x);
      ScatterThenGather(m1, bufs[1..], y);
      ScatterMisses(m1, bufs[1..], y, b);
      assert x + y == data;
    }
  }

  lemma RunSame(m: seq<u8>, m': seq<u8>, b: Buffer)
    requires |m| == |m'|
    requires forall o :: 0 <= o < |m| && InBuffer(b, o + DRAM_BASE) ==> m[o] == m'[o]
    ensures ReadRun(m, b.addr, b.len) == ReadRun(m', b.addr, b.len)
  {
    if b.len > 0 && b.addr >= DRAM_BASE && b.addr - DRAM_BASE + b.len <= |m| {
      var o := b.addr - DRAM_BASE;
      forall i | o <= i < o + b.len
        ensures m[i] == m'[i]
      {
        assert InBuffer(b, i + DRAM_BASE);
      }
      assert m[o..o + b.len] == m'[o..o + b.len];
    }
  }
}
