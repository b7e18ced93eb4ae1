/** The VirtIO block device: descriptor chains, requests and the split virtqueue. */
module BlockDevice {
  import opened Words
  import opened Memory
  import opened GuestMemory

  const SECTOR_SIZE := 512
  const MAX_CHAIN_LEN := 256
  const T_IN := 0
  const T_OUT := 1
  const T_FLUSH := 4
  const T_GET_ID := 8
  const S_OK: u8 := 0
  const S_IOERR: u8 := 2

  // ----- The disk image -----

  /** `read_exact`: all of the bytes or none. */
  function FileRead(f: seq<u8>, off: nat, len: nat): (r: Option<seq<u8>>)
    ensures r.Some? ==> |r.value| == len
  {
    if len == 0 then Some([])
    else if off + len <= |f| then Some(f[off..off + len])
    else None
  }

  /** `write_all`: writing past the end extends the file, with zeros in the gap. */
  function FileWrite(f: seq<u8>, off: nat, data: seq<u8>): seq<u8> {
    if data == [] then f
    else if off + |data| <= |f| then f[..off] + data + f[off + |data|..]
    else if off <= |f| then f[..off] + data
    else f + seq(off - |f|, _ => 0) + data
  }

  // ----- Queue layout -----

  /** A split virtqueue of `num` entries in the legacy layout. */
  datatype Queue = Queue(addr: nat, num: nat, align: nat) {
    function AvailFlags(): nat { addr + num * 16 }

    function AvailIdx(): nat { addr + num * 16 + 2 }

    function AvailSlot(i: nat): nat
      requires num > 0
    {
      addr + num * 16 + 4 + i % num * 2
    }

    function UsedOffset(): nat
      requires align > 0
    {
      (num * 16 + (4 + 2 * num + 2) + align - 1) / align * align
    }

    function UsedIdx(): nat
      requires align > 0
    {
      addr + UsedOffset() + 2
    }

    function UsedSlot(i: nat): nat
      requires num > 0 && align > 0
    {
      addr + UsedOffset() + 4 + i % num * 8
    }

    function DescAt(i: nat): nat { addr + i * 16 }

    predicate Usable() { num > 0 && align > 0 }
  }

  // ----- Descriptor chains -----

  datatype Desc = Desc(addr: nat, len: nat, flags: nat, next: nat)

  predicate HasNext(d: Desc) { d.flags % 2 == 1 }

  function ReadDesc(m: seq<u8>, a: nat): Option<Desc> {
    match (GuestRead(m, a, 8), GuestRead(m, a + 8, 4), GuestRead(m, a + 12, 2), GuestRead(m, a + 14, 2))
    case (Some(addr), Some(len), Some(flags), Some(next)) => Some(Desc(addr, len, flags, next))
    case _ => None
  }

  /** The chain that starts at descriptor `idx`, of at most `left` descriptors. */
  function Chain(m: seq<u8>, q: Queue, idx: nat, left: nat): Option<seq<Desc>>
    decreases left
  {
    if left == 0 then None
    else
      match ReadDesc(m, q.DescAt(idx))
      case None => None
      case Some(d) =>
        if !HasNext(d) then Some([d])
        else
          match Chain(m, q, d.next, left - 1)
          case None => None
          case Some(rest) => Some([d] + rest)
  }

  function Buffers(ds: seq<Desc>): (bs: seq<Buffer>)
    ensures |bs| == |ds|
  {
    seq(|ds|, i requires 0 <= i < |ds| => Buffer(ds[i].addr, ds[i].len))
  }

  // ----- Requests -----

  /** Guest memory and disk. */
  datatype World = World(mem: seq<u8>, disk: seq<u8>)

  datatype Handled = Handled(ok: bool, world: World, status: u8)

  function SectorsNeeded(bytes: nat): nat {
    (bytes + SECTOR_SIZE - 1) / SECTOR_SIZE
  }

  function HandleIn(w: World, capacity: nat, sector: nat, bufs: seq<Buffer>): Handled {
    var total := TotalLength(bufs);
    if sector + SectorsNeeded(total) > capacity then Handled(true, w, S_IOERR)
    else
      match FileRead(w.disk, sector * SECTOR_SIZE, total)
      case None => Handled(true, w, S_IOERR)
      case Some(data) =>
        var r := Scatter(w.mem, bufs, data);
        Handled(r.ok, World(r.mem, w.disk), S_OK)
  }

  function HandleOut(w: World, capacity: nat, sector: nat, bufs: seq<Buffer>): Handled {
    if sector + SectorsNeeded(TotalLength(bufs)) > capacity then Handled(true, w, S_IOERR)
    else
      match Gather(w.mem, bufs)
      case None => Handled(false, w, S_OK)
      case Some(data) => Handled(true, World(w.mem, FileWrite(w.disk, sector * SECTOR_SIZE, data)), S_OK)
  }

  const SERIAL: seq<u8> := [77, 89, 83, 73, 77, 45, 86, 73, 82, 84, 73, 79, 45, 66, 76, 75]

  /** The serial number, cut or zero-padded to `len` bytes. */
  function SerialBytes(len: nat): (b: seq<u8>)
    ensures |b| == len
  {
    seq(len, i requires 0 <= i < len => if i < |SERIAL| then SERIAL[i] else 0)
  }

  datatype Answer = Answer(handled: Handled, usedLen: nat)

  function Answered(w: World, capacity: nat, reqType: nat, sector: nat, data: seq<Buffer>): Answer {
    if reqType == T_IN then Answer(HandleIn(w, capacity, sector, data), TotalLength(data) + 1)
    else if reqType == T_OUT then Answer(HandleOut(w, capacity, sector, data), 1)
    else if reqType == T_FLUSH then Answer(Handled(true, w, S_OK), 1)
    else if reqType == T_GET_ID then
      if data == [] then Answer(Handled(true, w, S_IOERR), 1)
      else
        var r := WriteRun(w.mem, data[0].addr, SerialBytes(data[0].len));
        Answer(Handled(r.ok, World(r.mem, w.disk), S_OK), data[0].len + 1)
    else Answer(Handled(true, w, S_IOERR), 1)
  }

  /** One step of the device: whether it may go on, and the world it leaves. */
  datatype Step = Step(ok: bool, world: World)

  /** Stores the status byte and the used-ring element of slot `i`. */
  function Complete(w: World, q: Queue, i: nat, head: nat, statusAddr: nat, status: u8, usedLen: nat): Step
    requires q.Usable()
  {
    match GuestWrite(w.mem, statusAddr, 1, status)
    case None => Step(false, w)
    case Some(m1) =>
      match GuestWrite(m1, q.UsedSlot(i), 4, head)
      case None => Step(false, World(m1, w.disk))
      case Some(m2) =>
        match GuestWrite(m2, q.UsedSlot(i) + 4, 4, usedLen)
        case None => Step(false, World(m2, w.disk))
        case Some(m3) => Step(true, World(m3, w.disk))
  }

  /** Serves the request whose head is in available slot `i`. */
  function ServeSlot(w: World, capacity: nat, q: Queue, i: nat): Step
    requires q.Usable()
  {
    match GuestRead(w.mem, q.AvailSlot(i), 2)
    case None => Step(false, w)
    case Some(head) =>
      match Chain(w.mem, q, head, MAX_CHAIN_LEN)
      case None => Step(false, w)
      case Some(ds) => if |ds| < 2 then Step(false, w) else ServeChain(w, capacity, q, i, head, ds)
  }

  function ServeChain(w: World, capacity: nat, q: Queue, i: nat, head: nat, ds: seq<Desc>): Step
    requires q.Usable() && |ds| >= 2
  {
    match (GuestRead(w.mem, ds[0].addr, 4), GuestRead(w.mem, ds[0].addr + 4, 4), GuestRead(w.mem, ds[0].addr + 8, 8))
    case (Some(reqType), Some(_), Some(sector)) =>
      var a := Answered(w, capacity, reqType, sector, Buffers(ds[1..|ds| - 1]));
      if !a.handled.ok then Step(false, a.handled.world)
      else Complete(a.handled.world, q, i, head, ds[|ds| - 1].addr, a.handled.status, a.usedLen)
    case _ => Step(false, w)
  }

  function NextIndex(i: nat): nat {
    (i + 1) % 0x1_0000
  }

  /** Serves `n` consecutive slots, from slot `i` on. */
  function ServeMany(w: World, capacity: nat, q: Queue, i: nat, n: nat): Step
    requires q.Usable()
    decreases n
  {
    if n == 0 then Step(true, w)
    else
      var s := ServeSlot(w, capacity, q, i);
      if !s.ok then s else ServeMany(s.world, capacity, q, NextIndex(i), n - 1)
  }

  /** How many requests are outstanding between the two ring indices. */
  function Outstanding(avail: nat, used: nat): nat {
    (avail - used) % 0x1_0000
  }

  /** Serving one request brings the indices one step closer. */
  lemma OutstandingNext(avail: u16, used: u16)
    ensures Outstanding(avail, used) == 0 <==> avail == used
    ensures avail != used ==> Outstanding(avail, NextIndex(used)) == Outstanding(avail, used) - 1
    ensures NextIndex(used) < 0x1_0000
  {
  }

  datatype Notified = Notified(ok: bool, world: World, interrupt: bool)

  /** One queue notification: serve everything outstanding, then publish the used index. */
  function Process(w: World, capacity: nat, q: Queue): Notified
    requires q.Usable()
  {
    match (GuestRead(w.mem, q.AvailFlags(), 2), GuestRead(w.mem, q.AvailIdx(), 2), GuestRead(w.mem, q.UsedIdx(), 2))
    case (Some(flags), Some(avail), Some(used)) =>
      if avail == used then Notified(true, w, false)
      else
        var s := ServeMany(w, capacity, q, used, Outstanding(avail, used));
        if !s.ok then Notified(false, s.world, false)
        else
          (match GuestWrite(s.world.mem, q.UsedIdx(), 2, avail)
           case None => Notified(false, s.world, false)
           case Some(m) => Notified(true, World(m, s.world.disk), flags % 2 == 0))
    case _ => Notified(false, w, false)
  }
}
