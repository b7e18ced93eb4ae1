/** `load_va` and `store_va`: accesses of 1, 2, 4 or 8 bytes through paging, across pages if need be. */
module VirtualAccess {
  import opened Words
  import opened Memory
  import opened PageTable
  import opened PagingLaws
  import opened BusRouting
  import opened Mmu

  /** What selects an address space: privilege mode, SATP and MSTATUS. */
  datatype Context = Context(mode: Mode, satp: u64, mstatus: u64)

  function Ask(c: Context, va: u64, access: AccessType): Request {
    Request(va, access, c.mode, c.satp, c.mstatus)
  }

  function Reads(p: Phys, r: Request): seq<nat> {
    WalkWords(p, r.va, r.access, r.mode, r.satp, r.mstatus)
  }

  datatype Loaded = Loaded(result: Result<nat, Exception>, mem: Phys)

  datatype Stored = Stored(result: Result<(), Exception>, mem: Phys)

  /** The byte path of a load: each byte translated on its own, least significant first. */
  function LoadBytes(p: Phys, c: Context, va: u64, n: nat): Loaded
    decreases n
  {
    if n == 0 then Loaded(Ok(0), p)
    else
      var t := Perform(p, Ask(c, va, Load));
      if t.result.Err? then Loaded(Err(t.result.error), t.mem)
      else
        match ReadAt(t.mem, t.result.value, 1)
        case None => Loaded(Err(LoadAccessFault), t.mem)
        case Some(b) =>
          var rest := LoadBytes(t.mem, c, WrappingAdd(va, 1), n - 1);
          if rest.result.Err? then rest else Loaded(Ok(b + 0x100 * rest.result.value), rest.mem)
  }

  /** The fast path: one translation, one bus read. */
  function LoadWhole(p: Phys, c: Context, va: u64, n: nat): Loaded {
    var t := Perform(p, Ask(c, va, Load));
    if t.result.Err? then Loaded(Err(t.result.error), t.mem)
    else
      match ReadAt(t.mem, t.result.value, n)
      case None => Loaded(Err(LoadAccessFault), t.mem)
      case Some(v) => Loaded(Ok(v), t.mem)
  }

  predicate WithinPage(va: u64, n: nat) {
    va % 0x1000 + n <= 0x1000
  }

  function LoadVa(p: Phys, c: Context, va: u64, n: nat): Loaded {
    if WithinPage(va, n) then LoadWhole(p, c, va, n) else LoadBytes(p, c, va, n)
  }

  /** The byte path of a store. */
  function StoreBytes(p: Phys, c: Context, va: u64, v: nat, n: nat): Stored
    decreases n
  {
    if n == 0 then Stored(Ok(()), p)
    else
      var t := Perform(p, Ask(c, va, Store));
      if t.result.Err? then Stored(Err(t.result.error), t.mem)
      else
        match WriteAt(t.mem, t.result.value, 1, v % 0x100)
        case None => Stored(Err(StoreAMOAccessFault), t.mem)
        case Some(q) => StoreBytes(q, c, WrappingAdd(va, 1), v / 0x100, n - 1)
  }

  function StoreWhole(p: Phys, c: Context, va: u64, v: nat, n: nat): Stored {
    var t := Perform(p, Ask(c, va, Store));
    if t.result.Err? then Stored(Err(t.result.error), t.mem)
    else
      match WriteAt(t.mem, t.result.value, n, v)
      case None => Stored(Err(StoreAMOAccessFault), t.mem)
      case Some(q) => Stored(Ok(()), q)
  }

  function StoreVa(p: Phys, c: Context, va: u64, v: nat, n: nat): Stored {
    if WithinPage(va, n) then StoreWhole(p, c, va, v, n) else StoreBytes(p, c, va, v, n)
  }

  // ----- The two access routines -----

  /** The access widths of the instruction set. */
  predicate Width(n: nat) {
    n == 1 || n == 2 || n == 4 || n == 8
  }

  function Tagged<T>(r: Result<T, Exception>, va: u64): Result<T, (Exception, u64)> {
    match r
    case Ok(v) => Ok(v)
    case Err(e) => Err((e, va))
  }

  method LoadVirtual(bus: Bus, c: Context, va: u64, size: nat) returns (r: Result<nat, (Exception, u64)>)
    requires Width(size)
    modifies bus.dram.memory
    ensures var l := LoadVa(old(bus.Contents()), c, va, size);
      r == Tagged(l.result, va) && bus.Contents() == l.mem
  {
    var pageOffset := va % 0x1000;
    if pageOffset + size <= 0x1000 {
      var pa := TranslateAddress(bus, va, Load, c.mode, c.satp, c.mstatus);
      if pa.Err? {
        return Err((pa.error, va));
      }
      r := ReadSized(bus, va, pa.value, size);
    } else {
      r := LoadByteByByte(bus, c, va, size);
    }
  }

  method ReadSized(bus: Bus, va: u64, pa: u64, size: nat) returns (r: Result<nat, (Exception, u64)>)
    requires Width(size)
    ensures r == match ReadAt(bus.Contents(), pa, size) case None => Err((LoadAccessFault, va)) case Some(v) => Ok(v)
  {
    var value: Option<nat>;
    if size == 1 {
      value := bus.Read8(pa);
    } else if size == 2 {
      value := bus.Read16(pa);
    } else if size == 4 {
      value := bus.Read32(pa);
    } else {
      value := bus.Read64(pa);
    }
    if value.None? {
      return Err((LoadAccessFault, va));
    }
    return Ok(value.value);
  }

  /** A value moved up by whole bytes. */
  function ShiftLeft(v: nat, bytes: nat): nat {
    v * Pow256(bytes)
  }

  lemma WrapNext(va: u64, i: nat)
    ensures WrappingAdd(WrappingAdd(va, i), 1) == WrappingAdd(va, i + 1)
  {
  }

  /** What the whole load gives once its first `i` bytes, worth `acc`, are in. */
  function Resume(l: Loaded, acc: nat, i: nat): Loaded {
    match l.result
    case Err(e) => l
    case Ok(v) => Loaded(Ok(acc + ShiftLeft(v, i)), l.mem)
  }

  lemma ShiftSplit(b: nat, v: nat, i: nat)
    ensures ShiftLeft(b + 0x100 * v, i) == ShiftLeft(b, i) + ShiftLeft(v, i + 1)
  {
    var s := Pow256(i);
    assert (b + 0x100 * v) * s == b * s + v * (0x100 * s);
  }

  lemma ShiftEnds(v: nat, i: nat)
    ensures ShiftLeft(v, 0) == v && ShiftLeft(0, i) == 0
  {
  }

  /** One byte of the byte path, then the rest. */
  lemma LoadBytesStep(p: Phys, c: Context, va: u64, n: nat, acc: nat, i: nat)
    requires n > 0
    ensures var t := Perform(p, Ask(c, va, Load));
      var whole := Resume(LoadBytes(p, c, va, n), acc, i);
      if t.result.Err? then whole == Loaded(Err(t.result.error), t.mem)
      else
        match ReadAt(t.mem, t.result.value, 1)
        case None => whole == Loaded(Err(LoadAccessFault), t.mem)
        case Some(b) => whole == Resume(LoadBytes(t.mem, c, WrappingAdd(va, 1), n - 1), acc + ShiftLeft(b, i), i + 1)
  {
    hide Translate, ReadAt, ShiftLeft, WrappingAdd;
    var t := Perform(p, Ask(c, va, Load));
    if t.result.Ok? && ReadAt(t.mem, t.result.value, 1).Some? {
      var rest := LoadBytes(t.mem, c, WrappingAdd(va, 1), n - 1);
      if rest.result.Ok? {
        ShiftSplit(ReadAt(t.mem, t.result.value, 1).value, rest.result.value, i);
      }
    }
  }

  method LoadByteByByte(bus: Bus, c: Context, va: u64, size: nat) returns (r: Result<nat, (Exception, u64)>)
    modifies bus.dram.memory
    ensures var l := LoadBytes(old(bus.Contents()), c, va, size);
      r == Tagged(l.result, va) && bus.Contents() == l.mem
  {
    hide Translate, ReadAt, ShiftLeft, LoadBytes, WrappingAdd;
    ghost var whole := LoadBytes(bus.Contents(), c, va, size);
    ResumeEnds(bus.Contents(), c, va, size);
    var result: nat := 0;
    for i := 0 to size
      invariant whole == Resume(LoadBytes(bus.Contents(), c, WrappingAdd(va, i), size - i), result, i)
    {
      var byteVa := WrappingAdd(va, i);
      WrapNext(va, i);
      LoadBytesStep(bus.Contents(), c, byteVa, size - i, result, i);
      var pa := TranslateAddress(bus, byteVa, Load, c.mode, c.satp, c.mstatus);
      if pa.Err? {
        return Err((pa.error, va));
      }
      var byte := bus.Read8(pa.value);
      if byte.None? {
        return Err((LoadAccessFault, va));
      }
      result := result + ShiftLeft(byte.value, i);
    }
    ResumeEnds(bus.Contents(), c, WrappingAdd(va, size), 0);
    ShiftEnds(0, size);
    return Ok(result);
  }

  lemma ResumeEnds(p: Phys, c: Context, va: u64, n: nat)
    ensures WrappingAdd(va, 0) == va
    ensures Resume(LoadBytes(p, c, va, n), 0, 0) == LoadBytes(p, c, va, n)
    ensures LoadBytes(p, c, va, 0) == Loaded(Ok(0), p)
  {
  }

  method StoreVirtual(bus: Bus, c: Context, va: u64, value: u64, size: nat) returns (r: Result<(), (Exception, u64)>)
    requires Width(size)
    modifies bus.dram.memory
    ensures var s := StoreVa(old(bus.Contents()), c, va, value, size);
      r == Tagged(s.result, va) && bus.Contents() == s.mem
  {
    var pageOffset := va % 0x1000;
    if pageOffset + size <= 0x1000 {
      var pa := TranslateAddress(bus, va, Store, c.mode, c.satp, c.mstatus);
      if pa.Err? {
        return Err((pa.error, va));
      }
      r := WriteSized(bus, va, pa.value, value, size);
    } else {
      r := StoreByteByByte(bus, c, va, value, size);
    }
  }

  method WriteSized(bus: Bus, va: u64, pa: u64, value: u64, size: nat) returns (r: Result<(), (Exception, u64)>)
    requires Width(size)
    modifies bus.dram.memory
    ensures var w := WriteAt(old(bus.Contents()), pa, size, value);
      && r == (if w.None? then Err((StoreAMOAccessFault, va)) else Ok(()))
      && bus.Contents() == if w.None? then old(bus.Contents()) else w.value
  {
    var ok;
    TruncatedWrite(bus.Contents(), pa, value, size);
    if size == 1 {
      ok := bus.Write8(pa, value % 0x100);
    } else if size == 2 {
      ok := bus.Write16(pa, value % 0x1_0000);
    } else if size == 4 {
      ok := bus.Write32(pa, value % 0x1_0000_0000);
    } else {
      ok := bus.Write64(pa, value);
    }
    if !ok {
      return Err((StoreAMOAccessFault, va));
    }
    return Ok(());
  }

  /** Casting the value to the access width first makes no difference to the bytes written. */
  lemma TruncatedWrite(p: Phys, pa: int, value: u64, n: nat)
    requires Width(n)
    ensures WriteAt(p, pa, n, value) == WriteAt(p, pa, n, value % Pow256(n))
    ensures Pow256(1) == 0x100 && Pow256(2) == 0x1_0000 && Pow256(4) == 0x1_0000_0000
  {
    ToBytesMod(value, n);
    hide ToBytes;
  }

  method StoreByteByByte(bus: Bus, c: Context, va: u64, value: u64, size: nat) returns (r: Result<(), (Exception, u64)>)
    modifies bus.dram.memory
    ensures var s := StoreBytes(old(bus.Contents()), c, va, value, size);
      r == Tagged(s.result, va) && bus.Contents() == s.mem
  {
    hide Translate, WrappingAdd;
    ResumeEnds(bus.Contents(), c, va, 0);
    ghost var whole := StoreBytes(bus.Contents(), c, va, value, size);
    var rest: u64 := value;
    for i := 0 to size
      invariant whole == StoreBytes(bus.Contents(), c, WrappingAdd(va, i), rest, size - i)
    {
      var byteVa := WrappingAdd(va, i);
      WrapNext(va, i);
      var byte := rest % 0x100;
      var pa := TranslateAddress(bus, byteVa, Store, c.mode, c.satp, c.mstatus);
      if pa.Err? {
        return Err((pa.error, va));
      }
      var ok := bus.Write8(pa.value, byte);
      if !ok {
        return Err((StoreAMOAccessFault, va));
      }
      rest := rest / 0x100;
    }
    return Ok(());
  }
}
