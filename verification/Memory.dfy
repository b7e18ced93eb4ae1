/** Physical memory as the bus routes it: a read-only boot ROM and one DRAM array. */
module Memory {
  import opened Words

  const MROM_BASE := 0x0000_1000
  const MROM_END := 0x0001_0000
  const DRAM_BASE := 0x8000_0000
  const DRAM_SIZE := 0x8000_0000

  /** The bytes of both memories. */
  datatype Phys = Phys(rom: seq<u8>, dram: seq<u8>)

  predicate InRom(a: int) {
    MROM_BASE <= a < MROM_END
  }

  predicate InDram(a: int) {
    DRAM_BASE <= a < DRAM_BASE + DRAM_SIZE
  }

  /** The little-endian number in the `n` bytes at offset `o`, if they exist. */
  function Peek(m: seq<u8>, o: nat, n: nat): (v: Option<nat>)
    ensures v.Some? <==> o + n <= |m|
    ensures v.Some? ==> v.value == FromBytes(m[o..o + n])
  {
    if o + n <= |m| then Some(FromBytes(m[o..o + n])) else None
  }

  /** The bytes `m` with `n` bytes of `v` stored at offset `o`. */
  function Poke(m: seq<u8>, o: nat, n: nat, v: nat): (r: seq<u8>)
    requires o + n <= |m|
    ensures |r| == |m|
    ensures forall i :: 0 <= i < |m| && !(o <= i < o + n) ==> r[i] == m[i]
    ensures r[o..o + n] == ToBytes(v, n)
  {
    m[..o] + ToBytes(v, n) + m[o + n..]
  }

  /** A bus read of `n` bytes. */
  function ReadAt(p: Phys, a: int, n: nat): Option<nat> {
    if InRom(a) then Peek(p.rom, a - MROM_BASE, n)
    else if InDram(a) then Peek(p.dram, a - DRAM_BASE, n)
    else None
  }

  /** A bus write of 8 bytes: refused outside DRAM. */
  function Write64At(p: Phys, a: int, v: nat): Option<Phys> {
    if InDram(a) && a - DRAM_BASE + 8 <= |p.dram|
    then Some(p.(dram := Poke(p.dram, a - DRAM_BASE, 8, v)))
    else None
  }

  /** A bus write of 1, 2 or 4 bytes: accepted and ignored outside DRAM. */
  function WriteNarrowAt(p: Phys, a: int, n: nat, v: nat): Option<Phys> {
    if !InDram(a) then Some(p)
    else if a - DRAM_BASE + n <= |p.dram|
    then Some(p.(dram := Poke(p.dram, a - DRAM_BASE, n, v)))
    else None
  }

  /** A bus write of `n` bytes, by width. */
  function WriteAt(p: Phys, a: int, n: nat, v: nat): Option<Phys> {
    if n == 8 then Write64At(p, a, v) else WriteNarrowAt(p, a, n, v)
  }

  /** What was stored is what is read back, modulo its width. */
  lemma PeekPoke(m: seq<u8>, o: nat, n: nat, v: nat)
    requires o + n <= |m|
    ensures Peek(Poke(m, o, n, v), o, n) == Some(v % Pow256(n))
  {
    FromToBytes(v, n);
  }

  /** A read that misses every written byte is unaffected. */
  lemma PeekFrame(m: seq<u8>, m': seq<u8>, o: nat, n: nat)
    requires |m| == |m'|
    requires o + n <= |m| ==> forall i :: o <= i < o + n ==> m[i] == m'[i]
    ensures Peek(m, o, n) == Peek(m', o, n)
  {
    if o + n <= |m| {
      assert m[o..o + n] == m'[o..o + n];
    }
  }

  /** The DRAM device: one byte buffer, overwritten in place. */
  class Dram {
    const memory: array<u8>

    constructor (size: nat)
      ensures fresh(memory) && memory.Length == size
      ensures forall i :: 0 <= i < size ==> memory[i] == 0
    {
      memory := new u8[size](_ => 0);
    }

    method Read64(addr: nat) returns (r: Option<u64>)
      ensures r == Peek(memory[..], addr, 8)
    {
      if addr + 8 > memory.Length {
        return None;
      }
      var v := ReadBytes(addr, 8);
      return Some(v);
    }

    method Read32(addr: nat) returns (r: Option<u32>)
      ensures r == Peek(memory[..], addr, 4)
    {
      if addr + 4 > memory.Length {
        return None;
      }
      var v := ReadBytes(addr, 4);
      return Some(v);
    }

    method Read16(addr: nat) returns (r: Option<u16>)
      ensures r == Peek(memory[..], addr, 2)
    {
      if addr + 2 > memory.Length {
        return None;
      }
      var v := ReadBytes(addr, 2);
      return Some(v);
    }

    method Read8(addr: nat) returns (r: Option<u8>)
      ensures r == Peek(memory[..], addr, 1)
    {
      if addr >= memory.Length {
        return None;
      }
      var v := ReadBytes(addr, 1);
      return Some(v);
    }

    /** The little-endian decoding of a slice, from the most significant byte down. */
    method ReadBytes(addr: nat, n: nat) returns (v: nat)
      requires addr + n <= memory.Length
      ensures v == FromBytes(memory[addr..addr + n])
    {
      v := 0;
      var i := n;
      while i > 0
        invariant 0 <= i <= n
        invariant v == FromBytes(memory[addr + i..addr + n])
      {
        i := i - 1;
        v := memory[addr + i] + 0x100 * v;
        assert memory[addr + i..addr + n][1..] == memory[addr + i + 1..addr + n];
      }
    }

    method Write64(addr: nat, value: u64) returns (ok: bool)
      modifies memory
      ensures ok <==> addr + 8 <= memory.Length
      ensures memory[..] == if ok then Poke(old(memory[..]), addr, 8, value) else old(memory[..])
    {
      if addr + 8 > memory.Length {
        return false;
      }
      WriteBytes(addr, 8, value);
      return true;
    }

    method Write32(addr: nat, value: u32) returns (ok: bool)
      modifies memory
      ensures ok <==> addr + 4 <= memory.Length
      ensures memory[..] == if ok then Poke(old(memory[..]), addr, 4, value) else old(memory[..])
    {
      if addr + 4 > memory.Length {
        return false;
      }
      WriteBytes(addr, 4, value);
      return true;
    }

    method Write16(addr: nat, value: u16) returns (ok: bool)
      modifies memory
      ensures ok <==> addr + 2 <= memory.Length
      ensures memory[..] == if ok then Poke(old(memory[..]), addr, 2, value) else old(memory[..])
    {
      if addr + 2 > memory.Length {
        return false;
      }
      WriteBytes(addr, 2, value);
      return true;
    }

    method Write8(addr: nat, value: u8) returns (ok: bool)
      modifies memory
      ensures ok <==> addr + 1 <= memory.Length
      ensures memory[..] == if ok then Poke(old(memory[..]), addr, 1, value) else old(memory[..])
    {
      if addr >= memory.Length {
        return false;
      }
      WriteBytes(addr, 1, value);
      return true;
    }

    method WriteBytes(addr: nat, n: nat, value: nat)
      requires addr + n <= memory.Length
      modifies memory
      ensures memory[..] == Poke(old(memory[..]), addr, n, value)
    {
      ghost var was := memory[..];
      var rest := value;
      for i := 0 to n
        invariant rest >= 0 && ToBytes(value, n)[i..] == ToBytes(rest, n - i)
        invariant memory[..] == was[..addr] + ToBytes(value, n)[..i] + was[addr + i..]
      {
        assert ToBytes(value, n)[i] == ToBytes(value, n)[i..][0];
        assert ToBytes(value, n)[i + 1..] == ToBytes(value, n)[i..][1..];
        memory[addr + i] := rest % 0x100;
        rest := rest / 0x100;
      }
    }
  }
}
