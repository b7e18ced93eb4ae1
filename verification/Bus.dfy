/** The address decoder in front of the boot ROM and DRAM. */
module BusRouting {
  import opened Words
  import opened Memory

  /** The timer and software-interrupt registers. */
  datatype Clint = Clint(mtime: bv64, mtimecmp: bv64, stimecmp: bv64, msip: bv64)

  function WrappingSum(x: bv64, y: bv64): bv64 { x + y }

  predicate TimerDue(mtime: bv64, mtimecmp: bv64) {
    mtime >= mtimecmp
  }

  /** The comparator is off while it holds its reset value. */
  predicate STimerDue(mtime: bv64, stimecmp: bv64) {
    stimecmp != 0xFFFF_FFFF_FFFF_FFFF && mtime >= stimecmp
  }

  predicate SoftwareDue(msip: bv64) {
    msip & 1 != 0
  }

  class Bus {
    const rom: seq<u8>
    const dram: Dram
    var mtime: bv64
    var mtimecmp: bv64
    var stimecmp: bv64
    var msip: bv64

    constructor (rom: seq<u8>, dram: Dram)
      ensures this.rom == rom && this.dram == dram
      ensures Timers() == Clint(0, 10000, 0xFFFF_FFFF_FFFF_FFFF, 0)
    {
      this.rom := rom;
      this.dram := dram;
      mtime := 0;
      mtimecmp := 10000;
      stimecmp := 0xFFFF_FFFF_FFFF_FFFF;
      msip := 0;
    }

    function Timers(): Clint
      reads this
    {
      Clint(mtime, mtimecmp, stimecmp, msip)
    }

    method TickTimerBy(delta: bv64)
      modifies this
      ensures Timers() == old(Timers()).(mtime := WrappingSum(old(mtime), delta))
    {
      mtime := WrappingSum(mtime, delta);
    }

    function HasTimerInterrupt(): bool
      reads this
    {
      TimerDue(mtime, mtimecmp)
    }

    function HasSTimerInterrupt(): bool
      reads this
    {
      STimerDue(mtime, stimecmp)
    }

    function HasSoftwareInterrupt(): bool
      reads this
    {
      SoftwareDue(msip)
    }

    ghost function Contents(): (p: Phys)
      reads dram.memory
    {
      Phys(rom, dram.memory[..])
    }

    method Read64(addr: u64) returns (r: Option<u64>)
      ensures r == ReadAt(Contents(), addr, 8)
    {
      if MROM_BASE <= addr < MROM_END {
        r := RomRead(addr - MROM_BASE, 8);
      } else if DRAM_BASE <= addr < DRAM_BASE + DRAM_SIZE {
        r := dram.Read64(addr - DRAM_BASE);
      } else {
        r := None;
      }
    }

    method Read32(addr: u64) returns (r: Option<u32>)
      ensures r == ReadAt(Contents(), addr, 4)
    {
      if MROM_BASE <= addr < MROM_END {
        r := RomRead(addr - MROM_BASE, 4);
      } else if DRAM_BASE <= addr < DRAM_BASE + DRAM_SIZE {
        r := dram.Read32(addr - DRAM_BASE);
      } else {
        r := None;
      }
    }

    method Read16(addr: u64) returns (r: Option<u16>)
      ensures r == ReadAt(Contents(), addr, 2)
    {
      if MROM_BASE <= addr < MROM_END {
        r := RomRead(addr - MROM_BASE, 2);
      } else if DRAM_BASE <= addr < DRAM_BASE + DRAM_SIZE {
        r := dram.Read16(addr - DRAM_BASE);
      } else {
        r := None;
      }
    }

    method Read8(addr: u64) returns (r: Option<u8>)
      ensures r == ReadAt(Contents(), addr, 1)
    {
      if MROM_BASE <= addr < MROM_END {
        r := RomRead(addr - MROM_BASE, 1);
      } else if DRAM_BASE <= addr < DRAM_BASE + DRAM_SIZE {
        r := dram.Read8(addr - DRAM_BASE);
      } else {
        r := None;
      }
    }

    method RomRead(offset: nat, n: nat) returns (r: Option<nat>)
      ensures r == Peek(rom, offset, n)
    {
      if offset + n > |rom| {
        return None;
      }
      return Some(FromBytes(rom[offset..offset + n]));
    }

    method Write64(addr: u64, value: u64) returns (ok: bool)
      modifies dram.memory
      ensures ok <==> Write64At(old(Contents()), addr, value).Some?
      ensures Contents() == if ok then Write64At(old(Contents()), addr, value).value else old(Contents())
    {
      if DRAM_BASE <= addr < DRAM_BASE + DRAM_SIZE {
        ok := dram.Write64(addr - DRAM_BASE, value);
      } else {
        ok := false;
      }
    }

    method Write32(addr: u64, value: u32) returns (ok: bool)
      modifies dram.memory
      ensures ok <==> WriteNarrowAt(old(Contents()), addr, 4, value).Some?
      ensures Contents() == if ok then WriteNarrowAt(old(Contents()), addr, 4, value).value else old(Contents())
    {
      if DRAM_BASE <= addr < DRAM_BASE + DRAM_SIZE {
        ok := dram.Write32(addr - DRAM_BASE, value);
      } else {
        ok := true;
      }
    }

    method Write16(addr: u64, value: u16) returns (ok: bool)
      modifies dram.memory
      ensures ok <==> WriteNarrowAt(old(Contents()), addr, 2, value).Some?
      ensures Contents() == if ok then WriteNarrowAt(old(Contents()), addr, 2, value).value else old(Contents())
    {
      if DRAM_BASE <= addr < DRAM_BASE + DRAM_SIZE {
        ok := dram.Write16(addr - DRAM_BASE, value);
      } else {
        ok := true;
      }
    }

    method Write8(addr: u64, value: u8) returns (ok: bool)
      modifies dram.memory
      ensures ok <==> WriteNarrowAt(old(Contents()), addr, 1, value).Some?
      ensures Contents() == if ok then WriteNarrowAt(old(Contents()), addr, 1, value).value else old(Contents())
    {
      if DRAM_BASE <= addr < DRAM_BASE + DRAM_SIZE {
        ok := dram.Write8(addr - DRAM_BASE, value);
      } else {
        ok := true;
      }
    }
  }
}
