/** The processor state as a value, and the elementary changes that instructions are made of. */
module HartState {
  import opened Words
  import opened Memory
  import opened CsrFile
  import opened BusRouting
  import PT = PageTable
  import PL = PagingLaws
  import VA = VirtualAccess

  type RegFile = s: seq<bv64> | |s| == 32 witness seq(32, _ => 0)

  datatype Interrupt =
    | SupervisorSoftware
    | MachineSoftware
    | SupervisorTimer
    | MachineTimer
    | SupervisorExternal
    | MachineExternal

  datatype Trap = Exc(exception: PT.Exception) | Intr(interrupt: Interrupt)

  datatype Hart = Hart(
    pc: bv64, regs: RegFile, fregs: RegFile, csr: Regs, mode: PT.Mode,
    reservation: Option<u64>, mem: Phys, clint: Clint)

  /** What one instruction does: go on, or raise a trap in the state it has reached. */
  datatype Outcome = Next(hart: Hart) | Raise(hart: Hart, trap: Trap, tval: bv64)

  // ----- Words as bit vectors and as numbers -----

  function Num(x: bv64): u64 {
    x as int
  }

  function Wide(v: nat): bv64 {
    (v % TWO_64) as bv64
  }

  function Index(r: bv5): (i: nat)
    ensures i < 32
  {
    r as int
  }

  /** Addition of machine words, modulo 2^64. */
  function Plus(x: bv64, y: bv64): bv64 {
    WrappingSum(x, y)
  }

  function Signed8(x: bv64): bv64 {
    if x & 0x80 != 0 then x | 0xFFFF_FFFF_FFFF_FF00 else x & 0xFF
  }

  function Signed16(x: bv64): bv64 {
    if x & 0x8000 != 0 then x | 0xFFFF_FFFF_FFFF_0000 else x & 0xFFFF
  }

  function Signed32(x: bv64): bv64 {
    if x & 0x8000_0000 != 0 then x | 0xFFFF_FFFF_0000_0000 else x & 0xFFFF_FFFF
  }

  // ----- Registers -----

  /** Register x0 reads as zero. */
  function X(h: Hart, r: bv5): bv64 {
    if r == 0 then 0 else h.regs[Index(r)]
  }

  /** A write to x0 is dropped. */
  function SetX(h: Hart, r: bv5, v: bv64): Hart {
    if r == 0 then h else h.(regs := h.regs[Index(r) := v])
  }

  function F(h: Hart, r: bv5): bv64 {
    h.fregs[Index(r)]
  }

  function SetF(h: Hart, r: bv5, v: bv64): Hart {
    h.(fregs := h.fregs[Index(r) := v])
  }

  function Goto(h: Hart, pc: bv64): Hart {
    h.(pc := pc)
  }

  // ----- Memory -----

  function Space(h: Hart): VA.Context {
    VA.Context(h.mode, Num(Read(h.csr, SATP)), Num(Read(h.csr, MSTATUS)))
  }

  function LoadFrom(h: Hart, va: bv64, n: nat): VA.Loaded {
    VA.LoadVa(h.mem, Space(h), Num(va), n)
  }

  function StoreTo(h: Hart, va: bv64, v: bv64, n: nat): VA.Stored {
    VA.StoreVa(h.mem, Space(h), Num(va), Num(v), n)
  }

  function Locate(h: Hart, va: bv64, access: PT.AccessType): PT.Translated {
    PL.Perform(h.mem, VA.Ask(Space(h), Num(va), access))
  }

  // ----- Reservations -----

  /** The 8-byte granule of an address. */
  function Granule(pa: u64): u64 {
    pa - pa % 8
  }

  function Reserve(h: Hart, pa: u64): Hart {
    h.(reservation := Some(Granule(pa)))
  }

  function ClearReservation(h: Hart): Hart {
    h.(reservation := None)
  }

  predicate Reserved(h: Hart, pa: u64) {
    h.reservation == Some(Granule(pa))
  }

  // ----- Floating-point state -----

  /** MSTATUS with the floating-point state marked dirty. */
  function DirtyFs(mstatus: bv64): bv64 {
    (mstatus & !0x6000) | 0x6000
  }

  function MarkDirty(h: Hart): Hart {
    h.(csr := Write(h.csr, MSTATUS, DirtyFs(Read(h.csr, MSTATUS))))
  }
}
