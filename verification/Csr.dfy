/** The control and status register file: aliased views, masked and forced bits. */
module CsrFile {

  type CsrAddr = a: int | 0 <= a < 0x1000

  const FFLAGS: CsrAddr := 0x001
  const FRM: CsrAddr := 0x002
  const FCSR: CsrAddr := 0x003
  const SSTATUS: CsrAddr := 0x100
  const SIE: CsrAddr := 0x104
  const STVEC: CsrAddr := 0x105
  const SENVCFG: CsrAddr := 0x10A
  const SSCRATCH: CsrAddr := 0x140
  const SEPC: CsrAddr := 0x141
  const SCAUSE: CsrAddr := 0x142
  const STVAL: CsrAddr := 0x143
  const SIP: CsrAddr := 0x144
  const STIMECMP: CsrAddr := 0x14D
  const SATP: CsrAddr := 0x180
  const VSSTATUS: CsrAddr := 0x200
  const MSTATUS: CsrAddr := 0x300
  const MISA: CsrAddr := 0x301
  const MEDELEG: CsrAddr := 0x302
  const MIDELEG: CsrAddr := 0x303
  const MIE: CsrAddr := 0x304
  const MTVEC: CsrAddr := 0x305
  const MENVCFG: CsrAddr := 0x30A
  const MSCRATCH: CsrAddr := 0x340
  const MEPC: CsrAddr := 0x341
  const MCAUSE: CsrAddr := 0x342
  const MTVAL: CsrAddr := 0x343
  const MIP: CsrAddr := 0x344
  const HSTATUS: CsrAddr := 0x600
  const TSELECT: CsrAddr := 0x7A0
  const TINFO: CsrAddr := 0x7A4
  const UNDEFINED: CsrAddr := 0x3C0

  const SSTATUS_MASK: bv64 := 0x8000_0003_000D_E762
  const S_INTERRUPTS: bv64 := 0x222
  const MIDELEG_FORCE: bv64 := 0x1444
  const MIDELEG_WRITABLE: bv64 := 0xFFFF
  const SD_BIT: bv64 := 0x8000_0000_0000_0000
  const NUM_TRIGGERS: bv64 := 2

  type Regs = map<CsrAddr, bv64>

  function Raw(r: Regs, a: CsrAddr): bv64 {
    if a in r then r[a] else 0
  }

  /** The bits of `x` that the mask selects. */
  function Bits(x: bv64, mask: bv64): bv64 {
    x & mask
  }

  /** The floating-point (bits 14:13) or the vector (bits 10:9) state is 3. */
  predicate Dirty(x: bv64) {
    x & 0x6000 == 0x6000 || x & 0x600 == 0x600
  }

  /** SXL and UXL forced to 2, SD cleared. */
  function Forced(raw: bv64): bv64 {
    ((raw & !0xF_0000_0000) | 0xA_0000_0000) & !SD_BIT
  }

  /** The summary bit that goes with a floating-point and vector state. */
  function Summary(raw: bv64): bv64 {
    if Dirty(raw) then SD_BIT else 0
  }

  /** MSTATUS as read: SXL and UXL are 2, SD summarises FS and VS. */
  function MstatusView(raw: bv64): bv64 {
    Forced(raw) | Summary(raw)
  }

  /** A status register whose UXL-like field at bits 33:32 reads as 2. */
  function Xlen64(raw: bv64): bv64 {
    (raw & !0x3_0000_0000) | 0x2_0000_0000
  }

  /** MISA with MXL, bits 63:62, forced to 2. */
  function Mxl64(raw: bv64): bv64 {
    (raw & !0xC000_0000_0000_0000) | 0x8000_0000_0000_0000
  }

  /** The rounding mode field of FCSR. */
  function FrmOf(fcsr: bv64): bv64 {
    (fcsr >> 5) & 0x7
  }

  /** The register whose storage a write to `a` changes. */
  function WriteBacking(a: CsrAddr): CsrAddr {
    if a == SSTATUS then MSTATUS
    else if a == SIE then MIE
    else if a == SIP then MIP
    else if a == FFLAGS || a == FRM then FCSR
    else a
  }

  /** The register whose storage a read of `a` depends on. */
  function ReadBacking(a: CsrAddr): CsrAddr {
    if a == SENVCFG then MENVCFG else WriteBacking(a)
  }

  /** What a read of `a` shows of its storage. */
  function View(a: CsrAddr, raw: bv64): bv64 {
    if a == UNDEFINED then 0
    else if a == TINFO then 0x44
    else if a == MISA then Mxl64(raw)
    else if a == MSTATUS then MstatusView(raw)
    else if a == SSTATUS then Bits(MstatusView(raw), SSTATUS_MASK)
    else if a == SIE || a == SIP then Bits(raw, S_INTERRUPTS)
    else if a == HSTATUS || a == VSSTATUS then Xlen64(raw)
    else if a == FFLAGS then Bits(raw, 0x1F)
    else if a == FRM then FrmOf(raw)
    else raw
  }

  function Read(r: Regs, a: CsrAddr): bv64 {
    View(a, Raw(r, ReadBacking(a)))
  }

  /** The bits of `value` where the mask is set, those of `kept` elsewhere. */
  function Blend(kept: bv64, value: bv64, mask: bv64): bv64 {
    (kept & !mask) | (value & mask)
  }

  /** A status value without its read-only summary bit. */
  function WithoutSd(value: bv64): bv64 {
    value & !SD_BIT
  }

  /** A delegation mask with the bits that cannot be cleared. */
  function Delegable(value: bv64): bv64 {
    (value & MIDELEG_WRITABLE) | MIDELEG_FORCE
  }

  /** A rounding mode moved to bits 7:5. */
  function FrmField(value: bv64): bv64 {
    (value & 0x7) << 5
  }

  /** FCSR with a new rounding mode in bits 7:5. */
  function WithFrm(fcsr: bv64, value: bv64): bv64 {
    (fcsr & !0xE0) | FrmField(value)
  }

  predicate SatpModeOk(satp: bv64) {
    var mode := (satp >> 60) & 0xF;
    mode == 0 || mode == 8 || mode == 9 || mode == 10
  }

  /** A write that is dropped. */
  predicate Ignored(a: CsrAddr, v: bv64) {
    || a == UNDEFINED
    || a == TINFO
    || (a == TSELECT && v >= NUM_TRIGGERS)
    || (a == SATP && !SatpModeOk(v))
  }

  /** What a write of `v` to `a` leaves in its storage, which held `kept`. */
  function Stored(a: CsrAddr, kept: bv64, v: bv64): bv64 {
    if a == MSTATUS then WithoutSd(v)
    else if a == SSTATUS then WithoutSd(Blend(kept, v, SSTATUS_MASK))
    else if a == FFLAGS then Blend(kept, v, 0x1F)
    else if a == FRM then WithFrm(kept, v)
    else if a == SIE || a == MIP then Blend(kept, v, S_INTERRUPTS)
    else if a == SIP then Blend(kept, v, 0x2)
    else if a == MIDELEG then Delegable(v)
    else v
  }

  function Write(r: Regs, a: CsrAddr, v: bv64): Regs {
    if Ignored(a, v) then r else r[WriteBacking(a) := Stored(a, Raw(r, WriteBacking(a)), v)]
  }

  /** One access to the register file. */
  datatype Op =
    | Store(addr: CsrAddr, value: bv64)
    | Swap(addr: CsrAddr, value: bv64)
    | SetBits(addr: CsrAddr, mask: bv64)
    | ClearBits(addr: CsrAddr, mask: bv64)

  function SetIn(x: bv64, mask: bv64): bv64 { x | mask }

  function ClearIn(x: bv64, mask: bv64): bv64 { x & !mask }

  /** The register file after an access; a set or clear with an empty mask does not write. */
  function Apply(r: Regs, op: Op): Regs {
    match op
    case Store(a, v) => Write(r, a, v)
    case Swap(a, v) => Write(r, a, v)
    case SetBits(a, m) => if m != 0 then Write(r, a, SetIn(Read(r, a), m)) else r
    case ClearBits(a, m) => if m != 0 then Write(r, a, ClearIn(Read(r, a), m)) else r
  }

  function ApplyAll(r: Regs, ops: seq<Op>): Regs
    decreases |ops|
  {
    if ops == [] then r else ApplyAll(Apply(r, ops[0]), ops[1..])
  }

  /** The register file object. */
  class Csr {
    var regs: Regs

    constructor ()
      ensures regs == ApplyAll(map[], ResetWrites())
    {
      hide Write, ResetWrites;
      regs := map[];
      new;
      var writes := ResetWrites();
      for i := 0 to |writes|
        invariant ApplyAll(map[], writes) == ApplyAll(regs, writes[i..])
      {
        assert writes[i..][0] == writes[i] && writes[i..][1..] == writes[i + 1..];
        WriteReg(writes[i].addr, writes[i].value);
      }
    }

    function ReadReg(a: CsrAddr): bv64
      reads this
    {
      Read(regs, a)
    }

    method WriteReg(a: CsrAddr, value: bv64)
      modifies this
      ensures regs == Write(old(regs), a, value)
    {
      hide Blend, MstatusView, Xlen64, SatpModeOk, Raw, WithoutSd, Delegable, WithFrm;
      if a == UNDEFINED || a == TINFO {
      } else if a == MSTATUS {
        regs := regs[MSTATUS := WithoutSd(value)];
      } else if a == SSTATUS {
        var newMstatus := Blend(Raw(regs, MSTATUS), value, SSTATUS_MASK);
        regs := regs[MSTATUS := WithoutSd(newMstatus)];
      } else if a == FFLAGS {
        regs := regs[FCSR := Blend(Raw(regs, FCSR), value, 0x1F)];
      } else if a == FRM {
        regs := regs[FCSR := WithFrm(Raw(regs, FCSR), value)];
      } else if a == SIE {
        regs := regs[MIE := Blend(Raw(regs, MIE), value, S_INTERRUPTS)];
      } else if a == SIP {
        regs := regs[MIP := Blend(Raw(regs, MIP), value, 0x2)];
      } else if a == TSELECT {
        if value < NUM_TRIGGERS {
          regs := regs[TSELECT := value];
        }
      } else if a == MIDELEG {
        regs := regs[MIDELEG := Delegable(value)];
      } else if a == MIP {
        regs := regs[MIP := Blend(ReadReg(MIP), value, S_INTERRUPTS)];
      } else if a == SATP {
        if SatpModeOk(value) {
          regs := regs[SATP := value];
        }
      } else {
        regs := regs[a := value];
      }
    }

    method Csrrw(a: CsrAddr, value: bv64) returns (was: bv64)
      modifies this
      ensures was == Read(old(regs), a) && regs == Apply(old(regs), Swap(a, value))
    {
      was := ReadReg(a);
      WriteReg(a, value);
    }

    method Csrrs(a: CsrAddr, mask: bv64) returns (was: bv64)
      modifies this
      ensures was == Read(old(regs), a) && regs == Apply(old(regs), SetBits(a, mask))
    {
      hide Write, Read, SetIn, ClearIn;
      was := ReadReg(a);
      if mask != 0 {
        WriteReg(a, SetIn(was, mask));
      }
    }

    method Csrrc(a: CsrAddr, mask: bv64) returns (was: bv64)
      modifies this
      ensures was == Read(old(regs), a) && regs == Apply(old(regs), ClearBits(a, mask))
    {
      hide Write, Read, SetIn, ClearIn;
      was := ReadReg(a);
      if mask != 0 {
        WriteReg(a, ClearIn(was, mask));
      }
    }
  }

  function ResetSupervisor(): (ws: seq<Op>)
    ensures forall i :: 0 <= i < |ws| ==> ws[i].Store?
  {
    [Store(MSTATUS, 0xa_0000_0000), Store(MISA, 0x8000_0000_0014_11ad), Store(MENVCFG, 0xA000_0000_0000_0000),
        Store(0x320, 0)]
    + seq(16, i requires 0 <= i < 16 => Store(0x323 + i, 0))
    + [Store(MEDELEG, 0xf4_b509), Store(MIDELEG, 0x1666), Store(MIE, 0), Store(MTVEC, 0), Store(MEPC, 0),
       Store(MCAUSE, 0), Store(MTVAL, 0), Store(MIP, 0x80), Store(MSCRATCH, 0), Store(SSTATUS, 0), Store(SIE, 0),
       Store(STVEC, 0), Store(SEPC, 0), Store(SCAUSE, 0), Store(STVAL, 0), Store(SIP, 0), Store(SSCRATCH, 0)]
  }

  function ResetRest(): (ws: seq<Op>)
    ensures forall i :: 0 <= i < |ws| ==> ws[i].Store? && ws[i].addr != STIMECMP
  {
    [Store(SATP, 0),
     Store(HSTATUS, 0x2_0000_0000), Store(0x602, 0), Store(0x603, 0), Store(0x643, 0), Store(0x64A, 0),
     Store(VSSTATUS, 0xa_0000_0000), Store(0x204, 0), Store(0x205, 0), Store(0x241, 0), Store(0x242, 0),
     Store(0x243, 0), Store(0x244, 0), Store(0x240, 0), Store(0x280, 0),
     Store(TSELECT, 0), Store(0x7A1, 0), Store(0x7A2, 0), Store(0x7A3, 0), Store(FCSR, 0), Store(0xF14, 0)]
  }

  /** The writes of the reset routine, in order. */
  function ResetWrites(): (ws: seq<Op>)
    ensures forall i :: 0 <= i < |ws| ==> ws[i].Store?
  {
    ResetSupervisor() + [Store(STIMECMP, 0xFFFF_FFFF_FFFF_FFFF)] + ResetRest()
  }
}
