/** The register file as its users see it: what every register shows after a write to any, in numerals. */
module CsrMeaning {
  import opened CsrFile
  import opened CsrLaws
  import WB = WordBits
  import WN = WordNumbers

  // ----- The table -----

  /** The bits of `v` under the mask and those of `was` elsewhere. */
  function Mixed(was: bv64, v: bv64, mask: bv64): bv64 { (was & !mask) | (v & mask) }

  /** The bits of `x` under the mask. */
  function Under(x: bv64, mask: bv64): bv64 { x & mask }

  /** A status word as MSTATUS shows it: bits 35 to 32 read 1010, and bit 63 is set exactly when bits 14 and 13 or bits
      10 and 9 are both set. */
  function Status(x: bv64): bv64 { Fixed(x) | Dirtied(x) }

  function Fixed(x: bv64): bv64 { (x & 0x7FFF_FFF0_FFFF_FFFF) | 0xA_0000_0000 }

  function Dirtied(x: bv64): bv64 {
    if x & 0x6000 == 0x6000 || x & 0x600 == 0x600 then 0x8000_0000_0000_0000 else 0
  }

  /** The rounding mode of FCSR, and its place there. */
  function Rounding(x: bv64): bv64 { (x >> 5) & 0x7 }

  function Placed(v: bv64): bv64 { v << 5 }

  /** A delegation mask keeps its 16 lowest bits, of which 2, 6, 10 and 12 are always set. */
  function Delegation(v: bv64): bv64 { (v & 0xFFFF) | 0x1444 }

  /** The width field in bits 63 and 62, or 33 and 32, reads 2. */
  function Width64(v: bv64): bv64 { (v & 0x3FFF_FFFF_FFFF_FFFF) | 0x8000_0000_0000_0000 }

  function GuestWidth64(v: bv64): bv64 { (v & 0xFFFF_FFFC_FFFF_FFFF) | 0x2_0000_0000 }

  predicate IsStatus(a: CsrAddr) { a == 0x300 || a == 0x100 }

  predicate IsEnable(a: CsrAddr) { a == 0x304 || a == 0x104 }

  predicate IsPending(a: CsrAddr) { a == 0x344 || a == 0x144 }

  predicate IsFloat(a: CsrAddr) { a == 0x001 || a == 0x002 || a == 0x003 }

  /** Bits 63 to 60 are 0, 8, 9 or 10. */
  predicate Supported(satp: bv64) {
    var m := satp & 0xF000_0000_0000_0000;
    m == 0 || m == 0x8000_0000_0000_0000 || m == 0x9000_0000_0000_0000 || m == 0xA000_0000_0000_0000
  }

  // What a register shows after a write to one that shares its storage, from what the widest of them showed.

  function ShownStatus(was: bv64, a: CsrAddr, v: bv64, b: CsrAddr): bv64 {
    var x := Status(if a == 0x300 then v else Mixed(was, v, 0x8000_0003_000D_E762));
    if b == 0x300 then x else Under(x, 0x8000_0003_000D_E762)
  }

  function ShownEnable(was: bv64, a: CsrAddr, v: bv64, b: CsrAddr): bv64 {
    var x := if a == 0x304 then v else Mixed(was, v, 0x222);
    if b == 0x304 then x else Under(x, 0x222)
  }

  function ShownPending(was: bv64, a: CsrAddr, v: bv64, b: CsrAddr): bv64 {
    var x := Mixed(was, v, if a == 0x344 then 0x222 else 0x2);
    if b == 0x344 then x else Under(x, 0x222)
  }

  function ShownFloat(was: bv64, a: CsrAddr, v: bv64, b: CsrAddr): bv64 {
    var x := if a == 0x003 then v else if a == 0x001 then Mixed(was, v, 0x1F) else Mixed(was, Placed(v), 0xE0);
    if b == 0x003 then x else if b == 0x001 then Under(x, 0x1F) else Rounding(x)
  }

  /** What a register of its own shows after a write to it. */
  function ShownOwn(was: bv64, a: CsrAddr, v: bv64): bv64 {
    if a == 0x303 then Delegation(v)
    else if a == 0x180 then if Supported(v) then v else was
    else if a == 0x7A0 then if v == 0 || v == 1 then v else was
    else if a == 0x301 then Width64(v)
    else if a == 0x600 || a == 0x200 then GuestWidth64(v)
    else if a == 0x10A || a == 0x3C0 || a == 0x7A4 then was
    else v
  }

  /** What register `b` shows after `v` has been written to register `a`. */
  function Shown(r: Regs, a: CsrAddr, v: bv64, b: CsrAddr): bv64 {
    if IsStatus(a) && IsStatus(b) then ShownStatus(Read(r, 0x300), a, v, b)
    else if IsEnable(a) && IsEnable(b) then ShownEnable(Read(r, 0x304), a, v, b)
    else if IsPending(a) && IsPending(b) then ShownPending(Read(r, 0x344), a, v, b)
    else if IsFloat(a) && IsFloat(b) then ShownFloat(Read(r, 0x003), a, v, b)
    else if a == b then ShownOwn(Read(r, a), a, v)
    else if a == 0x30A && b == 0x10A then v
    else Read(r, b)
  }

  // ----- Status words -----

  lemma FixedIs(x: bv64)
    ensures Forced(WithoutSd(x)) == Fixed(x)
  {
  }

  lemma DirtiedIs(x: bv64)
    ensures Summary(WithoutSd(x)) == Dirtied(x)
  {
  }

  lemma ForcedIs(x: bv64)
    ensures MstatusView(WithoutSd(x)) == Status(x)
  {
    hide Forced, WithoutSd, Summary, Fixed, Dirtied;
    FixedIs(x);
    DirtiedIs(x);
  }

  lemma UnderIs(x: bv64, mask: bv64)
    ensures Bits(x, mask) == Under(x, mask)
  {
  }

  lemma MixedStatus(raw: bv64, v: bv64)
    ensures MstatusView(WithoutSd(Blend(raw, v, SSTATUS_MASK)))
            == Status(Mixed(MstatusView(raw), v, 0x8000_0003_000D_E762))
  {
    hide MstatusView, WithoutSd, Blend, Status, Mixed;
    ForcedIs(Blend(raw, v, SSTATUS_MASK));
    SameOutside(raw);
    BlendedAlike(raw, MstatusView(raw), v);
  }

  /** The view differs from the storage only where it is forced. */
  predicate Alike(x: bv64, y: bv64) { Under(x, 0x7FFF_FFF0_FFFF_FFFF) == Under(y, 0x7FFF_FFF0_FFFF_FFFF) }

  lemma SameOutside(raw: bv64)
    ensures Alike(raw, MstatusView(raw))
  {
  }

  lemma BlendIsMixed(x: bv64, v: bv64, mask: bv64)
    ensures Blend(x, v, mask) == Mixed(x, v, mask)
  {
  }

  lemma UnderMeets(x: bv64, mask: bv64)
    ensures Under(x, mask) == WB.Meet(x, mask)
  {
  }

  lemma MixedBit(x: bv64, v: bv64, mask: bv64, k: nat)
    requires k < 64
    ensures WB.BitAt(Mixed(x, v, mask), k) <==> if WB.BitAt(mask, k) then WB.BitAt(v, k) else WB.BitAt(x, k)
  {
    hide WB.BitAt, Mixed, WB.Meet, WB.Join, WN.Complement;
    MixedParts(x, v, mask);
    WB.BitwiseBits(WB.Meet(x, WN.Complement(mask)), WB.Meet(v, mask), k);
    WB.BitwiseBits(x, WN.Complement(mask), k);
    WB.BitwiseBits(v, mask, k);
    WB.ComplementBits(mask, k);
  }

  lemma MixedParts(x: bv64, v: bv64, mask: bv64)
    ensures Mixed(x, v, mask) == WB.Join(WB.Meet(x, WN.Complement(mask)), WB.Meet(v, mask))
  {
    assert WN.Complement(mask) == !mask;
    hide WN.Complement;
    assert WB.Meet(x, !mask) == x & !mask && WB.Meet(v, mask) == v & mask;
    hide WB.Meet;
  }

  lemma AlikeBits(x: bv64, y: bv64, k: nat)
    requires Alike(x, y) && WB.BitAt(0x7FFF_FFF0_FFFF_FFFF, k)
    ensures WB.BitAt(x, k) <==> WB.BitAt(y, k)
  {
    UnderMeets(x, 0x7FFF_FFF0_FFFF_FFFF);
    UnderMeets(y, 0x7FFF_FFF0_FFFF_FFFF);
    hide WB.BitAt, Under, WB.Meet;
    WB.BitwiseBits(x, 0x7FFF_FFF0_FFFF_FFFF, k);
    WB.BitwiseBits(y, 0x7FFF_FFF0_FFFF_FFFF, k);
  }

  lemma MixedAlike(x: bv64, y: bv64, v: bv64)
    requires Alike(x, y)
    ensures Alike(Mixed(x, v, 0x8000_0003_000D_E762), Mixed(y, v, 0x8000_0003_000D_E762))
  {
    hide WB.BitAt, Under, Mixed, WB.Meet;
    var m, n := Mixed(x, v, 0x8000_0003_000D_E762), Mixed(y, v, 0x8000_0003_000D_E762);
    UnderMeets(m, 0x7FFF_FFF0_FFFF_FFFF);
    UnderMeets(n, 0x7FFF_FFF0_FFFF_FFFF);
    forall k: nat | k < 64
      ensures WB.BitAt(WB.Meet(m, 0x7FFF_FFF0_FFFF_FFFF), k) <==> WB.BitAt(WB.Meet(n, 0x7FFF_FFF0_FFFF_FFFF), k)
    {
      WB.BitwiseBits(m, 0x7FFF_FFF0_FFFF_FFFF, k);
      WB.BitwiseBits(n, 0x7FFF_FFF0_FFFF_FFFF, k);
      MixedBit(x, v, 0x8000_0003_000D_E762, k);
      MixedBit(y, v, 0x8000_0003_000D_E762, k);
      if WB.BitAt(0x7FFF_FFF0_FFFF_FFFF, k) {
        AlikeBits(x, y, k);
      }
    }
    WB.SameBits(WB.Meet(m, 0x7FFF_FFF0_FFFF_FFFF), WB.Meet(n, 0x7FFF_FFF0_FFFF_FFFF));
  }

  lemma FixedUnder(x: bv64)
    ensures Fixed(x) == Fixed(Under(x, 0x7FFF_FFF0_FFFF_FFFF))
  {
  }

  lemma DirtiedUnder(x: bv64)
    ensures Dirtied(x) == Dirtied(Under(x, 0x7FFF_FFF0_FFFF_FFFF))
  {
  }

  lemma StatusUnder(x: bv64)
    ensures Status(x) == Status(Under(x, 0x7FFF_FFF0_FFFF_FFFF))
  {
    hide Fixed, Dirtied, Under;
    FixedUnder(x);
    DirtiedUnder(x);
  }

  lemma StatusAlike(x: bv64, y: bv64)
    requires Alike(x, y)
    ensures Status(x) == Status(y)
  {
    hide Status, Under;
    StatusUnder(x);
    StatusUnder(y);
  }

  lemma BlendedAlike(x: bv64, y: bv64, v: bv64)
    requires Alike(x, y)
    ensures Status(Blend(x, v, SSTATUS_MASK)) == Status(Mixed(y, v, 0x8000_0003_000D_E762))
  {
    hide Status, Blend, Mixed, Alike;
    BlendIsMixed(x, v, SSTATUS_MASK);
    MixedAlike(x, y, v);
    StatusAlike(Mixed(x, v, 0x8000_0003_000D_E762), Mixed(y, v, 0x8000_0003_000D_E762));
  }

  lemma StatusView(kept: bv64, a: CsrAddr, v: bv64, b: CsrAddr)
    requires IsStatus(a) && IsStatus(b)
    ensures View(b, Stored(a, kept, v)) == ShownStatus(MstatusView(kept), a, v, b)
  {
    hide Status, Mixed, Blend, WithoutSd, MstatusView, Bits, Under;
    ForcedIs(v);
    MixedStatus(kept, v);
    UnderIs(MstatusView(Stored(a, kept, v)), 0x8000_0003_000D_E762);
  }

  lemma StatusShown(r: Regs, a: CsrAddr, v: bv64, b: CsrAddr)
    requires IsStatus(a) && IsStatus(b)
    ensures Read(Write(r, a, v), b) == ShownStatus(Read(r, 0x300), a, v, b)
  {
    ReadBack(r, a, v, b);
    assert Read(r, 0x300) == MstatusView(Raw(r, MSTATUS));
    hide Read, Write, View, Stored, ShownStatus, MstatusView;
    StatusView(Raw(r, MSTATUS), a, v, b);
  }

  // ----- The other shared registers -----

  lemma Views(raw: bv64)
    ensures View(0x304, raw) == raw && View(0x344, raw) == raw && View(0x003, raw) == raw
    ensures View(0x104, raw) == Bits(raw, 0x222) && View(0x144, raw) == Bits(raw, 0x222)
    ensures View(0x001, raw) == Bits(raw, 0x1F) && View(0x002, raw) == FrmOf(raw)
  {
    hide Bits, FrmOf, MstatusView, Mxl64, Xlen64;
  }

  lemma Stores(kept: bv64, v: bv64)
    ensures Stored(0x304, kept, v) == v && Stored(0x003, kept, v) == v
    ensures Stored(0x104, kept, v) == Blend(kept, v, 0x222) && Stored(0x344, kept, v) == Blend(kept, v, 0x222)
    ensures Stored(0x144, kept, v) == Blend(kept, v, 0x2)
    ensures Stored(0x001, kept, v) == Blend(kept, v, 0x1F) && Stored(0x002, kept, v) == WithFrm(kept, v)
  {
    hide Blend, WithFrm, WithoutSd, Delegable;
  }

  lemma EnableView(kept: bv64, a: CsrAddr, v: bv64, b: CsrAddr)
    requires IsEnable(a) && IsEnable(b)
    ensures View(b, Stored(a, kept, v)) == ShownEnable(kept, a, v, b)
  {
    hide Mixed, Blend, Bits, Under, View, Stored;
    Stores(kept, v);
    BlendIsMixed(kept, v, 0x222);
    var x := Stored(a, kept, v);
    Views(x);
    UnderIs(x, 0x222);
  }

  lemma EnableShown(r: Regs, a: CsrAddr, v: bv64, b: CsrAddr)
    requires IsEnable(a) && IsEnable(b)
    ensures Read(Write(r, a, v), b) == ShownEnable(Read(r, 0x304), a, v, b)
  {
    ReadBack(r, a, v, b);
    assert Read(r, 0x304) == View(0x304, Raw(r, MIE));
    hide Read, Write, View, Stored, ShownEnable;
    Views(Raw(r, MIE));
    EnableView(Raw(r, MIE), a, v, b);
  }

  lemma PendingView(kept: bv64, a: CsrAddr, v: bv64, b: CsrAddr)
    requires IsPending(a) && IsPending(b)
    ensures View(b, Stored(a, kept, v)) == ShownPending(kept, a, v, b)
  {
    hide Mixed, Blend, Bits, Under, View, Stored;
    Stores(kept, v);
    BlendIsMixed(kept, v, 0x222);
    BlendIsMixed(kept, v, 0x2);
    var x := Stored(a, kept, v);
    Views(x);
    UnderIs(x, 0x222);
  }

  lemma PendingShown(r: Regs, a: CsrAddr, v: bv64, b: CsrAddr)
    requires IsPending(a) && IsPending(b)
    ensures Read(Write(r, a, v), b) == ShownPending(Read(r, 0x344), a, v, b)
  {
    ReadBack(r, a, v, b);
    assert Read(r, 0x344) == View(0x344, Raw(r, MIP));
    hide Read, Write, View, Stored, ShownPending;
    Views(Raw(r, MIP));
    PendingView(Raw(r, MIP), a, v, b);
  }

  lemma RoundingIs(fcsr: bv64)
    ensures FrmOf(fcsr) == Rounding(fcsr)
  {
  }

  lemma PlacedIs(fcsr: bv64, v: bv64)
    ensures WithFrm(fcsr, v) == Mixed(fcsr, Placed(v), 0xE0)
  {
  }

  lemma FloatStored(kept: bv64, a: CsrAddr, v: bv64)
    requires IsFloat(a)
    ensures Stored(a, kept, v) ==
      if a == 0x003 then v else if a == 0x001 then Mixed(kept, v, 0x1F) else Mixed(kept, Placed(v), 0xE0)
  {
    hide Mixed, Blend, WithFrm, Placed, Stored;
    Stores(kept, v);
    BlendIsMixed(kept, v, 0x1F);
    PlacedIs(kept, v);
  }

  lemma FloatView(kept: bv64, a: CsrAddr, v: bv64, b: CsrAddr)
    requires IsFloat(a) && IsFloat(b)
    ensures View(b, Stored(a, kept, v)) == ShownFloat(kept, a, v, b)
  {
    hide Mixed, FrmOf, Rounding, Placed, Bits, Under, View, Stored;
    FloatStored(kept, a, v);
    var x := Stored(a, kept, v);
    Views(x);
    RoundingIs(x);
    UnderIs(x, 0x1F);
  }

  lemma FloatShown(r: Regs, a: CsrAddr, v: bv64, b: CsrAddr)
    requires IsFloat(a) && IsFloat(b)
    ensures Read(Write(r, a, v), b) == ShownFloat(Read(r, 0x003), a, v, b)
  {
    ReadBack(r, a, v, b);
    assert Read(r, 0x003) == View(0x003, Raw(r, FCSR));
    hide Read, Write, View, Stored, ShownFloat;
    Views(Raw(r, FCSR));
    FloatView(Raw(r, FCSR), a, v, b);
  }

  // ----- Registers on their own -----

  lemma SupportedIs(v: bv64)
    ensures SatpModeOk(v) <==> Supported(v)
  {
  }

  lemma SmallTrigger(v: bv64)
    ensures v >= NUM_TRIGGERS <==> v != 0 && v != 1
  {
  }

  lemma WidthIs(v: bv64)
    ensures Mxl64(v) == Width64(v)
  {
  }

  lemma GuestWidthIs(v: bv64)
    ensures Xlen64(v) == GuestWidth64(v)
  {
  }

  lemma DelegationIs(v: bv64)
    ensures Delegable(v) == Delegation(v)
  {
  }

  predicate Plain(a: CsrAddr) {
    a != 0x303 && a != 0x180 && a != 0x7A0 && a != 0x301 && a != 0x600 && a != 0x200 && a != 0x10A && a != 0x3C0
    && a != 0x7A4
  }

  lemma PlainShown(r: Regs, a: CsrAddr, v: bv64)
    requires !IsStatus(a) && !IsEnable(a) && !IsPending(a) && !IsFloat(a) && Plain(a)
    ensures Read(Write(r, a, v), a) == v
  {
    hide Write;
    ReadBack(r, a, v, a);
  }

  lemma SpecialView(a: CsrAddr, raw: bv64)
    ensures a == 0x303 || a == 0x180 || a == 0x7A0 ==> View(a, raw) == raw
    ensures a == 0x301 ==> View(a, raw) == Width64(raw)
    ensures a == 0x600 || a == 0x200 ==> View(a, raw) == GuestWidth64(raw)
  {
    hide Mxl64, Xlen64, Width64, GuestWidth64;
    WidthIs(raw);
    GuestWidthIs(raw);
  }

  lemma SpecialStored(a: CsrAddr, kept: bv64, v: bv64)
    requires !Plain(a)
    ensures a == 0x303 ==> Stored(a, kept, v) == Delegation(v)
    ensures a != 0x303 ==> Stored(a, kept, v) == v
    ensures Ignored(a, v) <==>
            (a == 0x3C0 || a == 0x7A4 || (a == 0x7A0 && v != 0 && v != 1) || (a == 0x180 && !Supported(v)))
    ensures WriteBacking(a) == a && (a != 0x10A ==> ReadBacking(a) == a) && (a == 0x10A ==> ReadBacking(a) == 0x30A)
  {
    hide Supported, SatpModeOk, Delegable, Delegation;
    SupportedIs(v);
    SmallTrigger(v);
    DelegationIs(v);
  }

  lemma SpecialShown(r: Regs, a: CsrAddr, v: bv64)
    requires !Plain(a)
    ensures Read(Write(r, a, v), a) == ShownOwn(Read(r, a), a, v)
  {
    hide Supported, Delegation, Width64, GuestWidth64, View, Stored, Ignored, ReadBacking, WriteBacking, Read, Write;
    SpecialStored(a, Raw(r, a), v);
    SpecialView(a, Stored(a, Raw(r, a), v));
    if Ignored(a, v) {
      NotWritten(r, a, v);
    } else if a == SENVCFG {
      SenvcfgWriteInvisible(r, v, SENVCFG);
    } else {
      ReadBack(r, a, v, a);
    }
  }

  lemma NotWritten(r: Regs, a: CsrAddr, v: bv64)
    requires Ignored(a, v)
    ensures Write(r, a, v) == r
  {
    hide Ignored;
  }

  lemma OwnShown(r: Regs, a: CsrAddr, v: bv64)
    requires !IsStatus(a) && !IsEnable(a) && !IsPending(a) && !IsFloat(a)
    ensures Read(Write(r, a, v), a) == ShownOwn(Read(r, a), a, v)
  {
    hide Read, Write, Supported, Delegation, Width64, GuestWidth64;
    if Plain(a) {
      PlainShown(r, a, v);
    } else {
      SpecialShown(r, a, v);
    }
  }

  /** One write, seen from every register: it shows exactly through the registers that share storage with the one
      written, with the read-only fields, the forced bits and the masks of each; a refused value changes nothing. */
  lemma AfterWrite(r: Regs, a: CsrAddr, v: bv64, b: CsrAddr)
    ensures Read(Write(r, a, v), b) == Shown(r, a, v, b)
  {
    hide Read, Write, ShownStatus, ShownEnable, ShownPending, ShownFloat, ShownOwn;
    if IsStatus(a) && IsStatus(b) {
      StatusShown(r, a, v, b);
    } else if IsEnable(a) && IsEnable(b) {
      EnableShown(r, a, v, b);
    } else if IsPending(a) && IsPending(b) {
      PendingShown(r, a, v, b);
    } else if IsFloat(a) && IsFloat(b) {
      FloatShown(r, a, v, b);
    } else if a == b {
      OwnShown(r, a, v);
    } else {
      OtherShown(r, a, v, b);
    }
  }

  lemma OtherShown(r: Regs, a: CsrAddr, v: bv64, b: CsrAddr)
    requires a != b && !(IsStatus(a) && IsStatus(b)) && !(IsEnable(a) && IsEnable(b))
    requires !(IsPending(a) && IsPending(b)) && !(IsFloat(a) && IsFloat(b))
    ensures Read(Write(r, a, v), b) == Shown(r, a, v, b)
  {
    hide Read, Write, ShownStatus, ShownEnable, ShownPending, ShownFloat, ShownOwn;
    if a == MENVCFG && b == SENVCFG {
      EnvironmentShown(r, v);
    } else {
      WriteFrame(r, a, v, b);
    }
  }

  lemma EnvironmentShown(r: Regs, v: bv64)
    ensures Read(Write(r, MENVCFG, v), SENVCFG) == v
  {
    hide Write;
    ReadBack(r, MENVCFG, v, SENVCFG);
  }
}
