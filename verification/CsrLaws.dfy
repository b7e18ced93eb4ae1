/** Laws of the register file: what every run keeps, what a view can touch, what reads back. */
module CsrLaws {
  import opened CsrFile

  // ----- Invariants over every run -----

  predicate MipOk(v: bv64) { v & !S_INTERRUPTS == 0 }

  predicate MidelegOk(v: bv64) { v & MIDELEG_FORCE == MIDELEG_FORCE && v & !MIDELEG_WRITABLE == 0 }

  predicate NoSd(v: bv64) { v & SD_BIT == 0 }

  /** Only SSIP, STIP and SEIP are ever stored in MIP; delegation keeps its forced bits and its width;
      a selected trigger exists; SATP holds a supported mode; SD is never stored. */
  predicate Inv(r: Regs) {
    && MipOk(Raw(r, MIP))
    && (MIDELEG in r ==> MidelegOk(r[MIDELEG]))
    && Raw(r, TSELECT) < NUM_TRIGGERS
    && SatpModeOk(Raw(r, SATP))
    && NoSd(Raw(r, MSTATUS))
  }

  lemma MipBlend(kept: bv64, v: bv64)
    requires MipOk(kept)
    ensures MipOk(Blend(kept, v, S_INTERRUPTS)) && MipOk(Blend(kept, v, 0x2))
  {
  }

  lemma DelegableOk(v: bv64)
    ensures MidelegOk(Delegable(v))
  {
  }

  lemma WithoutSdOk(v: bv64)
    ensures NoSd(WithoutSd(v))
  {
  }

  /** What may be stored in each register. */
  predicate StorageOk(key: CsrAddr, v: bv64) {
    if key == MIP then MipOk(v)
    else if key == MIDELEG then MidelegOk(v)
    else if key == TSELECT then v < NUM_TRIGGERS
    else if key == SATP then SatpModeOk(v)
    else if key == MSTATUS then NoSd(v)
    else true
  }

  lemma StoredOk(a: CsrAddr, kept: bv64, v: bv64)
    requires !Ignored(a, v) && (WriteBacking(a) == MIP ==> MipOk(kept))
    ensures StorageOk(WriteBacking(a), Stored(a, kept, v))
  {
    hide MipOk, MidelegOk, NoSd, SatpModeOk, Stored, Blend, WithoutSd, Delegable;
    if a == MIP || a == SIP {
      MipBlend(kept, v);
      StoredInMip(a, kept, v);
    } else if a == MIDELEG {
      DelegableOk(v);
      StoredElsewhere(a, kept, v);
    } else if a == MSTATUS || a == SSTATUS {
      WithoutSdOk(v);
      WithoutSdOk(Blend(kept, v, SSTATUS_MASK));
      StoredInMstatus(a, kept, v);
    } else {
      StoredElsewhere(a, kept, v);
    }
  }

  lemma StoredInMip(a: CsrAddr, kept: bv64, v: bv64)
    requires a == MIP || a == SIP
    ensures Stored(a, kept, v) == Blend(kept, v, if a == MIP then S_INTERRUPTS else 0x2)
  {
    hide Blend, WithoutSd, Delegable, WithFrm;
  }

  lemma StoredInMstatus(a: CsrAddr, kept: bv64, v: bv64)
    requires a == MSTATUS || a == SSTATUS
    ensures Stored(a, kept, v) == WithoutSd(if a == MSTATUS then v else Blend(kept, v, SSTATUS_MASK))
  {
    hide Blend, WithoutSd, Delegable, WithFrm;
  }

  lemma StoredElsewhere(a: CsrAddr, kept: bv64, v: bv64)
    ensures a == MIDELEG ==> Stored(a, kept, v) == Delegable(v)
    ensures a == TSELECT || a == SATP ==> Stored(a, kept, v) == v
  {
    hide Blend, WithoutSd, Delegable, WithFrm;
  }

  lemma WriteKeepsInv(r: Regs, a: CsrAddr, v: bv64)
    requires Inv(r)
    ensures Inv(Write(r, a, v)) && (MIDELEG in r ==> MIDELEG in Write(r, a, v))
  {
    hide MipOk, MidelegOk, NoSd, SatpModeOk, Stored, Ignored, WriteBacking;
    if !Ignored(a, v) {
      StoredOk(a, Raw(r, WriteBacking(a)), v);
    }
  }

  lemma {:induction false} RunKeepsInv(r: Regs, ops: seq<Op>)
    requires Inv(r)
    ensures Inv(ApplyAll(r, ops)) && (MIDELEG in r ==> MIDELEG in ApplyAll(r, ops))
    decreases |ops|
  {
    hide Inv, Write, Read;
    if ops != [] {
      ApplyKeepsInv(r, ops[0]);
      RunKeepsInv(Apply(r, ops[0]), ops[1..]);
    }
  }

  lemma ApplyKeepsInv(r: Regs, op: Op)
    requires Inv(r)
    ensures Inv(Apply(r, op)) && (MIDELEG in r ==> MIDELEG in Apply(r, op))
  {
    hide Inv, Write, Read;
    forall a: CsrAddr, v: bv64
      ensures Inv(Write(r, a, v)) && (MIDELEG in r ==> MIDELEG in Write(r, a, v))
    {
      WriteKeepsInv(r, a, v);
    }
  }

  /** A store to the delegation register anywhere in a run leaves it written for good. */
  lemma {:induction false} WrittenStays(r: Regs, ops: seq<Op>, i: nat)
    requires i < |ops| && ops[i].Store? && ops[i].addr == MIDELEG && Inv(r)
    ensures MIDELEG in ApplyAll(r, ops)
    decreases |ops|
  {
    hide Inv, Read;
    ApplyKeepsInv(r, ops[0]);
    if i == 0 {
      RunKeepsInv(Apply(r, ops[0]), ops[1..]);
    } else {
      WrittenStays(Apply(r, ops[0]), ops[1..], i - 1);
    }
  }

  lemma {:induction false} ApplyAllConcat(r: Regs, xs: seq<Op>, ys: seq<Op>)
    ensures ApplyAll(r, xs + ys) == ApplyAll(ApplyAll(r, xs), ys)
    decreases |xs|
  {
    hide Apply;
    if xs == [] {
      assert xs + ys == ys;
    } else {
      assert (xs + ys)[0] == xs[0] && (xs + ys)[1..] == xs[1..] + ys;
      ApplyAllConcat(Apply(r, xs[0]), xs[1..], ys);
    }
  }

  /** After reset, any sequence of accesses keeps the invariant, and the delegation register reads with
      its forced bits set and nothing above bit 15. */
  lemma ReachableInv(ops: seq<Op>)
    ensures var r := ApplyAll(ApplyAll(map[], ResetWrites()), ops);
      Inv(r) && MidelegOk(Read(r, MIDELEG))
  {
    var ws := ResetWrites();
    DelegationReset();
    assert Inv(map[]);
    hide Inv, Apply, ResetWrites;
    RunKeepsInv(map[], ws);
    WrittenStays(map[], ws, 21);
    RunKeepsInv(ApplyAll(map[], ws), ops);
    ReadMideleg(ApplyAll(ApplyAll(map[], ws), ops));
  }

  lemma DelegationReset()
    ensures |ResetWrites()| > 21 && ResetWrites()[21] == Store(MIDELEG, 0x1666)
  {
    assert ResetSupervisor()[21] == Store(MIDELEG, 0x1666);
    hide ResetSupervisor, ResetRest;
  }

  lemma ReadMideleg(r: Regs)
    requires Inv(r) && MIDELEG in r
    ensures MidelegOk(Read(r, MIDELEG))
  {
  }

  // ----- Views -----

  /** A write is seen only through registers with the same storage. */
  lemma WriteFrame(r: Regs, a: CsrAddr, v: bv64, b: CsrAddr)
    requires WriteBacking(a) != ReadBacking(b)
    ensures Read(Write(r, a, v), b) == Read(r, b)
  {
    hide View, Stored, Ignored, WriteBacking, ReadBacking;
  }

  /** A register with the storage just written shows what was stored there. */
  lemma ReadBack(r: Regs, a: CsrAddr, v: bv64, b: CsrAddr)
    requires !Ignored(a, v) && WriteBacking(a) == ReadBacking(b)
    ensures Read(Write(r, a, v), b) == View(b, Stored(a, Raw(r, WriteBacking(a)), v))
  {
    hide View, Stored, Ignored, WriteBacking, ReadBacking;
  }

  /** SENVCFG reads MENVCFG but is stored elsewhere, so writing it has no effect that can be read. */
  lemma SenvcfgWriteInvisible(r: Regs, v: bv64, b: CsrAddr)
    ensures Read(Write(r, SENVCFG, v), b) == Read(r, b)
  {
    WriteFrame(r, SENVCFG, v, b);
  }

  const UXL: bv64 := 0x3_0000_0000

  /** The part of SSTATUS that holds what was last written to it. */
  const SSTATUS_PLAIN: bv64 := 0x0000_0000_000D_E762

  // One bit-level fact each.

  lemma BlendOutside(kept: bv64, v: bv64, mask: bv64)
    ensures Bits(Blend(kept, v, mask), !mask) == Bits(kept, !mask)
  {
  }

  lemma BlendInside(kept: bv64, v: bv64, mask: bv64)
    ensures Bits(Blend(kept, v, mask), mask) == Bits(v, mask)
  {
  }

  lemma ViewOutside(kept: bv64, v: bv64)
    ensures Bits(MstatusView(WithoutSd(Blend(kept, v, SSTATUS_MASK))), !SSTATUS_MASK) ==
            Bits(MstatusView(kept), !SSTATUS_MASK)
  {
  }

  lemma ViewPlain(kept: bv64, v: bv64)
    ensures Bits(Bits(MstatusView(WithoutSd(Blend(kept, v, SSTATUS_MASK))), SSTATUS_MASK), SSTATUS_PLAIN) ==
            Bits(v, SSTATUS_PLAIN)
  {
  }

  lemma ViewUxl(x: bv64)
    ensures Bits(Bits(MstatusView(x), SSTATUS_MASK), UXL) == 0x2_0000_0000
  {
  }

  lemma ViewSd(kept: bv64, v: bv64)
    ensures Bits(Bits(MstatusView(WithoutSd(Blend(kept, v, SSTATUS_MASK))), SSTATUS_MASK), SD_BIT) != 0 <==> Dirty(v)
  {
  }

  /** Writing SSTATUS changes no MSTATUS bit outside the view, and every bit of the view reads back as
      written except the forced UXL and the derived SD. */
  lemma SstatusWrite(r: Regs, v: bv64)
    ensures var r' := Write(r, SSTATUS, v);
      && Bits(Read(r', MSTATUS), !SSTATUS_MASK) == Bits(Read(r, MSTATUS), !SSTATUS_MASK)
      && Bits(Read(r', SSTATUS), SSTATUS_PLAIN) == Bits(v, SSTATUS_PLAIN)
      && Bits(Read(r', SSTATUS), UXL) == 0x2_0000_0000
      && (Bits(Read(r', SSTATUS), SD_BIT) != 0 <==> Dirty(v))
  {
    hide MstatusView, WithoutSd, Blend, Dirty, Bits;
    var kept := Raw(r, MSTATUS);
    ViewOutside(kept, v);
    ViewPlain(kept, v);
    ViewUxl(WithoutSd(Blend(kept, v, SSTATUS_MASK)));
    ViewSd(kept, v);
  }

  /** SIE is exactly the three supervisor bits of MIE; writing it leaves the others alone. */
  lemma SieWrite(r: Regs, v: bv64)
    ensures var r' := Write(r, SIE, v);
      && Read(r', SIE) == Bits(v, S_INTERRUPTS)
      && Bits(Read(r', MIE), !S_INTERRUPTS) == Bits(Read(r, MIE), !S_INTERRUPTS)
  {
    hide Blend, Bits;
    BlendInside(Raw(r, MIE), v, S_INTERRUPTS);
    BlendOutside(Raw(r, MIE), v, S_INTERRUPTS);
  }

  /** Through SIP only SSIP can be written. */
  lemma SipWrite(r: Regs, v: bv64)
    ensures var r' := Write(r, SIP, v);
      && Bits(Read(r', MIP), 0x2) == Bits(v, 0x2)
      && Bits(Read(r', MIP), !0x2) == Bits(Read(r, MIP), !0x2)
      && Read(r', SIP) == Bits(Read(r', MIP), S_INTERRUPTS)
  {
    hide Blend, Bits;
    BlendInside(Raw(r, MIP), v, 0x2);
    BlendOutside(Raw(r, MIP), v, 0x2);
  }

  lemma FrmKept(kept: bv64, v: bv64)
    ensures FrmOf(Blend(kept, v, 0x1F)) == FrmOf(kept)
  {
  }

  lemma FrmStored(kept: bv64, v: bv64)
    ensures FrmOf(WithFrm(kept, v)) == Bits(v, 0x7)
  {
  }

  lemma FrmFieldInside(v: bv64)
    ensures FrmField(v) & 0xE0 == FrmField(v)
  {
  }

  lemma FrmOutside(kept: bv64, v: bv64)
    ensures Bits(WithFrm(kept, v), !0xE0) == Bits(kept, !0xE0)
  {
    hide FrmField;
    FrmFieldInside(v);
  }

  lemma FlagsKept(kept: bv64, v: bv64)
    ensures Bits(WithFrm(kept, v), 0x1F) == Bits(kept, 0x1F)
  {
  }

  /** FFLAGS and FRM are independent fields of FCSR. */
  lemma FflagsWrite(r: Regs, v: bv64)
    ensures var r' := Write(r, FFLAGS, v);
      && Read(r', FFLAGS) == Bits(v, 0x1F)
      && Read(r', FRM) == Read(r, FRM)
      && Bits(Read(r', FCSR), !0x1F) == Bits(Read(r, FCSR), !0x1F)
  {
    hide Blend, Bits, FrmOf, Write, Raw;
    ReadBack(r, FFLAGS, v, FFLAGS);
    ReadBack(r, FFLAGS, v, FRM);
    ReadBack(r, FFLAGS, v, FCSR);
    BlendInside(Raw(r, FCSR), v, 0x1F);
    BlendOutside(Raw(r, FCSR), v, 0x1F);
    FrmKept(Raw(r, FCSR), v);
  }

  lemma FrmWrite(r: Regs, v: bv64)
    ensures var r' := Write(r, FRM, v);
      && Read(r', FRM) == Bits(v, 0x7)
      && Read(r', FFLAGS) == Read(r, FFLAGS)
      && Bits(Read(r', FCSR), !0xE0) == Bits(Read(r, FCSR), !0xE0)
  {
    hide WithFrm, Bits, FrmOf, Write, Raw;
    ReadBack(r, FRM, v, FFLAGS);
    ReadBack(r, FRM, v, FRM);
    ReadBack(r, FRM, v, FCSR);
    FrmStored(Raw(r, FCSR), v);
    FrmOutside(Raw(r, FCSR), v);
    FlagsKept(Raw(r, FCSR), v);
  }
}
