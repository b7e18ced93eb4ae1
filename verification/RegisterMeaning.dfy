/** The block device's registers, one by one: which writes change each, and what a driver's set-up leaves. */
module RegisterMeaning {
  import opened Words
  import opened WordNumbers
  import opened WordBits
  import opened VirtioBlockDevice
  import AM = ArithmeticMeaning
  import C = CarryLess

  /** The value of the last write in `ws` to the register at `offset`, or the value `was` when there is none. */
  function LastTo(ws: seq<RegisterWrite>, offset: nat, was: u32): u32 {
    if ws == [] then was
    else if ws[|ws| - 1].offset == offset then ws[|ws| - 1].value
    else LastTo(ws[..|ws| - 1], offset, was)
  }

  /** No write in `ws` resets the device. */
  predicate NoReset(ws: seq<RegisterWrite>) {
    forall w :: w in ws ==> !(w.offset == 0x70 && w.value == 0)
  }

  /** Queue 0 is selected when the writes begin, and no write selects another. */
  predicate QueueZero(ws: seq<RegisterWrite>) {
    forall w :: w in ws && w.offset == 0x30 ==> w.value == 0
  }

  // ----- One write -----

  lemma QueueWrite(r: Registers, offset: nat, value: u32)
    ensures var n := AfterWrite(r, offset, value);
      var reset := offset == 0x70 && value == 0;
      && n.queueSel == (if reset then 0 else if offset == 0x30 then value else r.queueSel)
      && n.queueAlign == (if reset then 4096 else if offset == 0x3C then value else r.queueAlign)
      && n.queueNum == (if reset then 0 else if offset == 0x38 && r.queueSel == 0 then value else r.queueNum)
      && n.queuePfn == (if reset then 0 else if offset == 0x40 && r.queueSel == 0 then value else r.queuePfn)
  {
    hide Acknowledged, WithFeatures;
    if offset == 0x14 {
    } else if offset == 0x20 {
    } else if offset == 0x24 {
    } else if offset == 0x30 {
    } else if offset == 0x38 {
    } else if offset == 0x3C {
    } else if offset == 0x40 {
    } else if offset == 0x44 {
    } else if offset == 0x64 {
    } else if offset == 0x70 {
    }
  }

  lemma OtherWrite(r: Registers, offset: nat, value: u32)
    ensures var n := AfterWrite(r, offset, value);
      var reset := offset == 0x70 && value == 0;
      && n.status == (if offset == 0x70 then value else r.status)
      && n.deviceFeaturesSel == (if reset then 0 else if offset == 0x14 then value else r.deviceFeaturesSel)
      && n.driverFeaturesSel == (if reset then 0 else if offset == 0x24 then value else r.driverFeaturesSel)
  {
    hide Acknowledged, WithFeatures;
    if offset == 0x14 {
    } else if offset == 0x20 {
    } else if offset == 0x24 {
    } else if offset == 0x30 {
    } else if offset == 0x38 {
    } else if offset == 0x3C {
    } else if offset == 0x40 {
    } else if offset == 0x44 {
    } else if offset == 0x64 {
    } else if offset == 0x70 {
    }
  }

  // ----- Set-up -----

  lemma AfterLast(r: Registers, ws: seq<RegisterWrite>)
    requires ws != []
    ensures var w := ws[|ws| - 1];
      AfterWrites(r, ws) == AfterWrite(AfterWrites(r, ws[..|ws| - 1]), w.offset, w.value)
  {
    hide AfterWrite;
    var k := |ws| - 1;
    WritesSplit(r, ws, k);
    var s := AfterWrites(r, ws[..k]);
    assert ws[k..] == [ws[k]];
    assert [ws[k]][1..] == [];
    assert AfterWrites(s, [ws[k]]) == AfterWrites(AfterWrite(s, ws[k].offset, ws[k].value), []);
  }

  /** Without a reset, and with queue 0 selected throughout, the page, size and alignment of the queue are the last ones
      written, whatever else has been written in whatever order. */
  lemma {:induction false} QueueIsLastWritten(r: Registers, ws: seq<RegisterWrite>)
    requires r.queueSel == 0 && QueueZero(ws) && NoReset(ws)
    ensures var n := AfterWrites(r, ws);
      && n.queueSel == 0
      && n.queuePfn == LastTo(ws, 0x40, r.queuePfn)
      && n.queueNum == LastTo(ws, 0x38, r.queueNum)
      && n.queueAlign == LastTo(ws, 0x3C, r.queueAlign)
      && n.status == LastTo(ws, 0x70, r.status)
    decreases |ws|
  {
    hide AfterWrite;
    if ws != [] {
      var k := |ws| - 1;
      forall w | w in ws[..k]
        ensures w in ws
      {
      }
      QueueIsLastWritten(r, ws[..k]);
      AfterLast(r, ws);
      assert ws[k] in ws;
      QueueWrite(AfterWrites(r, ws[..k]), ws[k].offset, ws[k].value);
      OtherWrite(AfterWrites(r, ws[..k]), ws[k].offset, ws[k].value);
    }
  }

  // ----- Interrupt flags and features -----

  lemma AcknowledgedIs(s: bv32, value: u32)
    ensures AM.Long(Acknowledged(s, value)) == Meet(AM.Long(s), Complement(AM.Long(value as bv32)))
  {
  }

  /** Acknowledging clears the flags that are set in the value written, and no other. */
  lemma AcknowledgeClears(r: Registers, value: u32, k: nat)
    requires k < 32
    ensures Digit(AM.Word(AfterWrite(r, 0x64, value).interruptStatus), k)
        <==> Digit(AM.Word(r.interruptStatus), k) && !Digit(value, k)
  {
    hide Acknowledged, AM.Long, Meet, Complement, BitAt, Unsigned;
    AcknowledgedIs(r.interruptStatus, value);
    LongBits(Acknowledged(r.interruptStatus, value), k);
    LongBits(r.interruptStatus, k);
    LongBits(value as bv32, k);
    WordOf(value);
    BitwiseBits(AM.Long(r.interruptStatus), Complement(AM.Long(value as bv32)), k);
    ComplementBits(AM.Long(value as bv32), k);
  }

  lemma LongBits(w: bv32, k: nat)
    ensures BitAt(AM.Long(w), k) <==> Digit(AM.Word(w), k)
  {
  }

  lemma WordOf(value: u32)
    ensures AM.Word(value as bv32) == value
  {
    var x := value as bv64;
    FromNumber(value);
    AM.LowWord(x, 0);
  }

  lemma HalfParts(x: bv64)
    ensures Added(Meet(x, 0xFFFF_FFFF_0000_0000), Meet(x, 0xFFFF_FFFF)) == x
  {
  }

  function LowReplaced(x: bv64, v: bv64): bv64 { (x & 0xFFFF_FFFF_0000_0000) | v }

  function HighReplaced(x: bv64, v: bv64): bv64 { (x & 0x0000_0000_FFFF_FFFF) | (v << 32) }

  lemma FeaturesAre(features: bv64, sel: u32, value: u32, v: bv64)
    requires v == value as bv64
    ensures WithFeatures(features, sel, value) ==
            if sel == 0 then LowReplaced(features, v) else HighReplaced(features, v)
  {
  }

  lemma LowSum(x: bv64, v: bv64)
    requires Below(v, 0x1_0000_0000)
    ensures LowReplaced(x, v) == Added(Meet(x, 0xFFFF_FFFF_0000_0000), v)
  {
  }

  lemma HighSum(x: bv64, v: bv64)
    requires Below(v, 0x1_0000_0000)
    ensures HighReplaced(x, v) == Added(Meet(x, 0xFFFF_FFFF), C.ShiftLeft(v, 32))
  {
  }

  lemma LowHalf(x: bv64, v: bv64)
    requires Below(v, 0x1_0000_0000) && Unsigned(v) < 0x1_0000_0000
    ensures var now := Unsigned(LowReplaced(x, v));
      now / 0x1_0000_0000 == Unsigned(x) / 0x1_0000_0000 && now % 0x1_0000_0000 == Unsigned(v)
  {
    hide LowReplaced, Meet, Added, Unsigned, Below;
    LowSum(x, v);
    HalfParts(x);
    AM.LowNumbers(x);
    var high := Meet(x, 0xFFFF_FFFF_0000_0000);
    AddNumber(high, Meet(x, 0xFFFF_FFFF));
    AddNumber(high, v);
    LowArithmetic(Unsigned(x), Unsigned(high), Unsigned(v));
  }

  lemma LowArithmetic(u: int, high: int, v: int)
    requires 0 <= u < TWO_64 && 0 <= high < TWO_64 && 0 <= v < 0x1_0000_0000
    requires u == (high + u % 0x1_0000_0000) % TWO_64
    ensures var now := (high + v) % TWO_64; now / 0x1_0000_0000 == u / 0x1_0000_0000 && now % 0x1_0000_0000 == v
  {
    var q, l := u / 0x1_0000_0000, u % 0x1_0000_0000;
    AM.SplitAt(u, 0x1_0000_0000);
    Reduced(high + l);
    assert high == 0x1_0000_0000 * q;
    Reduced(high + v);
    DivModUnique(high + v, 0x1_0000_0000, q, v);
  }

  lemma HighHalf(x: bv64, v: bv64)
    requires Below(v, 0x1_0000_0000) && Unsigned(v) < 0x1_0000_0000
    ensures var now := Unsigned(HighReplaced(x, v));
      now / 0x1_0000_0000 == Unsigned(v) && now % 0x1_0000_0000 == Unsigned(x) % 0x1_0000_0000
  {
    hide HighReplaced, Meet, Added, C.ShiftLeft, Unsigned, Position, Pow2, Below;
    HighSum(x, v);
    AM.LowNumbers(x);
    AM.PowersOfWidths();
    ThirtyTwo();
    ShiftNumbers(v, 32);
    var l := Unsigned(x) % 0x1_0000_0000;
    Reduced(Unsigned(v) * 0x1_0000_0000);
    AddNumber(Meet(x, 0xFFFF_FFFF), C.ShiftLeft(v, 32));
    Reduced(l + Unsigned(v) * 0x1_0000_0000);
    DivModUnique(l + Unsigned(v) * 0x1_0000_0000, 0x1_0000_0000, Unsigned(v), l);
  }

  lemma FeatureWrite(r: Registers, value: u32)
    ensures AfterWrite(r, 0x20, value).driverFeatures == WithFeatures(r.driverFeatures, r.driverFeaturesSel, value)
  {
    hide WithFeatures;
  }

  /** A feature word replaces the half of the accepted features that its selector names: the low one for 0, the high one
      for every other. */
  lemma FeatureHalves(r: Registers, value: u32)
    ensures var n := AfterWrite(r, 0x20, value);
      var was, now := Unsigned(r.driverFeatures), Unsigned(n.driverFeatures);
      if r.driverFeaturesSel == 0 then
        now / 0x1_0000_0000 == was / 0x1_0000_0000 && now % 0x1_0000_0000 == value
      else now / 0x1_0000_0000 == value && now % 0x1_0000_0000 == was % 0x1_0000_0000
  {
    hide WithFeatures, LowReplaced, HighReplaced, Unsigned, AfterWrite, Below;
    var v := value as bv64;
    FromNumber(value);
    AM.Limits();
    OrderNumber(v, 0x1_0000_0000);
    FeatureWrite(r, value);
    FeaturesAre(r.driverFeatures, r.driverFeaturesSel, value, v);
    LowHalf(r.driverFeatures, v);
    HighHalf(r.driverFeatures, v);
  }

  lemma ThirtyTwo()
    ensures Position(32) == 32
  {
  }
}
