/** Fetching by numbers: where an instruction word comes from, and which faults it meets. */
module FetchMeaning {
  import opened Words
  import opened WordNumbers
  import opened WordBits
  import opened Memory
  import opened HartState
  import opened Standard
  import opened ArithmeticMeaning
  import opened Run
  import AM = AtomicMeaning
  import AC = AccessMeaning
  import C = CarryLess
  import MM = MemoryMeaning
  import PT = PageTable

  // ----- Numbers -----

  lemma OddIs(pc: bv64)
    ensures OddPc(pc) <==> Lowest(pc) == 1
  {
  }

  lemma OddNumber(pc: bv64)
    ensures OddPc(pc) <==> Unsigned(pc) % 2 == 1
  {
    hide OddPc, Unsigned, Lowest;
    OddIs(pc);
    HalfNumber(pc);
    Identities(pc, 0);
    Bits0And1();
  }

  lemma LowPageParts(x: bv64)
    ensures Added(C.ShiftLeft(C.ShiftRight(x, 12), 12), Meet(x, 0xFFF)) == x && Below(Meet(x, 0xFFF), 0x1000)
    ensures AtPageEnd(x) <==> AtMost(0xFFE, Meet(x, 0xFFF))
  {
  }

  lemma Twelve()
    ensures Unsigned(0x1000) == 0x1000 && Unsigned(0xFFE) == 0xFFE && C.Index(12) == 12
  {
  }

  lemma PagePower()
    ensures Pow2(12) == 0x1000
  {
    SmallPowers();
    assert Pow2(4) == 0x10;
    hide Pow2;
    PowerAdds(8, 4);
  }

  lemma EndNumber(pc: bv64)
    ensures AtPageEnd(pc) <==> Unsigned(pc) % 0x1000 >= 0xFFE
  {
    hide AtPageEnd, Meet, Below, AtMost, Added, Unsigned, C.Index, C.ShiftLeft, C.ShiftRight, Pow2;
    Twelve();
    PagePower();
    LowPageParts(pc);
    OrderNumber(Meet(pc, 0xFFF), 0x1000);
    OrderNumber(0xFFE, Meet(pc, 0xFFF));
    LowPart(pc, Meet(pc, 0xFFF), 12);
  }

  /** The last two bytes of a page are its last even address. */
  lemma EvenEnd(v: nat)
    requires v % 2 == 0
    ensures v % 0x1000 >= 0xFFE <==> v % 0x1000 == 0xFFE
  {
    var q, r := v / 0x1000, v % 0x1000;
    assert v == 0x1000 * q + r;
    assert r % 2 == 0;
  }

  /** A halfword read from the bus as the lower half of a word. */
  lemma HalfwordWide(v: nat) returns (x: bv64)
    requires v < 0x1_0000
    ensures Unsigned(x) == v && Halfword(v) == Low32(x) && x < 0x1_0000
  {
    x := v as bv64;
    FromNumber(v);
    Limits();
    OrderNumber(x, 0x1_0000);
    assert Below(x, 0x1_0000);
    LowWord(x, 0);
    hide Unsigned, Low32;
    var w := Low32(x);
    WordIs(w);
    DivModUnique(v, 0x1_0000, 0, v);
    DivModUnique(v, 0x1_0000_0000, 0, v);
  }

  lemma ShortParts(x: bv64)
    ensures IsShort(Low32(x)) <==> Meet(x, 3) != 3
    ensures Added(C.ShiftLeft(C.ShiftRight(x, 2), 2), Meet(x, 3)) == x && Below(Meet(x, 3), 4)
  {
  }

  lemma Fours()
    ensures Unsigned(4) == 4 && Unsigned(3) == 3 && C.Index(2) == 2 && Pow2(2) == 4
  {
  }

  lemma ShortNumber(x: bv64)
    ensures IsShort(Low32(x)) <==> Unsigned(x) % 4 != 3
  {
    hide IsShort, Low32, Meet, Below, Added, Unsigned, C.Index, C.ShiftLeft, C.ShiftRight, Pow2;
    Fours();
    ShortParts(x);
    OrderNumber(Meet(x, 3), 4);
    LowPart(x, Meet(x, 3), 2);
    if Unsigned(Meet(x, 3)) == 3 {
      SameNumber(Meet(x, 3), 3);
    }
  }

  lemma BothParts(x: bv64, y: bv64)
    requires x < 0x1_0000 && y < 0x1_0000
    ensures Both(Low32(x), Low32(y)) == Low32(Added(x, C.ShiftLeft(y, 16)))
  {
  }

  lemma BothNumber(x: bv64, y: bv64)
    requires x < 0x1_0000 && y < 0x1_0000 && Unsigned(x) < 0x1_0000 && Unsigned(y) < 0x1_0000
    ensures Word(Both(Low32(x), Low32(y))) == Unsigned(x) + 0x1_0000 * Unsigned(y)
  {
    hide Both, Low32, Added, C.ShiftLeft, C.Index, Unsigned, Pow2;
    BothParts(x, y);
    Indices();
    PowersOfWidths();
    assert Position(16) == 16;
    ShiftNumbers(y, 16);
    Reduced(Unsigned(y) * 0x1_0000);
    AddNumber(x, C.ShiftLeft(y, 16));
    Reduced(Unsigned(x) + Unsigned(y) * 0x1_0000);
    LowWord(Added(x, C.ShiftLeft(y, 16)), 0);
    DivModUnique(Unsigned(x) + Unsigned(y) * 0x1_0000, 0x1_0000_0000, 0, Unsigned(x) + Unsigned(y) * 0x1_0000);
  }

  // ----- Fetching -----

  /** The halfword at `a`, or the fault of a fetch there. */
  function HalfAt(p: Phys, a: u64): Result<nat, PT.Exception> {
    match ReadAt(p, a, 2) case None => Err(PT.InstructionAccessFault) case Some(v) => Ok(v)
  }

  /** Where the second half of a word at `pa` lies: at the next address, or, when the first half ends its page, where
      the next virtual address leads. */
  function UpperPlace(h: Hart, pa: u64): PT.Translated {
    var next := (Unsigned(h.pc) + 2) % TWO_64;
    var c := AC.SpaceOf(h);
    if Unsigned(h.pc) % 0x1000 == 0xFFE then PT.Translate(h.mem, next, PT.Instruction, c.mode, c.satp, c.mstatus)
    else PT.Translated(Ok((pa + 2) % TWO_64), h.mem)
  }

  ghost predicate Fails(f: Fetched, e: PT.Exception, m: Phys) { f == Fetched(Err(e), m) }

  ghost predicate Gives(f: Fetched, n: int, m: Phys) { f.result.Ok? && f.result.value as int == n && f.mem == m }

  ghost predicate UpperFetched(h: Hart, pa: u64, v: nat, f: Fetched) {
    var t := UpperPlace(h, pa);
    match t.result
    case Err(e) => Fails(f, e, t.mem)
    case Ok(a) =>
      match HalfAt(t.mem, a)
      case Err(e) => Fails(f, e, t.mem)
      case Ok(u) => Gives(f, v + 0x1_0000 * u, t.mem)
  }

  lemma NextAddress(pc: bv64)
    ensures Num(Plus(pc, 2)) == (Unsigned(pc) + 2) % TWO_64
  {
    assert Unsigned(2) == 2 && Plus(pc, 2) == Added(pc, 2) && Num(Plus(pc, 2)) == Unsigned(Plus(pc, 2));
    hide Num, Plus, Added, Unsigned;
    AddNumber(pc, 2);
  }

  lemma HalfFits(p: Phys, a: u64)
    ensures HalfAt(p, a).Ok? ==> HalfAt(p, a).value < 0x1_0000
  {
    hide ReadAt, MM.ByteOf, MM.RomHas, MM.DramHas;
    MM.ReadsBytes(p, a, 2, 0);
    assert Pow256(2) == 0x1_0000;
  }

  lemma UpperPlaceIs(h: Hart, pa: u64)
    requires Unsigned(h.pc) % 2 == 0
    ensures UpperPlace(h, pa) ==
      if AtPageEnd(h.pc) then Locate(h, Plus(h.pc, 2), PT.Instruction) else PT.Translated(Ok(WrappingAdd(pa, 2)), h.mem)
  {
    hide AtPageEnd, PT.Translate, Plus, Unsigned, AC.SpaceOf, Locate, Num;
    EndNumber(h.pc);
    EvenEnd(Unsigned(h.pc));
    NextAddress(h.pc);
    AM.LocatedIs(h, Plus(h.pc, 2), PT.Instruction);
  }

  lemma Joined(v: nat, u: nat)
    requires v < 0x1_0000 && u < 0x1_0000
    ensures Both(Halfword(v), Halfword(u)) as int == v + 0x1_0000 * u
  {
    hide Halfword, Both, Unsigned, Low32, Word;
    var x := HalfwordWide(v);
    var y := HalfwordWide(u);
    BothNumber(x, y);
    WordIs(Both(Halfword(v), Halfword(u)));
  }

  lemma UpperIs(h: Hart, pa: u64, v: nat)
    requires v < 0x1_0000 && Unsigned(h.pc) % 2 == 0
    ensures UpperFetched(h, pa, v, FetchUpper(h, pa, Halfword(v)))
  {
    hide Halfword, Both, AtPageEnd, Plus, Unsigned, Locate, ReadAt, UpperPlace;
    UpperPlaceIs(h, pa);
    var t := UpperPlace(h, pa);
    if t.result.Ok? && ReadAt(t.mem, t.result.value, 2).Some? {
      HalfFits(t.mem, t.result.value);
      Joined(v, ReadAt(t.mem, t.result.value, 2).value);
    }
  }

  lemma ShortWord(v: nat)
    requires v < 0x1_0000
    ensures Halfword(v) as int == v && (IsShort(Halfword(v)) <==> v % 4 != 3)
  {
    hide Halfword, IsShort, Unsigned, Low32, Word;
    var x := HalfwordWide(v);
    ShortNumber(x);
    WordIs(Halfword(v));
    LowWord(x, 0);
    DivModUnique(v, 0x1_0000_0000, 0, v);
  }

  /** An odd address is misaligned. Otherwise the first halfword comes from where the address leads; it is the
      instruction unless its two lowest bits are both set. Then the second halfword follows, from the next address or,
      across the end of a page, from where the next virtual address leads on its own, and is the upper half. */
  lemma FetchIs(h: Hart)
    ensures var f := Fetch(h);
      if Unsigned(h.pc) % 2 == 1 then Fails(f, PT.InstructionAddressMisaligned, h.mem)
      else
        var t := AM.Located(h, h.pc, PT.Instruction);
        match t.result
        case Err(e) => Fails(f, e, t.mem)
        case Ok(pa) =>
          match HalfAt(t.mem, pa)
          case Err(e) => Fails(f, e, t.mem)
          case Ok(v) => if v % 4 != 3 then Gives(f, v, t.mem) else UpperFetched(h.(mem := t.mem), pa, v, f)
  {
    hide Halfword, OddPc, IsShort, FetchUpper, Unsigned, Locate, AM.Located, ReadAt, UpperFetched;
    OddNumber(h.pc);
    AM.LocatedIs(h, h.pc, PT.Instruction);
    var t := AM.Located(h, h.pc, PT.Instruction);
    if t.result.Ok? && ReadAt(t.mem, t.result.value, 2).Some? {
      var v := ReadAt(t.mem, t.result.value, 2).value;
      HalfFits(t.mem, t.result.value);
      ShortWord(v);
      if Unsigned(h.pc) % 2 == 0 {
        UpperIs(h.(mem := t.mem), t.result.value, v);
      }
    }
  }
}
