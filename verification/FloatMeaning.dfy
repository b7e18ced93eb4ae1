/** The floating-point accesses, the gate before floating-point computation, and the memory-ordering words. */
module FloatMeaning {
  import opened Words
  import opened WordNumbers
  import opened WordBits
  import opened Memory
  import opened HartState
  import opened Standard
  import opened ArithmeticMeaning
  import opened InstructionMeaning
  import opened Immediates
  import opened ControlMeaning
  import opened AccessMeaning
  import opened MemoryMeaning
  import AM = AtomicMeaning
  import C = CarryLess
  import CF = CsrFile
  import PT = PageTable
  import VA = VirtualAccess

  /** The instruction completes with `v` in floating-point register `rd` and the pc at `target`. */
  ghost predicate LeavesF(h: Hart, out: Outcome, rd: nat, v: int, target: int) {
    && out.Next?
    && out.hart == h.(pc := out.hart.pc, fregs := out.hart.fregs)
    && Unsigned(out.hart.pc) == target % TWO_64
    && forall r: nat :: r < 32 ==>
        if r == rd then Unsigned(out.hart.fregs[r]) == v % TWO_64 else out.hart.fregs[r] == h.fregs[r]
  }

  /** Bits 14 and 13 set, and both clear. */
  function FloatsDirty(x: bv64): bv64 { x | 0x6000 }

  predicate FloatsOff(x: bv64) { x & 0x6000 == 0 }

  /** The hart with the floating-point state of MSTATUS dirty. */
  function Dirtied(h: Hart): Hart {
    h.(csr := CF.Write(h.csr, 0x300, FloatsDirty(CF.Read(h.csr, 0x300))))
  }

  lemma DirtiedIs(h: Hart)
    ensures MarkDirty(h) == Dirtied(h)
  {
    hide CF.Read, CF.Write, DirtyFs, FloatsDirty;
    SetTwice(CF.Read(h.csr, 0x300));
  }

  lemma SetTwice(x: bv64)
    ensures DirtyFs(x) == FloatsDirty(x)
  {
  }

  lemma WriteF(h: Hart, rd: bv5, v: bv64, len: bv64)
    ensures LeavesF(h, Next(Goto(SetF(h, rd, v), Plus(h.pc, len))), rd as int, Unsigned(v),
                Unsigned(h.pc) + Unsigned(len))
  {
    hide Plus, Unsigned;
    PcAfter(h, len);
    Reduced(Unsigned(v));
  }

  // ----- Loads -----

  lemma BoxParts(x: bv64)
    ensures Box(x) == Added(Meet(x, 0xFFFF_FFFF), 0xFFFF_FFFF_0000_0000)
  {
  }

  lemma HighWord()
    ensures Unsigned(0xFFFF_FFFF_0000_0000) == TWO_64 - 0x1_0000_0000
  {
  }

  lemma BoxNumber(v: nat)
    ensures Unsigned(Box(Wide(v))) == v % 0x1_0000_0000 + (TWO_64 - 0x1_0000_0000)
  {
    hide Unsigned, Added, Meet, Box, Wide;
    WideNumber(v);
    BoxParts(Wide(v));
    LowNumbers(Wide(v));
    HighWord();
    NarrowMod(v);
    AddNumber(Meet(Wide(v), 0xFFFF_FFFF), 0xFFFF_FFFF_0000_0000);
    Reduced(v % 0x1_0000_0000 + (TWO_64 - 0x1_0000_0000));
  }

  /** What a loaded number becomes in the register: a single is boxed in ones. */
  function Boxed(v: nat, n: nat): int {
    if n == 4 then v % 0x1_0000_0000 + (TWO_64 - 0x1_0000_0000) else v
  }

  /** The width of FLW and FLD, and of FSW and FSD. */
  function FloatWidth(m: bv32): Option<nat> {
    if m == 0x2007 || m == 0x2027 then Some(4) else if m == 0x3007 || m == 0x3027 then Some(8) else None
  }

  lemma FloatCodes(i: bv32)
    ensures i & 0x7F == 0x07 ==> Opcode(i) == 0x07
    ensures i & 0x7F == 0x27 ==> Opcode(i) == 0x27
    ensures i & 0x7F == 0x07 ==> (FloatWidth(i & F_MASK) == Some(4) <==> Funct3(i) == 2)
    ensures i & 0x7F == 0x07 ==> (FloatWidth(i & F_MASK) == Some(8) <==> Funct3(i) == 3)
    ensures i & 0x7F == 0x27 ==> (FloatWidth(i & F_MASK) == Some(4) <==> Funct3(i) == 2)
    ensures i & 0x7F == 0x27 ==> (FloatWidth(i & F_MASK) == Some(8) <==> Funct3(i) == 3)
  {
    OpcodeAndKind(i);
    hide Opcode, Funct3;
  }

  lemma ExecuteFloatAccess(h: Hart, i: bv32, len: bv64, o: Oracle)
    ensures Opcode(i) == 0x07 ==> Execute(h, i, len, o) == FLoad(h, i, len)
    ensures Opcode(i) == 0x27 ==> Execute(h, i, len, o) == FStore(h, i, len)
    ensures Opcode(i) == 0x0F ==> Execute(h, i, len, o) == MiscMem(h, i, len)
  {
    hide Opcode, FLoad, FStore, MiscMem;
  }

  ghost predicate FloatLoaded(h: Hart, va: u64, n: nat, rd: nat, out: Outcome, target: int) {
    var l := VA.LoadVa(h.mem, SpaceOf(h), va, n);
    var k := h.(mem := l.mem);
    match l.result
    case Err(e) => out.Raise? && out.hart == k && out.trap == Exc(e) && Unsigned(out.tval) == va
    case Ok(v) => LeavesF(Dirtied(k), out, rd, Boxed(v, n), target)
  }

  /** What a load leaves when its bytes have come in. */
  lemma ArrivedF(k: Hart, rd: bv5, f3: bv3, v: nat, len: bv64)
    requires f3 == 2 || f3 == 3
    ensures var x := if f3 == 2 then Box(Wide(v)) else Wide(v);
      LeavesF(Dirtied(k), Next(Goto(MarkDirty(SetF(k, rd, x)), Plus(k.pc, len))), rd as int,
        Boxed(v, if f3 == 2 then 4 else 8), Unsigned(k.pc) + Unsigned(len))
  {
    hide Box, Wide, Unsigned, Plus, SetF, MarkDirty, Dirtied, LeavesF;
    var x := if f3 == 2 then Box(Wide(v)) else Wide(v);
    DirtyOrder(k, rd, x);
    BoxNumber(v);
    WideNumber(v);
    KeptPc(k);
    WriteF(Dirtied(k), rd, x, len);
    Reduced(Unsigned(x));
    var out := Next(Goto(MarkDirty(SetF(k, rd, x)), Plus(k.pc, len)));
    SameValueF(Dirtied(k), out, rd as int, Unsigned(x), Boxed(v, if f3 == 2 then 4 else 8),
        Unsigned(k.pc) + Unsigned(len));
  }

  lemma LoadFIs(h: Hart, f3: bv3, rd: bv5, va: bv64, len: bv64, n: nat)
    requires WidthOf(f3) == n
    ensures var l := LoadFrom(h, va, n);
      var k := h.(mem := l.mem);
      LoadF(h, f3, rd, va, len) ==
        match l.result
        case Err(e) => Raise(k, Exc(e), va)
        case Ok(v) =>
          Next(Goto(MarkDirty(SetF(k, rd, if f3 == 2 then Box(Wide(v)) else Wide(v))), Plus(h.pc, len)))
  {
    hide LoadFrom, Box, Wide, WidthOf, Plus, SetF, MarkDirty;
  }

  lemma FloatKinds(f3: bv3)
    ensures f3 == 2 ==> WidthOf(f3) == 4
    ensures f3 == 3 ==> WidthOf(f3) == 8
  {
  }

  lemma LoadedF(h: Hart, rd: bv5, f3: bv3, va: bv64, len: bv64, n: nat)
    requires (f3 == 2 && n == 4) || (f3 == 3 && n == 8)
    ensures FloatLoaded(h, Num(va), n, rd as int, LoadF(h, f3, rd, va, len), Unsigned(h.pc) + Unsigned(len))
  {
    hide LoadFrom, VA.LoadVa, SpaceOf, Num, Box, Wide, WidthOf, Unsigned, Plus, SetF, MarkDirty, Dirtied, LeavesF,
         Boxed, LoadF;
    FloatKinds(f3);
    LoadFIs(h, f3, rd, va, len, n);
    LoadFromIs(h, va, n);
    NumIs(va);
    var l := VA.LoadVa(h.mem, SpaceOf(h), Num(va), n);
    if l.result.Ok? {
      ArrivedF(h.(mem := l.mem), rd, f3, l.result.value, len);
    }
  }

  /** Marking the unit and writing the register are independent. */
  lemma DirtyOrder(k: Hart, rd: bv5, x: bv64)
    ensures MarkDirty(SetF(k, rd, x)) == SetF(Dirtied(k), rd, x)
  {
    hide CF.Read, CF.Write, FloatsDirty;
    DirtiedIs(SetF(k, rd, x));
  }

  lemma KeptPc(k: Hart)
    ensures Dirtied(k).pc == k.pc
  {
  }

  lemma SameValueF(h: Hart, out: Outcome, rd: nat, v: int, w: int, target: int)
    requires LeavesF(h, out, rd, v, target) && v % TWO_64 == w % TWO_64
    ensures LeavesF(h, out, rd, w, target)
  {
  }

  /** FLW and FLD read four or eight bytes at the register plus the signed offset; a single lands boxed in ones, and the
      unit is marked dirty. Every other kind is illegal. */
  lemma FloatLoads(h: Hart, i: bv32, len: bv64, o: Oracle)
    requires i & 0x7F == 0x07
    ensures var n := FloatWidth(i & F_MASK);
      var out := Execute(h, i, len, o);
      if n.None? then out == Raise(h, Exc(PT.IllegalInstruction), i as bv64)
      else FloatLoaded(h, Address(Operand1(h, i), ValueI(i)), n.value, Destination(i), out,
          Unsigned(h.pc) + Unsigned(len))
  {
    FloatCodes(i);
    WidthCases(i & F_MASK);
    ExecuteFloatAccess(h, i, len, o);
    hide Execute, Opcode, Funct3, Rd, Rs1, X, Plus, ImmI, LoadF, Unsigned, Signed, Operand1, ValueI, Destination,
         FloatLoaded, Num, FloatWidth;
    OperandsAre(h, i);
    var va := Plus(Operand1(h, i), ImmI(i));
    SumPlus(Operand1(h, i), ImmI(i));
    NumIs(va);
    ImmediateI(i);
    FieldsAre(i);
    if Funct3(i) == 2 {
      LoadedF(h, Rd(i), Funct3(i), va, len, 4);
    } else if Funct3(i) == 3 {
      LoadedF(h, Rd(i), Funct3(i), va, len, 8);
    }
  }

  lemma WidthCases(m: bv32)
    ensures FloatWidth(m).None? || FloatWidth(m) == Some(4) || FloatWidth(m) == Some(8)
  {
  }

  // ----- Stores -----

  lemma StoredF(h: Hart, va: bv64, v: bv64, n: nat, len: bv64)
    ensures StoresTo(h, Num(va), v, n, StoreV(h, va, v, n, len), Unsigned(h.pc) + Unsigned(len))
  {
    hide Unsigned, Leaves, VA.StoreVa, SpaceOf, StoreTo, Goto, Num, Plus;
    NumIs(va);
    StoreToIs(h, va, v, n);
    PcAfter(h, len);
    var s := StoreTo(h, va, v, n);
    NoRegister(h.(mem := s.mem, reservation := None), Plus(h.pc, len), Unsigned(h.pc) + Unsigned(len));
  }

  /** The floating-point register a store names. */
  function FloatOperand(h: Hart, i: bv32): bv64 { h.fregs[((i >> 20) & 0x1F) as bv5 as int] }

  lemma FloatOperandIs(h: Hart, i: bv32)
    ensures F(h, Rs2(i)) == FloatOperand(h, i)
  {
  }

  /** What FSW stores, and FSD. */
  function FloatStored(h: Hart, i: bv32, n: nat): bv64 {
    if n == 4 then Meet(FloatOperand(h, i), 0xFFFF_FFFF) else FloatOperand(h, i)
  }

  lemma FStoreIs(h: Hart, i: bv32, len: bv64)
    ensures FStore(h, i, len) ==
            if Funct3(i) == 2 then StoreV(h, Plus(X(h, Rs1(i)), ImmS(i)), FloatStored(h, i, 4), 4, len)
            else if Funct3(i) == 3 then StoreV(h, Plus(X(h, Rs1(i)), ImmS(i)), FloatStored(h, i, 8), 8, len)
            else Illegal(h, i)
  {
    var v := FloatOperand(h, i);
    assert And(v, 0xFFFF_FFFF) == Meet(v, 0xFFFF_FFFF);
    hide Funct3, Rs1, Rs2, X, F, Plus, ImmS, StoreV, FloatOperand, And, Meet, Illegal;
    FloatOperandIs(h, i);
  }

  /** FSW and FSD write the low four or all eight bytes of the register; every other kind is illegal. */
  lemma FloatStores(h: Hart, i: bv32, len: bv64, o: Oracle)
    requires i & 0x7F == 0x27
    ensures var n := FloatWidth(i & F_MASK);
      var out := Execute(h, i, len, o);
      if n.None? then out == Raise(h, Exc(PT.IllegalInstruction), i as bv64)
      else StoresTo(h, Address(Operand1(h, i), ValueS(i)), FloatStored(h, i, n.value), n.value, out,
          Unsigned(h.pc) + Unsigned(len))
  {
    FloatCodes(i);
    WidthCases(i & F_MASK);
    hide Execute, Opcode, Funct3, Rs1, Rs2, X, Plus, ImmS, Unsigned, Signed, Operand1, ValueS, StoresTo, StoreV, Num,
         FloatWidth, FloatStored, FStore;
    ExecuteFloatAccess(h, i, len, o);
    FStoreIs(h, i, len);
    OperandsAre(h, i);
    var va := Plus(Operand1(h, i), ImmS(i));
    SumPlus(Operand1(h, i), ImmS(i));
    NumIs(va);
    ImmediateS(i);
    StoredF(h, va, FloatStored(h, i, 4), 4, len);
    StoredF(h, va, FloatStored(h, i, 8), 8, len);
  }

  // ----- Computation -----

  predicate IsFloating(i: bv32) {
    var op := i & 0x7F;
    op == 0x53 || op == 0x43 || op == 0x47 || op == 0x4B || op == 0x4F
  }

  lemma FloatingCodes(i: bv32)
    requires IsFloating(i)
    ensures var op := Opcode(i); op == 0x53 || op == 0x43 || op == 0x47 || op == 0x4B || op == 0x4F
  {
  }

  lemma ExecuteUnit(h: Hart, i: bv32, len: bv64, o: Oracle)
    requires var op := Opcode(i); op == 0x53 || op == 0x43 || op == 0x47 || op == 0x4B || op == 0x4F
    ensures Execute(h, i, len, o) == FloatingPoint(h, i, len, o)
  {
    hide Opcode, FloatingPoint, ImmU, ImmJ, ImmI, Plus, Even, Jump, Branch, Standard.Load, FLoad, Standard.Store,
         FStore, AluImm, Alu, AluImmW, AluW, MiscMem, Atomic, System, OrIllegal, Write1, X, Rd, Rs1, Rs2, Funct3,
         Funct7, Illegal;
  }

  lemma ExecuteFloating(h: Hart, i: bv32, len: bv64, o: Oracle)
    requires IsFloating(i)
    ensures Execute(h, i, len, o) ==
            if FloatsOff(CF.Read(h.csr, 0x300)) || o.floating.Unsupported? then Illegal(h, i)
            else if o.floating.ToX? then
              Write1(if o.floating.dirty then Dirtied(h) else h, Rd(i), o.floating.value, len)
            else
              Next(Goto(SetF(if o.floating.dirty then Dirtied(h) else h, Rd(i), o.floating.value), Plus(h.pc, len)))
  {
    FloatingCodes(i);
    assert FloatsOff(CF.Read(h.csr, 0x300)) <==> CF.Read(h.csr, 0x300) & 0x6000 == 0;
    hide Opcode, CF.Read, FloatsOff, Illegal, Write1, SetF, MarkDirty, Dirtied, Rd, Plus, IsFloating, Execute;
    ExecuteUnit(h, i, len, o);
    DirtiedIs(h);
  }

  /** Floating-point computation is illegal while bits 14 and 13 of MSTATUS are clear, or when the unit does not know
      the word; otherwise the unit's answer lands in the register it names, with those bits set if the unit says so. */
  lemma FloatingOperations(h: Hart, i: bv32, len: bv64, o: Oracle)
    requires IsFloating(i)
    ensures var out := Execute(h, i, len, o);
      var target := Unsigned(h.pc) + Unsigned(len);
      if FloatsOff(CF.Read(h.csr, 0x300)) then out == Raise(h, Exc(PT.IllegalInstruction), i as bv64)
      else
        match o.floating
        case Unsupported => out == Raise(h, Exc(PT.IllegalInstruction), i as bv64)
        case ToX(v, d) => Leaves(if d then Dirtied(h) else h, out, Destination(i), Unsigned(v), target)
        case ToF(v, d) => LeavesF(if d then Dirtied(h) else h, out, Destination(i), Unsigned(v), target)
  {
    hide Execute, IsFloating, CF.Read, CF.Write, FloatsOff, Dirtied, Unsigned, Destination, Rd, Write1, Leaves, LeavesF,
         SetF, Plus;
    ExecuteFloating(h, i, len, o);
    FieldsAre(i);
    KeptPc(h);
    match o.floating {
      case Unsupported =>
      case ToX(v, d) => WriteLeaves(if d then Dirtied(h) else h, i, v, len);
      case ToF(v, d) => WriteF(if d then Dirtied(h) else h, Rd(i), v, len);
    }
  }

  // ----- Memory ordering and cache blocks -----

  /** The doubleword `m` of the block at `pa` lies in DRAM, and byte `j` of DRAM in it. */
  predicate CoversByte(p: Phys, pa: int, m: nat, j: nat) {
    DramHas(p, pa + 8 * m, 8) && pa + 8 * m <= 0x8000_0000 + j < pa + 8 * m + 8
  }

  /** `q` is `p` with zero in every byte that one of the first `n` doublewords from `pa` on covers. */
  ghost predicate Zeroed(p: Phys, q: Phys, pa: int, n: nat) {
    && q.rom == p.rom && |q.dram| == |p.dram|
    && forall j: nat :: j < |p.dram| ==>
        q.dram[j] == if exists m: nat :: m < n && CoversByte(p, pa, m, j) then 0 else p.dram[j]
  }

  lemma ByteOfZero(k: nat)
    ensures ByteOf(0, k) == 0
  {
    DivModUnique(0, Pow256(k), 0, 0);
  }

  lemma {:induction false} ZeroedWords(p: Phys, pa: int, n: nat)
    ensures Zeroed(p, ZeroWords(p, pa, n), pa, n)
  {
    hide DramHas, Write64At;
    if n == 0 {
    } else {
      var q := ZeroWords(p, pa, n - 1);
      ZeroedWords(p, pa, n - 1);
      assert Write64At(q, pa + 8 * (n - 1), 0) == WriteAt(q, pa + 8 * (n - 1), 8, 0);
      WritesBytes(q, pa + 8 * (n - 1), 8, 0);
      SameRoom(p, q, pa + 8 * (n - 1));
      ZeroedStep(p, q, ZeroWords(p, pa, n), pa, n);
    }
  }

  lemma SameRoom(p: Phys, q: Phys, a: int)
    requires |q.dram| == |p.dram|
    ensures DramHas(p, a, 8) == DramHas(q, a, 8)
  {
  }

  lemma ZeroedStep(p: Phys, q: Phys, r: Phys, pa: int, n: nat)
    requires n > 0 && Zeroed(p, q, pa, n - 1) && r.rom == q.rom && |r.dram| == |q.dram|
    requires forall j: nat :: j < |p.dram| ==>
        r.dram[j] == if CoversByte(p, pa, n - 1, j) then 0 else q.dram[j]
    ensures Zeroed(p, r, pa, n)
  {
    hide CoversByte;
    forall j: nat | j < |p.dram|
      ensures r.dram[j] == if exists m: nat :: m < n && CoversByte(p, pa, m, j) then 0 else p.dram[j]
    {
      if exists m: nat :: m < n && CoversByte(p, pa, m, j) {
        var m: nat :| m < n && CoversByte(p, pa, m, j);
        assert m < n - 1 || m == n - 1;
      }
    }
  }

  /** What a word of the memory-ordering opcode asks for. */
  datatype Ordering = GoesOn | ZeroBlock | Unknown

  /** FENCE and FENCE.I by their kind, the cache-block operations by their five bits from 20 on. */
  function OrderingOf(i: bv32): Ordering {
    if i & 0x707F == 0x000F || i & 0x707F == 0x100F then GoesOn
    else if i & 0x707F != 0x200F then Unknown
    else
      var c := i & 0x1F0_0000;
      if c == 0 || c == 0x10_0000 || c == 0x20_0000 then GoesOn else if c == 0x40_0000 then ZeroBlock else Unknown
  }

  lemma OrderingCodes(i: bv32)
    requires i & 0x7F == 0x0F
    ensures Opcode(i) == 0x0F
    ensures OrderingOf(i).GoesOn? <==>
            (Funct3(i) == 0 || Funct3(i) == 1 || (Funct3(i) == 2 && (Rs2(i) == 0 || Rs2(i) == 1 || Rs2(i) == 2)))
    ensures OrderingOf(i).ZeroBlock? <==> Funct3(i) == 2 && Rs2(i) == 4
  {
  }

  lemma BlockAndRest(x: bv64)
    ensures Added(Block(x), Meet(x, 0x3F)) == x
  {
  }

  lemma BlockBefore(x: bv64)
    ensures AtMost(Block(x), x)
  {
  }

  lemma SixtyFourths(x: bv64)
    ensures Added(C.ShiftLeft(C.ShiftRight(x, 6), 6), Meet(x, 0x3F)) == x && Below(Meet(x, 0x3F), 0x40)
  {
  }

  lemma SixtyFour()
    ensures Unsigned(0x40) == 64 && C.Index(6) == 6 && Pow2(6) == 64
  {
  }

  /** The start of the 64-byte block of an address. */
  function BlockStart(x: bv64): (va: u64) { Unsigned(x) / 64 * 64 }

  lemma BlockNumber(x: bv64)
    ensures Num(Block(x)) == BlockStart(x)
  {
    hide Block, Unsigned, C.ShiftLeft, C.ShiftRight, C.Index, Pow2, Num, Added, Meet, AtMost, Below;
    NumIs(Block(x));
    BlockAndRest(x);
    BlockBefore(x);
    SixtyFourths(x);
    SixtyFour();
    OrderNumber(Block(x), x);
    OrderNumber(Meet(x, 0x3F), 0x40);
    LowPart(x, Meet(x, 0x3F), 6);
    AddNumber(Block(x), Meet(x, 0x3F));
    Reduced(Unsigned(Block(x)) + Unsigned(Meet(x, 0x3F)));
  }

  lemma ExecuteOrdering(h: Hart, i: bv32, len: bv64, o: Oracle)
    requires i & 0x7F == 0x0F
    ensures Execute(h, i, len, o) ==
            match OrderingOf(i)
            case GoesOn => Next(Goto(h, Plus(h.pc, len)))
            case ZeroBlock => CboZero(h, Block(X(h, Rs1(i))), len)
            case Unknown => Illegal(h, i)
  {
    hide Execute, Opcode, Funct3, Rs1, Rs2, X, Plus, CboZero, Block, Illegal, OrderingOf;
    OrderingCodes(i);
    ExecuteFloatAccess(h, i, len, o);
  }

  /** The fences go on. CBO.ZERO translates the start of the 64-byte block of its address as a store does and zeroes the
      eight doublewords there, as far as DRAM takes them; the reservation stays. Other words are illegal. */
  lemma OrderingOperations(h: Hart, i: bv32, len: bv64, o: Oracle)
    requires i & 0x7F == 0x0F
    ensures var out := Execute(h, i, len, o);
      var target := Unsigned(h.pc) + Unsigned(len);
      match OrderingOf(i)
      case GoesOn => Leaves(h, out, 0, 0, target)
      case Unknown => out == Raise(h, Exc(PT.IllegalInstruction), i as bv64)
      case ZeroBlock =>
        var c := SpaceOf(h);
        var va := BlockStart(Operand1(h, i));
        var t := PT.Translate(h.mem, va, PT.Store, c.mode, c.satp, c.mstatus);
        match t.result
        case Err(e) =>
          out.Raise? && out.hart == h.(mem := t.mem) && out.trap == Exc(e) && Unsigned(out.tval) == va
        case Ok(pa) =>
          && out.Next? && Zeroed(t.mem, out.hart.mem, pa, 8)
          && Leaves(h.(mem := out.hart.mem), out, 0, 0, target)
  {
    hide Execute, OrderingOf, Block, X, Rs1, Operand1, Plus, Unsigned, Leaves, PT.Translate, SpaceOf, Locate, ZeroWords,
         Zeroed, Num, BlockStart;
    ExecuteOrdering(h, i, len, o);
    OperandsAre(h, i);
    PcAfter(h, len);
    NoRegister(h, Plus(h.pc, len), Unsigned(h.pc) + Unsigned(len));
    var va := Block(Operand1(h, i));
    BlockNumber(Operand1(h, i));
    NumIs(va);
    AM.LocatedIs(h, va, PT.Store);
    var t := AM.Located(h, va, PT.Store);
    if OrderingOf(i).ZeroBlock? && t.result.Ok? {
      ZeroedWords(t.mem, t.result.value, 8);
      NoRegister(h.(mem := ZeroWords(t.mem, t.result.value, 8)), Plus(h.pc, len), Unsigned(h.pc) + Unsigned(len));
    }
  }
}
