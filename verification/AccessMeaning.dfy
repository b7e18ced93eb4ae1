/** What loads, stores and atomic instructions do to the registers and the memory, in integers and single bits. */
module AccessMeaning {
  import opened Words
  import opened WordNumbers
  import opened WordBits
  import opened Memory
  import opened HartState
  import opened BitManipulation
  import opened Standard
  import opened ArithmeticMeaning
  import opened InstructionMeaning
  import opened Immediates
  import opened ControlMeaning
  import CF = CsrFile
  import PT = PageTable
  import VA = VirtualAccess

  /** The address space of the hart: its mode, SATP and MSTATUS. */
  function SpaceOf(h: Hart): VA.Context {
    VA.Context(h.mode, Num(CF.Read(h.csr, 0x180)), Num(CF.Read(h.csr, 0x300)))
  }

  /** An address plus an offset, modulo 2^64. */
  function Address(base: bv64, offset: int): (va: u64) {
    (Unsigned(base) + offset) % TWO_64
  }

  lemma SpaceIs(h: Hart)
    ensures Space(h) == SpaceOf(h)
  {
    hide CF.Read;
  }

  lemma NumIs(x: bv64)
    ensures Num(x) == Unsigned(x)
  {
  }

  lemma WideNumber(v: nat)
    ensures Unsigned(Wide(v)) == v % TWO_64
  {
    FromNumber(v % TWO_64);
  }

  // ----- Loads -----

  /** The width of LB, LH, LW, LD, LBU, LHU and LWU in bytes, and whether they extend the sign. */
  function LoadKind(m: bv32): Option<(nat, bool)> {
    if m == 0x0003 then Some((1, true))
    else if m == 0x1003 then Some((2, true))
    else if m == 0x2003 then Some((4, true))
    else if m == 0x3003 then Some((8, true))
    else if m == 0x4003 then Some((1, false))
    else if m == 0x5003 then Some((2, false))
    else if m == 0x6003 then Some((4, false))
    else None
  }

  lemma LoadCodes(i: bv32)
    ensures i & 0x7F == 0x03 ==> Opcode(i) == 0x03
    ensures i & F_MASK == 0x7003 ==> i & 0x7F == 0x03 && Funct3(i) == 7
    ensures LoadKind(i & F_MASK).Some? ==>
        i & 0x7F == 0x03 && Funct3(i) != 7 && WidthOf(Funct3(i)) == LoadKind(i & F_MASK).value.0
  {
    OpcodeAndKind(i);
    hide Opcode, Funct3;
  }

  lemma ExecuteLoad(h: Hart, i: bv32, len: bv64, o: Oracle)
    ensures Opcode(i) == 0x03 ==>
        Execute(h, i, len, o) == if Funct3(i) == 7 then Illegal(h, i)
                                 else LoadX(h, Funct3(i), Rd(i), Plus(X(h, Rs1(i)), ImmI(i)), len)
    ensures Opcode(i) == 0x23 ==>
        Execute(h, i, len, o)
        == if Funct3(i) >= 4 then Illegal(h, i)
           else StoreV(h, Plus(X(h, Rs1(i)), ImmS(i)), X(h, Rs2(i)), WidthOf(Funct3(i)), len)
    ensures Opcode(i) == 0x2F ==> Execute(h, i, len, o) == Atomic(h, i, len)
  {
    hide Opcode, Funct3, Rd, Rs1, Rs2, X, ImmI, ImmS, LoadX, StoreV, Plus, Illegal, Atomic, WidthOf;
  }

  lemma RemainderOfPower(v: nat, n: nat)
    requires 0 < n <= 64
    ensures v % TWO_64 % Pow2(n) == v % Pow2(n) && Wrapped(v % TWO_64, n) == Wrapped(v, n)
  {
    hide Pow2;
    Powers();
    PowerAdds(n, 64 - n);
    NestedRemainder(v, Pow2(n), Pow2(64 - n));
    hide Wrapped;
    WrappedLow(v, n);
    WrappedLow(v % TWO_64, n);
  }

  lemma NestedRemainder(v: nat, p: nat, q: nat)
    requires p > 0 && q > 0 && p * q == TWO_64
    ensures v % TWO_64 % p == v % p
  {
    var c, r := v / TWO_64, v % TWO_64;
    SplitAt(r, p);
    assert v == (p * q) * c + r;
    Nested(p, q, c, r / p);
    assert v == p * (q * c + r / p) + r % p;
    DivModUnique(v, p, q * c + r / p, r % p);
  }

  /** What a load leaves in the register for the bytes it has read. */
  lemma ExtendNumber(f3: bv3, v: nat, m: bv32)
    requires f3 == ((m >> 12) & 0x7) as bv3 && LoadKind(m).Some?
    ensures var (n, signed) := LoadKind(m).value;
      Unsigned(Extend(f3, Wide(v))) == (if signed then Wrapped(v, 8 * n) else v) % TWO_64
  {
    hide Wide, Signed8, Signed16, Signed32, Unsigned, Signed, Wrapped, Pow2;
    WideNumber(v);
    var x := Wide(v);
    SignExtensions(x);
    SignedNumber(Signed8(x));
    SignedNumber(Signed16(x));
    SignedNumber(Signed32(x));
    RemainderOfPower(v, 8);
    RemainderOfPower(v, 16);
    RemainderOfPower(v, 32);
    Reduced(v % TWO_64);
    WholeWord(v);
  }

  lemma WholeWord(v: nat)
    ensures Wrapped(v, 64) % TWO_64 == v % TWO_64
  {
    Powers();
    hide Pow2;
    SplitAt(v + TWO_63, TWO_64);
    Shifted(v, (v + TWO_63) / TWO_64);
  }

  lemma LoadLeaves(h: Hart, i: bv32, f3: bv3, va: bv64, len: bv64)
    ensures var l := LoadFrom(h, va, WidthOf(f3));
      var k := h.(mem := l.mem);
      var out := LoadX(h, f3, Rd(i), va, len);
      && (l.result.Err? ==> out == Raise(k, Exc(l.result.error), va))
      && (l.result.Ok? ==> Leaves(k, out, Destination(i), Unsigned(Extend(f3, Wide(l.result.value))),
          Unsigned(h.pc) + Unsigned(len)))
  {
    hide LoadFrom, Extend, Wide, WidthOf, Write1, Rd, Destination, Unsigned, Leaves;
    var l := LoadFrom(h, va, WidthOf(f3));
    var k := h.(mem := l.mem);
    if l.result.Ok? {
      WriteLeaves(k, i, Extend(f3, Wide(l.result.value)), len);
    }
  }

  lemma LoadFromIs(h: Hart, va: bv64, n: nat)
    ensures LoadFrom(h, va, n) == VA.LoadVa(h.mem, SpaceOf(h), Num(va), n)
  {
    hide VA.LoadVa, Space, SpaceOf, Num;
    SpaceIs(h);
  }

  ghost predicate LoadsFrom(h: Hart, va: u64, kind: (nat, bool), rd: nat, out: Outcome, target: int)
    requires 0 < kind.0
  {
    var l := VA.LoadVa(h.mem, SpaceOf(h), va, kind.0);
    var k := h.(mem := l.mem);
    match l.result
    case Err(e) => out.Raise? && out.hart == k && out.trap == Exc(e) && Unsigned(out.tval) == va
    case Ok(v) => Leaves(k, out, rd, if kind.1 then Wrapped(v, 8 * kind.0) else v, target)
  }

  /** A load reads as many bytes as its width from the register plus the signed offset, modulo 2^64. It leaves their
      number in the register, or the integer they denote in two's complement; a fault changes only the memory the
      translations have marked and reports the address. */
  lemma Loads(h: Hart, i: bv32, len: bv64, o: Oracle)
    requires LoadKind(i & F_MASK).Some?
    ensures LoadsFrom(h, Address(Operand1(h, i), ValueI(i)), LoadKind(i & F_MASK).value, Destination(i),
                Execute(h, i, len, o), Unsigned(h.pc) + Unsigned(len))
  {
    hide Execute, Opcode, Funct3, Rd, Rs1, Rs2, X, Plus, ImmI, LoadX, Unsigned, Signed, Operand1, Operand2, ValueI,
         Destination, Leaves, VA.LoadVa, SpaceOf, LoadFrom, Num, WidthOf, Extend, Wide, Wrapped;
    OpcodeAndKind(i);
    LoadCodes(i);
    ExecuteLoad(h, i, len, o);
    OperandsAre(h, i);
    var va := Plus(Operand1(h, i), ImmI(i));
    SumPlus(Operand1(h, i), ImmI(i));
    NumIs(va);
    ImmediateI(i);
    var n := LoadKind(i & F_MASK).value.0;
    LoadLeaves(h, i, Funct3(i), va, len);
    LoadFromIs(h, va, n);
    var l := LoadFrom(h, va, n);
    if l.result.Ok? {
      var v := l.result.value;
      var loaded := Unsigned(Extend(Funct3(i), Wide(v)));
      var meant := if LoadKind(i & F_MASK).value.1 then Wrapped(v, 8 * n) else v;
      ExtendNumber(Funct3(i), v, i & F_MASK);
      Reduced(loaded);
      SameRemainder(h.(mem := l.mem), Execute(h, i, len, o), Destination(i), loaded, meant,
          Unsigned(h.pc) + Unsigned(len));
    }
  }

  // ----- Stores -----

  /** The width of SB, SH, SW and SD in bytes. */
  function StoreWidth(m: bv32): Option<nat> {
    if m == 0x0023 then Some(1)
    else if m == 0x1023 then Some(2)
    else if m == 0x2023 then Some(4)
    else if m == 0x3023 then Some(8)
    else None
  }

  lemma StoreCodes(i: bv32)
    requires StoreWidth(i & F_MASK).Some?
    ensures Opcode(i) == 0x23 && Funct3(i) < 4 && WidthOf(Funct3(i)) == StoreWidth(i & F_MASK).value
  {
    OpcodeAndKind(i);
    hide Opcode, Funct3;
  }

  lemma StoreToIs(h: Hart, va: bv64, v: bv64, n: nat)
    ensures StoreTo(h, va, v, n) == VA.StoreVa(h.mem, SpaceOf(h), Num(va), Num(v), n)
  {
    hide VA.StoreVa, Space, SpaceOf, Num;
    SpaceIs(h);
  }

  ghost predicate StoresTo(h: Hart, va: u64, v: bv64, n: nat, out: Outcome, target: int) {
    var s := VA.StoreVa(h.mem, SpaceOf(h), va, Num(v), n);
    match s.result
    case Err(e) => out.Raise? && out.hart == h.(mem := s.mem) && out.trap == Exc(e) && Unsigned(out.tval) == va
    case Ok(_) => Leaves(h.(mem := s.mem, reservation := None), out, 0, 0, target)
  }

  /** A store writes the lowest bytes of the second register at the first register plus the signed offset, modulo 2^64,
      drops the reservation and goes on; a fault keeps the reservation, leaves the memory as the bytes before it have
      made it and reports the address. */
  lemma Stores(h: Hart, i: bv32, len: bv64, o: Oracle)
    requires StoreWidth(i & F_MASK).Some?
    ensures StoresTo(h, Address(Operand1(h, i), ValueS(i)), Operand2(h, i), StoreWidth(i & F_MASK).value,
                Execute(h, i, len, o), Unsigned(h.pc) + Unsigned(len))
  {
    hide Execute, Opcode, Funct3, Rd, Rs1, Rs2, X, Plus, ImmS, Unsigned, Signed, Operand1, Operand2, ValueS, Leaves,
         VA.StoreVa, SpaceOf, StoreTo, WidthOf, StoreWidth, Goto, Num;
    StoreCodes(i);
    ExecuteLoad(h, i, len, o);
    OperandsAre(h, i);
    var va := Plus(Operand1(h, i), ImmS(i));
    SumPlus(Operand1(h, i), ImmS(i));
    NumIs(va);
    ImmediateS(i);
    StoreToIs(h, va, Operand2(h, i), StoreWidth(i & F_MASK).value);
    PcAfter(h, len);
    var s := StoreTo(h, va, Operand2(h, i), StoreWidth(i & F_MASK).value);
    NoRegister(h.(mem := s.mem, reservation := None), Plus(h.pc, len), Unsigned(h.pc) + Unsigned(len));
  }
}