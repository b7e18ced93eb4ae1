/** What branches, jumps, immediates, loads and stores do, in integers. */
module ControlMeaning {
  import opened Words
  import opened WordNumbers
  import opened WordBits
  import opened HartState
  import opened BitManipulation
  import opened Standard
  import opened ArithmeticMeaning
  import opened InstructionMeaning
  import opened Immediates
  import ID = ImmediateDecoding
  import C = CarryLess
  import CF = CsrFile
  import PT = PageTable
  import VA = VirtualAccess

  const F_MASK: bv32 := 0x707F

  lemma OpcodeAndKind(i: bv32)
    ensures Opcode(i) == (i & 0x7F) as bv7 && Funct3(i) == ((i >> 12) & 0x7) as bv3
    ensures var m := i & F_MASK; Opcode(i) == (m & 0x7F) as bv7 && Funct3(i) == ((m >> 12) & 0x7) as bv3
  {
  }

  // ----- Branches -----

  /** Whether BEQ, BNE, BLT, BGE, BLTU or BGEU is taken. */
  function Taken(m: bv32, x: bv64, y: bv64): Option<bool> {
    if m == 0x0063 then Some(x == y)
    else if m == 0x1063 then Some(x != y)
    else if m == 0x4063 then Some(Signed(x) < Signed(y))
    else if m == 0x5063 then Some(Signed(x) >= Signed(y))
    else if m == 0x6063 then Some(Unsigned(x) < Unsigned(y))
    else if m == 0x7063 then Some(Unsigned(x) >= Unsigned(y))
    else None
  }

  lemma TakenIs(m: bv32, f3: bv3, x: bv64, y: bv64)
    requires f3 == ((m >> 12) & 0x7) as bv3 && m & 0x7F == 0x63 && m & F_MASK == m
    ensures Branches(f3, x, y) == Taken(m, x, y)
  {
    hide Less, Signed, Unsigned;
    LessIff(x, y);
    BelowIs(x, y);
    OrderNumber(x, y);
    NotBelowIs(x, y);
  }

  lemma NotBelowIs(x: bv64, y: bv64)
    ensures x >= y <==> AtMost(y, x)
    ensures x < y <==> !AtMost(y, x)
  {
  }

  /** The sum of the pc and an immediate. */
  lemma PcPlus(h: Hart, imm: bv64)
    ensures Unsigned(Plus(h.pc, imm)) == (Unsigned(h.pc) + Signed(imm)) % TWO_64
  {
    hide Unsigned, Signed;
    PcAfter(h, imm);
    SignedIsNear(imm);
    Shifted(Unsigned(h.pc) + Unsigned(imm), if Signed(imm) < 0 then 1 else 0);
  }

  lemma Shifted(a: int, c: int)
    ensures (a - c * TWO_64) % TWO_64 == a % TWO_64
  {
    SplitAt(a, TWO_64);
    DivModUnique(a - c * TWO_64, TWO_64, a / TWO_64 - c, a % TWO_64);
  }

  lemma ExecuteBranch(h: Hart, i: bv32, len: bv64, o: Oracle)
    requires Opcode(i) == 0x63
    ensures Execute(h, i, len, o) == Branch(h, i, len)
  {
    hide Opcode, Branch;
  }

  lemma NoRegister(h: Hart, pc: bv64, target: int)
    requires Unsigned(pc) == target % TWO_64
    ensures Leaves(h, Next(Goto(h, pc)), 0, 0, target)
  {
    hide Unsigned;
  }

  /** A branch changes nothing but the pc: it goes to the pc plus the signed offset exactly when its comparison holds,
      and behind itself otherwise; the two unassigned comparisons are illegal. */
  lemma BranchOperations(h: Hart, i: bv32, len: bv64, o: Oracle)
    requires i & 0x7F == 0x63
    ensures var t := Taken(i & F_MASK, Operand1(h, i), Operand2(h, i));
      var out := Execute(h, i, len, o);
      if t.None? then out == Raise(h, Exc(PT.IllegalInstruction), i as bv64)
      else Leaves(h, out, 0, 0, Unsigned(h.pc) + if t.value then ValueB(i) else Unsigned(len))
  {
    hide Execute, Opcode, Funct3, Operand1, Operand2, Unsigned, Signed, ValueB, Leaves, Taken, Branches, Rs1, Rs2, X,
         Plus, ImmB, Goto;
    OpcodeAndKind(i);
    ExecuteBranch(h, i, len, o);
    OperandsAre(h, i);
    MaskTwice(i);
    TakenIs(i & F_MASK, Funct3(i), Operand1(h, i), Operand2(h, i));
    PcPlus(h, ImmB(i));
    ImmediateB(i);
    PcAfter(h, len);
    NoRegister(h, Plus(h.pc, len), Unsigned(h.pc) + Unsigned(len));
    NoRegister(h, Plus(h.pc, ImmB(i)), Unsigned(h.pc) + ValueB(i));
  }

  lemma MaskTwice(i: bv32)
    ensures (i & F_MASK) & F_MASK == i & F_MASK && (i & F_MASK) & 0x7F == i & 0x7F
  {
  }

  // ----- Upper immediates and jumps -----

  lemma ExecutePlain(h: Hart, i: bv32, len: bv64, o: Oracle)
    ensures Opcode(i) == 0x37 ==> Execute(h, i, len, o) == Write1(h, Rd(i), ImmU(i), len)
    ensures Opcode(i) == 0x17 ==> Execute(h, i, len, o) == Write1(h, Rd(i), Plus(h.pc, ImmU(i)), len)
    ensures Opcode(i) == 0x6F ==> Execute(h, i, len, o) == Jump(h, Rd(i), Plus(h.pc, ImmJ(i)), len)
    ensures Opcode(i) == 0x67 ==>
        Execute(h, i, len, o) == Jump(h, Rd(i), Even(Plus(X(h, Rs1(i)), ImmI(i))), len)
  {
    hide Opcode, Rd, Rs1, X, ImmU, ImmJ, ImmI, Write1, Jump, Plus, Even;
  }

  /** LUI leaves the upper immediate, AUIPC its sum with the pc. */
  lemma UpperImmediates(h: Hart, i: bv32, len: bv64, o: Oracle)
    ensures i & 0x7F == 0x37
            ==> Leaves(h, Execute(h, i, len, o), Destination(i), ValueU(i), Unsigned(h.pc) + Unsigned(len))
    ensures i & 0x7F == 0x17
            ==> Leaves(h, Execute(h, i, len, o), Destination(i), Unsigned(h.pc) + ValueU(i),
                Unsigned(h.pc) + Unsigned(len))
  {
    hide Execute, Opcode, Rd, Unsigned, Signed, ValueU, Leaves, Plus, ImmU, Write1, Destination;
    OpcodeAndKind(i);
    ExecutePlain(h, i, len, o);
    ImmediateU(i);
    var target := Unsigned(h.pc) + Unsigned(len);
    if i & 0x7F == 0x37 {
      WriteLeaves(h, i, ImmU(i), len);
      SignedNumber(ImmU(i));
      Reduced(Unsigned(ImmU(i)));
      SameRemainder(h, Execute(h, i, len, o), Destination(i), Unsigned(ImmU(i)), ValueU(i), target);
    }
    if i & 0x7F == 0x17 {
      var v := Plus(h.pc, ImmU(i));
      WriteLeaves(h, i, v, len);
      PcPlus(h, ImmU(i));
      Reduced(Unsigned(v));
      SameRemainder(h, Execute(h, i, len, o), Destination(i), Unsigned(v), Unsigned(h.pc) + ValueU(i), target);
    }
  }

  lemma JumpLeaves(h: Hart, i: bv32, target: bv64, len: bv64)
    ensures Leaves(h, Jump(h, Rd(i), target, len), Destination(i), Unsigned(h.pc) + Unsigned(len), Unsigned(target))
  {
    hide SetX, Plus, Unsigned, Rd, Destination;
    SetIs(h, Rd(i), Plus(h.pc, len));
    FieldsAre(i);
    PcAfter(h, len);
    Reduced(Unsigned(target));
    Reduced(Unsigned(Plus(h.pc, len)));
  }

  lemma SameTarget(h: Hart, out: Outcome, rd: nat, v: int, s: int, t: int)
    requires Leaves(h, out, rd, v, s) && s % TWO_64 == t % TWO_64
    ensures Leaves(h, out, rd, v, t)
  {
  }

  lemma EvenParts(x: bv64)
    ensures Added(Even(x), Lowest(x)) == x && AtMost(Even(x), x)
  {
  }

  lemma EvenNumber(x: bv64)
    ensures Unsigned(Even(x)) == Unsigned(x) / 2 * 2
  {
    hide Unsigned, Even, Added, Lowest, AtMost;
    EvenParts(x);
    HalfNumber(x);
    OrderNumber(Even(x), x);
    AddNumber(Even(x), Lowest(x));
    Reduced(Unsigned(Even(x)) + Unsigned(Lowest(x)));
  }

  lemma SumPlus(x: bv64, imm: bv64)
    ensures Unsigned(Plus(x, imm)) == (Unsigned(x) + Signed(imm)) % TWO_64
  {
    hide Unsigned, Signed;
    AddNumber(x, imm);
    PlusIs(x, imm);
    hide Plus, Added;
    SignedIsNear(imm);
    Shifted(Unsigned(x) + Unsigned(imm), if Signed(imm) < 0 then 1 else 0);
  }

  /** JAL and JALR link to the address behind them; JAL goes to the pc plus the signed offset, JALR to the even part
      of the register's old value plus the signed offset. */
  lemma Jumps(h: Hart, i: bv32, len: bv64, o: Oracle)
    ensures i & 0x7F == 0x6F
            ==> Leaves(h, Execute(h, i, len, o), Destination(i), Unsigned(h.pc) + Unsigned(len),
                Unsigned(h.pc) + ValueJ(i))
    ensures i & 0x7F == 0x67
            ==> Leaves(h, Execute(h, i, len, o), Destination(i), Unsigned(h.pc) + Unsigned(len),
                (Unsigned(Operand1(h, i)) + ValueI(i)) % TWO_64 / 2 * 2)
  {
    hide Execute, Opcode, Rd, Unsigned, Signed, ValueJ, ValueI, Leaves, Plus, ImmJ, ImmI, Jump, Destination, Even, X,
         Operand1, Rs1;
    OpcodeAndKind(i);
    ExecutePlain(h, i, len, o);
    OperandsAre(h, i);
    ImmediateJ(i);
    ImmediateI(i);
    var link := Unsigned(h.pc) + Unsigned(len);
    if i & 0x7F == 0x6F {
      var t := Plus(h.pc, ImmJ(i));
      JumpLeaves(h, i, t, len);
      PcPlus(h, ImmJ(i));
      Reduced(Unsigned(t));
      SameTarget(h, Execute(h, i, len, o), Destination(i), link, Unsigned(t), Unsigned(h.pc) + ValueJ(i));
    }
    if i & 0x7F == 0x67 {
      var t := Plus(Operand1(h, i), ImmI(i));
      JumpLeaves(h, i, Even(t), len);
      SumPlus(Operand1(h, i), ImmI(i));
      EvenNumber(t);
    }
  }

  // ----- Immediate operations -----

  /** ADDI, SLTI, SLTIU and ADDIW. */
  function ImmediateInteger(m: bv32, x: bv64, imm: int): Option<int> {
    if m == 0x0013 then Some(Unsigned(x) + imm)
    else if m == 0x2013 then Some(Choose(Signed(x) < imm))
    else if m == 0x3013 then Some(Choose(Unsigned(x) < imm % TWO_64))
    else if m == 0x001B then Some(Wrapped(Unsigned(x) + imm, 32))
    else None
  }

  lemma ExecuteImmediate(h: Hart, i: bv32, len: bv64, o: Oracle)
    ensures Opcode(i) == 0x13 ==>
        Execute(h, i, len, o) == Write1(h, Rd(i), AluImm(i, Funct3(i), X(h, Rs1(i)), ImmI(i)), len)
    ensures Opcode(i) == 0x1B ==>
        Execute(h, i, len, o) == OrIllegal(h, i, Rd(i), AluImmW(i, Funct3(i), X(h, Rs1(i)), ImmI(i)), len)
  {
    hide Opcode, Rd, Funct3, Rs1, X, ImmI, AluImm, AluImmW, Write1, OrIllegal;
  }

  /** The value of a register-immediate word. */
  function Computed(i: bv32, x: bv64): Option<bv64> {
    if Opcode(i) == 0x13 then Some(AluImm(i, Funct3(i), x, ImmI(i)))
    else if Opcode(i) == 0x1B then AluImmW(i, Funct3(i), x, ImmI(i))
    else None
  }

  lemma ImmediateLeaves(h: Hart, i: bv32, len: bv64, o: Oracle, v: int)
    requires var r := Computed(i, Operand1(h, i)); r.Some? && Unsigned(r.value) == v % TWO_64
    ensures Leaves(h, Execute(h, i, len, o), Destination(i), v, Unsigned(h.pc) + Unsigned(len))
  {
    hide Execute, Opcode, Rd, Funct3, Rs1, X, AluImm, AluImmW, ImmI, Operand1, Destination, Unsigned, Leaves, Write1;
    ExecuteImmediate(h, i, len, o);
    OperandsAre(h, i);
    var value := Computed(i, Operand1(h, i)).value;
    WriteLeaves(h, i, value, len);
    Reduced(Unsigned(value));
    SameRemainder(h, Execute(h, i, len, o), Destination(i), Unsigned(value), v, Unsigned(h.pc) + Unsigned(len));
  }

  lemma ImmediateDecode(i: bv32, f3: bv3, x: bv64, imm: bv64)
    ensures f3 == 0 ==> AluImm(i, f3, x, imm) == Plus(x, imm)
    ensures f3 == 2 ==> AluImm(i, f3, x, imm) == Flag(Less(x, imm))
    ensures f3 == 3 ==> AluImm(i, f3, x, imm) == Flag(Below(x, imm))
    ensures f3 == 6 ==> AluImm(i, f3, x, imm) == Or(x, imm)
    ensures f3 == 7 ==> AluImm(i, f3, x, imm) == And(x, imm)
    ensures f3 == 4 && Imm12(i) != 0x287 ==> AluImm(i, f3, x, imm) == C.Xor(x, imm)
    ensures f3 == 0 ==> AluImmW(i, f3, x, imm) == Some(Widen(Add32(Low32(x), Low32(imm))))
  {
    BelowIs(x, imm);
    hide Plus, Less, Below, Or, And, C.Xor, Widen, Add32, Low32, Imm12, AluImmLeft, AluImmRight, Flag;
  }

  lemma ImmediateValue(i: bv32, x: bv64)
    requires ImmediateInteger(i & F_MASK, x, ValueI(i)).Some?
    ensures var r := Computed(i, x);
      r.Some? && Unsigned(r.value) == ImmediateInteger(i & F_MASK, x, ValueI(i)).value % TWO_64
  {
    hide AluImm, AluImmW, Plus, Less, Below, Unsigned, Signed, ValueI, ImmI, Wrapped, Add32, Low32, Widen, Flag, Choose,
         Word, Opcode, Funct3;
    var imm := ImmI(i);
    OpcodeAndKind(i);
    ImmediateI(i);
    ImmediateDecode(i, Funct3(i), x, imm);
    SumPlus(x, imm);
    LessIff(x, imm);
    OrderNumber(x, imm);
    SignedNumber(imm);
    FlagNumber(Signed(x) < Signed(imm));
    FlagNumber(Unsigned(x) < Unsigned(imm));
    Reduced(Choose(Signed(x) < Signed(imm)));
    Reduced(Choose(Unsigned(x) < Unsigned(imm)));
    if i & F_MASK == 0x001B {
      WordSum(x, imm);
    }
  }

  lemma WordSum(x: bv64, imm: bv64)
    ensures Unsigned(Widen(Add32(Low32(x), Low32(imm)))) == Wrapped(Unsigned(x) + Signed(imm), 32) % TWO_64
  {
    hide Unsigned, Signed, Wrapped, Add32, Low32, Widen, Word;
    LowWord(x, 0);
    LowWord(imm, 0);
    Sums32(Low32(x), Low32(imm));
    SignedNumber(imm);
    NarrowMod(Signed(imm));
    TwoRemainders(Unsigned(x), Signed(imm));
    WidenedNumber(Add32(Low32(x), Low32(imm)), Unsigned(x) + Signed(imm));
  }

  lemma TwoRemainders(a: int, b: int)
    ensures (a % 0x1_0000_0000 + b % 0x1_0000_0000) % 0x1_0000_0000 == (a + b) % 0x1_0000_0000
  {
    ModSum32(a % 0x1_0000_0000, b);
    ModSum32(b, a);
  }

  /** ADDI adds the signed immediate; SLTI and SLTIU compare with it, SLTIU with its residue modulo 2^64; ADDIW adds
      and keeps the low 32 bits in two's complement. */
  lemma ImmediateOperations(h: Hart, i: bv32, len: bv64, o: Oracle)
    ensures var e := ImmediateInteger(i & F_MASK, Operand1(h, i), ValueI(i));
      e.Some? ==> Leaves(h, Execute(h, i, len, o), Destination(i), e.value, Unsigned(h.pc) + Unsigned(len))
  {
    hide Execute, Computed, Operand1, Destination, Unsigned, Leaves, ImmediateInteger, ValueI;
    var e := ImmediateInteger(i & F_MASK, Operand1(h, i), ValueI(i));
    if e.Some? {
      ImmediateValue(i, Operand1(h, i));
      ImmediateLeaves(h, i, len, o, e.value);
    }
  }

  const S_MASK: bv32 := 0xFC00_707F

  /** SLLI, SRLI and SRAI with the six-bit amount of the word. */
  function ShiftInteger(m: bv32, x: bv64, n: nat): Option<int> {
    if m == 0x0000_1013 then Some(Unsigned(x) * Pow2(n))
    else if m == 0x0000_5013 then Some(Unsigned(x) / Pow2(n))
    else if m == 0x4000_5013 then Some(Signed(x) / Pow2(n))
    else None
  }

  /** SLLIW, SRLIW and SRAIW with the five-bit amount of the word, before they are cut to 32 bits and sign-extended. */
  function WordShiftInteger(m: bv32, x: bv64, n: nat): Option<int> {
    if m == 0x0000_101B then Some(UnsignedLow(x) * Pow2(n))
    else if m == 0x0000_501B then Some(UnsignedLow(x) / Pow2(n))
    else if m == 0x4000_501B then Some(SignedLow(x) / Pow2(n))
    else None
  }

  lemma ShiftDecode(i: bv32, x: bv64)
    ensures i & S_MASK == 0x0000_1013 ==> Computed(i, x) == Some(C.ShiftLeft(x, ID.Shamt6(i)))
    ensures i & S_MASK == 0x0000_5013 ==> Computed(i, x) == Some(C.ShiftRight(x, ID.Shamt6(i)))
    ensures i & S_MASK == 0x4000_5013 ==> Computed(i, x) == Some(Sra(x, ID.Shamt6(i)))
  {
    ShiftCodes(i);
    ID.ShamtOfImmediate(i);
    hide Opcode, Funct3, Funct7, Imm12, C.ShiftLeft, C.ShiftRight, Sra, ImmI, ID.Shamt6, Shamt;
  }

  lemma ShiftCodes(i: bv32)
    ensures i & S_MASK == 0x0000_1013 ==>
        Opcode(i) == 0x13 && Funct3(i) == 1 && (Funct7(i) == 0 || Funct7(i) == 1) && Imm12(i) < 0x40
    ensures i & S_MASK == 0x0000_5013 ==>
        && Opcode(i) == 0x13 && Funct3(i) == 5 && (Funct7(i) == 0 || Funct7(i) == 1) && Imm12(i) < 0x40
        && i & 0x4000_0000 == 0
    ensures i & S_MASK == 0x4000_5013 ==>
        && Opcode(i) == 0x13 && Funct3(i) == 5 && (Funct7(i) == 0x20 || Funct7(i) == 0x21)
        && 0x400 <= Imm12(i) < 0x440 && i & 0x4000_0000 != 0
  {
  }

  lemma WordShiftDecode(i: bv32, x: bv64)
    ensures i & R_MASK == 0x0000_101B ==> Computed(i, x) == Some(Widen(ShiftLeft32(Low32(x), ID.Shamt5(i))))
    ensures i & R_MASK == 0x0000_501B ==> Computed(i, x) == Some(Widen(ShiftRight32(Low32(x), ID.Shamt5(i))))
    ensures i & R_MASK == 0x4000_501B ==> Computed(i, x) == Some(Widen(Sra32(Low32(x), ID.Shamt5(i))))
  {
    WordShiftCodes(i);
    ID.ShamtOfImmediate(i);
    hide Opcode, Funct3, Funct7, Imm12, ShiftLeft32, ShiftRight32, Sra32, ImmI, ID.Shamt5, Shamt32, Low32, Widen;
  }

  lemma WordShiftCodes(i: bv32)
    ensures i & R_MASK == 0x0000_101B ==>
        Opcode(i) == 0x1B && Funct3(i) == 1 && Funct7(i) == 0 && Imm12(i) < 0x20
    ensures i & R_MASK == 0x0000_501B ==>
        Opcode(i) == 0x1B && Funct3(i) == 5 && Imm12(i) < 0x20 && i & 0x4000_0000 == 0
    ensures i & R_MASK == 0x4000_501B ==>
        Opcode(i) == 0x1B && Funct3(i) == 5 && 0x400 <= Imm12(i) < 0x420 && i & 0x4000_0000 != 0
  {
  }

  function Amount6(i: bv32): nat { ((i >> 20) & 0x3F) as bv6 as int }

  function Amount5(i: bv32): nat { ((i >> 20) & 0x1F) as bv5 as int }

  lemma ShiftValue(i: bv32, x: bv64)
    requires ShiftInteger(i & S_MASK, x, Amount6(i)).Some?
    ensures var r := Computed(i, x);
      r.Some? && Unsigned(r.value) == ShiftInteger(i & S_MASK, x, Amount6(i)).value % TWO_64
  {
    hide Computed, C.ShiftLeft, C.ShiftRight, Sra, Unsigned, Signed, Pow2;
    ShiftDecode(i, x);
    ShiftNumbers(x, ID.Shamt6(i));
    SraNumber(x, ID.Shamt6(i));
    SignedNumber(Sra(x, ID.Shamt6(i)));
    Reduced(Unsigned(C.ShiftRight(x, ID.Shamt6(i))));
    assert Position(ID.Shamt6(i)) == Amount6(i);
  }

  lemma WordShiftValues(i: bv32, x: bv64)
    requires WordShiftInteger(i & R_MASK, x, Amount5(i)).Some?
    ensures var r := Computed(i, x);
      r.Some? && Unsigned(r.value) == Wrapped(WordShiftInteger(i & R_MASK, x, Amount5(i)).value, 32) % TWO_64
  {
    hide Computed, ShiftLeft32, ShiftRight32, Sra32, Low32, Widen, Unsigned, Signed, Pow2, Word, Wrapped, UnsignedLow,
         SignedLow;
    WordShiftDecode(i, x);
    LowOperand(x);
    var v, n := Low32(x), ID.Shamt5(i);
    var e := WordShiftInteger(i & R_MASK, x, Amount5(i)).value;
    assert n as int == Amount5(i);
    Shifts32(v, n);
    Sra32Number(v, n);
    if i & R_MASK == 0x0000_101B {
      WidenedNumber(ShiftLeft32(v, n), e);
    } else if i & R_MASK == 0x0000_501B {
      SmallRemainder(Word(ShiftRight32(v, n)));
      WidenedNumber(ShiftRight32(v, n), e);
    } else {
      WidenedNumber(Sra32(v, n), e);
    }
  }

  /** The shifts by an immediate amount multiply or divide by its power of two, on 64 or on 32 bits. */
  lemma ImmediateShifts(h: Hart, i: bv32, len: bv64, o: Oracle)
    ensures var e := ShiftInteger(i & S_MASK, Operand1(h, i), Amount6(i));
      e.Some? ==> Leaves(h, Execute(h, i, len, o), Destination(i), e.value, Unsigned(h.pc) + Unsigned(len))
    ensures var e := WordShiftInteger(i & R_MASK, Operand1(h, i), Amount5(i));
      e.Some?
      ==> Leaves(h, Execute(h, i, len, o), Destination(i), Wrapped(e.value, 32), Unsigned(h.pc) + Unsigned(len))
  {
    hide Execute, Computed, Operand1, Destination, Unsigned, Leaves, ShiftInteger, WordShiftInteger, Amount5, Amount6,
         Wrapped;
    var d := ShiftInteger(i & S_MASK, Operand1(h, i), Amount6(i));
    if d.Some? {
      ShiftValue(i, Operand1(h, i));
      ImmediateLeaves(h, i, len, o, d.value);
    }
    var w := WordShiftInteger(i & R_MASK, Operand1(h, i), Amount5(i));
    if w.Some? {
      WordShiftValues(i, Operand1(h, i));
      ImmediateLeaves(h, i, len, o, Wrapped(w.value, 32));
    }
  }

  /** Bit `k` of the result of ANDI, ORI and XORI, for the operand and the residue of the immediate modulo 2^64. */
  function ImmediateBit(m: bv32, a: bool, b: bool): Option<bool> {
    if m == 0x7013 then Some(a && b)
    else if m == 0x6013 then Some(a || b)
    else if m == 0x4013 then Some(a != b)
    else None
  }

  lemma LogicCodes(i: bv32)
    ensures i & F_MASK == 0x7013 ==> Opcode(i) == 0x13 && Funct3(i) == 7
    ensures i & F_MASK == 0x6013 ==> Opcode(i) == 0x13 && Funct3(i) == 6
    ensures i & F_MASK == 0x4013 ==> Opcode(i) == 0x13 && Funct3(i) == 4
    ensures Imm12(i) == ((i >> 20) & 0xFFF) as bv12
  {
  }

  lemma ImmediateLogicValue(i: bv32, x: bv64, k: nat)
    requires k < 64 && (i >> 20) & 0xFFF != 0x287
    requires ImmediateBit(i & F_MASK, true, true).Some?
    ensures Computed(i, x).Some?
    ensures ImmediateBit(i & F_MASK, BitAt(x, k), BitAt(ImmI(i), k)) == Some(BitAt(Computed(i, x).value, k))
  {
    hide AluImm, AluImmW, Or, And, C.Xor, BitAt, ImmI, Opcode, Funct3, Imm12;
    LogicCodes(i);
    ImmediateDecode(i, Funct3(i), x, ImmI(i));
    LogicBits(x, ImmI(i), k);
  }

  lemma ImmediateLogicResult(i: bv32, x: bv64) returns (value: bv64)
    requires (i >> 20) & 0xFFF != 0x287 && ImmediateBit(i & F_MASK, true, true).Some?
    ensures Computed(i, x) == Some(value) && Unsigned(value) == Unsigned(value) % TWO_64
    ensures forall k: nat :: k < 64 ==>
        ImmediateBit(i & F_MASK, BitAt(x, k), BitAt(ImmI(i), k)) == Some(BitAt(value, k))
  {
    hide Computed, ImmediateBit, BitAt, Unsigned, ImmI;
    ImmediateLogicValue(i, x, 0);
    value := Computed(i, x).value;
    Reduced(Unsigned(value));
    forall k: nat | k < 64
      ensures ImmediateBit(i & F_MASK, BitAt(x, k), BitAt(ImmI(i), k)) == Some(BitAt(value, k))
    {
      ImmediateLogicValue(i, x, k);
    }
  }

  /** ANDI, ORI and XORI work on every bit by itself; XORI with 0x287 is the documented exception. */
  lemma ImmediateLogic(h: Hart, i: bv32, len: bv64, o: Oracle)
    requires (i >> 20) & 0xFFF != 0x287 && ImmediateBit(i & F_MASK, true, true).Some?
    ensures var out := Execute(h, i, len, o);
      var rd := Destination(i);
      && out.Next?
      && Leaves(h, out, rd, Unsigned(out.hart.regs[rd]), Unsigned(h.pc) + Unsigned(len))
      && forall k: nat :: k < 64 && rd != 0 ==>
          ImmediateBit(i & F_MASK, BitAt(Operand1(h, i), k), BitAt(Wrap(ValueI(i)), k))
          == Some(BitAt(out.hart.regs[rd], k))
  {
    hide Execute, Computed, Operand1, Destination, Unsigned, Leaves, ImmediateBit, BitAt, ImmI, ValueI, Wrap, Signed;
    ImmediateI(i);
    WrapNumber(ValueI(i));
    SignedNumber(ImmI(i));
    SameNumber(ImmI(i), Wrap(ValueI(i)));
    var value := ImmediateLogicResult(i, Operand1(h, i));
    ImmediateLeaves(h, i, len, o, Unsigned(value));
    LeavesItself(h, Execute(h, i, len, o), Destination(i), value, Unsigned(h.pc) + Unsigned(len));
  }
}
