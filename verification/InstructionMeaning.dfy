/** What the instructions do to the registers and the pc, in integers and single bits of the assembled words. */
module InstructionMeaning {
  import opened Words
  import opened WordNumbers
  import opened WordBits
  import opened HartState
  import opened BitManipulation
  import opened Standard
  import opened ArithmeticMeaning
  import C = CarryLess

  // ----- The three registers of a word, and what it leaves -----

  function Destination(i: bv32): (r: nat) ensures r < 32 { ((i >> 7) & 0x1F) as bv5 as int }

  function Operand1(h: Hart, i: bv32): bv64 { Register(h, ((i >> 15) & 0x1F) as bv5) }

  function Operand2(h: Hart, i: bv32): bv64 { Register(h, ((i >> 20) & 0x1F) as bv5) }

  /** Register 0 reads as zero. */
  function Register(h: Hart, r: bv5): bv64 {
    if r == 0 then 0 else h.regs[r as int]
  }

  /** The instruction completes with `v` modulo 2^64 in register `rd`, unless that is register 0, the other registers
      as they were, and the pc at `target` modulo 2^64. */
  ghost predicate Leaves(h: Hart, out: Outcome, rd: nat, v: int, target: int) {
    && out.Next?
    && out.hart == h.(pc := out.hart.pc, regs := out.hart.regs)
    && Unsigned(out.hart.pc) == target % TWO_64
    && forall r: nat :: r < 32 ==>
        if r == rd && r != 0 then Unsigned(out.hart.regs[r]) == v % TWO_64 else out.hart.regs[r] == h.regs[r]
  }

  lemma RegistersAre(h: Hart, r: bv5)
    ensures X(h, r) == Register(h, r)
  {
  }

  lemma FieldsAre(i: bv32)
    ensures Rd(i) as int == Destination(i) && Rs1(i) == ((i >> 15) & 0x1F) as bv5 && Rs2(i) == ((i >> 20) & 0x1F) as bv5
  {
  }

  lemma OperandsAre(h: Hart, i: bv32)
    ensures X(h, Rs1(i)) == Operand1(h, i) && X(h, Rs2(i)) == Operand2(h, i)
  {
    hide X, Register, Rs1, Rs2;
    FieldsAre(i);
    RegistersAre(h, Rs1(i));
    RegistersAre(h, Rs2(i));
  }

  lemma PcAfter(h: Hart, len: bv64)
    ensures Unsigned(Plus(h.pc, len)) == (Unsigned(h.pc) + Unsigned(len)) % TWO_64
  {
    AddNumber(h.pc, len);
    assert Plus(h.pc, len) == Added(h.pc, len);
    hide Plus, Added, Unsigned;
  }

  lemma SetIs(h: Hart, rd: bv5, v: bv64)
    ensures var k := SetX(h, rd, v);
      && k == h.(regs := k.regs)
      && forall r: nat :: r < 32 ==> k.regs[r] == if r == rd as int && r != 0 then v else h.regs[r]
  {
  }

  lemma WriteLeaves(h: Hart, i: bv32, v: bv64, len: bv64)
    ensures Leaves(h, Write1(h, Rd(i), v, len), Destination(i), Unsigned(v), Unsigned(h.pc) + Unsigned(len))
  {
    hide SetX, Plus, Unsigned, Rd, Destination;
    SetIs(h, Rd(i), v);
    FieldsAre(i);
    PcAfter(h, len);
    Reduced(Unsigned(v));
  }

  lemma SameRemainder(h: Hart, out: Outcome, rd: nat, v: int, w: int, target: int)
    requires Leaves(h, out, rd, v, target) && v % TWO_64 == w % TWO_64
    ensures Leaves(h, out, rd, w, target)
  {
  }

  // ----- Decoding by mask and match -----

  const R_MASK: bv32 := 0xFE00_707F

  lemma MaskedFields(i: bv32)
    ensures var m := i & R_MASK;
      && Opcode(i) == (m & 0x7F) as bv7 && Funct3(i) == ((m >> 12) & 0x7) as bv3 && Funct7(i) == (m >> 25) as bv7
  {
  }

  lemma ExecuteRegister(h: Hart, i: bv32, len: bv64, o: Oracle)
    ensures Opcode(i) == 0x33 ==>
        Execute(h, i, len, o) == OrIllegal(h, i, Rd(i), Alu(Funct7(i), Funct3(i), X(h, Rs1(i)), X(h, Rs2(i))), len)
    ensures Opcode(i) == 0x3B ==>
        Execute(h, i, len, o) == OrIllegal(h, i, Rd(i), AluW(Funct7(i), Funct3(i), X(h, Rs1(i)), X(h, Rs2(i))), len)
  {
    hide Opcode, Rd, Funct3, Funct7, Rs1, Rs2, X, Alu, AluW, OrIllegal;
  }

  lemma RegisterLeaves(h: Hart, i: bv32, len: bv64, o: Oracle, value: bv64, v: int)
    requires Opcode(i) == 0x33 || Opcode(i) == 0x3B
    requires var x, y := Operand1(h, i), Operand2(h, i);
      Some(value) == if Opcode(i) == 0x33 then Alu(Funct7(i), Funct3(i), x, y) else AluW(Funct7(i), Funct3(i), x, y)
    requires Unsigned(value) == v % TWO_64
    ensures Leaves(h, Execute(h, i, len, o), Destination(i), v, Unsigned(h.pc) + Unsigned(len))
  {
    hide Execute, Opcode, Rd, Funct3, Funct7, Rs1, Rs2, X, Alu, AluW, Operand1, Operand2, Destination, Unsigned, Leaves,
         Write1;
    ExecuteRegister(h, i, len, o);
    OperandsAre(h, i);
    WriteLeaves(h, i, value, len);
    Reduced(Unsigned(value));
    SameRemainder(h, Execute(h, i, len, o), Destination(i), Unsigned(value), v, Unsigned(h.pc) + Unsigned(len));
  }

  // ----- Base operations on registers -----

  function Choose(b: bool): int { if b then 1 else 0 }

  /** ADD, SUB, SLL, SLT, SLTU, SRL and SRA, by the bits of the word that are not registers. */
  function BaseInteger(m: bv32, x: bv64, y: bv64): Option<int> {
    var n := Unsigned(y) % 64;
    if m == 0x0000_0033 then Some(Unsigned(x) + Unsigned(y))
    else if m == 0x4000_0033 then Some(Unsigned(x) - Unsigned(y))
    else if m == 0x0000_1033 then Some(Unsigned(x) * Pow2(n))
    else if m == 0x0000_2033 then Some(Choose(Signed(x) < Signed(y)))
    else if m == 0x0000_3033 then Some(Choose(Unsigned(x) < Unsigned(y)))
    else if m == 0x0000_5033 then Some(Unsigned(x) / Pow2(n))
    else if m == 0x4000_5033 then Some(Signed(x) / Pow2(n))
    else None
  }

  lemma PlusIs(x: bv64, y: bv64)
    ensures Plus(x, y) == Added(x, y)
  {
  }

  lemma MinusIs(x: bv64, y: bv64)
    ensures Minus(x, y) == Subtracted(x, y)
  {
  }

  lemma FlagNumber(b: bool)
    ensures Unsigned(Flag(b)) == Choose(b) && 0 <= Choose(b) < TWO_64
  {
    Bits0And1();
    hide Unsigned;
  }

  lemma SignedNumber(x: bv64)
    ensures Unsigned(x) == Signed(x) % TWO_64
  {
    hide Unsigned;
    Reduced(Signed(x));
  }

  lemma BelowIs(x: bv64, y: bv64)
    ensures x < y <==> Below(x, y)
  {
  }

  lemma BaseValue(m: bv32, f7: bv7, f3: bv3, x: bv64, y: bv64)
    requires f3 == ((m >> 12) & 0x7) as bv3 && f7 == (m >> 25) as bv7 && m & 0x7F == 0x33
    requires BaseInteger(m, x, y).Some?
    ensures Alu(f7, f3, x, y).Some? && Unsigned(Alu(f7, f3, x, y).value) == BaseInteger(m, x, y).value % TWO_64
  {
    hide Plus, Minus, Added, Subtracted, Flag, Less, Sra, Unsigned, Signed, C.ShiftLeft, C.ShiftRight, Shamt, C.Xor, Or,
         And, AluM, AluB, Pow2, Choose, Below;
    PlusIs(x, y);
    MinusIs(x, y);
    AddNumber(x, y);
    SubNumber(x, y);
    ShamtNumber(y);
    ShiftNumbers(x, Shamt(y));
    LessIff(x, y);
    BelowIs(x, y);
    OrderNumber(x, y);
    FlagNumber(Signed(x) < Signed(y));
    FlagNumber(Unsigned(x) < Unsigned(y));
    SraNumber(x, Shamt(y));
    SignedNumber(Sra(x, Shamt(y)));
    Reduced(Unsigned(C.ShiftRight(x, Shamt(y))));
    Reduced(Choose(Signed(x) < Signed(y)));
    Reduced(Choose(Unsigned(x) < Unsigned(y)));
  }

  /** Addition and subtraction are modulo 2^64, comparisons answer 1 or 0 by the signed or the unsigned order, and
      shifts multiply or divide by the power of two of the lowest six bits of the second operand, SRA rounding down. */
  lemma BaseOperations(h: Hart, i: bv32, len: bv64, o: Oracle)
    ensures var e := BaseInteger(i & R_MASK, Operand1(h, i), Operand2(h, i));
      e.Some? ==> Leaves(h, Execute(h, i, len, o), Destination(i), e.value, Unsigned(h.pc) + Unsigned(len))
  {
    hide Execute, Opcode, Funct3, Funct7, Alu, AluW, Operand1, Operand2, Destination, Unsigned, Leaves;
    MaskedFields(i);
    var e := BaseInteger(i & R_MASK, Operand1(h, i), Operand2(h, i));
    if e.Some? {
      BaseOpcode(i & R_MASK, Operand1(h, i), Operand2(h, i));
      BaseValue(i & R_MASK, Funct7(i), Funct3(i), Operand1(h, i), Operand2(h, i));
      RegisterLeaves(h, i, len, o, Alu(Funct7(i), Funct3(i), Operand1(h, i), Operand2(h, i)).value, e.value);
    }
  }

  lemma BaseOpcode(m: bv32, x: bv64, y: bv64)
    requires BaseInteger(m, x, y).Some?
    ensures m & 0x7F == 0x33
  {
  }

  // ----- Bitwise operations -----

  /** Bit `k` of the result of AND, OR, XOR, ANDN, ORN, XNOR, BSET, BCLR and BINV, from the operands. */
  function BitwiseBit(m: bv32, x: bv64, y: bv64, k: nat): Option<bool> {
    var a, b, here := BitAt(x, k), BitAt(y, k), k == Unsigned(y) % 64;
    if m == 0x0000_7033 then Some(a && b)
    else if m == 0x0000_6033 then Some(a || b)
    else if m == 0x0000_4033 then Some(a != b)
    else if m == 0x4000_7033 then Some(a && !b)
    else if m == 0x4000_6033 then Some(a || !b)
    else if m == 0x4000_4033 then Some(a == b)
    else if m == 0x2800_1033 then Some(a || here)
    else if m == 0x4800_1033 then Some(a && !here)
    else if m == 0x6800_1033 then Some(a != here)
    else None
  }

  ghost predicate LeavesBits(h: Hart, i: bv32, out: Outcome, len: bv64) {
    var rd := Destination(i);
    && out.Next?
    && Leaves(h, out, rd, Unsigned(out.hart.regs[rd]), Unsigned(h.pc) + Unsigned(len))
    && forall k: nat :: k < 64 && rd != 0 ==>
        BitwiseBit(i & R_MASK, Operand1(h, i), Operand2(h, i), k) == Some(BitAt(out.hart.regs[rd], k))
  }

  lemma AndIs(x: bv64, y: bv64)
    ensures And(x, y) == Meet(x, y)
  {
  }

  lemma OrIs(x: bv64, y: bv64)
    ensures Or(x, y) == Join(x, y)
  {
  }

  lemma XorIs(x: bv64, y: bv64)
    ensures C.Xor(x, y) == Differ(x, y)
  {
  }

  lemma AndNotIs(x: bv64, y: bv64)
    ensures AndNot(x, y) == Meet(x, Complement(y))
  {
    assert Complement(y) == !y;
    hide Complement;
  }

  lemma OrNotIs(x: bv64, y: bv64)
    ensures OrNot(x, y) == Join(x, Complement(y))
  {
    assert Complement(y) == !y;
    hide Complement;
  }

  lemma XorNotIs(x: bv64, y: bv64)
    ensures XorNot(x, y) == Differ(Complement(x), y)
  {
    assert Complement(x) == !x;
    hide Complement;
  }

  lemma SetBitIs(x: bv64, n: bv6)
    ensures SetBit(x, n) == Join(x, C.ShiftLeft(1, n))
  {
    assert C.ShiftLeft(1, n) == 1 << n;
    hide C.ShiftLeft;
  }

  lemma ClearBitIs(x: bv64, n: bv6)
    ensures ClearBit(x, n) == AndNot(x, C.ShiftLeft(1, n))
  {
    assert C.ShiftLeft(1, n) == 1 << n;
    hide C.ShiftLeft;
  }

  lemma InvertBitIs(x: bv64, n: bv6)
    ensures InvertBit(x, n) == Differ(x, C.ShiftLeft(1, n))
  {
    assert C.ShiftLeft(1, n) == 1 << n;
    hide C.ShiftLeft;
  }

  lemma PowerBelow(n: nat)
    requires n < 64
    ensures Pow2(n) < TWO_64
  {
    hide Pow2;
    PowerAdds(n, 64 - n);
    Powers();
    EvenPower(64 - n);
    LargerPower(Pow2(n), Pow2(64 - n));
  }

  /** A power of two has one bit. */
  lemma OneBit(n: bv6, k: nat)
    requires k < 64
    ensures BitAt(C.ShiftLeft(1, n), k) <==> k == Position(n)
  {
    hide Unsigned, Position, Pow2, C.ShiftLeft;
    Bits0And1();
    var p := Position(n);
    ShiftNumbers(1, n);
    PowerBelow(p);
    Reduced(Pow2(p));
    if k <= p {
      PowerAdds(k, p - k);
      DivModUnique(Pow2(p), Pow2(k), Pow2(p - k), 0);
      EvenPower(p - k);
    } else {
      PowerAdds(p, k - p);
      EvenPower(k - p);
      LargerPower(Pow2(p), Pow2(k - p));
      DivModUnique(Pow2(p), Pow2(k), 0, Pow2(p));
    }
  }

  lemma EvenPower(d: nat)
    ensures Pow2(d) % 2 == if d == 0 then 1 else 0
    ensures d > 0 ==> Pow2(d) >= 2
  {
    if d > 0 {
      var p := Pow2(d - 1);
      assert Pow2(d) == 2 * p;
      hide Pow2;
      DivModUnique(2 * p, 2, p, 0);
    }
  }

  lemma LargerPower(p: nat, q: nat)
    requires p > 0 && q >= 2
    ensures p < p * q
  {
    assert p * 2 <= p * q;
  }

  lemma BitwiseDecode(m: bv32, f7: bv7, f3: bv3, x: bv64, y: bv64)
    requires f3 == ((m >> 12) & 0x7) as bv3 && f7 == (m >> 25) as bv7
    ensures m == 0x0000_7033 ==> Alu(f7, f3, x, y) == Some(And(x, y))
    ensures m == 0x0000_6033 ==> Alu(f7, f3, x, y) == Some(Or(x, y))
    ensures m == 0x0000_4033 ==> Alu(f7, f3, x, y) == Some(C.Xor(x, y))
    ensures m == 0x4000_7033 ==> Alu(f7, f3, x, y) == Some(AndNot(x, y))
    ensures m == 0x4000_6033 ==> Alu(f7, f3, x, y) == Some(OrNot(x, y))
    ensures m == 0x4000_4033 ==> Alu(f7, f3, x, y) == Some(XorNot(x, y))
  {
    hide Shamt, C.Xor, Or, And, AndNot, OrNot, XorNot, SetBit, ClearBit, InvertBit;
  }

  lemma SingleBitDecode(m: bv32, f7: bv7, f3: bv3, x: bv64, y: bv64)
    requires f3 == ((m >> 12) & 0x7) as bv3 && f7 == (m >> 25) as bv7
    ensures m == 0x2800_1033 ==> Alu(f7, f3, x, y) == Some(SetBit(x, Shamt(y)))
    ensures m == 0x4800_1033 ==> Alu(f7, f3, x, y) == Some(ClearBit(x, Shamt(y)))
    ensures m == 0x6800_1033 ==> Alu(f7, f3, x, y) == Some(InvertBit(x, Shamt(y)))
  {
    hide Shamt, SetBit, ClearBit, InvertBit;
  }

  lemma LogicBits(x: bv64, y: bv64, k: nat)
    requires k < 64
    ensures BitAt(And(x, y), k) <==> BitAt(x, k) && BitAt(y, k)
    ensures BitAt(Or(x, y), k) <==> BitAt(x, k) || BitAt(y, k)
    ensures BitAt(C.Xor(x, y), k) <==> BitAt(x, k) != BitAt(y, k)
    ensures BitAt(AndNot(x, y), k) <==> BitAt(x, k) && !BitAt(y, k)
    ensures BitAt(OrNot(x, y), k) <==> BitAt(x, k) || !BitAt(y, k)
    ensures BitAt(XorNot(x, y), k) <==> BitAt(x, k) == BitAt(y, k)
  {
    hide C.Xor, Or, And, AndNot, OrNot, XorNot, Meet, Join, Differ, Complement, BitAt;
    AndIs(x, y);
    OrIs(x, y);
    XorIs(x, y);
    AndNotIs(x, y);
    OrNotIs(x, y);
    XorNotIs(x, y);
    BitwiseBits(x, y, k);
    BitwiseBits(x, Complement(y), k);
    BitwiseBits(Complement(x), y, k);
    ComplementBits(x, k);
    ComplementBits(y, k);
  }

  lemma SingleBits(x: bv64, n: bv6, k: nat)
    requires k < 64
    ensures BitAt(SetBit(x, n), k) <==> BitAt(x, k) || k == Position(n)
    ensures BitAt(ClearBit(x, n), k) <==> BitAt(x, k) && k != Position(n)
    ensures BitAt(InvertBit(x, n), k) <==> BitAt(x, k) != (k == Position(n))
  {
    hide C.ShiftLeft, SetBit, ClearBit, InvertBit, AndNot, Meet, Join, Differ, Complement, BitAt, Position;
    var bit := C.ShiftLeft(1, n);
    SetBitIs(x, n);
    ClearBitIs(x, n);
    InvertBitIs(x, n);
    AndNotIs(x, bit);
    OneBit(n, k);
    BitwiseBits(x, bit, k);
    BitwiseBits(x, Complement(bit), k);
    ComplementBits(bit, k);
  }

  lemma BitwiseValue(m: bv32, f7: bv7, f3: bv3, x: bv64, y: bv64, k: nat)
    requires f3 == ((m >> 12) & 0x7) as bv3 && f7 == (m >> 25) as bv7
    requires k < 64 && IsBitwise(m)
    ensures Alu(f7, f3, x, y).Some? && BitwiseBit(m, x, y, k) == Some(BitAt(Alu(f7, f3, x, y).value, k))
  {
    hide Alu, Shamt, C.Xor, Or, And, AndNot, OrNot, XorNot, SetBit, ClearBit, InvertBit, BitAt, Unsigned, Position;
    BitwiseDecode(m, f7, f3, x, y);
    SingleBitDecode(m, f7, f3, x, y);
    ShamtPosition(y);
    LogicBits(x, y, k);
    SingleBits(x, Shamt(y), k);
  }

  lemma ShamtPosition(y: bv64)
    ensures Position(Shamt(y)) == Unsigned(y) % 64
  {
    hide Shamt, Unsigned;
    ShamtNumber(y);
  }

  predicate IsBitwise(m: bv32) {
    || m == 0x0000_7033 || m == 0x0000_6033 || m == 0x0000_4033 || m == 0x4000_7033 || m == 0x4000_6033
    || m == 0x4000_4033 || m == 0x2800_1033 || m == 0x4800_1033 || m == 0x6800_1033
  }

  lemma BitwiseOpcode(m: bv32)
    requires IsBitwise(m)
    ensures m & 0x7F == 0x33
  {
  }

  /** AND, OR, XOR, their forms with a complemented operand, and the single-bit operations work on every bit by
      itself. */
  lemma BitwiseOperations(h: Hart, i: bv32, len: bv64, o: Oracle)
    requires IsBitwise(i & R_MASK)
    ensures LeavesBits(h, i, Execute(h, i, len, o), len)
  {
    hide Execute, Opcode, Funct3, Funct7, Alu, AluW, Operand1, Operand2, Destination, Unsigned, BitwiseBit, IsBitwise,
         BitAt, Leaves;
    MaskedFields(i);
    var m, x, y := i & R_MASK, Operand1(h, i), Operand2(h, i);
    BitwiseOpcode(m);
    var value := BitwiseResult(m, Funct7(i), Funct3(i), x, y);
    RegisterLeaves(h, i, len, o, value, Unsigned(value));
    BitsOfResult(h, i, Execute(h, i, len, o), len, value);
  }

  lemma BitwiseResult(m: bv32, f7: bv7, f3: bv3, x: bv64, y: bv64) returns (value: bv64)
    requires f3 == ((m >> 12) & 0x7) as bv3 && f7 == (m >> 25) as bv7
    requires IsBitwise(m)
    ensures Alu(f7, f3, x, y) == Some(value) && Unsigned(value) == Unsigned(value) % TWO_64
    ensures forall k: nat :: k < 64 ==> BitwiseBit(m, x, y, k) == Some(BitAt(value, k))
  {
    hide Alu, IsBitwise, BitwiseBit, BitAt, Unsigned;
    BitwiseValue(m, f7, f3, x, y, 0);
    value := Alu(f7, f3, x, y).value;
    Reduced(Unsigned(value));
    forall k: nat | k < 64
      ensures BitwiseBit(m, x, y, k) == Some(BitAt(value, k))
    {
      BitwiseValue(m, f7, f3, x, y, k);
    }
  }

  lemma BitsOfResult(h: Hart, i: bv32, out: Outcome, len: bv64, value: bv64)
    requires Leaves(h, out, Destination(i), Unsigned(value), Unsigned(h.pc) + Unsigned(len))
    requires forall k: nat :: k < 64 ==>
        BitwiseBit(i & R_MASK, Operand1(h, i), Operand2(h, i), k) == Some(BitAt(value, k))
    ensures LeavesBits(h, i, out, len)
  {
    hide Destination, Operand1, Operand2, Unsigned, BitwiseBit, BitAt, Leaves;
    LeavesItself(h, out, Destination(i), value, Unsigned(h.pc) + Unsigned(len));
  }

  lemma LeavesItself(h: Hart, out: Outcome, rd: nat, v: bv64, target: int)
    requires rd < 32 && Leaves(h, out, rd, Unsigned(v), target)
    ensures out.Next? && Leaves(h, out, rd, Unsigned(out.hart.regs[rd]), target)
    ensures rd != 0 ==> out.hart.regs[rd] == v
  {
    hide Unsigned;
    Reduced(Unsigned(v));
    Reduced(Unsigned(out.hart.regs[rd]));
    if rd != 0 {
      SameNumber(out.hart.regs[rd], v);
    }
  }

  // ----- Minimum and maximum, scaled sums, rotations, extraction -----

  /** MIN, MINU, MAX, MAXU, SH1ADD, SH2ADD, SH3ADD, ROL, ROR and BEXT. */
  function BitManipulationInteger(m: bv32, x: bv64, y: bv64): Option<int> {
    var u, v, a, b := Unsigned(x), Unsigned(y), Signed(x), Signed(y);
    var n := v % 64;
    if m == 0x0A00_4033 then Some(if a <= b then a else b)
    else if m == 0x0A00_5033 then Some(if u <= v then u else v)
    else if m == 0x0A00_6033 then Some(if a <= b then b else a)
    else if m == 0x0A00_7033 then Some(if u <= v then v else u)
    else if m == 0x2000_2033 then Some(2 * u + v)
    else if m == 0x2000_4033 then Some(4 * u + v)
    else if m == 0x2000_6033 then Some(8 * u + v)
    else if m == 0x6000_1033 then Some(u * Pow2(n) + u / Pow2(64 - n))
    else if m == 0x6000_5033 then Some(u / Pow2(n) + u * Pow2(64 - n))
    else if m == 0x4800_5033 then Some(u / Pow2(n) % 2)
    else None
  }

  lemma RotateIs(x: bv64, n: bv6)
    requires n != 0
    ensures RotateR(x, n) == Added(C.ShiftRight(x, n), C.ShiftLeft(x, 0 - n))
  {
  }

  lemma Opposite(n: bv6)
    ensures Position(0 - n) == if n == 0 then 0 else 64 - Position(n)
    ensures n == 0 <==> Position(n) == 0
  {
  }

  lemma ModSum(a: int, b: int)
    ensures (a + b % TWO_64) % TWO_64 == (a + b) % TWO_64
  {
    var q, r := b / TWO_64, b % TWO_64;
    SplitAt(a + r, TWO_64);
    DivModUnique(a + b, TWO_64, q + (a + r) / TWO_64, (a + r) % TWO_64);
  }

  /** A rotation to the right moves the lowest bits to the top. */
  lemma RotateNumber(x: bv64, n: bv6)
    ensures var p := Position(n);
      Unsigned(RotateR(x, n)) == (Unsigned(x) / Pow2(p) + Unsigned(x) * Pow2(64 - p)) % TWO_64
  {
    hide Unsigned, Added, C.ShiftLeft, C.ShiftRight, Position, Pow2;
    Opposite(n);
    SmallPowers();
    Powers();
    if n == 0 {
      DivModUnique(Unsigned(x) + Unsigned(x) * TWO_64, TWO_64, Unsigned(x), Unsigned(x));
    } else {
      hide RotateR;
      RotateIs(x, n);
      ShiftNumbers(x, n);
      ShiftNumbers(x, 0 - n);
      AddNumber(C.ShiftRight(x, n), C.ShiftLeft(x, 0 - n));
      ModSum(Unsigned(x) / Pow2(Position(n)), Unsigned(x) * Pow2(64 - Position(n)));
    }
  }

  lemma RotateLIs(x: bv64, n: bv6)
    ensures RotateL(x, n) == RotateR(x, 0 - n)
  {
  }

  /** A rotation to the left is one to the right by the rest. */
  lemma RotateLeftNumber(x: bv64, n: bv6)
    ensures var p := Position(n);
      Unsigned(RotateL(x, n)) == (Unsigned(x) * Pow2(p) + Unsigned(x) / Pow2(64 - p)) % TWO_64
  {
    hide Unsigned, Position, Pow2, RotateL, RotateR;
    Opposite(n);
    RotateLIs(x, n);
    RotateNumber(x, 0 - n);
    if n == 0 {
      SmallPowers();
      Powers();
      Unturned(Unsigned(x));
    }
  }

  lemma Unturned(u: nat)
    requires u < TWO_64
    ensures (u / 1 + u * TWO_64) % TWO_64 == (u * 1 + u / TWO_64) % TWO_64
  {
    DivModUnique(u, TWO_64, 0, u);
    DivModUnique(u + u * TWO_64, TWO_64, u, u);
  }

  lemma ShiftAddRaw(x: bv64, n: bv6, y: bv64)
    ensures ShiftAdd(x, n, y) == Added(x << n, y)
  {
  }

  lemma ShiftAddIs(x: bv64, n: bv6, y: bv64)
    ensures ShiftAdd(x, n, y) == Added(C.ShiftLeft(x, n), y)
  {
    assert C.ShiftLeft(x, n) == x << n;
    hide C.ShiftLeft, ShiftAdd, Added;
    ShiftAddRaw(x, n, y);
  }

  lemma ShiftAddNumber(x: bv64, n: bv6, y: bv64)
    ensures Unsigned(ShiftAdd(x, n, y)) == (Unsigned(x) * Pow2(Position(n)) + Unsigned(y)) % TWO_64
  {
    hide Unsigned, Added, ShiftAdd, C.ShiftLeft, Position, Pow2;
    ShiftAddIs(x, n, y);
    ShiftNumbers(x, n);
    AddNumber(C.ShiftLeft(x, n), y);
    ModSum(Unsigned(y), Unsigned(x) * Pow2(Position(n)));
  }

  lemma Scales()
    ensures Pow2(Position(1)) == 2 && Pow2(Position(2)) == 4 && Pow2(Position(3)) == 8
  {
    assert Position(1) == 1 && Position(2) == 2 && Position(3) == 3;
  }

  /** The three scales of the address computations. */
  lemma ScaledSums(x: bv64, y: bv64)
    ensures Unsigned(ShiftAdd(x, 1, y)) == (2 * Unsigned(x) + Unsigned(y)) % TWO_64
    ensures Unsigned(ShiftAdd(x, 2, y)) == (4 * Unsigned(x) + Unsigned(y)) % TWO_64
    ensures Unsigned(ShiftAdd(x, 3, y)) == (8 * Unsigned(x) + Unsigned(y)) % TWO_64
  {
    hide Unsigned, ShiftAdd, Position, Pow2;
    Scales();
    ShiftAddNumber(x, 1, y);
    ShiftAddNumber(x, 2, y);
    ShiftAddNumber(x, 3, y);
  }

  lemma ExtractIs(x: bv64, n: bv6)
    ensures ExtractBit(x, n) == Lowest(C.ShiftRight(x, n))
  {
  }

  lemma ExtractNumber(x: bv64, n: bv6)
    ensures Unsigned(ExtractBit(x, n)) == Unsigned(x) / Pow2(Position(n)) % 2
  {
    hide Unsigned, ExtractBit, C.ShiftRight, Lowest, Position;
    ExtractIs(x, n);
    ShiftNumbers(x, n);
    HalfNumber(C.ShiftRight(x, n));
  }

  lemma AtMostIs(x: bv64, y: bv64)
    ensures x <= y <==> AtMost(x, y)
  {
  }

  lemma MinMaxValue(m: bv32, f7: bv7, f3: bv3, x: bv64, y: bv64)
    requires f3 == ((m >> 12) & 0x7) as bv3 && f7 == (m >> 25) as bv7 && m & 0x7F == 0x33
    requires m == 0x0A00_4033 || m == 0x0A00_5033 || m == 0x0A00_6033 || m == 0x0A00_7033
    ensures Alu(f7, f3, x, y).Some?
    ensures Unsigned(Alu(f7, f3, x, y).value) == BitManipulationInteger(m, x, y).value % TWO_64
  {
    hide Less, Unsigned, Signed, AtMost, Pow2;
    LessIff(x, y);
    AtMostIs(x, y);
    OrderNumber(x, y);
    SignedNumber(x);
    SignedNumber(y);
    SameSigned(x, y);
    Reduced(Unsigned(x));
    Reduced(Unsigned(y));
  }

  lemma SameSigned(x: bv64, y: bv64)
    ensures Signed(x) == Signed(y) ==> x == y
  {
    hide Unsigned;
    if Signed(x) == Signed(y) {
      SameNumber(x, y);
    }
  }

  lemma OtherDecode(m: bv32, f7: bv7, f3: bv3, x: bv64, y: bv64)
    requires f3 == ((m >> 12) & 0x7) as bv3 && f7 == (m >> 25) as bv7
    ensures m == 0x2000_2033 ==> Alu(f7, f3, x, y) == Some(ShiftAdd(x, 1, y))
    ensures m == 0x2000_4033 ==> Alu(f7, f3, x, y) == Some(ShiftAdd(x, 2, y))
    ensures m == 0x2000_6033 ==> Alu(f7, f3, x, y) == Some(ShiftAdd(x, 3, y))
    ensures m == 0x6000_1033 ==> Alu(f7, f3, x, y) == Some(RotateL(x, Shamt(y)))
    ensures m == 0x6000_5033 ==> Alu(f7, f3, x, y) == Some(RotateR(x, Shamt(y)))
    ensures m == 0x4800_5033 ==> Alu(f7, f3, x, y) == Some(ExtractBit(x, Shamt(y)))
  {
    hide Shamt, ShiftAdd, RotateR, RotateL, ExtractBit;
  }

  lemma ScaledValue(m: bv32, f7: bv7, f3: bv3, x: bv64, y: bv64)
    requires f3 == ((m >> 12) & 0x7) as bv3 && f7 == (m >> 25) as bv7
    requires m == 0x2000_2033 || m == 0x2000_4033 || m == 0x2000_6033
    ensures Alu(f7, f3, x, y).Some?
    ensures Unsigned(Alu(f7, f3, x, y).value) == BitManipulationInteger(m, x, y).value % TWO_64
  {
    hide Alu, Unsigned, Signed, ShiftAdd, RotateR, RotateL, ExtractBit, Shamt, Position, Pow2;
    OtherDecode(m, f7, f3, x, y);
    ScaledSums(x, y);
  }

  lemma RotatedValue(m: bv32, f7: bv7, f3: bv3, x: bv64, y: bv64)
    requires f3 == ((m >> 12) & 0x7) as bv3 && f7 == (m >> 25) as bv7
    requires m == 0x6000_1033 || m == 0x6000_5033
    ensures Alu(f7, f3, x, y).Some?
    ensures Unsigned(Alu(f7, f3, x, y).value) == BitManipulationInteger(m, x, y).value % TWO_64
  {
    hide Alu, Unsigned, Signed, ShiftAdd, RotateR, RotateL, ExtractBit, Shamt, Position, Pow2;
    OtherDecode(m, f7, f3, x, y);
    ShamtPosition(y);
    RotateLeftNumber(x, Shamt(y));
    RotateNumber(x, Shamt(y));
  }

  lemma ExtractedValue(m: bv32, f7: bv7, f3: bv3, x: bv64, y: bv64)
    requires f3 == ((m >> 12) & 0x7) as bv3 && f7 == (m >> 25) as bv7
    requires m == 0x4800_5033
    ensures Alu(f7, f3, x, y).Some?
    ensures Unsigned(Alu(f7, f3, x, y).value) == BitManipulationInteger(m, x, y).value % TWO_64
  {
    hide Alu, Unsigned, Signed, ShiftAdd, RotateR, RotateL, ExtractBit, Shamt, Position, Pow2;
    OtherDecode(m, f7, f3, x, y);
    ShamtPosition(y);
    ExtractNumber(x, Shamt(y));
    Reduced(Unsigned(ExtractBit(x, Shamt(y))));
  }

  lemma BitManipulationValue(m: bv32, f7: bv7, f3: bv3, x: bv64, y: bv64)
    requires f3 == ((m >> 12) & 0x7) as bv3 && f7 == (m >> 25) as bv7
    requires BitManipulationInteger(m, x, y).Some?
    ensures Alu(f7, f3, x, y).Some?
    ensures Unsigned(Alu(f7, f3, x, y).value) == BitManipulationInteger(m, x, y).value % TWO_64
  {
    hide Alu, Unsigned, Signed, Pow2;
    if m == 0x0A00_4033 || m == 0x0A00_5033 || m == 0x0A00_6033 || m == 0x0A00_7033 {
      MinMaxValue(m, f7, f3, x, y);
    } else if m == 0x2000_2033 || m == 0x2000_4033 || m == 0x2000_6033 {
      ScaledValue(m, f7, f3, x, y);
    } else if m == 0x6000_1033 || m == 0x6000_5033 {
      RotatedValue(m, f7, f3, x, y);
    } else {
      ExtractedValue(m, f7, f3, x, y);
    }
  }

  lemma BitManipulationOpcode(m: bv32, x: bv64, y: bv64)
    requires BitManipulationInteger(m, x, y).Some?
    ensures m & 0x7F == 0x33
  {
    hide Unsigned, Signed;
  }

  /** The minimum and maximum by either order, sums with a scaled operand, rotations and single-bit extraction. */
  lemma BitManipulationOperations(h: Hart, i: bv32, len: bv64, o: Oracle)
    ensures var e := BitManipulationInteger(i & R_MASK, Operand1(h, i), Operand2(h, i));
      e.Some? ==> Leaves(h, Execute(h, i, len, o), Destination(i), e.value, Unsigned(h.pc) + Unsigned(len))
  {
    hide Execute, Opcode, Funct3, Funct7, Alu, AluW, Operand1, Operand2, Destination, Unsigned, Leaves;
    MaskedFields(i);
    var m, x, y := i & R_MASK, Operand1(h, i), Operand2(h, i);
    var e := BitManipulationInteger(m, x, y);
    if e.Some? {
      BitManipulationOpcode(m, x, y);
      BitManipulationValue(m, Funct7(i), Funct3(i), x, y);
      RegisterLeaves(h, i, len, o, Alu(Funct7(i), Funct3(i), x, y).value, e.value);
    }
  }

  // ----- Multiplication and division -----

  function Magnitude(a: int): nat { if a < 0 then -a else a }

  /** The quotient rounded toward zero. */
  function Truncated(a: int, b: int): int
    requires b != 0
  {
    var q := Magnitude(a) / Magnitude(b);
    if (a < 0) == (b < 0) then q else -q
  }

  /** MUL, MULH, MULHSU, MULHU, DIV, DIVU, REM and REMU; a quotient that leaves the range wraps. */
  function MultiplyInteger(m: bv32, x: bv64, y: bv64): Option<int> {
    var u, v, a, b := Unsigned(x), Unsigned(y), Signed(x), Signed(y);
    if m == 0x0200_0033 then Some(u * v)
    else if m == 0x0200_1033 then Some(a * b / 0x1_0000_0000_0000_0000)
    else if m == 0x0200_2033 then Some(a * v / 0x1_0000_0000_0000_0000)
    else if m == 0x0200_3033 then Some(u * v / 0x1_0000_0000_0000_0000)
    else if m == 0x0200_4033 then Some(if b == 0 then -1 else Truncated(a, b))
    else if m == 0x0200_5033 then Some(if v == 0 then -1 else u / v)
    else if m == 0x0200_6033 then Some(if b == 0 then a else a - b * Truncated(a, b))
    else if m == 0x0200_7033 then Some(if v == 0 then u else u % v)
    else None
  }

  lemma QuotientIs(a: int, b: int)
    requires b != 0
    ensures Quotient(a, b) == Truncated(a, b)
  {
    if a == 0 {
      DivModUnique(0, Magnitude(b), 0, 0);
    }
  }

  lemma ProductMod(a: int, b: int, u: int, v: int, c: int, d: int)
    requires a == u - c * TWO_64 && b == v - d * TWO_64
    ensures a * b % TWO_64 == u * v % TWO_64
  {
    var k := u * d + c * v - c * d * TWO_64;
    Expanded(u, v, c, d);
    SplitAt(a * b, TWO_64);
    DivModUnique(u * v, TWO_64, a * b / TWO_64 + k, a * b % TWO_64);
  }

  lemma Expanded(u: int, v: int, c: int, d: int)
    ensures (u - c * TWO_64) * (v - d * TWO_64) == u * v - TWO_64 * (u * d + c * v - c * d * TWO_64)
  {
    Distributes(u, c * TWO_64, v, d * TWO_64);
    Moved(u, d);
    Moved(v, c);
    Moved(c * TWO_64, d);
    Moved(c * d, 1);
  }

  lemma Distributes(u: int, s: int, v: int, t: int)
    ensures (u - s) * (v - t) == u * v - u * t - s * v + s * t
  {
  }

  lemma Moved(u: int, d: int)
    ensures u * (d * TWO_64) == TWO_64 * (u * d)
  {
  }

  lemma SignedIsNear(x: bv64)
    ensures Signed(x) == Unsigned(x) - (if Signed(x) < 0 then 1 else 0) * TWO_64
  {
    hide Unsigned;
  }

  lemma MulNumber(x: bv64, y: bv64)
    ensures Unsigned(MulLow(x, y)) == Unsigned(x) * Unsigned(y) % TWO_64
  {
    hide Unsigned, Signed, Wrap;
    WrapNumber(Signed(x) * Signed(y));
    SignedIsNear(x);
    SignedIsNear(y);
    ProductMod(Signed(x), Signed(y), Unsigned(x), Unsigned(y), if Signed(x) < 0 then 1 else 0,
        if Signed(y) < 0 then 1 else 0);
  }

  lemma ZeroIs(y: bv64)
    ensures Signed(y) == 0 <==> Unsigned(y) == 0
  {
    hide Unsigned;
  }

  /** The one overflow: -2^63 divided by -1. */
  lemma Overflow(x: bv64)
    requires Signed(x) == -TWO_63
    ensures Truncated(Signed(x), -1) == TWO_63 && Unsigned(x) == TWO_63
  {
    hide Unsigned, Signed;
    SignedNumber(x);
    Reduced(-TWO_63);
    DivModUnique(TWO_63, 1, TWO_63, 0);
  }

  lemma DivNumber(x: bv64, y: bv64)
    ensures var a, b := Signed(x), Signed(y);
      && Unsigned(Div(x, y)) == (if b == 0 then -1 else Truncated(a, b)) % TWO_64
      && Unsigned(Rem(x, y)) == (if b == 0 then a else a - b * Truncated(a, b)) % TWO_64
  {
    hide Unsigned, Signed, Wrap, Quotient, Truncated;
    var a, b := Signed(x), Signed(y);
    WrapNumber(-1);
    WrapNumber(0);
    SignedNumber(x);
    if b != 0 {
      QuotientIs(a, b);
      WrapNumber(Quotient(a, b));
      WrapNumber(Remainder(a, b));
      if a == -TWO_63 && b == -1 {
        Overflow(x);
        Reduced(TWO_63);
        Reduced(a - b * Truncated(a, b));
      }
    }
  }

  lemma DivUNumber(x: bv64, y: bv64)
    ensures var u, v := Unsigned(x), Unsigned(y);
      && Unsigned(DivU(x, y)) == (if v == 0 then -1 else u / v) % TWO_64
      && Unsigned(RemU(x, y)) == (if v == 0 then u else u % v) % TWO_64
  {
    hide Unsigned, Wrap;
    var u, v := Unsigned(x), Unsigned(y);
    WrapNumber(-1);
    Reduced(u);
    if v != 0 {
      WrapNumber(u / v);
      WrapNumber(u % v);
    }
  }

  lemma HighNumber(a: int, b: int)
    ensures Unsigned(MulHigh(a, b)) == a * b / 0x1_0000_0000_0000_0000 % TWO_64
  {
    hide Unsigned, Wrap;
    WrapNumber(a * b / TWO_64);
  }

  lemma MultiplyDecode(m: bv32, f7: bv7, f3: bv3, x: bv64, y: bv64)
    requires f3 == ((m >> 12) & 0x7) as bv3 && f7 == (m >> 25) as bv7
    ensures m == 0x0200_0033 ==> Alu(f7, f3, x, y) == Some(MulLow(x, y))
    ensures m == 0x0200_1033 ==> Alu(f7, f3, x, y) == Some(MulHigh(Signed(x), Signed(y)))
    ensures m == 0x0200_2033 ==> Alu(f7, f3, x, y) == Some(MulHigh(Signed(x), Unsigned(y)))
    ensures m == 0x0200_3033 ==> Alu(f7, f3, x, y) == Some(MulHigh(Unsigned(x), Unsigned(y)))
    ensures m == 0x0200_4033 ==> Alu(f7, f3, x, y) == Some(Div(x, y))
    ensures m == 0x0200_5033 ==> Alu(f7, f3, x, y) == Some(DivU(x, y))
    ensures m == 0x0200_6033 ==> Alu(f7, f3, x, y) == Some(Rem(x, y))
    ensures m == 0x0200_7033 ==> Alu(f7, f3, x, y) == Some(RemU(x, y))
  {
    hide MulLow, MulHigh, Signed, Unsigned, Div, DivU, Rem, RemU;
  }

  lemma MultiplyValue(m: bv32, f7: bv7, f3: bv3, x: bv64, y: bv64)
    requires f3 == ((m >> 12) & 0x7) as bv3 && f7 == (m >> 25) as bv7
    requires MultiplyInteger(m, x, y).Some?
    ensures Alu(f7, f3, x, y).Some? && Unsigned(Alu(f7, f3, x, y).value) == MultiplyInteger(m, x, y).value % TWO_64
  {
    hide Alu, MulLow, MulHigh, Signed, Unsigned, Div, DivU, Rem, RemU, Truncated;
    MultiplyDecode(m, f7, f3, x, y);
    MulNumber(x, y);
    HighNumber(Signed(x), Signed(y));
    HighNumber(Signed(x), Unsigned(y));
    HighNumber(Unsigned(x), Unsigned(y));
    DivNumber(x, y);
    DivUNumber(x, y);
  }

  lemma MultiplyOpcode(m: bv32, x: bv64, y: bv64)
    requires MultiplyInteger(m, x, y).Some?
    ensures m & 0x7F == 0x33
  {
    hide Unsigned, Signed, Truncated;
  }

  /** Products keep the low half or the high half of the exact product of the operands, signed or unsigned as each is
      meant; division rounds toward zero, with a quotient of -1 and the dividend as remainder for divisor 0. */
  lemma Multiplications(h: Hart, i: bv32, len: bv64, o: Oracle)
    ensures var e := MultiplyInteger(i & R_MASK, Operand1(h, i), Operand2(h, i));
      e.Some? ==> Leaves(h, Execute(h, i, len, o), Destination(i), e.value, Unsigned(h.pc) + Unsigned(len))
  {
    hide Execute, Opcode, Funct3, Funct7, Alu, AluW, Operand1, Operand2, Destination, Unsigned, Leaves, Truncated;
    MaskedFields(i);
    var m, x, y := i & R_MASK, Operand1(h, i), Operand2(h, i);
    var e := MultiplyInteger(m, x, y);
    if e.Some? {
      MultiplyOpcode(m, x, y);
      MultiplyValue(m, Funct7(i), Funct3(i), x, y);
      RegisterLeaves(h, i, len, o, Alu(Funct7(i), Funct3(i), x, y).value, e.value);
    }
  }

  // ----- Operations on 32-bit words -----

  /** The integer of the low half in two's complement, and without sign. */
  function SignedLow(x: bv64): int { Wrapped(Unsigned(x), 32) }

  function UnsignedLow(x: bv64): nat { Unsigned(x) % 0x1_0000_0000 }

  /** ADDW, SUBW, SLLW, SRLW, SRAW, MULW, DIVW, DIVUW, REMW, REMUW, ROLW and RORW before they are cut to 32 bits and
      sign-extended. */
  function WordInteger(m: bv32, x: bv64, y: bv64): Option<int> {
    var u, v, a, b := UnsignedLow(x), UnsignedLow(y), SignedLow(x), SignedLow(y);
    var n := Unsigned(y) % 32;
    if m == 0x0000_003B then Some(u + v)
    else if m == 0x4000_003B then Some(u - v)
    else if m == 0x0000_103B then Some(u * Pow2(n))
    else if m == 0x0000_503B then Some(u / Pow2(n))
    else if m == 0x4000_503B then Some(a / Pow2(n))
    else if m == 0x0200_003B then Some(a * b)
    else if m == 0x0200_403B then Some(if b == 0 then -1 else Truncated(a, b))
    else if m == 0x0200_503B then Some(if v == 0 then -1 else u / v)
    else if m == 0x0200_603B then Some(if b == 0 then a else a - b * Truncated(a, b))
    else if m == 0x0200_703B then Some(if v == 0 then u else u % v)
    else if m == 0x6000_103B then Some(u * Pow2(n) + u / Pow2(32 - n))
    else if m == 0x6000_503B then Some(u / Pow2(n) + u * Pow2(32 - n))
    else None
  }

  /** ADD.UW, SH1ADD.UW, SH2ADD.UW and SH3ADD.UW. */
  function UnsignedWordInteger(m: bv32, x: bv64, y: bv64): Option<int> {
    var u, v := UnsignedLow(x), Unsigned(y);
    if m == 0x0800_003B then Some(u + v)
    else if m == 0x2000_203B then Some(2 * u + v)
    else if m == 0x2000_403B then Some(4 * u + v)
    else if m == 0x2000_603B then Some(8 * u + v)
    else None
  }

  lemma WordDecode(m: bv32, f7: bv7, f3: bv3, x: bv64, y: bv64)
    requires f3 == ((m >> 12) & 0x7) as bv3 && f7 == (m >> 25) as bv7
    ensures var v, w, n := Low32(x), Low32(y), Shamt32(y);
      && (m == 0x0000_003B ==> AluW(f7, f3, x, y) == Some(Widen(Add32(v, w))))
      && (m == 0x4000_003B ==> AluW(f7, f3, x, y) == Some(Widen(Sub32(v, w))))
      && (m == 0x0000_103B ==> AluW(f7, f3, x, y) == Some(Widen(ShiftLeft32(v, n))))
      && (m == 0x0000_503B ==> AluW(f7, f3, x, y) == Some(Widen(ShiftRight32(v, n))))
      && (m == 0x4000_503B ==> AluW(f7, f3, x, y) == Some(Widen(Sra32(v, n))))
      && (m == 0x6000_103B ==> AluW(f7, f3, x, y) == Some(Widen(RotateL32(v, n))))
      && (m == 0x6000_503B ==> AluW(f7, f3, x, y) == Some(Widen(RotateR32(v, n))))
  {
    hide Low32, Widen, Add32, Sub32, ShiftLeft32, ShiftRight32, Sra32, RotateL32, RotateR32, Shamt32, AluMW;
  }

  lemma WordMultiplyDecode(m: bv32, f7: bv7, f3: bv3, x: bv64, y: bv64)
    requires f3 == ((m >> 12) & 0x7) as bv3 && f7 == (m >> 25) as bv7
    ensures var a, b, u, v := Widen(Low32(x)), Widen(Low32(y)), ZeroExtend(x), ZeroExtend(y);
      && (m == 0x0200_003B ==> AluW(f7, f3, x, y) == Some(Widen(Low32(MulLow(a, b)))))
      && (m == 0x0200_403B ==> AluW(f7, f3, x, y) == Some(Widen(Low32(Div(a, b)))))
      && (m == 0x0200_503B ==> AluW(f7, f3, x, y) == Some(Widen(Low32(DivU(u, v)))))
      && (m == 0x0200_603B ==> AluW(f7, f3, x, y) == Some(Widen(Low32(Rem(a, b)))))
      && (m == 0x0200_703B ==> AluW(f7, f3, x, y) == Some(Widen(Low32(RemU(u, v)))))
  {
    hide Low32, Widen, MulLow, Div, DivU, Rem, RemU, ZeroExtend;
  }

  lemma UnsignedWordDecode(m: bv32, f7: bv7, f3: bv3, x: bv64, y: bv64)
    requires f3 == ((m >> 12) & 0x7) as bv3 && f7 == (m >> 25) as bv7
    ensures m == 0x0800_003B ==> AluW(f7, f3, x, y) == Some(Plus(ZeroExtend(x), y))
    ensures m == 0x2000_203B ==> AluW(f7, f3, x, y) == Some(ShiftAdd(ZeroExtend(x), 1, y))
    ensures m == 0x2000_403B ==> AluW(f7, f3, x, y) == Some(ShiftAdd(ZeroExtend(x), 2, y))
    ensures m == 0x2000_603B ==> AluW(f7, f3, x, y) == Some(ShiftAdd(ZeroExtend(x), 3, y))
  {
    hide ShiftAdd, ZeroExtend, Plus;
  }

  lemma ZeroExtendIs(x: bv64)
    ensures ZeroExtend(x) == Meet(x, 0xFFFF_FFFF)
  {
  }

  lemma ZeroExtendNumber(x: bv64)
    ensures Unsigned(ZeroExtend(x)) == UnsignedLow(x)
  {
    hide ZeroExtend, Meet, Unsigned;
    ZeroExtendIs(x);
    LowNumbers(x);
  }

  lemma UnsignedWordValue(m: bv32, f7: bv7, f3: bv3, x: bv64, y: bv64)
    requires f3 == ((m >> 12) & 0x7) as bv3 && f7 == (m >> 25) as bv7
    requires UnsignedWordInteger(m, x, y).Some?
    ensures AluW(f7, f3, x, y).Some?
    ensures Unsigned(AluW(f7, f3, x, y).value) == UnsignedWordInteger(m, x, y).value % TWO_64
  {
    hide AluW, ShiftAdd, ZeroExtend, Plus, Added, Unsigned, UnsignedLow;
    UnsignedWordDecode(m, f7, f3, x, y);
    ZeroExtendNumber(x);
    PlusIs(ZeroExtend(x), y);
    AddNumber(ZeroExtend(x), y);
    ScaledSums(ZeroExtend(x), y);
  }

  /** Sums of an operand with the zero-extended, scaled low half of the other. */
  lemma UnsignedWordOperations(h: Hart, i: bv32, len: bv64, o: Oracle)
    ensures var e := UnsignedWordInteger(i & R_MASK, Operand1(h, i), Operand2(h, i));
      e.Some? ==> Leaves(h, Execute(h, i, len, o), Destination(i), e.value, Unsigned(h.pc) + Unsigned(len))
  {
    hide Execute, Opcode, Funct3, Funct7, Alu, AluW, Operand1, Operand2, Destination, Unsigned, Leaves;
    MaskedFields(i);
    var m, x, y := i & R_MASK, Operand1(h, i), Operand2(h, i);
    var e := UnsignedWordInteger(m, x, y);
    if e.Some? {
      assert m & 0x7F == 0x3B;
      UnsignedWordValue(m, Funct7(i), Funct3(i), x, y);
      RegisterLeaves(h, i, len, o, AluW(Funct7(i), Funct3(i), x, y).value, e.value);
    }
  }

  lemma ModSum32(a: int, b: int)
    ensures (a + b % 0x1_0000_0000) % 0x1_0000_0000 == (a + b) % 0x1_0000_0000
  {
    var q, r := b / 0x1_0000_0000, b % 0x1_0000_0000;
    SplitAt(a + r, 0x1_0000_0000);
    DivModUnique(a + b, 0x1_0000_0000, q + (a + r) / 0x1_0000_0000, (a + r) % 0x1_0000_0000);
  }

  lemma Rotate32Is(x: bv32, n: bv5)
    requires n != 0
    ensures RotateR32(x, n) == Add32(ShiftRight32(x, n), ShiftLeft32(x, 0 - n))
  {
  }

  lemma Opposite32(n: bv5)
    ensures (0 - n) as int == (if n == 0 then 0 else 32 - n as int) && n as int < 32
    ensures n == 0 <==> n as int == 0
  {
  }

  lemma Unrotated(w: bv32)
    ensures RotateR32(w, 0) == w
  {
  }

  lemma Rotate32Number(w: bv32, n: bv5)
    requires 0 <= n as int < 32
    ensures var p := n as int; Word(RotateR32(w, n)) == (Word(w) / Pow2(p) + Word(w) * Pow2(32 - p)) % 0x1_0000_0000
  {
    hide Word, ShiftLeft32, ShiftRight32, Add32, Sub32, RotateR32, Pow2;
    Opposite32(n);
    if n == 0 {
      Unrotated(w);
      SmallPowers();
      Powers();
      DivModUnique(Word(w) + Word(w) * 0x1_0000_0000, 0x1_0000_0000, Word(w), Word(w));
    } else {
      Rotate32Is(w, n);
      Shifts32(w, n);
      Shifts32(w, 0 - n);
      Sums32(ShiftRight32(w, n), ShiftLeft32(w, 0 - n));
      ModSum32(Word(w) / Pow2(n as int), Word(w) * Pow2(32 - n as int));
    }
  }

  lemma RotateL32Is(w: bv32, n: bv5)
    ensures RotateL32(w, n) == RotateR32(w, 0 - n)
  {
  }

  lemma RotateLeft32Number(w: bv32, n: bv5)
    requires 0 <= n as int < 32
    ensures var p := n as int; Word(RotateL32(w, n)) == (Word(w) * Pow2(p) + Word(w) / Pow2(32 - p)) % 0x1_0000_0000
  {
    hide Word, RotateL32, RotateR32, Pow2;
    Opposite32(n);
    RotateL32Is(w, n);
    Rotate32Number(w, 0 - n);
    if n == 0 {
      SmallPowers();
      Powers();
      Unturned32(Word(w));
    }
  }

  lemma Unturned32(u: nat)
    requires u < 0x1_0000_0000
    ensures (u / 1 + u * 0x1_0000_0000) % 0x1_0000_0000 == (u * 1 + u / 0x1_0000_0000) % 0x1_0000_0000
  {
    DivModUnique(u, 0x1_0000_0000, 0, u);
    DivModUnique(u + u * 0x1_0000_0000, 0x1_0000_0000, u, u);
  }

  lemma LowOperand(x: bv64)
    ensures Word(Low32(x)) == UnsignedLow(x) && Wrapped(Word(Low32(x)), 32) == SignedLow(x)
    ensures Signed(Widen(Low32(x))) == SignedLow(x)
  {
    hide Low32, Widen, Word, Signed, Unsigned, Wrapped;
    LowWord(x, Low32(x));
    PowersOfWidths();
    hide Pow2;
    WrappedLow(Unsigned(x), 32);
  }

  /** A 32-bit result that is congruent to `e`, widened. */
  lemma WidenedNumber(w: bv32, e: int)
    requires Word(w) == e % 0x1_0000_0000
    ensures Unsigned(Widen(w)) == Wrapped(e, 32) % TWO_64
  {
    hide Widen, Word, Signed, Unsigned, Wrapped;
    LowWord(0, w);
    PowersOfWidths();
    hide Pow2;
    WrappedLow(e, 32);
    SignedNumber(Widen(w));
  }

  predicate IsWordMultiply(m: bv32) {
    m == 0x0200_003B || m == 0x0200_403B || m == 0x0200_503B || m == 0x0200_603B || m == 0x0200_703B
  }

  lemma MulSigned(x: bv64, y: bv64)
    ensures Unsigned(MulLow(x, y)) == Signed(x) * Signed(y) % TWO_64
  {
    hide Unsigned, Signed, Wrap;
    WrapNumber(Signed(x) * Signed(y));
  }

  lemma LowNumber(z: bv64, e: int)
    requires Unsigned(z) == e % TWO_64
    ensures Word(Low32(z)) == e % 0x1_0000_0000
  {
    hide Low32, Word, Unsigned;
    LowWord(z, 0);
    NarrowMod(e);
  }

  lemma WordMultiplyValue(m: bv32, f7: bv7, f3: bv3, x: bv64, y: bv64)
    requires f3 == ((m >> 12) & 0x7) as bv3 && f7 == (m >> 25) as bv7
    requires IsWordMultiply(m)
    ensures AluW(f7, f3, x, y).Some? && WordInteger(m, x, y).Some?
    ensures Unsigned(AluW(f7, f3, x, y).value) == Wrapped(WordInteger(m, x, y).value, 32) % TWO_64
  {
    hide AluW, Low32, Widen, MulLow, Div, DivU, Rem, RemU, ZeroExtend, SignedLow, UnsignedLow, Word, Signed, Unsigned,
         Wrapped, Truncated;
    WordMultiplyDecode(m, f7, f3, x, y);
    LowOperand(x);
    LowOperand(y);
    ZeroExtendNumber(x);
    ZeroExtendNumber(y);
    var a, b, u, v := Widen(Low32(x)), Widen(Low32(y)), ZeroExtend(x), ZeroExtend(y);
    var e := WordInteger(m, x, y).value;
    if m == 0x0200_003B {
      MulSigned(a, b);
      LowNumber(MulLow(a, b), e);
      WidenedNumber(Low32(MulLow(a, b)), e);
    } else if m == 0x0200_403B {
      DivNumber(a, b);
      LowNumber(Div(a, b), e);
      WidenedNumber(Low32(Div(a, b)), e);
    } else if m == 0x0200_503B {
      DivUNumber(u, v);
      LowNumber(DivU(u, v), e);
      WidenedNumber(Low32(DivU(u, v)), e);
    } else if m == 0x0200_603B {
      DivNumber(a, b);
      LowNumber(Rem(a, b), e);
      WidenedNumber(Low32(Rem(a, b)), e);
    } else {
      DivUNumber(u, v);
      LowNumber(RemU(u, v), e);
      WidenedNumber(Low32(RemU(u, v)), e);
    }
  }

  lemma WordShiftValue(m: bv32, f7: bv7, f3: bv3, x: bv64, y: bv64)
    requires f3 == ((m >> 12) & 0x7) as bv3 && f7 == (m >> 25) as bv7
    requires !IsWordMultiply(m) && WordInteger(m, x, y).Some?
    ensures AluW(f7, f3, x, y).Some?
    ensures Unsigned(AluW(f7, f3, x, y).value) == Wrapped(WordInteger(m, x, y).value, 32) % TWO_64
  {
    hide AluW, Low32, Widen, Add32, Sub32, ShiftLeft32, ShiftRight32, Sra32, RotateL32, RotateR32, Shamt32, SignedLow,
         UnsignedLow, Word, Unsigned, Wrapped, Pow2;
    WordDecode(m, f7, f3, x, y);
    LowOperand(x);
    LowOperand(y);
    ShamtNumber(y);
    var v, w, n := Low32(x), Low32(y), Shamt32(y);
    var e := WordInteger(m, x, y).value;
    if m == 0x0000_003B || m == 0x4000_003B {
      Sums32(v, w);
      WidenedNumber(if m == 0x0000_003B then Add32(v, w) else Sub32(v, w), e);
    } else if m == 0x0000_103B || m == 0x0000_503B {
      Shifts32(v, n);
      if m == 0x0000_103B {
        WidenedNumber(ShiftLeft32(v, n), e);
      } else {
        SmallRemainder(Word(ShiftRight32(v, n)));
        WidenedNumber(ShiftRight32(v, n), e);
      }
    } else if m == 0x4000_503B {
      Sra32Number(v, n);
      WidenedNumber(Sra32(v, n), e);
    } else if m == 0x6000_103B {
      RotateLeft32Number(v, n);
      WidenedNumber(RotateL32(v, n), e);
    } else {
      Rotate32Number(v, n);
      WidenedNumber(RotateR32(v, n), e);
    }
  }

  lemma SmallRemainder(a: int)
    requires 0 <= a < 0x1_0000_0000
    ensures a % 0x1_0000_0000 == a
  {
  }

  lemma WordOpcode(m: bv32, x: bv64, y: bv64)
    requires WordInteger(m, x, y).Some?
    ensures m & 0x7F == 0x3B
  {
    hide UnsignedLow, SignedLow, Truncated, Unsigned;
  }

  lemma WordValue(m: bv32, f7: bv7, f3: bv3, x: bv64, y: bv64)
    requires f3 == ((m >> 12) & 0x7) as bv3 && f7 == (m >> 25) as bv7
    requires WordInteger(m, x, y).Some?
    ensures AluW(f7, f3, x, y).Some?
    ensures Unsigned(AluW(f7, f3, x, y).value) == Wrapped(WordInteger(m, x, y).value, 32) % TWO_64
  {
    hide AluW, WordInteger, IsWordMultiply, Unsigned, Wrapped;
    if IsWordMultiply(m) {
      WordMultiplyValue(m, f7, f3, x, y);
    } else {
      WordShiftValue(m, f7, f3, x, y);
    }
  }

  /** The word operations work on the low halves of the operands; their result is cut to 32 bits and sign-extended. */
  lemma WordOperations(h: Hart, i: bv32, len: bv64, o: Oracle)
    ensures var e := WordInteger(i & R_MASK, Operand1(h, i), Operand2(h, i));
      e.Some?
      ==> Leaves(h, Execute(h, i, len, o), Destination(i), Wrapped(e.value, 32), Unsigned(h.pc) + Unsigned(len))
  {
    hide Execute, Opcode, Funct3, Funct7, Alu, AluW, Operand1, Operand2, Destination, Unsigned, Leaves, UnsignedLow,
         SignedLow, Truncated, Wrapped, WordInteger;
    MaskedFields(i);
    var m, x, y := i & R_MASK, Operand1(h, i), Operand2(h, i);
    var e := WordInteger(m, x, y);
    if e.Some? {
      WordOpcode(m, x, y);
      WordValue(m, Funct7(i), Funct3(i), x, y);
      RegisterLeaves(h, i, len, o, AluW(Funct7(i), Funct3(i), x, y).value, Wrapped(e.value, 32));
    }
  }
}