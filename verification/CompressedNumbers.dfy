/** The 16-bit instructions told by the single bits of their encodings. */
module CompressedNumbers {
  import opened Words
  import opened WordNumbers
  import opened WordBits
  import opened HartState
  import opened Standard
  import opened Compressed
  import opened ArithmeticMeaning
  import opened InstructionMeaning
  import opened ControlMeaning
  import opened AccessMeaning
  import CM = CompressedMeaning
  import FM = FloatMeaning
  import IMM = Immediates
  import C = CarryLess
  import PT = PageTable
  import VA = VirtualAccess

  /** The bit that `mask` selects, 0 or 1. */
  function B(c: bv16, mask: bv16): nat { if c & mask != 0 then 1 else 0 }

  // ----- Register fields -----

  /** Bits 11 to 7, and 6 to 2. */
  function RegA(c: bv16): (r: nat)
    ensures r < 32
  {
    16 * B(c, 0x800) + 8 * B(c, 0x400) + 4 * B(c, 0x200) + 2 * B(c, 0x100) + B(c, 0x80)
  }

  function RegB(c: bv16): (r: nat)
    ensures r < 32
  {
    16 * B(c, 0x40) + 8 * B(c, 0x20) + 4 * B(c, 0x10) + 2 * B(c, 0x8) + B(c, 0x4)
  }

  /** Eight more than bits 9 to 7, and 4 to 2. */
  function ShortA(c: bv16): (r: nat)
    ensures r < 32
  {
    8 + 4 * B(c, 0x200) + 2 * B(c, 0x100) + B(c, 0x80)
  }

  function ShortB(c: bv16): (r: nat)
    ensures r < 32
  {
    8 + 4 * B(c, 0x10) + 2 * B(c, 0x8) + B(c, 0x4)
  }

  lemma Fields(c: bv16)
    ensures Reg7(c) as int == RegA(c) && Reg2(c) as int == RegB(c)
    ensures Short7(c) as int == ShortA(c) && Short2(c) as int == ShortB(c)
  {
  }

  // ----- Immediates -----

  /** Bits 12 and 6 to 2, in two's complement. */
  function Small(c: bv16): int {
    16 * B(c, 0x40) + 8 * B(c, 0x20) + 4 * B(c, 0x10) + 2 * B(c, 0x8) + B(c, 0x4) - 32 * B(c, 0x1000)
  }

  /** The same bits without sign: a shift amount. */
  function Amount(c: bv16): nat {
    32 * B(c, 0x1000) + 16 * B(c, 0x40) + 8 * B(c, 0x20) + 4 * B(c, 0x10) + 2 * B(c, 0x8) + B(c, 0x4)
  }

  function WordOffset(c: bv16): nat {
    64 * B(c, 0x20) + 32 * B(c, 0x1000) + 16 * B(c, 0x800) + 8 * B(c, 0x400) + 4 * B(c, 0x40)
  }

  function DoubleOffset(c: bv16): nat {
    128 * B(c, 0x40) + 64 * B(c, 0x20) + 32 * B(c, 0x1000) + 16 * B(c, 0x800) + 8 * B(c, 0x400)
  }

  function WordStack(c: bv16): nat {
    128 * B(c, 0x8) + 64 * B(c, 0x4) + 32 * B(c, 0x1000) + 16 * B(c, 0x40) + 8 * B(c, 0x20) + 4 * B(c, 0x10)
  }

  function DoubleStack(c: bv16): nat {
    256 * B(c, 0x10) + 128 * B(c, 0x8) + 64 * B(c, 0x4) + 32 * B(c, 0x1000) + 16 * B(c, 0x40) + 8 * B(c, 0x20)
  }

  function WordStackStore(c: bv16): nat {
    128 * B(c, 0x100) + 64 * B(c, 0x80) + 32 * B(c, 0x1000) + 16 * B(c, 0x800) + 8 * B(c, 0x400) + 4 * B(c, 0x200)
  }

  function DoubleStackStore(c: bv16): nat {
    256 * B(c, 0x200) + 128 * B(c, 0x100) + 64 * B(c, 0x80) + 32 * B(c, 0x1000) + 16 * B(c, 0x800) + 8 * B(c, 0x400)
  }

  function StackAddress(c: bv16): nat {
    512 * B(c, 0x400) + 256 * B(c, 0x200) + 128 * B(c, 0x100) + 64 * B(c, 0x80) + 32 * B(c, 0x1000)
    + 16 * B(c, 0x800) + 8 * B(c, 0x20) + 4 * B(c, 0x40)
  }

  function StackStep(c: bv16): int {
    256 * B(c, 0x10) + 128 * B(c, 0x8) + 64 * B(c, 0x20) + 32 * B(c, 0x4) + 16 * B(c, 0x40) - 512 * B(c, 0x1000)
  }

  function JumpOffset(c: bv16): int {
    1024 * B(c, 0x100) + 512 * B(c, 0x400) + 256 * B(c, 0x200) + 128 * B(c, 0x40) + 64 * B(c, 0x80) + 32 * B(c, 0x4)
    + 16 * B(c, 0x800) + 8 * B(c, 0x20) + 4 * B(c, 0x10) + 2 * B(c, 0x8) - 2048 * B(c, 0x1000)
  }

  function BranchOffset(c: bv16): int {
    128 * B(c, 0x40) + 64 * B(c, 0x20) + 32 * B(c, 0x4) + 16 * B(c, 0x800) + 8 * B(c, 0x400) + 4 * B(c, 0x10)
    + 2 * B(c, 0x8) - 256 * B(c, 0x1000)
  }

  lemma Offsets(c: bv16)
    ensures Unsigned(ImmWord(c)) == WordOffset(c) && Unsigned(ImmDouble(c)) == DoubleOffset(c)
    ensures Unsigned(ImmShift(c)) == Amount(c)
  {
  }

  lemma LoadStackOffsets(c: bv16)
    ensures Unsigned(ImmWordSp(c)) == WordStack(c) && Unsigned(ImmDoubleSp(c)) == DoubleStack(c)
  {
  }

  lemma StoreStackOffsets(c: bv16)
    ensures Unsigned(ImmWordSpS(c)) == WordStackStore(c) && Unsigned(ImmDoubleSpS(c)) == DoubleStackStore(c)
  {
  }

  lemma StackAddressIs(c: bv16)
    ensures Unsigned(ImmAddi4spn(c)) == StackAddress(c)
  {
  }

  lemma SmallIs(c: bv16)
    ensures Signed(ImmSmall(c)) == Small(c)
  {
  }

  lemma StackStepIs(c: bv16)
    ensures Signed(ImmAddi16sp(c)) == StackStep(c)
  {
  }

  lemma UpperIs(c: bv16)
    ensures Signed(ImmLui(c)) == 4096 * Small(c)
  {
  }

  lemma JumpForward(c: bv16)
    requires c & 0x1000 == 0
    ensures Unsigned(ImmJump(c)) == JumpOffset(c)
  {
  }

  /** The eleven bits of a jump offset below its sign. */
  function JumpBits(c: bv16): bv64 { ImmJump(c) & 0x7FF }

  lemma JumpSplit(c: bv16)
    requires c & 0x1000 != 0
    ensures ImmJump(c) == Added(JumpBits(c), 0xFFFF_FFFF_FFFF_F800)
  {
  }

  lemma JumpBitsNumber(c: bv16)
    requires c & 0x1000 != 0
    ensures Unsigned(JumpBits(c)) == JumpOffset(c) + 2048
  {
  }

  lemma JumpBackward(c: bv16)
    requires c & 0x1000 != 0
    ensures Unsigned(ImmJump(c)) == TWO_64 + JumpOffset(c)
  {
    hide Unsigned, ImmJump, JumpBits, Added, JumpOffset;
    SmallOffset(c);
    JumpSplit(c);
    JumpBitsNumber(c);
    IMM.Masks();
    AddNumber(JumpBits(c), 0xFFFF_FFFF_FFFF_F800);
    Reduced(JumpOffset(c) + TWO_64);
  }

  lemma SmallOffset(c: bv16)
    requires c & 0x1000 != 0
    ensures -2048 <= JumpOffset(c) < 0
  {
  }

  lemma JumpIs(c: bv16)
    ensures Signed(ImmJump(c)) == JumpOffset(c)
  {
    hide Unsigned, ImmJump;
    if c & 0x1000 == 0 {
      JumpForward(c);
    } else {
      JumpBackward(c);
    }
  }

  lemma BranchForward(c: bv16)
    requires c & 0x1000 == 0
    ensures Unsigned(ImmBranch(c)) == BranchOffset(c)
  {
  }

  lemma BranchBackward(c: bv16)
    requires c & 0x1000 != 0
    ensures Unsigned(ImmBranch(c)) == TWO_64 + BranchOffset(c)
  {
  }

  lemma BranchIs(c: bv16)
    ensures Signed(ImmBranch(c)) == BranchOffset(c)
  {
    hide Unsigned, ImmBranch;
    if c & 0x1000 == 0 {
      BranchForward(c);
    } else {
      BranchBackward(c);
    }
  }

  // ----- Decoding by mask and match -----

  const Q_MASK: bv16 := 0xE003
  const K_MASK: bv16 := 0xEC03
  const R_MASK: bv16 := 0xF003
  const A_MASK: bv16 := 0xFC63

  lemma Codes(c: bv16)
    ensures var m := c & Q_MASK; Quadrant(c) == (m & 0x3) as bv2 && F3(c) == (m >> 13) as bv3
    ensures var m := c & K_MASK; Low2(c) == ((m >> 10) & 0x3) as bv2 && m & Q_MASK == c & Q_MASK
    ensures var m := c & R_MASK; (Bit12(c) <==> m & 0x1000 != 0) && m & Q_MASK == c & Q_MASK
    ensures var m := c & A_MASK;
      && Mid2(c) == ((m >> 5) & 0x3) as bv2 && (Bit12(c) <==> m & 0x1000 != 0) && m & Q_MASK == c & Q_MASK
      && Low2(c) == ((m >> 10) & 0x3) as bv2
  {
  }

  // ----- Registers -----

  function XAt(h: Hart, n: nat): bv64
    requires n < 32
  {
    if n == 0 then 0 else h.regs[n]
  }

  lemma RegistersAt(h: Hart, c: bv16)
    ensures X(h, Reg7(c)) == XAt(h, RegA(c)) && X(h, Reg2(c)) == XAt(h, RegB(c))
    ensures X(h, Short7(c)) == XAt(h, ShortA(c)) && X(h, Short2(c)) == XAt(h, ShortB(c))
    ensures X(h, 2) == XAt(h, 2) && X(h, 0) == 0
    ensures (Reg7(c) == 0 <==> RegA(c) == 0) && (Reg2(c) == 0 <==> RegB(c) == 0) && (Reg7(c) == 2 <==> RegA(c) == 2)
  {
    Fields(c);
    NumberOfRegister(Reg7(c));
    NumberOfRegister(Reg2(c));
    NumberOfRegister(Short7(c));
    NumberOfRegister(Short2(c));
    hide RegA, RegB, ShortA, ShortB, Reg7, Reg2, Short7, Short2;
  }

  lemma NumberOfRegister(r: bv5)
    ensures (r == 0 <==> r as int == 0) && (r == 2 <==> r as int == 2)
  {
  }

  lemma WriteAtLeaves(h: Hart, rd: bv5, n: nat, v: bv64, w: int)
    requires rd as int == n && Unsigned(v) == w % TWO_64
    ensures Leaves(h, Write1(h, rd, v, 2), n, w, Unsigned(h.pc) + 2)
  {
    hide SetX, Plus, Unsigned;
    SetIs(h, rd, v);
    PcAfter(h, 2);
    TwoIs();
  }

  lemma TwoIs()
    ensures Unsigned(2) == 2
  {
  }

  // ----- What the instructions leave -----

  lemma SumOf(x: bv64, imm: bv64, value: int)
    requires Signed(imm) == value
    ensures Unsigned(Plus(x, imm)) == (Unsigned(x) + value) % TWO_64
  {
    hide Unsigned, Signed, Plus;
    SumPlus(x, imm);
  }

  lemma UnsignedSum(x: bv64, imm: bv64)
    ensures Unsigned(Plus(x, imm)) == (Unsigned(x) + Unsigned(imm)) % TWO_64
  {
    PlusIs(x, imm);
    AddNumber(x, imm);
    hide Unsigned, Plus, Added;
  }

  lemma StackAddressSome(c: bv16)
    ensures SpecAddi4spn(c) != 0 <==> StackAddress(c) != 0
  {
  }

  /** C.ADDI4SPN and C.ADDI16SP add to the stack pointer, C.ADDI and C.ADDIW to a register, C.LI and C.LUI load. */
  lemma ImmediateForms(h: Hart, c: bv16, o: Oracle)
    ensures c & Q_MASK == 0x0000 && StackAddress(c) != 0
            ==> Leaves(h, ExecuteShort(h, c, o), ShortB(c), Unsigned(XAt(h, 2)) + StackAddress(c), Unsigned(h.pc) + 2)
    ensures c & Q_MASK == 0x0001
            ==> Leaves(h, ExecuteShort(h, c, o), RegA(c), Unsigned(XAt(h, RegA(c))) + Small(c), Unsigned(h.pc) + 2)
    ensures c & Q_MASK == 0x2001
            ==> Leaves(h, ExecuteShort(h, c, o), RegA(c), Wrapped(Unsigned(XAt(h, RegA(c))) + Small(c), 32),
                Unsigned(h.pc) + 2)
    ensures c & Q_MASK == 0x4001 ==> Leaves(h, ExecuteShort(h, c, o), RegA(c), Small(c), Unsigned(h.pc) + 2)
    ensures c & Q_MASK == 0x6001 && RegA(c) == 2
            ==> Leaves(h, ExecuteShort(h, c, o), 2, Unsigned(XAt(h, 2)) + StackStep(c), Unsigned(h.pc) + 2)
    ensures c & Q_MASK == 0x6001 && RegA(c) != 2
            ==> Leaves(h, ExecuteShort(h, c, o), RegA(c), 4096 * Small(c), Unsigned(h.pc) + 2)
  {
    hide ExecuteShort, Quadrant, F3, Low2, Mid2, Bit12, Reg7, Reg2, Short7, Short2, RegA, RegB, ShortA, ShortB, X, XAt,
         Unsigned, Signed, Leaves, Write1, Plus, Widen, Add32, Low32, Wrapped, ImmSmall, ImmAddi4spn, ImmAddi16sp,
         ImmLui, Small, StackStep, StackAddress, SpecAddi4spn;
    Codes(c);
    Fields(c);
    RegistersAt(h, c);
    var m := c & Q_MASK;
    if m == 0x0000 {
      if StackAddress(c) != 0 {
        StackAddressSome(c);
        CM.Addi4spn(h, c, o);
        StackAddressIs(c);
        UnsignedSum(X(h, 2), ImmAddi4spn(c));
        WriteAtLeaves(h, Short2(c), ShortB(c), Plus(X(h, 2), ImmAddi4spn(c)),
            Unsigned(XAt(h, 2)) + StackAddress(c));
      }
    } else if m == 0x6001 {
      if RegA(c) == 2 {
        CM.Addi16sp(h, c, o);
        StackStepIs(c);
        SumOf(X(h, 2), ImmAddi16sp(c), StackStep(c));
        WriteAtLeaves(h, 2, 2, Plus(X(h, 2), ImmAddi16sp(c)), Unsigned(XAt(h, 2)) + StackStep(c));
      } else {
        CM.Lui(h, c, o);
        UpperIs(c);
        SignedNumber(ImmLui(c));
        WriteAtLeaves(h, Reg7(c), RegA(c), ImmLui(c), 4096 * Small(c));
      }
    } else {
      SmallForms(h, c, o);
    }
  }

  lemma SmallForms(h: Hart, c: bv16, o: Oracle)
    ensures c & Q_MASK == 0x0001
            ==> Leaves(h, ExecuteShort(h, c, o), RegA(c), Unsigned(XAt(h, RegA(c))) + Small(c), Unsigned(h.pc) + 2)
    ensures c & Q_MASK == 0x2001
            ==> Leaves(h, ExecuteShort(h, c, o), RegA(c), Wrapped(Unsigned(XAt(h, RegA(c))) + Small(c), 32),
                Unsigned(h.pc) + 2)
    ensures c & Q_MASK == 0x4001 ==> Leaves(h, ExecuteShort(h, c, o), RegA(c), Small(c), Unsigned(h.pc) + 2)
  {
    hide ExecuteShort, Quadrant, F3, Low2, Mid2, Bit12, Reg7, Reg2, Short7, Short2, RegA, RegB, ShortA, ShortB, X, XAt,
         Unsigned, Signed, Leaves, Write1, Plus, Widen, Add32, Low32, Wrapped, ImmSmall, Small;
    Codes(c);
    Fields(c);
    RegistersAt(h, c);
    SmallIs(c);
    var x, imm := X(h, Reg7(c)), ImmSmall(c);
    var m := c & Q_MASK;
    if m == 0x0001 {
      CM.Addi(h, c, o);
      SumOf(x, imm, Small(c));
      WriteAtLeaves(h, Reg7(c), RegA(c), Plus(x, imm), Unsigned(x) + Small(c));
    } else if m == 0x2001 {
      CM.Addiw(h, c, o);
      WordSum(x, imm);
      WriteAtLeaves(h, Reg7(c), RegA(c), Widen(Add32(Low32(x), Low32(imm))), Wrapped(Unsigned(x) + Small(c), 32));
    } else if m == 0x4001 {
      CM.Li(h, c, o);
      SignedNumber(imm);
      WriteAtLeaves(h, Reg7(c), RegA(c), imm, Small(c));
    }
  }

  lemma AmountIs(c: bv16)
    ensures Position(Shamt(ImmShift(c))) == Amount(c)
  {
    hide Shamt, Unsigned, ImmShift;
    ShamtPosition(ImmShift(c));
    Offsets(c);
    AmountSmall(c);
  }

  lemma AmountSmall(c: bv16)
    ensures Amount(c) < 64 && Amount(c) % 64 == Amount(c)
  {
  }

  /** C.SLLI, C.SRLI and C.SRAI shift by all six bits of the amount, C.SRAI with the sign. */
  lemma ShiftForms(h: Hart, c: bv16, o: Oracle)
    ensures c & Q_MASK == 0x0002
            ==> Leaves(h, ExecuteShort(h, c, o), RegA(c), Unsigned(XAt(h, RegA(c))) * Pow2(Amount(c)),
                Unsigned(h.pc) + 2)
    ensures c & K_MASK == 0x8001
            ==> Leaves(h, ExecuteShort(h, c, o), ShortA(c), Unsigned(XAt(h, ShortA(c))) / Pow2(Amount(c)),
                Unsigned(h.pc) + 2)
    ensures c & K_MASK == 0x8401
            ==> Leaves(h, ExecuteShort(h, c, o), ShortA(c), Signed(XAt(h, ShortA(c))) / Pow2(Amount(c)),
                Unsigned(h.pc) + 2)
  {
    hide ExecuteShort, Quadrant, F3, Low2, Mid2, Bit12, Reg7, Reg2, Short7, Short2, RegA, RegB, ShortA, ShortB, X, XAt,
         Unsigned, Signed, Leaves, Write1, Sra, C.ShiftLeft, C.ShiftRight, Amount, Position, Shamt, ImmShift, Pow2;
    Codes(c);
    Fields(c);
    RegistersAt(h, c);
    AmountIs(c);
    var n := Shamt(ImmShift(c));
    if c & Q_MASK == 0x0002 {
      var x := X(h, Reg7(c));
      CM.Slli(h, c, o);
      ShiftNumbers(x, n);
      WriteAtLeaves(h, Reg7(c), RegA(c), C.ShiftLeft(x, n), Unsigned(x) * Pow2(Amount(c)));
    } else if c & K_MASK == 0x8001 {
      var x := X(h, Short7(c));
      CM.Srli(h, c, o);
      ShiftNumbers(x, n);
      Reduced(Unsigned(C.ShiftRight(x, n)));
      WriteAtLeaves(h, Short7(c), ShortA(c), C.ShiftRight(x, n), Unsigned(x) / Pow2(Amount(c)));
    } else if c & K_MASK == 0x8401 {
      var x := X(h, Short7(c));
      CM.Srai(h, c, o);
      SraNumber(x, n);
      SignedNumber(Sra(x, n));
      WriteAtLeaves(h, Short7(c), ShortA(c), Sra(x, n), Signed(x) / Pow2(Amount(c)));
    }
  }

  /** C.MV, C.ADD, C.SUB, C.SUBW and C.ADDW. */
  lemma RegisterForms(h: Hart, c: bv16, o: Oracle)
    ensures c & R_MASK == 0x8002 && RegB(c) != 0
            ==> Leaves(h, ExecuteShort(h, c, o), RegA(c), Unsigned(XAt(h, RegB(c))), Unsigned(h.pc) + 2)
    ensures c & R_MASK == 0x9002 && RegB(c) != 0
            ==> Leaves(h, ExecuteShort(h, c, o), RegA(c), Unsigned(XAt(h, RegA(c))) + Unsigned(XAt(h, RegB(c))),
                Unsigned(h.pc) + 2)
    ensures c & A_MASK == 0x8C01
            ==> Leaves(h, ExecuteShort(h, c, o), ShortA(c),
                Unsigned(XAt(h, ShortA(c))) - Unsigned(XAt(h, ShortB(c))), Unsigned(h.pc) + 2)
    ensures c & A_MASK == 0x9C01
            ==> Leaves(h, ExecuteShort(h, c, o), ShortA(c),
                Wrapped(UnsignedLow(XAt(h, ShortA(c))) - UnsignedLow(XAt(h, ShortB(c))), 32), Unsigned(h.pc) + 2)
    ensures c & A_MASK == 0x9C21
            ==> Leaves(h, ExecuteShort(h, c, o), ShortA(c),
                Wrapped(UnsignedLow(XAt(h, ShortA(c))) + UnsignedLow(XAt(h, ShortB(c))), 32), Unsigned(h.pc) + 2)
  {
    hide ExecuteShort, Quadrant, F3, Low2, Mid2, Bit12, Reg7, Reg2, Short7, Short2, RegA, RegB, ShortA, ShortB, X, XAt,
         Unsigned, Signed, Leaves, Write1, Plus, Minus, Subtracted, Widen, Add32, Sub32, Low32, Wrapped, UnsignedLow,
         SignedLow, Word;
    Codes(c);
    Fields(c);
    RegistersAt(h, c);
    var x, y := X(h, Short7(c)), X(h, Short2(c));
    if c & R_MASK == 0x8002 && RegB(c) != 0 {
      CM.Mv(h, c, o);
      Reduced(Unsigned(X(h, Reg2(c))));
      WriteAtLeaves(h, Reg7(c), RegA(c), X(h, Reg2(c)), Unsigned(X(h, Reg2(c))));
    } else if c & R_MASK == 0x9002 && RegB(c) != 0 {
      CM.Add2(h, c, o);
      UnsignedSum(X(h, Reg7(c)), X(h, Reg2(c)));
      WriteAtLeaves(h, Reg7(c), RegA(c), Plus(X(h, Reg7(c)), X(h, Reg2(c))),
          Unsigned(X(h, Reg7(c))) + Unsigned(X(h, Reg2(c))));
    } else if c & A_MASK == 0x8C01 {
      CM.Sub(h, c, o);
      MinusIs(x, y);
      SubNumber(x, y);
      WriteAtLeaves(h, Short7(c), ShortA(c), Minus(x, y), Unsigned(x) - Unsigned(y));
    } else if c & A_MASK == 0x9C01 {
      CM.Subw(h, c, o);
      LowOperand(x);
      LowOperand(y);
      Sums32(Low32(x), Low32(y));
      WidenedNumber(Sub32(Low32(x), Low32(y)), UnsignedLow(x) - UnsignedLow(y));
      WriteAtLeaves(h, Short7(c), ShortA(c), Widen(Sub32(Low32(x), Low32(y))),
          Wrapped(UnsignedLow(x) - UnsignedLow(y), 32));
    } else if c & A_MASK == 0x9C21 {
      CM.Addw(h, c, o);
      LowOperand(x);
      LowOperand(y);
      Sums32(Low32(x), Low32(y));
      WidenedNumber(Add32(Low32(x), Low32(y)), UnsignedLow(x) + UnsignedLow(y));
      WriteAtLeaves(h, Short7(c), ShortA(c), Widen(Add32(Low32(x), Low32(y))),
          Wrapped(UnsignedLow(x) + UnsignedLow(y), 32));
    }
  }

  // ----- Bitwise forms -----

  predicate BitForm(c: bv16) {
    c & K_MASK == 0x8801 || c & A_MASK == 0x8C21 || c & A_MASK == 0x8C41 || c & A_MASK == 0x8C61
  }

  /** Bit `k` of the result of C.ANDI, C.XOR, C.OR and C.AND. */
  predicate BitOf(c: bv16, x: bv64, y: bv64, k: nat) {
    if c & K_MASK == 0x8801 then BitAt(x, k) && BitAt(Wrap(Small(c)), k)
    else if c & A_MASK == 0x8C21 then BitAt(x, k) != BitAt(y, k)
    else if c & A_MASK == 0x8C41 then BitAt(x, k) || BitAt(y, k)
    else BitAt(x, k) && BitAt(y, k)
  }

  lemma SmallWord(c: bv16)
    ensures ImmSmall(c) == Wrap(Small(c))
  {
    hide ImmSmall, Small, Unsigned, Signed, Wrap;
    SmallIs(c);
    SignedNumber(ImmSmall(c));
    WrapNumber(Small(c));
    SameNumber(ImmSmall(c), Wrap(Small(c)));
  }

  function FormValue(c: bv16, x: bv64, y: bv64): bv64 {
    if c & K_MASK == 0x8801 then And(x, ImmSmall(c))
    else if c & A_MASK == 0x8C21 then C.Xor(x, y)
    else if c & A_MASK == 0x8C41 then Or(x, y)
    else And(x, y)
  }

  lemma FormBits(c: bv16, x: bv64, y: bv64, k: nat)
    requires k < 64
    ensures BitAt(FormValue(c, x, y), k) <==> BitOf(c, x, y, k)
  {
    hide And, Or, C.Xor, BitAt, ImmSmall, Small, Wrap;
    SmallWord(c);
    InstructionMeaning.LogicBits(x, y, k);
    InstructionMeaning.LogicBits(x, ImmSmall(c), k);
  }

  lemma FormRuns(h: Hart, c: bv16, o: Oracle)
    requires BitForm(c)
    ensures ExecuteShort(h, c, o) == Write1(h, Short7(c), FormValue(c, X(h, Short7(c)), X(h, Short2(c))), 2)
  {
    hide ExecuteShort, Quadrant, F3, Low2, Mid2, Bit12, Reg7, Reg2, Short7, Short2, X, Write1, And, Or, C.Xor, ImmSmall;
    Codes(c);
    if c & K_MASK == 0x8801 {
      CM.Andi(h, c, o);
    } else if c & A_MASK == 0x8C21 {
      CM.Xor2(h, c, o);
    } else if c & A_MASK == 0x8C41 {
      CM.Or2(h, c, o);
    } else {
      CM.And2(h, c, o);
    }
  }

  /** C.ANDI, C.XOR, C.OR and C.AND work on every bit by itself. */
  lemma BitwiseForms(h: Hart, c: bv16, o: Oracle)
    requires BitForm(c)
    ensures var out := ExecuteShort(h, c, o);
      && out.Next?
      && Leaves(h, out, ShortA(c), Unsigned(out.hart.regs[ShortA(c)]), Unsigned(h.pc) + 2)
      && forall k: nat :: k < 64 ==>
          (BitAt(out.hart.regs[ShortA(c)], k) <==> BitOf(c, XAt(h, ShortA(c)), XAt(h, ShortB(c)), k))
  {
    hide ExecuteShort, Quadrant, F3, Low2, Mid2, Bit12, Reg7, Reg2, Short7, Short2, RegA, RegB, ShortA, ShortB, X, XAt,
         Unsigned, Signed, Leaves, Write1, BitForm, BitAt, BitOf, Wrap, FormValue;
    FormRuns(h, c, o);
    RegistersAt(h, c);
    var value := FormValue(c, X(h, Short7(c)), X(h, Short2(c)));
    forall k: nat | k < 64
      ensures BitAt(value, k) <==> BitOf(c, XAt(h, ShortA(c)), XAt(h, ShortB(c)), k)
    {
      FormBits(c, X(h, Short7(c)), X(h, Short2(c)), k);
    }
    Fields(c);
    Reduced(Unsigned(value));
    WriteAtLeaves(h, Short7(c), ShortA(c), value, Unsigned(value));
    LeavesItself(h, ExecuteShort(h, c, o), ShortA(c), value, Unsigned(h.pc) + 2);
    ShortIsReal(c);
  }

  lemma ShortIsReal(c: bv16)
    ensures ShortA(c) >= 8
  {
  }

  // ----- Jumps and branches -----

  lemma GoTo(h: Hart, imm: bv64, offset: int)
    requires Signed(imm) == offset
    ensures Leaves(h, Next(Goto(h, Plus(h.pc, imm))), 0, 0, Unsigned(h.pc) + offset)
  {
    hide Unsigned, Signed, Plus, Leaves;
    PcPlus(h, imm);
    NoRegister(h, Plus(h.pc, imm), Unsigned(h.pc) + offset);
  }

  lemma FallThrough(h: Hart)
    ensures Leaves(h, Next(Goto(h, Plus(h.pc, 2))), 0, 0, Unsigned(h.pc) + 2)
  {
    hide Unsigned, Plus, Leaves;
    PcAfter(h, 2);
    TwoIs();
    NoRegister(h, Plus(h.pc, 2), Unsigned(h.pc) + 2);
  }

  lemma ZeroNumber(x: bv64)
    ensures x == 0 <==> Unsigned(x) == 0
  {
    hide Unsigned;
    Bits0And1();
    if Unsigned(x) == 0 {
      SameNumber(x, 0);
    }
  }

  /** C.J goes to the pc plus its offset, C.BEQZ and C.BNEZ when the register is zero, or not zero. */
  lemma Transfers(h: Hart, c: bv16, o: Oracle)
    ensures c & Q_MASK == 0xA001
            ==> Leaves(h, ExecuteShort(h, c, o), 0, 0, Unsigned(h.pc) + JumpOffset(c))
    ensures c & Q_MASK == 0xC001
            ==> Leaves(h, ExecuteShort(h, c, o), 0, 0,
                Unsigned(h.pc) + if Unsigned(XAt(h, ShortA(c))) == 0 then BranchOffset(c) else 2)
    ensures c & Q_MASK == 0xE001
            ==> Leaves(h, ExecuteShort(h, c, o), 0, 0,
                Unsigned(h.pc) + if Unsigned(XAt(h, ShortA(c))) != 0 then BranchOffset(c) else 2)
  {
    hide ExecuteShort, Quadrant, F3, Low2, Mid2, Bit12, Reg7, Reg2, Short7, Short2, RegA, RegB, ShortA, ShortB, X, XAt,
         Unsigned, Signed, Leaves, Plus, ImmJump, ImmBranch, JumpOffset, BranchOffset, Goto;
    Codes(c);
    RegistersAt(h, c);
    JumpIs(c);
    BranchIs(c);
    GoTo(h, ImmJump(c), JumpOffset(c));
    GoTo(h, ImmBranch(c), BranchOffset(c));
    FallThrough(h);
    ZeroNumber(XAt(h, ShortA(c)));
    if c & Q_MASK == 0xA001 {
      CM.J(h, c, o);
    } else if c & Q_MASK == 0xC001 {
      CM.Beqz(h, c, o);
    } else if c & Q_MASK == 0xE001 {
      CM.Bnez(h, c, o);
    }
  }

  /** C.JR goes to its register and links nothing. C.JALR writes the link to register 1 first and then reads its target,
      which differs from the old register exactly for register 1. Neither clears bit 0 of the target. */
  lemma RegisterTransfers(h: Hart, c: bv16, o: Oracle)
    ensures c & R_MASK == 0x8002 && RegB(c) == 0
            ==> Leaves(h, ExecuteShort(h, c, o), 0, 0, Unsigned(XAt(h, RegA(c))))
    ensures c & R_MASK == 0x9002 && RegB(c) == 0 && RegA(c) != 0
            ==> Leaves(h, ExecuteShort(h, c, o), 1, Unsigned(h.pc) + 2,
                if RegA(c) == 1 then Unsigned(h.pc) + 2 else Unsigned(XAt(h, RegA(c))))
    ensures c & R_MASK == 0x9002 && RegB(c) == 0 && RegA(c) == 0
            ==> ExecuteShort(h, c, o) == Raise(h, Exc(PT.Breakpoint), h.pc)
  {
    hide ExecuteShort, Quadrant, F3, Low2, Mid2, Bit12, Reg7, Reg2, Short7, Short2, RegA, RegB, ShortA, ShortB, X, XAt,
         Unsigned, Signed, Leaves, Plus;
    Codes(c);
    Fields(c);
    RegistersAt(h, c);
    if c & R_MASK == 0x8002 && RegB(c) == 0 {
      CM.ThroughRegister(h, c, o);
      Reduced(Unsigned(XAt(h, RegA(c))));
      NoRegister(h, X(h, Reg7(c)), Unsigned(XAt(h, RegA(c))));
    } else if c & R_MASK == 0x9002 && RegB(c) == 0 {
      if RegA(c) == 0 {
        CM.Ebreak(h, c, o);
      } else {
        CM.ThroughRegister(h, c, o);
        LinkedJump(h, Reg7(c));
      }
    }
  }

  lemma LinkedJump(h: Hart, r: bv5)
    ensures var k := SetX(h, 1, Plus(h.pc, 2));
      Leaves(h, Next(Goto(k, X(k, r))), 1, Unsigned(h.pc) + 2,
        if r as int == 1 then Unsigned(h.pc) + 2 else Unsigned(XAt(h, r as int)))
  {
    hide Plus, Unsigned;
    PcAfter(h, 2);
    TwoIs();
    SetIs(h, 1, Plus(h.pc, 2));
    Reduced(Unsigned(XAt(h, r as int)));
    NumberOfRegister(r);
  }

  // ----- Loads and stores -----

  lemma LoadWidths()
    ensures WidthOf(2) == 4 && WidthOf(3) == 8
  {
  }

  lemma LoadAt(h: Hart, f3: bv3, rd: bv5, va: bv64, kind: (nat, bool), base: bv64, offset: nat)
    requires (f3 == 2 && kind == (4, true)) || (f3 == 3 && kind == (8, true))
    requires Unsigned(va) == (Unsigned(base) + offset) % TWO_64
    ensures LoadsFrom(h, Address(base, offset), kind, rd as int, LoadX(h, f3, rd, va, 2), Unsigned(h.pc) + 2)
  {
    hide Unsigned, Signed, Plus, Leaves, LoadFrom, Extend, Wide, SpaceOf, Num, Wrapped, Write1, WidthOf, VA.LoadVa;
    LoadWidths();
    NumIs(va);
    LoadFromIs(h, va, kind.0);
    var l := LoadFrom(h, va, kind.0);
    if l.result.Ok? {
      LoadedAt(h.(mem := l.mem), f3, rd, l.result.value, kind);
    }
  }

  lemma LoadedAt(k: Hart, f3: bv3, rd: bv5, v: nat, kind: (nat, bool))
    requires (f3 == 2 && kind == (4, true)) || (f3 == 3 && kind == (8, true))
    ensures Leaves(k, Write1(k, rd, Extend(f3, Wide(v)), 2), rd as int, Wrapped(v, 8 * kind.0), Unsigned(k.pc) + 2)
  {
    hide Unsigned, Leaves, Extend, Wide, Wrapped, Write1;
    ExtendNumber(f3, v, if f3 == 2 then 0x2003 else 0x3003);
    WriteAtLeaves(k, rd, rd as int, Extend(f3, Wide(v)), Wrapped(v, 8 * kind.0));
  }

  lemma StoreAt(h: Hart, va: bv64, v: bv64, n: nat, base: bv64, offset: nat)
    requires Unsigned(va) == (Unsigned(base) + offset) % TWO_64
    ensures StoresTo(h, Address(base, offset), v, n, StoreV(h, va, v, n, 2), Unsigned(h.pc) + 2)
  {
    hide Unsigned, Plus, StoreTo, SpaceOf, Num, Goto;
    NumIs(va);
    StoreToIs(h, va, v, n);
    PcAfter(h, 2);
    TwoIs();
    var s := StoreTo(h, va, v, n);
    NoRegister(h.(mem := s.mem, reservation := None), Plus(h.pc, 2), Unsigned(h.pc) + 2);
  }

  /** C.LW and C.LD, and their forms from the stack pointer. */
  lemma LoadForms(h: Hart, c: bv16, o: Oracle)
    ensures c & Q_MASK == 0x4000
            ==> LoadsFrom(h, Address(XAt(h, ShortA(c)), WordOffset(c)), (4, true), ShortB(c), ExecuteShort(h, c, o),
                Unsigned(h.pc) + 2)
    ensures c & Q_MASK == 0x6000
            ==> LoadsFrom(h, Address(XAt(h, ShortA(c)), DoubleOffset(c)), (8, true), ShortB(c), ExecuteShort(h, c, o),
                Unsigned(h.pc) + 2)
    ensures c & Q_MASK == 0x4002 && RegA(c) != 0
            ==> LoadsFrom(h, Address(XAt(h, 2), WordStack(c)), (4, true), RegA(c), ExecuteShort(h, c, o),
                Unsigned(h.pc) + 2)
    ensures c & Q_MASK == 0x6002 && RegA(c) != 0
            ==> LoadsFrom(h, Address(XAt(h, 2), DoubleStack(c)), (8, true), RegA(c), ExecuteShort(h, c, o),
                Unsigned(h.pc) + 2)
  {
    hide ExecuteShort, Quadrant, F3, Low2, Mid2, Bit12, Reg7, Reg2, Short7, Short2, RegA, RegB, ShortA, ShortB, X, XAt,
         Unsigned, Plus, LoadX, LoadsFrom, Address, ImmWord, ImmDouble, ImmWordSp, ImmDoubleSp, WordOffset,
         DoubleOffset, WordStack, DoubleStack, Amount;
    Codes(c);
    Fields(c);
    RegistersAt(h, c);
    Offsets(c);
    LoadStackOffsets(c);
    var x, sp := X(h, Short7(c)), X(h, 2);
    if c & Q_MASK == 0x4000 {
      CM.Lw(h, c, o);
      UnsignedSum(x, ImmWord(c));
      LoadAt(h, 2, Short2(c), Plus(x, ImmWord(c)), (4, true), x, WordOffset(c));
    } else if c & Q_MASK == 0x6000 {
      CM.Ld(h, c, o);
      UnsignedSum(x, ImmDouble(c));
      LoadAt(h, 3, Short2(c), Plus(x, ImmDouble(c)), (8, true), x, DoubleOffset(c));
    } else if c & Q_MASK == 0x4002 && RegA(c) != 0 {
      CM.Lwsp(h, c, o);
      UnsignedSum(sp, ImmWordSp(c));
      LoadAt(h, 2, Reg7(c), Plus(sp, ImmWordSp(c)), (4, true), sp, WordStack(c));
    } else if c & Q_MASK == 0x6002 && RegA(c) != 0 {
      CM.Ldsp(h, c, o);
      UnsignedSum(sp, ImmDoubleSp(c));
      LoadAt(h, 3, Reg7(c), Plus(sp, ImmDoubleSp(c)), (8, true), sp, DoubleStack(c));
    }
  }

  /** C.SW and C.SD, and their forms from the stack pointer. */
  lemma StoreForms(h: Hart, c: bv16, o: Oracle)
    ensures c & Q_MASK == 0xC000
            ==> StoresTo(h, Address(XAt(h, ShortA(c)), WordOffset(c)), XAt(h, ShortB(c)), 4, ExecuteShort(h, c, o),
                Unsigned(h.pc) + 2)
    ensures c & Q_MASK == 0xE000
            ==> StoresTo(h, Address(XAt(h, ShortA(c)), DoubleOffset(c)), XAt(h, ShortB(c)), 8, ExecuteShort(h, c, o),
                Unsigned(h.pc) + 2)
    ensures c & Q_MASK == 0xC002
            ==> StoresTo(h, Address(XAt(h, 2), WordStackStore(c)), XAt(h, RegB(c)), 4, ExecuteShort(h, c, o),
                Unsigned(h.pc) + 2)
    ensures c & Q_MASK == 0xE002
            ==> StoresTo(h, Address(XAt(h, 2), DoubleStackStore(c)), XAt(h, RegB(c)), 8, ExecuteShort(h, c, o),
                Unsigned(h.pc) + 2)
  {
    hide ExecuteShort, Quadrant, F3, Low2, Mid2, Bit12, Reg7, Reg2, Short7, Short2, RegA, RegB, ShortA, ShortB, X, XAt,
         Unsigned, Plus, StoreV, StoresTo, Address, ImmWord, ImmDouble, ImmWordSpS, ImmDoubleSpS, WordOffset,
         DoubleOffset, WordStackStore, DoubleStackStore, Amount;
    Codes(c);
    RegistersAt(h, c);
    Offsets(c);
    StoreStackOffsets(c);
    var x, y, sp := X(h, Short7(c)), X(h, Short2(c)), X(h, 2);
    if c & Q_MASK == 0xC000 {
      CM.Sw(h, c, o);
      UnsignedSum(x, ImmWord(c));
      StoreAt(h, Plus(x, ImmWord(c)), y, 4, x, WordOffset(c));
    } else if c & Q_MASK == 0xE000 {
      CM.Sd(h, c, o);
      UnsignedSum(x, ImmDouble(c));
      StoreAt(h, Plus(x, ImmDouble(c)), y, 8, x, DoubleOffset(c));
    } else if c & Q_MASK == 0xC002 {
      CM.Swsp(h, c, o);
      UnsignedSum(sp, ImmWordSpS(c));
      StoreAt(h, Plus(sp, ImmWordSpS(c)), X(h, Reg2(c)), 4, sp, WordStackStore(c));
    } else if c & Q_MASK == 0xE002 {
      CM.Sdsp(h, c, o);
      UnsignedSum(sp, ImmDoubleSpS(c));
      StoreAt(h, Plus(sp, ImmDoubleSpS(c)), X(h, Reg2(c)), 8, sp, DoubleStackStore(c));
    }
  }

  lemma FloatAt(h: Hart, rd: bv5, va: bv64, base: bv64, offset: nat)
    requires Unsigned(va) == (Unsigned(base) + offset) % TWO_64
    ensures FM.FloatLoaded(h, Address(base, offset), 8, rd as int, LoadF(h, 3, rd, va, 2), Unsigned(h.pc) + 2)
  {
    hide Unsigned, LoadF, FM.FloatLoaded, Num;
    NumIs(va);
    TwoIs();
    FM.LoadedF(h, rd, 3, va, 2, 8);
  }

  /** The floating-point register of a number. */
  function FAt(h: Hart, n: nat): bv64
    requires n < 32
  {
    h.fregs[n]
  }

  lemma FloatRegisters(h: Hart, c: bv16)
    ensures F(h, Short2(c)) == FAt(h, ShortB(c)) && F(h, Reg2(c)) == FAt(h, RegB(c))
  {
    Fields(c);
    hide RegA, RegB, ShortA, ShortB, Reg7, Reg2, Short7, Short2;
  }

  /** C.FLD, and its form from the stack pointer. */
  lemma FloatLoadForms(h: Hart, c: bv16, o: Oracle)
    ensures c & Q_MASK == 0x2000
            ==> FM.FloatLoaded(h, Address(XAt(h, ShortA(c)), DoubleOffset(c)), 8, ShortB(c), ExecuteShort(h, c, o),
                Unsigned(h.pc) + 2)
    ensures c & Q_MASK == 0x2002
            ==> FM.FloatLoaded(h, Address(XAt(h, 2), DoubleStack(c)), 8, RegA(c), ExecuteShort(h, c, o),
                Unsigned(h.pc) + 2)
  {
    hide ExecuteShort, Quadrant, F3, Low2, Mid2, Bit12, Reg7, Reg2, Short7, Short2, RegA, RegB, ShortA, ShortB, X, XAt,
         F, FAt, Unsigned, Plus, LoadF, FM.FloatLoaded, Address, ImmDouble, ImmDoubleSp, DoubleOffset, DoubleStack,
         Amount;
    Codes(c);
    Fields(c);
    RegistersAt(h, c);
    Offsets(c);
    LoadStackOffsets(c);
    var x, sp := X(h, Short7(c)), X(h, 2);
    if c & Q_MASK == 0x2000 {
      CM.Fld(h, c, o);
      UnsignedSum(x, ImmDouble(c));
      FloatAt(h, Short2(c), Plus(x, ImmDouble(c)), x, DoubleOffset(c));
    } else if c & Q_MASK == 0x2002 {
      CM.Fldsp(h, c, o);
      UnsignedSum(sp, ImmDoubleSp(c));
      FloatAt(h, Reg7(c), Plus(sp, ImmDoubleSp(c)), sp, DoubleStack(c));
    }
  }

  /** C.FSD, and its form from the stack pointer. */
  lemma FloatStoreForms(h: Hart, c: bv16, o: Oracle)
    ensures c & Q_MASK == 0xA000
            ==> StoresTo(h, Address(XAt(h, ShortA(c)), DoubleOffset(c)), FAt(h, ShortB(c)), 8, ExecuteShort(h, c, o),
                Unsigned(h.pc) + 2)
    ensures c & Q_MASK == 0xA002
            ==> StoresTo(h, Address(XAt(h, 2), DoubleStackStore(c)), FAt(h, RegB(c)), 8, ExecuteShort(h, c, o),
                Unsigned(h.pc) + 2)
  {
    hide ExecuteShort, Quadrant, F3, Low2, Mid2, Bit12, Reg7, Reg2, Short7, Short2, RegA, RegB, ShortA, ShortB, X, XAt,
         F, FAt, Unsigned, Plus, StoresTo, StoreV, Address, ImmDouble, ImmDoubleSpS, DoubleOffset, DoubleStackStore,
         Amount;
    Codes(c);
    RegistersAt(h, c);
    FloatRegisters(h, c);
    Offsets(c);
    StoreStackOffsets(c);
    var x, sp := X(h, Short7(c)), X(h, 2);
    if c & Q_MASK == 0xA000 {
      CM.Fsd(h, c, o);
      UnsignedSum(x, ImmDouble(c));
      StoreAt(h, Plus(x, ImmDouble(c)), F(h, Short2(c)), 8, x, DoubleOffset(c));
    } else if c & Q_MASK == 0xA002 {
      CM.Fsdsp(h, c, o);
      UnsignedSum(sp, ImmDoubleSpS(c));
      StoreAt(h, Plus(sp, ImmDoubleSpS(c)), F(h, Reg2(c)), 8, sp, DoubleStackStore(c));
    }
  }

  // ----- Reserved encodings -----

  predicate Reserved(c: bv16) {
    || c & 0x3 == 3 || c & Q_MASK == 0x8000
    || (c & Q_MASK == 0x0000 && StackAddress(c) == 0)
    || c & 0xFC43 == 0x9C41
    || ((c & Q_MASK == 0x4002 || c & Q_MASK == 0x6002) && RegA(c) == 0)
  }

  lemma ReservedIsRefused(c: bv16)
    ensures Reserved(c) <==> CM.Refused(c)
  {
    hide Quadrant, F3, Low2, Mid2, Bit12, Reg7, RegA, StackAddress, ImmAddi4spn, Unsigned;
    RefusalCodes(c);
    Fields(c);
    NumberOfRegister(Reg7(c));
    StackAddressIs(c);
    ZeroNumber(ImmAddi4spn(c));
  }

  lemma RefusalCodes(c: bv16)
    ensures c & 0x3 == 3 <==> Quadrant(c) == 3
    ensures c & Q_MASK == 0x8000 <==> Quadrant(c) == 0 && F3(c) == 4
    ensures c & Q_MASK == 0x0000 <==> Quadrant(c) == 0 && F3(c) == 0
    ensures c & 0xFC43 == 0x9C41 <==> Quadrant(c) == 1 && F3(c) == 4 && Low2(c) == 3 && Bit12(c) && Mid2(c) >= 2
    ensures c & Q_MASK == 0x4002 <==> Quadrant(c) == 2 && F3(c) == 2
    ensures c & Q_MASK == 0x6002 <==> Quadrant(c) == 2 && F3(c) == 3
  {
  }

  /** Exactly the reserved encodings are illegal; the trap value is the encoding. */
  lemma IllegalIff(h: Hart, c: bv16, o: Oracle)
    ensures Reserved(c) ==> ExecuteShort(h, c, o) == Raise(h, Exc(PT.IllegalInstruction), c as bv64)
    ensures !Reserved(c) ==> Expand(c).Some?
  {
    hide Reserved, CM.Refused, Expand, Execute;
    ReservedIsRefused(c);
    CM.RefusedIff(c);
  }
}
