/** Which register-immediate instructions the decoder executes as the manual assigns them (RV64I with Zba, Zbb and
    Zbs), and which it takes for another instruction. */
module ImmediateDecoding {
  import opened Words
  import opened CarryLess
  import opened BitManipulation
  import opened HartState
  import opened Traps
  import opened Standard
  import opened Expansion
  import PT = PageTable

  // ----- Fields -----

  function Funct6(i: bv32): bv6 { ((i >> 26) & 0x3F) as bv6 }

  /** The highest bit of a six-bit shift amount. */
  predicate Bit25(i: bv32) { i & 0x200_0000 != 0 }

  function Shamt6(i: bv32): bv6 { ((i >> 20) & 0x3F) as bv6 }

  function Shamt5(i: bv32): bv5 { ((i >> 20) & 0x1F) as bv5 }

  lemma ShamtOfImmediate(i: bv32)
    ensures Shamt(ImmI(i)) == Shamt6(i) && Shamt32(ImmI(i)) == Shamt5(i)
  {
    ShamtLow(i);
    hide LowI, Negative, Shamt6, Shamt5;
  }

  lemma ShamtLow(i: bv32)
    ensures Shamt(LowI(i)) == Shamt6(i) && Shamt32(LowI(i)) == Shamt5(i)
  {
  }

  lemma ArithmeticBit(i: bv32)
    ensures Funct6(i) == 0 || Funct6(i) == 0x0A ==> i & 0x4000_0000 == 0
    ensures Funct6(i) == 0x10 || Funct6(i) == 0x12 || Funct6(i) == 0x18 || Funct6(i) == 0x1A ==> i & 0x4000_0000 != 0
  {
  }

  /** The decoder's seven-bit codes are six bits and the top of the shift amount. */
  lemma SevenBits(i: bv32)
    ensures Funct7(i) == 0x24 <==> Funct6(i) == 0x12 && !Bit25(i)
    ensures Funct7(i) == 0x34 <==> Funct6(i) == 0x1A && !Bit25(i)
    ensures Funct7(i) == 0x14 <==> Funct6(i) == 0x0A && !Bit25(i)
    ensures Funct7(i) == 0x30 <==> Funct6(i) == 0x18 && !Bit25(i)
    ensures Funct7(i) == 0x04 <==> Funct6(i) == 0x02 && !Bit25(i)
  {
  }

  lemma FullCodes(i: bv32)
    ensures Imm12(i) == 0x600 <==> Funct6(i) == 0x18 && Shamt6(i) == 0
    ensures Imm12(i) == 0x601 <==> Funct6(i) == 0x18 && Shamt6(i) == 1
    ensures Imm12(i) == 0x602 <==> Funct6(i) == 0x18 && Shamt6(i) == 2
    ensures Imm12(i) == 0x604 <==> Funct6(i) == 0x18 && Shamt6(i) == 4
    ensures Imm12(i) == 0x605 <==> Funct6(i) == 0x18 && Shamt6(i) == 5
    ensures Imm12(i) == 0x287 <==> Funct6(i) == 0x0A && Shamt6(i) == 7
    ensures Imm12(i) == 0x6B8 <==> Funct6(i) == 0x1A && Shamt6(i) == 0x38
  {
  }

  // ----- OP-IMM as the manual assigns it -----

  function IsaLeft(f6: bv6, n: bv6, x: bv64): Option<bv64> {
    if f6 == 0 then Some(ShiftLeft(x, n))
    else if f6 == 0x0A then Some(SetBit(x, n))
    else if f6 == 0x12 then Some(ClearBit(x, n))
    else if f6 == 0x1A then Some(InvertBit(x, n))
    else if f6 == 0x18 && n == 0 then Some(Count(LeadingZeros(x, 64)))
    else if f6 == 0x18 && n == 1 then Some(Count(TrailingZeros(x, 0, 64)))
    else if f6 == 0x18 && n == 2 then Some(Count(Population(x, 64)))
    else if f6 == 0x18 && n == 4 then Some(Signed8(x))
    else if f6 == 0x18 && n == 5 then Some(Signed16(x))
    else None
  }

  function IsaRight(f6: bv6, n: bv6, x: bv64): Option<bv64> {
    if f6 == 0 then Some(ShiftRight(x, n))
    else if f6 == 0x10 then Some(Sra(x, n))
    else if f6 == 0x12 then Some(ExtractBit(x, n))
    else if f6 == 0x18 then Some(RotateR(x, n))
    else if f6 == 0x0A && n == 7 then Some(OrBytes(x, 8))
    else if f6 == 0x1A && n == 0x38 then Some(SwapBytes(x))
    else None
  }

  /** The value of an OP-IMM instruction; `None` for a reserved encoding. */
  function IsaOpImm(i: bv32, x: bv64): Option<bv64> {
    var f3 := Funct3(i);
    if f3 == 0 then Some(Plus(x, ImmI(i)))
    else if f3 == 1 then IsaLeft(Funct6(i), Shamt6(i), x)
    else if f3 == 2 then Some(Flag(Less(x, ImmI(i))))
    else if f3 == 3 then Some(Flag(x < ImmI(i)))
    else if f3 == 4 then Some(Xor(x, ImmI(i)))
    else if f3 == 5 then IsaRight(Funct6(i), Shamt6(i), x)
    else if f3 == 6 then Some(Or(x, ImmI(i)))
    else Some(And(x, ImmI(i)))
  }

  /** What the decoder makes of it. */
  function Decoded(i: bv32, x: bv64): bv64 {
    AluImm(i, Funct3(i), x, ImmI(i))
  }

  ghost predicate AgreesWithIsa(i: bv32) {
    forall x :: Some(Decoded(i, x)) == IsaOpImm(i, x)
  }

  /** A single-bit or rotate immediate with a shift amount of 32 or more, or XORI with immediate 0x287. */
  predicate Departs(i: bv32) {
    var f3, f6 := Funct3(i), Funct6(i);
    || (f3 == 4 && Imm12(i) == 0x287)
    || (f3 == 1 && (f6 == 0x0A || f6 == 0x12 || f6 == 0x1A) && Bit25(i))
    || (f3 == 5 && (f6 == 0x12 || f6 == 0x18) && Bit25(i))
  }

  // ----- Two shifts are told from what they are not by one operand -----

  lemma SingleBitsAreNotShifts(n: bv6)
    ensures SetBit(0, n) != ShiftLeft(0, n)
    ensures ClearBit(1, n) != ShiftLeft(1, n)
    ensures InvertBit(0, n) != ShiftLeft(0, n)
  {
  }

  lemma ExtractIsNoShift(n: bv6)
    ensures ExtractBit(0xFFFF_FFFF_FFFF_FFFF, n) != Sra(0xFFFF_FFFF_FFFF_FFFF, n)
  {
  }

  lemma RotateIsNoShift(n: bv6, x: bv64)
    ensures n != 0 ==> RotateR(1, n) != Sra(1, n)
    ensures n == 0 ==> RotateR(x, n) == Sra(x, n)
  {
  }

  lemma Code287(i: bv32)
    requires Imm12(i) == 0x287
    ensures ImmI(i) == 0x287
  {
  }

  lemma XoriDiffers()
    ensures (0 as bv64) & 0xFFFF != Xor(0, 0x287)
  {
  }

  // ----- Agreement -----

  lemma LeftDecodes(i: bv32, x: bv64)
    requires IsaLeft(Funct6(i), Shamt6(i), x).Some?
    ensures Some(AluImmLeft(i, x, ImmI(i))) ==
      if (Funct6(i) == 0x0A || Funct6(i) == 0x12 || Funct6(i) == 0x1A) && Bit25(i) then Some(ShiftLeft(x, Shamt6(i)))
      else IsaLeft(Funct6(i), Shamt6(i), x)
  {
    hide Imm12, Funct7, Funct6, Shamt6, Bit25, Shamt, ImmI, ShiftLeft, SetBit, ClearBit, InvertBit, LeadingZeros,
         TrailingZeros, Population, Count, Signed8, Signed16;
    SevenBits(i);
    FullCodes(i);
    ShamtOfImmediate(i);
  }

  lemma RightDecodes(i: bv32, x: bv64)
    requires IsaRight(Funct6(i), Shamt6(i), x).Some?
    ensures Some(AluImmRight(i, x, ImmI(i))) ==
      if (Funct6(i) == 0x12 || Funct6(i) == 0x18) && Bit25(i) then Some(Sra(x, Shamt6(i)))
      else IsaRight(Funct6(i), Shamt6(i), x)
  {
    hide Imm12, Funct7, Funct6, Shamt6, Bit25, Shamt, ImmI, ShiftRight, Sra, ExtractBit, RotateR, OrBytes, SwapBytes;
    SevenBits(i);
    FullCodes(i);
    ShamtOfImmediate(i);
    ArithmeticBit(i);
  }

  /** Whether an encoding is assigned does not depend on the operand. */
  lemma AssignedAlike(i: bv32, x: bv64, y: bv64)
    ensures IsaOpImm(i, x).Some? <==> IsaOpImm(i, y).Some?
  {
    hide Funct3, Funct6, Shamt6, ImmI, Plus, Less, Xor, Or, And, ShiftLeft, ShiftRight, Sra, SetBit, ClearBit,
         InvertBit, ExtractBit, RotateR, OrBytes, SwapBytes, LeadingZeros, TrailingZeros, Population, Count, Signed8,
         Signed16;
  }

  lemma LargeShamt(i: bv32)
    ensures Bit25(i) ==> Shamt6(i) != 0
  {
  }

  /** Every assigned OP-IMM instruction gives the manual's value for every operand, if and only if it is not one of
      those above. */
  lemma OpImmAgreesIff(i: bv32)
    requires IsaOpImm(i, 0).Some?
    ensures AgreesWithIsa(i) <==> !Departs(i)
  {
    hide Imm12, Funct3, Funct6, Shamt6, Bit25, ImmI, Plus, Less, Xor, Or, And, AluImmLeft, AluImmRight, IsaLeft,
         IsaRight;
    if Departs(i) {
      DepartureSeen(i);
    } else {
      forall x
        ensures Some(Decoded(i, x)) == IsaOpImm(i, x)
      {
        AssignedAlike(i, 0, x);
        if Funct3(i) == 1 {
          LeftDecodes(i, x);
        } else if Funct3(i) == 5 {
          RightDecodes(i, x);
        }
      }
    }
  }

  lemma DepartureSeen(i: bv32)
    requires IsaOpImm(i, 0).Some? && Departs(i)
    ensures !AgreesWithIsa(i)
  {
    hide Imm12, Funct3, Funct6, Shamt6, Bit25, ImmI, Plus, Less, Xor, Or, And, AluImmLeft, AluImmRight, ShiftLeft, Sra,
         SetBit, ClearBit, InvertBit, ExtractBit, RotateR, OrBytes, SwapBytes;
    var n := Shamt6(i);
    if Funct3(i) == 4 {
      Code287(i);
      XoriDiffers();
      assert Some(Decoded(i, 0)) != IsaOpImm(i, 0);
    } else if Funct3(i) == 1 {
      SingleBitsAreNotShifts(n);
      LeftDecodes(i, 0);
      LeftDecodes(i, 1);
      assert Some(Decoded(i, 0)) != IsaOpImm(i, 0) || Some(Decoded(i, 1)) != IsaOpImm(i, 1);
    } else {
      LargeShamt(i);
      ExtractIsNoShift(n);
      RotateIsNoShift(n, 0);
      RightDecodes(i, 1);
      RightDecodes(i, 0xFFFF_FFFF_FFFF_FFFF);
      assert Some(Decoded(i, 1)) != IsaOpImm(i, 1)
        || Some(Decoded(i, 0xFFFF_FFFF_FFFF_FFFF)) != IsaOpImm(i, 0xFFFF_FFFF_FFFF_FFFF);
    }
  }

  // ----- The base instruction set alone -----

  function BaseRight(i: bv32, x: bv64): bv64 {
    if i & 0x4000_0000 == 0 then ShiftRight(x, Shamt6(i)) else Sra(x, Shamt6(i))
  }

  /** The nine RV64I operations: shifts look at bit 30 and the shift amount only. */
  function BaseOpImm(i: bv32, x: bv64): bv64 {
    var f3 := Funct3(i);
    if f3 == 0 then Plus(x, ImmI(i))
    else if f3 == 1 then ShiftLeft(x, Shamt6(i))
    else if f3 == 2 then Flag(Less(x, ImmI(i)))
    else if f3 == 3 then Flag(x < ImmI(i))
    else if f3 == 4 then Xor(x, ImmI(i))
    else if f3 == 5 then BaseRight(i, x)
    else if f3 == 6 then Or(x, ImmI(i))
    else And(x, ImmI(i))
  }

  predicate LeftTaken(i: bv32) {
    var imm12, f7 := Imm12(i), Funct7(i);
    || imm12 == 0x600 || imm12 == 0x601 || imm12 == 0x602 || imm12 == 0x604 || imm12 == 0x605
    || f7 == 0x24 || f7 == 0x34 || f7 == 0x14
  }

  /** A rotation by nothing is as good as a shift by nothing. */
  predicate RightTaken(i: bv32) {
    var imm12, f7 := Imm12(i), Funct7(i);
    imm12 == 0x287 || imm12 == 0x6B8 || f7 == 0x24 || (f7 == 0x30 && Shamt6(i) != 0)
  }

  /** The words that are taken for a Zbb or Zbs instruction. */
  predicate TakenForBits(i: bv32) {
    var f3 := Funct3(i);
    (f3 == 1 && LeftTaken(i)) || (f3 == 4 && Imm12(i) == 0x287) || (f3 == 5 && RightTaken(i))
  }

  ghost predicate AgreesWithBase(i: bv32) {
    forall x :: Decoded(i, x) == BaseOpImm(i, x)
  }

  lemma NothingSet(n: nat)
    requires n < 64
    ensures !Bit(0, n)
  {
    hide CarryLess.Index;
    ZeroShifted(CarryLess.Index(n));
  }

  lemma ZeroShifted(n: bv6)
    ensures ShiftRight(0, n) == 0 && ShiftLeft(0, n) == 0
  {
  }

  lemma CountSmall(n: nat)
    requires n <= 64
    ensures Count(n) <= 64 && (n > 0 ==> Count(n) != 0)
  {
  }

  lemma CountsAreNotShifts(n: bv6)
    ensures Count(LeadingZeros(0, 64)) != ShiftLeft(0, n) && Count(TrailingZeros(0, 0, 64)) != ShiftLeft(0, n)
    ensures Count(Population(0xFFFF_FFFF_FFFF_FFFF, 64)) != ShiftLeft(0xFFFF_FFFF_FFFF_FFFF, 2)
  {
    hide Bit, Count, ShiftLeft;
    ZeroShifted(n);
    var a, b, c := LeadingZeros(0, 64), TrailingZeros(0, 0, 64), Population(0xFFFF_FFFF_FFFF_FFFF, 64);
    if a < 64 {
      NothingSet(63 - a);
    }
    if b < 64 {
      NothingSet(b);
    }
    CountSmall(a);
    CountSmall(b);
    CountSmall(c);
    OnesShifted();
  }

  lemma OnesShifted()
    ensures ShiftLeft(0xFFFF_FFFF_FFFF_FFFF, 2) > 64
  {
  }

  lemma ExtensionsAreNotShifts()
    ensures Signed8(0x80) != ShiftLeft(0x80, 4) && Signed16(0x8000) != ShiftLeft(0x8000, 5)
  {
  }

  lemma {:induction false} OrBytesStays(n: nat)
    requires 0 < n <= 8
    ensures OrBytes(1, n) != 0
  {
    hide ByteMask, Overlaps, Merge;
    if n == 1 {
      FirstByte();
    } else {
      OrBytesStays(n - 1);
      MergeStays(OrBytes(1, n - 1), ByteMask(n - 1));
    }
  }

  lemma FirstByte()
    ensures Overlaps(1, ByteMask(0)) && Merge(0, ByteMask(0)) != 0
  {
    ShiftZero(0xFF);
    hide Left;
  }

  lemma MergeStays(x: bv64, y: bv64)
    requires x != 0
    ensures Merge(x, y) != 0
  {
  }

  lemma BytesAreNotShifts()
    ensures OrBytes(1, 8) != ShiftRight(1, 7) && SwapBytes(1) != Sra(1, 0x38)
  {
    OrBytesStays(8);
    hide OrBytes;
  }

  lemma FixedAmounts(i: bv32)
    ensures Imm12(i) == 0x602 ==> Shamt6(i) == 2
    ensures Imm12(i) == 0x604 ==> Shamt6(i) == 4
    ensures Imm12(i) == 0x605 ==> Shamt6(i) == 5
    ensures Imm12(i) == 0x287 ==> Shamt6(i) == 7 && i & 0x4000_0000 == 0
    ensures Imm12(i) == 0x6B8 ==> Shamt6(i) == 0x38 && i & 0x4000_0000 != 0
    ensures Funct7(i) == 0x24 || Funct7(i) == 0x30 ==> i & 0x4000_0000 != 0
  {
  }

  lemma LeftTakenIff(i: bv32)
    ensures (forall x :: AluImmLeft(i, x, ImmI(i)) == ShiftLeft(x, Shamt6(i))) <==> !LeftTaken(i)
  {
    hide Imm12, Funct7, Shamt6, Shamt, ImmI, ShiftLeft, SetBit, ClearBit, InvertBit, LeadingZeros, TrailingZeros,
         Population, Count, Signed8, Signed16;
    ShamtOfImmediate(i);
    if LeftTaken(i) {
      var n := Shamt6(i);
      FixedAmounts(i);
      CountsAreNotShifts(n);
      ExtensionsAreNotShifts();
      SingleBitsAreNotShifts(n);
      assert AluImmLeft(i, 0, ImmI(i)) != ShiftLeft(0, n) || AluImmLeft(i, 1, ImmI(i)) != ShiftLeft(1, n)
        || AluImmLeft(i, 0x80, ImmI(i)) != ShiftLeft(0x80, n) || AluImmLeft(i, 0x8000, ImmI(i)) != ShiftLeft(0x8000, n)
        || AluImmLeft(i, 0xFFFF_FFFF_FFFF_FFFF, ImmI(i)) != ShiftLeft(0xFFFF_FFFF_FFFF_FFFF, n);
    }
  }

  lemma RightTakenIff(i: bv32)
    ensures (forall x :: AluImmRight(i, x, ImmI(i)) == BaseRight(i, x)) <==> !RightTaken(i)
  {
    hide Imm12, Funct7, Shamt6, Shamt, ImmI, ShiftRight, Sra, ExtractBit, RotateR, OrBytes, SwapBytes;
    ShamtOfImmediate(i);
    FixedAmounts(i);
    if RightTaken(i) {
      BytesAreNotShifts();
      ExtractIsNoShift(Shamt6(i));
      RotateIsNoShift(Shamt6(i), 0);
      assert AluImmRight(i, 1, ImmI(i)) != BaseRight(i, 1)
        || AluImmRight(i, 0xFFFF_FFFF_FFFF_FFFF, ImmI(i)) != BaseRight(i, 0xFFFF_FFFF_FFFF_FFFF);
    } else {
      forall x
        ensures AluImmRight(i, x, ImmI(i)) == BaseRight(i, x)
      {
        RotateIsNoShift(Shamt6(i), x);
      }
    }
  }

  /** An OP-IMM word is executed as its base-set operation, for every operand, if and only if it is not taken for a
      bit-manipulation instruction. */
  lemma OpImmIsBaseIff(i: bv32)
    ensures AgreesWithBase(i) <==> !TakenForBits(i)
  {
    hide Imm12, Funct3, Shamt6, ImmI, Plus, Less, Xor, Or, And, AluImmLeft, AluImmRight, LeftTaken, RightTaken,
         ShiftLeft, ShiftRight, Sra;
    LeftTakenIff(i);
    RightTakenIff(i);
    if Funct3(i) == 4 && Imm12(i) == 0x287 {
      Code287(i);
      XoriDiffers();
      assert Decoded(i, 0) != BaseOpImm(i, 0);
    } else if Funct3(i) == 1 || Funct3(i) == 5 {
      ShiftsDecide(i);
    }
  }

  lemma ShiftsDecide(i: bv32)
    requires Funct3(i) == 1 || Funct3(i) == 5
    ensures AgreesWithBase(i) <==>
      if Funct3(i) == 1 then forall x :: AluImmLeft(i, x, ImmI(i)) == ShiftLeft(x, Shamt6(i))
      else forall x :: AluImmRight(i, x, ImmI(i)) == BaseRight(i, x)
  {
    hide Funct3, Shamt6, ImmI, AluImmLeft, AluImmRight, ShiftLeft, ShiftRight, Sra;
    forall x
      ensures Funct3(i) == 1 ==>
                Decoded(i, x) == AluImmLeft(i, x, ImmI(i)) && BaseOpImm(i, x) == ShiftLeft(x, Shamt6(i))
      ensures Funct3(i) == 5 ==> Decoded(i, x) == AluImmRight(i, x, ImmI(i)) && BaseOpImm(i, x) == BaseRight(i, x)
    {
    }
  }

  /** XORI with immediate 0x287 and a zero operand writes 0 where the manual says 0x287. */
  lemma XoriWritesZero(h: Hart, rd: bv5, o: Oracle)
    requires rd != 0
    ensures var i := IWord(0x287, 0, 4, rd, 0x13);
      && Funct3(i) == 4 && ImmI(i) == 0x287
      && IsaOpImm(i, X(h, 0)) == Some(0x287)
      && Execute(h, i, 4, o) == Write1(h, rd, 0, 4) != Write1(h, rd, 0x287, 4)
  {
    IFields(0x287, 0, 4, rd, 0x13);
    hide IWord, Funct3, ImmI, Imm12, Opcode, Rd, Rs1, Plus, HartState.Index;
    Code287(IWord(0x287, 0, 4, rd, 0x13));
    assert SetX(h, rd, 0).regs[HartState.Index(rd)] != SetX(h, rd, 0x287).regs[HartState.Index(rd)];
    assert Write1(h, rd, 0, 4).hart.regs != Write1(h, rd, 0x287, 4).hart.regs;
  }

  /** No OP-IMM word is refused, reserved ones included. */
  lemma NeverRefused(h: Hart, i: bv32, o: Oracle)
    requires Opcode(i) == 0x13
    ensures Execute(h, i, 4, o) == Write1(h, Rd(i), Decoded(i, X(h, Rs1(i))), 4)
  {
    hide Opcode, Funct3, Rd, Rs1, ImmI, AluImm, Plus, X;
  }

  // ----- OP-IMM-32 -----

  /** The value of an OP-IMM-32 instruction as the manual assigns it. */
  function IsaOpImmW(i: bv32, x: bv64): Option<bv64> {
    var f3, f7 := Funct3(i), Funct7(i);
    var w, n := Low32(x), Shamt5(i);
    if f3 == 0 then Some(Widen(Add32(w, Low32(ImmI(i)))))
    else if f3 == 1 && f7 == 0 then Some(Widen(ShiftLeft32(w, n)))
    else if f3 == 1 && Funct6(i) == 0x02 then Some(ShiftLeft(ZeroExtend(x), Shamt6(i)))
    else if f3 == 1 && f7 == 0x30 && n == 0 then Some(Count(LeadingZeros(ZeroExtend(x), 32)))
    else if f3 == 1 && f7 == 0x30 && n == 1 then Some(Count(TrailingZeros(ZeroExtend(x), 0, 32)))
    else if f3 == 1 && f7 == 0x30 && n == 2 then Some(Count(Population(ZeroExtend(x), 32)))
    else if f3 == 5 && f7 == 0 then Some(Widen(ShiftRight32(w, n)))
    else if f3 == 5 && f7 == 0x20 then Some(Widen(Sra32(w, n)))
    else if f3 == 5 && f7 == 0x30 then Some(Widen(RotateR32(w, n)))
    else None
  }

  function DecodedW(i: bv32, x: bv64): Option<bv64> {
    AluImmW(i, Funct3(i), x, ImmI(i))
  }

  ghost predicate AgreesWithIsaW(i: bv32) {
    forall x :: DecodedW(i, x) == IsaOpImmW(i, x)
  }

  /** SLLI.UW with a shift amount of 32 or more, and RORIW by anything but nothing. */
  predicate DepartsW(i: bv32) {
    || (Funct3(i) == 1 && Funct6(i) == 0x02 && Bit25(i))
    || (Funct3(i) == 5 && Funct7(i) == 0x30 && Shamt5(i) != 0)
  }

  lemma WordCodes(i: bv32)
    ensures Imm12(i) == 0x600 <==> Funct7(i) == 0x30 && Shamt5(i) == 0
    ensures Imm12(i) == 0x601 <==> Funct7(i) == 0x30 && Shamt5(i) == 1
    ensures Imm12(i) == 0x602 <==> Funct7(i) == 0x30 && Shamt5(i) == 2
    ensures Imm12(i) == 0x604 || Imm12(i) == 0x605 <==> Funct7(i) == 0x30 && (Shamt5(i) == 4 || Shamt5(i) == 5)
    ensures Imm12(i) == 0x698 ==> Funct7(i) == 0x34
    ensures Funct7(i) == 0 ==> i & 0x4000_0000 == 0 && Funct6(i) == 0
    ensures Funct7(i) == 0x20 || Funct7(i) == 0x30 ==> i & 0x4000_0000 != 0 && Funct6(i) != 0x02
  {
  }

  lemma Rotate32IsNoShift(n: bv5, w: bv32)
    ensures n != 0 ==> Widen(RotateR32(Low32(1), n)) != Widen(Sra32(Low32(1), n))
    ensures n == 0 ==> RotateR32(w, n) == Sra32(w, n)
  {
  }

  lemma WideShiftIsNoWordShift(i: bv32)
    requires Bit25(i)
    ensures ShiftLeft(ZeroExtend(1), Shamt6(i)) != Widen(ShiftLeft32(Low32(1), Shamt5(i)))
  {
    ShamtParts(i);
    hide Shamt6, Shamt5, Bit25;
    WideDiffers(Shamt6(i), Shamt5(i));
  }

  lemma ShamtParts(i: bv32)
    requires Bit25(i)
    ensures Shamt6(i) >= 32 && Shamt5(i) == (Shamt6(i) & 0x1F) as bv5
  {
  }

  lemma WideDiffers(n: bv6, m: bv5)
    requires n >= 32 && m == (n & 0x1F) as bv5
    ensures ShiftLeft(ZeroExtend(1), n) != Widen(ShiftLeft32(Low32(1), m))
  {
  }

  /** Every assigned OP-IMM-32 instruction gives the manual's value for every operand, if and only if it is not one
      of those above. */
  lemma OpImmWAgreesIff(i: bv32)
    requires IsaOpImmW(i, 0).Some?
    ensures AgreesWithIsaW(i) <==> !DepartsW(i)
  {
    hide Imm12, Funct3, Funct6, Funct7, Shamt6, Shamt5, Shamt, Shamt32, Bit25, ImmI, Widen, Low32, Add32, ShiftLeft32,
         ShiftRight32, Sra32, RotateR32, ShiftLeft, ZeroExtend, Count, LeadingZeros, TrailingZeros, Population;
    ShamtOfImmediate(i);
    WordCodes(i);
    SevenBits(i);
    if DepartsW(i) {
      Rotate32IsNoShift(Shamt5(i), 0);
      if Funct3(i) == 1 {
        WideShiftIsNoWordShift(i);
      }
      assert DecodedW(i, 1) != IsaOpImmW(i, 1);
    } else {
      forall x
        ensures DecodedW(i, x) == IsaOpImmW(i, x)
      {
        Rotate32IsNoShift(Shamt5(i), Low32(x));
      }
    }
  }

  /** ZEXT.H, which RV64 encodes in OP-32, is refused. */
  lemma ZeroExtendHalfRefused(h: Hart, i: bv32, o: Oracle)
    requires Opcode(i) == 0x3B && Funct7(i) == 0x04 && Funct3(i) == 4 && Rs2(i) == 0
    ensures Execute(h, i, 4, o) == Raise(h, Exc(PT.IllegalInstruction), i as bv64)
  {
    hide Opcode, Funct3, Funct7, Rs1, Rs2, Rd, ImmI, Low32, Shamt32, X;
  }

  // ----- Inputs that show the departures -----

  /** BCLRI x1, x1, 32 shifts 1 left instead of leaving it. */
  lemma LargeClearDiffers()
    ensures var bclri: bv32 := 0x4A00_9093;
      Decoded(bclri, 1) == 0x1_0000_0000 && IsaOpImm(bclri, 1) == Some(1)
  {
    hide LeadingZeros, TrailingZeros, Population, Count, OrBytes, SwapBytes, Signed8, Signed16;
  }

  /** RORI x1, x1, 32 shifts 1 away instead of rotating it. */
  lemma LargeRotateDiffers()
    ensures var rori: bv32 := 0x6200_D093;
      Decoded(rori, 1) == 0 && IsaOpImm(rori, 1) == Some(0x1_0000_0000)
  {
    hide LeadingZeros, TrailingZeros, Population, Count, OrBytes, SwapBytes, Signed8, Signed16;
  }

  /** SLLI.UW x1, x1, 32 leaves 1 instead of shifting it, RORIW x1, x1, 1 shifts it away instead of rotating, and
      RORIW x1, x1, 4 is refused. */
  lemma WordAmountsDiffer()
    ensures var slliuw: bv32, roriw: bv32, refused: bv32 := 0x0A00_909B, 0x6010_D09B, 0x6040_D09B;
      && DecodedW(slliuw, 1) == Some(1) && IsaOpImmW(slliuw, 1) == Some(0x1_0000_0000)
      && DecodedW(roriw, 1) == Some(0) && IsaOpImmW(roriw, 1) == Some(0xFFFF_FFFF_8000_0000)
      && DecodedW(refused, 1) == None && IsaOpImmW(refused, 1).Some?
  {
    hide LeadingZeros, TrailingZeros, Population, Count;
  }
}
