/** The bit counts, the byte operations and the single-bit immediates, by the bits and bytes of their operand. */
module BitCounts {
  import opened Words
  import opened WordNumbers
  import opened WordBits
  import opened HartState
  import opened BitManipulation
  import opened Standard
  import opened ArithmeticMeaning
  import opened InstructionMeaning
  import opened Immediates
  import opened ControlMeaning
  import ID = ImmediateDecoding
  import C = CarryLess

  lemma BitLowest(x: bv64, k: nat)
    requires k < 64
    ensures C.Bit(x, k) <==> Lowest(C.Right(x, k)) == 1
  {
    hide C.Right;
  }

  lemma BitIs(x: bv64, k: nat)
    requires k < 64
    ensures C.Bit(x, k) <==> BitAt(x, k)
  {
    hide C.Bit, C.Right, Lowest, Unsigned;
    BitLowest(x, k);
    RightNumber(x, k);
    HalfNumber(C.Right(x, k));
    Identities(C.Right(x, k), 0);
    Bits0And1();
  }

  // ----- Counting bits -----

  const U_MASK: bv32 := 0xFFF0_707F

  /** The words that count over 64 bits, and those that count over 32. */
  function Counts(m: bv32): Option<nat> {
    if m == 0x6000_1013 || m == 0x6010_1013 || m == 0x6020_1013 then Some(64)
    else if m == 0x6000_101B || m == 0x6010_101B || m == 0x6020_101B then Some(32)
    else None
  }

  function BitsBelow(x: bv64, n: nat): set<nat> { set k: nat | k < n && BitAt(x, k) }

  /** `z` is how many of the `n` lowest bits lie above the highest one set, below the lowest one set, or are set. */
  ghost predicate Counted(m: bv32, x: bv64, n: nat, z: nat)
    requires n <= 64
  {
    if m == 0x6000_1013 || m == 0x6000_101B then
      z <= n && (z < n ==> BitAt(x, n - 1 - z)) && forall k: nat :: n - z <= k < n ==> !BitAt(x, k)
    else if m == 0x6010_1013 || m == 0x6010_101B then
      z <= n && (z < n ==> BitAt(x, z)) && forall k: nat :: k < z ==> !BitAt(x, k)
    else z == |BitsBelow(x, n)|
  }

  lemma {:induction false} PopulationIs(x: bv64, n: nat)
    requires n <= 64
    ensures Population(x, n) == |BitsBelow(x, n)|
  {
    hide C.Bit, BitAt;
    if n == 0 {
      assert BitsBelow(x, 0) == {};
    } else {
      PopulationIs(x, n - 1);
      BitIs(x, n - 1);
      assert BitsBelow(x, n) == BitsBelow(x, n - 1) + if BitAt(x, n - 1) then {n - 1} else {};
    }
  }

  lemma CountNumber(z: nat)
    requires z <= 64
    ensures Unsigned(Count(z)) == z
  {
    CountFits(z);
    hide Unsigned;
  }

  lemma CountFits(z: nat)
    requires z <= 64
    ensures (z as bv7) as int == z
    ensures (z as bv7) as bv64 as int == z
  {
  }

  lemma LowBitsAlike(x: bv64, k: nat)
    requires k < 32
    ensures BitAt(ZeroExtend(x), k) <==> BitAt(x, k)
  {
    assert ZeroExtend(x) == Meet(x, 0xFFFF_FFFF);
    hide ZeroExtend, Meet, BitAt;
    BitwiseBits(x, 0xFFFF_FFFF, k);
    LowOnes(k);
  }

  lemma LowOnes(k: nat)
    requires k < 32
    ensures BitAt(0xFFFF_FFFF, k)
  {
    hide Unsigned;
    Limits();
    AllLow();
    Powers();
    PowerAdds(k, 32 - k);
    OnesBelow(Pow2(k), Pow2(31 - k), 0x1_0000_0000);
  }

  lemma AllLow()
    ensures Unsigned(0xFFFF_FFFF) == 0xFFFF_FFFF
  {
  }

  lemma OnesBelow(p: nat, q: nat, t: nat)
    requires p > 0 && q > 0 && p * (2 * q) == t
    ensures (t - 1) / p % 2 == 1
  {
    assert t - 1 == p * (2 * q - 1) + (p - 1);
    DivModUnique(t - 1, p, 2 * q - 1, p - 1);
  }

  lemma LeadingIs(m: bv32, x: bv64, n: nat)
    requires n <= 64 && (m == 0x6000_1013 || m == 0x6000_101B)
    ensures Counted(m, x, n, LeadingZeros(x, n))
  {
    hide C.Bit, BitAt;
    var z := LeadingZeros(x, n);
    forall k: nat | n - z <= k < n
      ensures !BitAt(x, k)
    {
      BitIs(x, k);
    }
    if z < n {
      BitIs(x, n - 1 - z);
    }
  }

  lemma TrailingIs(m: bv32, x: bv64, n: nat)
    requires n <= 64 && (m == 0x6010_1013 || m == 0x6010_101B)
    ensures Counted(m, x, n, TrailingZeros(x, 0, n))
  {
    hide C.Bit, BitAt;
    var z := TrailingZeros(x, 0, n);
    forall k: nat | k < z
      ensures !BitAt(x, k)
    {
      BitIs(x, k);
    }
    if z < n {
      BitIs(x, z);
    }
  }

  /** What is counted when only the low word matters. */
  lemma CountedLow(m: bv32, x: bv64, z: nat)
    requires Counted(m, ZeroExtend(x), 32, z)
    ensures Counted(m, x, 32, z)
  {
    hide ZeroExtend, BitAt;
    forall k: nat | k < 32
      ensures BitAt(ZeroExtend(x), k) <==> BitAt(x, k)
    {
      LowBitsAlike(x, k);
    }
    assert BitsBelow(ZeroExtend(x), 32) == BitsBelow(x, 32);
  }

  lemma CountDecode(i: bv32, x: bv64)
    ensures i & U_MASK == 0x6000_1013 ==> Computed(i, x) == Some(Count(LeadingZeros(x, 64)))
    ensures i & U_MASK == 0x6010_1013 ==> Computed(i, x) == Some(Count(TrailingZeros(x, 0, 64)))
    ensures i & U_MASK == 0x6020_1013 ==> Computed(i, x) == Some(Count(Population(x, 64)))
  {
    CountCodes(i);
    hide Opcode, Funct3, Funct7, Imm12, ImmI, LeadingZeros, TrailingZeros, Population, Count;
  }

  lemma WordCountDecode(i: bv32, x: bv64)
    ensures i & U_MASK == 0x6000_101B ==> Computed(i, x) == Some(Count(LeadingZeros(ZeroExtend(x), 32)))
    ensures i & U_MASK == 0x6010_101B ==> Computed(i, x) == Some(Count(TrailingZeros(ZeroExtend(x), 0, 32)))
    ensures i & U_MASK == 0x6020_101B ==> Computed(i, x) == Some(Count(Population(ZeroExtend(x), 32)))
  {
    CountCodes(i);
    hide Opcode, Funct3, Funct7, Imm12, ImmI, LeadingZeros, TrailingZeros, Population, Count, ZeroExtend, Low32,
         Shamt32;
  }

  lemma CountCodes(i: bv32)
    ensures Opcode(i) == (i & U_MASK & 0x7F) as bv7 && Funct3(i) == (((i & U_MASK) >> 12) & 0x7) as bv3
    ensures Imm12(i) == ((i & U_MASK) >> 20) as bv12
  {
  }

  lemma CountValue(i: bv32, x: bv64) returns (z: nat)
    requires Counts(i & U_MASK).Some?
    ensures var n := Counts(i & U_MASK).value;
      && z <= 64 && Counted(i & U_MASK, x, n, z)
      && Computed(i, x).Some? && Unsigned(Computed(i, x).value) == z
  {
    hide Computed, Counted, Unsigned, Count, LeadingZeros, TrailingZeros, Population, ZeroExtend, BitAt;
    CountDecode(i, x);
    WordCountDecode(i, x);
    var m, n := i & U_MASK, Counts(i & U_MASK).value;
    var y := if n == 64 then x else ZeroExtend(x);
    if m == 0x6000_1013 || m == 0x6000_101B {
      z := LeadingZeros(y, n);
      LeadingIs(m, y, n);
    } else if m == 0x6010_1013 || m == 0x6010_101B {
      z := TrailingZeros(y, 0, n);
      TrailingIs(m, y, n);
    } else {
      z := Population(y, n);
      PopulationIs(y, n);
      CountedSet(m, y, n, z);
    }
    if n == 32 {
      CountedLow(m, x, z);
    }
    CountNumber(z);
  }

  lemma CountedSet(m: bv32, x: bv64, n: nat, z: nat)
    requires n <= 64 && (m == 0x6020_1013 || m == 0x6020_101B) && z == |BitsBelow(x, n)|
    ensures Counted(m, x, n, z)
  {
    hide BitAt;
  }

  /** CLZ, CTZ, CPOP and their word forms: the number left in the register is that of the clear bits above the highest
      one set, of those below the lowest one set, or of the bits set. */
  lemma CountOperations(h: Hart, i: bv32, len: bv64, o: Oracle) returns (z: nat)
    requires Counts(i & U_MASK).Some?
    ensures Counted(i & U_MASK, Operand1(h, i), Counts(i & U_MASK).value, z)
    ensures Leaves(h, Execute(h, i, len, o), Destination(i), z, Unsigned(h.pc) + Unsigned(len))
  {
    hide Execute, Computed, Operand1, Destination, Unsigned, Leaves, Counted;
    z := CountValue(i, Operand1(h, i));
    Reduced(z);
    ImmediateLeaves(h, i, len, o, z);
  }

  // ----- Bytes -----

  /** Byte `k` of a word. */
  function ByteAt(x: bv64, k: nat): nat { Unsigned(x) / Pow2(8 * k) % 0x100 }

  function Cut(x: bv64, i: bv6): bv64 { (x >> i) & 0xFF }

  lemma Positions()
    ensures Position(0) == 0 && Position(8) == 8 && Position(16) == 16 && Position(24) == 24
    ensures Position(32) == 32 && Position(40) == 40 && Position(48) == 48 && Position(56) == 56
  {
  }

  /** The position of byte `k`. */
  function Start(k: nat): (i: bv6)
    requires k < 8
    ensures i & 7 == 0
  {
    if k == 0 then 0 else if k == 1 then 8 else if k == 2 then 16 else if k == 3 then 24
    else if k == 4 then 32 else if k == 5 then 40 else if k == 6 then 48 else 56
  }

  lemma StartIs(k: nat)
    requires k < 8
    ensures Position(Start(k)) == 8 * k && C.Index(8 * k) == Start(k)
  {
    hide C.Index, Position;
    Positions();
    PositionIndex(Start(k));
  }

  lemma CutIs(x: bv64, i: bv6)
    ensures Cut(x, i) == Meet(C.ShiftRight(x, i), 0xFF)
  {
  }

  lemma CutNumber(x: bv64, k: nat)
    requires k < 8
    ensures Unsigned(Cut(x, Start(k))) == ByteAt(x, k)
  {
    hide Cut, Start, Meet, C.ShiftRight, Unsigned, Position, C.Index, Pow2;
    CutIs(x, Start(k));
    StartIs(k);
    ShiftNumbers(x, Start(k));
    LowNumbers(C.ShiftRight(x, Start(k)));
  }

  lemma SwapCut(x: bv64, i: bv6)
    requires i & 7 == 0
    ensures Cut(SwapBytes(x), i) == Cut(x, 56 - i)
  {
  }

  lemma StartMirror(k: nat)
    requires k < 8
    ensures 56 - Start(k) == Start(7 - k)
  {
  }

  lemma SwappedBytes(x: bv64, k: nat)
    requires k < 8
    ensures ByteAt(SwapBytes(x), k) == ByteAt(x, 7 - k)
  {
    hide Cut, Start, SwapBytes, ByteAt;
    SwapCut(x, Start(k));
    StartMirror(k);
    CutNumber(SwapBytes(x), k);
    CutNumber(x, 7 - k);
  }

  lemma MaskIs(k: nat)
    requires k < 8
    ensures ByteMask(k) == C.ShiftLeft(0xFF, Start(k))
  {
    hide C.ShiftLeft, C.Index, Start;
    StartIs(k);
  }

  lemma OverlapCut(x: bv64, i: bv6)
    requires i & 7 == 0
    ensures Overlaps(x, C.ShiftLeft(0xFF, i)) <==> Cut(x, i) != 0
  {
  }

  lemma MergeSame(x: bv64, i: bv6)
    requires i & 7 == 0
    ensures Cut(Merge(x, C.ShiftLeft(0xFF, i)), i) == 0xFF
  {
  }

  lemma MergeOther(x: bv64, i: bv6, j: bv6)
    requires i & 7 == 0 && j & 7 == 0 && i != j
    ensures Cut(Merge(x, C.ShiftLeft(0xFF, j)), i) == Cut(x, i)
  {
  }

  lemma DifferentStarts(k: nat, j: nat)
    requires k < 8 && j < 8 && k != j
    ensures Start(k) != Start(j)
  {
  }

  lemma NothingCut(i: bv6)
    ensures Cut(0, i) == 0
  {
  }

  lemma {:induction false} FilledCut(x: bv64, n: nat, k: nat)
    requires n <= 8 && k < 8
    ensures Cut(OrBytes(x, n), Start(k)) == if k < n && Cut(x, Start(k)) != 0 then 0xFF else 0
    decreases n
  {
    hide Cut, Start, Overlaps, Merge, ByteMask, C.ShiftLeft;
    if n == 0 {
      NothingCut(Start(k));
    } else {
      FilledCut(x, n - 1, k);
      MaskIs(n - 1);
      OverlapCut(x, Start(n - 1));
      if k == n - 1 {
        MergeSame(OrBytes(x, n - 1), Start(k));
      } else {
        DifferentStarts(k, n - 1);
        MergeOther(OrBytes(x, n - 1), Start(k), Start(n - 1));
      }
    }
  }

  lemma FilledBytes(x: bv64, k: nat)
    requires k < 8
    ensures ByteAt(OrBytes(x, 8), k) == if ByteAt(x, k) == 0 then 0 else 0xFF
  {
    hide Cut, Start, OrBytes, ByteAt, Unsigned;
    FilledCut(x, 8, k);
    CutNumber(x, k);
    CutNumber(OrBytes(x, 8), k);
    Ends(Cut(x, Start(k)));
  }

  lemma Ends(b: bv64)
    ensures Unsigned(b) == 0 <==> b == 0
    ensures Unsigned(0xFF) == 0xFF
  {
    Bits0And1();
    if Unsigned(b) == 0 {
      SameNumber(b, 0);
    }
  }

  /** Byte `k` after REV8 or ORC.B. */
  function NewByte(m: bv32, x: bv64, k: nat): nat
    requires k < 8
  {
    if m == 0x6B80_5013 then ByteAt(x, 7 - k) else if ByteAt(x, k) == 0 then 0 else 0xFF
  }

  predicate IsBytes(m: bv32) { m == 0x6B80_5013 || m == 0x2870_5013 }

  lemma BytesDecode(i: bv32, x: bv64)
    ensures i & U_MASK == 0x6B80_5013 ==> Computed(i, x) == Some(SwapBytes(x))
    ensures i & U_MASK == 0x2870_5013 ==> Computed(i, x) == Some(OrBytes(x, 8))
  {
    CountCodes(i);
    hide Opcode, Funct3, Funct7, Imm12, ImmI, SwapBytes, OrBytes;
  }

  lemma BytesValue(i: bv32, x: bv64) returns (v: bv64)
    requires IsBytes(i & U_MASK)
    ensures Computed(i, x) == Some(v)
    ensures forall k: nat :: k < 8 ==> ByteAt(v, k) == NewByte(i & U_MASK, x, k)
  {
    hide Computed, SwapBytes, OrBytes, ByteAt;
    BytesDecode(i, x);
    v := if i & U_MASK == 0x6B80_5013 then SwapBytes(x) else OrBytes(x, 8);
    forall k: nat | k < 8
      ensures ByteAt(v, k) == NewByte(i & U_MASK, x, k)
    {
      SwappedBytes(x, k);
      FilledBytes(x, k);
    }
  }

  /** REV8 leaves the bytes in the opposite order; ORC.B replaces every byte but zero by 0xFF. */
  lemma ByteOperations(h: Hart, i: bv32, len: bv64, o: Oracle) returns (v: bv64)
    requires IsBytes(i & U_MASK)
    ensures Leaves(h, Execute(h, i, len, o), Destination(i), Unsigned(v), Unsigned(h.pc) + Unsigned(len))
    ensures forall k: nat :: k < 8 ==> ByteAt(v, k) == NewByte(i & U_MASK, Operand1(h, i), k)
  {
    hide Execute, Computed, Operand1, Destination, Unsigned, Leaves, ByteAt, IsBytes, NewByte;
    v := BytesValue(i, Operand1(h, i));
    Reduced(Unsigned(v));
    ImmediateLeaves(h, i, len, o, Unsigned(v));
  }

  // ----- Sign extension, rotation and single bits by an immediate -----

  /** SEXT.B and SEXT.H. */
  function ExtensionOf(m: bv32, x: bv64): Option<int> {
    if m == 0x6040_1013 then Some(Wrapped(Unsigned(x), 8))
    else if m == 0x6050_1013 then Some(Wrapped(Unsigned(x), 16))
    else None
  }

  lemma ExtensionDecode(i: bv32, x: bv64)
    ensures i & U_MASK == 0x6040_1013 ==> Computed(i, x) == Some(Signed8(x))
    ensures i & U_MASK == 0x6050_1013 ==> Computed(i, x) == Some(Signed16(x))
  {
    CountCodes(i);
    hide Opcode, Funct3, Funct7, Imm12, ImmI, Signed8, Signed16;
  }

  /** The sign extensions leave the integer that the lowest bits denote in two's complement. */
  lemma ExtensionOperations(h: Hart, i: bv32, len: bv64, o: Oracle)
    ensures var e := ExtensionOf(i & U_MASK, Operand1(h, i));
      e.Some? ==> Leaves(h, Execute(h, i, len, o), Destination(i), e.value, Unsigned(h.pc) + Unsigned(len))
  {
    hide Execute, Computed, Operand1, Destination, Unsigned, Signed, Leaves, Wrapped, Signed8, Signed16;
    var x := Operand1(h, i);
    var e := ExtensionOf(i & U_MASK, x);
    if e.Some? {
      ExtensionDecode(i, x);
      SignExtensions(x);
      SignedNumber(Computed(i, x).value);
      ImmediateLeaves(h, i, len, o, e.value);
    }
  }

  /** RORI and BEXTI by less than 32, and SLLI.UW. */
  function ImmediateOther(m: bv32, x: bv64, n: nat): Option<int>
    requires n < 32
  {
    if m == 0x6000_5013 then Some(Unsigned(x) / Pow2(n) + Unsigned(x) * Pow2(64 - n))
    else if m == 0x4800_5013 then Some(Unsigned(x) / Pow2(n) % 2)
    else if m == 0x0800_101B then Some(UnsignedLow(x) * Pow2(n))
    else None
  }

  lemma OtherCodes(i: bv32)
    ensures i & R_MASK == 0x6000_5013 ==> Opcode(i) == 0x13 && Funct3(i) == 5 && Funct7(i) == 0x30
    ensures i & R_MASK == 0x4800_5013 ==> Opcode(i) == 0x13 && Funct3(i) == 5 && Funct7(i) == 0x24
    ensures i & R_MASK == 0x0800_101B ==> Opcode(i) == 0x1B && Funct3(i) == 1 && Funct7(i) == 0x04
    ensures i & R_MASK == 0x0800_101B ==> Imm12(i) < 0x600
    ensures i & R_MASK == 0x4800_5013 || i & R_MASK == 0x6000_5013 ==> 0x480 <= Imm12(i) < 0x6B8
  {
  }

  lemma SmallAmount(i: bv32)
    requires i & R_MASK == 0x6000_5013 || i & R_MASK == 0x4800_5013 || i & R_MASK == 0x0800_101B
        || i & R_MASK == 0x4800_1013 || i & R_MASK == 0x6800_1013 || i & R_MASK == 0x2800_1013
    ensures Position(ID.Shamt6(i)) == Amount5(i) && Amount5(i) < 32
  {
  }

  lemma OtherDecoded(i: bv32, x: bv64)
    ensures i & R_MASK == 0x6000_5013 ==> Computed(i, x) == Some(RotateR(x, ID.Shamt6(i)))
    ensures i & R_MASK == 0x4800_5013 ==> Computed(i, x) == Some(ExtractBit(x, ID.Shamt6(i)))
    ensures i & R_MASK == 0x0800_101B ==> Computed(i, x) == Some(C.ShiftLeft(ZeroExtend(x), ID.Shamt6(i)))
  {
    OtherCodes(i);
    ID.ShamtOfImmediate(i);
    hide Opcode, Funct3, Funct7, Imm12, C.ShiftLeft, RotateR, ExtractBit, ImmI, ID.Shamt6, Shamt, ZeroExtend, Low32,
         Shamt32;
  }

  lemma OtherValue(i: bv32, x: bv64)
    requires Amount5(i) < 32 && ImmediateOther(i & R_MASK, x, Amount5(i)).Some?
    ensures var r := Computed(i, x);
      r.Some? && Unsigned(r.value) == ImmediateOther(i & R_MASK, x, Amount5(i)).value % TWO_64
  {
    hide Computed, C.ShiftLeft, RotateR, ExtractBit, ZeroExtend, Unsigned, Pow2, Amount5, Position, UnsignedLow;
    var n := ID.Shamt6(i);
    OtherDecoded(i, x);
    SmallAmount(i);
    RotateNumber(x, n);
    ExtractNumber(x, n);
    ZeroExtendNumber(x);
    ShiftNumbers(ZeroExtend(x), n);
    Reduced(Unsigned(x) / Pow2(Amount5(i)) % 2);
  }

  /** RORI moves the lowest bits to the top, BEXTI leaves one bit, SLLI.UW shifts the low word. */
  lemma OtherImmediates(h: Hart, i: bv32, len: bv64, o: Oracle)
    requires Amount5(i) < 32
    ensures var e := ImmediateOther(i & R_MASK, Operand1(h, i), Amount5(i));
      e.Some? ==> Leaves(h, Execute(h, i, len, o), Destination(i), e.value, Unsigned(h.pc) + Unsigned(len))
  {
    hide Execute, Computed, Operand1, Destination, Unsigned, Leaves, ImmediateOther, Amount5;
    var e := ImmediateOther(i & R_MASK, Operand1(h, i), Amount5(i));
    if e.Some? {
      OtherValue(i, Operand1(h, i));
      ImmediateLeaves(h, i, len, o, e.value);
    }
  }

  /** Bit `k` of the result of BCLRI, BINVI and BSETI at position `n`. */
  function SingleBit(m: bv32, here: bool, a: bool): Option<bool> {
    if m == 0x4800_1013 then Some(a && !here)
    else if m == 0x6800_1013 then Some(a != here)
    else if m == 0x2800_1013 then Some(a || here)
    else None
  }

  lemma SingleCodes(i: bv32)
    requires i & R_MASK == 0x4800_1013 || i & R_MASK == 0x6800_1013 || i & R_MASK == 0x2800_1013
    ensures Opcode(i) == 0x13 && Funct3(i) == 1 && (Imm12(i) < 0x600 || Imm12(i) >= 0x680)
    ensures i & R_MASK == 0x4800_1013 ==> Funct7(i) == 0x24
    ensures i & R_MASK == 0x6800_1013 ==> Funct7(i) == 0x34
    ensures i & R_MASK == 0x2800_1013 ==> Funct7(i) == 0x14
  {
  }

  lemma SingleDecoded(i: bv32, x: bv64)
    ensures i & R_MASK == 0x4800_1013 ==> Computed(i, x) == Some(ClearBit(x, ID.Shamt6(i)))
    ensures i & R_MASK == 0x6800_1013 ==> Computed(i, x) == Some(InvertBit(x, ID.Shamt6(i)))
    ensures i & R_MASK == 0x2800_1013 ==> Computed(i, x) == Some(SetBit(x, ID.Shamt6(i)))
  {
    if i & R_MASK == 0x4800_1013 || i & R_MASK == 0x6800_1013 || i & R_MASK == 0x2800_1013 {
      SingleCodes(i);
    }
    ID.ShamtOfImmediate(i);
    hide Opcode, Funct3, Funct7, Imm12, ClearBit, InvertBit, SetBit, ImmI, ID.Shamt6, Shamt;
  }

  lemma SingleValue(i: bv32, x: bv64, k: nat)
    requires k < 64 && SingleBit(i & R_MASK, true, true).Some?
    ensures Computed(i, x).Some?
    ensures SingleBit(i & R_MASK, k == Amount5(i), BitAt(x, k)) == Some(BitAt(Computed(i, x).value, k))
  {
    hide Computed, ClearBit, InvertBit, SetBit, BitAt, Amount5, Position;
    SingleDecoded(i, x);
    SmallAmount(i);
    SingleBits(x, ID.Shamt6(i), k);
  }

  lemma SingleResult(i: bv32, x: bv64) returns (v: bv64)
    requires SingleBit(i & R_MASK, true, true).Some?
    ensures Computed(i, x) == Some(v)
    ensures forall k: nat :: k < 64 ==> SingleBit(i & R_MASK, k == Amount5(i), BitAt(x, k)) == Some(BitAt(v, k))
  {
    hide Computed, BitAt, Amount5, SingleBit;
    SingleValue(i, x, 0);
    v := Computed(i, x).value;
    forall k: nat | k < 64
      ensures SingleBit(i & R_MASK, k == Amount5(i), BitAt(x, k)) == Some(BitAt(v, k))
    {
      SingleValue(i, x, k);
    }
  }

  /** BCLRI, BINVI and BSETI by less than 32 clear, change or set one bit and keep the others. */
  lemma SingleBitImmediates(h: Hart, i: bv32, len: bv64, o: Oracle) returns (v: bv64)
    requires SingleBit(i & R_MASK, true, true).Some?
    ensures Leaves(h, Execute(h, i, len, o), Destination(i), Unsigned(v), Unsigned(h.pc) + Unsigned(len))
    ensures forall k: nat :: k < 64 ==>
        SingleBit(i & R_MASK, k == Amount5(i), BitAt(Operand1(h, i), k)) == Some(BitAt(v, k))
  {
    hide Execute, Computed, Operand1, Destination, Unsigned, Leaves, BitAt, SingleBit, Amount5;
    v := SingleResult(i, Operand1(h, i));
    Reduced(Unsigned(v));
    ImmediateLeaves(h, i, len, o, Unsigned(v));
  }
}
