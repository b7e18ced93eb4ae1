/** What the word operations of the instructions are in integers and in single bits. */
module ArithmeticMeaning {
  import opened Words
  import opened WordNumbers
  import opened WordBits
  import opened HartState
  import opened BitManipulation
  import opened Standard
  import C = CarryLess

  // ----- Order -----

  /** The two's-complement value is congruent to the word and lies between -2^63 and 2^63 - 1. */
  lemma SignedIs(x: bv64)
    ensures (Signed(x) - Unsigned(x)) % TWO_64 == 0
    ensures -0x8000_0000_0000_0000 <= Signed(x) <= 0x7FFF_FFFF_FFFF_FFFF
  {
    hide Unsigned;
  }

  /** The signed comparison compares the two's-complement values. */
  lemma LessIff(x: bv64, y: bv64)
    ensures Less(x, y) <==> Signed(x) < Signed(y)
  {
    hide Signed, Below, Flipped;
    SignedOrder(x, y);
  }

  // ----- The lowest bits -----

  /** The integer that the lowest `n` bits of `v` denote in two's complement. */
  function Wrapped(v: int, n: nat): (w: int)
    requires n > 0
  {
    (v + Pow2(n - 1)) % Pow2(n) - Pow2(n - 1)
  }

  lemma LowPart(x: bv64, low: bv64, n: nat)
    requires 0 < n < 64 && Added(C.Left(C.Right(x, n), n), low) == x && Unsigned(low) < Pow2(n)
    ensures Unsigned(low) == Unsigned(x) % Pow2(n)
  {
    hide C.Left, C.Right, Added, Unsigned, Pow2;
    RightNumber(x, n);
    LeftNumber(C.Right(x, n), n);
    AddNumber(C.Left(C.Right(x, n), n), low);
    Multiple(Unsigned(x), n);
    PutTogether(Unsigned(x), Pow2(n), Unsigned(x) / Pow2(n), Unsigned(low));
  }

  lemma PutTogether(u: nat, p: nat, q: nat, low: nat)
    requires p > 0 && low < p && q * p + p <= TWO_64 && u == (q * p % TWO_64 + low) % TWO_64
    ensures low == u % p
  {
    Reduced(q * p);
    Reduced(q * p + low);
    Swapped(q, p);
    DivModUnique(u, p, q, low);
  }

  lemma Swapped(q: int, p: int)
    ensures q * p == p * q
  {
  }

  lemma Multiple(u: nat, n: nat)
    requires n < 64 && u < TWO_64
    ensures 0 <= u / Pow2(n) * Pow2(n) && u / Pow2(n) * Pow2(n) + Pow2(n) <= TWO_64
  {
    hide Pow2;
    var p, q := Pow2(n), Pow2(64 - n);
    PowerAdds(n, 64 - n);
    Powers();
    assert p * q == TWO_64;
    QuotientBelow(u, p, q);
    Scaled(u / p, q, p);
  }

  lemma QuotientBelow(u: nat, p: nat, q: nat)
    requires p > 0 && u < p * q
    ensures u / p < q
  {
  }

  lemma Scaled(r: nat, q: nat, p: nat)
    requires r + 1 <= q
    ensures r * p + p <= p * q
  {
    assert (r + 1) * p <= q * p;
  }

  // The masks of 8, 16 and 32 bits.

  lemma LowByteParts(x: bv64)
    ensures Added(C.ShiftLeft(C.ShiftRight(x, 8), 8), Meet(x, 0xFF)) == x && Below(Meet(x, 0xFF), 0x100)
  {
  }

  lemma LowHalfParts(x: bv64)
    ensures Added(C.ShiftLeft(C.ShiftRight(x, 16), 16), Meet(x, 0xFFFF)) == x && Below(Meet(x, 0xFFFF), 0x1_0000)
  {
  }

  lemma LowWordParts(x: bv64)
    ensures Added(C.ShiftLeft(C.ShiftRight(x, 32), 32), Meet(x, 0xFFFF_FFFF)) == x
    ensures Below(Meet(x, 0xFFFF_FFFF), 0x1_0000_0000)
  {
  }

  lemma Limits()
    ensures Unsigned(0x100) == 0x100 && Unsigned(0x1_0000) == 0x1_0000 && Unsigned(0x1_0000_0000) == 0x1_0000_0000
  {
  }

  lemma Indices()
    ensures C.Index(8) == 8 && C.Index(16) == 16 && C.Index(32) == 32
  {
  }

  lemma PowersOfWidths()
    ensures Pow2(8) == 0x100 && Pow2(16) == 0x1_0000 && Pow2(32) == 0x1_0000_0000
    ensures Pow2(7) == 0x80 && Pow2(15) == 0x8000 && Pow2(31) == 0x8000_0000
  {
    SmallPowers();
    hide Pow2;
    Powers();
    PowerAdds(8, 8);
    PowerAdds(1, 7);
    PowerAdds(1, 15);
    PowerAdds(1, 31);
  }

  /** Masking keeps the remainder. */
  lemma LowNumbers(x: bv64)
    ensures Unsigned(Meet(x, 0xFF)) == Unsigned(x) % 0x100
    ensures Unsigned(Meet(x, 0xFFFF)) == Unsigned(x) % 0x1_0000
    ensures Unsigned(Meet(x, 0xFFFF_FFFF)) == Unsigned(x) % 0x1_0000_0000
  {
    hide Meet, Below, Added, Unsigned, C.Index, C.ShiftLeft, C.ShiftRight, Pow2;
    Limits();
    Indices();
    PowersOfWidths();
    LowByteParts(x);
    LowHalfParts(x);
    LowWordParts(x);
    OrderNumber(Meet(x, 0xFF), 0x100);
    OrderNumber(Meet(x, 0xFFFF), 0x1_0000);
    OrderNumber(Meet(x, 0xFFFF_FFFF), 0x1_0000_0000);
    LowPart(x, Meet(x, 0xFF), 8);
    LowPart(x, Meet(x, 0xFFFF), 16);
    LowPart(x, Meet(x, 0xFFFF_FFFF), 32);
  }

  // ----- Sign extension -----

  /** A word cut to a low part and moved down by the span when that part is negative. */
  lemma CutAndMoved(low: bv64, span: bv64, n: nat)
    requires 0 < n < 64 && Unsigned(span) == Pow2(n) && Unsigned(low) < Pow2(n)
    ensures Signed(if Unsigned(low) >= Pow2(n - 1) then Subtracted(low, span) else low) == Wrapped(Unsigned(low), n)
  {
    hide Unsigned, Subtracted;
    SubNumber(low, span);
    SpanFits(n);
    Reduced(Unsigned(low) - Unsigned(span));
    var u, p := Unsigned(low), Pow2(n - 1);
    if u >= p {
      DivModUnique(u + p, 2 * p, 1, u - p);
    } else {
      DivModUnique(u + p, 2 * p, 0, u + p);
    }
  }

  lemma SpanFits(n: nat)
    requires 0 < n < 64
    ensures 2 * Pow2(n) <= TWO_64 && Pow2(n) == 2 * Pow2(n - 1)
  {
    Powers();
    PowerAdds(n, 64 - n);
    TwiceOf(Pow2(n), Pow2(63 - n));
  }

  lemma TwiceOf(p: nat, q: nat)
    requires q > 0
    ensures 2 * p <= p * (2 * q)
  {
  }

  lemma WrappedLow(v: int, n: nat)
    requires n > 0
    ensures Wrapped(v % Pow2(n), n) == Wrapped(v, n)
  {
    hide Pow2;
    ShiftedRemainder(v, Pow2(n), Pow2(n - 1));
  }

  lemma ShiftedRemainder(v: int, p: int, h: int)
    requires p > 0
    ensures (v % p + h) % p == (v + h) % p
  {
    var q, r := v / p, v % p;
    SplitAt(v, p);
    SplitAt(r + h, p);
    Regroup(p, q, (r + h) / p, (r + h) % p);
    DivModUnique(v + h, p, q + (r + h) / p, (r + h) % p);
  }

  lemma SplitAt(v: int, p: int)
    requires p > 0
    ensures v == p * (v / p) + v % p && 0 <= v % p < p
  {
  }

  lemma Regroup(p: int, q: int, r: int, s: int)
    ensures p * q + (p * r + s) == p * (q + r) + s
  {
  }

  lemma SignBits(x: bv64)
    ensures Signed8(x) == if AtMost(0x80, Meet(x, 0xFF)) then Subtracted(Meet(x, 0xFF), 0x100) else Meet(x, 0xFF)
    ensures Signed16(x) == if AtMost(0x8000, Meet(x, 0xFFFF)) then Subtracted(Meet(x, 0xFFFF), 0x1_0000)
                           else Meet(x, 0xFFFF)
  {
  }

  lemma PositiveWord(x: bv64)
    requires !AtMost(0x8000_0000, Meet(x, 0xFFFF_FFFF))
    ensures Signed32(x) == Meet(x, 0xFFFF_FFFF)
  {
  }

  lemma NegativeWord(x: bv64)
    requires AtMost(0x8000_0000, Meet(x, 0xFFFF_FFFF))
    ensures Signed32(x) == Subtracted(Meet(x, 0xFFFF_FFFF), 0x1_0000_0000)
  {
  }

  lemma SignBits32(x: bv64)
    ensures Signed32(x) == if AtMost(0x8000_0000, Meet(x, 0xFFFF_FFFF)) then Subtracted(Meet(x, 0xFFFF_FFFF),
        0x1_0000_0000) else Meet(x, 0xFFFF_FFFF)
  {
    hide Signed32, AtMost, Meet, Subtracted;
    if AtMost(0x8000_0000, Meet(x, 0xFFFF_FFFF)) {
      NegativeWord(x);
    } else {
      PositiveWord(x);
    }
  }

  lemma HalfLimits()
    ensures Unsigned(0x80) == 0x80 && Unsigned(0x8000) == 0x8000 && Unsigned(0x8000_0000) == 0x8000_0000
  {
  }

  /** Sign extension of a byte, a halfword and a word. */
  lemma SignExtensions(x: bv64)
    ensures Signed(Signed8(x)) == Wrapped(Unsigned(x), 8)
    ensures Signed(Signed16(x)) == Wrapped(Unsigned(x), 16)
    ensures Signed(Signed32(x)) == Wrapped(Unsigned(x), 32)
  {
    hide Signed8, Signed16, Signed32, Meet, Subtracted, AtMost, Unsigned, Signed, Wrapped, Pow2;
    Limits();
    HalfLimits();
    PowersOfWidths();
    SignBits(x);
    SignBits32(x);
    LowNumbers(x);
    OrderNumber(0x80, Meet(x, 0xFF));
    OrderNumber(0x8000, Meet(x, 0xFFFF));
    OrderNumber(0x8000_0000, Meet(x, 0xFFFF_FFFF));
    CutAndMoved(Meet(x, 0xFF), 0x100, 8);
    CutAndMoved(Meet(x, 0xFFFF), 0x1_0000, 16);
    CutAndMoved(Meet(x, 0xFFFF_FFFF), 0x1_0000_0000, 32);
    WrappedLow(Unsigned(x), 8);
    WrappedLow(Unsigned(x), 16);
    WrappedLow(Unsigned(x), 32);
  }

  // ----- Shifts -----

  lemma ShamtParts(y: bv64)
    ensures Added(C.ShiftLeft(C.ShiftRight(y, 6), 6), Shamt(y) as bv64) == y && Below(Shamt(y) as bv64, 0x40)
    ensures Added(C.ShiftLeft(C.ShiftRight(y, 5), 5), Shamt32(y) as bv64) == y && Below(Shamt32(y) as bv64, 0x20)
  {
  }

  lemma ShamtWide(n: bv6, m: bv5)
    ensures Unsigned(n as bv64) == n as int && Unsigned(m as bv64) == m as int
  {
  }

  lemma ShamtLimits()
    ensures Unsigned(0x40) == 0x40 && Unsigned(0x20) == 0x20 && C.Index(6) == 6 && C.Index(5) == 5
    ensures Pow2(6) == 0x40 && Pow2(5) == 0x20
  {
  }

  /** The shift amount of an operand is its remainder modulo 64, or 32 for word operations. */
  lemma ShamtNumber(y: bv64)
    ensures Shamt(y) as int == Unsigned(y) % 64 && Shamt32(y) as int == Unsigned(y) % 32
  {
    hide Shamt, Shamt32, C.ShiftLeft, C.ShiftRight, C.Index, Below, Added, Unsigned, Pow2;
    ShamtParts(y);
    ShamtWide(Shamt(y), Shamt32(y));
    ShamtLimits();
    OrderNumber(Shamt(y) as bv64, 0x40);
    OrderNumber(Shamt32(y) as bv64, 0x20);
    LowPart(y, Shamt(y) as bv64, 6);
    LowPart(y, Shamt32(y) as bv64, 5);
  }

  lemma FloorOfNegative(a: nat, p: nat)
    requires p > 0
    ensures (-1 - a) / p == -1 - a / p
  {
    var q, r := a / p, a % p;
    assert -1 - a == p * (-1 - q) + (p - 1 - r);
    DivModUnique(-1 - a, p, -1 - q, p - 1 - r);
  }

  lemma QuotientAtMost(a: nat, p: nat)
    requires p > 0
    ensures 0 <= a / p <= a
  {
    SplitAt(a, p);
    AtLeastOnce(a / p, p);
  }

  lemma AtLeastOnce(q: nat, p: nat)
    requires p > 0
    ensures q <= p * q
  {
  }

  /** The arithmetic right shift divides the two's-complement value, rounding down. */
  lemma SraNumber(x: bv64, n: bv6)
    ensures Signed(Sra(x, n)) == Signed(x) / Pow2(Position(n))
  {
    hide TopBit, Complement, C.ShiftRight, Unsigned, Position, Pow2;
    TopNumber(x);
    var p := Pow2(Position(n));
    var z := C.ShiftRight(Complement(x), n);
    if TopBit(x) {
      NotNumber(x);
      ShiftNumbers(Complement(x), n);
      NotNumber(z);
      FloorOfNegative(Unsigned(Complement(x)), p);
      QuotientAtMost(Unsigned(Complement(x)), p);
    } else {
      ShiftNumbers(x, n);
      QuotientAtMost(Unsigned(x), p);
    }
  }

  // ----- 32-bit operations -----

  function Long(w: bv32): bv64 { w as bv64 }

  lemma LongBelow(w: bv32)
    ensures Below(Long(w), 0x1_0000_0000)
  {
  }

  function Word(w: bv32): (n: nat)
    ensures n < 0x1_0000_0000
  {
    LongBelow(w);
    Limits();
    OrderNumber(Long(w), 0x1_0000_0000);
    Unsigned(Long(w))
  }

  lemma SameInteger(w: bv32)
    ensures (w as bv64) as int == w as int
  {
  }

  lemma WordIs(w: bv32)
    ensures Word(w) == w as int && (w as int) as bv32 == w
  {
    SameInteger(w);
  }

  lemma LowExtended(x: bv64)
    ensures Long(Low32(x)) == Meet(x, 0xFFFF_FFFF)
  {
  }

  /** The low half of a word is its remainder, and widening is sign extension. */
  lemma LowWord(x: bv64, w: bv32)
    ensures Word(Low32(x)) == Unsigned(x) % 0x1_0000_0000
    ensures Signed(Widen(w)) == Wrapped(Word(w), 32)
  {
    hide Low32, Long, Meet, Unsigned, Signed, Wrapped, Signed32;
    LowExtended(x);
    LowNumbers(x);
    WidenIs(w);
    SignExtensions(Long(w));
  }

  lemma WidenIs(w: bv32)
    ensures Widen(w) == Signed32(Long(w))
  {
    hide Signed32;
  }

  lemma Add32Is(v: bv32, w: bv32)
    ensures Long(Add32(v, w)) == Meet(Added(Long(v), Long(w)), 0xFFFF_FFFF)
  {
  }

  lemma RawDifference(v: bv32, w: bv32)
    ensures Add32(v - w, w) == v
  {
  }

  lemma Sub32Back(v: bv32, w: bv32)
    ensures Add32(Sub32(v, w), w) == v
  {
    assert Sub32(v, w) == v - w;
    hide Sub32, Add32;
    RawDifference(v, w);
  }

  lemma NarrowMod(a: int)
    ensures a % TWO_64 % 0x1_0000_0000 == a % 0x1_0000_0000
  {
  }

  lemma Add32Number(v: bv32, w: bv32)
    ensures Word(Add32(v, w)) == (Word(v) + Word(w)) % 0x1_0000_0000
  {
    hide Add32, Long, Meet, Added, Unsigned;
    var x, y := Long(v), Long(w);
    Add32Is(v, w);
    AddNumber(x, y);
    LowNumbers(Added(x, y));
    NarrowMod(Unsigned(x) + Unsigned(y));
  }

  /** Sums and differences of 32-bit words. */
  lemma Sums32(v: bv32, w: bv32)
    ensures Word(Add32(v, w)) == (Word(v) + Word(w)) % 0x1_0000_0000
    ensures Word(Sub32(v, w)) == (Word(v) - Word(w)) % 0x1_0000_0000
  {
    hide Add32, Sub32, Word;
    Add32Number(v, w);
    Sub32Back(v, w);
    Add32Number(Sub32(v, w), w);
  }

  function Narrow(n: nat): bv5
    requires n < 32
  {
    n as bv5
  }

  lemma NarrowBack(i: bv5)
    ensures Narrow(i as int) == i && i as int < 32
  {
  }

  lemma NarrowNext(n: nat)
    requires n < 31
    ensures Narrow(n) < 31 && Narrow(n + 1) == Narrow(n) + 1
  {
  }

  function Up32(v: bv32): bv32 { v << 1 }

  function Down32(v: bv32): bv32 { v >> 1 }

  lemma LeftStep0(v: bv32, i: bv5)
    requires i < 31 && i & 3 == 0
    ensures ShiftLeft32(v, i + 1) == Up32(ShiftLeft32(v, i))
  {
  }

  lemma LeftStep1(v: bv32, i: bv5)
    requires i < 31 && i & 3 == 1
    ensures ShiftLeft32(v, i + 1) == Up32(ShiftLeft32(v, i))
  {
  }

  lemma LeftStep2(v: bv32, i: bv5)
    requires i < 31 && i & 3 == 2
    ensures ShiftLeft32(v, i + 1) == Up32(ShiftLeft32(v, i))
  {
  }

  lemma LeftStep3(v: bv32, i: bv5)
    requires i < 31 && i & 3 == 3
    ensures ShiftLeft32(v, i + 1) == Up32(ShiftLeft32(v, i))
  {
  }

  lemma RightStep0(v: bv32, i: bv5)
    requires i < 31 && i & 3 == 0
    ensures ShiftRight32(v, i + 1) == Down32(ShiftRight32(v, i))
  {
  }

  lemma RightStep1(v: bv32, i: bv5)
    requires i < 31 && i & 3 == 1
    ensures ShiftRight32(v, i + 1) == Down32(ShiftRight32(v, i))
  {
  }

  lemma RightStep2(v: bv32, i: bv5)
    requires i < 31 && i & 3 == 2
    ensures ShiftRight32(v, i + 1) == Down32(ShiftRight32(v, i))
  {
  }

  lemma RightStep3(v: bv32, i: bv5)
    requires i < 31 && i & 3 == 3
    ensures ShiftRight32(v, i + 1) == Down32(ShiftRight32(v, i))
  {
  }

  lemma StepBits(v: bv32, i: bv5)
    requires i < 31
    ensures ShiftLeft32(v, i + 1) == Up32(ShiftLeft32(v, i)) && ShiftRight32(v, i + 1) == Down32(ShiftRight32(v, i))
  {
    hide ShiftLeft32, ShiftRight32, Up32, Down32;
    if i & 3 == 0 {
      LeftStep0(v, i);
      RightStep0(v, i);
    } else if i & 3 == 1 {
      LeftStep1(v, i);
      RightStep1(v, i);
    } else if i & 3 == 2 {
      LeftStep2(v, i);
      RightStep2(v, i);
    } else {
      LeftStep3(v, i);
      RightStep3(v, i);
    }
  }

  lemma RawStep(v: bv32)
    ensures (v << 1) as bv64 == ((v as bv64) << 1) & 0xFFFF_FFFF && (v >> 1) as bv64 == (v as bv64) >> 1
  {
  }

  lemma UpIs(v: bv32)
    ensures Long(Up32(v)) == Meet(Doubled(Long(v)), 0xFFFF_FFFF)
  {
    RawStep(v);
    assert Up32(v) == v << 1;
    hide Up32;
    assert Long(v << 1) == (v << 1) as bv64 && Long(v) == v as bv64;
    hide Long;
  }

  lemma Down32Is(v: bv32)
    ensures Long(Down32(v)) == Halved(Long(v))
  {
    RawStep(v);
    assert Down32(v) == v >> 1;
    hide Down32;
    assert Long(v >> 1) == (v >> 1) as bv64 && Long(v) == v as bv64;
    hide Long;
  }

  lemma NoShift(v: bv32)
    ensures ShiftLeft32(v, Narrow(0)) == v && ShiftRight32(v, Narrow(0)) == v
  {
  }

  lemma TwiceMod(a: int)
    ensures 2 * (a % 0x1_0000_0000) % 0x1_0000_0000 == 2 * a % 0x1_0000_0000
  {
    var q, r := a / 0x1_0000_0000, a % 0x1_0000_0000;
    SplitAt(2 * r, 0x1_0000_0000);
    DivModUnique(2 * a, 0x1_0000_0000, 2 * q + 2 * r / 0x1_0000_0000, 2 * r % 0x1_0000_0000);
  }

  lemma {:induction false} Left32Number(v: bv32, n: nat)
    requires n < 32
    ensures Word(ShiftLeft32(v, Narrow(n))) == Word(v) * Pow2(n) % 0x1_0000_0000
  {
    hide Long, Meet, Doubled, Unsigned, ShiftLeft32, Narrow, Up32;
    if n == 0 {
      NoShift(v);
    } else {
      Left32Number(v, n - 1);
      NarrowNext(n - 1);
      StepBits(v, Narrow(n - 1));
      UpIs(ShiftLeft32(v, Narrow(n - 1)));
      var x := Long(ShiftLeft32(v, Narrow(n - 1)));
      DoubleNumber(x);
      LowNumbers(Doubled(x));
      NarrowMod(2 * Unsigned(x));
      TwiceMod(Word(v) * Pow2(n - 1));
      DoubledProduct(Word(v), Pow2(n - 1));
    }
  }

  lemma {:induction false} Right32Number(v: bv32, n: nat)
    requires n < 32
    ensures Word(ShiftRight32(v, Narrow(n))) == Word(v) / Pow2(n)
  {
    hide Long, Halved, Unsigned, ShiftRight32, Narrow, Down32;
    if n == 0 {
      NoShift(v);
    } else {
      Right32Number(v, n - 1);
      NarrowNext(n - 1);
      StepBits(v, Narrow(n - 1));
      Down32Is(ShiftRight32(v, Narrow(n - 1)));
      HalfNumber(Long(ShiftRight32(v, Narrow(n - 1))));
      DivTwice(Word(v), Pow2(n - 1), 2);
    }
  }

  /** 32-bit shifts by a five-bit amount. */
  lemma Shifts32(v: bv32, i: bv5)
    ensures Word(ShiftLeft32(v, i)) == Word(v) * Pow2(i as int) % 0x1_0000_0000
    ensures Word(ShiftRight32(v, i)) == Word(v) / Pow2(i as int)
  {
    hide Word, ShiftLeft32, ShiftRight32, Narrow;
    NarrowBack(i);
    Left32Number(v, i as int);
    Right32Number(v, i as int);
  }

  lemma Complement32Is(w: bv32)
    ensures Added(Long(w), Long(Complement32(w))) == 0xFFFF_FFFF
  {
  }

  lemma Top32Is(w: bv32)
    ensures Top32(w) <==> AtMost(0x8000_0000, Long(w))
  {
  }

  lemma AllOnes32()
    ensures Unsigned(0xFFFF_FFFF) == 0xFFFF_FFFF
  {
  }

  lemma Complement32Number(w: bv32)
    ensures Word(Complement32(w)) == 0xFFFF_FFFF - Word(w)
  {
    hide Long, Complement32, Added, Unsigned;
    Complement32Is(w);
    AllOnes32();
    AddNumber(Long(w), Long(Complement32(w)));
    Reduced(Word(w) + Word(Complement32(w)));
  }

  lemma TopWord(v: bv32)
    ensures Top32(v) <==> Word(v) >= 0x8000_0000
  {
    hide Top32, Long, Unsigned, AtMost;
    Top32Is(v);
    HalfLimits();
    OrderNumber(0x8000_0000, Long(v));
  }

  /** The arithmetic right shift of a 32-bit word. */
  lemma Sra32Number(v: bv32, i: bv5)
    ensures Word(Sra32(v, i)) == Wrapped(Word(v), 32) / Pow2(i as int) % 0x1_0000_0000
  {
    hide Top32, Complement32, ShiftRight32, Word, Wrapped, Pow2;
    TopWord(v);
    if Top32(v) {
      Complement32Number(v);
      Shifts32(Complement32(v), i);
      Complement32Number(ShiftRight32(Complement32(v), i));
      NegativeShift(Word(v), Word(Complement32(v)), Pow2(i as int));
    } else {
      Shifts32(v, i);
      PositiveShift(Word(v), Pow2(i as int));
    }
  }

  lemma NegativeShift(v: nat, a: int, p: nat)
    requires 0x8000_0000 <= v < 0x1_0000_0000 && a == 0xFFFF_FFFF - v && p > 0
    ensures 0xFFFF_FFFF - a / p == Wrapped(v, 32) / p % 0x1_0000_0000
  {
    PowersOfWidths();
    hide Pow2;
    FloorOfNegative(a, p);
    QuotientAtMost(a, p);
    DivModUnique(v + 0x8000_0000, 0x1_0000_0000, 1, v - 0x8000_0000);
    DivModUnique(-1 - a / p, 0x1_0000_0000, -1, 0xFFFF_FFFF - a / p);
  }

  lemma PositiveShift(v: nat, p: nat)
    requires v < 0x8000_0000 && p > 0
    ensures v / p == Wrapped(v, 32) / p % 0x1_0000_0000
  {
    PowersOfWidths();
    hide Pow2;
    QuotientAtMost(v, p);
    DivModUnique(v + 0x8000_0000, 0x1_0000_0000, 0, v + 0x8000_0000);
    DivModUnique(v / p, 0x1_0000_0000, 0, v / p);
  }
}
