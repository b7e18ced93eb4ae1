/** The immediates of the 32-bit instructions as integers of the assembled bits. */
module Immediates {
  import opened Words
  import opened WordNumbers
  import opened WordBits
  import opened Standard
  import opened ArithmeticMeaning

  // ----- The encoded bits, gathered -----

  function BitsI(i: bv32): bv32 { i >> 20 }

  function BitsS(i: bv32): bv32 { ((i >> 25) << 5) | ((i >> 7) & 0x1F) }

  function BitsB(i: bv32): bv32 {
    ((i >> 31) << 12) | ((i << 4) & 0x800) | ((i >> 20) & 0x7E0) | ((i >> 7) & 0x1E)
  }

  function BitsU(i: bv32): bv32 { i & 0xFFFF_F000 }

  function BitsJ(i: bv32): bv32 {
    ((i >> 31) << 20) | (i & 0xF_F000) | ((i >> 9) & 0x800) | ((i >> 20) & 0x7FE)
  }

  // ----- Two's complement of the gathered bits -----

  function ValueI(i: bv32): int { Wrapped(Word(BitsI(i)), 12) }

  function ValueS(i: bv32): int { Wrapped(Word(BitsS(i)), 12) }

  function ValueB(i: bv32): int { Wrapped(Word(BitsB(i)), 13) }

  function ValueU(i: bv32): int { Wrapped(Word(BitsU(i)), 32) }

  function ValueJ(i: bv32): int { Wrapped(Word(BitsJ(i)), 21) }

  // ----- The decoder's sign extension -----

  lemma Masks()
    ensures Unsigned(0xFFFF_FFFF_FFFF_F800) == TWO_64 - 0x800 && Unsigned(0xFFFF_FFFF_FFFF_F000) == TWO_64 - 0x1000
    ensures Unsigned(0xFFFF_FFFF_FFF0_0000) == TWO_64 - 0x10_0000
    ensures Unsigned(0xFFFF_FFFF_0000_0000) == TWO_64 - 0x1_0000_0000
    ensures Unsigned(0x800) == 0x800 && Unsigned(0x1000) == 0x1000 && Unsigned(0x10_0000) == 0x10_0000
  {
  }

  lemma HalfPowers()
    ensures Pow2(11) == 0x800 && Pow2(12) == 0x1000 && Pow2(13) == 0x2000
    ensures Pow2(20) == 0x10_0000 && Pow2(21) == 0x20_0000
  {
    SmallPowers();
    assert Pow2(3) == 8 && Pow2(4) == 0x10 && Pow2(5) == 0x20;
    hide Pow2;
    PowerAdds(8, 3);
    PowerAdds(8, 4);
    PowerAdds(8, 5);
    PowerAdds(8, 12);
    PowerAdds(8, 13);
  }

  lemma Sext800(low: bv64)
    requires Below(low, 0x800)
    ensures Sext(true, 0xFFFF_FFFF_FFFF_F800, low) == Added(low, 0xFFFF_FFFF_FFFF_F800)
    ensures Sext(false, 0xFFFF_FFFF_FFFF_F800, low) == low
  {
  }

  lemma Sext1000(low: bv64)
    requires Below(low, 0x1000)
    ensures Sext(true, 0xFFFF_FFFF_FFFF_F000, low) == Added(low, 0xFFFF_FFFF_FFFF_F000)
    ensures Sext(false, 0xFFFF_FFFF_FFFF_F000, low) == low
  {
  }

  lemma Sext100000(low: bv64)
    requires Below(low, 0x10_0000)
    ensures Sext(true, 0xFFFF_FFFF_FFF0_0000, low) == Added(low, 0xFFFF_FFFF_FFF0_0000)
    ensures Sext(false, 0xFFFF_FFFF_FFF0_0000, low) == low
  {
  }

  lemma SextWord(low: bv64)
    requires Below(low, 0x1_0000_0000)
    ensures Sext(true, 0xFFFF_FFFF_0000_0000, low) == Added(low, 0xFFFF_FFFF_0000_0000)
    ensures Sext(false, 0xFFFF_FFFF_0000_0000, low) == low
  {
  }

  /** The value of a low part under the sign weight `half`. */
  lemma SignWeight(low: nat, half: nat, n: nat)
    requires n > 0 && Pow2(n) == 2 * half && Pow2(n - 1) == half && low < half
    ensures Wrapped(low, n) == low && Wrapped(low + half, n) == low - half
  {
    hide Pow2;
    DivModUnique(low + half, 2 * half, 0, low + half);
    DivModUnique(low + 2 * half, 2 * half, 1, low);
  }

  /** The word `low` or `low + mask`, where the mask is 2^64 - half, has the value of `low` under the sign. */
  lemma SextNumber(x: bv64, low: bv64, mask: bv64, half: nat, n: nat, negative: bool)
    requires 0 < half <= TWO_63 && n > 0 && Pow2(n) == 2 * half && Pow2(n - 1) == half && Unsigned(low) < half
    requires Unsigned(mask) == TWO_64 - half && x == if negative then Added(low, mask) else low
    ensures Signed(x) == Wrapped(Unsigned(low) + if negative then half else 0, n)
  {
    hide Unsigned, Added, Wrapped, Pow2;
    SignWeight(Unsigned(low), half, n);
    AddNumber(low, mask);
    Reduced(Unsigned(low) + Unsigned(mask));
  }

  // ----- I -----

  lemma LowBelowI(i: bv32)
    ensures Below(LowI(i), 0x800)
  {
  }

  lemma GatherI(i: bv32)
    requires Negative(i)
    ensures Long(BitsI(i)) == Added(LowI(i), 0x800)
  {
  }

  lemma GatherPositiveI(i: bv32)
    requires !Negative(i)
    ensures Long(BitsI(i)) == LowI(i)
  {
  }

  lemma ImmediateI(i: bv32)
    ensures Signed(ImmI(i)) == ValueI(i)
  {
    hide Unsigned, Signed, Added, Below, LowI, BitsI, Long, Sext, Negative, Wrapped;
    LowBelowI(i);
    Masks();
    HalfPowers();
    hide Pow2;
    OrderNumber(LowI(i), 0x800);
    Sext800(LowI(i));
    if Negative(i) {
      GatherI(i);
      AddNumber(LowI(i), 0x800);
      Reduced(Unsigned(LowI(i)) + 0x800);
    } else {
      GatherPositiveI(i);
    }
    SextNumber(ImmI(i), LowI(i), 0xFFFF_FFFF_FFFF_F800, 0x800, 12, Negative(i));
  }

  // ----- S -----

  lemma LowBelowS(i: bv32)
    ensures Below(LowS(i), 0x800)
  {
  }

  lemma GatherS(i: bv32)
    requires Negative(i)
    ensures Long(BitsS(i)) == Added(LowS(i), 0x800)
  {
  }

  lemma GatherPositiveS(i: bv32)
    requires !Negative(i)
    ensures Long(BitsS(i)) == LowS(i)
  {
  }

  lemma ImmediateS(i: bv32)
    ensures Signed(ImmS(i)) == ValueS(i)
  {
    hide Unsigned, Signed, Added, Below, LowS, BitsS, Long, Sext, Negative, Wrapped;
    LowBelowS(i);
    Masks();
    HalfPowers();
    hide Pow2;
    OrderNumber(LowS(i), 0x800);
    Sext800(LowS(i));
    if Negative(i) {
      GatherS(i);
      AddNumber(LowS(i), 0x800);
      Reduced(Unsigned(LowS(i)) + 0x800);
    } else {
      GatherPositiveS(i);
    }
    SextNumber(ImmS(i), LowS(i), 0xFFFF_FFFF_FFFF_F800, 0x800, 12, Negative(i));
  }

  // ----- B -----

  lemma LowBelowB(i: bv32)
    ensures Below(LowB(i), 0x1000)
  {
  }

  lemma GatherB(i: bv32)
    requires Negative(i)
    ensures Long(BitsB(i)) == Added(LowB(i), 0x1000)
  {
  }

  lemma GatherPositiveB(i: bv32)
    requires !Negative(i)
    ensures Long(BitsB(i)) == LowB(i)
  {
  }

  lemma ImmediateB(i: bv32)
    ensures Signed(ImmB(i)) == ValueB(i)
  {
    hide Unsigned, Signed, Added, Below, LowB, BitsB, Long, Sext, Negative, Wrapped;
    LowBelowB(i);
    Masks();
    HalfPowers();
    hide Pow2;
    OrderNumber(LowB(i), 0x1000);
    Sext1000(LowB(i));
    if Negative(i) {
      GatherB(i);
      AddNumber(LowB(i), 0x1000);
      Reduced(Unsigned(LowB(i)) + 0x1000);
    } else {
      GatherPositiveB(i);
    }
    SextNumber(ImmB(i), LowB(i), 0xFFFF_FFFF_FFFF_F000, 0x1000, 13, Negative(i));
  }

  // ----- U -----

  lemma LowIsU(i: bv32)
    ensures Long(BitsU(i)) == LowU(i) && Below(LowU(i), 0x1_0000_0000)
  {
  }

  lemma NegativeU(i: bv32)
    ensures Negative(i) <==> AtMost(0x8000_0000, LowU(i))
  {
  }

  lemma ImmediateU(i: bv32)
    ensures Signed(ImmU(i)) == ValueU(i)
  {
    hide Unsigned, Signed, Added, Below, AtMost, LowU, BitsU, Long, Sext, Negative;
    LowIsU(i);
    NegativeU(i);
    Masks();
    Limits();
    HalfLimits();
    PowersOfWidths();
    hide Pow2;
    OrderNumber(LowU(i), 0x1_0000_0000);
    OrderNumber(0x8000_0000, LowU(i));
    SextWord(LowU(i));
    UpperNumber(ImmU(i), LowU(i), Negative(i));
  }

  lemma UpperNumber(x: bv64, low: bv64, negative: bool)
    requires Unsigned(low) < 0x1_0000_0000 && (negative <==> Unsigned(low) >= 0x8000_0000)
    requires x == if negative then Added(low, 0xFFFF_FFFF_0000_0000) else low
    ensures Signed(x) == Wrapped(Unsigned(low), 32)
  {
    hide Unsigned, Added;
    Masks();
    PowersOfWidths();
    hide Pow2;
    AddNumber(low, 0xFFFF_FFFF_0000_0000);
    Reduced(Unsigned(low) + (TWO_64 - 0x1_0000_0000));
    if negative {
      DivModUnique(Unsigned(low) + 0x8000_0000, 0x1_0000_0000, 1, Unsigned(low) - 0x8000_0000);
    } else {
      DivModUnique(Unsigned(low) + 0x8000_0000, 0x1_0000_0000, 0, Unsigned(low) + 0x8000_0000);
    }
  }

  // ----- J -----

  function LowBitsJ(i: bv32): bv32 { (i & 0xF_F000) | ((i >> 9) & 0x800) | ((i >> 20) & 0x7FE) }

  lemma LowIsJ(i: bv32)
    ensures Long(LowBitsJ(i)) == LowJ(i) && Below(LowJ(i), 0x10_0000)
  {
  }

  lemma GatherJ(i: bv32)
    requires Negative(i)
    ensures BitsJ(i) == Add32(LowBitsJ(i), 0x10_0000)
  {
  }

  lemma GatherPositiveJ(i: bv32)
    requires !Negative(i)
    ensures BitsJ(i) == LowBitsJ(i)
  {
  }

  lemma WordOf100000()
    ensures Long(0x10_0000) == 0x10_0000
  {
  }

  lemma ImmediateJ(i: bv32)
    ensures Signed(ImmJ(i)) == ValueJ(i)
  {
    hide Unsigned, Signed, Added, Add32, Below, LowJ, BitsJ, LowBitsJ, Long, Sext, Negative, Wrapped;
    LowIsJ(i);
    Masks();
    HalfPowers();
    hide Pow2;
    OrderNumber(LowJ(i), 0x10_0000);
    Sext100000(LowJ(i));
    if Negative(i) {
      GatherJ(i);
      WordOf100000();
      Sums32(LowBitsJ(i), 0x10_0000);
      assert Word(BitsJ(i)) == Unsigned(LowJ(i)) + 0x10_0000;
    } else {
      GatherPositiveJ(i);
    }
    SextNumber(ImmJ(i), LowJ(i), 0xFFFF_FFFF_FFF0_0000, 0x10_0000, 21, Negative(i));
  }
}
