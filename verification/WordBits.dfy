/** The bits of a machine word as binary digits of its number, and what shifts and masks do to them. */
module WordBits {
  import opened Words
  import opened WordNumbers
  import C = CarryLess

  /** 2^n. */
  function Pow2(n: nat): (p: nat)
    ensures p > 0
  {
    if n == 0 then 1 else 2 * Pow2(n - 1)
  }

  /** Binary digit `k` of a number is 1. */
  predicate Digit(a: nat, k: nat) {
    a / Pow2(k) % 2 == 1
  }

  /** Bit `k` of a word is 1. */
  predicate BitAt(x: bv64, k: nat) {
    Digit(Unsigned(x), k)
  }

  // ----- Powers of two -----

  lemma {:induction false} PowerAdds(m: nat, n: nat)
    ensures Pow2(m + n) == Pow2(m) * Pow2(n)
  {
    if m > 0 {
      PowerAdds(m - 1, n);
      MulAssoc(2, Pow2(m - 1), Pow2(n));
    }
  }

  lemma Powers()
    ensures Pow2(32) == 0x1_0000_0000 && Pow2(63) == TWO_63 && Pow2(64) == TWO_64
  {
    SmallPowers();
    hide Pow2;
    PowerAdds(8, 8);
    PowerAdds(16, 16);
    PowerAdds(32, 32);
    PowerAdds(1, 63);
  }

  lemma SmallPowers()
    ensures Pow2(0) == 1 && Pow2(1) == 2 && Pow2(8) == 0x100
  {
  }

  // ----- Shifts -----

  lemma DownIs(x: bv64)
    ensures C.Down(x) == Halved(x) && C.Up(x) == Doubled(x)
  {
  }

  /** A right shift divides, rounding down. */
  lemma {:induction false} RightNumber(x: bv64, n: nat)
    requires n < 64
    ensures Unsigned(C.Right(x, n)) == Unsigned(x) / Pow2(n)
  {
    hide C.Right, C.Down, Unsigned, Halved;
    if n == 0 {
      C.ShiftZero(x);
    } else {
      RightNumber(x, n - 1);
      C.RightNext(x, n - 1);
      DownIs(C.Right(x, n - 1));
      HalfNumber(C.Right(x, n - 1));
      DivTwice(Unsigned(x), Pow2(n - 1), 2);
    }
  }

  lemma DoubleMod(a: int)
    ensures 2 * (a % TWO_64) % TWO_64 == 2 * a % TWO_64
  {
    var q, r := a / TWO_64, a % TWO_64;
    assert 2 * a == TWO_64 * (2 * q) + 2 * r;
    var q', r' := 2 * r / TWO_64, 2 * r % TWO_64;
    DivModUnique(2 * a, TWO_64, 2 * q + q', r');
  }

  /** A left shift multiplies, modulo 2^64. */
  lemma {:induction false} LeftNumber(x: bv64, n: nat)
    requires n < 64
    ensures Unsigned(C.Left(x, n)) == Unsigned(x) * Pow2(n) % TWO_64
  {
    hide C.Left, C.Up, Unsigned, Doubled;
    if n == 0 {
      C.ShiftZero(x);
      Reduced(Unsigned(x));
    } else {
      LeftNumber(x, n - 1);
      C.LeftNext(x, n - 1);
      DownIs(C.Left(x, n - 1));
      DoubleNumber(C.Left(x, n - 1));
      DoubleMod(Unsigned(x) * Pow2(n - 1));
      DoubledProduct(Unsigned(x), Pow2(n - 1));
    }
  }

  lemma DoubledProduct(a: int, p: int)
    ensures a * (2 * p) == 2 * (a * p)
  {
  }

  /** A position as a number. */
  function Position(i: bv6): (n: nat)
    ensures n < 64
  {
    i as int
  }

  lemma PositionIndex(i: bv6)
    ensures C.Index(Position(i)) == i
  {
  }

  /** Shifts by a six-bit amount. */
  lemma ShiftNumbers(x: bv64, i: bv6)
    ensures Unsigned(C.ShiftRight(x, i)) == Unsigned(x) / Pow2(Position(i))
    ensures Unsigned(C.ShiftLeft(x, i)) == Unsigned(x) * Pow2(Position(i)) % TWO_64
  {
    hide Unsigned, Position, C.Index, C.ShiftLeft, C.ShiftRight;
    PositionIndex(i);
    RightNumber(x, Position(i));
    LeftNumber(x, Position(i));
  }

  // ----- Single bits -----

  /** The digits above the lowest are those of the half. */
  lemma BitOfHalf(x: bv64, k: nat)
    ensures BitAt(x, 0) <==> Unsigned(Lowest(x)) == 1
    ensures k > 0 ==> (BitAt(x, k) <==> BitAt(Halved(x), k - 1))
  {
    hide Unsigned, Halved, Lowest;
    HalfNumber(x);
    if k > 0 {
      DivTwice(Unsigned(x), 2, Pow2(k - 1));
    }
  }

  function Meet(x: bv64, y: bv64): bv64 { x & y }

  function Join(x: bv64, y: bv64): bv64 { x | y }

  function Differ(x: bv64, y: bv64): bv64 { x ^ y }

  lemma HalfMeet(x: bv64, y: bv64)
    ensures Halved(Meet(x, y)) == Meet(Halved(x), Halved(y))
  {
  }

  lemma HalfJoin(x: bv64, y: bv64)
    ensures Halved(Join(x, y)) == Join(Halved(x), Halved(y))
  {
  }

  lemma HalfDiffer(x: bv64, y: bv64)
    ensures Halved(Differ(x, y)) == Differ(Halved(x), Halved(y))
  {
  }

  lemma LowBits(x: bv64, y: bv64)
    ensures Lowest(Meet(x, y)) == if Lowest(x) == 1 && Lowest(y) == 1 then 1 else 0
    ensures Lowest(Join(x, y)) == if Lowest(x) == 1 || Lowest(y) == 1 then 1 else 0
    ensures Lowest(Differ(x, y)) == if Lowest(x) != Lowest(y) then 1 else 0
  {
  }

  lemma LowestNumber(x: bv64)
    ensures Unsigned(Lowest(x)) == if Lowest(x) == 1 then 1 else 0
  {
    hide Unsigned, Lowest;
    Identities(x, 0);
    Bits0And1();
  }

  /** The bitwise operations, bit by bit. */
  lemma {:induction false} BitwiseBits(x: bv64, y: bv64, k: nat)
    ensures BitAt(Meet(x, y), k) <==> BitAt(x, k) && BitAt(y, k)
    ensures BitAt(Join(x, y), k) <==> BitAt(x, k) || BitAt(y, k)
    ensures BitAt(Differ(x, y), k) <==> BitAt(x, k) != BitAt(y, k)
    decreases k
  {
    hide BitAt, Unsigned, Halved, Lowest, Meet, Join, Differ;
    BitOfHalf(x, k);
    BitOfHalf(y, k);
    BitOfHalf(Meet(x, y), k);
    BitOfHalf(Join(x, y), k);
    BitOfHalf(Differ(x, y), k);
    if k == 0 {
      LowBits(x, y);
      Identities(x, 0);
      Identities(y, 0);
      LowestNumber(x);
      LowestNumber(y);
      LowestNumber(Meet(x, y));
      LowestNumber(Join(x, y));
      LowestNumber(Differ(x, y));
    } else {
      HalfMeet(x, y);
      HalfJoin(x, y);
      HalfDiffer(x, y);
      BitwiseBits(Halved(x), Halved(y), k - 1);
    }
  }

  lemma {:induction false} ZeroAndOnes(k: nat)
    ensures !BitAt(0, k)
    ensures BitAt(0xFFFF_FFFF_FFFF_FFFF, k) <==> k < 64
  {
    hide Unsigned;
    Bits0And1();
    if k < 64 {
      Powers();
      PowerAdds(k, 64 - k);
      OnesQuotient(Pow2(k), Pow2(63 - k));
    } else {
      PowerAdds(64, k - 64);
      Powers();
      SmallQuotient(TWO_64 - 1, Pow2(k), Pow2(k - 64));
    }
  }

  lemma SmallQuotient(a: nat, p: nat, q: nat)
    requires q > 0 && p == TWO_64 * q && a < TWO_64
    ensures a / p == 0
  {
    assert p >= TWO_64;
    DivModUnique(a, p, 0, a);
  }

  /** The quotient of 2^64 - 1 by a power below is odd. */
  lemma OnesQuotient(p: nat, q: nat)
    requires p > 0 && q > 0 && p * (2 * q) == TWO_64
    ensures (TWO_64 - 1) / p % 2 == 1
  {
    assert TWO_64 - 1 == p * (2 * q - 1) + (p - 1);
    DivModUnique(TWO_64 - 1, p, 2 * q - 1, p - 1);
  }

  lemma ComplementIs(x: bv64)
    ensures Complement(x) == Differ(x, 0xFFFF_FFFF_FFFF_FFFF)
  {
  }

  lemma ComplementBits(x: bv64, k: nat)
    requires k < 64
    ensures BitAt(Complement(x), k) <==> !BitAt(x, k)
  {
    hide BitAt, Complement, Differ;
    ComplementIs(x);
    ZeroAndOnes(k);
    BitwiseBits(x, 0xFFFF_FFFF_FFFF_FFFF, k);
  }

  /** Words with the same bits are the same. */
  lemma SameBits(x: bv64, y: bv64)
    requires forall k: nat :: k < 64 ==> (BitAt(x, k) <==> BitAt(y, k))
    ensures x == y
  {
    hide Unsigned, Pow2;
    Powers();
    forall k: nat | k < 64
      ensures Unsigned(x) / Pow2(k) % 2 == 1 <==> Unsigned(y) / Pow2(k) % 2 == 1
    {
      assert BitAt(x, k) <==> BitAt(y, k);
    }
    hide BitAt;
    DigitsDecide(Unsigned(x), Unsigned(y), 64);
    SameNumber(x, y);
  }

  lemma {:induction false} DigitsDecide(a: nat, b: nat, n: nat)
    requires a < Pow2(n) && b < Pow2(n)
    requires forall k: nat :: k < n ==> (a / Pow2(k) % 2 == 1 <==> b / Pow2(k) % 2 == 1)
    ensures a == b
    decreases n
  {
    if n > 0 {
      assert Pow2(0) == 1;
      assert a / 1 % 2 == 1 <==> b / 1 % 2 == 1;
      forall k: nat | k < n - 1
        ensures a / 2 / Pow2(k) % 2 == 1 <==> b / 2 / Pow2(k) % 2 == 1
      {
        DivTwice(a, 2, Pow2(k));
        DivTwice(b, 2, Pow2(k));
        assert Pow2(k + 1) == 2 * Pow2(k);
      }
      DigitsDecide(a / 2, b / 2, n - 1);
    }
  }
}
