/** Laws of the carry-less product: it commutes, and its middle window is a reversed low window. */
module CarryLessLaws {
  import opened CarryLess

  // ----- Addition of polynomials -----

  lemma XorAssoc(a: bv64, b: bv64, c: bv64)
    ensures Xor(Xor(a, b), c) == Xor(a, Xor(b, c)) && Xor(a, b) == Xor(b, a)
  {
  }

  lemma XorInterchange(a: bv64, b: bv64, c: bv64, d: bv64)
    ensures Xor(Xor(a, b), Xor(c, d)) == Xor(Xor(a, c), Xor(b, d))
  {
    hide Xor;
    XorAssoc(a, b, Xor(c, d));
    XorAssoc(b, c, d);
    XorAssoc(c, b, d);
    XorAssoc(a, c, Xor(b, d));
  }

  lemma UpXor(a: bv64, b: bv64)
    ensures Up(Xor(a, b)) == Xor(Up(a), Up(b)) && Up(0) == 0
  {
  }

  lemma AddZero(p: Poly)
    ensures Add(p, ZERO) == p && Double(ZERO) == ZERO
  {
    hide Xor;
    XorZero(p.high);
    XorZero(p.low);
  }

  lemma DoubleAdd(p: Poly, q: Poly)
    ensures Double(Add(p, q)) == Add(Double(p), Double(q))
  {
    hide Xor, Join, Top, Up;
    UpXor(p.low, q.low);
    MiddleAdd(p, q);
  }

  lemma AddInterchange(p: Poly, q: Poly, r: Poly, s: Poly)
    ensures Add(Add(p, q), Add(r, s)) == Add(Add(p, r), Add(q, s))
  {
    hide Xor;
    XorInterchange(p.high, q.high, r.high, s.high);
    XorInterchange(p.low, q.low, r.low, s.low);
  }

  // ----- The product is linear in its first operand -----

  lemma {:induction false} RaisedXor(a: bv64, b: bv64, n: nat)
    ensures Raised(Xor(a, b), n) == Add(Raised(a, n), Raised(b, n))
  {
    hide Double, Raised, Xor;
    XorZero(0);
    RaisedStep(a, n);
    RaisedStep(b, n);
    RaisedStep(Xor(a, b), n);
    if n > 0 {
      RaisedXor(a, b, n - 1);
      DoubleAdd(Raised(a, n - 1), Raised(b, n - 1));
    }
  }

  lemma {:induction false} RaisedZero(n: nat)
    ensures Raised(0, n) == ZERO
  {
    hide Double, Raised;
    RaisedStep(0, n);
    if n > 0 {
      RaisedZero(n - 1);
      AddZero(ZERO);
    }
  }

  lemma {:induction false} PartialXor(a: bv64, b: bv64, y: bv64, n: nat)
    requires n <= 64
    ensures Partial(Xor(a, b), y, n) == Add(Partial(a, y, n), Partial(b, y, n))
  {
    hide Xor, Bit, Raised, Add, Term;
    AddZero(ZERO);
    if n > 0 {
      PartialXor(a, b, y, n - 1);
      TermXor(a, b, y, n - 1);
      AddInterchange(Partial(a, y, n - 1), Partial(b, y, n - 1), Term(a, y, n - 1), Term(b, y, n - 1));
    }
  }

  lemma TermXor(a: bv64, b: bv64, y: bv64, n: nat)
    requires n < 64
    ensures Term(Xor(a, b), y, n) == Add(Term(a, y, n), Term(b, y, n))
  {
    hide Xor, Bit, Raised, Add;
    AddZero(ZERO);
    RaisedXor(a, b, n);
  }

  lemma {:induction false} PartialZero(y: bv64, n: nat)
    requires n <= 64
    ensures Partial(0, y, n) == ZERO
  {
    hide Bit, Raised, Add;
    AddZero(ZERO);
    if n > 0 {
      PartialZero(y, n - 1);
      RaisedZero(n - 1);
    }
  }

  // ----- Powers of the indeterminate -----

  lemma PowerFitsOf(i: bv6)
    requires i < 63
    ensures Top(ShiftLeft(1, i)) == 0
  {
  }

  lemma DoubleFits(z: bv64)
    requires Top(z) == 0
    ensures Double(Poly(0, z)) == Poly(0, Up(z))
  {
  }

  lemma {:induction false} PowerRaised(k: nat)
    requires k < 64
    ensures Raised(1, k) == Poly(0, Left(1, k))
  {
    hide ShiftLeft, Double, Raised, Index, Up, Top;
    RaisedStep(1, k);
    if k == 0 {
      ShiftZero(1);
    } else {
      PowerRaised(k - 1);
      IndexNext(k - 1);
      PowerFitsOf(Index(k - 1));
      DoubleFits(Left(1, k - 1));
      LeftNext(1, k - 1);
    }
  }

  lemma {:induction false} PowersMultiply(k: nat, m: nat)
    requires k < 64
    ensures Raised(Left(1, k), m) == Raised(1, k + m)
  {
    hide Left, Double, Raised;
    RaisedStep(Left(1, k), m);
    RaisedStep(1, k + m);
    if m == 0 {
      PowerRaised(k);
    } else {
      PowersMultiply(k, m - 1);
    }
  }

  // ----- A word is the sum of its bits -----

  function Monomial(y: bv64, n: nat): bv64
    requires n < 64
  {
    if Bit(y, n) then Left(1, n) else 0
  }

  function Take(y: bv64, n: nat): bv64
    requires n <= 64
  {
    if n == 0 then 0 else Xor(Take(y, n - 1), Monomial(y, n - 1))
  }

  lemma {:induction false} LeftXor(a: bv64, b: bv64, n: nat)
    requires n < 64
    ensures Left(Xor(a, b), n) == Xor(Left(a, n), Left(b, n)) && Left(0, n) == 0
  {
    hide Left, Xor, Up;
    if n == 0 {
      ShiftZero(a);
      ShiftZero(b);
      ShiftZero(Xor(a, b));
      ShiftZero(0);
    } else {
      LeftXor(a, b, n - 1);
      LeftNext(a, n - 1);
      LeftNext(b, n - 1);
      LeftNext(Xor(a, b), n - 1);
      LeftNext(0, n - 1);
      UpXor(Left(a, n - 1), Left(b, n - 1));
    }
  }

  lemma {:induction false} LeftUp(x: bv64, n: nat)
    requires n < 64
    ensures Left(Up(x), n) == Up(Left(x, n))
  {
    hide Left, Up;
    if n == 0 {
      ShiftZero(x);
      ShiftZero(Up(x));
    } else {
      LeftUp(x, n - 1);
      LeftNext(x, n - 1);
      LeftNext(Up(x), n - 1);
    }
  }

  lemma SplitLast(z: bv64)
    ensures z == Xor(Last(z), Up(Down(z)))
    ensures Last(z) == if z & 1 == 1 then 1 else 0
  {
  }

  /** The low bits taken so far and the rest in place make up the word. */
  lemma {:induction false} TakeRest(y: bv64, n: nat)
    requires n < 64
    ensures Xor(Take(y, n), Left(Right(y, n), n)) == y
  {
    hide Left, Right, Xor, Up, Down, Last;
    if n == 0 {
      ShiftZero(y);
      XorZero(y);
    } else {
      TakeRest(y, n - 1);
      Peel(y, n - 1);
      RightNext(y, n - 1);
      LeftNext(Down(Right(y, n - 1)), n - 1);
      XorAssoc(Take(y, n - 1), Monomial(y, n - 1), Left(Right(y, n), n));
    }
  }

  lemma Peel(y: bv64, n: nat)
    requires n < 64
    ensures Left(Right(y, n), n) == Xor(Monomial(y, n), Up(Left(Down(Right(y, n)), n)))
  {
    hide Left, Right, Xor, Up, Down, Last;
    var z := Right(y, n);
    SplitLast(z);
    LeftXor(Last(z), Up(Down(z)), n);
    LeftUp(Down(z), n);
  }

  lemma LastOne(y: bv64)
    ensures Down(Right(y, 63)) == 0
  {
  }

  lemma TakeAll(y: bv64)
    ensures Take(y, 64) == y
  {
    hide Left, Right, Xor, Up, Down, Monomial;
    TakeRest(y, 63);
    Peel(y, 63);
    LastOne(y);
    LeftXor(0, 0, 63);
    UpXor(0, 0);
    XorZero(Monomial(y, 63));
  }

  // ----- The product commutes -----

  lemma {:induction false} TimesPower(x: bv64, k: nat, m: nat)
    requires k < 64 && m <= 64
    ensures Partial(Left(1, k), x, m) == Raised(Take(x, m), k)
  {
    hide Left, Xor, Add, Raised, Bit;
    if m == 0 {
      RaisedZero(k);
    } else {
      TimesPower(x, k, m - 1);
      RaisedXor(Take(x, m - 1), Monomial(x, m - 1), k);
      RaisedZero(k);
      PowersMultiply(k, m - 1);
      PowersMultiply(m - 1, k);
    }
  }

  lemma {:induction false} Swapped(x: bv64, y: bv64, n: nat)
    requires n <= 64
    ensures Partial(x, y, n) == Partial(Take(y, n), x, 64)
  {
    hide Left, Xor, Add, Raised, Bit;
    if n == 0 {
      PartialZero(x, 64);
    } else {
      SwappedStep(x, y, n - 1);
      Swapped(x, y, n - 1);
    }
  }

  lemma SwappedStep(x: bv64, y: bv64, n: nat)
    requires n < 64
    ensures Partial(Take(y, n + 1), x, 64) == Add(Partial(Take(y, n), x, 64), Term(x, y, n))
  {
    hide Left, Xor, Add, Raised, Bit, Partial;
    PartialXor(Take(y, n), Monomial(y, n), x, 64);
    TimesPower(x, n, 64);
    TakeAll(x);
    PartialZero(x, 64);
  }

  /** Multiplication over GF(2) commutes, and so do its three windows. */
  lemma ProductCommutes(x: bv64, y: bv64)
    ensures Product(x, y) == Product(y, x)
  {
    hide Partial, Take;
    Swapped(x, y, 64);
    TakeAll(y);
  }

  // ----- Bit reversal -----

  /** The word with its 64 bits in the opposite order. */
  function Reverse(x: bv64): bv64 {
    var a := ((x >> 1) & 0x5555_5555_5555_5555) | ((x & 0x5555_5555_5555_5555) << 1);
    var b := ((a >> 2) & 0x3333_3333_3333_3333) | ((a & 0x3333_3333_3333_3333) << 2);
    var c := ((b >> 4) & 0x0F0F_0F0F_0F0F_0F0F) | ((b & 0x0F0F_0F0F_0F0F_0F0F) << 4);
    var d := ((c >> 8) & 0x00FF_00FF_00FF_00FF) | ((c & 0x00FF_00FF_00FF_00FF) << 8);
    var e := ((d >> 16) & 0x0000_FFFF_0000_FFFF) | ((d & 0x0000_FFFF_0000_FFFF) << 16);
    (e >> 32) | (e << 32)
  }

  lemma ReverseShift(x: bv64)
    ensures Reverse(x << 1) == Reverse(x) >> 1
  {
  }

  lemma ReverseUp(x: bv64)
    ensures Reverse(Up(x)) == Down(Reverse(x))
  {
    hide Reverse;
    ReverseShift(x);
  }

  lemma ReverseTwice(x: bv64)
    ensures Reverse(Reverse(x)) == x
  {
  }

  lemma ReverseXor(x: bv64, y: bv64)
    ensures Reverse(Xor(x, y)) == Xor(Reverse(x), Reverse(y)) && Reverse(0) == 0
  {
  }

  lemma ReverseLast(x: bv64)
    ensures Last(Reverse(x)) == Top(x)
  {
  }

  lemma {:induction false} ReverseLeft(x: bv64, n: nat)
    requires n < 64
    ensures Reverse(Left(x, n)) == Right(Reverse(x), n)
  {
    hide Reverse, Left, Right, Up, Down;
    if n == 0 {
      ShiftZero(x);
      ShiftZero(Reverse(x));
    } else {
      ReverseLeft(x, n - 1);
      LeftNext(x, n - 1);
      RightNext(Reverse(x), n - 1);
      ReverseUp(Left(x, n - 1));
    }
  }

  /** The reversal really is one: bit n of the result is bit 63 - n. */
  lemma ReverseBit(y: bv64, n: nat)
    requires n < 64
    ensures Bit(Reverse(y), n) == Bit(y, 63 - n)
  {
    hide Reverse, Left, Right, Up, Down;
    ReverseLeft(y, n);
    ReverseLast(Left(y, n));
    TopBit(y, n);
  }

  /** The first n terms of the reversed operands' low window, reversed, are the last n of the middle window. */
  lemma {:induction false} ReversedSum(x: bv64, y: bv64, n: nat)
    requires n <= 64
    ensures Xor(Reverse(Partial(Reverse(x), Reverse(y), n).low), Middle(Partial(x, y, 64 - n))) == Middle(Product(x, y))
  {
    hide Reverse, Left, Right, Bit, Raised, Xor, Middle, Add;
    if n == 0 {
      ReverseXor(0, 0);
      XorZero(Middle(Product(x, y)));
    } else {
      ReversedSum(x, y, n - 1);
      ReversedTerm(x, y, n - 1);
      MoveTerm(Partial(Reverse(x), Reverse(y), n - 1).low, Term(Reverse(x), Reverse(y), n - 1).low,
               Partial(x, y, 64 - n), Term(x, y, 64 - n));
      LowAdd(Partial(Reverse(x), Reverse(y), n - 1), Term(Reverse(x), Reverse(y), n - 1));
    }
  }

  lemma LowAdd(p: Poly, q: Poly)
    ensures Add(p, q).low == Xor(p.low, q.low)
  {
  }

  lemma MoveTerm(s: bv64, t: bv64, p: Poly, q: Poly)
    requires Reverse(t) == Middle(q)
    ensures Xor(Reverse(Xor(s, t)), Middle(p)) == Xor(Reverse(s), Middle(Add(p, q)))
  {
    hide Reverse, Middle, Xor, Add;
    ReverseXor(s, t);
    MiddleAdd(p, q);
    XorAssoc(Reverse(s), Reverse(t), Middle(p));
    XorAssoc(Middle(p), Middle(q), 0);
  }

  lemma ReversedTerm(x: bv64, y: bv64, n: nat)
    requires n < 64
    ensures Reverse(Term(Reverse(x), Reverse(y), n).low) == Middle(Term(x, y, 63 - n))
  {
    hide Reverse, Left, Right, Bit, Raised, Middle;
    ReverseBit(y, n);
    LowRaised(Reverse(x), n);
    ReverseLeft(Reverse(x), n);
    ReverseTwice(x);
    MiddleRaised(x, 63 - n);
    ReverseXor(0, 0);
    XorZero(0);
  }

  /** CLMULR is CLMUL with operands and result reversed. */
  lemma MiddleIsReversedLow(x: bv64, y: bv64)
    ensures Middle(Product(x, y)) == Reverse(Product(Reverse(x), Reverse(y)).low)
  {
    hide Reverse, Middle, Xor;
    ReversedSum(x, y, 64);
    XorZero(Reverse(Product(Reverse(x), Reverse(y)).low));
  }
}
