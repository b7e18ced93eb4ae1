/** Carry-less multiplication: the three Zbc loops against one 128-bit product over GF(2). */
module CarryLess {

  // ----- Shifts by a variable amount, one step at a time -----

  function Index(n: nat): bv6
    requires n < 64
  {
    n as bv6
  }

  function ShiftLeft(x: bv64, i: bv6): bv64 {
    x << i
  }

  function ShiftRight(x: bv64, i: bv6): bv64 {
    x >> i
  }

  function Left(x: bv64, n: nat): bv64
    requires n < 64
  {
    ShiftLeft(x, Index(n))
  }

  function Right(x: bv64, n: nat): bv64
    requires n < 64
  {
    ShiftRight(x, Index(n))
  }

  predicate Bit(x: bv64, n: nat)
    requires n < 64
  {
    Right(x, n) & 1 == 1
  }

  lemma IndexBack(n: nat)
    requires n < 64
    ensures Index(n) as int == n
  {
  }

  lemma Successor(i: bv6, j: bv6)
    requires i < 63 && j as int == i as int + 1
    ensures j == i + 1
  {
  }

  lemma IndexNext(n: nat)
    requires n < 63
    ensures Index(n) < 63 && Index(n + 1) == Index(n) + 1
  {
    IndexBelow(n);
    hide Index;
    IndexBack(n);
    IndexBack(n + 1);
    Successor(Index(n), Index(n + 1));
  }

  lemma IndexBelow(n: nat)
    requires n < 63
    ensures Index(n) < 63
  {
  }

  lemma IndexEnds()
    ensures Index(0) == 0 && Index(63) == 63
  {
  }

  lemma {:induction false} IndexMirror(n: nat)
    requires n < 64
    ensures Index(63 - n) == 63 - Index(n)
  {
    hide Index;
    IndexEnds();
    if n > 0 {
      IndexMirror(n - 1);
      IndexNext(63 - n);
      IndexNext(n - 1);
    }
  }

  // One position more, by the remainder of the position modulo 4.

  lemma LeftStep0(x: bv64, i: bv6)
    requires i < 63 && i & 3 == 0
    ensures ShiftLeft(x, i + 1) == Up(ShiftLeft(x, i))
  {
  }

  lemma LeftStep1(x: bv64, i: bv6)
    requires i < 63 && i & 3 == 1
    ensures ShiftLeft(x, i + 1) == Up(ShiftLeft(x, i))
  {
  }

  lemma LeftStep2(x: bv64, i: bv6)
    requires i < 63 && i & 3 == 2
    ensures ShiftLeft(x, i + 1) == Up(ShiftLeft(x, i))
  {
  }

  lemma LeftStep3(x: bv64, i: bv6)
    requires i < 63 && i & 3 == 3
    ensures ShiftLeft(x, i + 1) == Up(ShiftLeft(x, i))
  {
  }

  lemma RightStep0(x: bv64, i: bv6)
    requires i < 63 && i & 3 == 0
    ensures ShiftRight(x, i + 1) == Down(ShiftRight(x, i))
  {
  }

  lemma RightStep1(x: bv64, i: bv6)
    requires i < 63 && i & 3 == 1
    ensures ShiftRight(x, i + 1) == Down(ShiftRight(x, i))
  {
  }

  lemma RightStep2(x: bv64, i: bv6)
    requires i < 63 && i & 3 == 2
    ensures ShiftRight(x, i + 1) == Down(ShiftRight(x, i))
  {
  }

  lemma RightStep3(x: bv64, i: bv6)
    requires i < 63 && i & 3 == 3
    ensures ShiftRight(x, i + 1) == Down(ShiftRight(x, i))
  {
  }

  lemma LeftNext(x: bv64, n: nat)
    requires n < 63
    ensures Left(x, n + 1) == Up(Left(x, n))
  {
    hide ShiftLeft, Index, Up;
    IndexNext(n);
    var i := Index(n);
    if i & 3 == 0 {
      LeftStep0(x, i);
    } else if i & 3 == 1 {
      LeftStep1(x, i);
    } else if i & 3 == 2 {
      LeftStep2(x, i);
    } else {
      LeftStep3(x, i);
    }
  }

  lemma RightNext(x: bv64, n: nat)
    requires n < 63
    ensures Right(x, n + 1) == Down(Right(x, n))
  {
    hide ShiftRight, Index, Down;
    IndexNext(n);
    var i := Index(n);
    if i & 3 == 0 {
      RightStep0(x, i);
    } else if i & 3 == 1 {
      RightStep1(x, i);
    } else if i & 3 == 2 {
      RightStep2(x, i);
    } else {
      RightStep3(x, i);
    }
  }

  lemma ShiftZero(x: bv64)
    ensures Left(x, 0) == x && Right(x, 0) == x
  {
  }

  // ----- The product -----

  /** A polynomial of degree below 128. */
  datatype Poly = Poly(high: bv64, low: bv64)

  const ZERO := Poly(0, 0)

  function Add(p: Poly, q: Poly): Poly {
    Poly(Xor(p.high, q.high), Xor(p.low, q.low))
  }

  function Up(x: bv64): bv64 {
    x << 1
  }

  function Down(x: bv64): bv64 {
    x >> 1
  }

  function Top(x: bv64): bv64 {
    x >> 63
  }

  function Last(x: bv64): bv64 {
    x & 1
  }

  function Join(high: bv64, bit: bv64): bv64 {
    (high << 1) | bit
  }

  function Xor(x: bv64, y: bv64): bv64 {
    x ^ y
  }

  /** Multiplication by the indeterminate. */
  function Double(p: Poly): Poly {
    Poly(Join(p.high, Top(p.low)), Up(p.low))
  }

  /** Coefficients 126 to 63. */
  function Middle(p: Poly): bv64 {
    Join(p.high, Top(p.low))
  }

  /** The polynomial `x` times the n-th power of the indeterminate. */
  function Raised(x: bv64, n: nat): Poly {
    if n == 0 then Poly(0, x) else Double(Raised(x, n - 1))
  }

  function Term(x: bv64, y: bv64, n: nat): Poly
    requires n < 64
  {
    if Bit(y, n) then Raised(x, n) else ZERO
  }

  /** The product over GF(2) of `x` and the lowest `n` coefficients of `y`. */
  function Partial(x: bv64, y: bv64, n: nat): Poly
    requires n <= 64
  {
    if n == 0 then ZERO else Add(Partial(x, y, n - 1), Term(x, y, n - 1))
  }

  function Product(x: bv64, y: bv64): Poly {
    Partial(x, y, 64)
  }

  // ----- The three windows of a raised polynomial -----

  lemma RaisedStep(x: bv64, n: nat)
    ensures Raised(x, 0) == Poly(0, x)
    ensures n > 0 ==> Raised(x, n) == Double(Raised(x, n - 1))
  {
    hide Double;
  }

  lemma {:induction false} LowRaised(x: bv64, n: nat)
    requires n < 64
    ensures Raised(x, n).low == Left(x, n)
  {
    hide Left, Raised, Up, Join, Top;
    RaisedStep(x, n);
    if n == 0 {
      ShiftZero(x);
    } else {
      LowRaised(x, n - 1);
      LeftNext(x, n - 1);
    }
  }

  lemma TopBitOf(x: bv64, i: bv6)
    ensures Top(ShiftLeft(x, i)) == Last(ShiftRight(x, 63 - i))
  {
  }

  lemma TopBit(x: bv64, n: nat)
    requires n < 64
    ensures Top(Left(x, n)) == Last(Right(x, 63 - n))
  {
    hide ShiftLeft, ShiftRight, Index, Top, Last;
    IndexMirror(n);
    TopBitOf(x, Index(n));
  }

  lemma LastBit(z: bv64)
    ensures z == Join(Down(z), Last(z))
  {
  }

  lemma LastBitAlone(x: bv64)
    ensures Join(0, Top(x)) == Right(x, 63) && Join(0, Last(Right(x, 63))) == Right(x, 63)
  {
  }

  /** The carry out of the low word is the next coefficient of `x`. */
  lemma {:induction false} HighRaised(x: bv64, n: nat)
    requires 0 < n < 64
    ensures Raised(x, n).high == Right(x, 64 - n)
  {
    hide Left, Right, Raised, Up, Down, Join, Top, Last;
    RaisedStep(x, n);
    LowRaised(x, n - 1);
    TopBit(x, n - 1);
    if n == 1 {
      RaisedStep(x, 0);
      LastBitAlone(x);
    } else {
      HighRaised(x, n - 1);
      RightNext(x, 64 - n);
      LastBit(Right(x, 64 - n));
    }
  }

  lemma MiddleRaised(x: bv64, n: nat)
    requires n < 64
    ensures Middle(Raised(x, n)) == Right(x, 63 - n)
  {
    hide Left, Right, Raised, Down, Join, Top, Last;
    LowRaised(x, n);
    TopBit(x, n);
    RaisedStep(x, 0);
    if n == 0 {
      LastBitAlone(x);
    } else {
      HighRaised(x, n);
      RightNext(x, 63 - n);
      LastBit(Right(x, 63 - n));
    }
  }

  // ----- The three loops -----

  lemma MiddleAdd(p: Poly, q: Poly)
    ensures Middle(Add(p, q)) == Xor(Middle(p), Middle(q))
  {
  }

  lemma XorZero(x: bv64)
    ensures Xor(x, 0) == x && Xor(0, x) == x && Xor(x, x) == 0 && Middle(ZERO) == 0
  {
  }

  method Clmul(x: bv64, y: bv64) returns (result: bv64)
    ensures result == Product(x, y).low
  {
    hide Left, Raised, Bit, Xor;
    result := 0;
    for i := 0 to 64
      invariant result == Partial(x, y, i).low
    {
      LowRaised(x, i);
      XorZero(result);
      if Bit(y, i) {
        result := Xor(result, Left(x, i));
      }
    }
  }

  method Clmulh(x: bv64, y: bv64) returns (result: bv64)
    ensures result == Product(x, y).high
  {
    hide Raised, Right, Bit, Xor;
    RaisedStep(x, 0);
    XorZero(0);
    result := 0;
    for i := 1 to 64
      invariant result == Partial(x, y, i).high
    {
      HighRaised(x, i);
      XorZero(result);
      if Bit(y, i) {
        result := Xor(result, Right(x, 64 - i));
      }
    }
  }

  method Clmulr(x: bv64, y: bv64) returns (result: bv64)
    ensures result == Middle(Product(x, y))
  {
    hide Middle, Raised, Right, Bit, Xor;
    XorZero(0);
    result := 0;
    for i := 0 to 64
      invariant result == Middle(Partial(x, y, i))
    {
      MiddleAdd(Partial(x, y, i), Term(x, y, i));
      MiddleRaised(x, i);
      XorZero(result);
      if Bit(y, i) {
        result := Xor(result, Right(x, 63 - i));
      }
    }
  }
}
