/** The coefficients of the carry-less product, and the instructions that return them. */
module CarryLessBits {
  import opened Words
  import opened WordNumbers
  import opened WordBits
  import opened HartState
  import opened Standard
  import opened InstructionMeaning
  import C = CarryLess
  import BC = BitCounts

  /** Coefficient `n` of a polynomial of degree below 128. */
  predicate Coefficient(p: C.Poly, n: nat) {
    if n < 64 then BitAt(p.low, n) else n < 128 && BitAt(p.high, n - 64)
  }

  /** The positions below `m` in `y` that meet a set bit of `x` in a sum of exponents `n`. */
  function Meeting(x: bv64, y: bv64, n: nat, m: nat): set<nat> {
    set k: nat | k < m && k <= n && n - k < 64 && BitAt(y, k) && BitAt(x, n - k)
  }

  predicate Odd(n: nat) { n % 2 == 1 }

  // ----- Sums and doubles -----

  lemma XorBits(x: bv64, y: bv64, k: nat)
    ensures BitAt(C.Xor(x, y), k) <==> BitAt(x, k) != BitAt(y, k)
  {
    assert C.Xor(x, y) == Differ(x, y);
    hide C.Xor, Differ, BitAt;
    BitwiseBits(x, y, k);
  }

  lemma SumCoefficient(p: C.Poly, q: C.Poly, n: nat)
    ensures Coefficient(C.Add(p, q), n) <==> Coefficient(p, n) != Coefficient(q, n)
  {
    hide C.Xor, BitAt;
    if n < 64 {
      XorBits(p.low, q.low, n);
    } else {
      XorBits(p.high, q.high, n - 64);
    }
  }

  lemma JoinHalf(x: bv64, b: bv64)
    requires b == 0 || b == 1
    ensures Halved(C.Join(x, b)) == Meet(x, 0x7FFF_FFFF_FFFF_FFFF) && Lowest(C.Join(x, b)) == b
    ensures C.Up(x) == C.Join(x, 0)
  {
  }

  lemma HalfOnes(k: nat)
    requires k < 63
    ensures BitAt(0x7FFF_FFFF_FFFF_FFFF, k)
  {
    assert 0x7FFF_FFFF_FFFF_FFFF == Halved(0xFFFF_FFFF_FFFF_FFFF);
    hide BitAt, Halved;
    ZeroAndOnes(k + 1);
    BitOfHalf(0xFFFF_FFFF_FFFF_FFFF, k + 1);
  }

  lemma JoinBits(x: bv64, b: bv64, k: nat)
    requires (b == 0 || b == 1) && k < 64
    ensures BitAt(C.Join(x, b), k) <==> if k == 0 then b == 1 else BitAt(x, k - 1)
  {
    hide C.Join, C.Up, BitAt, Halved, Lowest, Meet, Unsigned;
    JoinHalf(x, b);
    BitOfHalf(C.Join(x, b), k);
    Bits0And1();
    if k > 0 {
      BitwiseBits(x, 0x7FFF_FFFF_FFFF_FFFF, k - 1);
      HalfOnes(k - 1);
    }
  }

  lemma TopIs(x: bv64)
    ensures C.Top(x) == 0 || C.Top(x) == 1
    ensures C.Top(x) == 1 <==> BitAt(x, 63)
  {
    TopRaw(x);
    C.LastBitAlone(x);
    hide C.Top, C.Bit, C.Right, C.Join, C.Last, BitAt;
    BC.BitIs(x, 63);
  }

  lemma TopRaw(x: bv64)
    ensures C.Top(x) == 0 || C.Top(x) == 1
    ensures C.Top(x) == 1 <==> C.Bit(x, 63)
  {
    C.IndexEnds();
    hide C.Index;
    assert C.Right(x, 63) == x >> 63;
  }

  lemma DoubleCoefficient(p: C.Poly, n: nat)
    requires n < 128
    ensures Coefficient(C.Double(p), n) <==> n > 0 && Coefficient(p, n - 1)
  {
    JoinHalf(p.low, 0);
    hide C.Join, C.Top, C.Up, BitAt;
    TopIs(p.low);
    if n < 64 {
      JoinBits(p.low, 0, n);
    } else {
      JoinBits(p.high, C.Top(p.low), n - 64);
    }
  }

  lemma {:induction false} RaisedCoefficient(x: bv64, m: nat, n: nat)
    requires m < 64 && n < 128
    ensures Coefficient(C.Raised(x, m), n) <==> m <= n && n - m < 64 && BitAt(x, n - m)
    decreases m
  {
    hide C.Double, C.Raised, BitAt;
    C.RaisedStep(x, m);
    if m == 0 {
      if n >= 64 {
        ZeroAndOnes(n - 64);
      }
    } else {
      DoubleCoefficient(C.Raised(x, m - 1), n);
      if n > 0 {
        RaisedCoefficient(x, m - 1, n - 1);
      }
    }
  }

  // ----- The product -----

  lemma NextMeeting(x: bv64, y: bv64, n: nat, m: nat)
    requires m < 64
    ensures var here := m <= n && n - m < 64 && BitAt(y, m) && BitAt(x, n - m);
      |Meeting(x, y, n, m + 1)| == |Meeting(x, y, n, m)| + if here then 1 else 0
  {
    hide BitAt;
    var here := m <= n && n - m < 64 && BitAt(y, m) && BitAt(x, n - m);
    assert Meeting(x, y, n, m + 1) == Meeting(x, y, n, m) + if here then {m} else {};
  }

  lemma ZeroCoefficient(n: nat)
    ensures !Coefficient(C.ZERO, n)
  {
    hide BitAt;
    ZeroAndOnes(n);
    if n >= 64 {
      ZeroAndOnes(n - 64);
    }
  }

  lemma TermCoefficient(x: bv64, y: bv64, m: nat, n: nat)
    requires m < 64 && n < 128
    ensures Coefficient(C.Term(x, y, m), n) <==> m <= n && n - m < 64 && BitAt(y, m) && BitAt(x, n - m)
  {
    hide C.Bit, C.Raised, BitAt, Coefficient;
    BC.BitIs(y, m);
    ZeroCoefficient(n);
    RaisedCoefficient(x, m, n);
  }

  lemma {:induction false} PartialCoefficient(x: bv64, y: bv64, m: nat, n: nat)
    requires m <= 64 && n < 128
    ensures Coefficient(C.Partial(x, y, m), n) <==> Odd(|Meeting(x, y, n, m)|)
    decreases m
  {
    hide C.Add, C.Term, BitAt, Coefficient, Meeting;
    if m == 0 {
      ZeroCoefficient(n);
      NoMeeting(x, y, n);
    } else {
      PartialCoefficient(x, y, m - 1, n);
      TermCoefficient(x, y, m - 1, n);
      SumCoefficient(C.Partial(x, y, m - 1), C.Term(x, y, m - 1), n);
      NextMeeting(x, y, n, m - 1);
    }
  }

  lemma NoMeeting(x: bv64, y: bv64, n: nat)
    ensures Meeting(x, y, n, 0) == {}
  {
  }

  /** Coefficient `n` of the product is the parity of the pairs of set bits whose positions add up to `n`. */
  lemma ProductCoefficient(x: bv64, y: bv64, n: nat)
    requires n < 128
    ensures Coefficient(C.Product(x, y), n) <==> Odd(|Meeting(x, y, n, 64)|)
  {
    hide C.Partial, Coefficient, Meeting;
    PartialCoefficient(x, y, 64, n);
  }

  lemma MiddleCoefficient(p: C.Poly, k: nat)
    requires k < 64
    ensures BitAt(C.Middle(p), k) <==> Coefficient(p, k + 63)
  {
    hide C.Join, C.Top, BitAt;
    TopIs(p.low);
    JoinBits(p.high, C.Top(p.low), k);
  }

  // ----- The instructions -----

  /** The lowest coefficient that CLMUL, CLMULR and CLMULH return. */
  function LowestReturned(m: bv32): Option<nat> {
    if m == 0x0A00_1033 then Some(0)
    else if m == 0x0A00_2033 then Some(63)
    else if m == 0x0A00_3033 then Some(64)
    else None
  }

  lemma ProductDecode(m: bv32, f7: bv7, f3: bv3, x: bv64, y: bv64)
    requires f7 == (m >> 25) as bv7 && f3 == ((m >> 12) & 0x7) as bv3 && LowestReturned(m).Some?
    ensures m & 0x7F == 0x33
    ensures m == 0x0A00_1033 ==> Alu(f7, f3, x, y) == Some(C.Product(x, y).low)
    ensures m == 0x0A00_2033 ==> Alu(f7, f3, x, y) == Some(C.Middle(C.Product(x, y)))
    ensures m == 0x0A00_3033 ==> Alu(f7, f3, x, y) == Some(C.Product(x, y).high)
  {
    hide C.Product, C.Middle, Less, Plus, Minus, C.Xor, C.ShiftLeft, C.ShiftRight, Or, And, AluM, Sra, Shamt;
  }

  lemma ReturnedBit(m: bv32, x: bv64, y: bv64, k: nat)
    requires k < 64 && LowestReturned(m).Some?
    ensures var p := C.Product(x, y);
      var v := if m == 0x0A00_1033 then p.low else if m == 0x0A00_2033 then C.Middle(p) else p.high;
      BitAt(v, k) <==> Odd(|Meeting(x, y, k + LowestReturned(m).value, 64)|)
  {
    hide C.Product, C.Middle, BitAt, Meeting;
    ProductCoefficient(x, y, k + LowestReturned(m).value);
    MiddleCoefficient(C.Product(x, y), k);
  }

  /** Bit `k` that CLMUL, CLMULR and CLMULH leave is the parity of the pairs of set bits of the operands whose positions
      add up to `k`, to `k` + 63 and to `k` + 64. */
  lemma CarryLessOperations(h: Hart, i: bv32, len: bv64, o: Oracle) returns (v: bv64)
    requires LowestReturned(i & R_MASK).Some?
    ensures Leaves(h, Execute(h, i, len, o), Destination(i), Unsigned(v), Unsigned(h.pc) + Unsigned(len))
    ensures forall k: nat :: k < 64 ==>
        (BitAt(v, k)
         <==> Odd(|Meeting(Operand1(h, i), Operand2(h, i), k + LowestReturned(i & R_MASK).value, 64)|))
  {
    hide Execute, Operand1, Operand2, Destination, Unsigned, Leaves, BitAt, Meeting, C.Product, C.Middle, Opcode,
         Funct3, Funct7, Alu, AluW, LowestReturned;
    var m, x, y := i & R_MASK, Operand1(h, i), Operand2(h, i);
    MaskedFields(i);
    ProductDecode(m, Funct7(i), Funct3(i), x, y);
    var p := C.Product(x, y);
    v := if m == 0x0A00_1033 then p.low else if m == 0x0A00_2033 then C.Middle(p) else p.high;
    OneOfThree(m);
    Reduced(Unsigned(v));
    RegisterLeaves(h, i, len, o, v, Unsigned(v));
    forall k: nat | k < 64
      ensures BitAt(v, k) <==> Odd(|Meeting(x, y, k + LowestReturned(m).value, 64)|)
    {
      ReturnedBit(m, x, y, k);
    }
  }

  lemma OneOfThree(m: bv32)
    requires LowestReturned(m).Some?
    ensures m == 0x0A00_1033 || m == 0x0A00_2033 || m == 0x0A00_3033
  {
  }
}
