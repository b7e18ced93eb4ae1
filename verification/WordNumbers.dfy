/** Machine words and the integers they denote: what the bit operations are in arithmetic. */
module WordNumbers {
  import opened Words

  const TWO_63: int := 0x8000_0000_0000_0000

  /** The unsigned value. */
  function Unsigned(x: bv64): (v: int)
    ensures 0 <= v < TWO_64
  {
    x as int
  }

  /** The two's-complement value. */
  function Signed(x: bv64): (v: int)
    ensures -TWO_63 <= v < TWO_63
    ensures v == Unsigned(x) || v == Unsigned(x) - TWO_64
  {
    if Unsigned(x) < TWO_63 then Unsigned(x) else Unsigned(x) - TWO_64
  }

  /** The word that an integer wraps to. */
  function Wrap(v: int): bv64 {
    (v % TWO_64) as bv64
  }

  // ----- Sums -----

  function Added(x: bv64, y: bv64): bv64 { x + y }

  function Total(x: bv64, y: bv64): bv65 { (x as bv65) + (y as bv65) }

  function CarryOf(s: bv65): bv1 { (s >> 64) as bv1 }

  function RestOf(s: bv65): bv64 { (s & 0xFFFF_FFFF_FFFF_FFFF) as bv64 }

  lemma ExactRaw(x: bv64, y: bv64)
    ensures ((x as bv65) + (y as bv65)) as int == x as int + y as int
  {
  }

  lemma SumExact(x: bv64, y: bv64)
    ensures Total(x, y) as int == x as int + y as int
  {
    assert Total(x, y) == (x as bv65) + (y as bv65);
    hide Total;
    ExactRaw(x, y);
  }

  lemma PartsRaw(s: bv65)
    ensures s as int ==
            ((s >> 64) as bv1) as int * 0x1_0000_0000_0000_0000 + ((s & 0xFFFF_FFFF_FFFF_FFFF) as bv64) as int
  {
  }

  lemma SumParts(s: bv65)
    ensures s as int == CarryOf(s) as int * 0x1_0000_0000_0000_0000 + RestOf(s) as int
  {
    assert CarryOf(s) == (s >> 64) as bv1 && RestOf(s) == (s & 0xFFFF_FFFF_FFFF_FFFF) as bv64;
    hide CarryOf, RestOf;
    PartsRaw(s);
  }

  lemma RestRaw(x: bv64, y: bv64)
    ensures (((x as bv65) + (y as bv65)) & 0xFFFF_FFFF_FFFF_FFFF) as bv64 == x + y
  {
  }

  lemma SumRestIs(x: bv64, y: bv64)
    ensures RestOf(Total(x, y)) == Added(x, y)
  {
    assert Total(x, y) == (x as bv65) + (y as bv65);
    assert RestOf((x as bv65) + (y as bv65)) == (((x as bv65) + (y as bv65)) & 0xFFFF_FFFF_FFFF_FFFF) as bv64;
    hide RestOf, Total;
    RestRaw(x, y);
  }

  /** The sum of two words is their number sum, split at 2^64. */
  lemma SumNumber(x: bv64, y: bv64)
    ensures exists c :: Unsigned(x) + Unsigned(y) == c * TWO_64 + Unsigned(Added(x, y))
  {
    hide Total, CarryOf, RestOf, Added;
    SumExact(x, y);
    SumParts(Total(x, y));
    SumRestIs(x, y);
    var c := CarryOf(Total(x, y)) as int;
    assert Unsigned(x) + Unsigned(y) == c * TWO_64 + Unsigned(Added(x, y));
  }

  /** Addition of words is addition modulo 2^64. */
  lemma AddNumber(x: bv64, y: bv64)
    ensures Unsigned(Added(x, y)) == (Unsigned(x) + Unsigned(y)) % TWO_64
  {
    hide Unsigned, Added;
    SumNumber(x, y);
    var c :| Unsigned(x) + Unsigned(y) == c * TWO_64 + Unsigned(Added(x, y));
    DivModUnique(Unsigned(x) + Unsigned(y), TWO_64, c, Unsigned(Added(x, y)));
  }

  /** Different words denote different numbers. */
  lemma NumberInjective(x: bv64)
    ensures Unsigned(x) as bv64 == x
  {
  }

  lemma Bits0And1()
    ensures Unsigned(0) == 0 && Unsigned(1) == 1 && Unsigned(0x8000_0000_0000_0000) == TWO_63
    ensures Unsigned(0xFFFF_FFFF_FFFF_FFFF) == TWO_64 - 1
  {
  }

  /** A word built for a number, by halving. */
  function Built(v: nat): bv64
    decreases v
  {
    if v == 0 then 0 else Added(Added(Built(v / 2), Built(v / 2)), if v % 2 == 1 then 1 else 0)
  }

  lemma {:induction false} BuiltNumber(v: nat)
    requires v < TWO_64
    ensures Unsigned(Built(v)) == v
    decreases v
  {
    hide Unsigned, Added;
    Bits0And1();
    if v > 0 {
      BuiltNumber(v / 2);
      BuiltStep(Built(v / 2), if v % 2 == 1 then 1 else 0, v);
    }
  }

  lemma BuiltStep(b: bv64, bit: bv64, v: int)
    requires 0 <= v < TWO_64 && v == 2 * Unsigned(b) + Unsigned(bit)
    ensures Unsigned(Added(Added(b, b), bit)) == v
  {
    hide Unsigned, Added;
    AddNumber(b, b);
    Reduced(2 * Unsigned(b));
    AddNumber(Added(b, b), bit);
    Reduced(v);
  }

  lemma Reduced(v: int)
    ensures 0 <= v < TWO_64 ==> v % TWO_64 == v
    ensures TWO_64 <= v < 2 * TWO_64 ==> v % TWO_64 == v - TWO_64
    ensures -TWO_64 <= v < 0 ==> v % TWO_64 == v + TWO_64
  {
  }

  /** Every number below 2^64 is denoted by the word it is converted to. */
  lemma FromNumber(v: int)
    requires 0 <= v < TWO_64
    ensures Unsigned(v as bv64) == v
  {
    BuiltNumber(v);
    NumberInjective(Built(v));
    hide Unsigned, Built;
  }

  /** Wrapping is reduction modulo 2^64, and undoes taking the number. */
  lemma WrapNumber(v: int)
    ensures Unsigned(Wrap(v)) == v % TWO_64
  {
    FromNumber(v % TWO_64);
  }

  lemma SameNumber(x: bv64, y: bv64)
    requires Unsigned(x) == Unsigned(y)
    ensures x == y
  {
    NumberInjective(x);
    NumberInjective(y);
    hide Unsigned;
  }

  lemma WrapBack(x: bv64)
    ensures Wrap(Unsigned(x)) == x
  {
    hide Unsigned, Wrap;
    WrapNumber(Unsigned(x));
    SameNumber(Wrap(Unsigned(x)), x);
  }

  lemma SignedWrap(v: int)
    requires -TWO_63 <= v < TWO_63
    ensures Signed(Wrap(v)) == v
  {
    WrapNumber(v);
    hide Unsigned, Wrap;
  }

  // ----- Differences, complements, doubling and halving -----

  function Subtracted(x: bv64, y: bv64): bv64 { x - y }

  function Complement(x: bv64): bv64 { !x }

  function Doubled(x: bv64): bv64 { x << 1 }

  function Halved(x: bv64): bv64 { x >> 1 }

  function Lowest(x: bv64): bv64 { x & 1 }

  lemma Identities(x: bv64, y: bv64)
    ensures Added(Subtracted(x, y), y) == x
    ensures Added(x, Complement(x)) == 0xFFFF_FFFF_FFFF_FFFF
    ensures Doubled(x) == Added(x, x)
    ensures Lowest(x) == 0 || Lowest(x) == 1
  {
  }

  lemma HalfParts(x: bv64)
    ensures Added(Added(Halved(x), Halved(x)), Lowest(x)) == x
    ensures !TopBit(Halved(x))
  {
  }

  lemma SubNumber(x: bv64, y: bv64)
    ensures Unsigned(Subtracted(x, y)) == (Unsigned(x) - Unsigned(y)) % TWO_64
  {
    Identities(x, y);
    AddNumber(Subtracted(x, y), y);
    hide Unsigned, Added, Subtracted;
  }

  lemma NotNumber(x: bv64)
    ensures Unsigned(Complement(x)) == TWO_64 - 1 - Unsigned(x)
  {
    Identities(x, 0);
    Bits0And1();
    AddNumber(x, Complement(x));
    hide Unsigned, Added, Complement;
  }

  lemma DoubleNumber(x: bv64)
    ensures Unsigned(Doubled(x)) == 2 * Unsigned(x) % TWO_64
  {
    Identities(x, 0);
    AddNumber(x, x);
    hide Unsigned, Added, Doubled;
  }

  /** The sign bit. */
  predicate TopBit(x: bv64) { x & 0x8000_0000_0000_0000 != 0 }

  /** The sign bit, and the number of the others. */
  function SignNumber(x: bv64): int { ((x >> 63) as bv1) as int }

  function RestNumber(x: bv64): int { ((x & 0x7FFF_FFFF_FFFF_FFFF) as bv63) as int }

  lemma SignRaw(x: bv64)
    ensures x as int == ((x >> 63) as bv1) as int * 0x8000_0000_0000_0000 + ((x & 0x7FFF_FFFF_FFFF_FFFF) as bv63) as int
  {
  }

  lemma SignSplit(x: bv64)
    ensures Unsigned(x) == SignNumber(x) * TWO_63 + RestNumber(x)
  {
    SignRaw(x);
  }

  lemma SignIs(x: bv64)
    ensures SignNumber(x) == if TopBit(x) then 1 else 0
  {
  }

  lemma RestBelow(x: bv64)
    ensures 0 <= RestNumber(x) < TWO_63
  {
  }

  /** The sign bit is set exactly for the numbers from 2^63 on, the negative ones. */
  lemma TopNumber(x: bv64)
    ensures TopBit(x) <==> Unsigned(x) >= TWO_63
    ensures TopBit(x) <==> Signed(x) < 0
  {
    hide TopBit, SignNumber, RestNumber, Unsigned;
    SignIs(x);
    SignSplit(x);
    RestBelow(x);
  }

  lemma HalfNumber(x: bv64)
    ensures Unsigned(Halved(x)) == Unsigned(x) / 2
    ensures Unsigned(Lowest(x)) == Unsigned(x) % 2
  {
    HalfParts(x);
    Identities(x, 0);
    Bits0And1();
    hide Unsigned, Added, Halved, Lowest;
    TopNumber(Halved(x));
    var d := Halved(x);
    AddNumber(d, d);
    Reduced(2 * Unsigned(d));
    AddNumber(Added(d, d), Lowest(x));
    Reduced(2 * Unsigned(d) + Unsigned(Lowest(x)));
  }

  // ----- Order -----

  predicate Below(x: bv64, y: bv64) { x < y }

  predicate AtMost(x: bv64, y: bv64) { x <= y }

  /** Words are compared by their halves first, and then by their lowest bits. */
  lemma HalvesOrdered(x: bv64, y: bv64)
    requires AtMost(x, y)
    ensures AtMost(Halved(x), Halved(y))
    ensures Halved(x) == Halved(y) ==> Lowest(x) == 0 || Lowest(y) == 1
  {
  }

  lemma {:induction false} AtMostOrdered(x: bv64, y: bv64)
    requires AtMost(x, y)
    ensures Unsigned(x) <= Unsigned(y)
    decreases Unsigned(x) + Unsigned(y)
  {
    hide Unsigned, AtMost, Halved, Lowest;
    if Unsigned(x) + Unsigned(y) > 0 {
      HalvesOrdered(x, y);
      HalfNumber(x);
      HalfNumber(y);
      Bits0And1();
      AtMostOrdered(Halved(x), Halved(y));
      if Unsigned(Halved(x)) == Unsigned(Halved(y)) {
        SameNumber(Halved(x), Halved(y));
      }
    }
  }

  lemma Orders(x: bv64, y: bv64)
    ensures Below(x, y) <==> !AtMost(y, x)
    ensures Below(x, y) ==> AtMost(x, y)
    ensures AtMost(x, x)
  {
  }

  lemma AtMostNumber(x: bv64, y: bv64)
    ensures AtMost(x, y) <==> Unsigned(x) <= Unsigned(y)
  {
    hide Unsigned, Below, AtMost;
    Orders(y, x);
    Orders(x, y);
    if AtMost(x, y) {
      AtMostOrdered(x, y);
    } else {
      AtMostOrdered(y, x);
      if Unsigned(x) == Unsigned(y) {
        SameNumber(x, y);
      }
    }
  }

  /** The order of words is the order of their numbers. */
  lemma OrderNumber(x: bv64, y: bv64)
    ensures Below(x, y) <==> Unsigned(x) < Unsigned(y)
    ensures AtMost(x, y) <==> Unsigned(x) <= Unsigned(y)
  {
    hide Unsigned, Below, AtMost;
    AtMostNumber(x, y);
    AtMostNumber(y, x);
    Orders(x, y);
  }

  function Flipped(x: bv64): bv64 { x ^ 0x8000_0000_0000_0000 }

  lemma FlipAdds(x: bv64)
    ensures Flipped(x) == Added(x, 0x8000_0000_0000_0000)
  {
  }

  /** With the sign bit flipped it is the order of the two's-complement values. */
  lemma SignedOrder(x: bv64, y: bv64)
    ensures Below(Flipped(x), Flipped(y)) <==> Signed(x) < Signed(y)
  {
    hide Unsigned, Added, Flipped, Below, AtMost;
    FlipAdds(x);
    FlipAdds(y);
    Bits0And1();
    AddNumber(x, 0x8000_0000_0000_0000);
    AddNumber(y, 0x8000_0000_0000_0000);
    OrderNumber(Flipped(x), Flipped(y));
  }
}
