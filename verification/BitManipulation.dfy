/** The values of the M, Zba, Zbb and Zbs instructions on 64-bit words. */
module BitManipulation {
  import opened Words
  import opened WordNumbers
  import opened CarryLess

  // ----- Counting bits -----

  /** How many of the lowest `n` bits lie above the highest one that is set. */
  function LeadingZeros(x: bv64, n: nat): (z: nat)
    requires n <= 64
    ensures z <= n
    ensures z < n ==> Bit(x, n - 1 - z)
    ensures forall k :: n - z <= k < n ==> !Bit(x, k)
  {
    if n == 0 || Bit(x, n - 1) then 0 else 1 + LeadingZeros(x, n - 1)
  }

  /** How many of the bits from `i` to below `n` lie below the lowest one that is set. */
  function TrailingZeros(x: bv64, i: nat, n: nat): (z: nat)
    requires i <= n <= 64
    ensures z <= n - i
    ensures z < n - i ==> Bit(x, i + z)
    ensures forall k :: i <= k < i + z ==> !Bit(x, k)
    decreases n - i
  {
    if i == n || Bit(x, i) then 0 else 1 + TrailingZeros(x, i + 1, n)
  }

  /** How many of the lowest `n` bits are set. */
  function Population(x: bv64, n: nat): (z: nat)
    requires n <= 64
    ensures z <= n
  {
    if n == 0 then 0 else Population(x, n - 1) + if Bit(x, n - 1) then 1 else 0
  }

  function Count(n: nat): bv64
    requires n <= 64
  {
    n as bv7 as bv64
  }

  // ----- Bytes -----

  /** Byte `k` of the word, in place. */
  function ByteMask(k: nat): bv64
    requires k < 8
  {
    Left(0xFF, 8 * k)
  }

  predicate Overlaps(x: bv64, mask: bv64) { x & mask != 0 }

  function Merge(x: bv64, y: bv64): bv64 { x | y }

  /** Every non-zero byte below byte `n` becomes 0xFF. */
  function OrBytes(x: bv64, n: nat): bv64
    requires n <= 8
  {
    if n == 0 then 0
    else if Overlaps(x, ByteMask(n - 1)) then Merge(OrBytes(x, n - 1), ByteMask(n - 1))
    else OrBytes(x, n - 1)
  }

  /** ORC.B, by its loop over the bytes. */
  method OrCombine(x: bv64) returns (r: bv64)
    ensures r == OrBytes(x, 8)
  {
    r := 0;
    for k := 0 to 8
      invariant r == OrBytes(x, k)
    {
      if Overlaps(x, ByteMask(k)) {
        r := Merge(r, ByteMask(k));
      }
    }
  }

  function SwapBytes(x: bv64): bv64 {
    (x << 56) | ((x & 0xFF00) << 40) | ((x & 0xFF_0000) << 24) | ((x & 0xFF00_0000) << 8)
    | ((x >> 8) & 0xFF00_0000) | ((x >> 24) & 0xFF_0000) | ((x >> 40) & 0xFF00) | (x >> 56)
  }

  // ----- Rotations and single bits -----

  function RotateR(x: bv64, n: bv6): bv64 {
    if n == 0 then x else (x >> n) | (x << (0 - n))
  }

  function RotateL(x: bv64, n: bv6): bv64 { RotateR(x, 0 - n) }

  function RotateR32(x: bv32, n: bv5): bv32 {
    if n == 0 then x else (x >> n) | (x << (0 - n))
  }

  function RotateL32(x: bv32, n: bv5): bv32 { RotateR32(x, 0 - n) }

  function SetBit(x: bv64, n: bv6): bv64 { x | (1 << n) }

  function ClearBit(x: bv64, n: bv6): bv64 { x & !(1 << n) }

  function InvertBit(x: bv64, n: bv6): bv64 { x ^ (1 << n) }

  function ExtractBit(x: bv64, n: bv6): bv64 { (x >> n) & 1 }

  function AndNot(x: bv64, y: bv64): bv64 { x & !y }

  function OrNot(x: bv64, y: bv64): bv64 { x | !y }

  function XorNot(x: bv64, y: bv64): bv64 { !x ^ y }

  /** A sum with one operand scaled. */
  function ShiftAdd(x: bv64, n: bv6, y: bv64): bv64 { (x << n) + y }

  // ----- Multiplication and division -----

  function MulLow(x: bv64, y: bv64): bv64 { Wrap(Signed(x) * Signed(y)) }

  function MulHigh(a: int, b: int): bv64 { Wrap(a * b / TWO_64) }

  /** Division truncated toward zero. */
  function Quotient(a: int, b: int): int
    requires b != 0
  {
    if b > 0 then if a >= 0 then a / b else -(-a / b)
    else if a >= 0 then -(a / -b) else -a / -b
  }

  function Remainder(a: int, b: int): int
    requires b != 0
  {
    a - b * Quotient(a, b)
  }

  function Div(x: bv64, y: bv64): bv64 {
    var a, b := Signed(x), Signed(y);
    if b == 0 then Wrap(-1) else if a == -TWO_63 && b == -1 then x else Wrap(Quotient(a, b))
  }

  function Rem(x: bv64, y: bv64): bv64 {
    var a, b := Signed(x), Signed(y);
    if b == 0 then x else if a == -TWO_63 && b == -1 then Wrap(0) else Wrap(Remainder(a, b))
  }

  function DivU(x: bv64, y: bv64): bv64 {
    if Unsigned(y) == 0 then Wrap(-1) else Wrap(Unsigned(x) / Unsigned(y))
  }

  function RemU(x: bv64, y: bv64): bv64 {
    if Unsigned(y) == 0 then x else Wrap(Unsigned(x) % Unsigned(y))
  }

  /** Division of machine words truncates toward zero: the remainder has the dividend's sign and is smaller than
      the divisor, and only the one overflow leaves the range. */
  lemma TruncatedDivision(a: int, b: int)
    requires -TWO_63 <= a < TWO_63 && -TWO_63 <= b < TWO_63 && b != 0 && !(a == -TWO_63 && b == -1)
    ensures a == b * Quotient(a, b) + Remainder(a, b)
    ensures -TWO_63 <= Quotient(a, b) < TWO_63 && -TWO_63 <= Remainder(a, b) < TWO_63
    ensures (a >= 0 ==> 0 <= Remainder(a, b)) && (a <= 0 ==> Remainder(a, b) <= 0)
    ensures if b > 0 then -b < Remainder(a, b) < b else b < Remainder(a, b) < -b
  {
    var m, d := if a >= 0 then a else -a, if b > 0 then b else -b;
    SmallQuotient(m, d);
    MulSigns(b, m / d);
  }

  lemma SmallQuotient(m: nat, d: nat)
    requires d > 0
    ensures 0 <= m / d <= m && m == d * (m / d) + m % d && (d > 1 && m > 0 ==> m / d < m)
  {
    var q, r := m / d, m % d;
    assert m == d * q + r;
    if d > 1 && m > 0 {
      MulAtLeastTwo(d, q);
    }
  }

  lemma MulAtLeastTwo(d: nat, q: nat)
    requires d > 1
    ensures d * q >= 2 * q
  {
  }

  lemma MulSigns(b: int, q: int)
    ensures -b * q == -(b * q) && b * -q == -(b * q) && -b * -q == b * q
  {
  }
}
