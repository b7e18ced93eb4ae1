/** Machine words as bounded integers, and their little-endian byte strings. */
module Words {

  type u8 = x: int | 0 <= x < 0x100
  type u16 = x: int | 0 <= x < 0x1_0000
  type u32 = x: int | 0 <= x < 0x1_0000_0000
  type u64 = x: int | 0 <= x < 0x1_0000_0000_0000_0000

  const TWO_64: int := 0x1_0000_0000_0000_0000

  datatype Option<+T> = None | Some(value: T)

  datatype Result<+T, +E> = Ok(value: T) | Err(error: E)

  /** Addition modulo 2^64. */
  function WrappingAdd(a: int, b: int): (r: u64) {
    (a + b) % TWO_64
  }

  /** 256^n. */
  function Pow256(n: nat): (p: nat)
    ensures p > 0
  {
    if n == 0 then 1 else 0x100 * Pow256(n - 1)
  }

  /** The number whose little-endian bytes are `b`. */
  function FromBytes(b: seq<u8>): (v: nat)
    ensures v < Pow256(|b|)
  {
    if b == [] then 0 else b[0] + 0x100 * FromBytes(b[1..])
  }

  /** The low `n` bytes of `v`, least significant first. */
  function ToBytes(v: nat, n: nat): (b: seq<u8>)
    ensures |b| == n
  {
    if n == 0 then [] else [v % 0x100] + ToBytes(v / 0x100, n - 1)
  }

  /** Splitting a remainder modulo 256 * m at its lowest byte. */
  lemma ModSplit(v: nat, m: nat)
    requires m > 0
    ensures v % (0x100 * m) == v % 0x100 + 0x100 * ((v / 0x100) % m)
  {
    var q, r := v / 0x100, v % 0x100;
    var qq, rr := q / m, q % m;
    assert v == 0x100 * (m * qq + rr) + r;
    assert v == (0x100 * m) * qq + (0x100 * rr + r);
    assert 0x100 * rr + r < 0x100 * m by {
      assert rr + 1 <= m;
    }
    DivModUnique(v, 0x100 * m, qq, 0x100 * rr + r);
  }

  /** Quotient and remainder are determined by their defining equation. */
  lemma DivModUnique(v: int, d: int, q: int, r: int)
    requires d > 0 && 0 <= r < d && v == d * q + r
    ensures v / d == q && v % d == r
  {
    var q', r' := v / d, v % d;
    assert v == d * q' + r';
    MulDistributes(d, q, q');
    if q > q' {
      MulAtLeast(d, q - q');
    } else if q < q' {
      MulDistributes(d, q', q);
      MulAtLeast(d, q' - q);
    }
  }

  lemma MulDistributes(d: int, x: int, y: int)
    ensures d * (x - y) == d * x - d * y
  {
  }

  lemma MulAtLeast(d: int, k: int)
    requires d > 0 && k >= 1
    ensures d * k >= d
  {
  }

  /** Decoding what was encoded keeps the low 8n bits. */
  lemma {:induction false} FromToBytes(v: nat, n: nat)
    ensures FromBytes(ToBytes(v, n)) == v % Pow256(n)
  {
    if n > 0 {
      FromToBytes(v / 0x100, n - 1);
      assert ToBytes(v, n)[1..] == ToBytes(v / 0x100, n - 1);
      ModSplit(v, Pow256(n - 1));
    }
  }

  /** Encoding what was decoded gives the bytes back. */
  lemma {:induction false} ToFromBytes(b: seq<u8>)
    ensures ToBytes(FromBytes(b), |b|) == b
  {
    if b != [] {
      ToFromBytes(b[1..]);
      assert b == [b[0]] + b[1..];
    }
  }

  /** Encoding forgets everything above the low n bytes. */
  lemma {:induction false} ToBytesMod(v: nat, n: nat)
    ensures ToBytes(v % Pow256(n), n) == ToBytes(v, n)
  {
    FromToBytes(v, n);
    ToFromBytes(ToBytes(v, n));
  }

  /** Byte strings concatenate as numbers add at shifted positions. */
  lemma {:induction false} FromBytesConcat(a: seq<u8>, b: seq<u8>)
    ensures FromBytes(a + b) == FromBytes(a) + Pow256(|a|) * FromBytes(b)
  {
    if a == [] {
      assert a + b == b;
    } else {
      assert (a + b)[1..] == a[1..] + b;
      FromBytesConcat(a[1..], b);
      MulAssoc(0x100, Pow256(|a| - 1), FromBytes(b));
    }
  }

  lemma MulAssoc(x: int, y: int, z: int)
    ensures (x * y) * z == x * (y * z)
  {
  }

  /** Dividing by a product is dividing twice. */
  lemma DivTwice(a: nat, p: nat, q: nat)
    requires p > 0 && q > 0
    ensures a / (p * q) == (a / p) / q
  {
    var b, r := a / p, a % p;
    var c, s := b / q, b % q;
    DivTwiceOf(a, p, q, c, s, r);
  }

  lemma DivTwiceOf(a: nat, p: nat, q: nat, c: nat, s: nat, r: nat)
    requires p > 0 && q > 0 && s < q && r < p && a == p * (q * c + s) + r
    ensures a / (p * q) == c
  {
    Nested(p, q, c, s);
    Inside(p, q, s, r);
    DivModUnique(a, p * q, c, p * s + r);
  }

  lemma Nested(p: nat, q: nat, c: nat, s: nat)
    ensures p * (q * c + s) == (p * q) * c + p * s
  {
  }

  lemma Inside(p: nat, q: nat, s: nat, r: nat)
    requires s < q && r < p
    ensures 0 <= p * s + r < p * q
  {
    assert s + 1 <= q;
    assert p * (s + 1) <= p * q;
  }
}
