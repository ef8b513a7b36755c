/** Fixed-width machine integers and the operators Rust gives them. Dafny's `/` and `%` are
    Euclidean: for a positive divisor `/` floors, which is exactly Rust's arithmetic `>>` by the
    matching power of two, while Rust's own `/` truncates and is `TruncDiv` here. */
module MachineInts {
  type U8 = x: int | 0 <= x < 0x100
  type U16 = x: int | 0 <= x < 0x1_0000
  type U32 = x: int | 0 <= x < 0x1_0000_0000
  type U64 = x: int | 0 <= x < 0x1_0000_0000_0000_0000
  type I8 = x: int | -0x80 <= x < 0x80
  type I16 = x: int | -0x8000 <= x < 0x8000
  type I32 = x: int | -0x8000_0000 <= x < 0x8000_0000

  const U16_MAX: U16 := 0xFFFF
  const U32_MAX: U32 := 0xFFFF_FFFF
  const U64_MAX: U64 := 0xFFFF_FFFF_FFFF_FFFF

  predicate FitsI16(x: int) { -0x8000 <= x < 0x8000 }

  predicate FitsI32(x: int) { -0x8000_0000 <= x < 0x8000_0000 }

  /** The `as u16` cast: keep the low sixteen bits. */
  function AsU16(x: int): U16 { x % 0x1_0000 }

  /** The `as i16` cast: keep the low sixteen bits, read as two's complement. */
  function AsI16(x: int): I16 { (x + 0x8000) % 0x1_0000 - 0x8000 }

  /** The `as i8` cast of a byte. */
  function AsI8(x: int): I8 { (x + 0x80) % 0x100 - 0x80 }

  /** Rust's integer `/`, which rounds toward zero. */
  function TruncDiv(a: int, b: int): int
    requires b != 0
  {
    if a >= 0 then a / b else -((-a) / b)
  }

  function Min(a: int, b: int): int { if a <= b then a else b }

  function Max(a: int, b: int): int { if a <= b then b else a }

  function Abs(a: int): nat { if a < 0 then -a else a }

  /** Multiplying by a fixed non-negative factor keeps the order. */
  lemma ProductMonotone(a: int, b: int, k: int)
    requires a <= b && 0 <= k
    ensures a * k <= b * k
  {
  }

  lemma SignedProduct(a: int, b: int)
    ensures a * b == Abs(a) * Abs(b) || a * b == -(Abs(a) * Abs(b))
  {
    if a < 0 {
      assert -a * b == -(a * b);
    }
    if b < 0 {
      assert Abs(a) * -b == -(Abs(a) * b);
    }
  }

  /** Magnitudes multiply: the one non-linear fact behind every overflow bound. */
  lemma ProductBound(a: int, b: int, p: int, q: int)
    requires 0 <= p && 0 <= q && -p <= a <= p && -q <= b <= q
    ensures -(p * q) <= a * b <= p * q
  {
    var m, n := Abs(a), Abs(b);
    SignedProduct(a, b);
    ProductMonotone(0, m, n);
    ProductMonotone(m, p, n);
    ProductMonotone(n, q, p);
    assert p * n == n * p && p * q == q * p;
  }

  lemma SquareNonNegative(a: int)
    ensures 0 <= a * a
  {
  }

  lemma FactorAtMostZero(n: int, k: int)
    requires 0 < n && n * k < n
    ensures k <= 0
  {
  }

  lemma FloorDivMonotone(a: int, b: int, d: int)
    requires a <= b && 0 < d
    ensures a / d <= b / d
  {
    var p, q, r, s := a / d, b / d, a % d, b % d;
    assert a == d * p + r && b == d * q + s;
    assert d * (p - q) == d * p - d * q;
    FactorAtMostZero(d, p - q);
  }

  lemma FloorDivShrinks(m: int, d: int)
    requires 0 <= m && 0 < d
    ensures 0 <= m / d <= m
  {
    assert m == d * (m / d) + m % d;
    if m < m / d {
      ProductMonotone(1, d, m / d);
    }
  }

  /** A quotient and an in-range remainder determine the division. */
  lemma QuotientUnique(a: int, n: int, q: int, r: int)
    requires 0 < n && a == n * q + r && 0 <= r < n
    ensures a / n == q && a % n == r
  {
    var p, s := a / n, a % n;
    assert a == n * p + s;
    assert n * (p - q) == n * p - n * q && n * (q - p) == n * q - n * p;
    FactorAtMostZero(n, p - q);
    FactorAtMostZero(n, q - p);
  }

  lemma DivByNegation(m: int, n: int)
    requires 0 < n
    ensures m / -n == -(m / n)
  {
    var q, r := m / -n, m % -n;
    assert m == -n * q + r && 0 <= r < n;
    assert -n * q == n * -q;
    QuotientUnique(m, n, -q, r);
  }

  /** Truncating division by a positive divisor keeps the order. */
  lemma TruncDivMonotone(a: int, b: int, d: int)
    requires a <= b && 0 < d
    ensures TruncDiv(a, d) <= TruncDiv(b, d)
  {
    FloorDivMonotone(a, b, d);
    FloorDivMonotone(-b, -a, d);
    if 0 <= b {
      FloorDivShrinks(b, d);
    }
    if a < 0 {
      FloorDivShrinks(-a, d);
    }
  }

  lemma TruncDivNegate(a: int, d: int)
    requires 0 < d
    ensures TruncDiv(a, -d) == -TruncDiv(a, d)
  {
    DivByNegation(Abs(a), d);
  }

  /** Dividing by any non-zero divisor never grows a magnitude. */
  lemma TruncDivShrinks(a: int, d: int)
    requires d != 0
    ensures Abs(TruncDiv(a, d)) <= Abs(a)
  {
    FloorDivShrinks(Abs(a), Abs(d));
    if d < 0 {
      TruncDivNegate(a, -d);
    }
  }

  lemma AsI16OfWord(w: U16)
    ensures AsI16(w) == if w < 0x8000 then w else w - 0x1_0000
  {
  }
}
