/** From a 64-bit count of fractional seconds to seconds and nanoseconds, in 64-bit arithmetic. */
module Timestamps {
  import opened Results
  import opened Bytes
  import opened Frames

  const GIGA: int := 1_000_000_000
  const TWO63: int := 0x8000_0000_0000_0000

  function Pow(b: nat, n: nat): nat {
    if n == 0 then 1 else b * Pow(b, n - 1)
  }

  /** Ten to the n-th, multiplied up in an unsigned 64-bit variable. */
  function WrappedPow10(n: nat): U64 {
    if n == 0 then 1 else WrappedPow10(n - 1) * 10 % TWO64
  }

  /** The units per second that an `if_tsresol` octet announces; none if the source's shift by the
      exponent is undefined. */
  function Divisor(res: Byte): Option<U64> {
    if res < 0x80 then Some(WrappedPow10(res))
    else if res < 0xC0 then (Pow2Bound(res - 0x80); Some(Pow(2, res - 0x80)))
    else None
  }

  /** The conversion to `struct timespec`: the product wraps at 64 bits, the seconds become signed. */
  function ToTimespec(raw: U64, divisor: U64): Timespec
    requires 0 < divisor
  {
    var sec := raw / divisor;
    Timespec(if sec < TWO63 then sec else sec - TWO64, raw % divisor * GIGA % TWO64 / divisor)
  }

  /** The timestamp denotes `raw / divisor` seconds, rounded down to a nanosecond. */
  ghost predicate Exact(raw: U64, divisor: nat, ts: Timespec)
    requires 0 < divisor
  {
    0 <= ts.nsec < GIGA && ts.sec * GIGA + ts.nsec == raw * GIGA / divisor
  }

  // ---------- Division ----------

  lemma ProductMonotone(a: int, b: int, d: nat)
    requires a <= b
    ensures a * d <= b * d
  {
    assert 0 <= (b - a) * d;
  }

  lemma ProductAssociative(a: int, b: int, c: int)
    ensures a * (b * c) == a * b * c
  {
  }

  lemma Euclid(x: int, d: int)
    requires 0 < d
    ensures x == x / d * d + x % d && 0 <= x % d < d
  {
  }

  lemma QuotientsEqual(q: int, r: int, q': int, r': int, d: int)
    requires q * d + r == q' * d + r' && 0 <= r < d && 0 <= r' < d
    ensures q == q' && r == r'
  {
    if q < q' {
      ProductMonotone(q + 1, q', d);
    } else if q' < q {
      ProductMonotone(q' + 1, q, d);
    }
  }

  lemma DivisionUnique(x: int, d: int, q: int, r: int)
    requires 0 < d && x == q * d + r && 0 <= r < d
    ensures x / d == q && x % d == r
  {
    Euclid(x, d);
    QuotientsEqual(q, r, x / d, x % d, d);
  }

  lemma DivisionShift(q: int, d: int, x: int)
    requires 0 < d
    ensures (q * d + x) / d == q + x / d
  {
    assert x == x / d * d + x % d;
    assert q * d + x == (q + x / d) * d + x % d;
    DivisionUnique(q * d + x, d, q + x / d, x % d);
  }

  lemma DivisionMonotone(x: int, y: int, d: int)
    requires 0 < d && x <= y
    ensures x / d <= y / d
  {
    Euclid(x, d);
    Euclid(y, d);
    if y / d < x / d {
      ProductMonotone(y / d + 1, x / d, d);
    }
  }

  /** raw * 10^9 / d splits into whole seconds and the scaled remainder. */
  lemma ScaledSplit(raw: int, d: int)
    requires 0 < d && 0 <= raw
    ensures raw * GIGA / d == raw / d * GIGA + raw % d * GIGA / d
    ensures 0 <= raw % d * GIGA / d < GIGA
  {
    var q, r := raw / d, raw % d;
    assert raw == q * d + r;
    calc {
      raw * GIGA;
      (q * d + r) * GIGA;
      q * GIGA * d + r * GIGA;
    }
    DivisionShift(q * GIGA, d, r * GIGA);
    DivisionMonotone(0, r * GIGA, d);
    QuotientBelow(r * GIGA, d, GIGA);
  }

  lemma QuotientBelow(x: int, d: int, n: int)
    requires 0 < d && x < n * d
    ensures x / d < n
  {
    Euclid(x, d);
    if n <= x / d {
      ProductMonotone(n, x / d, d);
    }
  }

  /** Taking a product modulo 2^64 before dividing by d <= 2^64 changes the quotient. */
  lemma WrapChangesQuotient(x: int, d: int)
    requires TWO64 <= x && 0 < d <= TWO64
    ensures x % TWO64 / d < x / d
  {
    DivisionMonotone(d + x % TWO64, x, d);
    DivisionShift(1, d, x % TWO64);
  }

  /** The conversion is exact just when the seconds fit a signed and the product an unsigned 64-bit integer. */
  lemma ConversionExactIff(raw: U64, divisor: U64)
    requires 0 < divisor
    ensures Exact(raw, divisor, ToTimespec(raw, divisor)) <==>
            raw / divisor < TWO63 && raw % divisor * GIGA < TWO64
  {
    ScaledSplit(raw, divisor);
    var product := raw % divisor * GIGA;
    assert 0 <= raw / divisor <= raw by { DivisionMonotone(0, raw, divisor); QuotientBound(raw, divisor); }
    if product < TWO64 {
      assert product % TWO64 == product;
    } else {
      WrapChangesQuotient(product, divisor);
      assert 0 <= product % TWO64 / divisor by { DivisionMonotone(0, product % TWO64, divisor); }
    }
  }

  lemma QuotientBound(x: int, d: int)
    requires 0 <= x && 0 < d
    ensures 0 <= x / d <= x
  {
    DivisionMonotone(0, x, d);
    ProductMonotone(1, d, x + 1);
    QuotientBelow(x, d, x + 1);
  }

  /** Exact conversions keep the order of the raw timestamps. */
  lemma ConversionMonotone(raw1: U64, raw2: U64, divisor: U64)
    requires 0 < divisor && raw1 <= raw2
    requires Exact(raw1, divisor, ToTimespec(raw1, divisor)) && Exact(raw2, divisor, ToTimespec(raw2, divisor))
    ensures var a, b := ToTimespec(raw1, divisor), ToTimespec(raw2, divisor);
            a.sec < b.sec || (a.sec == b.sec && a.nsec <= b.nsec)
  {
    DivisionMonotone(raw1 * GIGA, raw2 * GIGA, divisor);
  }

  // ---------- Resolutions ----------

  lemma PowZero(b: nat)
    ensures Pow(b, 0) == 1
  {
  }

  lemma PowTurn(b: nat, n: nat)
    requires 0 < n
    ensures Pow(b, n) == b * Pow(b, n - 1)
  {
  }

  lemma {:induction false} PowMonotone(b: nat, m: nat, n: nat)
    requires 0 < b && m <= n
    ensures 0 < Pow(b, m) <= Pow(b, n)
    decreases n
  {
    if n > 0 {
      if m < n {
        PowMonotone(b, m, n - 1);
        ProductMonotone(1, b, Pow(b, n - 1));
      } else {
        PowMonotone(b, m - 1, n - 1);
        ProductMonotone(1, b, Pow(b, n - 1));
      }
    }
  }

  lemma {:induction false} PowSum(b: nat, m: nat, n: nat)
    ensures Pow(b, m + n) == Pow(b, m) * Pow(b, n)
    decreases m
  {
    if m > 0 {
      PowSum(b, m - 1, n);
      ProductAssociative(b, Pow(b, m - 1), Pow(b, n));
      assert m + n - 1 == m - 1 + n;
    }
  }

  lemma Pow2Values()
    ensures Pow(2, 1) == 2 && Pow(2, 34) == 0x4_0000_0000 && Pow(2, 35) == 0x8_0000_0000 && Pow(2, 63) == TWO63
  {
    assert Pow(2, 8) == 0x100 && Pow(2, 2) == 4;
    PowSum(2, 8, 8);
    PowSum(2, 16, 16);
    PowSum(2, 2, 32);
    PowSum(2, 1, 34);
    PowSum(2, 32, 31);
    PowSum(2, 1, 31);
  }

  lemma Pow10Values()
    ensures Pow(10, 1) == 10 && Pow(10, 10) == 10_000_000_000 && Pow(10, 11) == 100_000_000_000
    ensures Pow(10, 19) < TWO64 < Pow(10, 20)
  {
    assert Pow(10, 1) == 10 && Pow(10, 3) == 1000;
    PowSum(10, 3, 3);
    PowSum(10, 3, 6);
    PowSum(10, 1, 9);
    PowSum(10, 1, 10);
    PowSum(10, 9, 10);
    PowSum(10, 10, 10);
  }

  lemma Pow2Bound(k: nat)
    requires k < 64
    ensures 0 < Pow(2, k) < TWO64
  {
    PowMonotone(2, k, 63);
    Pow2Values();
  }

  /** Up to 10^19 the power fits, and nothing wraps. */
  lemma {:induction false} Pow10Fits(n: nat)
    requires n <= 19
    ensures WrappedPow10(n) == Pow(10, n) < TWO64
  {
    hide Pow;
    assert Pow(10, 0) == 1 by { PowZero(10); }
    PowMonotone(10, n, 19);
    Pow10Values();
    if n > 0 {
      Pow10Fits(n - 1);
      PowTurn(10, n);
      DivisionUnique(Pow(10, n), TWO64, 0, Pow(10, n));
    }
  }

  /** Beyond that it wraps: what is left is the power modulo 2^64. */
  lemma {:induction false} WrappedIsModulo(n: nat)
    ensures WrappedPow10(n) == Pow(10, n) % TWO64
  {
    hide Pow;
    if n == 0 {
      PowZero(10);
    } else {
      WrappedIsModulo(n - 1);
      PowTurn(10, n);
      var p := Pow(10, n - 1);
      Euclid(p, TWO64);
      Euclid(WrappedPow10(n - 1) * 10, TWO64);
      var q := p / TWO64 * 10 + WrappedPow10(n - 1) * 10 / TWO64;
      DivisionUnique(Pow(10, n), TWO64, q, WrappedPow10(n));
    }
  }

  /** An exponent whose power is representable in 64 bits. */
  predicate Representable(res: Byte) {
    res <= 19 || 0x80 <= res < 0xC0
  }

  lemma DivisorPositive(res: Byte)
    requires Representable(res)
    ensures Divisor(res).Some? && 0 < Divisor(res).value
    ensures Divisor(res).value == if res < 0x80 then Pow(10, res) else Pow(2, res - 0x80)
  {
    if res < 0x80 {
      Pow10Fits(res);
      PowMonotone(10, 0, res);
    } else {
      Pow2Bound(res - 0x80);
    }
  }

  /** The largest divisor for which no product wraps. */
  const MAX_DIVISOR: int := 18_446_744_074

  lemma DivisorBoundIff(res: Byte)
    requires Representable(res)
    ensures Divisor(res).Some? && (0 < Divisor(res).value <= MAX_DIVISOR <==> res <= 10 || 0x80 <= res <= 0xA2)
    ensures 1 < Divisor(res).value <==> res != 0 && res != 0x80
  {
    DivisorPositive(res);
    if res < 0x80 {
      Pow10Values();
      if res <= 10 { PowMonotone(10, res, 10); } else { PowMonotone(10, 11, res); }
      if res > 0 { PowMonotone(10, 1, res); }
    } else {
      Pow2Values();
      if res <= 0xA2 { PowMonotone(2, res - 0x80, 34); } else { PowMonotone(2, 35, res - 0x80); }
      if res > 0x80 { PowMonotone(2, 1, res - 0x80); }
    }
  }

  lemma SmallDivisorExact(raw: U64, divisor: U64)
    requires 0 < divisor <= MAX_DIVISOR && raw / divisor < TWO63
    ensures Exact(raw, divisor, ToTimespec(raw, divisor))
  {
    assert raw % divisor <= MAX_DIVISOR - 1;
    ConversionExactIff(raw, divisor);
  }

  lemma HalfFitsSigned(raw: U64, divisor: U64)
    requires 1 < divisor
    ensures raw / divisor < TWO63
  {
    ProductMonotone(2, divisor, TWO63);
    QuotientBelow(raw, divisor, TWO63);
  }

  /** The units per second that the octet stands for, in unbounded arithmetic. */
  function TrueDivisor(res: Byte): nat {
    if res < 0x80 then Pow(10, res) else Pow(2, res - 0x80)
  }

  /** The source's conversion of `raw` is defined, and exact. */
  ghost predicate Converts(res: Byte, raw: U64) {
    && Divisor(res).Some? && 0 < Divisor(res).value && 0 < TrueDivisor(res)
    && Exact(raw, TrueDivisor(res), ToTimespec(raw, Divisor(res).value))
  }

  /** A divisor that wrapped takes as many units for a second, although they are less. */
  lemma WrappedNeverExact(res: Byte)
    requires 20 <= res < 0x80 && 0 < Divisor(res).value
    ensures !Converts(res, Divisor(res).value)
  {
    hide Pow, WrappedPow10;
    var d: U64, ideal := Divisor(res).value, Pow(10, res);
    Pow10Values();
    PowMonotone(10, 20, res);
    DivisionUnique(d, d, 1, 0);
    assert ToTimespec(d, d) == Timespec(1, 0) by { DivisionUnique(0, d, 0, 0); }
    assert d * GIGA < GIGA * ideal;
    QuotientBelow(d * GIGA, ideal, GIGA);
  }

  lemma RepresentableExactIff(res: Byte)
    requires Representable(res)
    ensures (forall raw: U64 :: Converts(res, raw)) <==> 1 <= res <= 10 || 0x81 <= res <= 0xA2
  {
    hide Pow, Divisor;
    DivisorPositive(res);
    DivisorBoundIff(res);
    var d: U64 := Divisor(res).value;
    assert d == TrueDivisor(res);
    if d > MAX_DIVISOR {
      DivisionUnique(d - 1, d, 0, d - 1);
      ConversionExactIff(d - 1, d);
      assert !Converts(res, d - 1);
    } else if d == 1 {
      ConversionExactIff(TWO63, 1);
      assert !Converts(res, TWO63);
    } else {
      forall raw: U64 ensures Converts(res, raw) {
        HalfFitsSigned(raw, d);
        SmallDivisorExact(raw, d);
      }
    }
  }

  /** Every timestamp converts exactly just for the decimal exponents 1 to 10 and the binary ones 1 to 34. */
  lemma ResolutionExactIff(res: Byte)
    ensures (forall raw: U64 :: Converts(res, raw)) <==> 1 <= res <= 10 || 0x81 <= res <= 0xA2
  {
    hide Exact, ToTimespec;
    if Representable(res) {
      RepresentableExactIff(res);
    } else if 0xC0 <= res || Divisor(res).value == 0 {
      assert !Converts(res, 0);
    } else {
      WrappedNeverExact(res);
    }
  }
}
