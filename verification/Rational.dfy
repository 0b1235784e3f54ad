/**
 Exact rationals as a numerator over a positive denominator, and the two
 rounding routines of the source.  The value of a rational is a `real`; the
 specification of rounding is stated on that value, so it does not depend on
 which of its many numerator/denominator pairs represents it.
 */
module Rational {
  import opened Wrappers

  datatype Fraction = Fraction(num: int, den: int) {
    function Value(): real
      requires den != 0
    {
      num as real / den as real
    }

    function Times(other: Rat): (product: Rat)
      requires den > 0
      ensures product.Value() == Value() * other.Value()
    {
      TimesValue(this, other);
      Fraction(num * other.num, den * other.den)
    }

    function Plus(other: Rat): (sum: Rat)
      requires den > 0
      ensures sum.Value() == Value() + other.Value()
    {
      PlusValue(this, other);
      Fraction(num * other.den + other.num * den, den * other.den)
    }
  }

  type Rat = f: Fraction | f.den > 0 witness Fraction(0, 1)

  lemma MulPositive(x: int, y: int)
    requires x > 0 && y > 0
    ensures x * y > 0
  {
  }

  lemma TimesValue(left: Rat, right: Rat)
    ensures left.den * right.den > 0
    ensures Fraction(left.num * right.num, left.den * right.den).Value() == left.Value() * right.Value()
  {
    MulPositive(left.den, right.den);
    var a, b, c, d := left.num as real, left.den as real, right.num as real, right.den as real;
    assert (left.num * right.num) as real == a * c && (left.den * right.den) as real == b * d;
    assert (a / b) * (c / d) * (b * d) == ((a / b) * b) * ((c / d) * d) == a * c;
  }

  lemma PlusValue(left: Rat, right: Rat)
    ensures left.den * right.den > 0
    ensures Fraction(left.num * right.den + right.num * left.den, left.den * right.den).Value()
            == left.Value() + right.Value()
  {
    MulPositive(left.den, right.den);
    var a, b, c, d := left.num as real, left.den as real, right.num as real, right.den as real;
    assert (left.num * right.den + right.num * left.den) as real == a * d + c * b
      && (left.den * right.den) as real == b * d;
    assert (a / b + c / d) * (b * d) == ((a / b) * b) * d + ((c / d) * d) * b == a * d + c * b;
  }

  function FromInt(n: int): (r: Rat)
    ensures r.Value() == n as real
  {
    Fraction(n, 1)
  }

  // ---- rounding ---------------------------------------------------------------------------------------------------

  /** `q` is nearest to `x`, and on a tie it is the one further from zero. */
  ghost predicate Nearest(x: real, q: int) {
    && -0.5 <= x - q as real <= 0.5
    && (x - q as real == 0.5 ==> x < 0.0)
    && (x - q as real == -0.5 ==> x > 0.0)
  }

  function Round(x: real): (q: int)
    ensures Nearest(x, q)
  {
    if x >= 0.0 then (x + 0.5).Floor else -((-x + 0.5).Floor)
  }

  lemma NearestUnique(x: real, p: int, q: int)
    requires Nearest(x, p) && Nearest(x, q)
    ensures p == q
  {
  }

  lemma RoundMonotone(x: real, y: real)
    requires x <= y
    ensures Round(x) <= Round(y)
  {
  }

  /** Rounding up to an integer bound is decided at half a unit below it, for a positive bound. */
  lemma RoundReaches(x: real, bound: int)
    ensures x >= bound as real ==> Round(x) >= bound
    ensures Round(bound as real) == bound
  {
  }

  /** Truncated division, as `big.Int.QuoRem` divides. */
  function Quo(n: int, d: int): int
    requires d > 0
  {
    if n >= 0 then n / d else -((-n) / d)
  }

  function Rem(n: int, d: int): int
    requires d > 0
  {
    n - Quo(n, d) * d
  }

  function Abs(n: int): nat {
    if n < 0 then -n else n
  }

  function Sign(n: int): int {
    if n < 0 then -1 else if n > 0 then 1 else 0
  }

  /** If `value = q + r/d` with a remainder of the sign of the value, rounding only inspects the remainder. */
  lemma NearestFromRemainder(value: Rat, q: int, r: int)
    requires value.num == q * value.den + r
    requires Abs(r) < value.den
    requires value.num >= 0 ==> r >= 0
    requires value.num <= 0 ==> r <= 0
    ensures Nearest(value.Value(), if 2 * Abs(r) >= value.den then q + Sign(value.num) else q)
  {
    var d, x, z := value.den as real, value.Value(), value.Value() - q as real;
    assert (q * value.den) as real == q as real * d;
    assert z * d == x * d - q as real * d == r as real;
    HalfBounds(z, d, r as real);
    SignOfQuotient(value);
  }

  lemma SignOfQuotient(value: Rat)
    ensures value.num > 0 <==> value.Value() > 0.0
    ensures value.num < 0 <==> value.Value() < 0.0
  {
  }

  lemma HalfBounds(z: real, d: real, r: real)
    requires d > 0.0 && z * d == r && -d < r < d
    ensures 2.0 * r >= d <==> z >= 0.5
    ensures -2.0 * r >= d <==> z <= -0.5
    ensures -1.0 < z < 1.0
    ensures r >= 0.0 <==> z >= 0.0
    ensures r <= 0.0 <==> z <= 0.0
  {
    ScaleOrder(z, 0.5, d, d / 2.0);
    ScaleOrder(z, -0.5, d, -d / 2.0);
    assert (z - 1.0) * d == r - d && (z + 1.0) * d == r + d;
    ScaleOrder(z - 1.0, 0.0, d, 0.0);
    ScaleOrder(z + 1.0, 0.0, d, 0.0);
    ScaleOrder(z, 0.0, d, 0.0);
  }

  lemma ScaleOrder(z: real, k: real, d: real, scaled: real)
    requires d > 0.0 && scaled == k * d
    ensures z < k <==> z * d < scaled
    ensures z == k <==> z * d == scaled
  {
    if z < k { MulStrict(z, k, d); } else if k < z { MulStrict(k, z, d); }
  }

  lemma MulMonotone(x: real, y: real, k: real)
    requires x <= y && k >= 0.0
    ensures x * k <= y * k
  {
  }

  lemma MulStrict(x: real, y: real, k: real)
    requires x < y && k > 0.0
    ensures x * k < y * k
  {
  }

  lemma QuoRemFacts(n: int, d: int)
    requires d > 0
    ensures n == Quo(n, d) * d + Rem(n, d)
    ensures Abs(Rem(n, d)) < d
    ensures n >= 0 ==> Rem(n, d) >= 0
    ensures n <= 0 ==> Rem(n, d) <= 0
  {
    if n >= 0 {
      assert n == (n / d) * d + n % d;
    } else {
      assert -n == ((-n) / d) * d + (-n) % d;
    }
  }

  /** `roundedRatBigInt`: truncate, then step away from zero when twice the remainder reaches the denominator. */
  method RoundedRatBigInt(value: Rat) returns (quotient: int)
    ensures quotient == Round(value.Value())
  {
    quotient := Quo(value.num, value.den);
    var remainder := Rem(value.num, value.den);
    QuoRemFacts(value.num, value.den);
    NearestFromRemainder(value, quotient, remainder);
    if Abs(remainder) * 2 >= value.den {
      quotient := quotient + Sign(value.num);
    }
    NearestUnique(value.Value(), quotient, Round(value.Value()));
  }

  const MAX_INT64: int := 0x7fff_ffff_ffff_ffff
  const MIN_INT64: int := -0x8000_0000_0000_0000

  predicate IsInt64(n: int) {
    MIN_INT64 <= n <= MAX_INT64
  }

  datatype RangeError = OutOfRange

  /** `roundedRatInt64`: round the absolute value up on ties, restore the sign, then check the range. */
  method RoundedRatInt64(value: Rat) returns (result: Result<int, RangeError>)
    ensures result == if IsInt64(Round(value.Value())) then Ok(Round(value.Value())) else Err(OutOfRange)
  {
    var numerator := Abs(value.num);
    var quotient := Quo(numerator, value.den);
    var remainder := Rem(numerator, value.den);
    QuoRemFacts(numerator, value.den);
    if 2 * remainder >= value.den {
      quotient := quotient + 1;
    }
    if value.num < 0 {
      quotient := -quotient;
    }
    RoundAbsolute(value, quotient);
    if !IsInt64(quotient) {
      return Err(OutOfRange);
    }
    result := Ok(quotient);
  }

  lemma RoundAbsolute(value: Rat, quotient: int)
    requires
      var n := Abs(value.num);
      var up := if 2 * Rem(n, value.den) >= value.den then Quo(n, value.den) + 1 else Quo(n, value.den);
      quotient == if value.num < 0 then -up else up
    ensures quotient == Round(value.Value())
  {
    var n := Abs(value.num);
    QuoRemFacts(n, value.den);
    var q, r := Quo(n, value.den), Rem(n, value.den);
    if value.num < 0 {
      NegateProduct(q, value.den);
      NearestFromRemainder(value, -q, -r);
    } else {
      NearestFromRemainder(value, q, r);
    }
    if value.num == 0 {
      assert q == 0 && r == 0 by { if q != 0 { MulPositive(Abs(q), value.den); } }
    }
    NearestUnique(value.Value(), quotient, Round(value.Value()));
  }

  lemma NegateProduct(q: int, d: int)
    ensures (-q) * d == -(q * d)
  {
  }
}
