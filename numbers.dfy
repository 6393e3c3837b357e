/** JavaScript numbers as the request validators see them. A finite number is
    kept as an exact decimal `digits / 10^scale`, so that "is an integer", the
    `@Min`/`@Max` bounds and "at most two decimal places" are exact. */
module Numbers {

  datatype Number = Decimal(digits: int, scale: nat) | NaN | Infinity(negative: bool)

  function Pow10(k: nat): (p: nat)
    ensures p >= 1
  {
    if k == 0 then 1 else 10 * Pow10(k - 1)
  }

  lemma {:induction false} Pow10Add(a: nat, b: nat)
    ensures Pow10(a + b) == Pow10(a) * Pow10(b)
  {
    if a > 0 {
      Pow10Add(a - 1, b);
      assert Pow10(a + b) == 10 * Pow10(a - 1 + b);
    }
  }

  /** `Number.isInteger(n)`, which `@IsInt()` checks. */
  predicate IsInteger(n: Number) {
    n.Decimal? && n.digits % Pow10(n.scale) == 0
  }

  function IntegerValue(n: Number): (v: int)
    requires IsInteger(n)
    ensures v * Pow10(n.scale) == n.digits
  {
    n.digits / Pow10(n.scale)
  }

  /** `n >= bound`, which `@Min(bound)` checks (false for NaN). */
  predicate AtLeast(n: Number, bound: int) {
    match n
    case Decimal(d, s) => d >= bound * Pow10(s)
    case NaN => false
    case Infinity(negative) => !negative
  }

  /** `n <= bound`, which `@Max(bound)` checks (false for NaN). */
  predicate AtMost(n: Number, bound: int) {
    match n
    case Decimal(d, s) => d <= bound * Pow10(s)
    case NaN => false
    case Infinity(negative) => negative
  }

  /** `@IsNumber({ maxDecimalPlaces: k })`: a finite number whose shortest
      decimal form has at most `k` digits after the point. */
  predicate IsNumberWithDecimals(n: Number, k: nat) {
    n.Decimal? && (n.scale <= k || n.digits % Pow10(n.scale - k) == 0)
  }

  /** The value of an integral number keeps the bounds `@Min` and `@Max`
      checked on it. */
  lemma IntegerAtLeast(n: Number, lo: int)
    requires IsInteger(n) && AtLeast(n, lo)
    ensures IntegerValue(n) >= lo
  {
    var p := Pow10(n.scale);
    assert n.digits == IntegerValue(n) * p;
    CancelFactor(lo, IntegerValue(n), p);
  }

  lemma IntegerAtMost(n: Number, hi: int)
    requires IsInteger(n) && AtMost(n, hi)
    ensures IntegerValue(n) <= hi
  {
    var p := Pow10(n.scale);
    assert n.digits == IntegerValue(n) * p;
    CancelFactor(IntegerValue(n), hi, p);
  }

  lemma CancelFactor(a: int, b: int, p: int)
    requires p >= 1 && a * p <= b * p
    ensures a <= b
  {
    assert (b - a) * p >= 0;
  }

  lemma CancelStrict(a: int, b: int, p: int)
    requires p >= 1 && a * p < b * p
    ensures a < b
  {
    assert (b - a) * p > 0;
  }

  /** A price with at most two decimal places, in hundredths: exact, so that
      `digits / 10^scale == cents / 100`. */
  function Hundredths(n: Number): (cents: int)
    requires IsNumberWithDecimals(n, 2)
    ensures cents * Pow10(n.scale) == n.digits * 100
    ensures AtLeast(n, 0) ==> cents >= 0
  {
    if n.scale <= 2 then
      Pow10Add(n.scale, 2 - n.scale);
      assert Pow10(2) == 100;
      n.digits * Pow10(2 - n.scale)
    else
      Pow10Add(2, n.scale - 2);
      assert Pow10(2) == 100;
      var q := n.digits / Pow10(n.scale - 2);
      assert n.digits == q * Pow10(n.scale - 2);
      assert q * Pow10(n.scale) == q * (Pow10(n.scale - 2) * 100);
      NonNegativeQuotient(n.digits, Pow10(n.scale - 2));
      q
  }

  lemma NonNegativeQuotient(a: int, b: nat)
    requires b >= 1
    ensures a >= 0 ==> a / b >= 0
  {
  }
}
