/** The few JavaScript number semantics the calculators rely on, stated over
    exact reals: JavaScript truthiness of a parsed number, the `a || b`
    default, `Math.round` and the value of `Math.PI`. */
module JsNumbers {
  import opened Wrappers

  /** `Math.PI`, written as the decimal JavaScript prints for it. */
  const PI: real := 3.141592653589793

  /** A parsed number is truthy in JavaScript when it is neither NaN nor zero.
      Negative numbers are truthy: this is not a positivity test. */
  predicate Truthy(x: Option<real>) {
    x.Some? && x.value != 0.0
  }

  /** `parseFloat(text) || fallback`: the parsed value when it is truthy,
      the fallback otherwise. */
  function OrElse(x: Option<real>, fallback: real): (r: real)
    ensures Truthy(x) ==> r == x.value
    ensures !Truthy(x) ==> r == fallback
    ensures r == 0.0 ==> fallback == 0.0
  {
    if Truthy(x) then x.value else fallback
  }

  /** `Math.round(x)`: the nearest integer, halves rounded up (towards
      positive infinity), which is `floor(x + 0.5)`. */
  function JsRound(x: real): (r: int)
    ensures r as real - 0.5 <= x < r as real + 0.5
  {
    (x + 0.5).Floor
  }

  /** Rounding never leaves an interval whose ends are integers. */
  lemma RoundStaysBetween(x: real, lo: int, hi: int)
    requires lo as real <= x <= hi as real
    ensures lo <= JsRound(x) <= hi
  {
  }

  /** Rounding preserves order. */
  lemma RoundMonotone(x: real, y: real)
    requires x <= y
    ensures JsRound(x) <= JsRound(y)
  {
  }

  /** Rounding leaves an integer as it is. */
  lemma RoundOfInteger(k: int)
    ensures JsRound(k as real) == k
  {
  }

  /** `Math.pow(x, 2)`. */
  function Pow2(x: real): real {
    x * x
  }

  lemma MulPositive(a: real, b: real)
    requires a > 0.0 && b > 0.0
    ensures a * b > 0.0
  {
  }

  /** Multiplying by a non-negative factor preserves order. */
  lemma MulMonotone(a: real, b: real, c: real)
    requires a <= b && c >= 0.0
    ensures a * c <= b * c
  {
    if a < b && c > 0.0 {
      MulPositive(b - a, c);
      assert b * c - a * c == (b - a) * c;
    }
  }

  /** Dividing by a positive divisor preserves order. */
  lemma DivMonotone(a: real, b: real, d: real)
    requires a <= b && d > 0.0
    ensures a / d <= b / d
  {
    if a < b {
      MulPositive(b - a, 1.0 / d);
      assert b / d - a / d == (b - a) * (1.0 / d);
    }
  }

  /** Squaring is strictly increasing on the non-negative reals. */
  lemma Pow2Increasing(lo: real, hi: real)
    requires 0.0 <= lo < hi
    ensures 0.0 <= Pow2(lo) < Pow2(hi)
  {
    if lo > 0.0 {
      calc {
        Pow2(lo);
      ==
        lo * lo;
      >  { MulPositive(lo, lo); }
        0.0;
      }
    }
    var gap, sum := hi - lo, hi + lo;
    calc {
      Pow2(hi) - Pow2(lo);
    ==
      gap * sum;
    >  { MulPositive(gap, sum); }
      0.0;
    }
  }
}
