/** Integer division facts, and division as Rust performs it. */
module Arithmetic {

  /** Signed division that truncates toward zero. */
  function TruncatingDiv(a: int, b: int): int
    requires b > 0
  {
    if a >= 0 then a / b else -(-a / b)
  }

  lemma Quotient(n: nat, d: nat, k: nat)
    requires d > 0
    ensures n / d >= k <==> n >= k * d
  {
    var q := n / d;
    assert n == q * d + n % d;
    Scale(k, q, d);
    Scale(q + 1, k, d);
  }

  lemma Scale(a: nat, b: nat, d: nat)
    ensures a <= b ==> a * d <= b * d
  {
    if a <= b {
      assert b * d == a * d + (b - a) * d;
    }
  }

  lemma ZeroQuotient(n: nat, d: nat)
    requires d > 0
    ensures n / d == 0 <==> n < d
  {
    Quotient(n, d, 1);
  }

  lemma QuotientExactly(n: nat, d: nat, q: nat)
    requires q * d <= n < (q + 1) * d
    ensures n / d == q
  {
    Quotient(n, d, q);
    Quotient(n, d, q + 1);
  }

  lemma QuotientBounds(n: nat, d: nat)
    requires d > 0
    ensures n / d * d <= n < (n / d + 1) * d
  {
    Quotient(n, d, n / d);
    Quotient(n, d, n / d + 1);
  }

  lemma QuotientShrinks(n: nat, d: nat)
    requires d > 0
    ensures 0 <= n / d <= n
  {
    Scale(1, d, n + 1);
    Quotient(n, d, n + 1);
  }

  /** Truncating division never moves away from zero. */
  lemma TruncatingDivShrinks(a: int, b: int)
    requires b > 0
    ensures a >= 0 ==> 0 <= TruncatingDiv(a, b) <= a
    ensures a < 0 ==> a <= TruncatingDiv(a, b) <= 0
  {
    QuotientShrinks(if a >= 0 then a else -a, b);
  }

  const I16_BOUND: int := 0x8000
  const I64_BOUND: int := 0x8000_0000_0000_0000

  /** Two's-complement wrap-around into the range from `-half` to `half - 1`. */
  function Wrap(x: int, half: int): (y: int)
    requires half > 0
    ensures -half <= y < half
    ensures y == x <==> -half <= x < half
    decreases if x < 0 then -2 * x else 2 * x + 1
  {
    if x >= half then Wrap(x - 2 * half, half)
    else if x < -half then Wrap(x + 2 * half, half)
    else x
  }

  /** A cast to `i16`, or an overflowing operation on it. */
  function Wrap16(x: int): int {
    Wrap(x, I16_BOUND)
  }

  /** The same for `i64`. */
  function Wrap64(x: int): int {
    Wrap(x, I64_BOUND)
  }

  /** Wrapping forgets multiples of the range. */
  lemma {:induction false} Wrap64Shifts(x: int, k: nat)
    ensures Wrap64(x + k * (2 * I64_BOUND)) == Wrap64(x)
  {
    if k > 0 {
      Wrap64Shifts(x, k - 1);
      var y := x + (k - 1) * (2 * I64_BOUND);
      assert Wrap(y + 2 * I64_BOUND, I64_BOUND) == Wrap(y, I64_BOUND);
    }
  }

  /** Numbers that differ by a multiple of the range wrap to the same. */
  lemma Wrap64Congruent(x: int, y: int, k: int)
    requires y == x + k * (2 * I64_BOUND)
    ensures Wrap64(x) == Wrap64(y)
  {
    if k >= 0 {
      Wrap64Shifts(x, k);
    } else {
      Wrap64Shifts(y, -k);
    }
  }

  lemma {:induction false} Wrap64IsShift(x: int) returns (k: int)
    ensures Wrap64(x) == x + k * (2 * I64_BOUND)
    decreases if x < 0 then -2 * x else 2 * x + 1
  {
    k := 0;
    if x >= I64_BOUND {
      k := Wrap64IsShift(x - 2 * I64_BOUND);
      k := k - 1;
    } else if x < -I64_BOUND {
      k := Wrap64IsShift(x + 2 * I64_BOUND);
      k := k + 1;
    }
  }

  /** Wrapping the operands of a sum first makes no difference. */
  lemma Wrap64OfSum(x: int, y: int)
    ensures Wrap64(Wrap64(x) + Wrap64(y)) == Wrap64(x + y)
  {
    var j := Wrap64IsShift(x);
    var k := Wrap64IsShift(y);
    Wrap64Congruent(x + y, Wrap64(x) + Wrap64(y), j + k);
  }

  lemma Wrap64OfDifference(x: int, y: int)
    ensures Wrap64(Wrap64(x) - Wrap64(y)) == Wrap64(x - y)
  {
    var j := Wrap64IsShift(x);
    var k := Wrap64IsShift(y);
    Wrap64Congruent(x - y, Wrap64(x) - Wrap64(y), j - k);
  }

  /** A quotient whose dividend lost at least one divisor is not the true one. */
  lemma CutQuotient(n: nat, low: nat, d: nat)
    requires d > 0 && (n == low || n >= low + d)
    ensures low / d == n / d <==> n == low
  {
    if n >= low + d {
      QuotientBounds(low, d);
      assert (low / d + 1) * d == low / d * d + d;
      Quotient(n, d, low / d + 1);
    }
  }

  /** Percentages of a whole, from a product that may have lost the divisor or more. */
  lemma CutPercentage(product: nat, low: nat, whole: nat)
    requires whole > 0 && product <= 100 * whole && (product == low || product >= low + whole)
    ensures low / whole <= 100
    ensures low / whole == product / whole <==> product == low
    ensures product / whole == 100 <==> product == 100 * whole
  {
    Quotient(product, whole, 100);
    Quotient(low, whole, 101);
    Quotient(product, whole, 101);
    CutQuotient(product, low, whole);
  }

  lemma CutOrWhole(n: nat, bound: nat)
    requires bound > 0
    ensures n % bound == n <==> n < bound
    ensures n % bound == n || n >= n % bound + bound
  {
    if n >= bound {
      Quotient(n, bound, 1);
      Scale(1, n / bound, bound);
      assert n == n / bound * bound + n % bound;
    }
  }

  /** The percentage of a part, with a product that wraps at `bound`. */
  lemma WrappedPercentage(part: nat, whole: nat, bound: nat)
    requires part <= whole && 0 < whole < bound
    ensures part * 100 % bound / whole <= 100
    ensures part * 100 % bound / whole == part * 100 / whole <==> part * 100 < bound
    ensures part * 100 < bound ==> (part * 100 % bound / whole == 100 <==> part == whole)
  {
    CutOrWhole(part * 100, bound);
    CutPercentage(part * 100, part * 100 % bound, whole);
  }
}
