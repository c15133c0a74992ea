/** Rounding-directed integer division, and the checked i128 multiply-then-divide
    operations of the fixed-point library that the contract calls. */
module FixedPoint {
  import opened Types

  const SCALAR_7: int := 1_0000000
  const SCALAR_12: int := 1_000_000_000_000
  const SECONDS_PER_YEAR: int := 31_536_000

  predicate InI128(x: int) {
    -I128_LIMIT <= x < I128_LIMIT
  }

  // The largest q with q * d <= x.
  function FloorDiv(x: int, d: int): (q: int)
    requires 0 < d
    ensures q * d <= x < q * d + d
  {
    x / d
  }

  // The smallest q with x <= q * d.
  function CeilDiv(x: int, d: int): (q: int)
    requires 0 < d
    ensures q * d - d < x <= q * d
  {
    x / d + (if x % d > 0 then 1 else 0)
  }

  // `x * y / d` rounded down; fails where the product leaves i128 or d is zero.
  function FixedMulFloor(x: int, y: int, d: nat): Result<int> {
    if d == 0 || !InI128(x * y) then Err(ArithmeticError) else Ok(FloorDiv(x * y, d))
  }

  function FixedMulCeil(x: int, y: int, d: nat): Result<int> {
    if d == 0 || !InI128(x * y) then Err(ArithmeticError) else Ok(CeilDiv(x * y, d))
  }

  // `x * d / y`: the divisor is the second argument.
  function FixedDivFloor(x: int, y: nat, d: int): Result<int> {
    if y == 0 || !InI128(x * d) then Err(ArithmeticError) else Ok(FloorDiv(x * d, y))
  }

  function FixedDivCeil(x: int, y: nat, d: int): Result<int> {
    if y == 0 || !InI128(x * d) then Err(ArithmeticError) else Ok(CeilDiv(x * d, y))
  }

  // Additions and subtractions run with overflow checks on.
  function CheckedI128(x: int): Result<int> {
    if InI128(x) then Ok(x) else Err(ArithmeticError)
  }

  // ---- Order facts about products ----

  lemma MulLe(a: int, b: int, c: int)
    requires a <= b && 0 <= c
    ensures a * c <= b * c
  {
  }

  lemma CancelLe(a: int, b: int, c: int)
    requires a * c <= b * c && 0 < c
    ensures a <= b
  {
    if b < a {
      MulLe(b + 1, a, c);
    }
  }

  lemma CancelLt(a: int, b: int, c: int)
    requires a * c < b * c && 0 < c
    ensures a < b
  {
    if b <= a {
      MulLe(b, a, c);
    }
  }

  lemma Distribute(a: int, b: int, c: int)
    ensures (a + b) * c == a * c + b * c
  {
  }

  lemma Swap(a: int, b: int, c: int)
    ensures a * b * c == a * c * b
  {
  }

  lemma Regroup(a: int, b: int, c: int)
    ensures a * b * c == a * (b * c)
  {
  }

  // ---- Rounding is an adjunction ----

  /** Rounding down is the right adjoint of multiplication. */
  lemma FloorAdjoint(k: int, x: int, d: int)
    requires 0 < d
    ensures k <= FloorDiv(x, d) <==> k * d <= x
  {
    var q := FloorDiv(x, d);
    if k <= q {
      MulLe(k, q, d);
    }
    if k * d <= x {
      CancelLt(k, q + 1, d);
    }
  }

  /** Rounding up is the left adjoint of multiplication. */
  lemma CeilAdjoint(k: int, x: int, d: int)
    requires 0 < d
    ensures CeilDiv(x, d) <= k <==> x <= k * d
  {
    var q := CeilDiv(x, d);
    if q <= k {
      MulLe(q, k, d);
    }
    if x <= k * d {
      CancelLt(q - 1, k, d);
    }
  }

  lemma FloorMonotone(x: int, y: int, d: int)
    requires 0 < d && x <= y
    ensures FloorDiv(x, d) <= FloorDiv(y, d)
  {
    FloorAdjoint(FloorDiv(x, d), y, d);
  }

  lemma FloorSuperadditive(x: int, y: int, d: int)
    requires 0 < d
    ensures FloorDiv(x, d) + FloorDiv(y, d) <= FloorDiv(x + y, d)
  {
    var p, q := FloorDiv(x, d), FloorDiv(y, d);
    assert (p + q) * d == p * d + q * d;
    FloorAdjoint(p + q, x + y, d);
  }

  lemma FloorNonNegative(x: int, d: int)
    requires 0 < d && 0 <= x
    ensures 0 <= FloorDiv(x, d)
  {
    FloorAdjoint(0, x, d);
  }
}
