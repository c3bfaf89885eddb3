/** Integer division facts, and why the floating-point quotients of the source round to them. */
module Arithmetic {

  function CeilDiv(a: nat, b: nat): (q: nat)
    requires b > 0
  {
    (a + b - 1) / b
  }

  function Min(a: int, b: int): int {
    if a < b then a else b
  }

  lemma MulMonotone(e: nat, s: nat, t: nat)
    requires s <= t
    ensures e * s <= e * t
  {
  }

  /** `CeilDiv` is the least number of pieces of size `b` that hold `a` units. */
  lemma CeilDivBounds(a: nat, b: nat)
    requires b > 0
    ensures b * CeilDiv(a, b) >= a
    ensures a > 0 ==> CeilDiv(a, b) >= 1 && b * (CeilDiv(a, b) - 1) < a
    ensures a == 0 ==> CeilDiv(a, b) == 0
  {
    var q := CeilDiv(a, b);
    assert a + b - 1 == b * q + (a + b - 1) % b;
  }

  lemma CeilDivUnique(a: nat, b: nat, q: nat)
    requires b > 0 && a <= b * q && (q == 0 || b * (q - 1) < a)
    ensures CeilDiv(a, b) == q
  {
    CeilDivBounds(a, b);
    var c := CeilDiv(a, b);
    if c < q {
      MulMonotone(b, c, q - 1);
    } else if c > q {
      MulMonotone(b, q, c - 1);
    }
  }

  lemma DivUnique(a: nat, b: nat, q: nat)
    requires b > 0 && b * q <= a < b * q + b
    ensures a / b == q
  {
    var d := a / b;
    assert b * d <= a < b * d + b;
    if d < q {
      MulMonotone(b, d + 1, q);
    } else if d > q {
      MulMonotone(b, q + 1, d);
    }
  }

  // ---------------------------------------------------------------------------------------------
  // Floating point.  `double` has precision 2^53 and `float` has precision 2^24: operands below the
  // precision are exact, a quotient is off by at most one part in the precision, and a quotient
  // that is an integer is exact.
  // ---------------------------------------------------------------------------------------------

  const DOUBLE_PRECISION: nat := 0x20_0000_0000_0000
  const FLOAT_PRECISION: nat := 0x100_0000

  /** A floating-point unit's quotient of two integers. */
  type Division = (nat, nat) -> real

  /** `r` is an acceptable floating-point value of `a / b`. */
  ghost predicate Rounds(r: real, a: nat, b: nat, precision: nat)
    requires b > 0
  {
    if a == 0 then r == 0.0
    else if b >= precision then 0.0 < r <= 1.0
    else
      && (a % b == 0 ==> r == (a / b) as real)
      && -(a as real) <= (r * b as real - a as real) * precision as real <= a as real
  }

  ghost predicate Faithful(div: Division, precision: nat) {
    forall a: nat, b: nat :: a < precision && b > 0 ==> Rounds(div(a, b), a, b, precision)
  }

  function Ceil(r: real): int {
    -((-r).Floor)
  }

  lemma BetweenIntegers(r: real, q: int)
    requires q as real < r < (q + 1) as real
    ensures r.Floor == q && Ceil(r) == q + 1
  {
  }

  lemma ScaleDown(d: real, p: real, a: real)
    requires p > 0.0 && -a <= d * p <= a < p
    ensures -1.0 < d < 1.0
  {
    if d >= 1.0 {
      MulMonotoneReal(1.0, d, p);
    } else if d <= -1.0 {
      MulMonotoneReal(1.0, -d, p);
    }
  }

  /** Ceiling and floor of the rounded quotient are those of the exact one. */
  lemma RoundedQuotientExact(r: real, a: nat, b: nat, precision: nat)
    requires a < precision && b > 0 && Rounds(r, a, b, precision)
    ensures Ceil(r) == CeilDiv(a, b)
    ensures b < precision ==> r.Floor == a / b
  {
    if a == 0 {
      CeilDivBounds(a, b);
    } else if b >= precision {
      CeilDivUnique(a, b, 1);
    } else if a % b == 0 {
      CeilDivUnique(a, b, a / b);
    } else {
      FractionExact(r, a, b, precision);
    }
  }

  lemma FractionExact(r: real, a: nat, b: nat, precision: nat)
    requires 0 < a < precision && 0 < b < precision && a % b != 0 && Rounds(r, a, b, precision)
    ensures Ceil(r) == CeilDiv(a, b) && r.Floor == a / b
  {
    hide CeilDiv, Ceil;
    var q := a / b;
    RemainderBetween(a, b, q);
    CeilDivUnique(a, b, q + 1);
    DeviationBelowOne(r, a, b, precision);
    QuotientBetween(r, a, b, q);
    BetweenIntegers(r, q);
  }

  lemma RemainderBetween(a: nat, b: nat, q: nat)
    requires b > 0 && a % b != 0 && q == a / b
    ensures q * b + 1 <= a <= q * b + b - 1 && b * q < a <= b * (q + 1)
  {
  }

  lemma DeviationBelowOne(r: real, a: nat, b: nat, precision: nat)
    requires 0 < a < precision && 0 < b < precision && Rounds(r, a, b, precision)
    ensures -1.0 < r * b as real - a as real < 1.0
  {
    ScaleDown(r * b as real - a as real, precision as real, a as real);
  }

  lemma QuotientBetween(r: real, a: nat, b: nat, q: nat)
    requires b > 0 && q * b + 1 <= a <= q * b + b - 1
    requires -1.0 < r * b as real - a as real < 1.0
    ensures q as real < r < (q + 1) as real
  {
    var rb := b as real;
    CastProduct(q, b);
    CastProduct(q + 1, b);
    assert (q + 1) * b == q * b + b;
    LessByFactor(q as real, r, rb);
    LessByFactor(r, (q + 1) as real, rb);
  }

  lemma CastProduct(a: nat, b: nat)
    ensures a as real * b as real == (a * b) as real
  {
  }

  lemma LessByFactor(x: real, y: real, z: real)
    requires z > 0.0 && x * z < y * z
    ensures x < y
  {
    if y <= x {
      MulMonotoneReal(y, x, z);
    }
  }

  lemma MulMonotoneReal(x: real, y: real, z: real)
    requires x <= y && z > 0.0
    ensures x * z <= y * z
  {
  }
}
