/** Option: a value that may be absent (a null `shared_ptr`, a miss, an exhausted draw). */
module Optional {
  datatype Option<+T> = None | Some(value: T)
}

/** Elementary facts about real multiplication, used by the proofs. */
module RealFacts {
  lemma ZeroProduct(p: real, q: real)
    requires p * q == 0.0
    ensures p == 0.0 || q == 0.0
  {
  }

  lemma SquareZero(a: real)
    requires a * a == 0.0
    ensures a == 0.0
  {
    ZeroProduct(a, a);
  }

  lemma SumOfSquaresZero(a: real, b: real, c: real)
    requires a * a + b * b + c * c == 0.0
    ensures a == 0.0 && b == 0.0 && c == 0.0
  {
    SquareNonneg(a);
    SquareNonneg(b);
    SquareNonneg(c);
    assert a * a == 0.0 && b * b == 0.0 && c * c == 0.0;
    SquareZero(a);
    SquareZero(b);
    SquareZero(c);
  }

  lemma MulPos(a: real, b: real)
    requires 0.0 < a && 0.0 < b
    ensures 0.0 < a * b
  {
  }

  lemma NonzeroProduct(p: real, q: real)
    requires p != 0.0 && q != 0.0
    ensures p * q != 0.0
  {
  }

  lemma SquareNonneg(a: real)
    ensures 0.0 <= a * a
  {
  }

  lemma PositiveFactor(a: real, b: real)
    requires 0.0 < a * b && 0.0 < b
    ensures 0.0 < a
  {
    if a <= 0.0 {
      MulNonneg(-a, b);
    }
  }

  lemma MulNonneg(a: real, u: real)
    requires 0.0 <= a && 0.0 <= u
    ensures 0.0 <= a * u
  {
  }

  lemma MulAtMostOne(a: real, b: real)
    requires 0.0 <= a <= 1.0 && 0.0 <= b <= 1.0
    ensures 0.0 <= a * b <= 1.0
  {
    MulNonneg(a, b);
    MulNonneg(1.0 - a, b);
    assert (1.0 - a) * b == b - a * b;
  }
}

/**
 * Scalar helpers shared by every component: the constants `pi` and `infinity`,
 * degree/radian conversion, the affine map that turns a unit random draw into a
 * draw in `[min,max)`, and `clamp`.  The C library functions `sqrt`, `tan`,
 * `fabs` and `fmin` are modelled here as well: `fabs` and `fmin` exactly, `sqrt`
 * and `tan` as function-valued parameters, with `IsSqrt` stating what an exact
 * square root must satisfy.
 */
module Constants {
  import opened RealFacts

  /** `pi` as the decimal literal of the source. */
  const Pi: real := 3.1415926535897932385

  /** An upper bound on a ray parameter: a finite value or `infinity`. */
  datatype Bound = Finite(value: real) | Infinity

  /** `!(b < x)`: `x` does not exceed the (possibly infinite) bound `b`. */
  predicate AtMost(x: real, b: Bound) {
    b.Infinity? || x <= b.value
  }

  /** Bound `a` is no larger than bound `b`. */
  predicate BoundLe(a: Bound, b: Bound) {
    b.Infinity? || (a.Finite? && a.value <= b.value)
  }

  /** An exact square root on the non-negative reals. */
  ghost predicate IsSqrt(sqrt: real -> real) {
    forall x :: 0.0 <= x ==> 0.0 <= sqrt(x) && sqrt(x) * sqrt(x) == x
  }

  /** `fabs`. */
  function Abs(x: real): (r: real)
    ensures 0.0 <= r && (r == x || r == -x)
  {
    if x < 0.0 then -x else x
  }

  /** `fmin` on ordinary (non-NaN) values. */
  function Min(a: real, b: real): (r: real)
    ensures r <= a && r <= b && (r == a || r == b)
  {
    if b < a then b else a
  }

  /**
   * The reciprocal `1/t`.  IEEE division by zero yields an infinity; the model
   * has none, so the reciprocal of zero is taken to be zero, and every property
   * that divides states its divisor nonzero.
   */
  function Inv(t: real): (r: real)
    ensures t != 0.0 ==> r * t == 1.0
  {
    if t == 0.0 then 0.0 else 1.0 / t
  }

  /** `a / b` with the convention of `Inv`. */
  function Quot(a: real, b: real): (r: real)
    ensures b != 0.0 ==> r * b == a
  {
    a * Inv(b)
  }

  /** The square root of a square is the magnitude. */
  lemma SqrtOfSquare(sqrt: real -> real, x: real)
    requires IsSqrt(sqrt)
    ensures sqrt(x * x) == Abs(x)
  {
    var s, a := sqrt(x * x), Abs(x);
    assert 0.0 <= s && s * s == x * x;
    assert (s - a) * (s + a) == s * s - a * a;
    ZeroProduct(s - a, s + a);
  }

  /** The square root of a value in [0,1] lies in [0,1]. */
  lemma SqrtAtMostOne(sqrt: real -> real, x: real)
    requires IsSqrt(sqrt)
    requires 0.0 <= x <= 1.0
    ensures 0.0 <= sqrt(x) <= 1.0
  {
    var s := sqrt(x);
    if s > 1.0 {
      assert s * s > 1.0 * s;
    }
  }

  /** `degreesToRadians`: multiplication by `pi/180`. */
  function DegreesToRadians(degrees: real): (r: real)
    ensures degrees == 0.0 ==> r == 0.0
    ensures degrees == 180.0 ==> r == Pi
    ensures r * 180.0 == degrees * Pi
  {
    degrees * Pi / 180.0
  }

  /** `degreesToRadians` is linear. */
  lemma DegreesToRadiansLinear(a: real, b: real, k: real)
    ensures DegreesToRadians(k * a + b) == k * DegreesToRadians(a) + DegreesToRadians(b)
  {
  }

  /**
   * `randomDouble()`: `rand() / (RAND_MAX + 1.0)` for the integer `k` that
   * `rand()` returned and the platform's `RAND_MAX`.
   */
  function UnitDraw(k: int, randMax: int): (u: real)
    requires 0 <= randMax
    ensures 0 <= k <= randMax ==> 0.0 <= u < 1.0
  {
    k as real / (randMax as real + 1.0)
  }

  /** `randomDouble(min, max)`: the affine image of a unit draw `u`. */
  function RandomDouble(min: real, max: real, u: real): (r: real)
    ensures u == 0.0 ==> r == min
  {
    min + (max - min) * u
  }

  /** A unit draw in [0,1) maps into [min,max). */
  lemma RandomDoubleInRange(min: real, max: real, u: real)
    requires min < max && 0.0 <= u < 1.0
    ensures min <= RandomDouble(min, max, u) < max
  {
    MulNonneg(max - min, u);
    MulPos(max - min, 1.0 - u);
    assert (max - min) * (1.0 - u) == (max - min) - (max - min) * u;
    assert RandomDouble(min, max, u) == min + (max - min) * u;
  }

  /** `clamp`: the lower test first, then the upper one. */
  function Clamp(x: real, min: real, max: real): (r: real)
    ensures min <= max ==> min <= r <= max
    ensures min <= x <= max ==> r == x
    ensures x < min ==> r == min
    ensures min <= x && max < x ==> r == max
  {
    if x < min then min
    else if x > max then max
    else x
  }

  /** `clamp` is idempotent on a non-empty interval. */
  lemma ClampIdempotent(x: real, min: real, max: real)
    requires min <= max
    ensures Clamp(Clamp(x, min, max), min, max) == Clamp(x, min, max)
  {
  }
}
