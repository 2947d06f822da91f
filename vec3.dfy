/**
 * The three-component vector used as a free vector, a point and an RGB colour,
 * with its arithmetic, the dot and cross products, normalisation, the
 * near-zero test, mirror reflection and refraction, and the random-sampling
 * helpers.  Every random draw is an explicit argument.
 */
module Vectors {
  import opened Optional
  import opened RealFacts
  import opened Constants

  datatype Vec3 = Vec3(x: real, y: real, z: real)

  /** A point and a colour are vectors, distinguished only by use. */
  type Point3 = Vec3
  type Color = Vec3

  /** The default constructor `Vec3()`: all components zero. */
  function Zero(): Vec3 {
    Vec3(0.0, 0.0, 0.0)
  }

  function Neg(v: Vec3): Vec3 {
    Vec3(-v.x, -v.y, -v.z)
  }

  function Add(u: Vec3, v: Vec3): Vec3 {
    Vec3(u.x + v.x, u.y + v.y, u.z + v.z)
  }

  function Sub(u: Vec3, v: Vec3): Vec3 {
    Vec3(u.x - v.x, u.y - v.y, u.z - v.z)
  }

  /** Componentwise product `u * v` (used to attenuate colours). */
  function Mul(u: Vec3, v: Vec3): Vec3 {
    Vec3(u.x * v.x, u.y * v.y, u.z * v.z)
  }

  /** `t * v`; `v * t` is defined as `t * v` too. */
  function Scale(t: real, v: Vec3): Vec3 {
    Vec3(t * v.x, t * v.y, t * v.z)
  }

  /** `v / t`, defined as `(1/t) * v`. */
  function Div(v: Vec3, t: real): Vec3 {
    Scale(Inv(t), v)
  }

  function Dot(u: Vec3, v: Vec3): real {
    u.x * v.x + u.y * v.y + u.z * v.z
  }

  function Cross(u: Vec3, v: Vec3): Vec3 {
    Vec3(u.y * v.z - u.z * v.y,
         u.z * v.x - u.x * v.z,
         u.x * v.y - u.y * v.x)
  }

  function LengthSquared(v: Vec3): real {
    v.x * v.x + v.y * v.y + v.z * v.z
  }

  function Length(v: Vec3, sqrt: real -> real): real {
    sqrt(LengthSquared(v))
  }

  function UnitVector(v: Vec3, sqrt: real -> real): Vec3 {
    Div(v, Length(v, sqrt))
  }

  /** `nearZero`: every component has magnitude below `1e-8`. */
  function NearZero(v: Vec3): (b: bool)
    ensures b <==> (-0.00000001 < v.x < 0.00000001
                 && -0.00000001 < v.y < 0.00000001
                 && -0.00000001 < v.z < 0.00000001)
  {
    var s := 0.00000001;
    Abs(v.x) < s && Abs(v.y) < s && Abs(v.z) < s
  }

  // ---------------------------------------------------------------------------
  // The compound assignments update the receiver's components one by one; the
  // receiver is passed in and its new value returned.

  /** `e += v`. */
  method AddAssign(e: Vec3, v: Vec3) returns (e': Vec3)
    ensures e' == Add(e, v)
  {
    e' := e;
    e' := e'.(x := e'.x + v.x);
    e' := e'.(y := e'.y + v.y);
    e' := e'.(z := e'.z + v.z);
  }

  /** `e *= t`. */
  method MulAssign(e: Vec3, t: real) returns (e': Vec3)
    ensures e' == Scale(t, e)
  {
    e' := e;
    e' := e'.(x := e'.x * t);
    e' := e'.(y := e'.y * t);
    e' := e'.(z := e'.z * t);
  }

  /** `e /= t`, which is `e *= 1/t`. */
  method DivAssign(e: Vec3, t: real) returns (e': Vec3)
    ensures e' == Div(e, t)
    ensures t != 0.0 ==> Scale(t, e') == e
  {
    e' := MulAssign(e, Inv(t));
    if t != 0.0 {
      ScaleScale(t, Inv(t), e);
    }
  }

  // ---------------------------------------------------------------------------
  // Algebraic facts.

  lemma ScaleScale(s: real, t: real, v: Vec3)
    ensures Scale(s, Scale(t, v)) == Scale(s * t, v)
  {
  }

  /** `lengthSquared` is the dot product of a vector with itself, never negative. */
  lemma LengthSquaredIsDot(v: Vec3)
    ensures LengthSquared(v) == Dot(v, v)
    ensures 0.0 <= LengthSquared(v)
  {
    SquareNonneg(v.x);
    SquareNonneg(v.y);
    SquareNonneg(v.z);
  }

  /** Only the zero vector has squared length zero. */
  lemma LengthSquaredZero(v: Vec3)
    ensures LengthSquared(v) == 0.0 <==> v == Zero()
  {
    if LengthSquared(v) == 0.0 {
      SumOfSquaresZero(v.x, v.y, v.z);
    }
  }

  /** The cross product is orthogonal to both factors. */
  lemma CrossOrthogonal(u: Vec3, v: Vec3)
    ensures Dot(Cross(u, v), u) == 0.0
    ensures Dot(Cross(u, v), v) == 0.0
  {
  }

  /** Lagrange's identity: `|u x v|^2 = |u|^2 |v|^2 - (u.v)^2`. */
  lemma CrossLengthSquared(u: Vec3, v: Vec3)
    ensures LengthSquared(Cross(u, v)) == LengthSquared(u) * LengthSquared(v) - Dot(u, v) * Dot(u, v)
  {
  }

  /** The default vector is near zero. */
  lemma ZeroIsNearZero()
    ensures NearZero(Zero())
  {
  }

  lemma LengthSquaredScale(t: real, v: Vec3)
    ensures LengthSquared(Scale(t, v)) == t * t * LengthSquared(v)
  {
  }

  lemma DotSymmetric(a: Vec3, b: Vec3)
    ensures Dot(a, b) == Dot(b, a)
  {
  }

  lemma DotScaleRight(a: Vec3, t: real, b: Vec3)
    ensures Dot(a, Scale(t, b)) == t * Dot(a, b)
  {
  }

  /** `|a u + b v|^2 = a^2 |u|^2 + 2 a b (u . v) + b^2 |v|^2`. */
  lemma LengthSquaredCombination(u: Vec3, v: Vec3, a: real, b: real)
    ensures LengthSquared(Add(Scale(a, u), Scale(b, v)))
      == a * a * LengthSquared(u) + 2.0 * a * b * Dot(u, v) + b * b * LengthSquared(v)
  {
  }

  lemma AddNonzeroMoves(p: Point3, d: Vec3)
    requires d != Zero()
    ensures Add(p, d) != p
  {
  }

  lemma DotNeg(u: Vec3, v: Vec3)
    ensures Dot(Neg(u), v) == -Dot(u, v)
  {
  }

  lemma LengthSquaredNeg(v: Vec3)
    ensures LengthSquared(Neg(v)) == LengthSquared(v)
  {
  }

  /** A nonzero vector normalised by an exact square root has unit length. */
  lemma UnitVectorIsUnit(v: Vec3, sqrt: real -> real)
    requires IsSqrt(sqrt)
    requires v != Zero()
    ensures LengthSquared(UnitVector(v, sqrt)) == 1.0
    ensures Length(UnitVector(v, sqrt), sqrt) == 1.0
  {
    LengthSquaredIsDot(v);
    LengthSquaredZero(v);
    var l2 := LengthSquared(v);
    var l := sqrt(l2);
    assert l * l == l2;
    assert l != 0.0;
    var k := Inv(l);
    assert k * l == 1.0;
    LengthSquaredScale(k, v);
    assert LengthSquared(UnitVector(v, sqrt)) == k * k * l2;
    assert k * k * l2 == (k * l) * (k * l);
    SqrtOfSquare(sqrt, 1.0);
  }

  /** Normalisation scales by a positive factor. */
  lemma UnitVectorPositiveScale(v: Vec3, sqrt: real -> real)
    requires IsSqrt(sqrt)
    requires v != Zero()
    ensures 0.0 < Inv(Length(v, sqrt))
    ensures UnitVector(v, sqrt) == Scale(Inv(Length(v, sqrt)), v)
  {
    LengthSquaredIsDot(v);
    LengthSquaredZero(v);
    var l := Length(v, sqrt);
    assert 0.0 <= l && l * l == LengthSquared(v);
    assert l != 0.0;
    assert Inv(l) * l == 1.0;
    PositiveFactor(Inv(l), l);
  }

  /** Normalising a nonzero vector keeps the sign of its dot product with any vector. */
  lemma UnitVectorDotSign(v: Vec3, n: Vec3, sqrt: real -> real)
    requires IsSqrt(sqrt)
    requires v != Zero()
    ensures Dot(UnitVector(v, sqrt), n) < 0.0 <==> Dot(v, n) < 0.0
    ensures Dot(UnitVector(v, sqrt), n) == 0.0 <==> Dot(v, n) == 0.0
  {
    UnitVectorPositiveScale(v, sqrt);
    var k := Inv(Length(v, sqrt));
    var d := Dot(v, n);
    assert Dot(UnitVector(v, sqrt), n) == k * d;
    if d < 0.0 {
      MulPos(k, -d);
      assert k * (-d) == -(k * d);
    } else if d > 0.0 {
      MulPos(k, d);
    }
  }

  /** A unit vector's components lie in [-1,1]. */
  lemma UnitComponents(v: Vec3)
    requires LengthSquared(v) == 1.0
    ensures -1.0 <= v.x <= 1.0 && -1.0 <= v.y <= 1.0 && -1.0 <= v.z <= 1.0
  {
    SumOfSquaresOne(v.x, v.y, v.z);
    SumOfSquaresOne(v.y, v.x, v.z);
    SumOfSquaresOne(v.z, v.x, v.y);
  }

  /** A term of a sum of three squares that is 1 lies in [-1,1]. */
  lemma SumOfSquaresOne(a: real, b: real, c: real)
    requires a * a + b * b + c * c == 1.0
    ensures -1.0 <= a <= 1.0
  {
    SquareNonneg(b);
    SquareNonneg(c);
    if a > 1.0 {
      MulPos(a - 1.0, a + 1.0);
    } else if a < -1.0 {
      MulPos(-1.0 - a, 1.0 - a);
    }
  }

  // ---------------------------------------------------------------------------
  // Reflection and refraction.

  /** `reflect`: mirror `v` about the plane with normal `n`. */
  function Reflect(v: Vec3, n: Vec3): Vec3 {
    Sub(v, Scale(2.0 * Dot(v, n), n))
  }

  /** About a unit normal, reflection negates the normal component. */
  lemma ReflectNormalComponent(v: Vec3, n: Vec3)
    requires Dot(n, n) == 1.0
    ensures Dot(Reflect(v, n), n) == -Dot(v, n)
  {
    var d := Dot(v, n);
    assert Dot(Reflect(v, n), n) == d - 2.0 * d * Dot(n, n);
  }

  /** About a unit normal, reflection preserves length. */
  lemma ReflectLength(v: Vec3, n: Vec3)
    requires Dot(n, n) == 1.0
    ensures LengthSquared(Reflect(v, n)) == LengthSquared(v)
  {
    var d := Dot(v, n);
    assert LengthSquared(Reflect(v, n)) == LengthSquared(v) - 4.0 * d * d + 4.0 * d * d * Dot(n, n);
  }

  /** About a unit normal, reflecting twice gives back the vector. */
  lemma ReflectInvolution(v: Vec3, n: Vec3)
    requires Dot(n, n) == 1.0
    ensures Reflect(Reflect(v, n), n) == v
  {
    ReflectNormalComponent(v, n);
  }

  /**
   * `refract`: Snell's law for a unit incident `uv`, unit normal `n` and ratio
   * `etaiOverEtat`, as the sum of the perpendicular and parallel parts.
   */
  function Refract(uv: Vec3, n: Vec3, etaiOverEtat: real, sqrt: real -> real): Vec3 {
    var cosTheta := Min(Dot(Neg(uv), n), 1.0);
    var rOutPerp := Scale(etaiOverEtat, Add(uv, Scale(cosTheta, n)));
    var rOutParallel := Scale(-sqrt(Abs(1.0 - LengthSquared(rOutPerp))), n);
    Add(rOutPerp, rOutParallel)
  }

  /** Two unit vectors have a dot product of at least -1. */
  lemma UnitDotAtLeastMinusOne(u: Vec3, n: Vec3)
    requires LengthSquared(u) == 1.0 && LengthSquared(n) == 1.0
    ensures -1.0 <= Dot(u, n)
  {
    var s := Add(u, n);
    LengthSquaredIsDot(s);
    assert LengthSquared(s) == LengthSquared(u) + 2.0 * Dot(u, n) + LengthSquared(n);
  }

  /** With ratio 1 a ray is not bent: refraction returns the incident direction. */
  lemma RefractIdentity(uv: Vec3, n: Vec3, sqrt: real -> real)
    requires IsSqrt(sqrt)
    requires LengthSquared(uv) == 1.0 && LengthSquared(n) == 1.0
    requires Dot(uv, n) <= 0.0
    ensures Refract(uv, n, 1.0, sqrt) == uv
  {
    var d := Dot(uv, n);
    UnitDotAtLeastMinusOne(uv, n);
    DotNeg(uv, n);
    var cosTheta := Min(Dot(Neg(uv), n), 1.0);
    assert cosTheta == -d;
    var perp := Scale(1.0, Add(uv, Scale(cosTheta, n)));
    PerpendicularPart(uv, n, cosTheta, d);
    assert LengthSquared(perp) == 1.0 - d * d by {
      LengthSquaredSubScale(uv, n, d);
    }
    var root := sqrt(Abs(1.0 - LengthSquared(perp)));
    assert root == -d by {
      SquareNonneg(d);
      SqrtOfSquare(sqrt, d);
    }
    Recombine(uv, n, d, root);
  }

  /** With `cosTheta = -d`, the unscaled perpendicular part is `uv - d n`. */
  lemma PerpendicularPart(uv: Vec3, n: Vec3, cosTheta: real, d: real)
    requires cosTheta == -d
    ensures Scale(1.0, Add(uv, Scale(cosTheta, n))) == Sub(uv, Scale(d, n))
  {
  }

  /** Adding back the parallel part `d n` restores `uv`. */
  lemma Recombine(uv: Vec3, n: Vec3, d: real, root: real)
    requires root == -d
    ensures Add(Sub(uv, Scale(d, n)), Scale(-root, n)) == uv
  {
  }

  /** `|a - k b|^2 = |a|^2 - 2 k (a . b) + k^2 |b|^2`. */
  lemma LengthSquaredSubScale(a: Vec3, b: Vec3, k: real)
    ensures LengthSquared(Sub(a, Scale(k, b))) == LengthSquared(a) - 2.0 * k * Dot(a, b) + k * k * LengthSquared(b)
  {
  }

  // ---------------------------------------------------------------------------
  // Random sampling.  `u` holds three unit draws `randomDouble()` in [0,1).

  /** `Vec3::random(min, max)`: three draws mapped into [min,max). */
  function RandomIn(min: real, max: real, u: Vec3): Vec3 {
    Vec3(RandomDouble(min, max, u.x), RandomDouble(min, max, u.y), RandomDouble(min, max, u.z))
  }

  /** Unit draws give a vector inside the cube [min,max)^3. */
  lemma RandomInRange(min: real, max: real, u: Vec3)
    requires min < max
    requires 0.0 <= u.x < 1.0 && 0.0 <= u.y < 1.0 && 0.0 <= u.z < 1.0
    ensures var p := RandomIn(min, max, u);
      min <= p.x < max && min <= p.y < max && min <= p.z < max
  {
    RandomDoubleInRange(min, max, u.x);
    RandomDoubleInRange(min, max, u.y);
    RandomDoubleInRange(min, max, u.z);
  }

  /** Candidate of the unit-sphere rejection loop for one triple of draws. */
  function SphereCandidate(u: Vec3): Vec3 {
    RandomIn(-1.0, 1.0, u)
  }

  /** Candidate of the unit-disk rejection loop for one pair of draws. */
  function DiskCandidate(u: (real, real)): Vec3 {
    Vec3(RandomDouble(-1.0, 1.0, u.0), RandomDouble(-1.0, 1.0, u.1), 0.0)
  }

  /**
   * `randomInUnitSphere` over the finite sequence of draws the loop would
   * consume: the first candidate with squared length below one, or None when
   * every supplied candidate is rejected (the source would keep drawing).
   */
  method RandomInUnitSphere(draws: seq<Vec3>) returns (p: Option<Vec3>)
    ensures p.None? ==> forall i :: 0 <= i < |draws| ==> LengthSquared(SphereCandidate(draws[i])) >= 1.0
    ensures p.Some? ==> LengthSquared(p.value) < 1.0
    ensures p.Some? ==> exists k :: 0 <= k < |draws| && p.value == SphereCandidate(draws[k])
                          && forall i :: 0 <= i < k ==> LengthSquared(SphereCandidate(draws[i])) >= 1.0
  {
    var i := 0;
    while i < |draws|
      invariant 0 <= i <= |draws|
      invariant forall j :: 0 <= j < i ==> LengthSquared(SphereCandidate(draws[j])) >= 1.0
    {
      var c := SphereCandidate(draws[i]);
      if LengthSquared(c) >= 1.0 {
        i := i + 1;
        continue;
      }
      return Some(c);
    }
    return None;
  }

  /**
   * `randomInUnitDisk` over the finite sequence of draws the loop would
   * consume: the first candidate in the plane z = 0 with squared length below
   * one, or None when every supplied candidate is rejected.
   */
  method RandomInUnitDisk(draws: seq<(real, real)>) returns (p: Option<Vec3>)
    ensures p.None? ==> forall i :: 0 <= i < |draws| ==> LengthSquared(DiskCandidate(draws[i])) >= 1.0
    ensures p.Some? ==> LengthSquared(p.value) < 1.0 && p.value.z == 0.0
    ensures p.Some? ==> exists k :: 0 <= k < |draws| && p.value == DiskCandidate(draws[k])
                          && forall i :: 0 <= i < k ==> LengthSquared(DiskCandidate(draws[i])) >= 1.0
  {
    var i := 0;
    while i < |draws|
      invariant 0 <= i <= |draws|
      invariant forall j :: 0 <= j < i ==> LengthSquared(DiskCandidate(draws[j])) >= 1.0
    {
      var c := DiskCandidate(draws[i]);
      if LengthSquared(c) >= 1.0 {
        i := i + 1;
        continue;
      }
      return Some(c);
    }
    return None;
  }

  /** `randomUnitVector`: the normalised unit-sphere sample (unit by `UnitVectorIsUnit`). */
  function RandomUnitVector(inUnitSphere: Vec3, sqrt: real -> real): Vec3 {
    UnitVector(inUnitSphere, sqrt)
  }

  /** A nonzero sample normalises to a point of the unit sphere. */
  lemma RandomUnitVectorIsUnit(inUnitSphere: Vec3, sqrt: real -> real)
    requires IsSqrt(sqrt) && inUnitSphere != Zero()
    ensures LengthSquared(RandomUnitVector(inUnitSphere, sqrt)) == 1.0
  {
    UnitVectorIsUnit(inUnitSphere, sqrt);
  }

  /** `randomInHemisphere`: the unit-sphere sample, flipped into the normal's side. */
  function RandomInHemisphere(normal: Vec3, inUnitSphere: Vec3): (r: Vec3)
    ensures Dot(r, normal) >= 0.0
    ensures LengthSquared(r) == LengthSquared(inUnitSphere)
    ensures r == inUnitSphere || r == Neg(inUnitSphere)
    ensures Dot(inUnitSphere, normal) <= 0.0 ==> r == Neg(inUnitSphere)
  {
    LengthSquaredNeg(inUnitSphere);
    if Dot(inUnitSphere, normal) > 0.0 then inUnitSphere else Neg(inUnitSphere)
  }
}
