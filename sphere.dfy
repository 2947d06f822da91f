/**
 * The sphere and its ray intersection test.  The ray `origin + t * direction`
 * meets the sphere where `a t^2 + 2 halfB t + c = 0`; the test takes the near
 * root when it lies in the closed window `[tMin, tMax]`, otherwise the far root,
 * and fills in the record only when one of them does.
 */
module Spheres {
  import opened Optional
  import opened RealFacts
  import opened Constants
  import opened Vectors
  import opened Rays
  import opened Hittables
  import opened Materials

  /** A sphere never changes after construction, so it is a value. */
  datatype Sphere = Sphere(center: Point3, radius: real, mat: Material)

  /** The coefficients `a`, `halfB` and `c` of the intersection equation. */
  datatype Quadratic = Quadratic(a: real, halfB: real, c: real)

  function Coefficients(s: Sphere, r: Ray): Quadratic {
    var oc := Sub(r.origin, s.center);
    Quadratic(LengthSquared(r.direction), Dot(oc, r.direction), LengthSquared(oc) - s.radius * s.radius)
  }

  function Discriminant(q: Quadratic): real {
    q.halfB * q.halfB - q.a * q.c
  }

  function NearRoot(q: Quadratic, sqrt: real -> real): real {
    Quot(-q.halfB - sqrt(Discriminant(q)), q.a)
  }

  function FarRoot(q: Quadratic, sqrt: real -> real): real {
    Quot(-q.halfB + sqrt(Discriminant(q)), q.a)
  }

  /** The negation of the rejection test `t < tMin || tMax < t`: a closed window. */
  predicate InWindow(t: real, tMin: real, tMax: Bound) {
    tMin <= t && AtMost(t, tMax)
  }

  /** The near root if it lies in the window, else the far root if it does, else none. */
  function SelectRoot(near: real, far: real, tMin: real, tMax: Bound): (root: Option<real>)
    ensures root.Some? ==> InWindow(root.value, tMin, tMax)
    ensures root.Some? ==> root.value == near || root.value == far
    ensures root.None? <==> !InWindow(near, tMin, tMax) && !InWindow(far, tMin, tMax)
    ensures InWindow(near, tMin, tMax) ==> root == Some(near)
  {
    if InWindow(near, tMin, tMax) then Some(near)
    else if InWindow(far, tMin, tMax) then Some(far)
    else None
  }

  /** Point `p` is at distance `radius` from the centre. */
  predicate LiesOn(s: Sphere, p: Point3) {
    LengthSquared(Sub(p, s.center)) == s.radius * s.radius
  }

  /** `(p - center) / radius`: the outward normal, of unit length on the surface. */
  function OutwardNormal(s: Sphere, p: Point3): Vec3 {
    Div(Sub(p, s.center), s.radius)
  }

  /** The record the test writes for root `t`. */
  function RecordAt(s: Sphere, r: Ray, t: real): (rec: Record)
    ensures rec.t == t && rec.p == At(r, t) && rec.matPtr == Some(s.mat)
    ensures rec.frontFace <==> Dot(r.direction, OutwardNormal(s, At(r, t))) < 0.0
    ensures Dot(r.direction, rec.normal) <= 0.0
    ensures LengthSquared(rec.normal) == LengthSquared(OutwardNormal(s, At(r, t)))
  {
    var p := At(r, t);
    SetFaceNormal(HitRecord(p, Zero(), Some(s.mat), t, false), r, OutwardNormal(s, p))
  }

  /** What `Sphere::hit` reports: the record of the selected root, or none. */
  function HitResult(s: Sphere, r: Ray, tMin: real, tMax: Bound, sqrt: real -> real): (res: Option<Record>)
    ensures Discriminant(Coefficients(s, r)) < 0.0 ==> res.None?
    ensures res.Some? ==> InWindow(res.value.t, tMin, tMax)
    ensures res.Some? ==> res.value.matPtr == Some(s.mat)
    ensures res.Some? ==> res.value.p == At(r, res.value.t)
    ensures res.Some? ==> Dot(r.direction, res.value.normal) <= 0.0
  {
    var q := Coefficients(s, r);
    if Discriminant(q) < 0.0 then None
    else
      match SelectRoot(NearRoot(q, sqrt), FarRoot(q, sqrt), tMin, tMax)
      case None => None
      case Some(t) => Some(RecordAt(s, r, t))
  }

  /**
   * `Sphere::hit`: the record is passed in and its new value returned; it is
   * left as it was when the ray misses.
   */
  method Hit(s: Sphere, r: Ray, tMin: real, tMax: Bound, rec: Record, sqrt: real -> real)
    returns (hit: bool, rec': Record)
    ensures hit <==> HitResult(s, r, tMin, tMax, sqrt).Some?
    ensures hit ==> rec' == HitResult(s, r, tMin, tMax, sqrt).value
    ensures !hit ==> rec' == rec
  {
    var oc := Sub(r.origin, s.center);
    var a := LengthSquared(r.direction);
    var halfB := Dot(oc, r.direction);
    var c := LengthSquared(oc) - s.radius * s.radius;
    ghost var q := Coefficients(s, r);
    assert q == Quadratic(a, halfB, c);
    var discriminant := halfB * halfB - a * c;
    assert Discriminant(q) == discriminant;

    if discriminant < 0.0 {
      HitResultMissed(s, r, tMin, tMax, sqrt);
      return false, rec;
    }

    var sqrtd := sqrt(discriminant);
    var root := Quot(-halfB - sqrtd, a);
    assert root == NearRoot(q, sqrt);
    if root < tMin || !AtMost(root, tMax) {
      root := Quot(-halfB + sqrtd, a);
      assert root == FarRoot(q, sqrt);
      if root < tMin || !AtMost(root, tMax) {
        HitResultMissed(s, r, tMin, tMax, sqrt);
        return false, rec;
      }
    }
    HitResultSelected(s, r, tMin, tMax, sqrt, root);

    rec' := rec.(t := root);
    rec' := rec'.(p := At(r, rec'.t));
    var outwardNormal := Div(Sub(rec'.p, s.center), s.radius);
    rec' := SetFaceNormal(rec', r, outwardNormal);
    rec' := rec'.(matPtr := Some(s.mat));
    hit := true;
  }

  /** The test reports nothing when neither root is real and in the window. */
  lemma HitResultMissed(s: Sphere, r: Ray, tMin: real, tMax: Bound, sqrt: real -> real)
    requires var q := Coefficients(s, r);
      Discriminant(q) < 0.0 || SelectRoot(NearRoot(q, sqrt), FarRoot(q, sqrt), tMin, tMax).None?
    ensures HitResult(s, r, tMin, tMax, sqrt).None?
  {
  }

  /** The test reports the record of the root it selects. */
  lemma HitResultSelected(s: Sphere, r: Ray, tMin: real, tMax: Bound, sqrt: real -> real, root: real)
    requires var q := Coefficients(s, r);
      0.0 <= Discriminant(q) && SelectRoot(NearRoot(q, sqrt), FarRoot(q, sqrt), tMin, tMax) == Some(root)
    ensures HitResult(s, r, tMin, tMax, sqrt) == Some(RecordAt(s, r, root))
  {
  }

  // ---------------------------------------------------------------------------
  // The roots.

  /** Dividing by a nonzero value has exactly one answer. */
  lemma QuotUnique(x: real, a: real, t: real)
    requires a != 0.0 && t * a == x
    ensures t == Quot(x, a)
  {
    var q := Quot(x, a);
    assert (t - q) * a == t * a - q * a;
    ZeroProduct(t - q, a);
  }

  /** The squared distance from the centre is the quadratic, shifted by `radius^2`. */
  lemma SurfaceEquation(s: Sphere, r: Ray, t: real)
    ensures var q := Coefficients(s, r);
      LengthSquared(Sub(At(r, t), s.center)) - s.radius * s.radius
        == q.a * t * t + 2.0 * q.halfB * t + q.c
  {
    var oc := Sub(r.origin, s.center);
    assert Sub(At(r, t), s.center) == Add(oc, Scale(t, r.direction));
    AlongRay(oc, r.direction, t);
  }

  /** `|o + t d|^2 = |d|^2 t^2 + 2 (o . d) t + |o|^2`. */
  lemma AlongRay(o: Vec3, d: Vec3, t: real)
    ensures LengthSquared(Add(o, Scale(t, d))) == LengthSquared(d) * t * t + 2.0 * Dot(o, d) * t + LengthSquared(o)
  {
    SquareOfSum(o.x, t, d.x);
    SquareOfSum(o.y, t, d.y);
    SquareOfSum(o.z, t, d.z);
  }

  lemma SquareOfSum(x: real, t: real, y: real)
    ensures (x + t * y) * (x + t * y) == x * x + 2.0 * t * (x * y) + t * t * (y * y)
  {
  }

  /** Both quadratic-formula roots solve the equation. */
  lemma RootsSolve(a: real, h: real, c: real, s: real, t: real)
    requires a != 0.0 && s * s == h * h - a * c
    requires t * a == -h - s || t * a == -h + s
    ensures a * t * t + 2.0 * h * t + c == 0.0
  {
    var x := t * a;
    assert a * (a * t * t + 2.0 * h * t + c) == x * x + 2.0 * h * x + a * c;
    assert x * x + 2.0 * h * x + a * c == s * s - h * h + a * c;
    ZeroProduct(a, a * t * t + 2.0 * h * t + c);
  }

  /** And they are its only solutions. */
  lemma RootsOnly(a: real, h: real, c: real, s: real, t: real)
    requires a != 0.0 && s * s == h * h - a * c
    requires a * t * t + 2.0 * h * t + c == 0.0
    ensures t * a == -h - s || t * a == -h + s
  {
    assert (a * t + h - s) * (a * t + h + s) == a * (a * t * t + 2.0 * h * t + c) + h * h - a * c - s * s;
    ZeroProduct(a * t + h - s, a * t + h + s);
  }

  /** A solution exists only when the discriminant is not negative. */
  lemma SolutionNeedsDiscriminant(a: real, h: real, c: real, t: real)
    requires a * t * t + 2.0 * h * t + c == 0.0
    ensures 0.0 <= h * h - a * c
  {
    assert (a * t + h) * (a * t + h) == a * (a * t * t + 2.0 * h * t + c) + h * h - a * c;
    SquareNonneg(a * t + h);
  }

  /** The near root never exceeds the far one. */
  lemma RootsOrdered(q: Quadratic, sqrt: real -> real)
    requires IsSqrt(sqrt)
    requires 0.0 <= q.a && 0.0 <= Discriminant(q)
    ensures NearRoot(q, sqrt) <= FarRoot(q, sqrt)
  {
    var sd := sqrt(Discriminant(q));
    if q.a != 0.0 {
      var k := Inv(q.a);
      assert k * q.a == 1.0;
      PositiveFactor(k, q.a);
      MulNonneg(k, 2.0 * sd);
      assert FarRoot(q, sqrt) - NearRoot(q, sqrt) == k * (2.0 * sd);
    }
  }

  /** The roots as quotients: every solution is one of them. */
  lemma SolutionIsQuot(a: real, h: real, c: real, s: real, t: real)
    requires a != 0.0 && s * s == h * h - a * c
    requires a * t * t + 2.0 * h * t + c == 0.0
    ensures t == Quot(-h - s, a) || t == Quot(-h + s, a)
  {
    RootsOnly(a, h, c, s, t);
    if t * a == -h - s {
      QuotUnique(-h - s, a, t);
    } else {
      QuotUnique(-h + s, a, t);
    }
  }

  /** The roots as quotients: both solve the equation. */
  lemma QuotIsSolution(a: real, h: real, c: real, s: real, t: real)
    requires a != 0.0 && s * s == h * h - a * c
    requires t == Quot(-h - s, a) || t == Quot(-h + s, a)
    ensures a * t * t + 2.0 * h * t + c == 0.0
  {
    RootsSolve(a, h, c, s, t);
  }

  /** The square root the roots use squares back to the discriminant. */
  lemma RootOfDiscriminant(q: Quadratic, sqrt: real -> real)
    requires IsSqrt(sqrt) && 0.0 <= Discriminant(q)
    ensures sqrt(Discriminant(q)) * sqrt(Discriminant(q)) == q.halfB * q.halfB - q.a * q.c
  {
  }

  /** Every solution of `a t^2 + 2 h t + c = 0` with `a != 0` is one of the two roots. */
  lemma SolutionIsRoot(q: Quadratic, t: real, sqrt: real -> real)
    requires IsSqrt(sqrt) && q.a != 0.0
    requires q.a * t * t + 2.0 * q.halfB * t + q.c == 0.0
    ensures 0.0 <= Discriminant(q) && (t == NearRoot(q, sqrt) || t == FarRoot(q, sqrt))
  {
    SolutionNeedsDiscriminant(q.a, q.halfB, q.c, t);
    RootOfDiscriminant(q, sqrt);
    SolutionIsQuot(q.a, q.halfB, q.c, sqrt(Discriminant(q)), t);
  }

  /** Both roots, when real, solve the equation. */
  lemma RootIsSolution(q: Quadratic, t: real, sqrt: real -> real)
    requires IsSqrt(sqrt) && q.a != 0.0
    requires 0.0 <= Discriminant(q) && (t == NearRoot(q, sqrt) || t == FarRoot(q, sqrt))
    ensures q.a * t * t + 2.0 * q.halfB * t + q.c == 0.0
  {
    RootOfDiscriminant(q, sqrt);
    QuotIsSolution(q.a, q.halfB, q.c, sqrt(Discriminant(q)), t);
  }

  /** A quadratic with `a != 0` is solved exactly by its two roots. */
  lemma SolutionsAreRoots(q: Quadratic, t: real, sqrt: real -> real)
    requires IsSqrt(sqrt) && q.a != 0.0
    ensures q.a * t * t + 2.0 * q.halfB * t + q.c == 0.0
        <==> (0.0 <= Discriminant(q) && (t == NearRoot(q, sqrt) || t == FarRoot(q, sqrt)))
  {
    if q.a * t * t + 2.0 * q.halfB * t + q.c == 0.0 {
      SolutionIsRoot(q, t, sqrt);
    }
    if 0.0 <= Discriminant(q) && (t == NearRoot(q, sqrt) || t == FarRoot(q, sqrt)) {
      RootIsSolution(q, t, sqrt);
    }
  }

  /** A point of the ray lies on the sphere exactly when its parameter solves the quadratic. */
  lemma OnSphereSolves(s: Sphere, r: Ray, t: real)
    ensures var q := Coefficients(s, r);
      LiesOn(s, At(r, t)) <==> q.a * t * t + 2.0 * q.halfB * t + q.c == 0.0
  {
    var oc := Sub(r.origin, s.center);
    assert Sub(At(r, t), s.center) == Add(oc, Scale(t, r.direction));
    AlongRay(oc, r.direction, t);
  }

  /** A ray with a direction gives a genuine quadratic. */
  lemma DirectionGivesQuadratic(s: Sphere, r: Ray)
    requires r.direction != Zero()
    ensures Coefficients(s, r).a != 0.0
  {
    LengthSquaredIsDot(r.direction);
    LengthSquaredZero(r.direction);
  }

  /** For a ray with a direction, the ray's sphere points are exactly the two roots. */
  lemma SurfacePointsAreRoots(s: Sphere, r: Ray, t: real, sqrt: real -> real)
    requires IsSqrt(sqrt) && r.direction != Zero()
    ensures var q := Coefficients(s, r);
      LiesOn(s, At(r, t)) <==> (0.0 <= Discriminant(q) && (t == NearRoot(q, sqrt) || t == FarRoot(q, sqrt)))
  {
    var q := Coefficients(s, r);
    assert q.a != 0.0 by {
      DirectionGivesQuadratic(s, r);
    }
    assert LiesOn(s, At(r, t)) <==> q.a * t * t + 2.0 * q.halfB * t + q.c == 0.0 by {
      OnSphereSolves(s, r, t);
    }
    SolutionsAreRoots(q, t, sqrt);
  }

  // ---------------------------------------------------------------------------
  // What the test promises.

  /** A reported hit lies on the sphere. */
  lemma HitOnSurface(s: Sphere, r: Ray, tMin: real, tMax: Bound, sqrt: real -> real)
    requires IsSqrt(sqrt) && r.direction != Zero()
    requires HitResult(s, r, tMin, tMax, sqrt).Some?
    ensures LiesOn(s, HitResult(s, r, tMin, tMax, sqrt).value.p)
  {
    SurfacePointsAreRoots(s, r, HitResult(s, r, tMin, tMax, sqrt).value.t, sqrt);
  }

  /**
   * The test finds the nearest sphere point in the window: whenever some point
   * of the ray within the window lies on the sphere, a hit is reported no
   * farther along the ray.
   */
  lemma HitIsNearest(s: Sphere, r: Ray, tMin: real, tMax: Bound, t: real, sqrt: real -> real)
    requires IsSqrt(sqrt) && r.direction != Zero()
    requires InWindow(t, tMin, tMax)
    requires LiesOn(s, At(r, t))
    ensures HitResult(s, r, tMin, tMax, sqrt).Some?
    ensures HitResult(s, r, tMin, tMax, sqrt).value.t <= t
  {
    var q := Coefficients(s, r);
    SurfacePointsAreRoots(s, r, t, sqrt);
    LengthSquaredIsDot(r.direction);
    RootsOrdered(q, sqrt);
  }

  /** A miss means no point of the ray within the window lies on the sphere. */
  lemma MissMeansNoSurfacePoint(s: Sphere, r: Ray, tMin: real, tMax: Bound, t: real, sqrt: real -> real)
    requires IsSqrt(sqrt) && r.direction != Zero()
    requires HitResult(s, r, tMin, tMax, sqrt).None?
    requires InWindow(t, tMin, tMax)
    ensures !LiesOn(s, At(r, t))
  {
    if LiesOn(s, At(r, t)) {
      HitIsNearest(s, r, tMin, tMax, t, sqrt);
    }
  }

  /** On a sphere of nonzero radius the stored normal has unit length. */
  lemma HitUnitNormal(s: Sphere, r: Ray, tMin: real, tMax: Bound, sqrt: real -> real)
    requires IsSqrt(sqrt) && r.direction != Zero() && s.radius != 0.0
    requires HitResult(s, r, tMin, tMax, sqrt).Some?
    ensures LengthSquared(HitResult(s, r, tMin, tMax, sqrt).value.normal) == 1.0
  {
    var rec := HitResult(s, r, tMin, tMax, sqrt).value;
    HitOnSurface(s, r, tMin, tMax, sqrt);
    OutwardNormalUnit(s, rec.p);
  }

  /** On the surface the outward normal has unit length. */
  lemma OutwardNormalUnit(s: Sphere, p: Point3)
    requires s.radius != 0.0 && LiesOn(s, p)
    ensures LengthSquared(OutwardNormal(s, p)) == 1.0
  {
    var k := Inv(s.radius);
    LengthSquaredScale(k, Sub(p, s.center));
    InverseSquare(k, s.radius);
  }

  lemma InverseSquare(k: real, x: real)
    requires k * x == 1.0
    ensures k * k * (x * x) == 1.0
  {
    assert k * k * (x * x) == (k * x) * (k * x);
  }

  // ---------------------------------------------------------------------------
  // Moving the upper end of the window, as the scene's loop does.

  lemma SelectRootShrink(near: real, far: real, tMin: real, b: Bound, big: Bound)
    requires near <= far && BoundLe(b, big)
    ensures SelectRoot(near, far, tMin, b).Some? ==>
      SelectRoot(near, far, tMin, big).Some?
      && SelectRoot(near, far, tMin, big).value <= SelectRoot(near, far, tMin, b).value
    ensures SelectRoot(near, far, tMin, big).Some? && AtMost(SelectRoot(near, far, tMin, big).value, b) ==>
      SelectRoot(near, far, tMin, b) == SelectRoot(near, far, tMin, big)
  {
  }

  /**
   * Lowering the upper bound from `big` to `b` can only lose hits farther than
   * `b`: a hit within the smaller window is also one within the larger, no
   * nearer there; and a hit within the larger window that does not pass `b`
   * is the same hit within the smaller.
   */
  lemma HitShrink(s: Sphere, r: Ray, tMin: real, b: Bound, big: Bound, sqrt: real -> real)
    requires IsSqrt(sqrt) && BoundLe(b, big)
    ensures HitResult(s, r, tMin, b, sqrt).Some? ==>
      HitResult(s, r, tMin, big, sqrt).Some?
      && HitResult(s, r, tMin, big, sqrt).value.t <= HitResult(s, r, tMin, b, sqrt).value.t
    ensures HitResult(s, r, tMin, big, sqrt).Some? && AtMost(HitResult(s, r, tMin, big, sqrt).value.t, b) ==>
      HitResult(s, r, tMin, b, sqrt) == HitResult(s, r, tMin, big, sqrt)
  {
    var q := Coefficients(s, r);
    if 0.0 <= Discriminant(q) {
      LengthSquaredIsDot(r.direction);
      RootsOrdered(q, sqrt);
      SelectRootShrink(NearRoot(q, sqrt), FarRoot(q, sqrt), tMin, b, big);
    }
  }
}
