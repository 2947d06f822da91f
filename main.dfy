/**
 * The renderer's shading kernel: `hitSphere`, the stand-alone sphere test, and
 * `rayColor`, the depth-bounded recursive radiance estimate.  The world is the
 * scene's list of spheres, and the random draws of the bounce made with `depth`
 * levels left are `draw(depth)`.
 */
module Render {
  import opened Optional
  import opened RealFacts
  import opened Constants
  import opened Vectors
  import opened Rays
  import opened Hittables
  import opened Materials
  import opened Spheres
  import opened HittableLists

  /** `hitSphere`: `-1` when the ray misses, otherwise the smaller root. */
  function HitSphere(center: Point3, radius: real, r: Ray, sqrt: real -> real): real {
    var oc := Sub(r.origin, center);
    var q := Quadratic(LengthSquared(r.direction), Dot(oc, r.direction), LengthSquared(oc) - radius * radius);
    if Discriminant(q) < 0.0 then -1.0
    else NearRoot(q, sqrt)
  }

  /** The background: white blended towards sky blue as the direction tilts up. */
  function Sky(direction: Vec3, sqrt: real -> real): Color {
    var t := Elevation(direction, sqrt);
    Add(Scale(1.0 - t, Vec3(1.0, 1.0, 1.0)), Scale(t, Vec3(0.5, 0.7, 1.0)))
  }

  /** The blend factor `0.5 * (unitDirection.y + 1)`. */
  function Elevation(direction: Vec3, sqrt: real -> real): real {
    var unitDirection := UnitVector(direction, sqrt);
    0.5 * (unitDirection.y + 1.0)
  }

  /** The window the world is queried with: from `0.001`, unbounded above. */
  const TMin: real := 0.001

  /** `rayColor(r, world, depth)`. */
  function RayColor(r: Ray, world: seq<Sphere>, depth: int, draw: int -> ScatterDraw, sqrt: real -> real): (c: Color)
    decreases depth
    ensures depth <= 0 ==> c == Zero()
  {
    if depth <= 0 then Vec3(0.0, 0.0, 0.0)
    else
      match ClosestHit(world, r, TMin, Infinity, sqrt)
      case Some(rec) =>
        if rec.matPtr.None? then Vec3(0.0, 0.0, 0.0)
        else
          var s := Scatter(rec.matPtr.value, r, rec, draw(depth), sqrt);
          if s.scattered then Mul(s.attenuation, RayColor(s.ray, world, depth - 1, draw, sqrt))
          else Vec3(0.0, 0.0, 0.0)
      case None => Sky(r.direction, sqrt)
  }

  // ---------------------------------------------------------------------------
  // hitSphere.

  /**
   * `hitSphere` computes the scene's quadratic: it returns -1 when no point of
   * the ray lies on the sphere (a negative discriminant is exactly that case),
   * and otherwise the nearest parameter at which the ray meets it, which may
   * itself be -1.
   */
  lemma HitSphereNearest(center: Point3, radius: real, m: Material, r: Ray, sqrt: real -> real)
    requires IsSqrt(sqrt) && r.direction != Zero()
    ensures var sp := Sphere(center, radius, m);
      var q := Coefficients(sp, r);
      && (Discriminant(q) < 0.0 ==> HitSphere(center, radius, r, sqrt) == -1.0)
      && (Discriminant(q) < 0.0 <==> forall t :: !LiesOn(sp, At(r, t)))
      && (0.0 <= Discriminant(q) ==> HitSphere(center, radius, r, sqrt) == NearRoot(q, sqrt))
      && (0.0 <= Discriminant(q) ==> LiesOn(sp, At(r, HitSphere(center, radius, r, sqrt))))
      && (forall t :: LiesOn(sp, At(r, t)) ==> HitSphere(center, radius, r, sqrt) <= t)
  {
    var sp := Sphere(center, radius, m);
    var q := Coefficients(sp, r);
    HitSphereSolvesScene(center, radius, m, r, sqrt);
    LengthSquaredIsDot(r.direction);
    SquareNonneg(r.direction.x);
    SquareNonneg(r.direction.y);
    SquareNonneg(r.direction.z);
    forall t
      ensures LiesOn(sp, At(r, t)) <==> (0.0 <= Discriminant(q) && (t == NearRoot(q, sqrt) || t == FarRoot(q, sqrt)))
    {
      SurfacePointsAreRoots(sp, r, t, sqrt);
    }
    if 0.0 <= Discriminant(q) {
      RootsOrdered(q, sqrt);
      assert LiesOn(sp, At(r, NearRoot(q, sqrt)));
    }
  }

  /** `hitSphere` solves the quadratic of the intersection test. */
  lemma HitSphereSolvesScene(center: Point3, radius: real, m: Material, r: Ray, sqrt: real -> real)
    ensures var q := Coefficients(Sphere(center, radius, m), r);
      HitSphere(center, radius, r, sqrt) == if Discriminant(q) < 0.0 then -1.0 else NearRoot(q, sqrt)
  {
    var oc := Sub(r.origin, center);
    var q := Quadratic(LengthSquared(r.direction), Dot(oc, r.direction), LengthSquared(oc) - radius * radius);
    assert Coefficients(Sphere(center, radius, m), r) == q;
  }

  // ---------------------------------------------------------------------------
  // The background.

  /** Looking straight up gives sky blue. */
  lemma SkyStraightUp(sqrt: real -> real)
    requires IsSqrt(sqrt)
    ensures Sky(Vec3(0.0, 1.0, 0.0), sqrt) == Vec3(0.5, 0.7, 1.0)
  {
    SqrtOfSquare(sqrt, 1.0);
  }

  /** Looking straight down gives white. */
  lemma SkyStraightDown(sqrt: real -> real)
    requires IsSqrt(sqrt)
    ensures Sky(Vec3(0.0, -1.0, 0.0), sqrt) == Vec3(1.0, 1.0, 1.0)
  {
    var down := Vec3(0.0, -1.0, 0.0);
    SqrtOfSquare(sqrt, 1.0);
    assert UnitVector(down, sqrt) == down;
    SkyBlend(down, sqrt);
  }

  /** The background colour as a function of the blend factor. */
  lemma SkyBlend(direction: Vec3, sqrt: real -> real)
    ensures var t := Elevation(direction, sqrt);
      Sky(direction, sqrt) == Vec3(1.0 - 0.5 * t, 1.0 - 0.3 * t, 1.0)
  {
  }

  /** Every background colour lies between sky blue and white, component by component. */
  lemma SkyBetween(direction: Vec3, sqrt: real -> real)
    requires IsSqrt(sqrt)
    ensures var c := Sky(direction, sqrt);
      0.5 <= c.x <= 1.0 && 0.7 <= c.y <= 1.0 && c.z == 1.0
  {
    var u := UnitVector(direction, sqrt);
    if direction == Zero() {
      assert u == Zero();
    } else {
      UnitVectorIsUnit(direction, sqrt);
      UnitComponents(u);
    }
    assert 0.0 <= Elevation(direction, sqrt) <= 1.0;
    SkyBlend(direction, sqrt);
  }

  // ---------------------------------------------------------------------------
  // rayColor.

  /** Every component lies in [0,1]. */
  predicate InUnitCube(c: Color) {
    0.0 <= c.x <= 1.0 && 0.0 <= c.y <= 1.0 && 0.0 <= c.z <= 1.0
  }

  /** Every member's material attenuates by at most one in each channel. */
  predicate Dim(world: seq<Sphere>) {
    forall k :: 0 <= k < |world| ==> (world[k].mat.Dielectric? || InUnitCube(world[k].mat.albedo))
  }

  lemma MulInUnitCube(a: Color, b: Color)
    requires InUnitCube(a) && InUnitCube(b)
    ensures InUnitCube(Mul(a, b))
  {
    MulAtMostOne(a.x, b.x);
    MulAtMostOne(a.y, b.y);
    MulAtMostOne(a.z, b.z);
  }

  /**
   * In a world whose albedos lie in [0,1], every radiance estimate lies in
   * [0,1]: each bounce attenuates, and the background is at most white.
   */
  lemma {:induction false} RayColorInUnitCube(r: Ray, world: seq<Sphere>, depth: int, draw: int -> ScatterDraw, sqrt: real -> real)
    requires IsSqrt(sqrt) && Dim(world)
    ensures InUnitCube(RayColor(r, world, depth, draw, sqrt))
    decreases depth
  {
    if 0 < depth {
      var hit := ClosestHit(world, r, TMin, Infinity, sqrt);
      if hit.None? {
        SkyBetween(r.direction, sqrt);
      } else if hit.value.matPtr.Some? {
        var rec := hit.value;
        SceneHitMaterial(world, r, TMin, Infinity, sqrt);
        var k :| 0 <= k < |world| && rec.matPtr == Some(world[k].mat);
        var s := Scatter(rec.matPtr.value, r, rec, draw(depth), sqrt);
        if s.scattered {
          RayColorInUnitCube(s.ray, world, depth - 1, draw, sqrt);
          MulInUnitCube(s.attenuation, RayColor(s.ray, world, depth - 1, draw, sqrt));
        }
      }
    }
  }

  /**
   * A ray that meets no member at or beyond `0.001` shows the background,
   * whatever depth is left.
   */
  lemma RayColorMiss(r: Ray, world: seq<Sphere>, depth: int, draw: int -> ScatterDraw, sqrt: real -> real)
    requires IsSqrt(sqrt) && r.direction != Zero() && 0 < depth
    requires forall j, t :: 0 <= j < |world| && TMin <= t ==> !LiesOn(world[j], At(r, t))
    ensures RayColor(r, world, depth, draw, sqrt) == Sky(r.direction, sqrt)
  {
    forall j | 0 <= j < |world|
      ensures HitResult(world[j], r, TMin, Infinity, sqrt).None?
    {
      HitMeetsSurface(world[j], r, TMin, Infinity, sqrt);
    }
    ClosestHitIsLastNearest(world, r, TMin, Infinity, sqrt);
  }

  lemma HitMeetsSurface(sp: Sphere, r: Ray, tMin: real, tMax: Bound, sqrt: real -> real)
    requires IsSqrt(sqrt) && r.direction != Zero()
    ensures var hit := HitResult(sp, r, tMin, tMax, sqrt);
      hit.Some? ==> tMin <= hit.value.t && LiesOn(sp, At(r, hit.value.t))
  {
    if HitResult(sp, r, tMin, tMax, sqrt).Some? {
      HitOnSurface(sp, r, tMin, tMax, sqrt);
    }
  }

  /** An empty world shows the background. */
  lemma RayColorEmptyWorld(r: Ray, depth: int, draw: int -> ScatterDraw, sqrt: real -> real)
    requires 0 < depth
    ensures RayColor(r, [], depth, draw, sqrt) == Sky(r.direction, sqrt)
  {
  }

  /**
   * A ray that meets some member at or beyond `0.001` bounces off the nearest
   * such point, a point of a member: the result is that member's attenuation
   * times the estimate along the scattered ray with one level less, or black
   * when the material absorbs.
   */
  lemma RayColorBounce(r: Ray, world: seq<Sphere>, depth: int, draw: int -> ScatterDraw, sqrt: real -> real, j: int, t: real)
    requires IsSqrt(sqrt) && r.direction != Zero() && 0 < depth
    requires 0 <= j < |world| && TMin <= t && LiesOn(world[j], At(r, t))
    ensures ClosestHit(world, r, TMin, Infinity, sqrt).Some?
    ensures var rec := ClosestHit(world, r, TMin, Infinity, sqrt).value;
      && TMin <= rec.t <= t
      && (exists k :: 0 <= k < |world| && LiesOn(world[k], rec.p) && rec.matPtr == Some(world[k].mat))
      && var s := Scatter(rec.matPtr.value, r, rec, draw(depth), sqrt);
         RayColor(r, world, depth, draw, sqrt)
           == if s.scattered then Mul(s.attenuation, RayColor(s.ray, world, depth - 1, draw, sqrt)) else Zero()
  {
    SceneHitIsNearest(world, r, TMin, Infinity, sqrt, j, t);
    SceneHitOnMember(world, r, TMin, Infinity, sqrt);
  }

  /**
   * The recursion stops within `depth` levels: the estimate reads only the
   * draws of the levels `1..depth`.
   */
  lemma {:induction false} RayColorReadsDepthDraws(r: Ray, world: seq<Sphere>, depth: int, d1: int -> ScatterDraw, d2: int -> ScatterDraw, sqrt: real -> real)
    requires forall i :: 1 <= i <= depth ==> d1(i) == d2(i)
    ensures RayColor(r, world, depth, d1, sqrt) == RayColor(r, world, depth, d2, sqrt)
    decreases depth
  {
    if 0 < depth {
      var hit := ClosestHit(world, r, TMin, Infinity, sqrt);
      if hit.Some? && hit.value.matPtr.Some? {
        var rec := hit.value;
        assert d1(depth) == d2(depth);
        var s := Scatter(rec.matPtr.value, r, rec, d1(depth), sqrt);
        RayColorReadsDepthDraws(s.ray, world, depth - 1, d1, d2, sqrt);
      }
    }
  }
}
