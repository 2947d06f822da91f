/**
 * The thin-lens camera: an orthonormal frame built from the viewing
 * parameters, a viewport on the focus plane, and rays from a point of the lens
 * through a point of the viewport.  `tan` and `sqrt` are parameters, and the
 * unit-disk sample of each ray is an argument.
 */
module Cameras {
  import opened RealFacts
  import opened Constants
  import opened Vectors
  import opened Rays

  /** The camera's viewing direction `w` (pointing backwards) and the two screen axes. */
  datatype Frame = Frame(w: Vec3, u: Vec3, v: Vec3)

  function ViewFrame(lookfrom: Point3, lookat: Point3, vup: Vec3, sqrt: real -> real): Frame {
    var w := UnitVector(Sub(lookfrom, lookat), sqrt);
    var u := UnitVector(Cross(vup, w), sqrt);
    Frame(w, u, Cross(w, u))
  }

  /** Height of the viewport at unit distance: `2 tan(theta / 2)`. */
  function ViewportHeight(vfov: real, tan: real -> real): real {
    2.0 * tan(DegreesToRadians(vfov) / 2.0)
  }

  /** Width of the viewport at unit distance: the height times the aspect ratio. */
  function ViewportWidth(vfov: real, aspectRatio: real, tan: real -> real): real {
    aspectRatio * ViewportHeight(vfov, tan)
  }

  /** Mutually orthogonal unit vectors. */
  predicate Orthonormal(f: Frame) {
    && LengthSquared(f.w) == 1.0 && LengthSquared(f.u) == 1.0 && LengthSquared(f.v) == 1.0
    && Dot(f.w, f.u) == 0.0 && Dot(f.w, f.v) == 0.0 && Dot(f.u, f.v) == 0.0
  }

  class Camera {
    const origin: Point3
    const lowerLeftCorner: Point3
    const horizontal: Vec3
    const vertical: Vec3
    /** The lens axes used by `getRay`. */
    const u: Vec3
    const v: Vec3
    const lensRadius: real
    /** The frame the constructor computed, and the focus distance it was given. */
    ghost const frame: Frame
    ghost const focusDist: real

    /**
     * The constructor as written: the frame is computed into locals and the
     * lens axes `_u`, `_v` are never assigned, so they keep their default value,
     * the zero vector.
     */
    constructor (lookfrom: Point3, lookat: Point3, vup: Vec3, vfov: real, aspectRatio: real,
                 aperture: real, focusDist: real, sqrt: real -> real, tan: real -> real)
      ensures origin == lookfrom
      ensures frame == ViewFrame(lookfrom, lookat, vup, sqrt) && this.focusDist == focusDist
      ensures horizontal == Scale(focusDist * ViewportWidth(vfov, aspectRatio, tan), frame.u)
      ensures vertical == Scale(focusDist * ViewportHeight(vfov, tan), frame.v)
      ensures Framed()
      ensures u == Zero() && v == Zero()
      ensures lensRadius == aperture / 2.0
    {
      var f := ViewFrame(lookfrom, lookat, vup, sqrt);
      var w, u', v' := f.w, f.u, f.v;

      var horizontal := Scale(focusDist * ViewportWidth(vfov, aspectRatio, tan), u');
      var vertical := Scale(focusDist * ViewportHeight(vfov, tan), v');
      this.origin := lookfrom;
      this.horizontal := horizontal;
      this.vertical := vertical;
      this.lowerLeftCorner := Sub(Sub(Sub(lookfrom, Div(horizontal, 2.0)), Div(vertical, 2.0)), Scale(focusDist, w));
      this.lensRadius := aperture / 2.0;
      this.u := Zero();
      this.v := Zero();
      this.frame := f;
      this.focusDist := focusDist;
    }

    /** The constructor as intended: the frame's screen axes are stored as the lens axes. */
    constructor WithLens(lookfrom: Point3, lookat: Point3, vup: Vec3, vfov: real, aspectRatio: real,
                         aperture: real, focusDist: real, sqrt: real -> real, tan: real -> real)
      ensures origin == lookfrom
      ensures frame == ViewFrame(lookfrom, lookat, vup, sqrt) && this.focusDist == focusDist
      ensures horizontal == Scale(focusDist * ViewportWidth(vfov, aspectRatio, tan), frame.u)
      ensures vertical == Scale(focusDist * ViewportHeight(vfov, tan), frame.v)
      ensures Framed()
      ensures u == frame.u && v == frame.v
      ensures lensRadius == aperture / 2.0
    {
      var f := ViewFrame(lookfrom, lookat, vup, sqrt);
      var w, u', v' := f.w, f.u, f.v;

      var horizontal := Scale(focusDist * ViewportWidth(vfov, aspectRatio, tan), u');
      var vertical := Scale(focusDist * ViewportHeight(vfov, tan), v');
      this.origin := lookfrom;
      this.horizontal := horizontal;
      this.vertical := vertical;
      this.lowerLeftCorner := Sub(Sub(Sub(lookfrom, Div(horizontal, 2.0)), Div(vertical, 2.0)), Scale(focusDist, w));
      this.lensRadius := aperture / 2.0;
      this.u := u';
      this.v := v';
      this.frame := f;
      this.focusDist := focusDist;
    }

    /** The viewport is centred on the axis, `focusDist` in front of the origin. */
    ghost predicate Framed() {
      lowerLeftCorner == Sub(Sub(Sub(origin, Div(horizontal, 2.0)), Div(vertical, 2.0)), Scale(focusDist, frame.w))
    }

    /** The point of the lens a disk sample selects. */
    function Offset(disk: Vec3): Vec3 {
      var rd := Scale(lensRadius, disk);
      Add(Scale(rd.x, u), Scale(rd.y, v))
    }

    /** The point of the viewport at screen coordinates `(s, t)`. */
    function Target(s: real, t: real): Point3 {
      Add(Add(lowerLeftCorner, Scale(s, horizontal)), Scale(t, vertical))
    }

    /** `getRay(s, t)` for the unit-disk sample `disk`. */
    function GetRay(s: real, t: real, disk: Vec3): (r: Ray)
      ensures r.origin == Add(origin, Offset(disk))
      ensures At(r, 1.0) == Target(s, t)
    {
      var rd := Scale(lensRadius, disk);
      var offset := Add(Scale(rd.x, u), Scale(rd.y, v));
      Ray(Add(origin, offset),
          Sub(Sub(Add(Add(lowerLeftCorner, Scale(s, horizontal)), Scale(t, vertical)), origin), offset))
    }
  }

  // ---------------------------------------------------------------------------
  // Properties.

  /**
   * The frame is orthonormal whenever the camera looks somewhere and the up
   * vector is not along the viewing direction.
   */
  lemma ViewFrameOrthonormal(lookfrom: Point3, lookat: Point3, vup: Vec3, sqrt: real -> real)
    requires IsSqrt(sqrt)
    requires lookfrom != lookat
    requires Cross(vup, UnitVector(Sub(lookfrom, lookat), sqrt)) != Zero()
    ensures Orthonormal(ViewFrame(lookfrom, lookat, vup, sqrt))
  {
    var f := ViewFrame(lookfrom, lookat, vup, sqrt);
    var d := Sub(lookfrom, lookat);
    assert lookfrom == Add(lookat, d);
    assert Add(lookat, Zero()) == lookat;
    UnitVectorIsUnit(d, sqrt);
    var c := Cross(vup, f.w);
    UnitVectorIsUnit(c, sqrt);
    UnitVectorPositiveScale(c, sqrt);
    CrossOrthogonal(vup, f.w);
    var k := Inv(Length(c, sqrt));
    DotSymmetric(c, f.w);
    DotScaleRight(f.w, k, c);
    CrossOrthogonal(f.w, f.u);
    CrossLengthSquared(f.w, f.u);
    DotSymmetric(f.w, f.v);
    DotSymmetric(f.u, f.v);
  }

  /**
   * Every lens sample aims at the same point of the viewport, so the points at
   * the focus distance stay sharp.
   */
  lemma RaysMeetAtTarget(c: Camera, s: real, t: real, d1: Vec3, d2: Vec3)
    ensures At(c.GetRay(s, t, d1), 1.0) == At(c.GetRay(s, t, d2), 1.0) == c.Target(s, t)
  {
  }

  /** The ray through the centre of the viewport runs along `-w`, `focusDist` long. */
  lemma CentreRay(c: Camera, disk: Vec3)
    requires c.Framed()
    ensures Add(c.GetRay(0.5, 0.5, disk).direction, c.Offset(disk)) == Scale(-c.focusDist, c.frame.w)
  {
  }

  /**
   * As written, the lens axes are zero: every ray leaves the look-from point
   * and does not depend on the disk sample; the aperture has no effect.
   */
  lemma PinholeAsWritten(c: Camera, s: real, t: real, d1: Vec3, d2: Vec3)
    requires c.u == Zero() && c.v == Zero()
    ensures c.GetRay(s, t, d1).origin == c.origin
    ensures c.GetRay(s, t, d1) == c.GetRay(s, t, d2)
  {
  }

  /**
   * With orthonormal lens axes the ray leaves the lens at distance
   * `lensRadius * |disk|` from the centre, so a unit-disk sample stays within
   * the aperture.
   */
  lemma LensOffsetWithinAperture(c: Camera, disk: Vec3)
    requires LengthSquared(c.u) == 1.0 && LengthSquared(c.v) == 1.0 && Dot(c.u, c.v) == 0.0
    requires disk.z == 0.0 && LengthSquared(disk) < 1.0
    ensures LengthSquared(c.Offset(disk)) == c.lensRadius * c.lensRadius * LengthSquared(disk)
    ensures LengthSquared(c.Offset(disk)) <= c.lensRadius * c.lensRadius
  {
    var a := c.lensRadius * disk.x;
    var b := c.lensRadius * disk.y;
    OffsetLength(c.u, c.v, a, b);
    assert a * a + b * b == c.lensRadius * c.lensRadius * LengthSquared(disk);
    SquareNonneg(c.lensRadius);
    MulNonneg(c.lensRadius * c.lensRadius, 1.0 - LengthSquared(disk));
    assert c.lensRadius * c.lensRadius * (1.0 - LengthSquared(disk))
        == c.lensRadius * c.lensRadius - c.lensRadius * c.lensRadius * LengthSquared(disk);
  }

  /** `|a u + b v|^2 = a^2 + b^2` for orthonormal `u`, `v`. */
  lemma OffsetLength(u: Vec3, v: Vec3, a: real, b: real)
    requires LengthSquared(u) == 1.0 && LengthSquared(v) == 1.0 && Dot(u, v) == 0.0
    ensures LengthSquared(Add(Scale(a, u), Scale(b, v))) == a * a + b * b
  {
    LengthSquaredCombination(u, v, a, b);
  }

  /** The coordinates of `a u + b v` along orthonormal `u`, `v` are `a` and `b`. */
  lemma OffsetCoordinates(u: Vec3, v: Vec3, a: real, b: real)
    requires LengthSquared(u) == 1.0 && LengthSquared(v) == 1.0 && Dot(u, v) == 0.0
    ensures Dot(Add(Scale(a, u), Scale(b, v)), u) == a
    ensures Dot(Add(Scale(a, u), Scale(b, v)), v) == b
  {
    var p := Add(Scale(a, u), Scale(b, v));
    assert Dot(p, u) == a * LengthSquared(u) + b * Dot(u, v);
    assert Dot(p, v) == a * Dot(u, v) + b * LengthSquared(v);
  }

  /**
   * With the intended constructor and a positive aperture, every disk sample
   * off the centre moves the ray's origin off the look-from point: the lens blurs.
   */
  lemma LensMovesOrigin(c: Camera, s: real, t: real, disk: Vec3)
    requires LengthSquared(c.u) == 1.0 && LengthSquared(c.v) == 1.0 && Dot(c.u, c.v) == 0.0
    requires 0.0 < c.lensRadius
    requires disk.z == 0.0 && disk != Zero()
    ensures c.GetRay(s, t, disk).origin != c.origin
  {
    LensSampleOffCentre(c.u, c.v, c.lensRadius, disk);
    AddNonzeroMoves(c.origin, c.Offset(disk));
  }

  /** A nonzero planar sample scaled by a positive radius gives a nonzero lens offset. */
  lemma LensSampleOffCentre(u: Vec3, v: Vec3, r: real, disk: Vec3)
    requires LengthSquared(u) == 1.0 && LengthSquared(v) == 1.0 && Dot(u, v) == 0.0
    requires 0.0 < r && disk.z == 0.0 && disk != Zero()
    ensures var rd := Scale(r, disk); Add(Scale(rd.x, u), Scale(rd.y, v)) != Zero()
  {
    var rd := Scale(r, disk);
    OffsetCoordinates(u, v, rd.x, rd.y);
    if disk.x != 0.0 {
      NonzeroProduct(r, disk.x);
    } else {
      NonzeroProduct(r, disk.y);
    }
  }
}
