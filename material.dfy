/**
 * The three materials and their scatter rules.  A scatter call writes an
 * attenuation colour and a scattered ray and returns whether the ray goes on;
 * here it returns all three.  The random draw of each call is an argument.
 */
module Materials {
  import opened RealFacts
  import opened Constants
  import opened Vectors
  import opened Rays
  import opened Hittables

  /** The closed set of materials that the virtual `scatter` dispatches over. */
  datatype Material =
    | Lambertian(albedo: Color)
    | Metal(albedo: Color, fuzz: real)
    | Dielectric(ir: real)

  type Record = HitRecord<Material>

  /** What `scatter` returns and writes to its two out-parameters. */
  datatype ScatterResult = ScatterResult(scattered: bool, attenuation: Color, ray: Ray)

  /** The random draws of one bounce: a unit-sphere sample and a unit draw in [0,1). */
  datatype ScatterDraw = ScatterDraw(inUnitSphere: Vec3, unit: real)

  /** The `Metal` constructor: a fuzz of 1 or more is capped at 1; there is no lower cap. */
  function NewMetal(a: Color, f: real): (m: Material)
    ensures m.Metal? && m.albedo == a
    ensures m.fuzz <= 1.0
    ensures f < 1.0 ==> m.fuzz == f
    ensures 1.0 <= f ==> m.fuzz == 1.0
  {
    Metal(a, if f < 1.0 then f else 1.0)
  }

  // ---------------------------------------------------------------------------
  // Lambertian.

  /**
   * Diffuse scatter: the normal plus a random unit vector, or the normal itself
   * when that sum is degenerate.  It never absorbs.
   */
  function LambertianScatter(albedo: Color, rec: Record, inUnitSphere: Vec3, sqrt: real -> real): (s: ScatterResult)
    ensures s.scattered && s.attenuation == albedo && s.ray.origin == rec.p
    ensures var candidate := Add(rec.normal, RandomUnitVector(inUnitSphere, sqrt));
      (!NearZero(candidate) ==> s.ray.direction == candidate)
      && (NearZero(candidate) ==> s.ray.direction == rec.normal)
    ensures NearZero(s.ray.direction) ==> NearZero(rec.normal)
  {
    var scatterDirection := Add(rec.normal, RandomUnitVector(inUnitSphere, sqrt));
    var direction := if NearZero(scatterDirection) then rec.normal else scatterDirection;
    ScatterResult(true, albedo, Ray(rec.p, direction))
  }

  /** Unless the normal itself is near zero, the diffuse direction is never the zero vector. */
  lemma LambertianNeverDegenerate(albedo: Color, rec: Record, inUnitSphere: Vec3, sqrt: real -> real)
    requires !NearZero(rec.normal)
    ensures LambertianScatter(albedo, rec, inUnitSphere, sqrt).ray.direction != Zero()
  {
    ZeroIsNearZero();
  }

  // ---------------------------------------------------------------------------
  // Metal.

  /**
   * Mirror scatter: the unit incoming direction reflected about the normal,
   * perturbed by `fuzz` times a unit-sphere sample.  The ray goes on only if it
   * leaves on the normal's side.
   */
  function MetalScatter(albedo: Color, fuzz: real, rIn: Ray, rec: Record, inUnitSphere: Vec3, sqrt: real -> real): (s: ScatterResult)
    ensures s.scattered <==> Dot(s.ray.direction, rec.normal) > 0.0
    ensures s.attenuation == albedo && s.ray.origin == rec.p
    ensures s.ray.direction == Add(Reflect(UnitVector(rIn.direction, sqrt), rec.normal), Scale(fuzz, inUnitSphere))
    ensures fuzz == 0.0 ==> s.ray.direction == Reflect(UnitVector(rIn.direction, sqrt), rec.normal)
  {
    var reflected := Reflect(UnitVector(rIn.direction, sqrt), rec.normal);
    var scattered := Ray(rec.p, Add(reflected, Scale(fuzz, inUnitSphere)));
    ScatterResult(Dot(scattered.direction, rec.normal) > 0.0, albedo, scattered)
  }

  /**
   * A perfect mirror: with no fuzz and a unit normal the angle of reflection
   * equals the angle of incidence, the scattered direction has unit length, and
   * the ray goes on exactly when it arrived against the normal.
   */
  lemma MetalMirror(albedo: Color, rIn: Ray, rec: Record, inUnitSphere: Vec3, sqrt: real -> real)
    requires IsSqrt(sqrt)
    requires rIn.direction != Zero() && LengthSquared(rec.normal) == 1.0
    ensures var s := MetalScatter(albedo, 0.0, rIn, rec, inUnitSphere, sqrt);
      var unitIn := UnitVector(rIn.direction, sqrt);
      && Dot(s.ray.direction, rec.normal) == -Dot(unitIn, rec.normal)
      && LengthSquared(s.ray.direction) == 1.0
      && (s.scattered <==> Dot(unitIn, rec.normal) < 0.0)
  {
    var unitIn := UnitVector(rIn.direction, sqrt);
    LengthSquaredIsDot(rec.normal);
    UnitVectorIsUnit(rIn.direction, sqrt);
    ReflectNormalComponent(unitIn, rec.normal);
    ReflectLength(unitIn, rec.normal);
  }

  // ---------------------------------------------------------------------------
  // Dielectric.

  /** `1/ir` entering through the front face, `ir` leaving through the back. */
  function RefractionRatio(ir: real, frontFace: bool): real {
    if frontFace then Inv(ir) else ir
  }

  /** The ratios of the two faces are reciprocal: leaving undoes entering. */
  lemma RefractionRatioFaces(ir: real)
    requires ir != 0.0
    ensures RefractionRatio(ir, false) == ir
    ensures RefractionRatio(ir, true) * RefractionRatio(ir, false) == 1.0
  {
  }

  /** The cosine of the angle between the reversed unit direction and the normal, capped at 1. */
  function CosTheta(unitDirection: Vec3, normal: Vec3): real {
    Min(Dot(Neg(unitDirection), normal), 1.0)
  }

  /** `sqrt(1 - cosTheta^2)`. */
  function SinTheta(cosTheta: real, sqrt: real -> real): real {
    sqrt(1.0 - cosTheta * cosTheta)
  }

  /** Snell's law has no solution: `ratio * sinTheta > 1`. */
  predicate CannotRefract(ratio: real, sinTheta: real) {
    ratio * sinTheta > 1.0
  }

  /** `pow(x, 5)`. */
  function Pow5(x: real): real {
    x * x * x * x * x
  }

  /** Schlick's reflectance at normal incidence, `((1-r)/(1+r))^2`. */
  function SchlickR0(refIdx: real): real {
    var r0 := Quot(1.0 - refIdx, 1.0 + refIdx);
    r0 * r0
  }

  /** `reflectance`: Schlick's approximation. */
  function Reflectance(cosine: real, refIdx: real): real {
    var r0 := SchlickR0(refIdx);
    r0 + (1.0 - r0) * Pow5(1.0 - cosine)
  }

  /**
   * Glass: reflect when refraction is impossible or, otherwise, when the
   * reflectance exceeds the unit draw; refract otherwise.  The reflectance is
   * evaluated at the refraction ratio, not at the index itself.
   */
  function DielectricScatter(ir: real, rIn: Ray, rec: Record, unit: real, sqrt: real -> real): (s: ScatterResult)
    ensures s.scattered && s.attenuation == Vec3(1.0, 1.0, 1.0) && s.ray.origin == rec.p
    ensures var ratio := RefractionRatio(ir, rec.frontFace);
      var unitDirection := UnitVector(rIn.direction, sqrt);
      var cosTheta := CosTheta(unitDirection, rec.normal);
      && (CannotRefract(ratio, SinTheta(cosTheta, sqrt)) ==> s.ray.direction == Reflect(unitDirection, rec.normal))
      && (!CannotRefract(ratio, SinTheta(cosTheta, sqrt)) && Reflectance(cosTheta, ratio) > unit
          ==> s.ray.direction == Reflect(unitDirection, rec.normal))
      && (!CannotRefract(ratio, SinTheta(cosTheta, sqrt)) && Reflectance(cosTheta, ratio) <= unit
          ==> s.ray.direction == Refract(unitDirection, rec.normal, ratio, sqrt))
  {
    var attenuation := Vec3(1.0, 1.0, 1.0);
    var refractionRatio := RefractionRatio(ir, rec.frontFace);
    var unitDirection := UnitVector(rIn.direction, sqrt);
    var cosTheta := CosTheta(unitDirection, rec.normal);
    var sinTheta := SinTheta(cosTheta, sqrt);
    var cannotRefract := CannotRefract(refractionRatio, sinTheta);
    var direction :=
      if cannotRefract || Reflectance(cosTheta, refractionRatio) > unit
      then Reflect(unitDirection, rec.normal)
      else Refract(unitDirection, rec.normal, refractionRatio, sqrt);
    ScatterResult(true, attenuation, Ray(rec.p, direction))
  }

  /** Under total internal reflection the unit draw plays no part. */
  lemma TotalInternalReflectionIgnoresDraw(ir: real, rIn: Ray, rec: Record, u1: real, u2: real, sqrt: real -> real)
    requires CannotRefract(RefractionRatio(ir, rec.frontFace),
                           SinTheta(CosTheta(UnitVector(rIn.direction, sqrt), rec.normal), sqrt))
    ensures DielectricScatter(ir, rIn, rec, u1, sqrt) == DielectricScatter(ir, rIn, rec, u2, sqrt)
  {
  }

  /** For a cosine in [-1,1] the sine lies in [0,1]. */
  lemma SinThetaInUnit(cosTheta: real, sqrt: real -> real)
    requires IsSqrt(sqrt)
    requires -1.0 <= cosTheta <= 1.0
    ensures 0.0 <= SinTheta(cosTheta, sqrt) <= 1.0
  {
    assert 0.0 <= cosTheta * cosTheta <= 1.0 by {
      SquareNonneg(cosTheta);
      MulAtMostOne(Abs(cosTheta), Abs(cosTheta));
      assert Abs(cosTheta) * Abs(cosTheta) == cosTheta * cosTheta;
    }
    SqrtAtMostOne(sqrt, 1.0 - cosTheta * cosTheta);
  }

  /** A ratio of at most one (entering the denser medium) never reflects totally. */
  lemma NoTotalInternalReflectionBelowOne(ratio: real, cosTheta: real, sqrt: real -> real)
    requires IsSqrt(sqrt)
    requires 0.0 <= ratio <= 1.0 && -1.0 <= cosTheta <= 1.0
    ensures !CannotRefract(ratio, SinTheta(cosTheta, sqrt))
  {
    SinThetaInUnit(cosTheta, sqrt);
    RefractsWithinUnitSine(ratio, SinTheta(cosTheta, sqrt));
  }

  lemma RefractsWithinUnitSine(ratio: real, sinTheta: real)
    requires 0.0 <= ratio <= 1.0 && 0.0 <= sinTheta <= 1.0
    ensures !CannotRefract(ratio, sinTheta)
  {
    MulAtMostOne(ratio, sinTheta);
  }

  /**
   * Glass of index 1 hit from the normal's opposite side passes the ray on
   * unbent (as the unit incoming direction) whenever the draw rejects reflection.
   */
  lemma DielectricMatchedIndexPassesThrough(rIn: Ray, rec: Record, unit: real, sqrt: real -> real)
    requires IsSqrt(sqrt)
    requires rIn.direction != Zero() && LengthSquared(rec.normal) == 1.0
    requires Dot(rIn.direction, rec.normal) <= 0.0
    requires Reflectance(CosTheta(UnitVector(rIn.direction, sqrt), rec.normal), 1.0) <= unit
    ensures DielectricScatter(1.0, rIn, rec, unit, sqrt).ray == Ray(rec.p, UnitVector(rIn.direction, sqrt))
  {
    var u := UnitVector(rIn.direction, sqrt);
    UnitVectorIsUnit(rIn.direction, sqrt);
    UnitVectorDotSign(rIn.direction, rec.normal, sqrt);
    UnitDotAtLeastMinusOne(u, rec.normal);
    assert RefractionRatio(1.0, rec.frontFace) == 1.0;
    DotNeg(u, rec.normal);
    var cosTheta := CosTheta(u, rec.normal);
    assert cosTheta == -Dot(u, rec.normal);
    NoTotalInternalReflectionBelowOne(1.0, cosTheta, sqrt);
    RefractIdentity(u, rec.normal, sqrt);
  }

  // ---------------------------------------------------------------------------
  // Schlick's approximation.

  lemma Pow5InUnit(x: real)
    requires 0.0 <= x <= 1.0
    ensures 0.0 <= Pow5(x) <= 1.0
  {
    MulAtMostOne(x, x);
    MulAtMostOne(x * x, x);
    MulAtMostOne(x * x * x, x);
    MulAtMostOne(x * x * x * x, x);
  }

  /** For a positive index, the normal-incidence reflectance lies in [0,1). */
  lemma SchlickR0InUnit(refIdx: real)
    requires 0.0 < refIdx
    ensures 0.0 <= SchlickR0(refIdx) < 1.0
  {
    var q := Quot(1.0 - refIdx, 1.0 + refIdx);
    assert q * (1.0 + refIdx) == 1.0 - refIdx;
    assert (1.0 - q) * (1.0 + refIdx) == 2.0 * refIdx;
    PositiveFactor(1.0 - q, 1.0 + refIdx);
    assert (1.0 + q) * (1.0 + refIdx) == 2.0;
    PositiveFactor(1.0 + q, 1.0 + refIdx);
    var a := Abs(q);
    assert a < 1.0 && a * a == q * q;
    SquareNonneg(q);
    if 0.0 < a {
      MulPos(a, 1.0 - a);
      assert a * (1.0 - a) == a - a * a;
    }
    assert SchlickR0(refIdx) == q * q;
  }

  /** For a cosine in [0,1] and a positive index, the reflectance lies in [r0, 1]. */
  lemma ReflectanceBounds(cosine: real, refIdx: real)
    requires 0.0 <= cosine <= 1.0 && 0.0 < refIdx
    ensures SchlickR0(refIdx) <= Reflectance(cosine, refIdx) <= 1.0
  {
    var r0 := SchlickR0(refIdx);
    var p := Pow5(1.0 - cosine);
    SchlickR0InUnit(refIdx);
    Pow5InUnit(1.0 - cosine);
    MulNonneg(1.0 - r0, p);
    MulNonneg(1.0 - r0, 1.0 - p);
    assert (1.0 - r0) * (1.0 - p) == (1.0 - r0) - (1.0 - r0) * p;
  }

  /** At normal incidence with matched indices nothing is reflected. */
  lemma ReflectanceMatchedIndex()
    ensures Reflectance(1.0, 1.0) == 0.0
  {
  }

  /**
   * Schlick's reflectance is the same for an index and its reciprocal, so
   * evaluating it at the ratio `1/ir` rather than at `ir` changes nothing.
   */
  lemma ReflectanceReciprocal(cosine: real, refIdx: real)
    requires 0.0 < refIdx
    ensures Reflectance(cosine, Inv(refIdx)) == Reflectance(cosine, refIdx)
  {
    var k := Inv(refIdx);
    assert k * refIdx == 1.0;
    var q := Quot(1.0 - refIdx, 1.0 + refIdx);
    var q' := Quot(1.0 - k, 1.0 + k);
    assert 0.0 < k by {
      if k <= 0.0 {
        MulNonneg(-k, refIdx);
      }
    }
    assert q * (1.0 + refIdx) == 1.0 - refIdx;
    assert q' * (1.0 + k) == 1.0 - k;
    assert q' * (1.0 + k) * refIdx == (1.0 - k) * refIdx;
    assert q' * (refIdx + 1.0) == refIdx - 1.0;
    assert (q' + q) * (1.0 + refIdx) == 0.0;
    ZeroProduct(q' + q, 1.0 + refIdx);
    assert q' == -q;
  }

  // ---------------------------------------------------------------------------
  // Dispatch.

  /** The virtual `scatter`, over the material the hit record points at. */
  function Scatter(m: Material, rIn: Ray, rec: Record, draw: ScatterDraw, sqrt: real -> real): (s: ScatterResult)
    ensures s.ray.origin == rec.p
    ensures !m.Metal? ==> s.scattered
    ensures m.Lambertian? || m.Metal? ==> s.attenuation == m.albedo
    ensures m.Dielectric? ==> s.attenuation == Vec3(1.0, 1.0, 1.0)
  {
    match m
    case Lambertian(albedo) => LambertianScatter(albedo, rec, draw.inUnitSphere, sqrt)
    case Metal(albedo, fuzz) => MetalScatter(albedo, fuzz, rIn, rec, draw.inUnitSphere, sqrt)
    case Dielectric(ir) => DielectricScatter(ir, rIn, rec, draw.unit, sqrt)
  }
}
