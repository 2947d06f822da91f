# A verified model of a sphere-only path tracer's kernel

This project models the geometric and shading kernel of a small C++ path
tracer in Dafny and proves properties of the model. The tracer renders scenes
made only of spheres. The model covers:

- vector algebra (`Vec3`, `dot`, `cross`, `reflect`, `refract`, the compound
  assignments, and the sampling helpers);
- rays;
- the scalar helpers (`clamp`, `degreesToRadians`, `randomDouble`);
- the hit record and `setFaceNormal`;
- the sphere intersection;
- the scene's closest-hit scan;
- the three materials (Lambertian, Metal, Dielectric with Schlick's
  approximation);
- the thin-lens camera;
- the stand-alone `hitSphere` and the depth-bounded radiance function
  `rayColor`.

Arithmetic is on Dafny's exact `real`.

- `sqrt` and `tan` are function-valued parameters. The predicate
  `Constants.IsSqrt` says what an exact square root satisfies, and lemmas that
  need one take it as a hypothesis.
- `pow(x, 5)` is `x*x*x*x*x`. `fabs` and `fmin` are defined exactly.
- Division goes through `Constants.Inv`, which is total: the reciprocal of 0 is
  0 here. The model is total, so a zero divisor yields a value where the
  source computes an infinity or NaN; "## Left out" lists the lemmas whose
  zero-divisor case holds only by this convention.
- `infinity` is the `Bound.Infinity` case of an upper bound.
- Every random draw is an argument:
  - a unit draw in `[0,1)`;
  - the unit-sphere sample of a bounce;
  - the unit-disk sample of a camera ray;
  - the candidates a rejection loop would examine.

Module layout follows the headers. The modules `Optional`, `RealFacts` and
`Constants` are in `constants.dfy`. `Vectors` (vec3.h), `Rays` (ray.h),
`Hittables` (hittable.h), `Materials` (material.h), `Spheres` (sphere.h),
`HittableLists` (hittableList.h), `Cameras` (camera.h) and `Render` (main.cpp)
each have their own file.

State follows the source:

- The in-place operators of `Vec3` are methods returning the updated value.
- `Sphere::hit` is a method that mirrors the source's branches and is proved
  against the function `Spheres.HitResult`.
- The scene is a class `HittableList` with a `seq` field. Its `hit` is a loop
  proved against the function `HittableLists.ClosestHit`.
- The camera is a class with constant fields set by its constructor.
- `rayColor` and `hitSphere` are functions.

## Model

| member | source | states |
|---|---|---|
| Constants.Inv | include/vec3.h:94 | the reciprocal `1/t` multiplies back to one for every nonzero `t` |
| Constants.Abs | include/vec3.h:56 | `fabs` is non-negative and equals `x` or `-x` |
| Constants.Min | include/vec3.h:143 | `fmin` is below both arguments and equals one of them |
| Constants.DegreesToRadians | include/constants.h:22 | 0 degrees is 0 radians, 180 degrees is `pi`, and `r * 180 == degrees * pi` |
| Constants.DegreesToRadiansLinear | include/constants.h:22 | the conversion is linear: `f(k a + b) == k f(a) + f(b)` |
| Constants.UnitDraw | include/constants.h:24 | `rand()/(RAND_MAX+1)` lies in `[0,1)` for every result `0 <= k <= RAND_MAX` of `rand()` |
| Constants.RandomDoubleInRange | include/constants.h:26 | a unit draw in `[0,1)` maps into `[min,max)` when `min < max` |
| Constants.RandomDouble | include/constants.h:26 | a draw of 0 yields `min` |
| Constants.Clamp | include/constants.h:36-41 | the result lies in `[min,max]` when `min <= max`; `x` in range is returned unchanged; `x < min` yields `min` even when `min > max` (the lower test comes first); otherwise `x > max` yields `max` |
| Constants.ClampIdempotent | include/constants.h:36-41 | clamping twice equals clamping once |
| Vectors.NearZero | include/vec3.h:52-57 | `nearZero` holds exactly when every component has magnitude below `1e-8` |
| Vectors.ZeroIsNearZero | include/vec3.h:11 | the default vector is `nearZero` |
| Vectors.AddAssign | include/vec3.h:22-28 | `+=` leaves the receiver equal to the binary `+` |
| Vectors.MulAssign | include/vec3.h:30-36 | `*=` leaves the receiver equal to the scalar product |
| Vectors.DivAssign | include/vec3.h:38 | `/= t` equals `*= 1/t`, and for `t != 0` multiplying back by `t` restores the receiver |
| Vectors.ScaleScale | include/vec3.h:88-90 | scaling twice is scaling by the product |
| Vectors.LengthSquaredIsDot | include/vec3.h:42 | `lengthSquared(v) == dot(v,v)` and it is never negative |
| Vectors.LengthSquaredZero | include/vec3.h:42 | the squared length is zero exactly for the zero vector |
| Vectors.Dot | include/vec3.h:96-100 | the sum of the componentwise products; its properties are stated by `Vectors.LengthSquaredIsDot` (`dot(v,v)` is the squared length, never negative) and `Vectors.DotNeg` (`dot(-u,v) == -dot(u,v)`) |
| Vectors.DotNeg | include/vec3.h:96-100 | negating one argument negates the dot product |
| Vectors.Cross | include/vec3.h:102-106 | the cross product; `Vectors.CrossOrthogonal` and `Vectors.CrossLengthSquared` state that it is orthogonal to both arguments and has the length of Lagrange's identity |
| Vectors.CrossOrthogonal | include/vec3.h:102-106 | `cross(u,v)` is orthogonal to `u` and to `v` |
| Vectors.CrossLengthSquared | include/vec3.h:102-106 | Lagrange's identity: the squared length of `cross(u,v)` is `lengthSquared(u) * lengthSquared(v) - dot(u,v)^2` |
| Vectors.LengthSquaredScale | include/vec3.h:88-90 | scaling by `t` scales the squared length by `t^2` |
| Vectors.LengthSquaredNeg | include/vec3.h:18 | negation keeps the squared length |
| Vectors.UnitVector | include/vec3.h:108 | `v / length(v)`; `Vectors.UnitVectorIsUnit`, `Vectors.UnitVectorPositiveScale` and `Vectors.UnitVectorDotSign` state that it has length one, points the same way and keeps dot-product signs |
| Vectors.UnitVectorIsUnit | include/vec3.h:108 | with an exact `sqrt`, `unitVector` of a nonzero vector has length one |
| Vectors.UnitVectorPositiveScale | include/vec3.h:108 | `unitVector` scales a nonzero vector by a positive factor |
| Vectors.UnitVectorDotSign | include/vec3.h:108 | normalising keeps the sign of a dot product, both for `< 0` and for `== 0` |
| Vectors.UnitComponents | include/vec3.h:108 | every component of a unit vector lies in `[-1,1]` |
| Vectors.Reflect | include/vec3.h:140 | `v - 2 dot(v,n) n`; `Vectors.ReflectNormalComponent`, `Vectors.ReflectLength` and `Vectors.ReflectInvolution` state what it does for a unit normal |
| Vectors.ReflectNormalComponent | include/vec3.h:140 | for a unit normal, `reflect` negates the normal component |
| Vectors.ReflectLength | include/vec3.h:140 | for a unit normal, `reflect` keeps the length |
| Vectors.ReflectInvolution | include/vec3.h:140 | for a unit normal, reflecting twice returns the vector |
| Vectors.UnitDotAtLeastMinusOne | include/vec3.h:143 | the dot product of two unit vectors is at least `-1`, so the `fmin` cap only bounds it above |
| Vectors.Refract | include/vec3.h:142-148 | the perpendicular part `ratio (uv + cosTheta n)` plus the parallel part `-sqrt(abs(1 - lengthSquared(perp))) n`; `Vectors.RefractIdentity` states that ratio 1 leaves a unit direction meeting the surface unchanged |
| Vectors.LengthSquaredSubScale | include/vec3.h:144-145 | `lengthSquared(a - k b) == lengthSquared(a) - 2 k dot(a,b) + k^2 lengthSquared(b)`, the length of refraction's perpendicular part |
| Vectors.RefractIdentity | include/vec3.h:142-148 | `refract(uv, n, 1)` with unit `uv`, unit `n` and `dot(uv,n) <= 0` returns `uv` |
| Vectors.RandomInRange | include/vec3.h:48-50 | `Vec3::random(min,max)` puts every component in `[min,max)` |
| Vectors.RandomInUnitSphere | include/vec3.h:110-118 | the rejection loop returns the first candidate with squared length below one; every earlier candidate was rejected; None when every supplied candidate is rejected |
| Vectors.RandomInUnitDisk | include/vec3.h:120-128 | as above for the disk sampler, and the result has `z == 0` |
| Vectors.RandomInHemisphere | include/vec3.h:132-138 | the result has a non-negative dot product with the normal, the sample's length, and is the sample or its negation; a sample with a non-positive dot product, the tangent plane included, is negated |
| Vectors.RandomUnitVector | include/vec3.h:130 | the normalised unit-sphere sample; `Vectors.RandomUnitVectorIsUnit` states its length |
| Vectors.RandomUnitVectorIsUnit | include/vec3.h:130 | a nonzero sample normalises to length one |
| Rays.At | include/ray.h:12 | `at(t) - origin == t * direction`, and `at(0) == origin` |
| Rays.AccessorsReturnArguments | include/ray.h:9-14 | `origin()` and `direction()` return the constructor's arguments |
| Rays.AtAffine | include/ray.h:12 | `at(s + t) == at(s) + t * direction` |
| Hittables.SetFaceNormal | include/hittable.h:15-18 | `frontFace` iff `dot(direction, outwardNormal) < 0`; the normal is the outward normal on a front face and its negation otherwise; it opposes the ray and keeps its length; `p`, `t` and `matPtr` are unchanged |
| Materials.NewMetal | include/material.h:38 | the fuzz is `f` when `f < 1` and 1 otherwise, so it never exceeds 1 |
| Materials.LambertianScatter | include/material.h:18-30 | always scatters, from `rec.p`, with the albedo; the direction is `normal + sample` unless that is `nearZero`, and then it is the normal; the direction is `nearZero` only when the normal is |
| Materials.LambertianNeverDegenerate | include/material.h:19-24 | for a normal that is not `nearZero` the scattered direction is never the zero vector |
| Materials.MetalScatter | include/material.h:40-46 | scatters iff the scattered direction leaves the surface (`dot > 0`); attenuation is the albedo and origin `rec.p`; the direction is the reflected unit incoming direction plus `fuzz` times the unit-sphere sample, so with zero fuzz it is the mirror reflection |
| Materials.MetalMirror | include/material.h:41-42 | with zero fuzz and a unit normal, the scattered direction has unit length and the opposite normal component of the unit incoming direction, and the ray goes on exactly when it arrived against the normal |
| Materials.DielectricScatter | include/material.h:57-73 | always scatters, with attenuation `(1,1,1)`, from `rec.p`; reflects when refraction is impossible or the reflectance exceeds the draw, and refracts otherwise |
| Materials.RefractionRatio | include/material.h:61 | `1/ir` on the front face and `ir` on the back; `Materials.RefractionRatioFaces` states both |
| Materials.RefractionRatioFaces | include/material.h:61 | for `ir != 0` the back-face ratio is `ir` and the two faces' ratios multiply to one |
| Materials.TotalInternalReflectionIgnoresDraw | include/material.h:63-68 | when `refractionRatio * sinTheta > 1` the result does not depend on the random draw |
| Materials.SinThetaInUnit | include/material.h:64 | for a cosine in `[-1,1]` the computed sine lies in `[0,1]` |
| Materials.NoTotalInternalReflectionBelowOne | include/material.h:63-65 | a refraction ratio in `[0,1]` never triggers total internal reflection |
| Materials.RefractsWithinUnitSine | include/material.h:65 | a ratio and a sine both in `[0,1]` never make `cannotRefract` true |
| Materials.DielectricMatchedIndexPassesThrough | include/material.h:60-70 | with index 1 and a draw that does not trigger reflection, glass passes the unit incoming direction through unchanged |
| Materials.Pow5InUnit | include/material.h:82 | `pow(x,5)` lies in `[0,1]` for `x` in `[0,1]` |
| Materials.SchlickR0InUnit | include/material.h:80-81 | `r0 = ((1-r)/(1+r))^2` lies in `[0,1)` for `r > 0` |
| Materials.Reflectance | include/material.h:78-83 | Schlick's approximation `r0 + (1 - r0)(1 - cosine)^5`; `Materials.ReflectanceBounds`, `Materials.ReflectanceMatchedIndex` and `Materials.ReflectanceReciprocal` state its range, its zero and its symmetry; `Materials.DielectricScatter` evaluates it at the refraction ratio, as material.h:66 does, not at `_ir` |
| Materials.ReflectanceBounds | include/material.h:78-83 | for a cosine in `[0,1]` and `r > 0` the reflectance lies in `[r0, 1]` |
| Materials.ReflectanceMatchedIndex | include/material.h:78-83 | `reflectance(1, 1) == 0` |
| Materials.ReflectanceReciprocal | include/material.h:66 | Schlick's reflectance is the same at `r` and `1/r`, so passing the refraction ratio in place of the index changes nothing |
| Materials.Scatter | include/material.h:11 | the virtual `scatter`: the origin is the hit point; only Metal can absorb; the attenuation is the albedo of Lambertian and Metal and white for glass |
| Spheres.SelectRoot | include/sphere.h:34-40 | the chosen root lies in the closed window and is the near or the far root; the near root is taken whenever it is in the window; None iff neither root is in it |
| Spheres.RecordAt | include/sphere.h:42-46 | the record has `t`, `p == at(t)`, the sphere's material and a normal that opposes the ray |
| Spheres.HitResult | include/sphere.h:22-49 | a negative discriminant misses; a hit lies in `[tMin, tMax]`, carries the sphere's material, has `p == at(t)` and a normal opposing the ray |
| Spheres.Hit | include/sphere.h:22-49 | `hit` returns true iff `HitResult` is a hit, writes exactly that record on true, and leaves `rec` untouched on every false path |
| Spheres.HitResultMissed | include/sphere.h:29-39 | a negative discriminant, or no root in the window, reports nothing |
| Spheres.HitResultSelected | include/sphere.h:34-46 | the test reports the record of the root it selects |
| Spheres.SurfaceEquation | include/sphere.h:23-27 | `lengthSquared(at(t) - center) - radius^2 == a t^2 + 2 halfB t + c` for the half-b coefficients |
| Spheres.Coefficients | include/sphere.h:23-26 | `a`, `halfB`, `c` of the intersection equation; `Spheres.SurfaceEquation` states that they give the squared distance from the centre minus `radius^2` |
| Spheres.NearRoot | include/sphere.h:31-34 | `(-halfB - sqrt(d)) / a`; `Spheres.SolutionIsRoot`, `Spheres.RootIsSolution` and `Spheres.RootsOrdered` state that it solves the equation and is the smaller root |
| Spheres.FarRoot | include/sphere.h:31-37 | `(-halfB + sqrt(d)) / a`; the same lemmas state that it solves the equation and is the larger root |
| Spheres.SolutionIsQuot | include/sphere.h:31-37 | every solution is `(-h - s)/a` or `(-h + s)/a` for `s^2 = h^2 - a c` |
| Spheres.QuotIsSolution | include/sphere.h:31-37 | both quotients solve the equation |
| Spheres.SolutionsAreRoots | include/sphere.h:27-37 | with a nonzero `a`, `t` solves the equation iff the discriminant is non-negative and `t` is one of the two roots |
| Spheres.OnSphereSolves | include/sphere.h:23-27 | `at(t)` lies on the sphere iff `t` solves the intersection equation |
| Spheres.DirectionGivesQuadratic | include/sphere.h:24 | a nonzero direction makes `a` nonzero |
| Spheres.RootsSolve | include/sphere.h:31-37 | the near and far roots solve the quadratic |
| Spheres.RootsOnly | include/sphere.h:31-37 | every solution of the quadratic is the near or the far root |
| Spheres.SolutionNeedsDiscriminant | include/sphere.h:27-29 | a quadratic with a solution has a non-negative discriminant, so a negative one rules out every hit |
| Spheres.SolutionIsRoot | include/sphere.h:27-37 | with a nonzero `a`, a solution makes the discriminant non-negative and is one of the two roots |
| Spheres.RootIsSolution | include/sphere.h:27-37 | with a nonzero `a`, both roots solve the quadratic |
| Spheres.RootsOrdered | include/sphere.h:34-37 | the near root is no larger than the far root |
| Spheres.SurfacePointsAreRoots | include/sphere.h:23-37 | for a nonzero direction, `at(t)` lies on the sphere iff the discriminant is non-negative and `t` is one of the two roots |
| Spheres.HitOnSurface | include/sphere.h:42-43 | a hit point lies on the sphere |
| Spheres.HitIsNearest | include/sphere.h:34-40 | any point of the sphere in the window makes a hit, and the hit is no farther than that point |
| Spheres.MissMeansNoSurfacePoint | include/sphere.h:29-40 | on a miss, no point of the ray in the window lies on the sphere |
| Spheres.HitUnitNormal | include/sphere.h:44 | for a nonzero radius the stored normal has unit length |
| Spheres.OutwardNormalUnit | include/sphere.h:44 | on the surface, `(p - center) / radius` has unit length |
| Spheres.SelectRootShrink | include/sphere.h:34-40 | shrinking the upper bound keeps a hit that is still within it and finds nothing new |
| Spheres.HitShrink | include/sphere.h:34-40 | the same for a sphere: a hit in a smaller window is a hit in the larger one no farther away, and a hit in the larger window within the smaller bound is the same record |
| HittableLists.Closest | include/hittableList.h:26-31 | the narrowed upper bound is the hit so far, or `tMax` before any hit |
| HittableLists.ClosestHit | include/hittableList.h:23-37 | the scan's result lies in the window, and an empty list has none |
| HittableLists.HittableList.constructor | include/hittableList.h:11 | a new scene is empty |
| HittableLists.HittableList.Single | include/hittableList.h:12 | the one-object constructor adds the object |
| HittableLists.HittableList.Clear | include/hittableList.h:14 | `clear` empties the list |
| HittableLists.HittableList.Add | include/hittableList.h:15 | `add` appends at the end and keeps the earlier members in order |
| HittableLists.HittableList.Hit | include/hittableList.h:23-37 | the loop returns true iff `ClosestHit` is a hit, returns that record, and leaves `rec` unchanged when nothing is hit |
| HittableLists.ClosestHitIsLastNearest | include/hittableList.h:28-34 | nothing is hit iff no member is hit in the window; otherwise the result is some member's own hit, no farther than any earlier member's and strictly nearer than any later member's, so ties go to the later member |
| HittableLists.ExtendFirstHit | include/hittableList.h:29-33 | when only the last member is hit, it becomes the scene's hit |
| HittableLists.ExtendNearer | include/hittableList.h:29-33 | a last member hit no farther than the hit so far replaces it |
| HittableLists.ExtendFarther | include/hittableList.h:29-33 | a last member missed, or hit strictly farther, keeps the hit so far |
| HittableLists.SceneHitIsNearest | include/hittableList.h:28-34 | any surface point of any member in the window makes the scene hit, no farther than that point |
| HittableLists.SceneHitOnMember | include/hittableList.h:28-34 | the scene's hit point lies on a member and carries that member's material |
| HittableLists.SceneHitMaterial | include/hittableList.h:28-34 | the scene's hit carries the material of one of its members |
| HittableLists.ClosestNeverIncreases | include/hittableList.h:26-33 | `closestSoFar` starts at `tMax`, and scanning one more member never raises it |
| HittableLists.AddNotNearer | include/hittableList.h:15 | adding a member that is missed or hit strictly farther leaves the scene's hit unchanged |
| HittableLists.AddNearer | include/hittableList.h:15 | adding a member hit no farther than the scene's hit makes its hit the scene's hit |
| Cameras.Camera.constructor | include/camera.h:8-32 | the constructor as written: origin is `lookfrom`; `horizontal == focusDist*viewportWidth*u` and `vertical == focusDist*viewportHeight*v` for the computed frame; the viewport is centred `focusDist` along `-w`; `lensRadius == aperture/2`; the lens axes stay zero |
| Cameras.Camera.WithLens | include/camera.h:22-24 | the corrected constructor: the same state, with the frame's `u` and `v` stored as the lens axes |
| Cameras.Camera.GetRay | include/camera.h:34-42 | the ray leaves `origin + offset` and reaches the viewport point `lowerLeftCorner + s*horizontal + t*vertical` at parameter 1 |
| Cameras.ViewFrameOrthonormal | include/camera.h:22-24 | `w`, `u`, `v` are orthonormal whenever `lookfrom != lookat` and `vup` is not along `w` |
| Cameras.ViewFrame | include/camera.h:22-24 | `w = unit(lookfrom - lookat)`, `u = unit(cross(vup, w))`, `v = cross(w, u)`; `Cameras.ViewFrameOrthonormal` states that they are orthonormal |
| Cameras.RaysMeetAtTarget | include/camera.h:38-41 | every lens sample aims at the same viewport point |
| Cameras.CentreRay | include/camera.h:26-29 | the ray through the viewport's centre, plus its offset, is `-focusDist * w` |
| Cameras.PinholeAsWritten | include/camera.h:35-36 | with zero lens axes, every ray leaves the origin and does not depend on the disk sample |
| Cameras.LensOffsetWithinAperture | include/camera.h:35-36 | with orthonormal lens axes and a disk sample, the offset's squared length is `lensRadius^2` times the sample's squared length, so at most `lensRadius^2` |
| Cameras.OffsetLength | include/camera.h:36 | `lengthSquared(a u + b v) == a^2 + b^2` for orthonormal `u`, `v` |
| Cameras.LensSampleOffCentre | include/camera.h:36 | a planar sample off the centre, scaled by a positive radius, makes a nonzero offset |
| Cameras.LensMovesOrigin | include/camera.h:38-39 | with orthonormal lens axes and a positive aperture, every disk sample off the centre moves the ray's origin off `lookfrom` |
| Render.HitSphereSolvesScene | src/main.cpp:10-20 | `hitSphere` is `-1` on a negative discriminant and otherwise the near root of the sphere's quadratic |
| Render.HitSphere | src/main.cpp:10-20 | `-1` on a negative discriminant, else the near root; `Render.HitSphereSolvesScene` and `Render.HitSphereNearest` state what it returns |
| Render.HitSphereNearest | src/main.cpp:10-20 | `hitSphere` returns `-1` when no point of the ray lies on the sphere, and a negative discriminant is exactly that case; otherwise it returns the nearest surface parameter, a point on the sphere no farther along than any other, and that parameter may itself be `-1` |
| Render.RayColor | src/main.cpp:22-40 | no light is gathered once `depth <= 0`, whatever the world |
| Render.RayColorEmptyWorld | src/main.cpp:28-39 | an empty world shows the background |
| Render.RayColorMiss | src/main.cpp:28-39 | a ray meeting no member at or beyond `0.001` shows the background |
| Render.RayColorBounce | src/main.cpp:28-33 | a ray meeting some member bounces off the nearest such point, on a member with its material; the result is the attenuation times the estimate along the scattered ray at `depth - 1`, or black when the material absorbs |
| Render.RayColorInUnitCube | src/main.cpp:22-40 | when every albedo lies in `[0,1]`, every estimate lies in `[0,1]` in each channel |
| Render.RayColorReadsDepthDraws | src/main.cpp:26-32 | the recursion stops within `depth` levels: only the draws of levels `1..depth` affect the result |
| Render.SkyStraightUp | src/main.cpp:36-39 | direction `(0,1,0)` gives `(0.5,0.7,1.0)` |
| Render.SkyStraightDown | src/main.cpp:36-39 | direction `(0,-1,0)` gives `(1,1,1)` |
| Render.SkyBlend | src/main.cpp:36-39 | the background is `(1 - t/2, 1 - 0.3 t, 1)` for the blend factor `t` |
| Render.Sky | src/main.cpp:36-39 | the background blend; `Render.SkyStraightUp`, `Render.SkyStraightDown`, `Render.SkyBlend` and `Render.SkyBetween` state its values and range |
| Render.SkyBetween | src/main.cpp:36-39 | each background component lies between the sky-blue and the white component |

## Left out

- IEEE-754 arithmetic. The model computes on exact reals, so it says nothing about rounding, NaN or overflow.
- Division by zero. IEEE division by zero gives an infinity or NaN, but the model's `Inv(0)` is 0. Lemmas such as `Spheres.SurfacePointsAreRoots`, `Vectors.UnitVectorIsUnit` and `Spheres.HitUnitNormal` require a nonzero divisor, and their statements are facts of real arithmetic. The following lemmas also cover a zero divisor, and there they hold only by the `Inv(0) == 0` convention, not as IEEE arithmetic:
  - `Render.SkyBetween`, and `Render.RayColorInUnitCube` through it, for a zero direction. The source's background there is `0 * (1/0.0)`, which is NaN in each channel (include/vec3.h:94,108; src/main.cpp:36-39).
  - `Spheres.RootsOrdered` for `a == 0`. The model's roots are both 0; the source's are NaN.
  - `Spheres.HitShrink`, `HittableLists.ClosestHitIsLastNearest`, `HittableLists.ExtendFirstHit`, `HittableLists.ExtendNearer`, `HittableLists.ExtendFarther`, `HittableLists.ClosestNeverIncreases`, `HittableLists.AddNotNearer` and `HittableLists.AddNearer` for a zero-direction ray. The model's roots are at `t == 0`. The source's roots are NaN, and the rejection tests `root < tMin || tMax < root` (include/sphere.h:36,38) are false for NaN, so the source accepts them.
- `sqrt`, `tan` and `pow` as library functions. `sqrt` and `tan` are parameters; the square-root lemmas assume `IsSqrt`; `pow(x,5)` is a product.
- `rand()`, `randomSmallDouble` and the `mt19937` generator. Every draw is an argument. `UnitDraw` models the `rand()/(RAND_MAX+1.0)` mapping for a given `rand()` result.
- The `while (true)` rejection loops. They are modelled over a finite sequence of candidate draws and return None when all are rejected, because the real loop's termination is only probabilistic.
- `Vec3::operator[]`, `x()`, `y()`, `z()`. These are accessors, replaced by the datatype's fields.
- `operator<<`. This is stream output.
- `include/color.h`. This is output formatting.
- `random_scene` and `main`'s render loop. These are scene construction and I/O.
- Threads and shared-pointer ownership. The code has no threads, and materials are values here.
- `Hittable` polymorphism. The scene holds spheres only, the one kind of object there is. `Material`'s virtual dispatch is a match over a sum type.
- The default constructors `Sphere()` and `Ray()`. No sphere is built with `Sphere()`. The one default ray, `scattered` in `rayColor` (src/main.cpp:29), is overwritten by every material's `scatter` before it is read, so the model returns the scattered ray as a value instead.
- A null `matPtr`. Dereferencing one in `rayColor` is undefined in the source. In the model it yields black. It cannot happen, because every hit carries its sphere's material: `HittableLists.SceneHitMaterial`.
- The scene's `hit` window is not modelled as open. `Sphere::hit` rejects a root only when `root < tMin || tMax < root` (include/sphere.h:36,38), so a root equal to either end is accepted and the window is closed at both ends.
- The Metal fuzz is not clamped below. `Metal`'s constructor caps the fuzz only above, with `f < 1 ? f : 1` (include/material.h:38), so a negative fuzz is kept.
- Render.RayColor: the draws are indexed by the remaining depth. The source draws them one after another from a global generator. The model's indexing fixes which draw each bounce uses but does not model their distribution.

## Findings

| source | as written | input that shows it | evidently intended | confidence | as-written member | corrected member |
|---|---|---|---|---|---|---|
| include/camera.h:22-24 | the constructor computes the frame into locals `u` and `v` but never assigns the members `_u`, `_v` (include/camera.h:49); these stay at the zero default, so `getRay`'s lens offset is always zero and the aperture has no effect | any camera with `aperture > 0` and any disk sample `(0.5, 0, 0)`: the ray still leaves `lookfrom` | store the frame's `u`, `v` in `_u`, `_v`, so that a positive aperture moves each ray's origin within the lens disk | not executed | Cameras.Camera.constructor, Cameras.PinholeAsWritten | Cameras.Camera.WithLens, Cameras.LensMovesOrigin |
