# Ray core of the SDRaytracer, in Dafny

This project models the class `Ray` of a small recursive (Whitted-style) ray tracer:

- the Möller–Trumbore ray/triangle test `intersect`;
- the nearest-hit scan `hitObject`;
- the depth-bounded trace `rayTrace`;
- the shading `lighting`, which sends one shadow probe per light and traces one mirror reflection.

Arithmetic is over exact reals, not single-precision floats. The tolerance `IPoint.epsilon` is a parameter of type `Tolerance`, a real known only to be positive. The no-hit record keeps the source's form: the sentinel `IPoint(None, None, -1)` (`Scene.Miss`).

Modules, leaves first:

- `Vectors` (`vectors.dfy`): a real triple with sum, difference, scaling, and dot and cross products. It stands in for `Vec3D`.
- `Scene` (`scene.dfy`): triangles, lights, colours and the intersection record `IPoint`. It also declares `Ops`, which holds the three primitives whose code is not visible: vector normalisation, `Math.pow` and `RGB.addColors`. They are passed in as function values, so the model assumes nothing about them.
- `Intersection` (`intersection.dfy`): `intersect`, written as a function of the ray's origin and direction, which are the only fields it reads.
- `NearestHit` (`nearest.dfy`): the scan of `hitObject` as a left fold (`Nearest`), plus what the scan computes.
- `Shading` (`shading.dfy`): `rayTrace` and `lighting` as mutually recursive functions (`Trace`, `Shade`). They terminate by the measure `Budget(rec, maxRec)`, which is `maxRec - rec + 1` until the bound is passed. The light loop is written as the sequence of terms it adds (`Contributions`), which are folded into the colour with `addColors` (`Blend`).
- `Rays` (`rays.dfy`): the class `Ray`, with fields `start` and `dir`, the setters, and `Normalize`. It also holds the static methods `HitObject`, `RayTrace` and `Lighting`, written as the source writes them:
  - a loop that keeps a running best record and its distance;
  - a scratch shadow ray whose two fields are overwritten for every light;
  - a fresh reflection ray.

  Each method is proved equal to its specification function.

Two facts about the code that the model keeps as written:

- **Shadow-probe direction.** The code computes the probe direction as `light.position.minus(point).mult(-1)` (`src/Geometries/Ray.java:87`), which is `point - light.position` and points away from the light. `Shading.ShadowDir` models it as written.
- **Hit distance.** Every hit has a distance of at least epsilon (`src/Geometries/Ray.java:47`), and the contracts state that bound.

## Model

| member | source | states |
|---|---|---|
| `Intersection.Intersect` | src/Geometries/Ray.java:28-52 | A ray whose determinant lies strictly between -epsilon and epsilon misses, wherever it starts. The result is a hit exactly when all four guards pass (determinant, `u` in [0,1], `v >= 0` with `u+v <= 1`, distance at least epsilon). A hit carries the tested triangle, has `0 <= u`, `0 <= v`, `u+v <= 1`, has the point `p1*(1-u-v) + p2*u + p3*v` and a distance of at least epsilon. The distance is -1 exactly on the sentinel. |
| `Intersection.HitOnRay` | src/Geometries/Ray.java:30-49 | The barycentric hit point equals `start + dist * dir`, so the point and the distance describe the same crossing of the ray (Cramer's rule for the Möller–Trumbore system). |
| `Intersection.CrossingOnRay` | src/Geometries/Ray.java:30-49 | For any non-zero determinant, the barycentric point at weights `u`, `v` is the ray's point at the computed distance. |
| `Intersection.CrossingUnique` | src/Geometries/Ray.java:30-49 | When the determinant is non-zero and the ray's point at distance `d` is the barycentric point `(u, v)`, the test computes exactly `u`, `v` and `d`. |
| `Intersection.CrossingIsHit` | src/Geometries/Ray.java:28-52 | Completeness of the test: a ray with determinant outside `(-epsilon, epsilon)` that crosses the triangle at weights `u, v >= 0` with `u + v <= 1`, at a distance of at least epsilon, is reported as exactly that hit, with that point and that distance. |
| `Intersection.CrossingOutsideIsMiss` | src/Geometries/Ray.java:34-48 | A ray whose crossing with the triangle's plane lies outside the triangle, or nearer than epsilon, is a miss. With `CrossingIsHit` and `HitOnRay`, a hit is reported exactly when the ray crosses the triangle at distance at least epsilon (for a determinant outside `(-epsilon, epsilon)`). |
| `Intersection.CentroidIsHit` | src/Geometries/Ray.java:28-52 | Example: on the right triangle `(0,0,0)`, `(1,0,0)`, `(0,1,0)`, a ray along the normal through the centroid, starting one unit below the plane, hits the centroid `(1/3, 1/3, 0)` at distance 1, for every epsilon up to 1. |
| `NearestHit.Step` | src/Geometries/Ray.java:58-65 | One scan step leaves the running best unchanged or replaces it with the record of the current triangle. |
| `NearestHit.Nearest` | src/Geometries/Ray.java:54-68 | The scan returns the sentinel or a hit on a triangle of the list, with a point and a distance of at least epsilon. |
| `NearestHit.NearestMissIff` | src/Geometries/Ray.java:55-66 | The scan returns the sentinel exactly when the ray misses every triangle. Its distance is -1 exactly when it is the sentinel. |
| `NearestHit.NearestIsFirstMinimum` | src/Geometries/Ray.java:57-65 | A scan that hits returns the record of some triangle `k`. No hit in the list is nearer than `k`, and every hit before `k` is strictly farther, so on ties the first triangle in list order wins. |
| `NearestHit.FirstNearestUnique` | src/Geometries/Ray.java:60 | At most one index is the first nearest hit, so that characterisation determines the scan's result. |
| `NearestHit.FirstNearestKept` | src/Geometries/Ray.java:60 | A last triangle that is missed, or hit no nearer, leaves the first nearest index unchanged. |
| `NearestHit.FirstNearestReplaced` | src/Geometries/Ray.java:60-64 | A last triangle hit strictly nearer than every earlier hit becomes the first nearest. |
| `Rays.Ray.HitObject` | src/Geometries/Ray.java:54-68 | The loop returns `Nearest`. An empty list gives the sentinel. The distance is -1 exactly when every triangle is missed. Otherwise the result is the record of the first nearest triangle. Loop invariants: `isect` is the fold over the prefix scanned so far, and `idist == isect.dist`. |
| `Rays.Ray.RayTrace` | src/Geometries/Ray.java:70-78 | Returns `Trace`. It is black, with no scene scan at all, when `rec > maxRec`. It is black whenever the nearest hit's distance is at most epsilon. The ghost count `depth` of nested recursive traces that the actual calls make equals `ReflectionDepth` and is at most `Budget(rec, maxRec)`, so from depth 0 at most `maxRec + 1`. |
| `Rays.Ray.Lighting` | src/Geometries/Ray.java:80-105 | Returns `Shade`. Its ghost count `depth` is the `ReflectionDepth` of the reflection ray at `rec + 1`. Loop invariant: after `i` lights the colour is the blend of the base colour with the terms of the first `i` lights. The single recursive call is at `rec + 1`. |
| `Rays.Ray.constructor` | src/Geometries/Ray.java:11-12 | A new ray starts at the origin with a zero direction. |
| `Rays.Ray.SetStart` | src/Geometries/Ray.java:15-17 | Sets the origin and leaves the direction unchanged. |
| `Rays.Ray.SetDir` | src/Geometries/Ray.java:19-21 | Sets the direction and leaves the origin unchanged. |
| `Rays.Ray.Normalize` | src/Geometries/Ray.java:23-25 | Replaces the direction by its normalisation and leaves the origin unchanged. |
| `Scene.Max0` | src/Geometries/Ray.java:91 | `Math.max(0, x)`: at least 0 and at least `x`, and equal to one of them. |
| `Shading.Contributions` | src/Geometries/Ray.java:85-94 | The light loop adds at most one term per light, and every weight `max(0, dir·normal)` is non-negative. |
| `Shading.LightStep` | src/Geometries/Ray.java:86-93 | One turn of the light loop: a shadow probe whose nearest distance is below epsilon adds the light's colour with weight `max(0, shadowDir·normal)`. Any other probe leaves the colour alone. Either way the colour is the blend over one more light. |
| `Shading.ContributionsAppend` | src/Geometries/Ray.java:85-94 | The terms of a split light list are the terms of each part in order. Each light's term depends on that light alone. |
| `Shading.UnshadowedIffClear` | src/Geometries/Ray.java:89-90 | A probe counts as unshadowed exactly when it hits no triangle at all. A probe never reports a hit nearer than epsilon, so any occluder blocks the light. |
| `Shading.NoContributionsIffAllShadowed` | src/Geometries/Ray.java:85-94 | No light adds anything exactly when every light is shadowed. |
| `Shading.AllShadowedDirectIsBase` | src/Geometries/Ray.java:83-94 | With every light shadowed, the colour before reflection is the triangle's colour blended with the ambient term. |
| `Shading.ReflectionDepth` | src/Geometries/Ray.java:70-78 | Follows the recursion of `Trace` and `Shade` and counts its levels: at most `Budget(rec, maxRec)`. `Rays.Ray.RayTrace` and `Rays.Ray.Lighting` return this count for the calls they actually make. |
| `Shading.TraceOfMissIsBlack` | src/Geometries/Ray.java:73-77 | A ray that misses every triangle traces to black. |
| `Shading.LastLevelReflectsBlack` | src/Geometries/Ray.java:95-103 | At depth `rec == maxRec` the reflected colour passed to the last `addColors` is `Black`. |

## Left out

- Floating-point behaviour: single-precision rounding, `1 / a` in floats, and the exact `== -1` float comparisons. All arithmetic is over reals.
- The value of `IPoint.epsilon`: it is not visible, and only its positivity is assumed.
- Vector normalisation, `Math.pow` and `RGB.addColors`: their code is not part of this model. They are uninterpreted parameters (`Scene.Ops`), and only the non-negativity of the bases passed to `pow` and of the light weights passed to `addColors` is stated. The reflection weight, the result of `pow`, is unconstrained.
- `Vec3D`, `Triangle`, `Light`, `RGB` and `IPoint` are not part of this model. They are immutable values here. The model assumes `minus`, `mult`, `add`, `dot` and `cross` return new vectors and do not change their receiver.
- Colour magnitudes: claims such as "removing an occluder brightens the point", or the exact colour of a lit triangle, depend on the unseen `RGB.addColors` and are not stated.
- Aliasing of vector objects: for example, `shadow_ray.start = point` shares the hit point's object. Values cannot alias, and in the source nothing writes through the alias after it is made.
- `Rays.Ray.HitObject`: the in-place writes to the fields of the local record `isect` are modelled as successive field updates of a value. The record is freshly made and never shared, so no caller can observe the difference.
- `Rays.Ray.Lighting`: requires the record to carry a triangle and a point. On the sentinel the source would fail with a null dereference, and its only caller never passes one.
- `Rays.Ray.RayTrace`: `rec` is an unbounded integer, so the 32-bit wrap-around of `rec + 1` is not modelled. That wrap-around could only occur with `maxRec` equal to the largest `int`.
- The static colour `black` is the constant `Scene.Black`.
- The unused `java.awt` import and the commented-out debug line are left out.
