/** The Möller–Trumbore ray/triangle test of `Ray.intersect`, over exact reals.
    The test reads only the ray's two fields, so it is a function of them. */
module Intersection {
  import opened Vectors
  import opened Scene

  /** The determinant `a = e1 · (dir × e2)`; near zero when the ray is parallel
      to the triangle's plane or the triangle is degenerate. */
  function Determinant(dir: Vec3, t: Triangle): real {
    t.p2.Minus(t.p1).Dot(dir.Cross(t.p3.Minus(t.p1)))
  }

  /** The barycentric weight `u` of the crossing of the ray with the plane. */
  function BaryU(start: Vec3, dir: Vec3, t: Triangle): real
    requires Determinant(dir, t) != 0.0
  {
    (1.0 / Determinant(dir, t)) * start.Minus(t.p1).Dot(dir.Cross(t.p3.Minus(t.p1)))
  }

  /** The barycentric weight `v` of the crossing. */
  function BaryV(start: Vec3, dir: Vec3, t: Triangle): real
    requires Determinant(dir, t) != 0.0
  {
    (1.0 / Determinant(dir, t)) * dir.Dot(start.Minus(t.p1).Cross(t.p2.Minus(t.p1)))
  }

  /** The signed distance along the ray (in units of `dir`) to the crossing. */
  function Distance(start: Vec3, dir: Vec3, t: Triangle): real
    requires Determinant(dir, t) != 0.0
  {
    (1.0 / Determinant(dir, t)) * t.p3.Minus(t.p1).Dot(start.Minus(t.p1).Cross(t.p2.Minus(t.p1)))
  }

  /** The point of the triangle with barycentric weights `(1-u-v, u, v)`. */
  function Interpolate(t: Triangle, u: real, v: real): Vec3 {
    t.p1.Mult(1.0 - u - v).Add(t.p2.Mult(u)).Add(t.p3.Mult(v))
  }

  /** All four guards of the test let the ray through. */
  predicate Accepts(start: Vec3, dir: Vec3, t: Triangle, eps: Tolerance) {
    var a := Determinant(dir, t);
    (a <= -(eps as real) || a >= eps) &&
    0.0 <= BaryU(start, dir, t) <= 1.0 &&
    0.0 <= BaryV(start, dir, t) && BaryU(start, dir, t) + BaryV(start, dir, t) <= 1.0 &&
    Distance(start, dir, t) >= eps
  }

  /** `Ray.intersect`: the sentinel `Miss` unless every guard passes, in which case
      the record of `t`, the interpolated point and the distance. */
  function Intersect(start: Vec3, dir: Vec3, t: Triangle, eps: Tolerance): (r: IPoint)
    // a ray parallel to the plane misses, wherever it starts
    ensures -(eps as real) < Determinant(dir, t) < eps ==> r == Miss
    // the result is a hit exactly when all guards pass
    ensures r != Miss <==> Accepts(start, dir, t, eps)
    // a hit lies inside the triangle, beyond epsilon, and carries `t`
    ensures r != Miss ==>
              var u, v := BaryU(start, dir, t), BaryV(start, dir, t);
              0.0 <= u && 0.0 <= v && u + v <= 1.0 &&
              r == IPoint(Some(t), Some(Interpolate(t, u, v)), Distance(start, dir, t)) &&
              r.dist >= eps
    // the distance alone tells a hit from a miss
    ensures r.dist == -1.0 <==> r == Miss
  {
    var a := Determinant(dir, t);
    if -(eps as real) < a && a < eps then Miss
    else
      var u := BaryU(start, dir, t);
      if u < 0.0 || u > 1.0 then Miss
      else
        var v := BaryV(start, dir, t);
        if v < 0.0 || u + v > 1.0 then Miss
        else
          var dist := Distance(start, dir, t);
          if dist < eps then Miss
          else IPoint(Some(t), Some(Interpolate(t, u, v)), dist)
  }

  /** Cramer's rule for the system `u e1 + v e2 - dist d = s`, multiplied out by
      its determinant `a = e1 · (d × e2)`, one lemma per coordinate; the
      numerators and the determinant are passed in by name. */
  lemma CramerX(d: Vec3, e1: Vec3, e2: Vec3, s: Vec3, x: real, y: real, z: real, a: real)
    requires x == s.Dot(d.Cross(e2)) && y == d.Dot(s.Cross(e1)) && z == e2.Dot(s.Cross(e1))
    requires a == e1.Dot(d.Cross(e2))
    ensures x * e1.x + y * e2.x - z * d.x == a * s.x
  {
  }

  lemma CramerY(d: Vec3, e1: Vec3, e2: Vec3, s: Vec3, x: real, y: real, z: real, a: real)
    requires x == s.Dot(d.Cross(e2)) && y == d.Dot(s.Cross(e1)) && z == e2.Dot(s.Cross(e1))
    requires a == e1.Dot(d.Cross(e2))
    ensures x * e1.y + y * e2.y - z * d.y == a * s.y
  {
  }

  lemma CramerZ(d: Vec3, e1: Vec3, e2: Vec3, s: Vec3, x: real, y: real, z: real, a: real)
    requires x == s.Dot(d.Cross(e2)) && y == d.Dot(s.Cross(e1)) && z == e2.Dot(s.Cross(e1))
    requires a == e1.Dot(d.Cross(e2))
    ensures x * e1.z + y * e2.z - z * d.z == a * s.z
  {
  }

  /** One coordinate of the hit point: given the multiplied-out Cramer identity for
      that coordinate, the barycentric combination `(1-u-v) c1 + u c2 + v c3` of the
      vertex coordinates equals the coordinate `o + dist * d` of the ray's point. */
  lemma CoordinateOnRay(c1: real, c2: real, c3: real, o: real, d: real, e1: real, e2: real, s: real,
                        a: real, x: real, y: real, z: real, u: real, v: real, dist: real)
    requires e1 == c2 - c1 && e2 == c3 - c1 && s == o - c1
    requires a != 0.0
    requires u == (1.0 / a) * x && v == (1.0 / a) * y && dist == (1.0 / a) * z
    requires x * e1 + y * e2 - z * d == a * s
    ensures (1.0 - u - v) * c1 + u * c2 + v * c3 == o + dist * d
  {
    var f := 1.0 / a;
    assert f * a == 1.0;
    calc {
      (1.0 - u - v) * c1 + u * c2 + v * c3;
      c1 + u * e1 + v * e2;
      c1 + f * (x * e1 + y * e2);
      c1 + f * (a * s + z * d);
      { assert f * (a * s) == (f * a) * s; }
      c1 + s + f * z * d;
      o + dist * d;
    }
  }

  /** The barycentric weights and the distance are the numerators `x = s · p`,
      `y = dir · q` and `z = e2 · q` divided by the determinant `a`, with `e1`, `e2`
      the edges from `p1`, `s = start - p1`, `p = dir × e2` and `q = s × e1`;
      one lemma per quotient. */
  lemma QuotientU(start: Vec3, dir: Vec3, t: Triangle, a: real, x: real)
    requires a == Determinant(dir, t) && a != 0.0
    requires x == start.Minus(t.p1).Dot(dir.Cross(t.p3.Minus(t.p1)))
    ensures BaryU(start, dir, t) == (1.0 / a) * x
  {
  }

  lemma QuotientV(start: Vec3, dir: Vec3, t: Triangle, a: real, y: real)
    requires a == Determinant(dir, t) && a != 0.0
    requires y == dir.Dot(start.Minus(t.p1).Cross(t.p2.Minus(t.p1)))
    ensures BaryV(start, dir, t) == (1.0 / a) * y
  {
  }

  lemma QuotientDistance(start: Vec3, dir: Vec3, t: Triangle, a: real, z: real)
    requires a == Determinant(dir, t) && a != 0.0
    requires z == t.p3.Minus(t.p1).Dot(start.Minus(t.p1).Cross(t.p2.Minus(t.p1)))
    ensures Distance(start, dir, t) == (1.0 / a) * z
  {
  }

  /** The coordinates of a barycentric point, written out. */
  lemma InterpolateCoordinates(t: Triangle, u: real, v: real, w: Vec3)
    requires w == Interpolate(t, u, v)
    ensures w.x == (1.0 - u - v) * t.p1.x + u * t.p2.x + v * t.p3.x
    ensures w.y == (1.0 - u - v) * t.p1.y + u * t.p2.y + v * t.p3.y
    ensures w.z == (1.0 - u - v) * t.p1.z + u * t.p2.z + v * t.p3.z
  {
  }

  /** The x coordinate of the barycentric crossing with weights `u`, `v` is that
      of `start + dist * dir`, when `u`, `v` and `dist` are the Cramer quotients. */
  lemma CrossingX(start: Vec3, dir: Vec3, t: Triangle, e1: Vec3, e2: Vec3, s: Vec3,
                   a: real, x: real, y: real, z: real, u: real, v: real, dist: real)
    requires e1 == t.p2.Minus(t.p1) && e2 == t.p3.Minus(t.p1) && s == start.Minus(t.p1)
    requires a != 0.0 && x * e1.x + y * e2.x - z * dir.x == a * s.x
    requires u == (1.0 / a) * x && v == (1.0 / a) * y && dist == (1.0 / a) * z
    ensures Interpolate(t, u, v).x == start.Add(dir.Mult(dist)).x
  {
    InterpolateCoordinates(t, u, v, Interpolate(t, u, v));
    CoordinateOnRay(t.p1.x, t.p2.x, t.p3.x, start.x, dir.x, e1.x, e2.x, s.x, a, x, y, z, u, v, dist);
  }

  /** The y coordinate of the barycentric crossing with weights `u`, `v` is that
      of `start + dist * dir`, when `u`, `v` and `dist` are the Cramer quotients. */
  lemma CrossingY(start: Vec3, dir: Vec3, t: Triangle, e1: Vec3, e2: Vec3, s: Vec3,
                   a: real, x: real, y: real, z: real, u: real, v: real, dist: real)
    requires e1 == t.p2.Minus(t.p1) && e2 == t.p3.Minus(t.p1) && s == start.Minus(t.p1)
    requires a != 0.0 && x * e1.y + y * e2.y - z * dir.y == a * s.y
    requires u == (1.0 / a) * x && v == (1.0 / a) * y && dist == (1.0 / a) * z
    ensures Interpolate(t, u, v).y == start.Add(dir.Mult(dist)).y
  {
    InterpolateCoordinates(t, u, v, Interpolate(t, u, v));
    CoordinateOnRay(t.p1.y, t.p2.y, t.p3.y, start.y, dir.y, e1.y, e2.y, s.y, a, x, y, z, u, v, dist);
  }

  /** The z coordinate of the barycentric crossing with weights `u`, `v` is that
      of `start + dist * dir`, when `u`, `v` and `dist` are the Cramer quotients. */
  lemma CrossingZ(start: Vec3, dir: Vec3, t: Triangle, e1: Vec3, e2: Vec3, s: Vec3,
                   a: real, x: real, y: real, z: real, u: real, v: real, dist: real)
    requires e1 == t.p2.Minus(t.p1) && e2 == t.p3.Minus(t.p1) && s == start.Minus(t.p1)
    requires a != 0.0 && x * e1.z + y * e2.z - z * dir.z == a * s.z
    requires u == (1.0 / a) * x && v == (1.0 / a) * y && dist == (1.0 / a) * z
    ensures Interpolate(t, u, v).z == start.Add(dir.Mult(dist)).z
  {
    InterpolateCoordinates(t, u, v, Interpolate(t, u, v));
    CoordinateOnRay(t.p1.z, t.p2.z, t.p3.z, start.z, dir.z, e1.z, e2.z, s.z, a, x, y, z, u, v, dist);
  }

  /** Whenever the determinant is non-zero, the barycentric point with weights
      `BaryU`, `BaryV` is the point `start + Distance * dir` of the ray. */
  lemma CrossingOnRay(start: Vec3, dir: Vec3, t: Triangle)
    requires Determinant(dir, t) != 0.0
    ensures Interpolate(t, BaryU(start, dir, t), BaryV(start, dir, t)) == start.Add(dir.Mult(Distance(start, dir, t)))
  {
    var e1, e2, s := t.p2.Minus(t.p1), t.p3.Minus(t.p1), start.Minus(t.p1);
    var a := Determinant(dir, t);
    var x, y, z := s.Dot(dir.Cross(e2)), dir.Dot(s.Cross(e1)), e2.Dot(s.Cross(e1));
    var u, v, dist := BaryU(start, dir, t), BaryV(start, dir, t), Distance(start, dir, t);
    QuotientU(start, dir, t, a, x);
    QuotientV(start, dir, t, a, y);
    QuotientDistance(start, dir, t, a, z);
    CramerX(dir, e1, e2, s, x, y, z, a);
    CramerY(dir, e1, e2, s, x, y, z, a);
    CramerZ(dir, e1, e2, s, x, y, z, a);
    CrossingX(start, dir, t, e1, e2, s, a, x, y, z, u, v, dist);
    CrossingY(start, dir, t, e1, e2, s, a, x, y, z, u, v, dist);
    CrossingZ(start, dir, t, e1, e2, s, a, x, y, z, u, v, dist);
  }

  /** Every hit point lies on the ray: it is `start + dist * dir`, so the barycentric
      point returned by the test and its distance describe the same crossing. */
  lemma HitOnRay(start: Vec3, dir: Vec3, t: Triangle, eps: Tolerance)
    requires Intersect(start, dir, t, eps) != Miss
    ensures Intersect(start, dir, t, eps).ipoint == Some(start.Add(dir.Mult(Intersect(start, dir, t, eps).dist)))
  {
    CrossingOnRay(start, dir, t);
  }

  /** A point of the ray that is the barycentric point `(u, v)` of the triangle
      puts the offset `s = start - p1` in the span of the edges and `dir`. */
  lemma OffsetOfCrossing(start: Vec3, dir: Vec3, t: Triangle, u: real, v: real, d: real)
    requires start.Add(dir.Mult(d)) == Interpolate(t, u, v)
    ensures start.Minus(t.p1) == t.p2.Minus(t.p1).Mult(u).Add(t.p3.Minus(t.p1).Mult(v)).Minus(dir.Mult(d))
  {
    InterpolateCoordinates(t, u, v, Interpolate(t, u, v));
  }

  /** With `s = u e1 + v e2 - d dir`, the three Cramer numerators are `u a`, `v a`
      and `d a`, for the determinant `a = e1 · (dir × e2)`. */
  lemma NumeratorU(dir: Vec3, e1: Vec3, e2: Vec3, s: Vec3, u: real, v: real, d: real, a: real, x: real)
    requires s == e1.Mult(u).Add(e2.Mult(v)).Minus(dir.Mult(d))
    requires a == e1.Dot(dir.Cross(e2)) && x == s.Dot(dir.Cross(e2))
    ensures x == u * a
  {
    DotCombination(e1, e2, dir, u, v, d, dir.Cross(e2));
    CrossOrthogonal(dir, e2);
  }

  lemma NumeratorV(dir: Vec3, e1: Vec3, e2: Vec3, s: Vec3, u: real, v: real, d: real, a: real, y: real)
    requires s == e1.Mult(u).Add(e2.Mult(v)).Minus(dir.Mult(d))
    requires a == e1.Dot(dir.Cross(e2)) && y == dir.Dot(s.Cross(e1))
    ensures y == v * a
  {
    TripleCyclic(dir, s, e1);
    DotCombination(e1, e2, dir, u, v, d, e1.Cross(dir));
    CrossOrthogonal(e1, dir);
    TripleCyclic(e2, e1, dir);
  }

  lemma NumeratorDistance(dir: Vec3, e1: Vec3, e2: Vec3, s: Vec3, u: real, v: real, d: real, a: real, z: real)
    requires s == e1.Mult(u).Add(e2.Mult(v)).Minus(dir.Mult(d))
    requires a == e1.Dot(dir.Cross(e2)) && z == e2.Dot(s.Cross(e1))
    ensures z == d * a
  {
    TripleCyclic(e2, s, e1);
    DotCombination(e1, e2, dir, u, v, d, e1.Cross(e2));
    CrossOrthogonal(e1, e2);
    TripleCyclic(dir, e1, e2);
    TripleSwap(e1, dir, e2);
  }

  /** Dividing `k a` by a non-zero `a` gives back `k`. */
  lemma Cancel(a: real, k: real, q: real)
    requires a != 0.0 && q == (1.0 / a) * (k * a)
    ensures q == k
  {
  }

  /** The crossing is unique: when the ray's point at `d` is the barycentric point
      `(u, v)` and the determinant is non-zero, the test computes exactly `u`, `v`
      and `d`. */
  lemma CrossingUnique(start: Vec3, dir: Vec3, t: Triangle, u: real, v: real, d: real)
    requires Determinant(dir, t) != 0.0
    requires start.Add(dir.Mult(d)) == Interpolate(t, u, v)
    ensures BaryU(start, dir, t) == u && BaryV(start, dir, t) == v && Distance(start, dir, t) == d
  {
    var e1, e2, s := t.p2.Minus(t.p1), t.p3.Minus(t.p1), start.Minus(t.p1);
    var a := Determinant(dir, t);
    var x, y, z := s.Dot(dir.Cross(e2)), dir.Dot(s.Cross(e1)), e2.Dot(s.Cross(e1));
    OffsetOfCrossing(start, dir, t, u, v, d);
    NumeratorU(dir, e1, e2, s, u, v, d, a, x);
    NumeratorV(dir, e1, e2, s, u, v, d, a, y);
    NumeratorDistance(dir, e1, e2, s, u, v, d, a, z);
    QuotientU(start, dir, t, a, x);
    QuotientV(start, dir, t, a, y);
    QuotientDistance(start, dir, t, a, z);
    Cancel(a, u, BaryU(start, dir, t));
    Cancel(a, v, BaryV(start, dir, t));
    Cancel(a, d, Distance(start, dir, t));
  }

  /** The test is complete: a ray that is not parallel to the plane (the determinant
      is outside `(-epsilon, epsilon)`) and crosses the triangle, at barycentric
      weights `u, v >= 0` with `u + v <= 1`, at a distance `d` of at least epsilon,
      is reported as that hit, with that point and that distance. */
  lemma CrossingIsHit(start: Vec3, dir: Vec3, t: Triangle, eps: Tolerance, u: real, v: real, d: real)
    requires Determinant(dir, t) <= -(eps as real) || Determinant(dir, t) >= eps
    requires start.Add(dir.Mult(d)) == Interpolate(t, u, v)
    requires 0.0 <= u && 0.0 <= v && u + v <= 1.0 && d >= eps
    ensures Intersect(start, dir, t, eps) == IPoint(Some(t), Some(Interpolate(t, u, v)), d)
  {
    CrossingUnique(start, dir, t, u, v, d);
  }

  /** Conversely, a ray whose crossing with the plane at distance `d` lies outside
      the triangle, or nearer than epsilon, is a miss, whatever its determinant. */
  lemma CrossingOutsideIsMiss(start: Vec3, dir: Vec3, t: Triangle, eps: Tolerance, u: real, v: real, d: real)
    requires start.Add(dir.Mult(d)) == Interpolate(t, u, v)
    requires u < 0.0 || v < 0.0 || u + v > 1.0 || d < eps
    ensures Intersect(start, dir, t, eps) == Miss
  {
    if Determinant(dir, t) != 0.0 {
      CrossingUnique(start, dir, t, u, v, d);
    }
  }

  /** The right triangle `(0,0,0)`, `(1,0,0)`, `(0,1,0)` in the plane `z = 0`. */
  predicate IsUnitTriangle(t: Triangle) {
    t.p1 == Vec3(0.0, 0.0, 0.0) && t.p2 == Vec3(1.0, 0.0, 0.0) && t.p3 == Vec3(0.0, 1.0, 0.0)
  }

  lemma UnitDeterminant(dir: Vec3, t: Triangle)
    requires IsUnitTriangle(t) && dir == Vec3(0.0, 0.0, 1.0)
    ensures Determinant(dir, t) == -1.0
  {
  }

  /** On the unit triangle the barycentric point with weights `(w, w)` is `(w, w, 0)`. */
  lemma UnitDiagonal(t: Triangle, w: real)
    requires IsUnitTriangle(t)
    ensures Interpolate(t, w, w) == Vec3(w, w, 0.0)
  {
  }

  lemma UnitRayPoint(start: Vec3, dir: Vec3, w: real)
    requires start == Vec3(w, w, -1.0) && dir == Vec3(0.0, 0.0, 1.0)
    ensures start.Add(dir.Mult(1.0)) == Vec3(w, w, 0.0)
  {
  }

  /** A ray along the normal through the centroid `(w, w, 0)`, `w = 1/3`, of the unit
      triangle, starting one unit below the plane `z = 0`, hits the centroid at
      distance 1 for every epsilon up to 1. */
  lemma CentroidIsHit(start: Vec3, dir: Vec3, t: Triangle, eps: Tolerance, w: real)
    requires IsUnitTriangle(t) && 3.0 * w == 1.0
    requires start == Vec3(w, w, -1.0) && dir == Vec3(0.0, 0.0, 1.0)
    requires eps <= 1.0
    ensures Intersect(start, dir, t, eps) == IPoint(Some(t), Some(Vec3(w, w, 0.0)), 1.0)
  {
    UnitDeterminant(dir, t);
    UnitDiagonal(t, w);
    UnitRayPoint(start, dir, w);
    HitAtDistanceOne(start, dir, t, eps, w, Vec3(w, w, 0.0));
  }

  lemma HitAtDistanceOne(start: Vec3, dir: Vec3, t: Triangle, eps: Tolerance, w: real, p: Vec3)
    requires Determinant(dir, t) == -1.0 && eps <= 1.0 && 3.0 * w == 1.0
    requires Interpolate(t, w, w) == p && start.Add(dir.Mult(1.0)) == p
    ensures Intersect(start, dir, t, eps) == IPoint(Some(t), Some(p), 1.0)
  {
    CrossingIsHit(start, dir, t, eps, w, w, 1.0);
  }
}
