/** The class `Ray` of `src/Geometries/Ray.java`: an origin and a direction that
    the setters and `Normalize` overwrite, and the static procedures `HitObject`,
    `RayTrace` and `Lighting`, each proved against its specification function. */
module Rays {
  import opened Vectors
  import opened Scene
  import opened Intersection
  import opened NearestHit
  import opened Shading

  class Ray {
    var start: Vec3
    var dir: Vec3

    /** A new ray at the origin with a zero direction. */
    constructor ()
      ensures start == Zero && dir == Zero
    {
      start := Zero;
      dir := Zero;
    }

    method SetStart(x: real, y: real, z: real)
      modifies this
      ensures start == Vec3(x, y, z) && dir == old(dir)
    {
      start := Vec3(x, y, z);
    }

    method SetDir(dx: real, dy: real, dz: real)
      modifies this
      ensures dir == Vec3(dx, dy, dz) && start == old(start)
    {
      dir := Vec3(dx, dy, dz);
    }

    /** Normalises the direction in place, with the normalisation `normalize`. */
    method Normalize(normalize: Vec3 -> Vec3)
      modifies this
      ensures dir == normalize(old(dir)) && start == old(start)
    {
      dir := normalize(dir);
    }

    /** `hitObject`: scans `triangles` in order, keeping the running best in `isect`
        and its distance in `idist`; the result is the first nearest hit, and the
        sentinel exactly when every triangle is missed. */
    static method HitObject(ray: Ray, triangles: seq<Triangle>, eps: Tolerance) returns (isect: IPoint)
      ensures isect == Nearest(ray.start, ray.dir, triangles, eps)
      ensures triangles == [] ==> isect == Miss
      ensures isect.dist == -1.0 <==>
              forall k :: 0 <= k < |triangles| ==> Intersect(ray.start, ray.dir, triangles[k], eps) == Miss
      ensures isect != Miss ==>
              exists k :: IsFirstNearest(ray.start, ray.dir, triangles, eps, k) &&
                          isect == Intersect(ray.start, ray.dir, triangles[k], eps)
    {
      isect := Miss;
      var idist: real := -1.0;
      for i := 0 to |triangles|
        invariant isect == Nearest(ray.start, ray.dir, triangles[..i], eps)
        invariant idist == isect.dist
      {
        var t := triangles[i];
        assert triangles[..i + 1][..i] == triangles[..i];
        var ip := Intersect(ray.start, ray.dir, t, eps);
        if ip.dist != -1.0 {
          if idist == -1.0 || ip.dist < idist {
            idist := ip.dist;
            isect := isect.(ipoint := ip.ipoint);
            isect := isect.(dist := ip.dist);
            isect := isect.(triangle := Some(t));
          }
        }
      }
      assert triangles[..|triangles|] == triangles;
      NearestMissIff(ray.start, ray.dir, triangles, eps);
      if isect != Miss {
        NearestIsFirstMinimum(ray.start, ray.dir, triangles, eps);
      }
    }

    /** `rayTrace`: black beyond the depth bound, before any scan of the scene, and
        black when the nearest hit is not beyond epsilon; otherwise the shading of
        that hit.  `scans` counts the scene scans this call makes itself, and `depth`
        the nested recursive traces that the calls below it start. */
    static method RayTrace(ray: Ray, rec: int, triangles: seq<Triangle>, maxRec: int,
                           lights: seq<Light>, ambient: RGB, ops: Ops, eps: Tolerance)
      returns (c: RGB, ghost scans: nat, ghost depth: nat)
      ensures c == Trace(ray.start, ray.dir, rec, triangles, maxRec, lights, ambient, ops, eps)
      ensures depth == ReflectionDepth(ray.start, ray.dir, rec, triangles, maxRec, ops, eps)
      ensures depth <= Budget(rec, maxRec)
      ensures rec > maxRec ==> c == Black && scans == 0
      ensures rec <= maxRec ==> scans == 1
      ensures Nearest(ray.start, ray.dir, triangles, eps).dist <= eps ==> c == Black
      decreases Budget(rec, maxRec), 0
    {
      if rec > maxRec {
        return Black, 0, 0;
      }
      var ip := HitObject(ray, triangles, eps);
      scans := 1;
      if ip.dist > eps {
        ghost var deeper;
        c, deeper := Lighting(ray, ip, rec, lights, triangles, ambient, maxRec, ops, eps);
        depth := 1 + deeper;
      } else {
        c, depth := Black, 0;
      }
    }

    /** `lighting`: the light loop reuses one scratch shadow ray, overwriting its
        origin and direction for every light, and adds each unshadowed light's term;
        then one reflection ray is traced at depth `rec + 1`, which starts `depth`
        nested traces of its own. */
    static method Lighting(ray: Ray, ip: IPoint, rec: int, lights: seq<Light>, triangles: seq<Triangle>,
                           ambient: RGB, maxRec: int, ops: Ops, eps: Tolerance)
      returns (c: RGB, ghost depth: nat)
      requires ip.triangle.Some? && ip.ipoint.Some?
      ensures c == Shade(ray.dir, ip, rec, lights, triangles, ambient, maxRec, ops, eps)
      ensures depth == ReflectionDepth(ip.ipoint.value, ReflectDir(ip.triangle.value.normal, ray.dir.Mult(-1.0), ops),
                                       rec + 1, triangles, maxRec, ops, eps)
      decreases Budget(rec + 1, maxRec), 1
    {
      var point := ip.ipoint.value;
      var triangle := ip.triangle.value;
      var base := ops.addColors(triangle.color, ambient, 1.0);
      var color := base;
      var shadowRay := new Ray();
      for i := 0 to |lights|
        invariant color == Blend(ops, base, Contributions(point, triangle, lights[..i], triangles, ops, eps))
      {
        var light := lights[i];
        shadowRay.start := point;
        shadowRay.dir := light.position.Minus(point).Mult(-1.0);
        shadowRay.dir := ops.normalize(shadowRay.dir);
        var ip2 := HitObject(shadowRay, triangles, eps);
        LightStep(point, triangle, lights, i, triangles, base, color, ip2, ops, eps);
        if ip2.dist < eps {
          var ratio := Max0(shadowRay.dir.Dot(triangle.normal));
          color := ops.addColors(color, light.color, ratio);
        }
      }
      assert lights[..|lights|] == lights;
      var reflection := new Ray();
      var l := ray.dir.Mult(-1.0);
      reflection.start := point;
      reflection.dir := triangle.normal.Mult(2.0 * triangle.normal.Dot(l)).Minus(l);
      reflection.dir := ops.normalize(reflection.dir);
      var rcolor, _, deeper := RayTrace(reflection, rec + 1, triangles, maxRec, lights, ambient, ops, eps);
      ShadeParts(ray.dir, ip, rec, lights, triangles, ambient, maxRec, ops, eps, color, reflection.dir, rcolor);
      var ratio := ops.pow(Max0(reflection.dir.Dot(l)), triangle.shininess);
      color := ops.addColors(color, rcolor, ratio);
      return color, deeper;
    }
  }
}
