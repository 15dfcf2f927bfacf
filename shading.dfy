/** The recursive shading of `Ray.rayTrace` and `Ray.lighting`, as mutually
    recursive functions, and the properties of the light loop and the recursion. */
module Shading {
  import opened Vectors
  import opened Scene
  import opened Intersection
  import opened NearestHit

  /** The recursion budget left at depth `rec`: `maxRec - rec + 1`, and none once
      the depth bound is exceeded.  Every recursive call lowers it by one. */
  function Budget(rec: int, maxRec: int): nat {
    if rec > maxRec then 0 else maxRec - rec + 1
  }

  /** The direction of the shadow probe toward `light`, as the source computes it:
      `light.position - point` scaled by -1, then normalised. */
  function ShadowDir(point: Vec3, light: Light, ops: Ops): Vec3 {
    ops.normalize(light.position.Minus(point).Mult(-1.0))
  }

  /** The shadow probe toward `light` reports nothing nearer than epsilon. */
  predicate Unshadowed(point: Vec3, light: Light, ts: seq<Triangle>, ops: Ops, eps: Tolerance) {
    Nearest(point, ShadowDir(point, light, ops), ts, eps).dist < eps
  }

  /** One term added to the running colour: a colour and its weight. */
  datatype Contribution = Contribution(color: RGB, weight: real)

  /** What `light` adds at `point`: its colour, weighted by `max(0, shadowDir · normal)`. */
  function DiffuseTerm(point: Vec3, tri: Triangle, light: Light, ops: Ops): Contribution {
    Contribution(light.color, Max0(ShadowDir(point, light, ops).Dot(tri.normal)))
  }

  /** The terms the light loop adds, in the order of `lights`: one per unshadowed light. */
  function Contributions(point: Vec3, tri: Triangle, lights: seq<Light>, ts: seq<Triangle>, ops: Ops, eps: Tolerance)
    : (cs: seq<Contribution>)
    ensures |cs| <= |lights|
    ensures forall k :: 0 <= k < |cs| ==> cs[k].weight >= 0.0
    decreases |lights|
  {
    if lights == [] then []
    else
      var n := |lights| - 1;
      Contributions(point, tri, lights[..n], ts, ops, eps) +
      (if Unshadowed(point, lights[n], ts, ops, eps) then [DiffuseTerm(point, tri, lights[n], ops)] else [])
  }

  /** The colour reached from `base` by adding the terms of `cs` in order with `addColors`. */
  function Blend(ops: Ops, base: RGB, cs: seq<Contribution>): RGB
    decreases |cs|
  {
    if cs == [] then base
    else ops.addColors(Blend(ops, base, cs[..|cs| - 1]), cs[|cs| - 1].color, cs[|cs| - 1].weight)
  }

  /** The mirror direction `2N(N·L) - L` of the outgoing vector `l`, normalised. */
  function ReflectDir(normal: Vec3, l: Vec3, ops: Ops): Vec3 {
    ops.normalize(normal.Mult(2.0 * normal.Dot(l)).Minus(l))
  }

  /** `rayTrace`: black beyond the depth bound or when the nearest hit is not
      beyond epsilon, otherwise the shading of the hit. */
  function Trace(start: Vec3, dir: Vec3, rec: int, ts: seq<Triangle>, maxRec: int,
                 lights: seq<Light>, ambient: RGB, ops: Ops, eps: Tolerance): RGB
    decreases Budget(rec, maxRec), 0
  {
    if rec > maxRec then Black
    else
      var ip := Nearest(start, dir, ts, eps);
      if ip.dist > eps then Shade(dir, ip, rec, lights, ts, ambient, maxRec, ops, eps)
      else Black
  }

  /** `lighting` for an incoming ray of direction `dir`: the triangle's colour with the
      ambient term, the unshadowed lights' terms, and the reflected colour traced one
      level deeper, weighted by `pow(max(0, R·L), shininess)`. */
  function Shade(dir: Vec3, ip: IPoint, rec: int, lights: seq<Light>, ts: seq<Triangle>,
                 ambient: RGB, maxRec: int, ops: Ops, eps: Tolerance): RGB
    requires ip.triangle.Some? && ip.ipoint.Some?
    decreases Budget(rec + 1, maxRec), 1
  {
    var point, tri := ip.ipoint.value, ip.triangle.value;
    var direct := Blend(ops, ops.addColors(tri.color, ambient, 1.0), Contributions(point, tri, lights, ts, ops, eps));
    var l := dir.Mult(-1.0);
    var rdir := ReflectDir(tri.normal, l, ops);
    var rcolor := Trace(point, rdir, rec + 1, ts, maxRec, lights, ambient, ops, eps);
    ops.addColors(direct, rcolor, ops.pow(Max0(rdir.Dot(l)), tri.shininess))
  }

  /** The number of nested recursive `rayTrace` calls a trace at depth `rec` makes; it
      never exceeds the budget, so a primary ray at depth 0 recurses at most
      `maxRec + 1` times. */
  function ReflectionDepth(start: Vec3, dir: Vec3, rec: int, ts: seq<Triangle>, maxRec: int,
                           ops: Ops, eps: Tolerance): (r: nat)
    ensures r <= Budget(rec, maxRec)
    decreases Budget(rec, maxRec)
  {
    if rec > maxRec then 0
    else
      var ip := Nearest(start, dir, ts, eps);
      if ip.dist > eps then
        1 + ReflectionDepth(ip.ipoint.value, ReflectDir(ip.triangle.value.normal, dir.Mult(-1.0), ops),
                            rec + 1, ts, maxRec, ops, eps)
      else 0
  }

  /** The light loop's step: one more light adds its term, if any, at the end. */
  lemma ContributionsStep(point: Vec3, tri: Triangle, lights: seq<Light>, i: nat, ts: seq<Triangle>,
                          ops: Ops, eps: Tolerance)
    requires i < |lights|
    ensures Contributions(point, tri, lights[..i + 1], ts, ops, eps)
            == Contributions(point, tri, lights[..i], ts, ops, eps) +
               (if Unshadowed(point, lights[i], ts, ops, eps) then [DiffuseTerm(point, tri, lights[i], ops)] else [])
  {
    assert lights[..i + 1][..i] == lights[..i];
  }

  /** Adding one more term to a blend. */
  lemma BlendStep(ops: Ops, base: RGB, cs: seq<Contribution>, c: Contribution)
    ensures Blend(ops, base, cs + [c]) == ops.addColors(Blend(ops, base, cs), c.color, c.weight)
  {
    assert (cs + [c])[..|cs|] == cs;
  }

  /** One turn of the light loop: from the blend of the first `i` lights' terms,
      a probe result `probe` for light `i` that is not nearer than epsilon leaves the
      colour alone, and one that is adds the light's weighted colour. */
  lemma LightStep(point: Vec3, tri: Triangle, lights: seq<Light>, i: nat, ts: seq<Triangle>, base: RGB,
                  color: RGB, probe: IPoint, ops: Ops, eps: Tolerance)
    requires i < |lights|
    requires color == Blend(ops, base, Contributions(point, tri, lights[..i], ts, ops, eps))
    requires probe == Nearest(point, ShadowDir(point, lights[i], ops), ts, eps)
    ensures (if probe.dist < eps
             then ops.addColors(color, lights[i].color, Max0(ShadowDir(point, lights[i], ops).Dot(tri.normal)))
             else color)
            == Blend(ops, base, Contributions(point, tri, lights[..i + 1], ts, ops, eps))
  {
    var done := Contributions(point, tri, lights[..i], ts, ops, eps);
    ContributionsStep(point, tri, lights, i, ts, ops, eps);
    if probe.dist < eps {
      BlendStep(ops, base, done, DiffuseTerm(point, tri, lights[i], ops));
    } else {
      assert done + [] == done;
    }
  }

  /** `Shade` assembled from its two parts: the blended light terms `direct` and the
      colour `rcolor` traced along the mirror direction one level deeper. */
  lemma ShadeParts(dir: Vec3, ip: IPoint, rec: int, lights: seq<Light>, ts: seq<Triangle>, ambient: RGB,
                   maxRec: int, ops: Ops, eps: Tolerance, direct: RGB, rdir: Vec3, rcolor: RGB)
    requires ip.triangle.Some? && ip.ipoint.Some?
    requires direct == Blend(ops, ops.addColors(ip.triangle.value.color, ambient, 1.0),
                             Contributions(ip.ipoint.value, ip.triangle.value, lights, ts, ops, eps))
    requires rdir == ReflectDir(ip.triangle.value.normal, dir.Mult(-1.0), ops)
    requires rcolor == Trace(ip.ipoint.value, rdir, rec + 1, ts, maxRec, lights, ambient, ops, eps)
    ensures Shade(dir, ip, rec, lights, ts, ambient, maxRec, ops, eps)
            == ops.addColors(direct, rcolor, ops.pow(Max0(rdir.Dot(dir.Mult(-1.0))), ip.triangle.value.shininess))
  {
  }

  /** A light adds its term only when its shadow probe hits no triangle at all:
      a probe never reports a hit nearer than epsilon, so any occluder blocks. */
  lemma UnshadowedIffClear(point: Vec3, light: Light, ts: seq<Triangle>, ops: Ops, eps: Tolerance)
    ensures Unshadowed(point, light, ts, ops, eps) <==>
            forall k :: 0 <= k < |ts| ==> Intersect(point, ShadowDir(point, light, ops), ts[k], eps) == Miss
  {
    NearestMissIff(point, ShadowDir(point, light, ops), ts, eps);
  }

  /** The light loop distributes over a split of the light list, so each light's
      term depends on that light alone and the terms keep the lights' order. */
  lemma {:induction false} ContributionsAppend(point: Vec3, tri: Triangle, l1: seq<Light>, l2: seq<Light>,
                                               ts: seq<Triangle>, ops: Ops, eps: Tolerance)
    ensures Contributions(point, tri, l1 + l2, ts, ops, eps)
            == Contributions(point, tri, l1, ts, ops, eps) + Contributions(point, tri, l2, ts, ops, eps)
    decreases |l2|
  {
    if l2 == [] {
      assert l1 + l2 == l1;
    } else {
      var n := |l2| - 1;
      var last := if Unshadowed(point, l2[n], ts, ops, eps) then [DiffuseTerm(point, tri, l2[n], ops)] else [];
      assert (l1 + l2)[..|l1 + l2| - 1] == l1 + l2[..n];
      assert (l1 + l2)[|l1 + l2| - 1] == l2[n];
      calc {
        Contributions(point, tri, l1 + l2, ts, ops, eps);
        Contributions(point, tri, l1 + l2[..n], ts, ops, eps) + last;
        { ContributionsAppend(point, tri, l1, l2[..n], ts, ops, eps); }
        (Contributions(point, tri, l1, ts, ops, eps) + Contributions(point, tri, l2[..n], ts, ops, eps)) + last;
        Contributions(point, tri, l1, ts, ops, eps) + (Contributions(point, tri, l2[..n], ts, ops, eps) + last);
        Contributions(point, tri, l1, ts, ops, eps) + Contributions(point, tri, l2, ts, ops, eps);
      }
    }
  }

  /** No light adds anything exactly when every light is shadowed. */
  lemma {:induction false} NoContributionsIffAllShadowed(point: Vec3, tri: Triangle, lights: seq<Light>,
                                                          ts: seq<Triangle>, ops: Ops, eps: Tolerance)
    ensures Contributions(point, tri, lights, ts, ops, eps) == [] <==>
            forall k :: 0 <= k < |lights| ==> !Unshadowed(point, lights[k], ts, ops, eps)
    decreases |lights|
  {
    if lights != [] {
      var n := |lights| - 1;
      NoContributionsIffAllShadowed(point, tri, lights[..n], ts, ops, eps);
      assert forall k :: 0 <= k < n ==> lights[..n][k] == lights[k];
    }
  }

  /** With every light shadowed, the shaded colour before reflection is the
      triangle's colour blended with the ambient term. */
  lemma AllShadowedDirectIsBase(point: Vec3, tri: Triangle, lights: seq<Light>, ts: seq<Triangle>,
                                ambient: RGB, ops: Ops, eps: Tolerance)
    requires forall k :: 0 <= k < |lights| ==> !Unshadowed(point, lights[k], ts, ops, eps)
    ensures Blend(ops, ops.addColors(tri.color, ambient, 1.0), Contributions(point, tri, lights, ts, ops, eps))
            == ops.addColors(tri.color, ambient, 1.0)
  {
    NoContributionsIffAllShadowed(point, tri, lights, ts, ops, eps);
  }

  /** A ray that misses every triangle traces to black. */
  lemma TraceOfMissIsBlack(start: Vec3, dir: Vec3, rec: int, ts: seq<Triangle>, maxRec: int,
                           lights: seq<Light>, ambient: RGB, ops: Ops, eps: Tolerance)
    requires forall k :: 0 <= k < |ts| ==> Intersect(start, dir, ts[k], eps) == Miss
    ensures Trace(start, dir, rec, ts, maxRec, lights, ambient, ops, eps) == Black
  {
    NearestMissIff(start, dir, ts, eps);
  }

  /** At the last permitted depth the reflected colour is black: with `maxRec = rec`
      no reflection is traced beyond the direct shading. */
  lemma LastLevelReflectsBlack(dir: Vec3, ip: IPoint, rec: int, lights: seq<Light>, ts: seq<Triangle>,
                               ambient: RGB, ops: Ops, eps: Tolerance)
    requires ip.triangle.Some? && ip.ipoint.Some?
    ensures var point, tri := ip.ipoint.value, ip.triangle.value;
            var l := dir.Mult(-1.0);
            Shade(dir, ip, rec, lights, ts, ambient, rec, ops, eps)
            == ops.addColors(Blend(ops, ops.addColors(tri.color, ambient, 1.0), Contributions(point, tri, lights, ts, ops, eps)),
                             Black, ops.pow(Max0(ReflectDir(tri.normal, l, ops).Dot(l)), tri.shininess))
  {
  }
}
