/** The nearest-hit scan of `Ray.hitObject`, as a left fold over the triangle list,
    and what it computes: the first triangle, in list order, of minimum distance. */
module NearestHit {
  import opened Vectors
  import opened Scene
  import opened Intersection

  /** One iteration of the scan: the record of `t` replaces the running best `best`
      when it is a hit and either nothing has been found yet or it is strictly
      nearer; ties keep the earlier triangle. */
  function Step(best: IPoint, start: Vec3, dir: Vec3, t: Triangle, eps: Tolerance): (r: IPoint)
    ensures r == best || r == Intersect(start, dir, t, eps)
  {
    var ip := Intersect(start, dir, t, eps);
    if ip.dist != -1.0 && (best.dist == -1.0 || ip.dist < best.dist)
    then best.(ipoint := ip.ipoint, dist := ip.dist, triangle := Some(t))
    else best
  }

  /** The record `hitObject` returns after scanning all of `ts`, starting from the
      sentinel.  It is the sentinel or a proper hit on one of the triangles. */
  function Nearest(start: Vec3, dir: Vec3, ts: seq<Triangle>, eps: Tolerance): (r: IPoint)
    ensures r == Miss || (r.triangle.Some? && r.triangle.value in ts && r.ipoint.Some? && r.dist >= eps)
    decreases |ts|
  {
    if ts == [] then Miss
    else Step(Nearest(start, dir, ts[..|ts| - 1], eps), start, dir, ts[|ts| - 1], eps)
  }

  /** `k` is the first index of `ts` whose triangle the ray hits at the least distance. */
  predicate IsFirstNearest(start: Vec3, dir: Vec3, ts: seq<Triangle>, eps: Tolerance, k: int) {
    0 <= k < |ts| && Intersect(start, dir, ts[k], eps) != Miss &&
    (forall j :: 0 <= j < |ts| && Intersect(start, dir, ts[j], eps) != Miss ==>
       Intersect(start, dir, ts[k], eps).dist <= Intersect(start, dir, ts[j], eps).dist) &&
    (forall j :: 0 <= j < k && Intersect(start, dir, ts[j], eps) != Miss ==>
       Intersect(start, dir, ts[k], eps).dist < Intersect(start, dir, ts[j], eps).dist)
  }

  /** The scan ends on the sentinel exactly when the ray misses every triangle;
      since a hit is never at distance -1, the distance alone tells which. */
  lemma {:induction false} NearestMissIff(start: Vec3, dir: Vec3, ts: seq<Triangle>, eps: Tolerance)
    ensures Nearest(start, dir, ts, eps) == Miss <==>
            forall k :: 0 <= k < |ts| ==> Intersect(start, dir, ts[k], eps) == Miss
    ensures Nearest(start, dir, ts, eps).dist == -1.0 <==> Nearest(start, dir, ts, eps) == Miss
    decreases |ts|
  {
    if ts != [] {
      var init, t := ts[..|ts| - 1], ts[|ts| - 1];
      NearestMissIff(start, dir, init, eps);
      assert forall k :: 0 <= k < |init| ==> ts[k] == init[k];
      if Intersect(start, dir, t, eps) == Miss {
        assert Nearest(start, dir, ts, eps) == Nearest(start, dir, init, eps);
      } else {
        assert Nearest(start, dir, ts, eps) != Miss;
      }
    }
  }

  /** A last triangle that is missed or no nearer keeps the first nearest index. */
  lemma FirstNearestKept(start: Vec3, dir: Vec3, ts: seq<Triangle>, eps: Tolerance, k: int)
    requires |ts| > 0 && IsFirstNearest(start, dir, ts[..|ts| - 1], eps, k)
    requires var ip := Intersect(start, dir, ts[|ts| - 1], eps);
             ip == Miss || Intersect(start, dir, ts[k], eps).dist <= ip.dist
    ensures IsFirstNearest(start, dir, ts, eps, k)
  {
    assert forall j :: 0 <= j < |ts| - 1 ==> ts[j] == ts[..|ts| - 1][j];
  }

  /** A last triangle hit strictly nearer than every earlier hit is the first nearest. */
  lemma FirstNearestReplaced(start: Vec3, dir: Vec3, ts: seq<Triangle>, eps: Tolerance)
    requires |ts| > 0 && Intersect(start, dir, ts[|ts| - 1], eps) != Miss
    requires forall j :: 0 <= j < |ts| - 1 && Intersect(start, dir, ts[j], eps) != Miss ==>
               Intersect(start, dir, ts[|ts| - 1], eps).dist < Intersect(start, dir, ts[j], eps).dist
    ensures IsFirstNearest(start, dir, ts, eps, |ts| - 1)
  {
  }

  /** A scan that hits returns the record of the first triangle, in list order, of
      least distance: a later triangle replaces the running best only when it is
      strictly nearer. */
  lemma {:induction false} NearestIsFirstMinimum(start: Vec3, dir: Vec3, ts: seq<Triangle>, eps: Tolerance)
    requires Nearest(start, dir, ts, eps) != Miss
    ensures exists k :: IsFirstNearest(start, dir, ts, eps, k) &&
                        Nearest(start, dir, ts, eps) == Intersect(start, dir, ts[k], eps)
    decreases |ts|
  {
    var n := |ts| - 1;
    var init, t := ts[..n], ts[n];
    assert forall j :: 0 <= j < n ==> ts[j] == init[j];
    var best, ip := Nearest(start, dir, init, eps), Intersect(start, dir, t, eps);
    if best == Miss {
      NearestMissIff(start, dir, init, eps);
      FirstNearestReplaced(start, dir, ts, eps);
      assert Nearest(start, dir, ts, eps) == ip;
    } else {
      NearestIsFirstMinimum(start, dir, init, eps);
      var k :| IsFirstNearest(start, dir, init, eps, k) && best == Intersect(start, dir, init[k], eps);
      if ip != Miss && ip.dist < best.dist {
        FirstNearestReplaced(start, dir, ts, eps);
        assert Nearest(start, dir, ts, eps) == ip;
      } else {
        FirstNearestKept(start, dir, ts, eps, k);
        assert Nearest(start, dir, ts, eps) == best;
      }
    }
  }

  /** At most one index is the first nearest one. */
  lemma FirstNearestUnique(start: Vec3, dir: Vec3, ts: seq<Triangle>, eps: Tolerance, k1: int, k2: int)
    requires IsFirstNearest(start, dir, ts, eps, k1) && IsFirstNearest(start, dir, ts, eps, k2)
    ensures k1 == k2
  {
  }
}
