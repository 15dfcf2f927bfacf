/** Three-dimensional vectors over exact reals, standing in for the single-precision
    `Vec3D` collaborator.  Only the operations the ray core uses are given. */
module Vectors {

  datatype Vec3 = Vec3(x: real, y: real, z: real) {

    /** Component-wise sum `this + o`. */
    function Add(o: Vec3): Vec3 {
      Vec3(x + o.x, y + o.y, z + o.z)
    }

    /** Component-wise difference `this - o`. */
    function Minus(o: Vec3): Vec3 {
      Vec3(x - o.x, y - o.y, z - o.z)
    }

    /** Scaling by a scalar. */
    function Mult(k: real): Vec3 {
      Vec3(k * x, k * y, k * z)
    }

    /** Scalar (dot) product. */
    function Dot(o: Vec3): real {
      x * o.x + y * o.y + z * o.z
    }

    /** Vector (cross) product `this × o`. */
    function Cross(o: Vec3): Vec3 {
      Vec3(y * o.z - z * o.y, z * o.x - x * o.z, x * o.y - y * o.x)
    }
  }

  /** The origin; a fresh `Ray` starts here with a zero direction. */
  const Zero := Vec3(0.0, 0.0, 0.0)

  /** The dot product is linear in its left argument. */
  lemma DotCombination(a: Vec3, b: Vec3, c: Vec3, u: real, v: real, d: real, w: Vec3)
    ensures a.Mult(u).Add(b.Mult(v)).Minus(c.Mult(d)).Dot(w) == u * a.Dot(w) + v * b.Dot(w) - d * c.Dot(w)
  {
  }

  /** The scalar triple product `a · (b × c)` is invariant under cyclic rotation. */
  lemma TripleCyclic(a: Vec3, b: Vec3, c: Vec3)
    ensures a.Dot(b.Cross(c)) == b.Dot(c.Cross(a))
  {
  }

  /** Swapping the two factors of the cross product negates the triple product. */
  lemma TripleSwap(a: Vec3, b: Vec3, c: Vec3)
    ensures a.Dot(c.Cross(b)) == -a.Dot(b.Cross(c))
  {
  }

  /** A cross product is orthogonal to both of its factors. */
  lemma CrossOrthogonal(a: Vec3, b: Vec3)
    ensures a.Dot(a.Cross(b)) == 0.0 && b.Dot(a.Cross(b)) == 0.0
  {
  }
}
