/** The collaborators of the ray core that are not part of this model, reduced to
    what the core reads from them: triangles, lights, colours, the intersection
    record, and the primitive operations whose bodies are not visible. */
module Scene {
  import opened Vectors

  datatype Option<+T> = None | Some(value: T)

  /** The intersection tolerance `IPoint.epsilon`; only its positivity is known. */
  type Tolerance = e: real | 0.0 < e witness 1.0

  /** A colour; its arithmetic is delegated to `Ops.addColors`. */
  datatype RGB = RGB(r: real, g: real, b: real)

  /** The background colour returned for a miss and at depth exhaustion. */
  const Black := RGB(0.0, 0.0, 0.0)

  /** A triangle of the scene: vertices, flat colour, precomputed normal, Phong exponent. */
  datatype Triangle = Triangle(p1: Vec3, p2: Vec3, p3: Vec3, color: RGB, normal: Vec3, shininess: real)

  /** A point light. */
  datatype Light = Light(position: Vec3, color: RGB)

  /** The intersection record: hit triangle, hit point and distance along the ray.
      There is no hit flag: `IPoint(None, None, -1)` is the no-hit sentinel. */
  datatype IPoint = IPoint(triangle: Option<Triangle>, ipoint: Option<Vec3>, dist: real)

  /** The sentinel `new IPoint(null, null, -1)`. */
  const Miss := IPoint(None, None, -1.0)

  /** Primitive operations whose definitions are outside the core: vector
      normalisation (a square root), `Math.pow`, and `RGB.addColors(c1, c2, ratio)`. */
  datatype Ops = Ops(normalize: Vec3 -> Vec3, pow: (real, real) -> real, addColors: (RGB, RGB, real) -> RGB)

  /** `Math.max(0, x)`. */
  function Max0(x: real): (r: real)
    ensures r >= 0.0 && r >= x
    ensures r == 0.0 || r == x
  {
    if x < 0.0 then 0.0 else x
  }
}
