/**
 * Points, axis-aligned boxes and the random draws a target is made from.
 * `Math.random()` is not modelled: each call becomes a supplied real in
 * [0, 1), which is all the game's arithmetic relies on.
 */
module Space {

  datatype Vec3 = Vec3(x: real, y: real, z: real)

  /** A box closed below and open above on each axis, the shape of every placement bound here. */
  datatype Box = Box(minX: real, maxX: real, minY: real, maxY: real, minZ: real, maxZ: real)

  predicate InBox(p: Vec3, b: Box)
  {
    b.minX <= p.x < b.maxX && b.minY <= p.y < b.maxY && b.minZ <= p.z < b.maxZ
  }

  /** What `Math.random()` promises about each value it returns. */
  predicate IsUnit(r: real)
  {
    0.0 <= r < 1.0
  }

  /** The four `Math.random()` values a new target consumes, in call order: size, then x, y and z. */
  datatype Draws = Draws(size: real, x: real, y: real, z: real)
  {
    predicate Valid()
    {
      IsUnit(size) && IsUnit(x) && IsUnit(y) && IsUnit(z)
    }
  }
}
