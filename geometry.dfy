/** Points, directions and projectiles of the arena, over exact reals. */
module Geometry {

  /** A point or a direction in world units. */
  datatype Vec3 = Vec3(x: real, y: real, z: real)

  function Add(a: Vec3, b: Vec3): Vec3 {
    Vec3(a.x + b.x, a.y + b.y, a.z + b.z)
  }

  function Scale(v: Vec3, k: real): Vec3 {
    Vec3(v.x * k, v.y * k, v.z * k)
  }

  /** The square of the Euclidean distance between a and b. */
  function DistanceSquared(a: Vec3, b: Vec3): (d: real)
    ensures d >= 0.0
  {
    var dx, dy, dz := a.x - b.x, a.y - b.y, a.z - b.z;
    dx * dx + dy * dy + dz * dz
  }

  /** The distance between a and b is below radius (for radius >= 0). */
  predicate Within(a: Vec3, b: Vec3, radius: real) {
    DistanceSquared(a, b) < radius * radius
  }

  /** The distance between a and b is above radius (for radius >= 0). */
  predicate Beyond(a: Vec3, b: Vec3, radius: real) {
    DistanceSquared(a, b) > radius * radius
  }

  /** A projectile: where it is and how far it travels per second. */
  datatype Bullet = Bullet(pos: Vec3, vel: Vec3)

  /** One frame of flight: the position moves by velocity times the frame time. */
  function Advance(b: Bullet, delta: real): Bullet {
    b.(pos := Add(b.pos, Scale(b.vel, delta)))
  }
}
