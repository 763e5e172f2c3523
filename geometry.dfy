/** The value types a hit query works on: vectors, rays, materials and the
    intersection record.  Vector arithmetic is exact over the reals. */
module Geometry {
  import opened Numerics

  datatype Vec3 = Vec3(x: real, y: real, z: real)

  const Zero := Vec3(0.0, 0.0, 0.0)

  function Plus(a: Vec3, b: Vec3): Vec3
  {
    Vec3(a.x + b.x, a.y + b.y, a.z + b.z)
  }

  function Minus(a: Vec3, b: Vec3): Vec3
  {
    Vec3(a.x - b.x, a.y - b.y, a.z - b.z)
  }

  function Neg(a: Vec3): Vec3
  {
    Vec3(-a.x, -a.y, -a.z)
  }

  function Scale(t: real, a: Vec3): Vec3
  {
    Vec3(t * a.x, t * a.y, t * a.z)
  }

  function Dot(a: Vec3, b: Vec3): real
  {
    a.x * b.x + a.y * b.y + a.z * b.z
  }

  function LengthSquared(a: Vec3): real
  {
    Dot(a, a)
  }

  /** The three coordinate axes, and a vector's component along one. */
  datatype Axis = X | Y | Z

  function Coord(v: Vec3, axis: Axis): real
  {
    match axis
    case X => v.x
    case Y => v.y
    case Z => v.z
  }

  /** A ray with the shutter time it was sampled at. */
  datatype Ray = Ray(origin: Vec3, direction: Vec3, time: real)

  /** The point `origin + t * direction`. */
  function At(ray: Ray, t: real): Vec3
  {
    Plus(ray.origin, Scale(t, ray.direction))
  }

  /** The point at parameter t, component by component. */
  lemma AtComponents(ray: Ray, t: real)
    ensures At(ray, t) == Vec3(ray.origin.x + t * ray.direction.x, ray.origin.y + t * ray.direction.y,
                               ray.origin.z + t * ray.direction.z)
  {
    assert Scale(t, ray.direction) == Vec3(t * ray.direction.x, t * ray.direction.y, t * ray.direction.z);
  }

  /** Textures and materials are opaque here: only their identity travels
      with a hit.  An isotropic material keeps the texture or the colour it
      was built from. */
  datatype Texture = TextureRef(id: nat) | ColorTexture(color: Vec3)

  datatype Material = NoMaterial | Surface(id: nat) | Isotropic(albedo: Texture)

  /** The intersection record of a hit query. */
  datatype HitResult = HitResult(t: real, p: Vec3, normal: Vec3, frontFace: bool,
                                 material: Material, u: real, v: real)

  /** The record `new HitResult()` holds: every field at its default. */
  const EmptyResult := HitResult(0.0, Zero, Zero, false, NoMaterial, 0.0, 0.0)

  datatype Facing = Facing(frontFace: bool, normal: Vec3)

  /** SetFaceNormal: the ray hits the front face iff it travels against the
      outward normal, and the stored normal always faces the incoming ray. */
  function FaceNormal(direction: Vec3, outward: Vec3): (f: Facing)
    ensures f.frontFace <==> Dot(direction, outward) < 0.0
    ensures f.normal == outward || f.normal == Neg(outward)
    ensures f.frontFace ==> f.normal == outward
    ensures Dot(direction, f.normal) <= 0.0
  {
    var frontFace := Dot(direction, outward) < 0.0;
    Facing(frontFace, if frontFace then outward else Neg(outward))
  }
}
