/** The records shared by the host-side scene decoder (TMRTLayer.h) and the
    scalar types they are built from. */
module TMRTTypes {

  /** GLuint: an unsigned 32-bit integer. */
  newtype u32 = x: int | 0 <= x < 0x1_0000_0000

  /** C++ `int` as written by saveRays: a signed 32-bit integer. */
  newtype i32 = x: int | -0x8000_0000 <= x < 0x8000_0000

  /** GLuint(-1): the index stream's end-of-fan marker. */
  const SENTINEL: u32 := 0xFFFF_FFFF

  /** `x - 1` on GLuint: converts a 1-based index to a 0-based one, and
      wraps a raw 0 round to 0xFFFFFFFF. */
  function Dec(x: u32): u32
  {
    if x == 0 then SENTINEL else x - 1
  }

  /** A position, colour or normal: three floats, modelled as reals. */
  datatype Vec3 = Vec3(x: real, y: real, z: real)

  const ZERO: Vec3 := Vec3(0.0, 0.0, 0.0)

  /** Colour of a vertex whose auxiliary scalar is above the threshold. */
  const HOT: Vec3 := Vec3(0.2, 0.2, 1.0)
  /** Colour of every other vertex. */
  const COLD: Vec3 := Vec3(0.3, 0.3, 0.3)
  const HOT_THRESHOLD: real := 300.0

  /** The p4 corner of a triangle facet: glm::vec3(-1.0). */
  const NO_CORNER: Vec3 := Vec3(-1.0, -1.0, -1.0)

  /** The part of the renderer's vertex record the decoder reads or writes. */
  datatype Vertex = Vertex(position: Vec3, color: Vec3, normal: Vec3)

  datatype Ray = Ray(origin: Vec3, direction: Vec3, start: Vec3, end: Vec3,
                     firstHitID: u32, lastHitID: u32, bounce: u32,
                     hitSky: bool, hitDiffuse: bool)

  /** A value-initialised Ray, as `std::vector::resize` creates it. */
  const ZERO_RAY: Ray := Ray(ZERO, ZERO, ZERO, ZERO, 0, 0, 0, false, false)

  datatype Facet = Facet(p1: Vec3, p2: Vec3, p3: Vec3, p4: Vec3, normal: Vec3,
                         id: u32, specular: u32)

  /** computeFacetNormal, taken as an uninterpreted function of three positions. */
  type NormalFn = (Vec3, Vec3, Vec3) -> Vec3

  datatype Option<T> = None | Some(value: T) {
    function GetOr(default: T): T
    {
      match this
      case Some(v) => v
      case None => default
    }
  }

  /** The `int` that a GLuint converts to on a two's-complement target. */
  function ToInt32(x: u32): (r: i32)
    ensures ToUint32(r) == x
    ensures (r as int) % 0x1_0000_0000 == x as int
  {
    if x < 0x8000_0000 then x as int as i32 else (x as int - 0x1_0000_0000) as i32
  }

  /** The GLuint that a 32-bit `int` converts back to. */
  function ToUint32(w: i32): (r: u32)
    ensures (r as int) % 0x1_0000_0000 == (w as int) % 0x1_0000_0000
  {
    if w >= 0 then w as int as u32 else (w as int + 0x1_0000_0000) as u32
  }
}
