/** Vectors over the reals and the part of glam's vector library the
    simulation uses. Square lengths are computed exactly; `normalize` and
    `angle_between` (which need a square root and trigonometry) are taken as
    parameters, constrained only by the laws in `Lawful`. */
module Geometry {

  datatype Vec2 = Vec2(x: real, y: real)

  datatype Vec3 = Vec3(x: real, y: real, z: real)

  const Zero3: Vec3 := Vec3(0.0, 0.0, 0.0)

  /** The f32 constant PI, as an exact real. */
  const Pi: real := 3.1415927410125732421875

  function Sub2(a: Vec2, b: Vec2): Vec2 {
    Vec2(a.x - b.x, a.y - b.y)
  }

  function Add3(a: Vec3, b: Vec3): Vec3 {
    Vec3(a.x + b.x, a.y + b.y, a.z + b.z)
  }

  function Sub3(a: Vec3, b: Vec3): Vec3 {
    Vec3(a.x - b.x, a.y - b.y, a.z - b.z)
  }

  /** `v * c` in glam. */
  function Scale(c: real, v: Vec3): Vec3 {
    Vec3(c * v.x, c * v.y, c * v.z)
  }

  function Sq(a: real): real {
    a * a
  }

  /** The square of glam's `Vec3::length`; `v.length() > c` for `c >= 0`
      is `LenSq(v) > c * c`. */
  function LenSq(v: Vec3): real {
    Sq(v.x) + Sq(v.y) + Sq(v.z)
  }

  /** The two vector operations whose values are not computed here. */
  datatype Glam = Glam(normalize: Vec3 -> Vec3, angleBetween: (Vec2, Vec2) -> real)

  /** What the model assumes of `normalize`: a nonzero vector becomes a unit
      vector, a positive factor does not change the result, and a unit vector
      is its own normalization. Nothing is assumed of the zero vector. */
  ghost predicate Lawful(g: Glam) {
    && (forall v {:trigger LenSq(g.normalize(v))} :: LenSq(v) > 0.0 ==> LenSq(g.normalize(v)) == 1.0)
    && (forall c, v :: c > 0.0 ==> g.normalize(Scale(c, v)) == g.normalize(v))
    && (forall v :: LenSq(v) == 1.0 ==> g.normalize(v) == v)
  }

  lemma SquarePositive(a: real)
    requires a != 0.0
    ensures Sq(a) > 0.0
  {
    assert Sq(a) / a == a;
  }

  /** Only the zero vector has length zero. */
  lemma LenSqPositive(v: Vec3)
    ensures LenSq(v) > 0.0 <==> v != Zero3
  {
    if v.x != 0.0 {
      SquarePositive(v.x);
    } else if v.y != 0.0 {
      SquarePositive(v.y);
    } else if v.z != 0.0 {
      SquarePositive(v.z);
    }
  }

  lemma LenSqScale(c: real, v: Vec3)
    ensures LenSq(Scale(c, v)) == Sq(c) * LenSq(v)
  {
    assert Sq(c * v.x) == Sq(c) * Sq(v.x);
    assert Sq(c * v.y) == Sq(c) * Sq(v.y);
    assert Sq(c * v.z) == Sq(c) * Sq(v.z);
  }

  lemma ScaleScale(a: real, b: real, v: Vec3)
    ensures Scale(a, Scale(b, v)) == Scale(a * b, v)
  {
    assert a * (b * v.x) == (a * b) * v.x;
    assert a * (b * v.y) == (a * b) * v.y;
    assert a * (b * v.z) == (a * b) * v.z;
  }

  /** Scaling a normalized nonzero vector by `c` gives a vector of square
      length `c * c`. */
  lemma ScaledUnitLenSq(g: Glam, c: real, v: Vec3)
    requires Lawful(g)
    requires LenSq(v) > 0.0
    ensures LenSq(Scale(c, g.normalize(v))) == Sq(c)
  {
    LenSqScale(c, g.normalize(v));
  }
}
