/**
 The value types of the `simd` library that the renderer's linear-algebra helpers are built on:
 `SIMD3<Float>`, `SIMD4<Float>` and `float4x4`. Scalars are mathematical reals, so IEEE
 rounding, overflow and NaN are not part of this model.

 A `Mat4` is stored row-major, as Pollux builds it with `float4x4(rows:)`, and it acts on column
 vectors: `Apply(m, v)` is the usual product `m · v`.
 */
module Simd {

  /** Swift's `min(x, y)` on a `Comparable`: `y < x ? y : x`. */
  function Min(x: real, y: real): (r: real)
    ensures r <= x && r <= y
    ensures r == x || r == y
  {
    if y < x then y else x
  }

  /** Swift's `max(x, y)` on a `Comparable`: `y >= x ? y : x`. */
  function Max(x: real, y: real): (r: real)
    ensures r >= x && r >= y
    ensures r == x || r == y
  {
    if y >= x then y else x
  }

  /** `SIMD3<Float>`. */
  datatype Vec3 = Vec3(x: real, y: real, z: real) {

    /** Component-wise `<=`: every coordinate of this vector is at most the one of `o`. */
    predicate LessEq(o: Vec3) {
      x <= o.x && y <= o.y && z <= o.z
    }
  }

  /** `SIMD4<Float>`. */
  datatype Vec4 = Vec4(x: real, y: real, z: real, w: real)

  /** `float4x4`, given by its four rows. */
  datatype Mat4 = Mat4(r0: Vec4, r1: Vec4, r2: Vec4, r3: Vec4)

  function Add(a: Vec3, b: Vec3): Vec3 {
    Vec3(a.x + b.x, a.y + b.y, a.z + b.z)
  }

  function Neg(a: Vec3): Vec3 {
    Vec3(-a.x, -a.y, -a.z)
  }

  /** Component-wise product, Swift's `a * b` on two `SIMD3<Float>`. */
  function Times(a: Vec3, b: Vec3): Vec3 {
    Vec3(a.x * b.x, a.y * b.y, a.z * b.z)
  }

  predicate NoZeroComponent(a: Vec3) {
    a.x != 0.0 && a.y != 0.0 && a.z != 0.0
  }

  /** Component-wise reciprocal. */
  function Recip(a: Vec3): (r: Vec3)
    requires NoZeroComponent(a)
    ensures Times(r, a) == Vec3(1.0, 1.0, 1.0)
  {
    Vec3(1.0 / a.x, 1.0 / a.y, 1.0 / a.z)
  }

  /** The homogeneous form `SIMD4<Float>(p, 1)` of a point. */
  function Point(p: Vec3): Vec4 {
    Vec4(p.x, p.y, p.z, 1.0)
  }

  /** The homogeneous form `SIMD4<Float>(d, 0)` of a direction. */
  function Direction(d: Vec3): Vec4 {
    Vec4(d.x, d.y, d.z, 0.0)
  }

  function Dot(a: Vec4, b: Vec4): real {
    a.x * b.x + a.y * b.y + a.z * b.z + a.w * b.w
  }

  /** `m * v` for a column vector `v`: each coordinate is a row of `m` dotted with `v`. */
  function Apply(m: Mat4, v: Vec4): Vec4 {
    Vec4(Dot(m.r0, v), Dot(m.r1, v), Dot(m.r2, v), Dot(m.r3, v))
  }

  /** The matrix whose rows are the columns of `m`. */
  function Transpose(m: Mat4): Mat4 {
    Mat4(Vec4(m.r0.x, m.r1.x, m.r2.x, m.r3.x),
         Vec4(m.r0.y, m.r1.y, m.r2.y, m.r3.y),
         Vec4(m.r0.z, m.r1.z, m.r2.z, m.r3.z),
         Vec4(m.r0.w, m.r1.w, m.r2.w, m.r3.w))
  }

  /** The matrix product `a * b`: row `i` of the result is row `i` of `a` times `b`. */
  function Mul(a: Mat4, b: Mat4): Mat4 {
    var bt := Transpose(b);
    Mat4(Apply(bt, a.r0), Apply(bt, a.r1), Apply(bt, a.r2), Apply(bt, a.r3))
  }

  function Identity(): Mat4 {
    Mat4(Vec4(1.0, 0.0, 0.0, 0.0),
         Vec4(0.0, 1.0, 0.0, 0.0),
         Vec4(0.0, 0.0, 1.0, 0.0),
         Vec4(0.0, 0.0, 0.0, 1.0))
  }

  /** An affine (homogeneous) transform: its bottom row is `(0, 0, 0, 1)`. */
  predicate IsAffine(m: Mat4) {
    m.r3 == Vec4(0.0, 0.0, 0.0, 1.0)
  }

  lemma IdentityFixes(v: Vec4)
    ensures Apply(Identity(), v) == v
  {
  }

  /** Moving `b` across a dot product turns it into its transpose. */
  lemma DotTranspose(r: Vec4, b: Mat4, v: Vec4)
    ensures Dot(Apply(Transpose(b), r), v) == Dot(r, Apply(b, v))
  {
    var t := Apply(Transpose(b), r);
    // each coordinate of `t` is a column of `b` dotted with `r`; distribute it over `v`
    assert t.x * v.x == r.x * b.r0.x * v.x + r.y * b.r1.x * v.x + r.z * b.r2.x * v.x + r.w * b.r3.x * v.x;
    assert t.y * v.y == r.x * b.r0.y * v.y + r.y * b.r1.y * v.y + r.z * b.r2.y * v.y + r.w * b.r3.y * v.y;
    assert t.z * v.z == r.x * b.r0.z * v.z + r.y * b.r1.z * v.z + r.z * b.r2.z * v.z + r.w * b.r3.z * v.z;
    assert t.w * v.w == r.x * b.r0.w * v.w + r.y * b.r1.w * v.w + r.z * b.r2.w * v.w + r.w * b.r3.w * v.w;
    // and each coordinate of `b v` is distributed over `r`
    assert r.x * Dot(b.r0, v) == r.x * b.r0.x * v.x + r.x * b.r0.y * v.y + r.x * b.r0.z * v.z + r.x * b.r0.w * v.w;
    assert r.y * Dot(b.r1, v) == r.y * b.r1.x * v.x + r.y * b.r1.y * v.y + r.y * b.r1.z * v.z + r.y * b.r1.w * v.w;
    assert r.z * Dot(b.r2, v) == r.z * b.r2.x * v.x + r.z * b.r2.y * v.y + r.z * b.r2.z * v.z + r.z * b.r2.w * v.w;
    assert r.w * Dot(b.r3, v) == r.w * b.r3.x * v.x + r.w * b.r3.y * v.y + r.w * b.r3.z * v.z + r.w * b.r3.w * v.w;
  }

  /** The product of matrices is the composition of their actions: `(a * b) v == a (b v)`. */
  lemma MulApply(a: Mat4, b: Mat4, v: Vec4)
    ensures Apply(Mul(a, b), v) == Apply(a, Apply(b, v))
  {
    DotTranspose(a.r0, b, v);
    DotTranspose(a.r1, b, v);
    DotTranspose(a.r2, b, v);
    DotTranspose(a.r3, b, v);
  }

  /** Two matrices that act alike on every vector are equal. */
  lemma ActionDeterminesMatrix(a: Mat4, b: Mat4)
    requires forall v :: Apply(a, v) == Apply(b, v)
    ensures a == b
  {
    var e0, e1, e2, e3 := Vec4(1.0, 0.0, 0.0, 0.0), Vec4(0.0, 1.0, 0.0, 0.0),
                          Vec4(0.0, 0.0, 1.0, 0.0), Vec4(0.0, 0.0, 0.0, 1.0);
    assert Apply(a, e0) == Apply(b, e0);
    assert Apply(a, e1) == Apply(b, e1);
    assert Apply(a, e2) == Apply(b, e2);
    assert Apply(a, e3) == Apply(b, e3);
  }

  /** The product of two affine matrices is affine. */
  lemma MulAffine(a: Mat4, b: Mat4)
    requires IsAffine(a) && IsAffine(b)
    ensures IsAffine(Mul(a, b))
  {
  }
}
