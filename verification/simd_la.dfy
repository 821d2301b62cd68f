/**
 The renderer's small linear-algebra layer on top of the `simd` types: component-wise minimum and
 maximum of 3-vectors (the primitives a bounding-box union is built from) and the homogeneous
 translation and scale matrices a geometry's transform is composed of.
 */
module SimdLA {
  import opened Simd

  /** `simd_min(a, b)`: the component-wise minimum of two vectors. */
  function VecMin(a: Vec3, b: Vec3): (r: Vec3)
    ensures r.LessEq(a) && r.LessEq(b)
    ensures r.x == a.x || r.x == b.x
    ensures r.y == a.y || r.y == b.y
    ensures r.z == a.z || r.z == b.z
  {
    Vec3(Min(a.x, b.x), Min(a.y, b.y), Min(a.z, b.z))
  }

  /** `simd_max(a, b)`: the component-wise maximum of two vectors. */
  function VecMax(a: Vec3, b: Vec3): (r: Vec3)
    ensures a.LessEq(r) && b.LessEq(r)
    ensures r.x == a.x || r.x == b.x
    ensures r.y == a.y || r.y == b.y
    ensures r.z == a.z || r.z == b.z
  {
    Vec3(Max(a.x, b.x), Max(a.y, b.y), Max(a.z, b.z))
  }

  /** `simd_min(a, b, c)`: the component-wise minimum of three vectors. */
  function VecMin3(a: Vec3, b: Vec3, c: Vec3): (r: Vec3)
    ensures r.LessEq(a) && r.LessEq(b) && r.LessEq(c)
    ensures r.x == a.x || r.x == b.x || r.x == c.x
    ensures r.y == a.y || r.y == b.y || r.y == c.y
    ensures r.z == a.z || r.z == b.z || r.z == c.z
  {
    VecMin(a, VecMin(b, c))
  }

  /** `simd_max(a, b, c)`: the component-wise maximum of three vectors. */
  function VecMax3(a: Vec3, b: Vec3, c: Vec3): (r: Vec3)
    ensures a.LessEq(r) && b.LessEq(r) && c.LessEq(r)
    ensures r.x == a.x || r.x == b.x || r.x == c.x
    ensures r.y == a.y || r.y == b.y || r.y == c.y
    ensures r.z == a.z || r.z == b.z || r.z == c.z
  {
    VecMax(a, VecMax(b, c))
  }

  /** `simd_translation(dt)`: moves a point (w = 1) by `dt` and leaves a direction (w = 0) alone;
      in general it adds `w * dt` to the first three coordinates. */
  function Translation(dt: Vec3): (m: Mat4)
    ensures IsAffine(m)
  {
    Mat4(Vec4(1.0, 0.0, 0.0, dt.x),
         Vec4(0.0, 1.0, 0.0, dt.y),
         Vec4(0.0, 0.0, 1.0, dt.z),
         Vec4(0.0, 0.0, 0.0, 1.0))
  }

  /** `simd_scale(ds)`: multiplies each of the first three coordinates by the matching component of
      `ds` and keeps `w`. */
  function Scale(ds: Vec3): (m: Mat4)
    ensures IsAffine(m)
  {
    Mat4(Vec4(ds.x, 0.0, 0.0, 0.0),
         Vec4(0.0, ds.y, 0.0, 0.0),
         Vec4(0.0, 0.0, ds.z, 0.0),
         Vec4(0.0, 0.0, 0.0, 1.0))
  }

  // ---------------------------------------------------------------------------------------------
  // Minimum and maximum

  /** `simd_min(a, b)` is the greatest lower bound of `a` and `b` in the component-wise order. */
  lemma VecMinIsGreatestLowerBound(a: Vec3, b: Vec3, v: Vec3)
    ensures v.LessEq(VecMin(a, b)) <==> v.LessEq(a) && v.LessEq(b)
  {
  }

  /** `simd_max(a, b)` is the least upper bound of `a` and `b` in the component-wise order. */
  lemma VecMaxIsLeastUpperBound(a: Vec3, b: Vec3, v: Vec3)
    ensures VecMax(a, b).LessEq(v) <==> a.LessEq(v) && b.LessEq(v)
  {
  }

  lemma VecMinCommutative(a: Vec3, b: Vec3)
    ensures VecMin(a, b) == VecMin(b, a)
  {
  }

  lemma VecMaxCommutative(a: Vec3, b: Vec3)
    ensures VecMax(a, b) == VecMax(b, a)
  {
  }

  lemma VecMinIdempotent(a: Vec3)
    ensures VecMin(a, a) == a
  {
  }

  lemma VecMaxIdempotent(a: Vec3)
    ensures VecMax(a, a) == a
  {
  }

  lemma VecMinAssociative(a: Vec3, b: Vec3, c: Vec3)
    ensures VecMin(a, VecMin(b, c)) == VecMin(VecMin(a, b), c)
  {
  }

  lemma VecMaxAssociative(a: Vec3, b: Vec3, c: Vec3)
    ensures VecMax(a, VecMax(b, c)) == VecMax(VecMax(a, b), c)
  {
  }

  /** The minimum of two vectors lies below their maximum. */
  lemma VecMinBelowVecMax(a: Vec3, b: Vec3)
    ensures VecMin(a, b).LessEq(VecMax(a, b))
  {
  }

  /** The three-argument minimum does not depend on the order of its arguments. */
  lemma VecMin3Symmetric(a: Vec3, b: Vec3, c: Vec3)
    ensures VecMin3(a, b, c) == VecMin3(b, a, c) == VecMin3(a, c, b)
         == VecMin3(b, c, a) == VecMin3(c, a, b) == VecMin3(c, b, a)
  {
  }

  /** The three-argument maximum does not depend on the order of its arguments. */
  lemma VecMax3Symmetric(a: Vec3, b: Vec3, c: Vec3)
    ensures VecMax3(a, b, c) == VecMax3(b, a, c) == VecMax3(a, c, b)
         == VecMax3(b, c, a) == VecMax3(c, a, b) == VecMax3(c, b, a)
  {
  }

  // ---------------------------------------------------------------------------------------------
  // Translation and scale matrices

  /** `simd_translation(dt)` adds `w * dt` to the first three coordinates and keeps `w`. */
  lemma TranslationAction(dt: Vec3, v: Vec4)
    ensures Apply(Translation(dt), v) == Vec4(v.x + v.w * dt.x, v.y + v.w * dt.y, v.z + v.w * dt.z, v.w)
  {
  }

  /** `simd_scale(ds)` multiplies the first three coordinates by `ds` and keeps `w`. */
  lemma ScaleAction(ds: Vec3, v: Vec4)
    ensures Apply(Scale(ds), v) == Vec4(ds.x * v.x, ds.y * v.y, ds.z * v.z, v.w)
  {
  }

  lemma TranslationMovesPoint(dt: Vec3, p: Vec3)
    ensures Apply(Translation(dt), Point(p)) == Point(Add(p, dt))
  {
    TranslationAction(dt, Point(p));
  }

  lemma TranslationFixesDirection(dt: Vec3, d: Vec3)
    ensures Apply(Translation(dt), Direction(d)) == Direction(d)
  {
    TranslationAction(dt, Direction(d));
  }

  lemma ScaleActsOnPoint(ds: Vec3, p: Vec3)
    ensures Apply(Scale(ds), Point(p)) == Point(Times(ds, p))
  {
    ScaleAction(ds, Point(p));
  }

  lemma ScaleActsOnDirection(ds: Vec3, d: Vec3)
    ensures Apply(Scale(ds), Direction(d)) == Direction(Times(ds, d))
  {
    ScaleAction(ds, Direction(d));
  }

  lemma TranslationByZeroIsIdentity()
    ensures Translation(Vec3(0.0, 0.0, 0.0)) == Identity()
  {
  }

  lemma ScaleByOneIsIdentity()
    ensures Scale(Vec3(1.0, 1.0, 1.0)) == Identity()
  {
  }

  /** Translating by `(0,0,0)` and scaling by `(1,1,1)` leave every point where it is. */
  lemma NeutralTransformsFixPoint(p: Vec3)
    ensures Apply(Translation(Vec3(0.0, 0.0, 0.0)), Point(p)) == Point(p)
    ensures Apply(Scale(Vec3(1.0, 1.0, 1.0)), Point(p)) == Point(p)
  {
    TranslationByZeroIsIdentity();
    ScaleByOneIsIdentity();
    IdentityFixes(Point(p));
  }

  /** Two translations compose into the translation by the sum of their offsets. */
  lemma TranslationsCompose(a: Vec3, b: Vec3)
    ensures Mul(Translation(a), Translation(b)) == Translation(Add(a, b))
  {
    forall v: Vec4
      ensures Apply(Mul(Translation(a), Translation(b)), v) == Apply(Translation(Add(a, b)), v)
    {
      MulApply(Translation(a), Translation(b), v);
      TranslationAction(b, v);
      TranslationAction(a, Apply(Translation(b), v));
      TranslationAction(Add(a, b), v);
    }
    ActionDeterminesMatrix(Mul(Translation(a), Translation(b)), Translation(Add(a, b)));
  }

  /** Translating by `-dt` undoes translating by `dt`, on either side. */
  lemma TranslationInverse(dt: Vec3)
    ensures Mul(Translation(Neg(dt)), Translation(dt)) == Identity()
    ensures Mul(Translation(dt), Translation(Neg(dt))) == Identity()
  {
    var zero := Vec3(0.0, 0.0, 0.0);
    assert Add(Neg(dt), dt) == zero;
    assert Add(dt, Neg(dt)) == zero;
    TranslationsCompose(Neg(dt), dt);
    TranslationsCompose(dt, Neg(dt));
    TranslationByZeroIsIdentity();
  }

  /** Two scales compose into the scale by the component-wise product of their factors. */
  lemma ScalesCompose(a: Vec3, b: Vec3)
    ensures Mul(Scale(a), Scale(b)) == Scale(Times(a, b))
  {
    forall v: Vec4
      ensures Apply(Mul(Scale(a), Scale(b)), v) == Apply(Scale(Times(a, b)), v)
    {
      MulApply(Scale(a), Scale(b), v);
      ScaleAction(b, v);
      ScaleAction(a, Apply(Scale(b), v));
      ScaleAction(Times(a, b), v);
      assert a.x * (b.x * v.x) == (a.x * b.x) * v.x;
      assert a.y * (b.y * v.y) == (a.y * b.y) * v.y;
      assert a.z * (b.z * v.z) == (a.z * b.z) * v.z;
    }
    ActionDeterminesMatrix(Mul(Scale(a), Scale(b)), Scale(Times(a, b)));
  }

  /** A scale with no zero factor is undone by the scale by the reciprocal factors. */
  lemma ScaleInverse(ds: Vec3)
    requires NoZeroComponent(ds)
    ensures Mul(Scale(Recip(ds)), Scale(ds)) == Identity()
    ensures Mul(Scale(ds), Scale(Recip(ds))) == Identity()
  {
    ScalesCompose(Recip(ds), ds);
    ScalesCompose(ds, Recip(ds));
    assert Times(ds, Recip(ds)) == Times(Recip(ds), ds) == Vec3(1.0, 1.0, 1.0);
    ScaleByOneIsIdentity();
  }

  /** `translation * scale` scales a point first and then moves it; the product is again affine.
      A geometry's transform is `translation * rotation * scale`; the rotation factor between the
      two is not part of this model. */
  lemma ScaleThenTranslate(dt: Vec3, ds: Vec3, p: Vec3)
    ensures Apply(Mul(Translation(dt), Scale(ds)), Point(p)) == Point(Add(Times(ds, p), dt))
    ensures IsAffine(Mul(Translation(dt), Scale(ds)))
  {
    MulApply(Translation(dt), Scale(ds), Point(p));
    ScaleActsOnPoint(ds, p);
    TranslationMovesPoint(dt, Times(ds, p));
    MulAffine(Translation(dt), Scale(ds));
  }
}
