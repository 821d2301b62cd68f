# Pollux linear-algebra helpers in Dafny

Pollux is a GPU path tracer. Its scene loader composes every geometry's transform from a
translation, a rotation and a scale matrix. Its bounding boxes are unions built from
component-wise vector minima and maxima. Both rest on a small helper layer over Apple's `simd`
types, `Pollux/Data_Types/simd_la.swift`. This project models that layer:

- `simd_min` and `simd_max` on 3-vectors, in their two- and three-argument forms;
- `simd_translation` and `simd_scale`, which build 4×4 homogeneous matrices.

The model has three modules:

- `Simd` (`simd.dfy`) stands for the `simd` value types. `Vec3` is `SIMD3<Float>` and `Vec4` is
  `SIMD4<Float>`. `Mat4` is `float4x4`, stored by rows as `float4x4(rows:)` writes it, and it
  acts on column vectors through `Apply`. The module also defines the matrix product `Mul`, the
  transpose, the identity, Swift's scalar `min` and `max`, and the predicate `IsAffine` (bottom
  row `(0, 0, 0, 1)`).
- `SimdLA` (`simd_la.dfy`) holds the helper functions and their properties.
- `Reduction` (`reduction.dfy`) extends the three-argument forms, which are the right fold of the
  two-argument minimum and maximum, to any non-empty list of vectors. The fold's contract makes it
  the component-wise minimum (maximum) of the list. It splits over concatenation, and it does not
  depend on the order of the list.

Scalars are mathematical `real`s.

## Model

| member | source | states |
|---|---|---|
| Simd.Min | Pollux/Data_Types/simd_la.swift:59 | Swift's scalar `min` is at most both arguments and equals one of them |
| Simd.Max | Pollux/Data_Types/simd_la.swift:64 | Swift's scalar `max` is at least both arguments and equals one of them |
| Simd.MulApply | Pollux/Data_Types/simd_la.swift:46 | the matrix product acts as the composition of its factors: `(a * b) v == a (b v)` |
| Simd.ActionDeterminesMatrix | Pollux/Data_Types/simd_la.swift:21-24 | a row-major matrix is determined by its action on column vectors |
| Simd.MulAffine | Pollux/Data_Types/simd_la.swift:24 | the product of two matrices with bottom row `(0,0,0,1)` has that bottom row too |
| SimdLA.VecMin | Pollux/Data_Types/simd_la.swift:58-60 | the result is component-wise at most `a` and at most `b`, and each component equals that of `a` or that of `b` |
| SimdLA.VecMax | Pollux/Data_Types/simd_la.swift:63-65 | the result is component-wise at least `a` and at least `b`, and each component equals that of `a` or that of `b` |
| SimdLA.VecMin3 | Pollux/Data_Types/simd_la.swift:68-70 | the result is component-wise at most all three inputs, and each component comes from one of them |
| SimdLA.VecMax3 | Pollux/Data_Types/simd_la.swift:73-75 | the result is component-wise at least all three inputs, and each component comes from one of them |
| SimdLA.Translation | Pollux/Data_Types/simd_la.swift:20-25 | the translation matrix is affine: its bottom row is `(0,0,0,1)` |
| SimdLA.Scale | Pollux/Data_Types/simd_la.swift:50-55 | the scale matrix is affine: its bottom row is `(0,0,0,1)` |
| SimdLA.VecMinIsGreatestLowerBound | Pollux/Data_Types/simd_la.swift:58-60 | a vector lies below `simd_min(a, b)` exactly when it lies below both `a` and `b` |
| SimdLA.VecMaxIsLeastUpperBound | Pollux/Data_Types/simd_la.swift:63-65 | a vector lies above `simd_max(a, b)` exactly when it lies above both `a` and `b` |
| SimdLA.VecMinCommutative | Pollux/Data_Types/simd_la.swift:58-60 | `simd_min(a, b) == simd_min(b, a)` |
| SimdLA.VecMaxCommutative | Pollux/Data_Types/simd_la.swift:63-65 | `simd_max(a, b) == simd_max(b, a)` |
| SimdLA.VecMinIdempotent | Pollux/Data_Types/simd_la.swift:58-60 | `simd_min(a, a) == a` |
| SimdLA.VecMaxIdempotent | Pollux/Data_Types/simd_la.swift:63-65 | `simd_max(a, a) == a` |
| SimdLA.VecMinAssociative | Pollux/Data_Types/simd_la.swift:58-60 | `simd_min(a, simd_min(b, c)) == simd_min(simd_min(a, b), c)` |
| SimdLA.VecMaxAssociative | Pollux/Data_Types/simd_la.swift:63-65 | `simd_max(a, simd_max(b, c)) == simd_max(simd_max(a, b), c)` |
| SimdLA.VecMinBelowVecMax | Pollux/Data_Types/simd_la.swift:58-65 | `simd_min(a, b)` lies component-wise below `simd_max(a, b)` |
| SimdLA.VecMin3Symmetric | Pollux/Data_Types/simd_la.swift:68-70 | the three-argument minimum is the same for all six orders of its arguments |
| SimdLA.VecMax3Symmetric | Pollux/Data_Types/simd_la.swift:73-75 | the three-argument maximum is the same for all six orders of its arguments |
| SimdLA.TranslationAction | Pollux/Data_Types/simd_la.swift:20-25 | the translation matrix maps `(x,y,z,w)` to `(x + w·dt.x, y + w·dt.y, z + w·dt.z, w)` |
| SimdLA.ScaleAction | Pollux/Data_Types/simd_la.swift:50-55 | the scale matrix maps `(x,y,z,w)` to `(ds.x·x, ds.y·y, ds.z·z, w)` |
| SimdLA.TranslationMovesPoint | Pollux/Data_Types/simd_la.swift:20-25 | the point `(p, 1)` is mapped to `(p + dt, 1)` |
| SimdLA.TranslationFixesDirection | Pollux/Data_Types/simd_la.swift:20-25 | a direction `(d, 0)` is left unchanged |
| SimdLA.ScaleActsOnPoint | Pollux/Data_Types/simd_la.swift:50-55 | the point `(p, 1)` is mapped to `(ds ⊙ p, 1)` |
| SimdLA.ScaleActsOnDirection | Pollux/Data_Types/simd_la.swift:50-55 | a direction `(d, 0)` is mapped to `(ds ⊙ d, 0)` |
| SimdLA.TranslationByZeroIsIdentity | Pollux/Data_Types/simd_la.swift:20-25 | translating by `(0,0,0)` gives the identity matrix |
| SimdLA.ScaleByOneIsIdentity | Pollux/Data_Types/simd_la.swift:50-55 | scaling by `(1,1,1)` gives the identity matrix |
| SimdLA.NeutralTransformsFixPoint | Pollux/Data_Types/simd_la.swift:20-55 | translating by `(0,0,0)` and scaling by `(1,1,1)` map every point `(p, 1)` to itself |
| SimdLA.TranslationsCompose | Pollux/Data_Types/simd_la.swift:20-25 | the product of the translations by `a` and by `b` is the translation by `a + b` |
| SimdLA.TranslationInverse | Pollux/Data_Types/simd_la.swift:20-25 | the translation by `-dt` is the two-sided inverse of the translation by `dt` |
| SimdLA.ScalesCompose | Pollux/Data_Types/simd_la.swift:50-55 | the product of the scales by `a` and by `b` is the scale by `a ⊙ b` |
| SimdLA.ScaleInverse | Pollux/Data_Types/simd_la.swift:50-55 | with no zero factor, the scale by the reciprocals is the two-sided inverse of the scale |
| SimdLA.ScaleThenTranslate | Pollux/Data_Types/simd_la.swift:20-55 | `translation * scale` maps the point `p` to `ds ⊙ p + dt` and is affine |
| Reduction.MinOf | Pollux/Data_Types/simd_la.swift:68-70 | the right fold of `simd_min` lies below every vector of the list, and each component comes from one of them |
| Reduction.MaxOf | Pollux/Data_Types/simd_la.swift:73-75 | the right fold of `simd_max` lies above every vector of the list, and each component comes from one of them |
| Reduction.VecMin3IsMinOf | Pollux/Data_Types/simd_la.swift:68-70 | the three-argument `simd_min` equals the fold over its three arguments |
| Reduction.VecMax3IsMaxOf | Pollux/Data_Types/simd_la.swift:73-75 | the three-argument `simd_max` equals the fold over its three arguments |
| Reduction.MinOfIsGreatestLowerBound | Pollux/Data_Types/simd_la.swift:68-70 | a vector lies below the fold exactly when it lies below every vector of the list |
| Reduction.MaxOfIsLeastUpperBound | Pollux/Data_Types/simd_la.swift:73-75 | a vector lies above the fold exactly when it lies above every vector of the list |
| Reduction.MinOfAppend | Pollux/Data_Types/simd_la.swift:68-70 | the fold over `s + t` is `simd_min` of the folds over `s` and over `t` |
| Reduction.MaxOfAppend | Pollux/Data_Types/simd_la.swift:73-75 | the fold over `s + t` is `simd_max` of the folds over `s` and over `t` |
| Reduction.MinOfSameElements | Pollux/Data_Types/simd_la.swift:68-70 | two lists with the same vectors, in any order and with any repetition, have the same minimum |
| Reduction.MaxOfSameElements | Pollux/Data_Types/simd_la.swift:73-75 | two lists with the same vectors, in any order and with any repetition, have the same maximum |
| Reduction.MinOfPermutation | Pollux/Data_Types/simd_la.swift:68-70 | permuting the vectors does not change their minimum |
| Reduction.MaxOfPermutation | Pollux/Data_Types/simd_la.swift:73-75 | permuting the vectors does not change their maximum |

## Left out

- `simd_rotation` (`Pollux/Data_Types/simd_la.swift:28-47`) is not modelled. It converts degrees to radians in `Float` and uses `sinf` and `cosf`. Its `rz * ry * rx` product is trigonometric, nonlinear floating-point arithmetic. The matrix product it uses is still modelled, as `Simd.Mul`.
- IEEE `Float` semantics are not modelled: rounding, overflow, infinities and NaN. This includes how Swift's `min` and `max` order a NaN. Scalars are exact reals, so every identity above is exact.
- The `simd` library's storage layout (column-major) is not modelled. Only its meaning is: `float4x4(rows:)` gives the rows, and a matrix multiplies column vectors on the left.
- `Pollux/Data_Types/Environment.swift` is not modelled. It is a record whose initializer only copies its two arguments into its fields.
- SimdLA.Translation: the function's own contract states only that the matrix is affine. Its full action on a vector is stated by `SimdLA.TranslationAction`.
- SimdLA.Scale: the function's own contract states only that the matrix is affine. Its full action on a vector is stated by `SimdLA.ScaleAction`.
