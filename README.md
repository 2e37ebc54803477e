# 2D affine transformations

A model of the geometry module `transformations.py` of a small texture-mapping
project. The module builds 3x3 matrices for rotation, translation and scaling in
homogeneous coordinates. It combines them in the order they are to be applied,
inverts them, and applies them to sets of 2D points. It also recovers the
affine matrix that maps one triangle onto another by solving a 6x6 linear
system.

Every function of the module builds a fresh value from its arguments, so the
model is written as Dafny functions and lemmas:

- `algebra.dfy` (module `Algebra`) defines the parts of numpy the module relies
  on: 3x3 matrices as a datatype of nine reals. It gives the product `@`, the
  matrix-vector product, the determinant and the inverse as adjugate over
  determinant, together with the identity matrix that `identity()` returns.
  It proves associativity, the multiplicativity of the determinant, and that
  the inverse is the only left inverse and the only right inverse.
- `transformations.dfy` (module `Transformations`) covers `make_homogeneous`,
  `make_euclidean`, `transform_points`, `rotating`, `translating`,
  `scaling`, `combine` and `invert`, and the laws of `identity()`.
- `affine_fit.dfy` (module `AffineFit`) covers `learn_affine`.

Arithmetic is exact (`real`), and the determinant tests compare with exactly
zero. A point is a column vector, so a matrix `m` sends `(x, y, 1)` to
`m @ (x, y, 1)`. `make_euclidean` drops the last coordinate without dividing by
it. Laws that chain several point transforms therefore need every intermediate
matrix to have bottom row `[0, 0, 1]`:
- combination order needs this for all matrices but the last one;
- undoing a transform by its inverse needs it for the matrix.

The model states that proviso and proves, by a concrete case for each law, that
it cannot be dropped (`CombineNeedsAffine` for combination, `InvertNeedsAffine`
for inversion).

Failures are values of `Result`. They are `NonInvertible`, for the exception
raised on a zero determinant, and `InvalidArgument`, for the Python or numpy
error that a badly shaped argument causes:
- `combine()` with no argument;
- fewer than three source points;
- a target array without exactly six entries.

`learn_affine` checks in the order the code does. It reads the three source
points first, then tests the determinant, then multiplies by the target
vector. So collinear source points give `NonInvertible` even when the targets
are malformed.

`learn_affine` tests the determinant of the 6x6 system. The model tests the
determinant of the 3x3 matrix `S` with rows `[x_i, y_i, 1]` instead, because
the system is two copies of `S`. It proves that the two tests agree:
- If `det(S) != 0`, the system has exactly one solution for every right-hand
  side (`Solve`, `SystemInjective`).
- If `det(S) == 0`, the homogeneous system has a non-zero solution
  (`SystemSingular`).
- `det(S) == 0` exactly when the three source points are collinear.

The model solves the system through the inverse of `S`. It proves that the
result satisfies the literal 6x6 system, written out entry by entry as in the
source.

`rotating` takes an angle in degrees. The model takes the cosine `c` and sine
`s` of that angle. Where a law needs a true rotation, it requires
`c * c + s * s == 1`.

`RotateTranslateScale` takes the combination of test_transformations.py:9-11,
`combine(rotating(20), translating(7, 7), scaling(.5, .5))`.

## Model

| member | source | states |
|---|---|---|
| `Algebra.Identity` | transformations.py:56-63 | definition of `identity()`; its laws are stated by `IdentityNeutral`, `DetIdentity` and `Transformations.IdentityLaws` |
| `Algebra.Mul` | transformations.py:155 | definition of numpy's `@` on 3x3 matrices; its laws are stated by `MulAssociative`, `ApplyMul`, `ScaleMul`, `DetMul` and `IdentityNeutral` |
| `Algebra.Apply` | transformations.py:18 | definition of `m @ v` for a column vector `v`; its law is stated by `ApplyMul` |
| `Algebra.Det` | transformations.py:140 | definition of numpy's `det` on 3x3 matrices; its laws are stated by `DetMul`, `DetIdentity` and `AdjugateProduct` |
| `Algebra.Adjugate` | transformations.py:142 | definition of the adjugate from which numpy's `inv` is computed; its law is stated by `AdjugateProduct` |
| `Algebra.IdentityNeutral` | transformations.py:56-63 | `identity()` is neutral for `@` on both sides and for the matrix-vector product |
| `Algebra.ApplyMul` | transformations.py:17-19 | applying `a @ b` to a column vector is applying `b` first and then `a` |
| `Algebra.MulAssociative` | transformations.py:154-155 | `@` is associative, so the fold in `combine` does not depend on its bracketing |
| `Algebra.ScaleMul` | transformations.py:142 | a scalar factor moves out of either side of a product |
| `Algebra.AdjugateProduct` | transformations.py:142 | `m @ adj(m) == adj(m) @ m == det(m) * I` |
| `Algebra.DetMul` | transformations.py:140-141 | `det(a @ b) == det(a) * det(b)` |
| `Algebra.DetIdentity` | transformations.py:56-63 | `det(identity()) == 1` |
| `Algebra.Inverse` | transformations.py:142 | for `det(m) != 0`, `adj(m) / det(m)` is a two-sided inverse of `m` |
| `Algebra.LeftInverseUnique` | transformations.py:140-144 | any left inverse of `m` forces `det(m) != 0` and equals the inverse |
| `Algebra.SingularHasNoInverse` | transformations.py:140-144 | a matrix with determinant 0 has no left inverse |
| `Algebra.RightInverseUnique` | transformations.py:140-144 | any right inverse of `m` forces `det(m) != 0` and equals the inverse |
| `Algebra.KernelTrivial` | transformations.py:178-181 | a matrix with non-zero determinant sends only the zero vector to zero (used by `AffineFit.SystemKernelTrivial`) |
| `Transformations.AppendOnes` | transformations.py:42-44 | one output row per input row, its last coordinate 1 and its first two the input row |
| `Transformations.MakeHomogeneous` | transformations.py:34-44 | N rows for N points, a bare point giving one row. Each row is the point followed by 1 |
| `Transformations.MakeEuclidean` | transformations.py:47-53 | one point per row, holding the row's first two coordinates |
| `Transformations.HomogeneousRoundTrip` | transformations.py:34-53 | `make_euclidean(make_homogeneous(P)) == P`, a bare point giving the one-row batch |
| `Transformations.EuclideanRoundTrip` | transformations.py:34-53 | `make_homogeneous(make_euclidean(H)) == H` exactly when every last coordinate of `H` is 1 |
| `Transformations.EuclideanDoesNotNormalise` | transformations.py:53 | `(2, 4, 2)` becomes `(2, 4)`: the last coordinate is not divided by |
| `Transformations.TransformPoint` | transformations.py:8-19 | definition of `transform_points` on one point, `(m @ (x, y, 1))` without its last coordinate; its laws are stated by `TransformPoints`, `AffinePoint` and the builder lemmas |
| `Transformations.ApplyAll` | transformations.py:18 | `m @ ph` transforms each column of `ph` separately |
| `Transformations.TransformPoints` | transformations.py:8-19 | as many points out as in; output `i` is `m` applied to input `i` only |
| `Transformations.TransformPointsConcat` | transformations.py:8-19 | transforming a concatenation is concatenating the transforms |
| `Transformations.TransformSingle` | transformations.py:40-42 | a bare point is transformed as the batch of that one point |
| `Transformations.AffineKeepsW` | transformations.py:8-19 | a matrix with bottom row `[0, 0, 1]` keeps the last homogeneous coordinate |
| `Transformations.AffinePoint` | transformations.py:8-19 | such a matrix sends `(x, y)` to `(m00 x + m01 y + m02, m10 x + m11 y + m12)`, keeping homogeneous 1 |
| `Transformations.MulAffine` | transformations.py:155 | the product of matrices with bottom row `[0, 0, 1]` has that bottom row |
| `Transformations.IdentityLaws` | transformations.py:56-63 | `identity()` has bottom row `[0, 0, 1]`, and transforming points with it returns them unchanged |
| `Transformations.Rotating` | transformations.py:76-79 | the rotation matrix has bottom row `[0, 0, 1]` |
| `Transformations.Translating` | transformations.py:93-96 | the translation matrix has bottom row `[0, 0, 1]` |
| `Transformations.Scaling` | transformations.py:112-115 | the scaling matrix has bottom row `[0, 0, 1]` |
| `Transformations.BuilderDefaults` | transformations.py:65-115 | angle 0 (`c = 1, s = 0`), `translating(0, 0)` and `scaling(1, 1)` all equal `identity()` |
| `Transformations.TranslatingShifts` | transformations.py:93-96 | `translating(tx, ty)` adds `(tx, ty)` to a point |
| `Transformations.ScalingScales` | transformations.py:112-115 | `scaling(sx, sy)` multiplies the coordinates by `sx` and `sy` |
| `Transformations.RotatingTurns` | transformations.py:76-79 | the rotation sends `(x, y)` to `(c x + s y, c y - s x)` |
| `Transformations.RotatingKeepsNorm` | transformations.py:76-79 | for `c^2 + s^2 == 1` the distance to the origin is kept |
| `Transformations.RotatingAdds` | transformations.py:76-79 | rotation matrices multiply by the angle-addition formulas |
| `Transformations.TranslatingAdds` | transformations.py:93-96 | translation matrices multiply by adding their offsets |
| `Transformations.ScalingMultiplies` | transformations.py:112-115 | scaling matrices multiply by multiplying their factors |
| `Transformations.Reversed` | transformations.py:154 | the same length, element `i` being element `n - 1 - i` of the argument |
| `Transformations.Fold` | transformations.py:155 | definition of `functools.reduce` with `@` from a first matrix; its meaning is stated by `FoldApplies` and `CombineAppliesInOrder` |
| `Transformations.Combine` | transformations.py:147-155 | fails with `InvalidArgument` exactly when there is no argument |
| `Transformations.CombineAppliesInOrder` | transformations.py:147-155 | the combined matrix applied to a vector applies the first argument first, then the second, and so on |
| `Transformations.CombineOne` | transformations.py:147-155 | `combine(m) == m` |
| `Transformations.CombineThree` | transformations.py:154-155 | `combine(a, b, c) == c @ b @ a` |
| `Transformations.CombineAffine` | transformations.py:147-155 | combining matrices with bottom row `[0, 0, 1]` gives one |
| `Transformations.CombineTransformsInOrder` | transformations.py:147-155 | with all but the last matrix affine, `transform_points(combine(M1..Mn), P)` is `transform_points` by `M1`, then `M2`, ..., then `Mn` |
| `Transformations.CombineNeedsAffine` | transformations.py:47-53 | with a first matrix of bottom row `[0, 0, 2]`, the chained and the combined transform of the origin differ |
| `Transformations.RotateTranslateScaleMatrix` | test_transformations.py:9-11 | `combine(rotating, translating(7, 7), scaling(.5, .5))` is the matrix with rows `[0.5 c, 0.5 s, 3.5]`, `[-0.5 s, 0.5 c, 3.5]`, `[0, 0, 1]` |
| `Transformations.RotateTranslateScaleImage` | test_transformations.py:37-45 | that matrix sends `(5, 5)` to `(2.5 c + 2.5 s + 3.5, 2.5 c - 2.5 s + 3.5)` |
| `Transformations.RotateTranslateScale` | test_transformations.py:37-45 | `combine(rotating, translating(7, 7), scaling(.5, .5))` is the matrix written out in the script, and it sends `(5, 5)` to that matrix's image |
| `Transformations.Invert` | transformations.py:135-144 | `NonInvertible` exactly when `det(m) == 0`; otherwise a two-sided inverse |
| `Transformations.InvertFailsOnlyWithoutInverse` | transformations.py:140-144 | when `invert` fails, no matrix undoes `m` |
| `Transformations.InvertUnique` | transformations.py:140-142 | any left inverse of `m` is what `invert(m)` returns |
| `Transformations.InvertInvolutive` | transformations.py:135-144 | `invert(invert(m)) == m` |
| `Transformations.InvertAffine` | transformations.py:135-144 | the inverse of a matrix with bottom row `[0, 0, 1]` has that bottom row |
| `Transformations.InvertUndoes` | transformations.py:135-144 | for affine `m`, points transformed by `m` and then by `invert(m)` come back unchanged |
| `Transformations.InvertIsUndone` | transformations.py:135-144 | for affine `m`, points transformed by `invert(m)` and then by `m` come back unchanged |
| `Transformations.InvertNeedsAffine` | transformations.py:47-53 | for `m = [[1, 0, 1], [0, 1, 0], [0, 0, 2]]`, `invert(m)` succeeds, yet transforming the origin by `m` and then by `invert(m)` gives `(0.5, 0)` |
| `Transformations.InvertRotating` | transformations.py:76-79 | for `c^2 + s^2 == 1`, the inverse of a rotation is the rotation by the opposite angle |
| `Transformations.InvertTranslating` | transformations.py:93-96 | the inverse of a translation is the translation by the opposite offset |
| `Transformations.InvertScaling` | transformations.py:112-115 | inverting a scaling fails exactly when a factor is 0, and otherwise gives the scaling by the reciprocal factors |
| `AffineFit.SourceDetZeroIffCollinear` | transformations.py:167-179 | `det(S) == 0` exactly when the three source points are collinear |
| `AffineFit.SystemMatrix` | transformations.py:170-176 | the system is 6x6 |
| `AffineFit.Flatten` | transformations.py:169 | `tar.flatten()` has `2N` entries, entry `2i` and `2i + 1` being the coordinates of point `i` |
| `AffineFit.MatVec6` | transformations.py:181 | definition of numpy's `@` for the 6x6 system, giving six entries; what the product means is stated by `SystemBlocks`, `Solve` and `FitMaps` |
| `AffineFit.SystemBlocks` | transformations.py:170-176 | even rows of the system are `S` applied to the first three unknowns, odd rows `S` applied to the last three |
| `AffineFit.ParamsToMatrix` | transformations.py:183-188 | the parameters become an affine matrix from which they can be read back |
| `AffineFit.ParamsDetermine` | transformations.py:185-188 | an affine matrix is rebuilt from its six parameters |
| `AffineFit.ApplyInverse` | transformations.py:180-181 | applying a matrix and its inverse, in either order, gives every vector back |
| `AffineFit.Solve` | transformations.py:180-182 | `inv(a) @ b` solves the 6x6 system: `a @ x == b` |
| `AffineFit.SystemInjective` | transformations.py:178-181 | when `det(S) != 0` two parameter vectors with the same image are equal |
| `AffineFit.SystemKernelTrivial` | transformations.py:178-181 | when `det(S) != 0` only the zero vector solves the homogeneous system |
| `AffineFit.LineThrough` | transformations.py:178-179 | collinear points lie on a line `a x + b y + c == 0` with `(a, b) != (0, 0)` |
| `AffineFit.SystemSingular` | transformations.py:178-179 | when `det(S) == 0` a non-zero parameter vector solves the homogeneous system |
| `AffineFit.LearnAffine` | transformations.py:158-191 | `InvalidArgument` below three source points; `NonInvertible` exactly for collinear source points; otherwise `InvalidArgument` exactly when there are not three targets, and a matrix when there are. A result is affine and maps each source point onto its target |
| `AffineFit.FitMaps` | transformations.py:181-188 | a solution of the system, as a matrix, maps each source point onto its target |
| `AffineFit.AffineDeterminedByTriangle` | transformations.py:158-165 | two affine matrices agreeing on a non-collinear triangle are equal |
| `AffineFit.FitRoundTrip` | transformations.py:158-191 | `learn_affine(S, transform_points(A, S)) == A` for a non-collinear triangle `S` and affine `A` |
| `AffineFit.FitRecoversCombination` | test_affine.py:15-19 | fitting a triangle to its image under `combine(scaling, translating, rotating)` returns that combination |
| `AffineFit.CollinearRejected` | transformations.py:178-191 | collinear source points give `NonInvertible` whatever the targets |

## Left out

- `transform_image` delegates to the OpenCV call `warpPerspective` with the matrix and the image size. It is a foreign library call on images and is not modelled.
- `arbitrary` draws random angles, factors and offsets. Randomness is outside a pure model, and the function only feeds demonstrations.
- The degree-to-radian conversion, `cos` and `sin` in `rotating` are floating-point numerics. `Rotating` takes the cosine and sine as reals.
- Floating-point rounding is not modelled. Arithmetic is exact, the determinant tests compare with exact zero, and the tests' approximate comparisons become equalities.
- numpy's general `det` and `inv` of the 6x6 matrix are replaced by the block solve through the 3x3 inverse. The 6x6 determinant is not computed; `SystemBlocks`, `SystemInjective` and `SystemSingular` show that the two tests give the same verdict on every input.
- `LearnAffine` takes both arguments as sequences of 2D points. Extra columns of the source array, which the code never reads, are not modelled. Target arrays of other shapes, which flatten to a vector of another length, are not modelled either; only their length decides the outcome.
- `MakeHomogeneous` reads a bare Python list as one point `[x, y]`. Nested lists, which numpy turns into a three-dimensional array that `hstack` rejects, are not modelled. Nor are arrays with other than two columns. `MakeEuclidean` takes only three-coordinate rows, while `points[:, :-1]` drops the last column of rows of any width.
- The test scripts' image reading, showing and writing, the output directory, key handling and random sampling are I/O and randomness and are not modelled.
