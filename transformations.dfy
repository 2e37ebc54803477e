/*
  The 2D transformation functions: conversion between Euclidean and
  homogeneous coordinates, the elementary builders, combination,
  inversion and the application of a matrix to a set of points.

  Points are treated as column vectors: a matrix m acts on the
  homogeneous point (x, y, 1) as m @ (x, y, 1).
*/
module Transformations {
  import opened Algebra

  /** The failures the functions report. */
  datatype Error =
    | NonInvertible    // a matrix that had to be inverted has determinant 0
    | InvalidArgument  // an argument of the wrong shape or length

  datatype Result<T> = Ok(value: T) | Err(error: Error)

  /** A Euclidean point. */
  datatype Point = Point(x: real, y: real)

  /** What the point functions accept: a bare list [x, y], which is read
      as a batch of one point, or an N x 2 array of points. */
  datatype Points = Single(p: Point) | Batch(ps: seq<Point>)

  /** The rows of an argument once a bare point is wrapped as a batch. */
  function Rows(points: Points): seq<Point>
  {
    match points
    case Single(p) => [p]
    case Batch(ps) => ps
  }

  /** The point with a 1 appended. */
  function Lift(p: Point): Vector
  {
    Vector(p.x, p.y, 1.0)
  }

  /** The first two coordinates of a homogeneous point. */
  function Drop(v: Vector): Point
  {
    Point(v.x, v.y)
  }

  // ---------------------------------------------------------------------
  // Homogeneous and Euclidean coordinates

  /** Every row with a 1 appended. */
  function AppendOnes(ps: seq<Point>): (r: seq<Vector>)
    ensures |r| == |ps|
    ensures forall i :: 0 <= i < |r| ==> r[i].w == 1.0 && Drop(r[i]) == ps[i]
  {
    if ps == [] then [] else [Lift(ps[0])] + AppendOnes(ps[1..])
  }

  /** make_homogeneous: N rows, each the input row followed by 1; a bare
      point gives one row. */
  function MakeHomogeneous(points: Points): (r: seq<Vector>)
    ensures |r| == |Rows(points)|
    ensures forall i :: 0 <= i < |r| ==> r[i].w == 1.0 && Drop(r[i]) == Rows(points)[i]
  {
    AppendOnes(Rows(points))
  }

  /** make_euclidean: every row without its last coordinate, which is
      dropped and not divided by. */
  function MakeEuclidean(hs: seq<Vector>): (r: seq<Point>)
    ensures |r| == |hs|
    ensures forall i :: 0 <= i < |r| ==> r[i].x == hs[i].x && r[i].y == hs[i].y
  {
    if hs == [] then [] else [Drop(hs[0])] + MakeEuclidean(hs[1..])
  }

  /** Converting to homogeneous coordinates and back gives the rows. */
  lemma HomogeneousRoundTrip(points: Points)
    ensures MakeEuclidean(MakeHomogeneous(points)) == Rows(points)
  {
  }

  /** Converting homogeneous rows to Euclidean and back gives them back
      exactly when every last coordinate is 1. */
  lemma EuclideanRoundTrip(hs: seq<Vector>)
    ensures MakeHomogeneous(Batch(MakeEuclidean(hs))) == hs
        <==> forall i :: 0 <= i < |hs| ==> hs[i].w == 1.0
  {
    var back := MakeHomogeneous(Batch(MakeEuclidean(hs)));
    if forall i :: 0 <= i < |hs| ==> hs[i].w == 1.0 {
      assert forall i :: 0 <= i < |hs| ==> back[i] == hs[i];
    }
  }

  /** The last coordinate is not divided by: (2, 4, 2) becomes (2, 4). */
  lemma EuclideanDoesNotNormalise()
    ensures MakeEuclidean([Vector(2.0, 4.0, 2.0)]) == [Point(2.0, 4.0)]
  {
  }

  // ---------------------------------------------------------------------
  // Applying a matrix to points

  /** The matrix applied to one point. */
  function TransformPoint(m: Matrix, p: Point): Point
  {
    Drop(Apply(m, Lift(p)))
  }

  /** The matrix applied to every column of the (transposed) rows. */
  function ApplyAll(m: Matrix, hs: seq<Vector>): (r: seq<Vector>)
    ensures |r| == |hs|
    ensures forall i :: 0 <= i < |r| ==> r[i] == Apply(m, hs[i])
  {
    if hs == [] then [] else [Apply(m, hs[0])] + ApplyAll(m, hs[1..])
  }

  /** transform_points: make_euclidean((m @ make_homogeneous(points).T).T).
      It returns as many points as it was given, and output i depends on
      input i only. */
  function TransformPoints(m: Matrix, points: Points): (r: seq<Point>)
    ensures |r| == |Rows(points)|
    ensures forall i :: 0 <= i < |r| ==> r[i] == TransformPoint(m, Rows(points)[i])
  {
    MakeEuclidean(ApplyAll(m, MakeHomogeneous(points)))
  }

  /** Transforming a batch piece by piece is transforming it whole. */
  lemma TransformPointsConcat(m: Matrix, ps: seq<Point>, qs: seq<Point>)
    ensures TransformPoints(m, Batch(ps + qs))
         == TransformPoints(m, Batch(ps)) + TransformPoints(m, Batch(qs))
  {
    var l := TransformPoints(m, Batch(ps + qs));
    var r := TransformPoints(m, Batch(ps)) + TransformPoints(m, Batch(qs));
    forall i | 0 <= i < |l|
      ensures l[i] == r[i]
    {
      if i < |ps| {
        assert (ps + qs)[i] == ps[i];
      } else {
        assert (ps + qs)[i] == qs[i - |ps|];
      }
    }
  }

  /** A bare point is transformed like a batch holding only it. */
  lemma TransformSingle(m: Matrix, p: Point)
    ensures TransformPoints(m, Single(p)) == TransformPoints(m, Batch([p]))
    ensures TransformPoints(m, Single(p)) == [TransformPoint(m, p)]
  {
  }

  // ---------------------------------------------------------------------
  // Affine matrices and the elementary builders

  /** The bottom row is [0, 0, 1]. */
  predicate IsAffine(m: Matrix)
  {
    m.m20 == 0.0 && m.m21 == 0.0 && m.m22 == 1.0
  }

  /** An affine matrix keeps the last coordinate of a homogeneous point. */
  lemma AffineKeepsW(m: Matrix, v: Vector)
    requires IsAffine(m)
    ensures Apply(m, v).w == v.w
  {
  }

  /** An affine matrix sends (x, y) to the first two rows applied to
      (x, y, 1). */
  lemma AffinePoint(m: Matrix, p: Point)
    requires IsAffine(m)
    ensures Apply(m, Lift(p)) == Lift(TransformPoint(m, p))
    ensures TransformPoint(m, p)
         == Point(m.m00 * p.x + m.m01 * p.y + m.m02, m.m10 * p.x + m.m11 * p.y + m.m12)
  {
  }

  /** The product of affine matrices is affine. */
  lemma MulAffine(a: Matrix, b: Matrix)
    requires IsAffine(a) && IsAffine(b)
    ensures IsAffine(Mul(a, b))
  {
  }

  /** identity(): affine, and it leaves every point where it is. */
  lemma IdentityLaws(points: Points)
    ensures IsAffine(Identity())
    ensures TransformPoints(Identity(), points) == Rows(points)
  {
    forall i | 0 <= i < |Rows(points)|
      ensures TransformPoint(Identity(), Rows(points)[i]) == Rows(points)[i]
    {
      IdentityNeutral(Identity(), Lift(Rows(points)[i]));
    }
  }

  /** rotating, from the cosine c and sine s of the angle. */
  function Rotating(c: real, s: real): (r: Matrix)
    ensures IsAffine(r)
  {
    Matrix(c, s, 0.0,
           -s, c, 0.0,
           0.0, 0.0, 1.0)
  }

  /** translating(tx, ty). */
  function Translating(tx: real, ty: real): (r: Matrix)
    ensures IsAffine(r)
  {
    Matrix(1.0, 0.0, tx,
           0.0, 1.0, ty,
           0.0, 0.0, 1.0)
  }

  /** scaling(sx, sy). */
  function Scaling(sx: real, sy: real): (r: Matrix)
    ensures IsAffine(r)
  {
    Matrix(sx, 0.0, 0.0,
           0.0, sy, 0.0,
           0.0, 0.0, 1.0)
  }

  /** The default arguments of each builder give the identity. */
  lemma BuilderDefaults()
    ensures Rotating(1.0, 0.0) == Identity()
    ensures Translating(0.0, 0.0) == Identity()
    ensures Scaling(1.0, 1.0) == Identity()
  {
  }

  /** translating(tx, ty) adds (tx, ty) to each point. */
  lemma TranslatingShifts(tx: real, ty: real, p: Point)
    ensures TransformPoint(Translating(tx, ty), p) == Point(p.x + tx, p.y + ty)
  {
  }

  /** scaling(sx, sy) multiplies the coordinates by sx and sy. */
  lemma ScalingScales(sx: real, sy: real, p: Point)
    ensures TransformPoint(Scaling(sx, sy), p) == Point(sx * p.x, sy * p.y)
  {
  }

  /** rotating sends (x, y) to (c x + s y, c y - s x): for an angle in
      (0, 90) degrees the x axis turns towards -y, the y axis towards +x. */
  lemma RotatingTurns(c: real, s: real, p: Point)
    ensures TransformPoint(Rotating(c, s), p) == Point(c * p.x + s * p.y, c * p.y - s * p.x)
  {
  }

  /** |(c x + s y, c y - s x)|^2 == (c^2 + s^2) |(x, y)|^2 */
  lemma RotationNormPoly(c: real, s: real, x: real, y: real)
    ensures (c * x + s * y) * (c * x + s * y) + (c * y - s * x) * (c * y - s * x)
         == (c * c + s * s) * (x * x + y * y)
  {
  }

  /** A rotation (c^2 + s^2 == 1) keeps the distance to the origin. */
  lemma RotatingKeepsNorm(c: real, s: real, p: Point)
    requires c * c + s * s == 1.0
    ensures var q := TransformPoint(Rotating(c, s), p);
      q.x * q.x + q.y * q.y == p.x * p.x + p.y * p.y
  {
    RotatingTurns(c, s, p);
    RotationNormPoly(c, s, p.x, p.y);
  }

  /** Rotations compose by the angle-addition formulas. */
  lemma RotatingAdds(c1: real, s1: real, c2: real, s2: real)
    ensures Mul(Rotating(c1, s1), Rotating(c2, s2))
         == Rotating(c1 * c2 - s1 * s2, s1 * c2 + c1 * s2)
  {
  }

  /** Translations compose by adding their offsets. */
  lemma TranslatingAdds(tx1: real, ty1: real, tx2: real, ty2: real)
    ensures Mul(Translating(tx1, ty1), Translating(tx2, ty2)) == Translating(tx1 + tx2, ty1 + ty2)
  {
  }

  /** Scalings compose by multiplying their factors. */
  lemma ScalingMultiplies(sx1: real, sy1: real, sx2: real, sy2: real)
    ensures Mul(Scaling(sx1, sy1), Scaling(sx2, sy2)) == Scaling(sx1 * sx2, sy1 * sy2)
  {
  }

  // ---------------------------------------------------------------------
  // Combination

  /** The sequence in reverse order. */
  function Reversed(ms: seq<Matrix>): (r: seq<Matrix>)
    ensures |r| == |ms|
    ensures forall i :: 0 <= i < |ms| ==> r[i] == ms[|ms| - 1 - i]
  {
    if ms == [] then [] else Reversed(ms[1..]) + [ms[0]]
  }

  /** functools.reduce with the matrix product, from the accumulator acc:
      ((acc @ rest[0]) @ rest[1]) @ ... */
  function Fold(acc: Matrix, rest: seq<Matrix>): Matrix
    decreases |rest|
  {
    if rest == [] then acc else Fold(Mul(acc, rest[0]), rest[1..])
  }

  /** combine(*ms): the arguments reversed, then folded with @; with no
      argument the fold has nothing to start from. */
  function Combine(ms: seq<Matrix>): (r: Result<Matrix>)
    ensures r.Err? <==> ms == []
    ensures r.Err? ==> r.error == InvalidArgument
  {
    if ms == [] then Err(InvalidArgument)
    else
      var rs := Reversed(ms);
      Ok(Fold(rs[0], rs[1..]))
  }

  /** The reference meaning of a list of transformations: apply ms[0]
      first, then ms[1], and so on. */
  function ApplyInOrder(ms: seq<Matrix>, v: Vector): Vector
    decreases |ms|
  {
    if ms == [] then v else ApplyInOrder(ms[1..], Apply(ms[0], v))
  }

  /** Apply the last element of rs first, the first element last. */
  function ApplyBackward(rs: seq<Matrix>, v: Vector): Vector
    decreases |rs|
  {
    if rs == [] then v else Apply(rs[0], ApplyBackward(rs[1..], v))
  }

  lemma {:induction false} FoldApplies(acc: Matrix, rest: seq<Matrix>, v: Vector)
    ensures Apply(Fold(acc, rest), v) == Apply(acc, ApplyBackward(rest, v))
    decreases |rest|
  {
    if rest != [] {
      FoldApplies(Mul(acc, rest[0]), rest[1..], v);
      ApplyMul(acc, rest[0], ApplyBackward(rest[1..], v));
    }
  }

  lemma {:induction false} ApplyBackwardSnoc(rs: seq<Matrix>, m: Matrix, v: Vector)
    ensures ApplyBackward(rs + [m], v) == ApplyBackward(rs, Apply(m, v))
    decreases |rs|
  {
    if rs != [] {
      assert (rs + [m])[1..] == rs[1..] + [m];
      ApplyBackwardSnoc(rs[1..], m, v);
    }
  }

  lemma {:induction false} ApplyBackwardReversed(ms: seq<Matrix>, v: Vector)
    ensures ApplyBackward(Reversed(ms), v) == ApplyInOrder(ms, v)
    decreases |ms|
  {
    if ms != [] {
      ApplyBackwardSnoc(Reversed(ms[1..]), ms[0], v);
      ApplyBackwardReversed(ms[1..], Apply(ms[0], v));
    }
  }

  /** The combined matrix applies its arguments in argument order. */
  lemma CombineAppliesInOrder(ms: seq<Matrix>, v: Vector)
    requires ms != []
    ensures Apply(Combine(ms).value, v) == ApplyInOrder(ms, v)
  {
    var rs := Reversed(ms);
    FoldApplies(rs[0], rs[1..], v);
    assert rs == [rs[0]] + rs[1..];
    ApplyBackwardReversed(ms, v);
  }

  /** Combining one matrix gives that matrix. */
  lemma CombineOne(m: Matrix)
    ensures Combine([m]) == Ok(m)
  {
  }

  /** Combining three matrices is their product right to left. */
  lemma CombineThree(a: Matrix, b: Matrix, c: Matrix)
    ensures Combine([a, b, c]) == Ok(Mul(Mul(c, b), a))
  {
    assert Reversed([a, b, c]) == [c, b, a];
    calc {
      Fold(c, [b, a]);
      { assert [b, a][1..] == [a]; }
      Fold(Mul(c, b), [a]);
      Fold(Mul(Mul(c, b), a), []);
    }
  }

  lemma {:induction false} FoldAffine(acc: Matrix, rest: seq<Matrix>)
    requires IsAffine(acc) && forall i :: 0 <= i < |rest| ==> IsAffine(rest[i])
    ensures IsAffine(Fold(acc, rest))
    decreases |rest|
  {
    if rest != [] {
      MulAffine(acc, rest[0]);
      FoldAffine(Mul(acc, rest[0]), rest[1..]);
    }
  }

  /** Combining matrices with bottom row [0, 0, 1] gives one. */
  lemma CombineAffine(ms: seq<Matrix>)
    requires ms != [] && forall i :: 0 <= i < |ms| ==> IsAffine(ms[i])
    ensures IsAffine(Combine(ms).value)
  {
    var rs := Reversed(ms);
    FoldAffine(rs[0], rs[1..]);
  }

  /** The reference meaning on Euclidean points: transform_points by
      ms[0], then by ms[1], and so on. */
  function TransformInOrder(ms: seq<Matrix>, p: Point): Point
    decreases |ms|
  {
    if ms == [] then p else TransformInOrder(ms[1..], TransformPoint(ms[0], p))
  }

  lemma {:induction false} ApplyInOrderAffine(ms: seq<Matrix>, p: Point)
    requires ms != [] && forall i :: 0 <= i < |ms| - 1 ==> IsAffine(ms[i])
    ensures Drop(ApplyInOrder(ms, Lift(p))) == TransformInOrder(ms, p)
    decreases |ms|
  {
    if |ms| > 1 {
      AffinePoint(ms[0], p);
      ApplyInOrderAffine(ms[1..], TransformPoint(ms[0], p));
    }
  }

  /** Transforming points by combine(M1, ..., Mn) is transforming them by
      M1, then M2, ..., then Mn, provided every matrix but the last has
      bottom row [0, 0, 1]: make_euclidean does not divide by the last
      coordinate, so a chain of transform_points only agrees with the
      product when the intermediate points keep it at 1. */
  lemma CombineTransformsInOrder(ms: seq<Matrix>, points: Points)
    requires ms != [] && forall i :: 0 <= i < |ms| - 1 ==> IsAffine(ms[i])
    ensures var r := TransformPoints(Combine(ms).value, points);
      forall i :: 0 <= i < |r| ==> r[i] == TransformInOrder(ms, Rows(points)[i])
  {
    forall i | 0 <= i < |Rows(points)|
      ensures TransformPoint(Combine(ms).value, Rows(points)[i]) == TransformInOrder(ms, Rows(points)[i])
    {
      CombineAppliesInOrder(ms, Lift(Rows(points)[i]));
      ApplyInOrderAffine(ms, Rows(points)[i]);
    }
  }

  /** Without that proviso the chain and the product differ: after
      m = diag(1, 1, 2) and translating(1, 0) the origin goes to (1, 0)
      step by step, but to (2, 0) under the combined matrix. */
  lemma CombineNeedsAffine()
    ensures var m := Matrix(1.0, 0.0, 0.0, 0.0, 1.0, 0.0, 0.0, 0.0, 2.0);
      TransformInOrder([m, Translating(1.0, 0.0)], Point(0.0, 0.0)) == Point(1.0, 0.0)
      && TransformPoint(Combine([m, Translating(1.0, 0.0)]).value, Point(0.0, 0.0)) == Point(2.0, 0.0)
  {
    var m := Matrix(1.0, 0.0, 0.0, 0.0, 1.0, 0.0, 0.0, 0.0, 2.0);
    var t := Translating(1.0, 0.0);
    assert Reversed([m, t]) == [t, m];
    assert [t, m][1..] == [m];
    assert [m][1..] == [];
    assert Fold(t, [m]) == Fold(Mul(t, m), []);
    assert Combine([m, t]) == Ok(Mul(t, m));
    assert Mul(t, m) == Matrix(1.0, 0.0, 2.0, 0.0, 1.0, 0.0, 0.0, 0.0, 2.0);
    assert TransformPoint(m, Point(0.0, 0.0)) == Point(0.0, 0.0);
    calc {
      TransformInOrder([m, t], Point(0.0, 0.0));
      { assert [m, t][1..] == [t]; }
      TransformInOrder([t], TransformPoint(m, Point(0.0, 0.0)));
      TransformInOrder([], TransformPoint(t, Point(0.0, 0.0)));
    }
  }

  /** The combination in the transformation script: rotate, then
      translate by (7, 7), then scale by 0.5, written out entry by entry,
      and its effect on the point (5, 5). */
  lemma RotateTranslateScale(c: real, s: real)
    ensures Combine([Rotating(c, s), Translating(7.0, 7.0), Scaling(0.5, 0.5)])
         == Ok(Matrix(0.5 * c, 0.5 * s, 3.5,
                      -0.5 * s, 0.5 * c, 3.5,
                      0.0, 0.0, 1.0))
    ensures TransformPoints(Combine([Rotating(c, s), Translating(7.0, 7.0), Scaling(0.5, 0.5)]).value,
                            Batch([Point(5.0, 5.0)]))
         == [Point(2.5 * c + 2.5 * s + 3.5, 2.5 * c - 2.5 * s + 3.5)]
  {
    RotateTranslateScaleMatrix(c, s);
    RotateTranslateScaleImage(c, s);
  }

  /** Scaling by 0.5 after translating by (7, 7). */
  lemma ScaleAfterTranslate()
    ensures Mul(Scaling(0.5, 0.5), Translating(7.0, 7.0))
         == Matrix(0.5, 0.0, 3.5, 0.0, 0.5, 3.5, 0.0, 0.0, 1.0)
  {
  }

  /** That product after the rotation. */
  lemma ScaleTranslateAfterRotate(c: real, s: real)
    ensures Mul(Matrix(0.5, 0.0, 3.5, 0.0, 0.5, 3.5, 0.0, 0.0, 1.0), Rotating(c, s))
         == Matrix(0.5 * c, 0.5 * s, 3.5, -0.5 * s, 0.5 * c, 3.5, 0.0, 0.0, 1.0)
  {
  }

  /** The combined matrix of the transformation script. */
  lemma RotateTranslateScaleMatrix(c: real, s: real)
    ensures Combine([Rotating(c, s), Translating(7.0, 7.0), Scaling(0.5, 0.5)])
         == Ok(Matrix(0.5 * c, 0.5 * s, 3.5,
                      -0.5 * s, 0.5 * c, 3.5,
                      0.0, 0.0, 1.0))
  {
    CombineThree(Rotating(c, s), Translating(7.0, 7.0), Scaling(0.5, 0.5));
    ScaleAfterTranslate();
    ScaleTranslateAfterRotate(c, s);
  }

  /** The image of (5, 5) under the combined matrix of the script. */
  lemma RotateTranslateScaleImage(c: real, s: real)
    ensures TransformPoints(Matrix(0.5 * c, 0.5 * s, 3.5, -0.5 * s, 0.5 * c, 3.5, 0.0, 0.0, 1.0),
                            Batch([Point(5.0, 5.0)]))
         == [Point(2.5 * c + 2.5 * s + 3.5, 2.5 * c - 2.5 * s + 3.5)]
  {
    TransformSingle(Matrix(0.5 * c, 0.5 * s, 3.5, -0.5 * s, 0.5 * c, 3.5, 0.0, 0.0, 1.0),
                    Point(5.0, 5.0));
  }

  // ---------------------------------------------------------------------
  // Inversion

  /** invert(m): a NonInvertible failure exactly when det(m) == 0, and
      otherwise the two-sided inverse. */
  function Invert(m: Matrix): (r: Result<Matrix>)
    ensures r.Err? <==> Det(m) == 0.0
    ensures r.Err? ==> r.error == NonInvertible
    ensures r.Ok? ==> Mul(r.value, m) == Identity() && Mul(m, r.value) == Identity()
  {
    if Det(m) != 0.0 then Ok(Inverse(m)) else Err(NonInvertible)
  }

  /** When invert fails, no matrix undoes m. */
  lemma InvertFailsOnlyWithoutInverse(m: Matrix, a: Matrix)
    requires Invert(m).Err?
    ensures Mul(a, m) != Identity()
  {
    SingularHasNoInverse(m, a);
  }

  /** When invert succeeds, its result is the only left inverse. */
  lemma InvertUnique(m: Matrix, a: Matrix)
    requires Mul(a, m) == Identity()
    ensures Invert(m) == Ok(a)
  {
    LeftInverseUnique(m, a);
  }

  /** Inverting twice gives the matrix back. */
  lemma InvertInvolutive(m: Matrix)
    requires Invert(m).Ok?
    ensures Invert(Invert(m).value) == Ok(m)
  {
    InvertUnique(Invert(m).value, m);
  }

  /** The inverse of an affine matrix is affine. */
  lemma InvertAffine(m: Matrix)
    requires IsAffine(m) && Invert(m).Ok?
    ensures IsAffine(Invert(m).value)
  {
    var a := Invert(m).value;
    assert Mul(m, a).m20 == a.m20 && Mul(m, a).m21 == a.m21 && Mul(m, a).m22 == a.m22;
  }

  /** For an invertible affine m, transforming by m and then by
      invert(m) gives every point back. */
  lemma InvertUndoes(m: Matrix, points: Points)
    requires IsAffine(m) && Invert(m).Ok?
    ensures TransformPoints(Invert(m).value, Batch(TransformPoints(m, points))) == Rows(points)
  {
    var a := Invert(m).value;
    var r := TransformPoints(a, Batch(TransformPoints(m, points)));
    forall i | 0 <= i < |r|
      ensures r[i] == Rows(points)[i]
    {
      var p := Rows(points)[i];
      AffinePoint(m, p);
      ApplyMul(a, m, Lift(p));
      IdentityNeutral(a, Lift(p));
    }
  }

  /** The same, in the other order. */
  lemma InvertIsUndone(m: Matrix, points: Points)
    requires IsAffine(m) && Invert(m).Ok?
    ensures TransformPoints(m, Batch(TransformPoints(Invert(m).value, points))) == Rows(points)
  {
    var a := Invert(m).value;
    InvertAffine(m);
    var r := TransformPoints(m, Batch(TransformPoints(a, points)));
    forall i | 0 <= i < |r|
      ensures r[i] == Rows(points)[i]
    {
      var p := Rows(points)[i];
      AffinePoint(a, p);
      ApplyMul(m, a, Lift(p));
      IdentityNeutral(m, Lift(p));
    }
  }

  /** Without bottom row [0, 0, 1] inversion does not undo the point
      transform: m = [[1, 0, 1], [0, 1, 0], [0, 0, 2]] has the inverse
      [[1, 0, -0.5], [0, 1, 0], [0, 0, 0.5]]; m sends the origin to (1, 0),
      and its inverse sends (1, 0) to (0.5, 0). */
  lemma InvertNeedsAffine()
    ensures var m := Matrix(1.0, 0.0, 1.0, 0.0, 1.0, 0.0, 0.0, 0.0, 2.0);
      var a := Matrix(1.0, 0.0, -0.5, 0.0, 1.0, 0.0, 0.0, 0.0, 0.5);
      Invert(m) == Ok(a)
      && TransformPoints(a, Batch(TransformPoints(m, Batch([Point(0.0, 0.0)])))) == [Point(0.5, 0.0)]
  {
    var m := Matrix(1.0, 0.0, 1.0, 0.0, 1.0, 0.0, 0.0, 0.0, 2.0);
    var a := Matrix(1.0, 0.0, -0.5, 0.0, 1.0, 0.0, 0.0, 0.0, 0.5);
    InvertNeedsAffineInverse();
    InvertUnique(m, a);
    InvertNeedsAffineImage();
  }

  /** The image of the origin in InvertNeedsAffine. */
  lemma InvertNeedsAffineImage()
    ensures var m := Matrix(1.0, 0.0, 1.0, 0.0, 1.0, 0.0, 0.0, 0.0, 2.0);
      var a := Matrix(1.0, 0.0, -0.5, 0.0, 1.0, 0.0, 0.0, 0.0, 0.5);
      TransformPoints(a, Batch(TransformPoints(m, Batch([Point(0.0, 0.0)])))) == [Point(0.5, 0.0)]
  {
    var m := Matrix(1.0, 0.0, 1.0, 0.0, 1.0, 0.0, 0.0, 0.0, 2.0);
    var a := Matrix(1.0, 0.0, -0.5, 0.0, 1.0, 0.0, 0.0, 0.0, 0.5);
    TransformSingle(m, Point(0.0, 0.0));
    assert TransformPoint(m, Point(0.0, 0.0)) == Point(1.0, 0.0);
    TransformSingle(a, Point(1.0, 0.0));
    assert TransformPoint(a, Point(1.0, 0.0)) == Point(0.5, 0.0);
  }

  /** The inverse in InvertNeedsAffine undoes its matrix. */
  lemma InvertNeedsAffineInverse()
    ensures Mul(Matrix(1.0, 0.0, -0.5, 0.0, 1.0, 0.0, 0.0, 0.0, 0.5),
                Matrix(1.0, 0.0, 1.0, 0.0, 1.0, 0.0, 0.0, 0.0, 2.0)) == Identity()
  {
  }

  /** A rotation is inverted by rotating by the opposite angle. */
  lemma InvertRotating(c: real, s: real)
    requires c * c + s * s == 1.0
    ensures Invert(Rotating(c, s)) == Ok(Rotating(c, -s))
  {
    RotatingAdds(c, -s, c, s);
    InvertUnique(Rotating(c, s), Rotating(c, -s));
  }

  /** A translation is inverted by translating by the opposite offset. */
  lemma InvertTranslating(tx: real, ty: real)
    ensures Invert(Translating(tx, ty)) == Ok(Translating(-tx, -ty))
  {
    TranslatingAdds(-tx, -ty, tx, ty);
    InvertUnique(Translating(tx, ty), Translating(-tx, -ty));
  }

  /** A scaling fails to invert exactly when a factor is 0, and is
      otherwise inverted by the reciprocal factors. */
  lemma InvertScaling(sx: real, sy: real)
    ensures Invert(Scaling(sx, sy)).Err? <==> sx * sy == 0.0
    ensures sx != 0.0 && sy != 0.0 ==> Invert(Scaling(sx, sy)) == Ok(Scaling(1.0 / sx, 1.0 / sy))
  {
    if sx != 0.0 && sy != 0.0 {
      ScalingMultiplies(1.0 / sx, 1.0 / sy, sx, sy);
      InvertUnique(Scaling(sx, sy), Scaling(1.0 / sx, 1.0 / sy));
    }
  }
}
