/*
  learn_affine: the affine matrix that maps three source points onto
  three target points, found by solving the 6x6 linear system

      [x_i, y_i, 1, 0,   0,   0  ]   [a1]   [u_i]
      [0,   0,   0, x_i, y_i, 1  ] . [a2] = [v_i]    for i = 1, 2, 3
                                     ...

  for the parameters p = [a1, a2, tx, a3, a4, ty].

  The system consists of two copies of the 3x3 matrix S with rows
  [x_i, y_i, 1], one acting on (a1, a2, tx) and one on (a3, a4, ty); its
  rows are an odd permutation of those of diag(S, S), so its determinant
  is -det(S)^2. The model solves it through the inverse of
  S and tests det(S) == 0 in place of the 6x6 determinant; it shows that
  the 6x6 system has exactly one solution for every right-hand side when
  det(S) != 0 and a non-zero solution of the homogeneous system when
  det(S) == 0, so both tests reject the same inputs.
*/
module AffineFit {
  import opened Algebra
  import opened Transformations

  /** The matrix with rows [x_i, y_i, 1]. */
  function SourceMatrix(p1: Point, p2: Point, p3: Point): Matrix
  {
    Matrix(p1.x, p1.y, 1.0,
           p2.x, p2.y, 1.0,
           p3.x, p3.y, 1.0)
  }

  /** The three points lie on one line (two or all three may coincide). */
  predicate Collinear(p1: Point, p2: Point, p3: Point)
  {
    (p2.x - p1.x) * (p3.y - p1.y) == (p3.x - p1.x) * (p2.y - p1.y)
  }

  lemma SourceDetPoly(x1: real, y1: real, x2: real, y2: real, x3: real, y3: real)
    ensures Det3(x1, y1, 1.0, x2, y2, 1.0, x3, y3, 1.0)
         == (x2 - x1) * (y3 - y1) - (x3 - x1) * (y2 - y1)
  {
  }

  /** det(S) is zero exactly when the source points are collinear. */
  lemma SourceDetZeroIffCollinear(p1: Point, p2: Point, p3: Point)
    ensures Det(SourceMatrix(p1, p2, p3)) == 0.0 <==> Collinear(p1, p2, p3)
  {
    SourceDetPoly(p1.x, p1.y, p2.x, p2.y, p3.x, p3.y);
  }

  // ---------------------------------------------------------------------
  // The 6x6 system as the source writes it

  /** The matrix a of learn_affine. */
  function SystemMatrix(p1: Point, p2: Point, p3: Point): (r: seq<seq<real>>)
    ensures |r| == 6 && forall i :: 0 <= i < 6 ==> |r[i]| == 6
  {
    [[p1.x, p1.y, 1.0, 0.0, 0.0, 0.0],
     [0.0, 0.0, 0.0, p1.x, p1.y, 1.0],
     [p2.x, p2.y, 1.0, 0.0, 0.0, 0.0],
     [0.0, 0.0, 0.0, p2.x, p2.y, 1.0],
     [p3.x, p3.y, 1.0, 0.0, 0.0, 0.0],
     [0.0, 0.0, 0.0, p3.x, p3.y, 1.0]]
  }

  /** tar.flatten(): the coordinates of the points, row by row. */
  function Flatten(tar: seq<Point>): (r: seq<real>)
    ensures |r| == 2 * |tar|
    ensures forall i :: 0 <= i < |tar| ==> r[2 * i] == tar[i].x && r[2 * i + 1] == tar[i].y
  {
    if tar == [] then [] else [tar[0].x, tar[0].y] + Flatten(tar[1..])
  }

  /** The dot product of two 6-vectors. */
  function Dot6(row: seq<real>, p: seq<real>): real
    requires |row| == 6 && |p| == 6
  {
    Dot(row[0], row[1], row[2], p[0], p[1], p[2]) + Dot(row[3], row[4], row[5], p[3], p[4], p[5])
  }

  /** The 6x6 matrix a times the 6-vector p: numpy's @, by definition. */
  function MatVec6(a: seq<seq<real>>, p: seq<real>): (r: seq<real>)
    requires |a| == 6 && forall i :: 0 <= i < 6 ==> |a[i]| == 6
    requires |p| == 6
    ensures |r| == 6
  {
    [Dot6(a[0], p), Dot6(a[1], p), Dot6(a[2], p), Dot6(a[3], p), Dot6(a[4], p), Dot6(a[5], p)]
  }

  /** The first three and the last three entries of a 6-vector. */
  function Upper(p: seq<real>): Vector
    requires |p| == 6
  {
    Vector(p[0], p[1], p[2])
  }

  function Lower(p: seq<real>): Vector
    requires |p| == 6
  {
    Vector(p[3], p[4], p[5])
  }

  lemma DotZeroRow(x: real, y: real, z: real)
    ensures Dot(0.0, 0.0, 0.0, x, y, z) == 0.0
  {
  }

  /** Row by row, the 6x6 product is S times the upper half (even rows)
      and S times the lower half (odd rows). */
  lemma SystemBlocks(p1: Point, p2: Point, p3: Point, p: seq<real>)
    requires |p| == 6
    ensures var r := MatVec6(SystemMatrix(p1, p2, p3), p);
      var s := SourceMatrix(p1, p2, p3);
      r == [Apply(s, Upper(p)).x, Apply(s, Lower(p)).x,
            Apply(s, Upper(p)).y, Apply(s, Lower(p)).y,
            Apply(s, Upper(p)).w, Apply(s, Lower(p)).w]
  {
    DotZeroRow(p[0], p[1], p[2]);
    DotZeroRow(p[3], p[4], p[5]);
  }

  /** p = [a1, a2, tx, a3, a4, ty] as the affine matrix
      [[a1, a2, tx], [a3, a4, ty], [0, 0, 1]]. */
  function ParamsToMatrix(p: seq<real>): (r: Matrix)
    requires |p| == 6
    ensures IsAffine(r) && Params(r) == p
  {
    Matrix(p[0], p[1], p[2],
           p[3], p[4], p[5],
           0.0, 0.0, 1.0)
  }

  /** The six free entries of an affine matrix, row by row. */
  function Params(m: Matrix): (r: seq<real>)
    ensures |r| == 6
  {
    [m.m00, m.m01, m.m02, m.m10, m.m11, m.m12]
  }

  /** An affine matrix is given by its six parameters. */
  lemma ParamsDetermine(m: Matrix)
    requires IsAffine(m)
    ensures ParamsToMatrix(Params(m)) == m
  {
  }

  // ---------------------------------------------------------------------
  // Solving the system

  /** A matrix with non-zero determinant followed by its inverse is the
      identity on vectors. */
  lemma ApplyInverse(m: Matrix, v: Vector)
    requires Det(m) != 0.0
    ensures Apply(m, Apply(Inverse(m), v)) == v
    ensures Apply(Inverse(m), Apply(m, v)) == v
  {
    ApplyMul(m, Inverse(m), v);
    ApplyMul(Inverse(m), m, v);
    IdentityNeutral(m, v);
  }

  /** x = inv(a) @ b, computed blockwise: the unique solution of the
      system a x = b. */
  function Solve(p1: Point, p2: Point, p3: Point, b: seq<real>): (x: seq<real>)
    requires Det(SourceMatrix(p1, p2, p3)) != 0.0 && |b| == 6
    ensures |x| == 6 && MatVec6(SystemMatrix(p1, p2, p3), x) == b
  {
    var s := SourceMatrix(p1, p2, p3);
    var u := Apply(Inverse(s), Vector(b[0], b[2], b[4]));
    var v := Apply(Inverse(s), Vector(b[1], b[3], b[5]));
    ApplyInverse(s, Vector(b[0], b[2], b[4]));
    ApplyInverse(s, Vector(b[1], b[3], b[5]));
    SystemBlocks(p1, p2, p3, [u.x, u.y, u.w, v.x, v.y, v.w]);
    [u.x, u.y, u.w, v.x, v.y, v.w]
  }

  /** When det(S) != 0 the system has at most one solution, so Solve's
      is the only one. */
  lemma SystemInjective(p1: Point, p2: Point, p3: Point, p: seq<real>, q: seq<real>)
    requires Det(SourceMatrix(p1, p2, p3)) != 0.0 && |p| == 6 && |q| == 6
    requires MatVec6(SystemMatrix(p1, p2, p3), p) == MatVec6(SystemMatrix(p1, p2, p3), q)
    ensures p == q
  {
    var s := SourceMatrix(p1, p2, p3);
    SystemBlocks(p1, p2, p3, p);
    SystemBlocks(p1, p2, p3, q);
    assert Apply(s, Upper(p)) == Apply(s, Upper(q));
    assert Apply(s, Lower(p)) == Apply(s, Lower(q));
    ApplyInverse(s, Upper(p));
    ApplyInverse(s, Upper(q));
    ApplyInverse(s, Lower(p));
    ApplyInverse(s, Lower(q));
  }

  /** When det(S) != 0 only the zero vector solves the homogeneous
      system. */
  lemma SystemKernelTrivial(p1: Point, p2: Point, p3: Point, p: seq<real>)
    requires Det(SourceMatrix(p1, p2, p3)) != 0.0 && |p| == 6
    requires MatVec6(SystemMatrix(p1, p2, p3), p) == [0.0, 0.0, 0.0, 0.0, 0.0, 0.0]
    ensures p == [0.0, 0.0, 0.0, 0.0, 0.0, 0.0]
  {
    var s := SourceMatrix(p1, p2, p3);
    SystemBlocks(p1, p2, p3, p);
    KernelTrivial(s, Upper(p));
    KernelTrivial(s, Lower(p));
  }

  /** A line a x + b y + c == 0, as (a, b, c) with (a, b) != (0, 0),
      through three collinear points. */
  function LineThrough(p1: Point, p2: Point, p3: Point): (n: Vector)
    requires Collinear(p1, p2, p3)
    ensures n.x != 0.0 || n.y != 0.0
    ensures Apply(SourceMatrix(p1, p2, p3), n) == Vector(0.0, 0.0, 0.0)
  {
    if p2 != p1 then
      LinePoly(p1.x, p1.y, p2.x, p2.y, p3.x, p3.y);
      Normal(p1, p2)
    else if p3 != p1 then
      LinePoly(p1.x, p1.y, p3.x, p3.y, p2.x, p2.y);
      Normal(p1, p3)
    else
      Vector(1.0, 0.0, -p1.x)
  }

  /** The coefficients (a, b, c) of the line a x + b y + c == 0 through
      p and q, with (a, b) normal to q - p. */
  function Normal(p: Point, q: Point): Vector
  {
    Vector(p.y - q.y, q.x - p.x, (q.y - p.y) * p.x - (q.x - p.x) * p.y)
  }

  /** The line through (x1, y1) and (x2, y2) contains both, and
      contains (x3, y3) when the three are collinear. */
  lemma LinePoly(x1: real, y1: real, x2: real, y2: real, x3: real, y3: real)
    requires (x2 - x1) * (y3 - y1) == (x3 - x1) * (y2 - y1)
    ensures var n := Normal(Point(x1, y1), Point(x2, y2));
      Dot(x1, y1, 1.0, n.x, n.y, n.w) == 0.0 && Dot(x2, y2, 1.0, n.x, n.y, n.w) == 0.0
      && Dot(x3, y3, 1.0, n.x, n.y, n.w) == 0.0
  {
  }

  /** When det(S) == 0 the homogeneous system has a non-zero solution, so
      the 6x6 matrix is singular too. */
  lemma SystemSingular(p1: Point, p2: Point, p3: Point)
    requires Det(SourceMatrix(p1, p2, p3)) == 0.0
    ensures var p := LineParams(p1, p2, p3);
      |p| == 6 && p != [0.0, 0.0, 0.0, 0.0, 0.0, 0.0]
      && MatVec6(SystemMatrix(p1, p2, p3), p) == [0.0, 0.0, 0.0, 0.0, 0.0, 0.0]
  {
    SourceDetZeroIffCollinear(p1, p2, p3);
    var p := LineParams(p1, p2, p3);
    SystemBlocks(p1, p2, p3, p);
    DotZeroRow(p1.x, p1.y, 1.0);
    DotZeroRow(p2.x, p2.y, 1.0);
    DotZeroRow(p3.x, p3.y, 1.0);
  }

  /** The parameters of the line through collinear source points, padded
      with zeros. */
  function LineParams(p1: Point, p2: Point, p3: Point): seq<real>
    requires Det(SourceMatrix(p1, p2, p3)) == 0.0
  {
    SourceDetZeroIffCollinear(p1, p2, p3);
    var n := LineThrough(p1, p2, p3);
    [n.x, n.y, n.w, 0.0, 0.0, 0.0]
  }

  // ---------------------------------------------------------------------
  // learn_affine

  /** learn_affine(src, tar). Reading src[2] fails when there are fewer
      than three source points; then the determinant is compared with 0; then b
      must have the six entries the product with the inverse needs. */
  function LearnAffine(src: seq<Point>, tar: seq<Point>): (r: Result<Matrix>)
    ensures |src| < 3 ==> r == Err(InvalidArgument)
    ensures |src| >= 3 ==> (r == Err(NonInvertible) <==> Collinear(src[0], src[1], src[2]))
    ensures |src| >= 3 && !Collinear(src[0], src[1], src[2]) ==> (r == Err(InvalidArgument) <==> |tar| != 3)
    ensures |src| >= 3 && !Collinear(src[0], src[1], src[2]) && |tar| == 3 ==> r.Ok?
    ensures r.Ok? ==> (IsAffine(r.value) && |src| >= 3 && |tar| == 3
      && forall i :: 0 <= i < 3 ==> TransformPoint(r.value, src[i]) == tar[i])
  {
    if |src| < 3 then Err(InvalidArgument)
    else
      var s := SourceMatrix(src[0], src[1], src[2]);
      var b := Flatten(tar);
      SourceDetZeroIffCollinear(src[0], src[1], src[2]);
      if Det(s) == 0.0 then Err(NonInvertible)
      else if |b| != 6 then Err(InvalidArgument)
      else
        var m := ParamsToMatrix(Solve(src[0], src[1], src[2], b));
        FitMaps(src[0], src[1], src[2], tar, m);
        Ok(m)
  }

  /** The matrix of a solution of the system maps each source point to
      its target. */
  lemma FitMaps(p1: Point, p2: Point, p3: Point, tar: seq<Point>, m: Matrix)
    requires |tar| == 3 && IsAffine(m)
    requires MatVec6(SystemMatrix(p1, p2, p3), Params(m)) == Flatten(tar)
    ensures TransformPoint(m, p1) == tar[0]
    ensures TransformPoint(m, p2) == tar[1]
    ensures TransformPoint(m, p3) == tar[2]
  {
    FitRow(p1, m);
    FitRow(p2, m);
    FitRow(p3, m);
    assert Flatten(tar)[0] == tar[0].x && Flatten(tar)[1] == tar[0].y;
    assert Flatten(tar)[2] == tar[1].x && Flatten(tar)[3] == tar[1].y;
    assert Flatten(tar)[4] == tar[2].x && Flatten(tar)[5] == tar[2].y;
  }

  /** The two rows of the system for one point are the coordinates of
      that point under the matrix. */
  lemma FitRow(p: Point, m: Matrix)
    requires IsAffine(m)
    ensures Dot6([p.x, p.y, 1.0, 0.0, 0.0, 0.0], Params(m)) == TransformPoint(m, p).x
    ensures Dot6([0.0, 0.0, 0.0, p.x, p.y, 1.0], Params(m)) == TransformPoint(m, p).y
  {
    DotZeroRow(m.m00, m.m01, m.m02);
    DotZeroRow(m.m10, m.m11, m.m12);
    AffinePoint(m, p);
  }

  /** An affine matrix is determined by where it sends three
      non-collinear points. */
  lemma AffineDeterminedByTriangle(a: Matrix, b: Matrix, p1: Point, p2: Point, p3: Point)
    requires IsAffine(a) && IsAffine(b) && !Collinear(p1, p2, p3)
    requires TransformPoint(a, p1) == TransformPoint(b, p1)
    requires TransformPoint(a, p2) == TransformPoint(b, p2)
    requires TransformPoint(a, p3) == TransformPoint(b, p3)
    ensures a == b
  {
    SourceDetZeroIffCollinear(p1, p2, p3);
    var tar := [TransformPoint(a, p1), TransformPoint(a, p2), TransformPoint(a, p3)];
    var sys := SystemMatrix(p1, p2, p3);
    FitRow(p1, a); FitRow(p2, a); FitRow(p3, a);
    FitRow(p1, b); FitRow(p2, b); FitRow(p3, b);
    assert MatVec6(sys, Params(a)) == MatVec6(sys, Params(b));
    SystemInjective(p1, p2, p3, Params(a), Params(b));
    ParamsDetermine(a);
    ParamsDetermine(b);
  }

  /** Fitting the images of a non-collinear triangle under an affine
      matrix recovers that matrix. */
  lemma FitRoundTrip(src: seq<Point>, a: Matrix)
    requires |src| == 3 && !Collinear(src[0], src[1], src[2]) && IsAffine(a)
    ensures LearnAffine(src, TransformPoints(a, Batch(src))) == Ok(a)
  {
    var tar := TransformPoints(a, Batch(src));
    var r := LearnAffine(src, tar);
    AffineDeterminedByTriangle(r.value, a, src[0], src[1], src[2]);
  }

  /** The affine test: the combination of scaling(sx, sy), translating(tx,
      ty) and a rotation, applied to a non-collinear triangle, is
      recovered by fitting the triangle to its image. */
  lemma FitRecoversCombination(src: seq<Point>, sx: real, sy: real, tx: real, ty: real, c: real, s: real)
    requires |src| == 3 && !Collinear(src[0], src[1], src[2])
    ensures var compound := Combine([Scaling(sx, sy), Translating(tx, ty), Rotating(c, s)]);
      compound.Ok? && LearnAffine(src, TransformPoints(compound.value, Batch(src))) == compound
  {
    var ms := [Scaling(sx, sy), Translating(tx, ty), Rotating(c, s)];
    CombineAffine(ms);
    FitRoundTrip(src, Combine(ms).value);
  }

  /** Collinear source points are rejected whatever the targets. */
  lemma CollinearRejected(src: seq<Point>, tar: seq<Point>)
    requires |src| >= 3 && Collinear(src[0], src[1], src[2])
    ensures LearnAffine(src, tar) == Err(NonInvertible)
  {
  }
}
