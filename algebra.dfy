/** Exact linear algebra over 3x3 real matrices: the matrix product, the
    matrix-vector product, the determinant and the inverse that the
    transformation module takes from its linear-algebra library.

    Every product of reals is written inside a small scalar function (Dot,
    Times, Det2, Det3). The polynomial identities are proved once about
    those functions over plain real variables (the Cofactor lemmas,
    DotAssociative and the lemmas whose names end in "Poly"), and the matrix
    lemmas then use them entry by entry. */
module Algebra {

  /** A column 3-vector; as a homogeneous point it is (x, y, w). */
  datatype Vector = Vector(x: real, y: real, w: real)

  /** A 3x3 matrix, row-major: mRC is the entry in row R, column C. */
  datatype Matrix = Matrix(
    m00: real, m01: real, m02: real,
    m10: real, m11: real, m12: real,
    m20: real, m21: real, m22: real)

  /** k * x */
  function Times(k: real, x: real): real
  {
    k * x
  }

  /** The dot product of (a0, a1, a2) and (b0, b1, b2). */
  function Dot(a0: real, a1: real, a2: real, b0: real, b1: real, b2: real): real
  {
    a0 * b0 + a1 * b1 + a2 * b2
  }

  /** The determinant of the 2x2 matrix with rows (p, q) and (r, s). */
  function Det2(p: real, q: real, r: real, s: real): real
  {
    p * s - q * r
  }

  /** The determinant of the 3x3 matrix with rows (a, b, c), (d, e, f),
      (g, h, i), by cofactor expansion along the first row. */
  function Det3(a: real, b: real, c: real, d: real, e: real, f: real, g: real, h: real, i: real): real
  {
    a * (e * i - f * h) - b * (d * i - f * g) + c * (d * h - e * g)
  }

  /** The 3x3 identity matrix. */
  function Identity(): Matrix
  {
    Matrix(1.0, 0.0, 0.0,
           0.0, 1.0, 0.0,
           0.0, 0.0, 1.0)
  }

  /** The matrix product a @ b: row of a times column of b. */
  function Mul(a: Matrix, b: Matrix): Matrix
  {
    Matrix(
      Dot(a.m00, a.m01, a.m02, b.m00, b.m10, b.m20),
      Dot(a.m00, a.m01, a.m02, b.m01, b.m11, b.m21),
      Dot(a.m00, a.m01, a.m02, b.m02, b.m12, b.m22),
      Dot(a.m10, a.m11, a.m12, b.m00, b.m10, b.m20),
      Dot(a.m10, a.m11, a.m12, b.m01, b.m11, b.m21),
      Dot(a.m10, a.m11, a.m12, b.m02, b.m12, b.m22),
      Dot(a.m20, a.m21, a.m22, b.m00, b.m10, b.m20),
      Dot(a.m20, a.m21, a.m22, b.m01, b.m11, b.m21),
      Dot(a.m20, a.m21, a.m22, b.m02, b.m12, b.m22))
  }

  /** The product m @ v of a matrix and a column vector. */
  function Apply(m: Matrix, v: Vector): Vector
  {
    Vector(
      Dot(m.m00, m.m01, m.m02, v.x, v.y, v.w),
      Dot(m.m10, m.m11, m.m12, v.x, v.y, v.w),
      Dot(m.m20, m.m21, m.m22, v.x, v.y, v.w))
  }

  /** Every entry of m multiplied by k. */
  function Scale(k: real, m: Matrix): Matrix
  {
    Matrix(Times(k, m.m00), Times(k, m.m01), Times(k, m.m02),
           Times(k, m.m10), Times(k, m.m11), Times(k, m.m12),
           Times(k, m.m20), Times(k, m.m21), Times(k, m.m22))
  }

  /** The determinant of m. */
  function Det(m: Matrix): real
  {
    Det3(m.m00, m.m01, m.m02, m.m10, m.m11, m.m12, m.m20, m.m21, m.m22)
  }

  /** The adjugate: the transpose of the cofactor matrix. */
  function Adjugate(m: Matrix): Matrix
  {
    Matrix(
      Det2(m.m11, m.m12, m.m21, m.m22),
      Det2(m.m02, m.m01, m.m22, m.m21),
      Det2(m.m01, m.m02, m.m11, m.m12),
      Det2(m.m12, m.m10, m.m22, m.m20),
      Det2(m.m00, m.m02, m.m20, m.m22),
      Det2(m.m02, m.m00, m.m12, m.m10),
      Det2(m.m10, m.m11, m.m20, m.m21),
      Det2(m.m01, m.m00, m.m21, m.m20),
      Det2(m.m00, m.m01, m.m10, m.m11))
  }

  // ---------------------------------------------------------------------
  // Identities over plain reals

  /** A factor on either side of a dot product moves outside it; the scaled
      entries are given already multiplied out as p and q. */
  lemma DotScalePoly(k: real, a0: real, a1: real, a2: real, b0: real, b1: real, b2: real,
                     p0: real, p1: real, p2: real, q0: real, q1: real, q2: real)
    requires p0 == Times(k, a0) && p1 == Times(k, a1) && p2 == Times(k, a2)
    requires q0 == Times(k, b0) && q1 == Times(k, b1) && q2 == Times(k, b2)
    ensures Dot(p0, p1, p2, b0, b1, b2) == Times(k, Dot(a0, a1, a2, b0, b1, b2))
    ensures Dot(a0, a1, a2, q0, q1, q2) == Times(k, Dot(a0, a1, a2, b0, b1, b2))
  {
  }

  /* Row i of the matrix (a b c; d e f; g h i) dotted with the cofactors
     of row j is its determinant when i == j and zero otherwise (Rows),
     and the same for columns (Cols); one identity per lemma keeps each
     proof obligation small. */
  lemma CofactorRows00(a: real, b: real, c: real, d: real, e: real, f: real, g: real, h: real, i: real)
    ensures Dot(a, b, c, Det2(e, f, h, i), Det2(f, d, i, g), Det2(d, e, g, h)) == Times(Det3(a, b, c, d, e, f, g, h, i), 1.0)
  {
  }

  lemma CofactorRows01(a: real, b: real, c: real, d: real, e: real, f: real, g: real, h: real, i: real)
    ensures Dot(a, b, c, Det2(c, b, i, h), Det2(a, c, g, i), Det2(b, a, h, g)) == Times(Det3(a, b, c, d, e, f, g, h, i), 0.0)
  {
  }

  lemma CofactorRows02(a: real, b: real, c: real, d: real, e: real, f: real, g: real, h: real, i: real)
    ensures Dot(a, b, c, Det2(b, c, e, f), Det2(c, a, f, d), Det2(a, b, d, e)) == Times(Det3(a, b, c, d, e, f, g, h, i), 0.0)
  {
  }

  lemma CofactorRows10(a: real, b: real, c: real, d: real, e: real, f: real, g: real, h: real, i: real)
    ensures Dot(d, e, f, Det2(e, f, h, i), Det2(f, d, i, g), Det2(d, e, g, h)) == Times(Det3(a, b, c, d, e, f, g, h, i), 0.0)
  {
  }

  lemma CofactorRows11(a: real, b: real, c: real, d: real, e: real, f: real, g: real, h: real, i: real)
    ensures Dot(d, e, f, Det2(c, b, i, h), Det2(a, c, g, i), Det2(b, a, h, g)) == Times(Det3(a, b, c, d, e, f, g, h, i), 1.0)
  {
  }

  lemma CofactorRows12(a: real, b: real, c: real, d: real, e: real, f: real, g: real, h: real, i: real)
    ensures Dot(d, e, f, Det2(b, c, e, f), Det2(c, a, f, d), Det2(a, b, d, e)) == Times(Det3(a, b, c, d, e, f, g, h, i), 0.0)
  {
  }

  lemma CofactorRows20(a: real, b: real, c: real, d: real, e: real, f: real, g: real, h: real, i: real)
    ensures Dot(g, h, i, Det2(e, f, h, i), Det2(f, d, i, g), Det2(d, e, g, h)) == Times(Det3(a, b, c, d, e, f, g, h, i), 0.0)
  {
  }

  lemma CofactorRows21(a: real, b: real, c: real, d: real, e: real, f: real, g: real, h: real, i: real)
    ensures Dot(g, h, i, Det2(c, b, i, h), Det2(a, c, g, i), Det2(b, a, h, g)) == Times(Det3(a, b, c, d, e, f, g, h, i), 0.0)
  {
  }

  lemma CofactorRows22(a: real, b: real, c: real, d: real, e: real, f: real, g: real, h: real, i: real)
    ensures Dot(g, h, i, Det2(b, c, e, f), Det2(c, a, f, d), Det2(a, b, d, e)) == Times(Det3(a, b, c, d, e, f, g, h, i), 1.0)
  {
  }

  lemma CofactorCols00(a: real, b: real, c: real, d: real, e: real, f: real, g: real, h: real, i: real)
    ensures Dot(Det2(e, f, h, i), Det2(c, b, i, h), Det2(b, c, e, f), a, d, g) == Times(Det3(a, b, c, d, e, f, g, h, i), 1.0)
  {
  }

  lemma CofactorCols01(a: real, b: real, c: real, d: real, e: real, f: real, g: real, h: real, i: real)
    ensures Dot(Det2(e, f, h, i), Det2(c, b, i, h), Det2(b, c, e, f), b, e, h) == Times(Det3(a, b, c, d, e, f, g, h, i), 0.0)
  {
  }

  lemma CofactorCols02(a: real, b: real, c: real, d: real, e: real, f: real, g: real, h: real, i: real)
    ensures Dot(Det2(e, f, h, i), Det2(c, b, i, h), Det2(b, c, e, f), c, f, i) == Times(Det3(a, b, c, d, e, f, g, h, i), 0.0)
  {
  }

  lemma CofactorCols10(a: real, b: real, c: real, d: real, e: real, f: real, g: real, h: real, i: real)
    ensures Dot(Det2(f, d, i, g), Det2(a, c, g, i), Det2(c, a, f, d), a, d, g) == Times(Det3(a, b, c, d, e, f, g, h, i), 0.0)
  {
  }

  lemma CofactorCols11(a: real, b: real, c: real, d: real, e: real, f: real, g: real, h: real, i: real)
    ensures Dot(Det2(f, d, i, g), Det2(a, c, g, i), Det2(c, a, f, d), b, e, h) == Times(Det3(a, b, c, d, e, f, g, h, i), 1.0)
  {
  }

  lemma CofactorCols12(a: real, b: real, c: real, d: real, e: real, f: real, g: real, h: real, i: real)
    ensures Dot(Det2(f, d, i, g), Det2(a, c, g, i), Det2(c, a, f, d), c, f, i) == Times(Det3(a, b, c, d, e, f, g, h, i), 0.0)
  {
  }

  lemma CofactorCols20(a: real, b: real, c: real, d: real, e: real, f: real, g: real, h: real, i: real)
    ensures Dot(Det2(d, e, g, h), Det2(b, a, h, g), Det2(a, b, d, e), a, d, g) == Times(Det3(a, b, c, d, e, f, g, h, i), 0.0)
  {
  }

  lemma CofactorCols21(a: real, b: real, c: real, d: real, e: real, f: real, g: real, h: real, i: real)
    ensures Dot(Det2(d, e, g, h), Det2(b, a, h, g), Det2(a, b, d, e), b, e, h) == Times(Det3(a, b, c, d, e, f, g, h, i), 0.0)
  {
  }

  lemma CofactorCols22(a: real, b: real, c: real, d: real, e: real, f: real, g: real, h: real, i: real)
    ensures Dot(Det2(d, e, g, h), Det2(b, a, h, g), Det2(a, b, d, e), c, f, i) == Times(Det3(a, b, c, d, e, f, g, h, i), 1.0)
  {
  }

  /** The determinant of a product of two 3x3 matrices, entry by entry. */
  lemma DetMulPoly(a00: real, a01: real, a02: real, a10: real, a11: real, a12: real,
                   a20: real, a21: real, a22: real,
                   b00: real, b01: real, b02: real, b10: real, b11: real, b12: real,
                   b20: real, b21: real, b22: real)
    ensures Det3(a00 * b00 + a01 * b10 + a02 * b20, a00 * b01 + a01 * b11 + a02 * b21,
                 a00 * b02 + a01 * b12 + a02 * b22,
                 a10 * b00 + a11 * b10 + a12 * b20, a10 * b01 + a11 * b11 + a12 * b21,
                 a10 * b02 + a11 * b12 + a12 * b22,
                 a20 * b00 + a21 * b10 + a22 * b20, a20 * b01 + a21 * b11 + a22 * b21,
                 a20 * b02 + a21 * b12 + a22 * b22)
         == Det3(a00, a01, a02, a10, a11, a12, a20, a21, a22)
          * Det3(b00, b01, b02, b10, b11, b12, b20, b21, b22)
  {
  }

  /** A row times (a matrix times a column) equals (the row times the
      matrix) times the column. */
  lemma DotAssociative(a0: real, a1: real, a2: real,
                       b00: real, b01: real, b02: real, b10: real, b11: real, b12: real,
                       b20: real, b21: real, b22: real, x: real, y: real, w: real)
    ensures Dot(Dot(a0, a1, a2, b00, b10, b20), Dot(a0, a1, a2, b01, b11, b21),
                Dot(a0, a1, a2, b02, b12, b22), x, y, w)
         == Dot(a0, a1, a2, Dot(b00, b01, b02, x, y, w), Dot(b10, b11, b12, x, y, w),
                Dot(b20, b21, b22, x, y, w))
  {
  }

  /** (1/d) * (d * x) == x for non-zero d, at the entries of the identity. */
  lemma CancelPoly(d: real)
    requires d != 0.0
    ensures Times(1.0 / d, Times(d, 1.0)) == 1.0 && Times(1.0 / d, Times(d, 0.0)) == 0.0
  {
  }

  // ---------------------------------------------------------------------
  // The same identities for matrices

  /** The identity is neutral for the product on both sides and for
      the matrix-vector product. */
  lemma IdentityNeutral(m: Matrix, v: Vector)
    ensures Mul(Identity(), m) == m && Mul(m, Identity()) == m
    ensures Apply(Identity(), v) == v
  {
  }

  /** Column j of m. */
  function Column(m: Matrix, j: nat): Vector
    requires j < 3
  {
    if j == 0 then Vector(m.m00, m.m10, m.m20)
    else if j == 1 then Vector(m.m01, m.m11, m.m21)
    else Vector(m.m02, m.m12, m.m22)
  }

  /** Multiplying by a product is applying its factors right to left. */
  lemma ApplyMul(a: Matrix, b: Matrix, v: Vector)
    ensures Apply(Mul(a, b), v) == Apply(a, Apply(b, v))
  {
    DotAssociative(a.m00, a.m01, a.m02, b.m00, b.m01, b.m02, b.m10, b.m11, b.m12, b.m20, b.m21, b.m22, v.x, v.y, v.w);
    DotAssociative(a.m10, a.m11, a.m12, b.m00, b.m01, b.m02, b.m10, b.m11, b.m12, b.m20, b.m21, b.m22, v.x, v.y, v.w);
    DotAssociative(a.m20, a.m21, a.m22, b.m00, b.m01, b.m02, b.m10, b.m11, b.m12, b.m20, b.m21, b.m22, v.x, v.y, v.w);
  }

  /** Column j of a product is the left factor applied to column j of
      the right factor. */
  lemma ColumnOfMul(a: Matrix, b: Matrix, j: nat)
    requires j < 3
    ensures Column(Mul(a, b), j) == Apply(a, Column(b, j))
  {
  }

  /** Matrices with the same three columns are equal. */
  lemma ColumnsDetermine(a: Matrix, b: Matrix)
    requires Column(a, 0) == Column(b, 0) && Column(a, 1) == Column(b, 1)
    requires Column(a, 2) == Column(b, 2)
    ensures a == b
  {
  }

  /** The matrix product is associative. */
  lemma MulAssociative(a: Matrix, b: Matrix, c: Matrix)
    ensures Mul(Mul(a, b), c) == Mul(a, Mul(b, c))
  {
    forall j: nat | j < 3
      ensures Column(Mul(Mul(a, b), c), j) == Column(Mul(a, Mul(b, c)), j)
    {
      ColumnOfMul(Mul(a, b), c, j);
      ApplyMul(a, b, Column(c, j));
      ColumnOfMul(b, c, j);
      ColumnOfMul(a, Mul(b, c), j);
    }
    ColumnsDetermine(Mul(Mul(a, b), c), Mul(a, Mul(b, c)));
  }

  /** A scalar factor moves out of either side of a product. */
  lemma ScaleMul(k: real, a: Matrix, b: Matrix)
    ensures Mul(Scale(k, a), b) == Scale(k, Mul(a, b))
    ensures Mul(a, Scale(k, b)) == Scale(k, Mul(a, b))
  {
    var ka, kb := Scale(k, a), Scale(k, b);
    DotScalePoly(k, a.m00, a.m01, a.m02, b.m00, b.m10, b.m20, ka.m00, ka.m01, ka.m02, kb.m00, kb.m10, kb.m20);
    DotScalePoly(k, a.m00, a.m01, a.m02, b.m01, b.m11, b.m21, ka.m00, ka.m01, ka.m02, kb.m01, kb.m11, kb.m21);
    DotScalePoly(k, a.m00, a.m01, a.m02, b.m02, b.m12, b.m22, ka.m00, ka.m01, ka.m02, kb.m02, kb.m12, kb.m22);
    DotScalePoly(k, a.m10, a.m11, a.m12, b.m00, b.m10, b.m20, ka.m10, ka.m11, ka.m12, kb.m00, kb.m10, kb.m20);
    DotScalePoly(k, a.m10, a.m11, a.m12, b.m01, b.m11, b.m21, ka.m10, ka.m11, ka.m12, kb.m01, kb.m11, kb.m21);
    DotScalePoly(k, a.m10, a.m11, a.m12, b.m02, b.m12, b.m22, ka.m10, ka.m11, ka.m12, kb.m02, kb.m12, kb.m22);
    DotScalePoly(k, a.m20, a.m21, a.m22, b.m00, b.m10, b.m20, ka.m20, ka.m21, ka.m22, kb.m00, kb.m10, kb.m20);
    DotScalePoly(k, a.m20, a.m21, a.m22, b.m01, b.m11, b.m21, ka.m20, ka.m21, ka.m22, kb.m01, kb.m11, kb.m21);
    DotScalePoly(k, a.m20, a.m21, a.m22, b.m02, b.m12, b.m22, ka.m20, ka.m21, ka.m22, kb.m02, kb.m12, kb.m22);
  }

  /** m @ adj(m) == adj(m) @ m == det(m) * I. */
  lemma AdjugateProduct(m: Matrix)
    ensures Mul(m, Adjugate(m)) == Scale(Det(m), Identity())
    ensures Mul(Adjugate(m), m) == Scale(Det(m), Identity())
  {
    CofactorRows00(m.m00, m.m01, m.m02, m.m10, m.m11, m.m12, m.m20, m.m21, m.m22);
    CofactorRows01(m.m00, m.m01, m.m02, m.m10, m.m11, m.m12, m.m20, m.m21, m.m22);
    CofactorRows02(m.m00, m.m01, m.m02, m.m10, m.m11, m.m12, m.m20, m.m21, m.m22);
    CofactorRows10(m.m00, m.m01, m.m02, m.m10, m.m11, m.m12, m.m20, m.m21, m.m22);
    CofactorRows11(m.m00, m.m01, m.m02, m.m10, m.m11, m.m12, m.m20, m.m21, m.m22);
    CofactorRows12(m.m00, m.m01, m.m02, m.m10, m.m11, m.m12, m.m20, m.m21, m.m22);
    CofactorRows20(m.m00, m.m01, m.m02, m.m10, m.m11, m.m12, m.m20, m.m21, m.m22);
    CofactorRows21(m.m00, m.m01, m.m02, m.m10, m.m11, m.m12, m.m20, m.m21, m.m22);
    CofactorRows22(m.m00, m.m01, m.m02, m.m10, m.m11, m.m12, m.m20, m.m21, m.m22);
    CofactorCols00(m.m00, m.m01, m.m02, m.m10, m.m11, m.m12, m.m20, m.m21, m.m22);
    CofactorCols01(m.m00, m.m01, m.m02, m.m10, m.m11, m.m12, m.m20, m.m21, m.m22);
    CofactorCols02(m.m00, m.m01, m.m02, m.m10, m.m11, m.m12, m.m20, m.m21, m.m22);
    CofactorCols10(m.m00, m.m01, m.m02, m.m10, m.m11, m.m12, m.m20, m.m21, m.m22);
    CofactorCols11(m.m00, m.m01, m.m02, m.m10, m.m11, m.m12, m.m20, m.m21, m.m22);
    CofactorCols12(m.m00, m.m01, m.m02, m.m10, m.m11, m.m12, m.m20, m.m21, m.m22);
    CofactorCols20(m.m00, m.m01, m.m02, m.m10, m.m11, m.m12, m.m20, m.m21, m.m22);
    CofactorCols21(m.m00, m.m01, m.m02, m.m10, m.m11, m.m12, m.m20, m.m21, m.m22);
    CofactorCols22(m.m00, m.m01, m.m02, m.m10, m.m11, m.m12, m.m20, m.m21, m.m22);
  }

  /** The determinant is multiplicative. */
  lemma DetMul(a: Matrix, b: Matrix)
    ensures Det(Mul(a, b)) == Det(a) * Det(b)
  {
    DetOfMul(a, b);
    DetTimesDet(a, b);
  }

  /** The entries of a product multiplied out. */
  lemma MulExplicit(a: Matrix, b: Matrix)
    ensures Mul(a, b) == Matrix(
      a.m00 * b.m00 + a.m01 * b.m10 + a.m02 * b.m20,
      a.m00 * b.m01 + a.m01 * b.m11 + a.m02 * b.m21,
      a.m00 * b.m02 + a.m01 * b.m12 + a.m02 * b.m22,
      a.m10 * b.m00 + a.m11 * b.m10 + a.m12 * b.m20,
      a.m10 * b.m01 + a.m11 * b.m11 + a.m12 * b.m21,
      a.m10 * b.m02 + a.m11 * b.m12 + a.m12 * b.m22,
      a.m20 * b.m00 + a.m21 * b.m10 + a.m22 * b.m20,
      a.m20 * b.m01 + a.m21 * b.m11 + a.m22 * b.m21,
      a.m20 * b.m02 + a.m21 * b.m12 + a.m22 * b.m22)
  {
  }

  lemma DetOfMul(a: Matrix, b: Matrix)
    ensures Det(Mul(a, b))
         == Det3(a.m00, a.m01, a.m02, a.m10, a.m11, a.m12, a.m20, a.m21, a.m22)
          * Det3(b.m00, b.m01, b.m02, b.m10, b.m11, b.m12, b.m20, b.m21, b.m22)
  {
    MulExplicit(a, b);
    DetMulPoly(a.m00, a.m01, a.m02, a.m10, a.m11, a.m12, a.m20, a.m21, a.m22,
               b.m00, b.m01, b.m02, b.m10, b.m11, b.m12, b.m20, b.m21, b.m22);
  }

  lemma DetTimesDet(a: Matrix, b: Matrix)
    ensures Det(a) * Det(b)
         == Det3(a.m00, a.m01, a.m02, a.m10, a.m11, a.m12, a.m20, a.m21, a.m22)
          * Det3(b.m00, b.m01, b.m02, b.m10, b.m11, b.m12, b.m20, b.m21, b.m22)
  {
  }

  /** The identity has determinant 1. */
  lemma DetIdentity()
    ensures Det(Identity()) == 1.0
  {
  }

  /** The inverse of a matrix with non-zero determinant, as adj(m) / det(m):
      it is a two-sided inverse. */
  function Inverse(m: Matrix): (r: Matrix)
    requires Det(m) != 0.0
    ensures Mul(r, m) == Identity() && Mul(m, r) == Identity()
  {
    var d := Det(m);
    AdjugateProduct(m);
    ScaleMul(1.0 / d, Adjugate(m), m);
    ScaleMul(1.0 / d, m, Adjugate(m));
    CancelPoly(d);
    Scale(1.0 / d, Adjugate(m))
  }

  /** A matrix has a left inverse only if its determinant is non-zero, and
      then that left inverse is the one Inverse computes. */
  lemma LeftInverseUnique(m: Matrix, a: Matrix)
    requires Mul(a, m) == Identity()
    ensures Det(m) != 0.0 && a == Inverse(m)
  {
    DetMul(a, m);
    DetIdentity();
    var inv := Inverse(m);
    calc {
      a;
      { IdentityNeutral(a, Vector(0.0, 0.0, 0.0)); }
      Mul(a, Identity());
      Mul(a, Mul(m, inv));
      { MulAssociative(a, m, inv); }
      Mul(Mul(a, m), inv);
      { IdentityNeutral(inv, Vector(0.0, 0.0, 0.0)); }
      inv;
    }
  }

  /** A matrix with zero determinant has no left inverse. */
  lemma SingularHasNoInverse(m: Matrix, a: Matrix)
    requires Det(m) == 0.0
    ensures Mul(a, m) != Identity()
  {
    DetMul(a, m);
    DetIdentity();
  }

  /** A matrix with non-zero determinant maps only the zero vector to zero. */
  lemma KernelTrivial(m: Matrix, v: Vector)
    requires Det(m) != 0.0 && Apply(m, v) == Vector(0.0, 0.0, 0.0)
    ensures v == Vector(0.0, 0.0, 0.0)
  {
    calc {
      v;
      { IdentityNeutral(m, v); }
      Apply(Identity(), v);
      Apply(Mul(Inverse(m), m), v);
      { ApplyMul(Inverse(m), m, v); }
      Apply(Inverse(m), Vector(0.0, 0.0, 0.0));
    }
  }

  /** A right inverse of m, too, forces det(m) != 0 and is the one Inverse
      computes. */
  lemma RightInverseUnique(m: Matrix, a: Matrix)
    requires Mul(m, a) == Identity()
    ensures Det(m) != 0.0 && a == Inverse(m)
  {
    DetMul(m, a);
    DetIdentity();
    var inv := Inverse(m);
    calc {
      a;
      { IdentityNeutral(a, Vector(0.0, 0.0, 0.0)); }
      Mul(Identity(), a);
      Mul(Mul(inv, m), a);
      { MulAssociative(inv, m, a); }
      Mul(inv, Mul(m, a));
      { IdentityNeutral(inv, Vector(0.0, 0.0, 0.0)); }
      inv;
    }
  }
}
