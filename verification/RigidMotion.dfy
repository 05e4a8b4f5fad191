/** Vectors, row-vector transforms and rigid motions (src/bf/skinning.cpp:58-86, 216-237, 248-256), over
    the reals. The last column of a transform is always (0, 0, 0, 1) and is not kept. */
module RigidMotion {
  import opened Wrappers

  datatype Vec = Vec(x: real, y: real, z: real)

  datatype Matrix = Matrix(r0: Vec, r1: Vec, r2: Vec, t: Vec)

  function Dot(a: Vec, b: Vec): real {
    a.x * b.x + a.y * b.y + a.z * b.z
  }

  function Cross(a: Vec, b: Vec): Vec {
    Vec(a.y * b.z - a.z * b.y, a.z * b.x - a.x * b.z, a.x * b.y - a.y * b.x)
  }

  /** A direction goes by the rows, a point is moved as well. */
  function Rotate(v: Vec, m: Matrix): Vec {
    Vec(v.x * m.r0.x + v.y * m.r1.x + v.z * m.r2.x,
        v.x * m.r0.y + v.y * m.r1.y + v.z * m.r2.y,
        v.x * m.r0.z + v.y * m.r1.z + v.z * m.r2.z)
  }

  function Apply(v: Vec, m: Matrix): Vec {
    var d := Rotate(v, m);
    Vec(d.x + m.t.x, d.y + m.t.y, d.z + m.t.z)
  }

  function Multiply(a: Matrix, b: Matrix): Matrix {
    Matrix(Rotate(a.r0, b), Rotate(a.r1, b), Rotate(a.r2, b), Apply(a.t, b))
  }

  function RigidInverse(m: Matrix): Matrix {
    var turned := Matrix(Vec(m.r0.x, m.r1.x, m.r2.x), Vec(m.r0.y, m.r1.y, m.r2.y), Vec(m.r0.z, m.r1.z, m.r2.z), Vec(0.0, 0.0, 0.0));
    var d := Rotate(m.t, turned);
    turned.(t := Vec(-d.x, -d.y, -d.z))
  }

  /** The rows are at right angles, of length one, and right-handed. */
  ghost predicate Rigid(m: Matrix) {
    Dot(m.r0, m.r0) == 1.0 && Dot(m.r1, m.r1) == 1.0 && Dot(m.r0, m.r1) == 0.0 && m.r2 == Cross(m.r0, m.r1)
  }

  /** Lagrange's identity. */
  lemma CrossLength(a: Vec, b: Vec)
    ensures Dot(Cross(a, b), Cross(a, b)) == Dot(a, a) * Dot(b, b) - Dot(a, b) * Dot(a, b)
  {
  }

  lemma CrossApart(a: Vec, b: Vec)
    ensures Dot(a, Cross(a, b)) == 0.0 && Dot(b, Cross(a, b)) == 0.0
  {
  }

  lemma ThirdRow(m: Matrix)
    requires Rigid(m)
    ensures Dot(m.r2, m.r2) == 1.0 && Dot(m.r0, m.r2) == 0.0 && Dot(m.r1, m.r2) == 0.0
  {
    CrossLength(m.r0, m.r1);
    CrossApart(m.r0, m.r1);
  }

  /** One transform after the other. */
  lemma MultiplyMoves(v: Vec, a: Matrix, b: Matrix)
    ensures Apply(v, Multiply(a, b)) == Apply(Apply(v, a), b)
    ensures Rotate(v, Multiply(a, b)) == Rotate(Rotate(v, a), b)
  {
    Along(v, a, ColumnX(b));
    Along(v, a, ColumnY(b));
    Along(v, a, ColumnZ(b));
    Sum(Rotate(v, a), a.t, b);
  }

  function ColumnX(m: Matrix): Vec { Vec(m.r0.x, m.r1.x, m.r2.x) }
  function ColumnY(m: Matrix): Vec { Vec(m.r0.y, m.r1.y, m.r2.y) }
  function ColumnZ(m: Matrix): Vec { Vec(m.r0.z, m.r1.z, m.r2.z) }

  /** What the rows give along one of them. */
  lemma Along(v: Vec, m: Matrix, w: Vec)
    ensures Dot(Rotate(v, m), w) == v.x * Dot(m.r0, w) + v.y * Dot(m.r1, w) + v.z * Dot(m.r2, w)
  {
  }

  lemma InverseRotates(v: Vec, m: Matrix)
    requires Rigid(m)
    ensures Rotate(Rotate(v, m), RigidInverse(m)) == v
  {
    ThirdRow(m);
    var w := Rotate(v, m);
    Along(v, m, m.r0);
    Along(v, m, m.r1);
    Along(v, m, m.r2);
    var back := Rotate(w, RigidInverse(m));
    assert back == Vec(Dot(w, m.r0), Dot(w, m.r1), Dot(w, m.r2));
  }

  /** The inverse takes every point back to where it came from. */
  lemma InverseUndoes(v: Vec, m: Matrix)
    requires Rigid(m)
    ensures Apply(Apply(v, m), RigidInverse(m)) == v
  {
    InverseRotates(v, m);
    var w := Rotate(v, m);
    var i := RigidInverse(m);
    Sum(w, m.t, i);
  }

  lemma Spread(a: real, b: real, m: real)
    ensures (a + b) * m == a * m + b * m
  {
  }

  lemma SumDot(a: Vec, b: Vec, c: Vec)
    ensures Dot(Vec(a.x + b.x, a.y + b.y, a.z + b.z), c) == Dot(a, c) + Dot(b, c)
  {
    Spread(a.x, b.x, c.x);
    Spread(a.y, b.y, c.y);
    Spread(a.z, b.z, c.z);
  }

  lemma ByColumns(v: Vec, m: Matrix)
    ensures Rotate(v, m) == Vec(Dot(v, ColumnX(m)), Dot(v, ColumnY(m)), Dot(v, ColumnZ(m)))
  {
  }

  lemma Sum(a: Vec, b: Vec, m: Matrix)
    ensures var r := Rotate(Vec(a.x + b.x, a.y + b.y, a.z + b.z), m);
      r == Vec(Rotate(a, m).x + Rotate(b, m).x, Rotate(a, m).y + Rotate(b, m).y, Rotate(a, m).z + Rotate(b, m).z)
  {
    hide Rotate, Dot, ColumnX, ColumnY, ColumnZ;
    ByColumns(Vec(a.x + b.x, a.y + b.y, a.z + b.z), m);
    ByColumns(a, m);
    ByColumns(b, m);
    SumDot(a, b, ColumnX(m));
    SumDot(a, b, ColumnY(m));
    SumDot(a, b, ColumnZ(m));
  }

  function Delta(bind: Matrix, current: Matrix): Matrix {
    Multiply(RigidInverse(bind), current)
  }

  /** The offset in mesh space under the delta is the offset in bone space under the bone's own matrix. */
  lemma RebasedStays(v: Vec, bind: Matrix, current: Matrix)
    requires Rigid(bind)
    ensures Apply(Apply(v, bind), Delta(bind, current)) == Apply(v, current)
  {
    MultiplyMoves(Apply(v, bind), RigidInverse(bind), current);
    InverseUndoes(v, bind);
  }

  /** And a normal in mesh space turns with the bone. */
  lemma NormalTurns(n: Vec, bind: Matrix, current: Matrix)
    requires Rigid(bind)
    ensures Rotate(Rotate(n, bind), Delta(bind, current)) == Rotate(n, current)
  {
    MultiplyMoves(Rotate(n, bind), RigidInverse(bind), current);
    InverseRotates(n, bind);
  }

  // ---- Tidying up a rotation.

  ghost predicate SquareRoot(sqrt: real -> real) {
    forall x: real :: x >= 0.0 ==> sqrt(x) >= 0.0 && sqrt(x) * sqrt(x) == x
  }

  function Scaled(v: Vec, f: real): Vec
    requires f != 0.0
  {
    Vec(v.x / f, v.y / f, v.z / f)
  }

  function Less(v: Vec, f: real, w: Vec): Vec {
    Vec(v.x - f * w.x, v.y - f * w.y, v.z - f * w.z)
  }

  lemma SquareSum(v: Vec)
    ensures Dot(v, v) >= 0.0
  {
    NotNegative(v.x);
    NotNegative(v.y);
    NotNegative(v.z);
  }

  lemma NotNegative(x: real)
    ensures x * x >= 0.0
  {
    if x < 0.0 {
      Times(-x, -x);
    } else {
      Times(x, x);
    }
  }

  lemma Times(x: real, y: real)
    requires x >= 0.0 && y >= 0.0
    ensures x * y >= 0.0
  {
  }

  lemma ScaledToOne(v: Vec, len: real)
    requires len != 0.0 && len * len == Dot(v, v)
    ensures Dot(Scaled(v, len), Scaled(v, len)) == 1.0
  {
    var r := Scaled(v, len);
    assert v == Vec(r.x * len, r.y * len, r.z * len) by {
      Quotient(v.x, len);
      Quotient(v.y, len);
      Quotient(v.z, len);
    }
    Grown(r, len, v);
    UnitFactor(Dot(r, r), len, Dot(v, v));
  }

  lemma Grown(r: Vec, len: real, v: Vec)
    requires v == Vec(r.x * len, r.y * len, r.z * len)
    ensures Dot(v, v) == Dot(r, r) * len * len
  {
  }

  lemma UnitFactor(q: real, x: real, d: real)
    requires x != 0.0 && d == x * x && d == q * x * x
    ensures q == 1.0
  {
    assert (q * x - x) * x == 0.0;
    NoFactor(q * x - x, x);
    assert (q - 1.0) * x == 0.0;
    NoFactor(q - 1.0, x);
  }

  lemma Quotient(x: real, f: real)
    requires f != 0.0
    ensures (x / f) * f == x
  {
  }

  lemma NoFactor(a: real, f: real)
    requires f != 0.0 && a * f == 0.0
    ensures a == 0.0
  {
    assert a == (a * f) / f;
  }

  lemma DotScaled(a: Vec, b: Vec, f: real)
    requires f != 0.0
    ensures Dot(a, Scaled(b, f)) * f == Dot(a, b)
  {
    Quotient(b.x, f);
    Quotient(b.y, f);
    Quotient(b.z, f);
    var x, y, z := b.x / f, b.y / f, b.z / f;
    assert (a.x * x + a.y * y + a.z * z) * f == a.x * (x * f) + a.y * (y * f) + a.z * (z * f);
  }

  lemma DotLess(a: Vec, b: Vec, f: real)
    ensures Dot(a, Less(b, f, a)) == Dot(a, b) - f * Dot(a, a)
  {
  }

  lemma UnitRoot(x: real)
    requires x >= 0.0 && x * x == 1.0
    ensures x == 1.0
  {
    assert (x - 1.0) * (x + 1.0) == 0.0;
    NoFactor(x - 1.0, x + 1.0);
  }

  const SHORT: real := 0.000001

  /** The first row at length one, the second at a right angle to it and at length one, the third from both;
      nothing if a length is too small to divide by. */
  function Tidied(m: Matrix, sqrt: real -> real): Option<Matrix> {
    var len0 := sqrt(Dot(m.r0, m.r0));
    if len0 < SHORT then None
    else
      var r0 := Scaled(m.r0, len0);
      var b1 := Less(m.r1, Dot(m.r1, r0), r0);
      var len1 := sqrt(Dot(b1, b1));
      if len1 < SHORT then None
      else
        var r1 := Scaled(b1, len1);
        Some(Matrix(r0, r1, Cross(r0, r1), m.t))
  }

  lemma RigidIsTidy(m: Matrix, sqrt: real -> real)
    requires SquareRoot(sqrt) && Rigid(m)
    ensures Tidied(m, sqrt) == Some(m)
  {
    hide Dot, Scaled, Less, Cross;
    DotCommutes(m.r0, m.r1);
    UnitRoot(sqrt(Dot(m.r0, m.r0)));
    NotScaled(m.r0);
    NotLess(m.r1, m.r0);
    UnitRoot(sqrt(Dot(m.r1, m.r1)));
    NotScaled(m.r1);
  }

  /** The Gram-Schmidt step of fitAffine, which gives up if a row is too short: what it gives is rigid,
      and a rigid transform comes out as it was. */
  method Orthonormal(m: Matrix, sqrt: real -> real) returns (ok: bool, r: Matrix)
    requires SquareRoot(sqrt)
    ensures ok ==> Rigid(r) && r.t == m.t
    ensures Rigid(m) ==> ok && r == m
    ensures Tidied(m, sqrt) == if ok then Some(r) else None
  {
    hide Dot, Scaled, Less, Cross;
    r := m;
    DotCommutes(m.r0, m.r1);
    SquareSum(m.r0);
    var len0 := sqrt(Dot(m.r0, m.r0));
    if Dot(m.r0, m.r0) == 1.0 {
      UnitRoot(len0);
      NotScaled(m.r0);
    }
    if len0 < SHORT {
      return false, r;
    }
    var r0 := Scaled(m.r0, len0);
    ScaledToOne(m.r0, len0);
    var d1 := Dot(m.r1, r0);
    var b1 := Less(m.r1, d1, r0);
    NotLess(m.r1, r0);
    SquareSum(b1);
    var len1 := sqrt(Dot(b1, b1));
    RightAngle(m.r1, d1, r0);
    if Dot(b1, b1) == 1.0 {
      UnitRoot(len1);
      NotScaled(b1);
    }
    if len1 < SHORT {
      return false, r;
    }
    var r1 := Scaled(b1, len1);
    ScaledToOne(b1, len1);
    DotScaled(r0, b1, len1);
    NoFactor(Dot(r0, r1), len1);
    r := Matrix(r0, r1, Cross(r0, r1), m.t);
    return true, r;
  }

  lemma NotScaled(v: Vec)
    ensures Scaled(v, 1.0) == v
  {
  }

  lemma NotLess(v: Vec, w: Vec)
    ensures Less(v, 0.0, w) == v
  {
  }

  lemma DotCommutes(a: Vec, b: Vec)
    ensures Dot(a, b) == Dot(b, a)
  {
  }

  lemma RightAngle(b: Vec, d: real, a: Vec)
    requires Dot(a, a) == 1.0 && d == Dot(b, a)
    ensures Dot(a, Less(b, d, a)) == 0.0
  {
    DotLess(a, b, d);
  }
}
