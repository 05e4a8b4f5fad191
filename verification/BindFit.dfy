/** Finding a bone's bind pose from vertices that only that bone moves (src/bf/skinning.cpp:99-245): the
    normal equations, their solution by elimination in place, and the tidying up. */
module BindFit {
  import opened Wrappers
  import opened RigidMotion

  // ---- Systems of four equations with three right-hand sides.

  type Row = r: seq<real> | |r| == 7 witness seq(7, _ => 0.0)
  const NO_ROW: Row := seq(7, _ => 0.0)
  type Grid = g: seq<Row> | |g| == 4 witness seq(4, _ => NO_ROW)

  datatype Quad = Quad(x0: real, x1: real, x2: real, x3: real)

  function Column(m: Matrix, k: nat): Quad {
    if k == 0 then Quad(m.r0.x, m.r1.x, m.r2.x, m.t.x)
    else if k == 1 then Quad(m.r0.y, m.r1.y, m.r2.y, m.t.y)
    else Quad(m.r0.z, m.r1.z, m.r2.z, m.t.z)
  }

  function Dot4(row: Row, x: Quad): real {
    row[0] * x.x0 + row[1] * x.x1 + row[2] * x.x2 + row[3] * x.x3
  }

  ghost predicate RowSolves(row: Row, m: Matrix) {
    forall k: nat :: k < 3 ==> Dot4(row, Column(m, k)) == row[4 + k]
  }

  ghost predicate Solves(g: Grid, m: Matrix) {
    forall r :: 0 <= r < 4 ==> RowSolves(g[r], m)
  }

  /** The same solutions. */
  ghost predicate Equivalent(g: Grid, h: Grid) {
    forall m: Matrix :: Solves(g, m) <==> Solves(h, m)
  }

  ghost predicate UnitColumns(g: Grid, n: nat)
    requires n <= 4
  {
    forall r, c :: 0 <= r < 4 && 0 <= c < n ==> g[r][c] == if r == c then 1.0 else 0.0
  }

  // ---- The steps of the elimination.

  function Abs(x: real): real {
    if x < 0.0 then -x else x
  }

  /** The row below col, of the first n, with the largest entry in column col; the first of them. */
  function Pivot(g: Grid, col: nat, n: nat): (p: nat)
    requires col < n <= 4
    ensures col <= p < n && forall r :: col <= r < n ==> Abs(g[r][col]) <= Abs(g[p][col])
  {
    if n == col + 1 then col
    else
      var p := Pivot(g, col, n - 1);
      if Abs(g[n - 1][col]) > Abs(g[p][col]) then n - 1 else p
  }

  function Swapped(g: Grid, a: nat, b: nat): Grid
    requires a < 4 && b < 4
  {
    g[a := g[b]][b := g[a]]
  }

  function Times(row: Row, f: real): Row {
    seq(7, c requires 0 <= c < 7 => row[c] * f)
  }

  function Minus(row: Row, f: real, less: Row): Row {
    seq(7, c requires 0 <= c < 7 => Lowered(row[c], f, less[c]))
  }

  function Lowered(a: real, f: real, b: real): real {
    a - f * b
  }

  /** Column col out of the first n rows, but the one that keeps it. */
  function Cleared(g: Grid, col: nat, n: nat): Grid
    requires col < 4 && n <= 4
  {
    if n == 0 then g
    else
      var h := Cleared(g, col, n - 1);
      if n - 1 == col then h else h[n - 1 := Minus(h[n - 1], h[n - 1][col], h[col])]
  }

  const TINY: real := 0.000000001

  function Reduce(g: Grid, n: nat): Option<Grid>
    requires n <= 4
  {
    if n == 0 then Some(g)
    else
      match Reduce(g, n - 1)
      case None => None
      case Some(h) => ReduceColumn(h, n - 1)
  }

  function ReduceColumn(h: Grid, col: nat): Option<Grid>
    requires col < 4
  {
    var p := Pivot(h, col, 4);
    if Abs(h[p][col]) < TINY then None
    else
      var s := Swapped(h, col, p);
      Some(Cleared(s[col := Times(s[col], 1.0 / s[col][col])], col, 4))
  }

  // ---- Each step keeps the solutions.

  lemma MinusDot(row: Row, f: real, less: Row, x: Quad)
    ensures Dot4(Minus(row, f, less), x) == Dot4(row, x) - f * Dot4(less, x)
  {
    var m := Minus(row, f, less);
    assert m[0] * x.x0 == row[0] * x.x0 - f * (less[0] * x.x0);
    assert m[1] * x.x1 == row[1] * x.x1 - f * (less[1] * x.x1);
    assert m[2] * x.x2 == row[2] * x.x2 - f * (less[2] * x.x2);
    assert m[3] * x.x3 == row[3] * x.x3 - f * (less[3] * x.x3);
  }

  lemma TimesDot(row: Row, f: real, x: Quad)
    ensures Dot4(Times(row, f), x) == Dot4(row, x) * f
  {
    var m := Times(row, f);
    assert m[0] * x.x0 == row[0] * x.x0 * f;
    assert m[1] * x.x1 == row[1] * x.x1 * f;
    assert m[2] * x.x2 == row[2] * x.x2 * f;
    assert m[3] * x.x3 == row[3] * x.x3 * f;
  }

  lemma MinusSolves(row: Row, f: real, less: Row, m: Matrix)
    requires RowSolves(less, m)
    ensures RowSolves(Minus(row, f, less), m) <==> RowSolves(row, m)
  {
    hide Dot4, Column;
    var d := Minus(row, f, less);
    forall k: nat | k < 3 ensures Dot4(d, Column(m, k)) == d[4 + k] <==> Dot4(row, Column(m, k)) == row[4 + k] {
      MinusDot(row, f, less, Column(m, k));
      assert f * Dot4(less, Column(m, k)) == f * less[4 + k];
    }
  }

  lemma TimesSolves(row: Row, f: real, m: Matrix)
    requires f != 0.0
    ensures RowSolves(Times(row, f), m) <==> RowSolves(row, m)
  {
    hide Dot4, Column;
    var t := Times(row, f);
    forall k: nat | k < 3 ensures Dot4(t, Column(m, k)) == t[4 + k] <==> Dot4(row, Column(m, k)) == row[4 + k] {
      TimesDot(row, f, Column(m, k));
      assert t[4 + k] == row[4 + k] * f;
      SameFactor(Dot4(row, Column(m, k)), row[4 + k], f);
    }
  }

  lemma SameFactor(a: real, b: real, f: real)
    requires f != 0.0
    ensures a * f == b * f <==> a == b
  {
    if a * f == b * f {
      assert (a - b) * f == 0.0;
      NoFactor(a - b, f);
    }
  }

  lemma SwapSolves(g: Grid, a: nat, b: nat, m: Matrix)
    requires a < 4 && b < 4
    ensures Solves(Swapped(g, a, b), m) <==> Solves(g, m)
  {
    hide RowSolves;
    var s := Swapped(g, a, b);
    assert forall r :: 0 <= r < 4 ==> s[r] == g[if r == a then b else if r == b then a else r];
    assert forall r :: 0 <= r < 4 ==> g[r] == s[if r == a then b else if r == b then a else r];
  }

  lemma RowChange(g: Grid, r: nat, row: Row, m: Matrix)
    requires r < 4
    requires (forall q :: 0 <= q < 4 && q != r ==> RowSolves(g[q], m)) ==> (RowSolves(row, m) <==> RowSolves(g[r], m))
    ensures Solves(g[r := row], m) <==> Solves(g, m)
  {
    hide RowSolves;
    var h := g[r := row];
    assert h[r] == row && forall q :: 0 <= q < 4 && q != r ==> h[q] == g[q];
  }

  lemma {:induction false} ClearSolves(g: Grid, col: nat, n: nat, m: Matrix)
    requires col < 4 && n <= 4
    ensures Solves(Cleared(g, col, n), m) <==> Solves(g, m)
  {
    if n > 0 {
      ClearSolves(g, col, n - 1, m);
      var h := Cleared(g, col, n - 1);
      if n - 1 != col {
        if RowSolves(h[col], m) {
          MinusSolves(h[n - 1], h[n - 1][col], h[col], m);
        }
        RowChange(h, n - 1, Minus(h[n - 1], h[n - 1][col], h[col]), m);
      }
    }
  }

  // ---- And makes a column a unit column.

  lemma {:induction false} ClearUnits(g: Grid, col: nat, n: nat)
    requires col < 4 && n <= 4 && g[col][col] == 1.0
    requires forall r, c :: 0 <= r < 4 && 0 <= c < col ==> g[r][c] == if r == c then 1.0 else 0.0
    ensures var h := Cleared(g, col, n);
      && h[col] == g[col]
      && (forall r, c :: 0 <= r < 4 && 0 <= c < col ==> h[r][c] == if r == c then 1.0 else 0.0)
      && (forall r :: 0 <= r < n ==> h[r][col] == if r == col then 1.0 else 0.0)
  {
    if n > 0 {
      ClearUnits(g, col, n - 1);
    }
  }

  lemma ColumnUnits(h: Grid, col: nat)
    requires col < 4 && UnitColumns(h, col) && ReduceColumn(h, col).Some?
    ensures UnitColumns(ReduceColumn(h, col).value, col + 1)
  {
    var p := Pivot(h, col, 4);
    var s := Swapped(h, col, p);
    var d := s[col][col];
    Reciprocal(d);
    var t := s[col := Times(s[col], 1.0 / d)];
    forall r, c | 0 <= r < 4 && 0 <= c < col ensures t[r][c] == if r == c then 1.0 else 0.0 {
      assert s[col][c] == 0.0;
    }
    ClearUnits(t, col, 4);
  }

  lemma Reciprocal(d: real)
    requires d != 0.0
    ensures d * (1.0 / d) == 1.0 && 1.0 / d != 0.0
  {
  }

  lemma ColumnSolves(h: Grid, col: nat, m: Matrix)
    requires col < 4 && ReduceColumn(h, col).Some?
    ensures Solves(ReduceColumn(h, col).value, m) <==> Solves(h, m)
  {
    hide Solves, RowSolves, Cleared;
    var p := Pivot(h, col, 4);
    var s := Swapped(h, col, p);
    var d := s[col][col];
    SwapSolves(h, col, p, m);
    Reciprocal(d);
    TimesSolves(s[col], 1.0 / d, m);
    RowChange(s, col, Times(s[col], 1.0 / d), m);
    ClearSolves(s[col := Times(s[col], 1.0 / d)], col, 4, m);
  }

  /** Elimination gives unit columns and keeps exactly the solutions. */
  lemma {:induction false} ReduceKeeps(g: Grid, n: nat)
    requires n <= 4 && Reduce(g, n).Some?
    ensures UnitColumns(Reduce(g, n).value, n) && Equivalent(Reduce(g, n).value, g)
  {
    if n > 0 {
      hide Solves, UnitColumns, ReduceColumn;
      ReduceKeeps(g, n - 1);
      var h := Reduce(g, n - 1).value;
      ColumnUnits(h, n - 1);
      forall m: Matrix ensures Solves(Reduce(g, n).value, m) <==> Solves(g, m) {
        ColumnSolves(h, n - 1, m);
      }
    } else {
      assert UnitColumns(g, 0);
    }
  }

  function RightSide(g: Grid): Matrix {
    Matrix(Vec(g[0][4], g[0][5], g[0][6]), Vec(g[1][4], g[1][5], g[1][6]), Vec(g[2][4], g[2][5], g[2][6]),
           Vec(g[3][4], g[3][5], g[3][6]))
  }

  /** So the right side is then the one solution. */
  lemma OneSolution(g: Grid, m: Matrix)
    requires Reduce(g, 4).Some?
    ensures Solves(g, m) <==> m == RightSide(Reduce(g, 4).value)
  {
    ReduceKeeps(g, 4);
    UnitSolution(Reduce(g, 4).value, m);
    hide *;
    assert Equivalent(Reduce(g, 4).value, g);
  }

  lemma UnitSolution(h: Grid, m: Matrix)
    requires UnitColumns(h, 4)
    ensures Solves(h, m) <==> m == RightSide(h)
  {
    UnitDot(h[0], 0, m);
    UnitDot(h[1], 1, m);
    UnitDot(h[2], 2, m);
    UnitDot(h[3], 3, m);
  }

  function Line(m: Matrix, r: nat): Vec {
    if r == 0 then m.r0 else if r == 1 then m.r1 else if r == 2 then m.r2 else m.t
  }

  lemma UnitDot(row: Row, r: nat, m: Matrix)
    requires r < 4 && forall c :: 0 <= c < 4 ==> row[c] == if r == c then 1.0 else 0.0
    ensures RowSolves(row, m) <==> Line(m, r) == Vec(row[4], row[5], row[6])
  {
    assert Dot4(row, Column(m, 0)) == Line(m, r).x;
    assert Dot4(row, Column(m, 1)) == Line(m, r).y;
    assert Dot4(row, Column(m, 2)) == Line(m, r).z;
  }

  // ---- The equations of a bone.

  datatype Sample = Sample(offset: Vec, position: Vec)

  const CHECKS: nat := 8
  const ENOUGH: nat := 8

  /** The sums over all samples so far; the first few are kept to check the result. */
  datatype SlotFit = SlotFit(ata: seq<seq<real>>, atb: seq<seq<real>>, count: nat, check: seq<Sample>, solved: bool)

  ghost predicate Shaped(fit: SlotFit) {
    && |fit.ata| == 4 && (forall r :: 0 <= r < 4 ==> |fit.ata[r]| == 4)
    && |fit.atb| == 4 && (forall r :: 0 <= r < 4 ==> |fit.atb[r]| == 3)
    && |fit.check| <= CHECKS
  }

  const ZEROS: seq<real> := [0.0, 0.0, 0.0, 0.0]

  const EMPTY: SlotFit := SlotFit(
    [ZEROS, ZEROS, ZEROS, ZEROS], [ZEROS[..3], ZEROS[..3], ZEROS[..3], ZEROS[..3]], 0, [], false)

  function Coordinate(v: Vec, c: nat): real {
    if c == 0 then v.x else if c == 1 then v.y else v.z
  }

  /** The offset with a one behind it. */
  function Term(v: Vec, r: nat): real {
    if r < 3 then Coordinate(v, r) else 1.0
  }

  function LeftRow(row: seq<real>, r: nat, s: Sample): (t: seq<real>)
    requires |row| == 4 && r < 4
    ensures |t| == 4
  {
    var a := Term(s.offset, r);
    [row[0] + a * s.offset.x, row[1] + a * s.offset.y, row[2] + a * s.offset.z, row[3] + a * 1.0]
  }

  function RightRow(row: seq<real>, r: nat, s: Sample): (t: seq<real>)
    requires |row| == 3 && r < 4
    ensures |t| == 3
  {
    var a := Term(s.offset, r);
    [row[0] + a * s.position.x, row[1] + a * s.position.y, row[2] + a * s.position.z]
  }

  function WithEquation(fit: SlotFit, s: Sample): (g: SlotFit)
    requires Shaped(fit)
    ensures Shaped(g)
  {
    SlotFit(
      seq(4, r requires 0 <= r < 4 => LeftRow(fit.ata[r], r, s)),
      seq(4, r requires 0 <= r < 4 => RightRow(fit.atb[r], r, s)),
      fit.count + 1,
      if |fit.check| < CHECKS then fit.check + [s] else fit.check,
      fit.solved)
  }

  function Gathered(samples: seq<Sample>): (fit: SlotFit)
    ensures Shaped(fit)
  {
    if samples == [] then EMPTY else WithEquation(Gathered(samples[..|samples| - 1]), samples[|samples| - 1])
  }

  /** The normal equations. */
  function System(fit: SlotFit): Grid
    requires Shaped(fit)
  {
    seq(4, r requires 0 <= r < 4 => fit.ata[r] + fit.atb[r])
  }

  method AddTimes(row: seq<real>, f: real, u: seq<real>) returns (sum: seq<real>)
    requires |row| == |u|
    ensures |sum| == |row| && forall c :: 0 <= c < |row| ==> sum[c] == row[c] + f * u[c]
  {
    sum := row;
    for c := 0 to |row|
      invariant |sum| == |row|
      invariant forall d :: 0 <= d < |row| ==> sum[d] == if d < c then row[d] + f * u[d] else row[d]
    {
      sum := sum[c := sum[c] + f * u[c]];
    }
  }

  lemma SumsAre(row: seq<real>, rhs: seq<real>, r: nat, s: Sample, left: seq<real>, right: seq<real>)
    requires |row| == |left| == 4 && |rhs| == |right| == 3 && r < 4
    requires var a := Term(s.offset, r);
      && left[0] == row[0] + a * s.offset.x && left[1] == row[1] + a * s.offset.y
      && left[2] == row[2] + a * s.offset.z && left[3] == row[3] + a * 1.0
      && right[0] == rhs[0] + a * s.position.x && right[1] == rhs[1] + a * s.position.y
      && right[2] == rhs[2] + a * s.position.z
    ensures left == LeftRow(row, r, s) && right == RightRow(rhs, r, s)
  {
    hide Term;
    var t, u := LeftRow(row, r, s), RightRow(rhs, r, s);
    assert left[0] == t[0] && left[1] == t[1] && left[2] == t[2] && left[3] == t[3];
    assert right[0] == u[0] && right[1] == u[1] && right[2] == u[2];
  }

  /** One turn of its loop. */
  method AddRow(row: seq<real>, rhs: seq<real>, r: nat, a: seq<real>, b: seq<real>, ghost s: Sample) returns (left: seq<real>, right: seq<real>)
    requires |row| == |a| == 4 && |rhs| == |b| == 3 && r < 4
    requires a == [s.offset.x, s.offset.y, s.offset.z, 1.0] && b == [s.position.x, s.position.y, s.position.z]
    ensures left == LeftRow(row, r, s) && right == RightRow(rhs, r, s)
  {
    hide LeftRow, RightRow;
    left := AddTimes(row, a[r], a);
    right := AddTimes(rhs, a[r], b);
    assert a[r] == Term(s.offset, r);
    SumsAre(row, rhs, r, s, left, right);
  }

  method AddEquation(fit: SlotFit, offset: Vec, position: Vec) returns (g: SlotFit)
    requires Shaped(fit)
    ensures g == WithEquation(fit, Sample(offset, position))
  {
    hide LeftRow, RightRow;
    var a := [offset.x, offset.y, offset.z, 1.0];
    var b := [position.x, position.y, position.z];
    ghost var s := Sample(offset, position);
    var ata, atb := fit.ata, fit.atb;
    for r := 0 to 4
      invariant |ata| == |atb| == 4
      invariant forall q :: 0 <= q < 4 ==> ata[q] == if q < r then LeftRow(fit.ata[q], q, s) else fit.ata[q]
      invariant forall q :: 0 <= q < 4 ==> atb[q] == if q < r then RightRow(fit.atb[q], q, s) else fit.atb[q]
    {
      var left, right := AddRow(fit.ata[r], fit.atb[r], r, a, b, s);
      ata, atb := ata[r := left], atb[r := right];
    }
    var check := fit.check;
    if |check| < CHECKS {
      check := check + [Sample(offset, position)];
    }
    g := SlotFit(ata, atb, fit.count + 1, check, fit.solved);
  }

  // ---- What a solution is good for.

  function Miss(s: Sample, m: Matrix, k: nat): real
    requires k < 3
  {
    Coordinate(Apply(s.offset, m), k) - Coordinate(s.position, k)
  }

  /** How far a transform is from the samples, in one coordinate: the sum of the squares. */
  function Error(samples: seq<Sample>, m: Matrix, k: nat): real
    requires k < 3
  {
    if samples == [] then 0.0
    else
      var e := Miss(samples[|samples| - 1], m, k);
      Error(samples[..|samples| - 1], m, k) + e * e
  }

  /** The residual of the equations in one row and column. */
  function Residual(fit: SlotFit, r: nat, x: Quad, k: nat): real
    requires Shaped(fit) && r < 4 && k < 3
  {
    Left(fit.ata[r], x) - fit.atb[r][k]
  }

  function Left(row: seq<real>, x: Quad): real
    requires |row| == 4
  {
    row[0] * x.x0 + row[1] * x.x1 + row[2] * x.x2 + row[3] * x.x3
  }

  /** The homogeneous product of an offset and a column. */
  function Image(o: Vec, x: Quad): real {
    o.x * x.x0 + o.y * x.x1 + o.z * x.x2 + x.x3
  }

  lemma ImageIs(o: Vec, m: Matrix, k: nat)
    requires k < 3
    ensures Coordinate(Apply(o, m), k) == Image(o, Column(m, k))
  {
    var p := Apply(o, m);
    assert p.x == Image(o, Column(m, 0));
    assert p.y == Image(o, Column(m, 1));
    assert p.z == Image(o, Column(m, 2));
  }

  lemma LeftGrows(row: seq<real>, r: nat, s: Sample, x: Quad)
    requires |row| == 4 && r < 4
    ensures Left(LeftRow(row, r, s), x) == Left(row, x) + Term(s.offset, r) * Image(s.offset, x)
  {
    Expand(row[0], row[1], row[2], row[3], Term(s.offset, r), s.offset, x);
  }

  lemma ResidualGrows(fit: SlotFit, s: Sample, r: nat, m: Matrix, k: nat)
    requires Shaped(fit) && r < 4 && k < 3
    ensures Residual(WithEquation(fit, s), r, Column(m, k), k) ==
      Residual(fit, r, Column(m, k), k) + Term(s.offset, r) * Miss(s, m, k)
  {
    hide Term, Image, Left, Coordinate, Apply, LeftRow, RightRow, Column;
    var x := Column(m, k);
    ImageIs(s.offset, m, k);
    LeftGrows(fit.ata[r], r, s, x);
    RightGrows(fit.atb[r], r, s, k);
    Distribute(Term(s.offset, r), Image(s.offset, x), Coordinate(s.position, k));
  }

  lemma RightGrows(row: seq<real>, r: nat, s: Sample, k: nat)
    requires |row| == 3 && r < 4 && k < 3
    ensures |RightRow(row, r, s)| == 3 && RightRow(row, r, s)[k] == row[k] + Term(s.offset, r) * Coordinate(s.position, k)
  {
  }

  lemma Distribute(a: real, b: real, c: real)
    ensures a * (b - c) == a * b - a * c
  {
  }

  lemma Expand(b0: real, b1: real, b2: real, b3: real, a: real, o: Vec, x: Quad)
    ensures (b0 + a * o.x) * x.x0 + (b1 + a * o.y) * x.x1 + (b2 + a * o.z) * x.x2 + (b3 + a * 1.0) * x.x3
      == b0 * x.x0 + b1 * x.x1 + b2 * x.x2 + b3 * x.x3 + a * (o.x * x.x0 + o.y * x.x1 + o.z * x.x2 + x.x3)
  {
  }

  /** A solution of the equations of some samples has residual zero. */
  lemma NoResidual(fit: SlotFit, r: nat, m: Matrix, k: nat)
    requires Shaped(fit) && r < 4 && k < 3 && Solves(System(fit), m)
    ensures Residual(fit, r, Column(m, k), k) == 0.0
  {
    hide Column;
    var row := System(fit)[r];
    assert RowSolves(row, m);
    assert Dot4(row, Column(m, k)) == row[4 + k];
    assert row[0] == fit.ata[r][0] && row[1] == fit.ata[r][1] && row[2] == fit.ata[r][2] && row[3] == fit.ata[r][3];
  }

  lemma ZeroResiduals(fit: SlotFit, m: Matrix)
    requires Shaped(fit)
    requires forall r: nat, k: nat :: r < 4 && k < 3 ==> Residual(fit, r, Column(m, k), k) == 0.0
    ensures Solves(System(fit), m)
  {
    hide Column;
    forall r: nat, k: nat | r < 4 && k < 3 ensures Dot4(System(fit)[r], Column(m, k)) == System(fit)[r][4 + k] {
      assert Residual(fit, r, Column(m, k), k) == 0.0;
    }
  }

  ghost predicate Obeys(samples: seq<Sample>, m: Matrix) {
    forall i :: 0 <= i < |samples| ==> samples[i].position == Apply(samples[i].offset, m)
  }

  /** If the positions are the offsets moved by a transform, that transform solves the equations. */
  lemma {:induction false} TruthSolves(samples: seq<Sample>, m: Matrix)
    requires Obeys(samples, m)
    ensures Solves(System(Gathered(samples)), m)
  {
    forall r: nat, k: nat | r < 4 && k < 3 ensures Residual(Gathered(samples), r, Column(m, k), k) == 0.0 {
      TruthLeavesNothing(samples, m, r, k);
    }
    ZeroResiduals(Gathered(samples), m);
  }

  lemma {:induction false} TruthLeavesNothing(samples: seq<Sample>, m: Matrix, r: nat, k: nat)
    requires Obeys(samples, m) && r < 4 && k < 3
    ensures Residual(Gathered(samples), r, Column(m, k), k) == 0.0
  {
    if samples != [] {
      var front, s := samples[..|samples| - 1], samples[|samples| - 1];
      TruthLeavesNothing(front, m, r, k);
      hide Apply, Column, WithEquation, Residual, Coordinate;
      ResidualGrows(Gathered(front), s, r, m, k);
    }
  }

  /** How far apart two transforms put a sample, and the residuals along the way from one to the other. */
  function Away(x: Quad, y: Quad): Quad {
    Quad(y.x0 - x.x0, y.x1 - x.x1, y.x2 - x.x2, y.x3 - x.x3)
  }

  function Drift(fit: SlotFit, x: Quad, y: Quad, k: nat): real
    requires Shaped(fit) && k < 3
  {
    var d := Away(x, y);
    Residual(fit, 0, x, k) * d.x0 + Residual(fit, 1, x, k) * d.x1 + Residual(fit, 2, x, k) * d.x2 + Residual(fit, 3, x, k) * d.x3
  }

  /** No transform has a smaller sum of squares than a solution has. */
  lemma LeastSquares(samples: seq<Sample>, m: Matrix, other: Matrix, k: nat)
    requires k < 3 && Solves(System(Gathered(samples)), m)
    ensures Error(samples, m, k) <= Error(samples, other, k)
  {
    var fit := Gathered(samples);
    ErrorDrifts(samples, m, other, k);
    NoResidual(fit, 0, m, k);
    NoResidual(fit, 1, m, k);
    NoResidual(fit, 2, m, k);
    NoResidual(fit, 3, m, k);
    hide Error, Residual;
  }

  lemma {:induction false} ErrorDrifts(samples: seq<Sample>, m: Matrix, other: Matrix, k: nat)
    requires k < 3
    ensures Error(samples, other, k) >= Error(samples, m, k) + 2.0 * Drift(Gathered(samples), Column(m, k), Column(other, k), k)
  {
    hide Apply, Column, WithEquation, Residual, Coordinate, Drift, Miss;
    if samples != [] {
      var front, s := samples[..|samples| - 1], samples[|samples| - 1];
      ErrorDrifts(front, m, other, k);
      DriftGrows(Gathered(front), s, m, other, k);
      Square(Miss(s, m, k), Miss(s, other, k));
    } else {
      NothingDrifts(Column(m, k), Column(other, k), k);
    }
  }

  lemma NothingDrifts(x: Quad, y: Quad, k: nat)
    requires k < 3
    ensures Drift(EMPTY, x, y, k) == 0.0
  {
    assert Left(EMPTY.ata[0], x) == 0.0 && Left(EMPTY.ata[1], x) == 0.0 && Left(EMPTY.ata[2], x) == 0.0 && Left(EMPTY.ata[3], x) == 0.0;
  }

  lemma Square(e: real, f: real)
    ensures f * f >= e * e + 2.0 * (e * (f - e))
  {
    NotNegative(f - e);
    assert (f - e) * (f - e) == f * f - e * e - 2.0 * (e * (f - e));
  }

  lemma DriftGrows(fit: SlotFit, s: Sample, m: Matrix, other: Matrix, k: nat)
    requires Shaped(fit) && k < 3
    ensures var e, f := Miss(s, m, k), Miss(s, other, k);
      Drift(WithEquation(fit, s), Column(m, k), Column(other, k), k) ==
        Drift(fit, Column(m, k), Column(other, k), k) + e * (f - e)
  {
    hide Apply, Column, WithEquation, Residual, Coordinate, Image;
    ResidualGrows(fit, s, 0, m, k);
    ResidualGrows(fit, s, 1, m, k);
    ResidualGrows(fit, s, 2, m, k);
    ResidualGrows(fit, s, 3, m, k);
    var x, y, o := Column(m, k), Column(other, k), s.offset;
    var e := Miss(s, m, k);
    ImageIs(o, m, k);
    ImageIs(o, other, k);
    ImageAway(o, x, y);
    TermsAre(o);
    hide Term;
    var d := Away(x, y);
    Collect(Residual(fit, 0, x, k), Residual(fit, 1, x, k), Residual(fit, 2, x, k), Residual(fit, 3, x, k), o, e, d);
  }

  lemma TermsAre(o: Vec)
    ensures Term(o, 0) == o.x && Term(o, 1) == o.y && Term(o, 2) == o.z && Term(o, 3) == 1.0
  {
  }

  lemma ImageAway(o: Vec, x: Quad, y: Quad)
    ensures Image(o, Away(x, y)) == Image(o, y) - Image(o, x)
  {
  }

  lemma Collect(r0: real, r1: real, r2: real, r3: real, o: Vec, e: real, d: Quad)
    ensures (r0 + o.x * e) * d.x0 + (r1 + o.y * e) * d.x1 + (r2 + o.z * e) * d.x2 + (r3 + 1.0 * e) * d.x3
      == r0 * d.x0 + r1 * d.x1 + r2 * d.x2 + r3 * d.x3 + e * Image(o, d)
  {
  }

  // ---- The elimination in place.

  ghost function GridOf(m: array2<real>): Grid
    reads m
    requires m.Length0 == 4 && m.Length1 == 7
  {
    [RowOf(m, 0), RowOf(m, 1), RowOf(m, 2), RowOf(m, 3)]
  }

  ghost function RowOf(m: array2<real>, r: nat): (row: Row)
    reads m
    requires r < m.Length0 && m.Length1 == 7
    ensures forall c :: 0 <= c < 7 ==> row[c] == m[r, c]
  {
    [m[r, 0], m[r, 1], m[r, 2], m[r, 3], m[r, 4], m[r, 5], m[r, 6]]
  }

  method FindPivot(m: array2<real>, col: nat) returns (pivot: nat)
    requires m.Length0 == 4 && m.Length1 == 7 && col < 4
    ensures pivot == Pivot(GridOf(m), col, 4)
  {
    pivot := col;
    for r := col + 1 to 4
      invariant pivot == Pivot(GridOf(m), col, r)
    {
      if Abs(m[r, col]) > Abs(m[pivot, col]) {
        pivot := r;
      }
    }
  }

  method SwapRows(m: array2<real>, a: nat, b: nat)
    requires m.Length0 == 4 && m.Length1 == 7 && a < 4 && b < 4
    modifies m
    ensures GridOf(m) == Swapped(old(GridOf(m)), a, b)
  {
    if a == b {
      return;
    }
    for c := 0 to 7
      invariant forall q, d :: 0 <= q < 4 && 0 <= d < 7 ==>
        m[q, d] == if d >= c then old(m[q, d]) else if q == a then old(m[b, d]) else if q == b then old(m[a, d]) else old(m[q, d])
    {
      m[a, c], m[b, c] := m[b, c], m[a, c];
    }
    ghost var want := Swapped(old(GridOf(m)), a, b);
    assert forall q :: 0 <= q < 4 ==> GridOf(m)[q] == want[q];
  }

  method ScaleRow(m: array2<real>, row: nat, inv: real)
    requires m.Length0 == 4 && m.Length1 == 7 && row < 4
    modifies m
    ensures var was := old(GridOf(m)); GridOf(m) == was[row := Times(was[row], inv)]
  {
    ghost var want := GridOf(m)[row := Times(GridOf(m)[row], inv)];
    for c := 0 to 7
      invariant forall q, d :: 0 <= q < 4 && 0 <= d < 7 ==>
        m[q, d] == if q == row && d < c then want[q][d] else old(m[q, d])
    {
      m[row, c] := m[row, c] * inv;
    }
    assert forall q :: 0 <= q < 4 ==> GridOf(m)[q] == want[q];
  }

  method SubtractRow(m: array2<real>, r: nat, col: nat)
    requires m.Length0 == 4 && m.Length1 == 7 && r < 4 && col < 4 && r != col
    modifies m
    ensures var was := old(GridOf(m)); GridOf(m) == was[r := Minus(was[r], was[r][col], was[col])]
  {
    hide Lowered;
    var f := m[r, col];
    ghost var want := GridOf(m)[r := Minus(GridOf(m)[r], f, GridOf(m)[col])];
    for c := 0 to 7
      invariant forall q, d :: 0 <= q < 4 && 0 <= d < 7 ==>
        m[q, d] == if q == r && d < c then want[q][d] else old(m[q, d])
    {
      m[r, c] := Lowered(m[r, c], f, m[col, c]);
    }
    assert forall q :: 0 <= q < 4 ==> GridOf(m)[q] == want[q];
  }

  method ClearColumn(m: array2<real>, col: nat)
    requires m.Length0 == 4 && m.Length1 == 7 && col < 4
    modifies m
    ensures GridOf(m) == Cleared(old(GridOf(m)), col, 4)
  {
    for r := 0 to 4
      invariant GridOf(m) == Cleared(old(GridOf(m)), col, r)
    {
      if r != col {
        SubtractRow(m, r, col);
      }
    }
  }

  /** Gauss-Jordan with partial pivoting; it fails exactly where no pivot is left. */
  method Eliminate(m: array2<real>) returns (ok: bool)
    requires m.Length0 == 4 && m.Length1 == 7
    modifies m
    ensures ok <==> Reduce(old(GridOf(m)), 4).Some?
    ensures ok ==> GridOf(m) == Reduce(old(GridOf(m)), 4).value
  {
    ghost var start := GridOf(m);
    for col := 0 to 4
      invariant Reduce(start, col) == Some(GridOf(m))
    {
      ghost var h := GridOf(m);
      var pivot := FindPivot(m, col);
      if Abs(m[pivot, col]) < TINY {
        assert Reduce(start, col + 1).None?;
        NoMore(start, col + 1);
        return false;
      }
      if pivot != col {
        SwapRows(m, col, pivot);
      } else {
        assert Swapped(h, col, pivot) == h;
      }
      ScaleRow(m, col, 1.0 / m[col, col]);
      ClearColumn(m, col);
    }
    ok := true;
  }

  lemma {:induction false} NoMore(g: Grid, n: nat)
    requires n <= 4 && Reduce(g, n).None?
    ensures Reduce(g, 4).None?
    decreases 4 - n
  {
    if n < 4 {
      NoMore(g, n + 1);
    }
  }

  // ---- The fit.

  const TOLERANCE: real := 0.01

  function Off(s: Sample, m: Matrix): real {
    var p := Apply(s.offset, m);
    Abs(p.x - s.position.x) + Abs(p.y - s.position.y) + Abs(p.z - s.position.z)
  }

  predicate Meets(check: seq<Sample>, m: Matrix) {
    forall i :: 0 <= i < |check| ==> Off(check[i], m) <= TOLERANCE
  }

  /** The bind pose that the samples give: the tidied solution of their equations, if it meets those kept. */
  function Fitted(fit: SlotFit, sqrt: real -> real): Option<Matrix>
    requires Shaped(fit)
  {
    if fit.count < ENOUGH then None
    else
      match Reduce(System(fit), 4)
      case None => None
      case Some(g) =>
        match Tidied(RightSide(g), sqrt)
        case None => None
        case Some(m) => if Meets(fit.check, m) then Some(m) else None
  }

  method LoadSystem(m: array2<real>, fit: SlotFit)
    requires m.Length0 == 4 && m.Length1 == 7 && Shaped(fit)
    modifies m
    ensures GridOf(m) == System(fit)
  {
    for r := 0 to 4
      invariant forall q, d :: 0 <= q < r && 0 <= d < 7 ==> m[q, d] == System(fit)[q][d]
    {
      for c := 0 to 4
        invariant forall q, d :: 0 <= q < 4 && 0 <= d < 7 && (q < r || (q == r && d < c)) ==> m[q, d] == System(fit)[q][d]
      {
        m[r, c] := fit.ata[r][c];
      }
      for c := 0 to 3
        invariant forall q, d :: 0 <= q < 4 && 0 <= d < 7 && (q < r || (q == r && d < 4 + c)) ==> m[q, d] == System(fit)[q][d]
      {
        m[r, 4 + c] := fit.atb[r][c];
      }
    }
    assert forall q :: 0 <= q < 4 ==> GridOf(m)[q] == System(fit)[q];
  }

  /** No kept sample is further off than the tolerance. */
  method Checked(check: seq<Sample>, m: Matrix) returns (good: bool)
    ensures good <==> Meets(check, m)
  {
    for i := 0 to |check|
      invariant forall j :: 0 <= j < i ==> Off(check[j], m) <= TOLERANCE
    {
      if Off(check[i], m) > TOLERANCE {
        return false;
      }
    }
    good := true;
  }

  lemma {:induction false} KeptAreFirst(samples: seq<Sample>)
    ensures Gathered(samples).check == samples[..if |samples| < CHECKS then |samples| else CHECKS]
    ensures Gathered(samples).count == |samples|
  {
    if samples != [] {
      KeptAreFirst(samples[..|samples| - 1]);
    }
  }

  lemma KeptObey(samples: seq<Sample>, truth: Matrix)
    requires Obeys(samples, truth)
    ensures forall i :: 0 <= i < |Gathered(samples).check| ==> Off(Gathered(samples).check[i], truth) <= TOLERANCE
  {
    KeptAreFirst(samples);
  }

  /** If all samples are a rigid motion of their offsets and there is a single solution, it is that motion. */
  lemma FittedTruth(samples: seq<Sample>, truth: Matrix, sqrt: real -> real)
    requires SquareRoot(sqrt) && Rigid(truth) && Obeys(samples, truth)
    ensures Fitted(Gathered(samples), sqrt) ==
      if |samples| >= ENOUGH && Reduce(System(Gathered(samples)), 4).Some? then Some(truth) else None
  {
    hide Gathered, Reduce, Rigid, Obeys, System, Tidied, SquareRoot, Off, RightSide;
    KeptAreFirst(samples);
    KeptObey(samples, truth);
    var fit := Gathered(samples);
    if fit.count >= ENOUGH && Reduce(System(fit), 4).Some? {
      TruthSolves(samples, truth);
      OneSolution(System(fit), truth);
      RigidIsTidy(truth, sqrt);
    }
  }

  lemma SameFit(fit: SlotFit, other: SlotFit, sqrt: real -> real)
    requires Shaped(other) && fit.(solved := false) == other.(solved := false)
    ensures Shaped(fit) && System(fit) == System(other) && Fitted(fit, sqrt) == Fitted(other, sqrt)
  {
    hide Reduce, Tidied;
    assert forall r :: 0 <= r < 4 ==> System(fit)[r] == System(other)[r];
  }

  /** The bind pose of a bone: none with too few samples, with a system that has no single solution, with
      rows too short to tidy up, or if a kept sample is missed. What comes out is rigid and meets the kept
      samples; and if all samples are a rigid motion of their offsets, it is that motion. */
  method FitAffine(fit: SlotFit, ghost samples: seq<Sample>, sqrt: real -> real) returns (bind: Option<Matrix>)
    requires fit.(solved := false) == Gathered(samples) && SquareRoot(sqrt)
    ensures bind.Some? ==> Rigid(bind.value) && forall i :: 0 <= i < |fit.check| ==> Off(fit.check[i], bind.value) <= TOLERANCE
    ensures forall truth :: Rigid(truth) && Obeys(samples, truth) ==>
      bind == if fit.count >= ENOUGH && Reduce(System(fit), 4).Some? then Some(truth) else None
    ensures fit.count < ENOUGH ==> bind == None
    ensures Shaped(fit) && bind == Fitted(fit, sqrt)
  {
    bind := None;
    SameFit(fit, Gathered(samples), sqrt);
    forall truth | Rigid(truth) && Obeys(samples, truth)
      ensures Fitted(fit, sqrt) == if fit.count >= ENOUGH && Reduce(System(fit), 4).Some? then Some(truth) else None
    {
      KeptAreFirst(samples);
      FittedTruth(samples, truth, sqrt);
    }
    if fit.count < ENOUGH {
      return;
    }
    var m := new real[4, 7];
    LoadSystem(m, fit);
    var ok := Eliminate(m);
    if !ok {
      return;
    }
    var affine := Matrix(Vec(m[0, 4], m[0, 5], m[0, 6]), Vec(m[1, 4], m[1, 5], m[1, 6]),
                         Vec(m[2, 4], m[2, 5], m[2, 6]), Vec(m[3, 4], m[3, 5], m[3, 6]));
    assert affine == RightSide(GridOf(m));
    var tidy, out := Orthonormal(affine, sqrt);
    if !tidy {
      return;
    }
    var good := Checked(fit.check, out);
    if good {
      bind := Some(out);
    }
  }

  // ---- Samples that determine a transform.

  /** The first four of a row. */
  ghost predicate Starts(row: seq<real>, a: real, b: real, c: real, d: real) {
    |row| >= 4 && row[0] == a && row[1] == b && row[2] == c && row[3] == d
  }

  /** The left side of the equations: sums of products of the coordinates, of coordinates, and their number. */
  ghost predicate Moments(fit: SlotFit, xx: real, xy: real, xz: real, x: real, yy: real, yz: real, y: real, zz: real, z: real, n: real) {
    && Shaped(fit)
    && Starts(fit.ata[0], xx, xy, xz, x) && Starts(fit.ata[1], xy, yy, yz, y)
    && Starts(fit.ata[2], xz, yz, zz, z) && Starts(fit.ata[3], x, y, z, n)
  }

  lemma AddMoments(fit: SlotFit, s: Sample, xx: real, xy: real, xz: real, x: real, yy: real, yz: real, y: real, zz: real, z: real, n: real)
    requires Moments(fit, xx, xy, xz, x, yy, yz, y, zz, z, n)
    ensures var o := s.offset;
      Moments(WithEquation(fit, s), xx + o.x * o.x, xy + o.x * o.y, xz + o.x * o.z, x + o.x, yy + o.y * o.y, yz + o.y * o.z, y + o.y,
              zz + o.z * o.z, z + o.z, n + 1.0)
  {
  }

  /** The corners of the unit cube, wherever they are moved. */
  ghost predicate AtCorners(samples: seq<Sample>) {
    && |samples| == 8
    && samples[0].offset == Vec(0.0, 0.0, 0.0) && samples[1].offset == Vec(1.0, 0.0, 0.0)
    && samples[2].offset == Vec(0.0, 1.0, 0.0) && samples[3].offset == Vec(1.0, 1.0, 0.0)
    && samples[4].offset == Vec(0.0, 0.0, 1.0) && samples[5].offset == Vec(1.0, 0.0, 1.0)
    && samples[6].offset == Vec(0.0, 1.0, 1.0) && samples[7].offset == Vec(1.0, 1.0, 1.0)
  }

  lemma NextGathered(samples: seq<Sample>, n: nat)
    requires n < |samples|
    ensures Gathered(samples[..n + 1]) == WithEquation(Gathered(samples[..n]), samples[n])
  {
    hide WithEquation;
    assert samples[..n + 1][..n] == samples[..n];
  }

  lemma CornerMoments(samples: seq<Sample>)
    requires AtCorners(samples)
    ensures Moments(Gathered(samples), 4.0, 2.0, 2.0, 4.0, 4.0, 2.0, 4.0, 4.0, 4.0, 8.0)
  {
    assert samples[..0] == [] && samples[..8] == samples;
    assert Moments(Gathered(samples[..0]), 0.0, 0.0, 0.0, 0.0, 0.0, 0.0, 0.0, 0.0, 0.0, 0.0);
    hide Gathered, WithEquation, Moments;
    NextGathered(samples, 0);
    AddMoments(Gathered(samples[..0]), samples[0], 0.0, 0.0, 0.0, 0.0, 0.0, 0.0, 0.0, 0.0, 0.0, 0.0);
    NextGathered(samples, 1);
    AddMoments(Gathered(samples[..1]), samples[1], 0.0, 0.0, 0.0, 0.0, 0.0, 0.0, 0.0, 0.0, 0.0, 1.0);
    NextGathered(samples, 2);
    AddMoments(Gathered(samples[..2]), samples[2], 1.0, 0.0, 0.0, 1.0, 0.0, 0.0, 0.0, 0.0, 0.0, 2.0);
    NextGathered(samples, 3);
    AddMoments(Gathered(samples[..3]), samples[3], 1.0, 0.0, 0.0, 1.0, 1.0, 0.0, 1.0, 0.0, 0.0, 3.0);
    NextGathered(samples, 4);
    AddMoments(Gathered(samples[..4]), samples[4], 2.0, 1.0, 0.0, 2.0, 2.0, 0.0, 2.0, 0.0, 0.0, 4.0);
    NextGathered(samples, 5);
    AddMoments(Gathered(samples[..5]), samples[5], 2.0, 1.0, 0.0, 2.0, 2.0, 0.0, 2.0, 1.0, 1.0, 5.0);
    NextGathered(samples, 6);
    AddMoments(Gathered(samples[..6]), samples[6], 3.0, 1.0, 1.0, 3.0, 2.0, 0.0, 2.0, 2.0, 2.0, 6.0);
    NextGathered(samples, 7);
    AddMoments(Gathered(samples[..7]), samples[7], 3.0, 1.0, 1.0, 3.0, 3.0, 1.0, 3.0, 3.0, 3.0, 7.0);
  }

  lemma {:induction false} ClearedAt(g: Grid, col: nat, n: nat, r: nat, c: nat)
    requires col < 4 && n <= 4 && r < 4 && c < 7
    ensures Cleared(g, col, n)[r][c] == if r < n && r != col then Lowered(g[r][c], g[r][col], g[col][c]) else g[r][c]
  {
    hide Lowered;
    if n > 0 {
      ClearedAt(g, col, n - 1, r, c);
      ClearedAt(g, col, n - 1, r, col);
      ClearedAt(g, col, n - 1, col, c);
    }
  }

  lemma {:induction false} OwnPivot(g: Grid, col: nat, n: nat)
    requires col < n <= 4 && forall r :: col <= r < n ==> Abs(g[r][col]) <= Abs(g[col][col])
    ensures Pivot(g, col, n) == col
  {
    hide Abs;
    if n > col + 1 {
      OwnPivot(g, col, n - 1);
    }
  }

  /** An entry after a column whose largest entry stands in its own row; d is what that row is divided by. */
  lemma ReducedAt(g: Grid, col: nat, d: real, r: nat, c: nat)
    requires col < 4 && r < 4 && c < 7 && d >= TINY && g[col][col] == d
    requires forall q :: col <= q < 4 ==> Abs(g[q][col]) <= d
    ensures ReduceColumn(g, col).Some?
    ensures ReduceColumn(g, col).value[r][c] ==
      if r == col then g[col][c] * (1.0 / d) else Lowered(g[r][c], g[r][col], g[col][c] * (1.0 / d))
  {
    PivotThere(g, col, d);
    hide Lowered, Cleared, ReduceColumn, Times, Abs;
    DividedAt(g[col], d, c);
    var t := g[col := Times(g[col], 1.0 / d)];
    ClearedAt(t, col, 4, r, c);
    assert r != col ==> t[r] == g[r];
  }

  lemma DividedAt(row: Row, d: real, c: nat)
    requires c < 7 && d > 0.0
    ensures Times(row, 1.0 / d)[c] == row[c] * (1.0 / d)
  {
  }

  lemma PivotThere(g: Grid, col: nat, d: real)
    requires col < 4 && d >= TINY && g[col][col] == d && forall q :: col <= q < 4 ==> Abs(g[q][col]) <= d
    ensures ReduceColumn(g, col) == Some(Cleared(g[col := Times(g[col], 1.0 / d)], col, 4))
  {
    hide Cleared, Times;
    OwnPivot(g, col, 4);
    assert Swapped(g, col, col) == g;
  }

  lemma Column0(g: Grid)
    requires Starts(g[0], 4.0, 2.0, 2.0, 4.0) && Starts(g[1], 2.0, 4.0, 2.0, 4.0)
    requires Starts(g[2], 2.0, 2.0, 4.0, 4.0) && Starts(g[3], 4.0, 4.0, 4.0, 8.0)
    ensures ReduceColumn(g, 0).Some?
    ensures var h := ReduceColumn(g, 0).value;
      && Starts(h[0], 1.0, 0.5, 0.5, 1.0) && Starts(h[1], 0.0, 3.0, 1.0, 2.0)
      && Starts(h[2], 0.0, 1.0, 3.0, 2.0) && Starts(h[3], 0.0, 2.0, 2.0, 4.0)
  {
    hide ReduceColumn;
    forall r, c | 0 <= r < 4 && 0 <= c < 4
      ensures ReduceColumn(g, 0).Some?
      ensures ReduceColumn(g, 0).value[r][c] ==
        if r == 0 then g[0][c] * (1.0 / 4.0) else Lowered(g[r][c], g[r][0], g[0][c] * (1.0 / 4.0))
    {
      ReducedAt(g, 0, 4.0, r, c);
    }
    var h := ReduceColumn(g, 0).value;
    assert Starts(h[0], 1.0, 0.5, 0.5, 1.0);
    assert Starts(h[1], 0.0, 3.0, 1.0, 2.0);
    assert Starts(h[2], 0.0, 1.0, 3.0, 2.0);
    assert Starts(h[3], 0.0, 2.0, 2.0, 4.0);
  }

  lemma Column1(g: Grid)
    requires Starts(g[0], 1.0, 0.5, 0.5, 1.0) && Starts(g[1], 0.0, 3.0, 1.0, 2.0)
    requires Starts(g[2], 0.0, 1.0, 3.0, 2.0) && Starts(g[3], 0.0, 2.0, 2.0, 4.0)
    ensures ReduceColumn(g, 1).Some?
    ensures var h := ReduceColumn(g, 1).value;
      h[2][2] == 8.0 / 3.0 && h[2][3] == 4.0 / 3.0 && h[3][2] == 4.0 / 3.0 && h[3][3] == 8.0 / 3.0
  {
    hide ReduceColumn;
    ReducedAt(g, 1, 3.0, 2, 2);
    ReducedAt(g, 1, 3.0, 2, 3);
    ReducedAt(g, 1, 3.0, 3, 2);
    ReducedAt(g, 1, 3.0, 3, 3);
  }

  lemma Column2(g: Grid)
    requires g[2][2] == 8.0 / 3.0 && g[2][3] == 4.0 / 3.0 && g[3][2] == 4.0 / 3.0 && g[3][3] == 8.0 / 3.0
    ensures ReduceColumn(g, 2).Some? && ReduceColumn(g, 2).value[3][3] == 2.0
  {
    hide ReduceColumn;
    ReducedAt(g, 2, 8.0 / 3.0, 3, 3);
  }

  lemma Column3(g: Grid)
    requires g[3][3] == 2.0
    ensures ReduceColumn(g, 3).Some?
  {
    hide ReduceColumn;
    ReducedAt(g, 3, 2.0, 3, 3);
  }

  /** Eight such samples are enough. */
  lemma CornersDetermine(samples: seq<Sample>)
    requires AtCorners(samples)
    ensures Reduce(System(Gathered(samples)), 4).Some?
  {
    CornerMoments(samples);
    hide Gathered, ReduceColumn;
    var g := System(Gathered(samples));
    Column0(g);
    var g1 := ReduceColumn(g, 0).value;
    Column1(g1);
    var g2 := ReduceColumn(g1, 1).value;
    Column2(g2);
    Column3(ReduceColumn(g2, 2).value);
    assert Reduce(g, 0) == Some(g) && Reduce(g, 1) == Some(g1) && Reduce(g, 2) == Some(g2);
  }
}
