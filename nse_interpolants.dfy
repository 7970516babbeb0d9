/** The interpolation formulas of nse_tabular/nse_table.H over exact reals:
    the closed-form cubic through four equally spaced points and its
    derivative, the 8-corner trilinear interpolant, and the tricubic
    interpolant as the axis-by-axis collapse Ye -> T -> rho (or Ye -> rho
    -> T for the temperature derivative). */
module NseInterpolants {
  import opened Numerics
  import opened NseGrid

  // ---------------------------------------------------------------------
  // One-dimensional cubic

  function Cube(x: real): real { x * x * x }

  /** The divided-difference coefficients of the cubic through
      (xs[k], fs[k]), expanded about xs[1]. */
  function CoefA(fs: seq<real>, dx: real): real
    requires |fs| == 4 && dx != 0.0
  {
    (3.0 * fs[1] - 3.0 * fs[2] + fs[3] - fs[0]) / (6.0 * Cube(dx))
  }

  function CoefB(fs: seq<real>, dx: real): real
    requires |fs| == 4 && dx != 0.0
  {
    (-2.0 * fs[1] + fs[2] + fs[0]) / (2.0 * dx * dx)
  }

  function CoefC(fs: seq<real>, dx: real): real
    requires |fs| == 4 && dx != 0.0
  {
    (-3.0 * fs[1] + 6.0 * fs[2] - fs[3] - 2.0 * fs[0]) / (6.0 * dx)
  }

  /** cubic: the fitted cubic evaluated at x. */
  function Cubic(xs: seq<real>, fs: seq<real>, dx: real, x: real): real
    requires |xs| == 4 && |fs| == 4 && dx != 0.0
  {
    var s := x - xs[1];
    CoefA(fs, dx) * Cube(s) + CoefB(fs, dx) * (s * s) + CoefC(fs, dx) * s + fs[1]
  }

  /** cubic_deriv: the derivative of the fitted cubic at x. */
  function CubicDeriv(xs: seq<real>, fs: seq<real>, dx: real, x: real): real
    requires |xs| == 4 && |fs| == 4 && dx != 0.0
  {
    var s := x - xs[1];
    3.0 * CoefA(fs, dx) * (s * s) + 2.0 * CoefB(fs, dx) * s + CoefC(fs, dx)
  }

  /** Four nodes spaced `dx` apart (dx may be negative). */
  predicate EquallySpaced(xs: seq<real>, dx: real)
  {
    |xs| == 4 && forall k :: 0 <= k < 4 ==> xs[k] == xs[1] + (k - 1) as real * dx
  }

  /** The cubic passes through its four data points. */
  lemma {:induction false} CubicAtNodes(xs: seq<real>, fs: seq<real>, dx: real, k: int)
    requires EquallySpaced(xs, dx) && |fs| == 4 && dx != 0.0
    requires 0 <= k < 4
    ensures Cubic(xs, fs, dx, xs[k]) == fs[k]
  {
    CoefScaled(fs, dx);
    assert xs[0] - xs[1] == -dx && xs[2] - xs[1] == dx && xs[3] - xs[1] == 2.0 * dx;
    PolynomialAtNodes(fs[0], fs[1], fs[2], fs[3], CoefA(fs, dx), CoefB(fs, dx), CoefC(fs, dx), dx,
                      xs[0] - xs[1], xs[1] - xs[1], xs[2] - xs[1], xs[3] - xs[1]);
    if k == 0 {
      assert Cubic(xs, fs, dx, xs[0]) == fs[0];
    } else if k == 1 {
      assert Cubic(xs, fs, dx, xs[1]) == fs[1];
    } else if k == 2 {
      assert Cubic(xs, fs, dx, xs[2]) == fs[2];
    } else {
      assert Cubic(xs, fs, dx, xs[3]) == fs[3];
    }
  }

  /** The cubic a s^3 + b s^2 + c s + f1, with the coefficients CoefScaled
      gives, takes the four samples at s = -d, 0, d and 2 d. */
  lemma PolynomialAtNodes(f0: real, f1: real, f2: real, f3: real, a: real, b: real, c: real, d: real,
                          s0: real, s1: real, s2: real, s3: real)
    requires a * Cube(d) == (3.0 * f1 - 3.0 * f2 + f3 - f0) / 6.0
    requires b * (d * d) == (-2.0 * f1 + f2 + f0) / 2.0
    requires c * d == (-3.0 * f1 + 6.0 * f2 - f3 - 2.0 * f0) / 6.0
    requires s0 == -d && s1 == 0.0 && s2 == d && s3 == 2.0 * d
    ensures a * Cube(s0) + b * (s0 * s0) + c * s0 + f1 == f0
    ensures a * Cube(s1) + b * (s1 * s1) + c * s1 + f1 == f1
    ensures a * Cube(s2) + b * (s2 * s2) + c * s2 + f1 == f2
    ensures a * Cube(s3) + b * (s3 * s3) + c * s3 + f1 == f3
  {
    TermsOneStepBelow(a, b, c, d, s0);
    TermsTwoStepsAbove(a, b, c, d, s3);
  }

  /** The three terms of the cubic at s = -d and at s = 2 d, in terms of
      their values at s = d. */
  lemma TermsOneStepBelow(a: real, b: real, c: real, d: real, s: real)
    requires s == -d
    ensures a * Cube(s) == -(a * Cube(d))
    ensures b * (s * s) == b * (d * d)
    ensures c * s == -(c * d)
  {
  }

  lemma TermsTwoStepsAbove(a: real, b: real, c: real, d: real, s: real)
    requires s == 2.0 * d
    ensures a * Cube(s) == 8.0 * (a * Cube(d))
    ensures b * (s * s) == 4.0 * (b * (d * d))
    ensures c * s == 2.0 * (c * d)
  {
  }

  /** Each coefficient times its power of dx is a fixed combination of the
      data. */
  lemma CoefScaled(fs: seq<real>, dx: real)
    requires |fs| == 4 && dx != 0.0
    ensures CoefA(fs, dx) * Cube(dx) == (3.0 * fs[1] - 3.0 * fs[2] + fs[3] - fs[0]) / 6.0
    ensures CoefB(fs, dx) * (dx * dx) == (-2.0 * fs[1] + fs[2] + fs[0]) / 2.0
    ensures CoefC(fs, dx) * dx == (-3.0 * fs[1] + 6.0 * fs[2] - fs[3] - 2.0 * fs[0]) / 6.0
  {
    assert Cube(dx) == (dx * dx) * dx;
    QuotientScaled(3.0 * fs[1] - 3.0 * fs[2] + fs[3] - fs[0], 6.0 * Cube(dx), 6.0, Cube(dx));
    QuotientScaled(-2.0 * fs[1] + fs[2] + fs[0], 2.0 * dx * dx, 2.0, dx * dx);
    QuotientScaled(-3.0 * fs[1] + 6.0 * fs[2] - fs[3] - 2.0 * fs[0], 6.0 * dx, 6.0, dx);
  }

  /** A quotient by m k, times k, is the quotient by m. */
  lemma QuotientScaled(n: real, den: real, m: real, k: real)
    requires m != 0.0 && k != 0.0 && den == m * k
    ensures (n / den) * k == n / m
  {
    DivideOut(n, den, n / den);
    assert (n / den) * k * m == n;
    DivideOut(n, m, (n / den) * k);
  }

  /** Data sampled from a straight line is reproduced exactly, and the
      derivative of the fit is the line's slope. */
  lemma {:induction false} CubicOfLine(xs: seq<real>, fs: seq<real>, dx: real, x: real, slope: real)
    requires |xs| == 4 && |fs| == 4 && dx != 0.0
    requires forall k :: 0 <= k < 4 ==> fs[k] == fs[1] + slope * ((k - 1) as real * dx)
    ensures Cubic(xs, fs, dx, x) == fs[1] + slope * (x - xs[1])
    ensures CubicDeriv(xs, fs, dx, x) == slope
  {
    assert fs[0] == fs[1] - slope * dx;
    assert fs[2] == fs[1] + slope * dx;
    assert fs[3] == fs[1] + slope * (2.0 * dx);
    assert 3.0 * fs[1] - 3.0 * fs[2] + fs[3] - fs[0] == 0.0;
    assert -2.0 * fs[1] + fs[2] + fs[0] == 0.0;
    assert -3.0 * fs[1] + 6.0 * fs[2] - fs[3] - 2.0 * fs[0] == 6.0 * dx * slope;
    assert CoefA(fs, dx) == 0.0;
    assert CoefB(fs, dx) == 0.0;
    assert CoefC(fs, dx) == slope;
  }

  /** The straight line alpha + beta * t. */
  function Line(alpha: real, beta: real, t: real): real
  {
    alpha + beta * t
  }

  /** Samples of the line alpha + beta * t at the four nodes: the
      derivative of the fit is the line's slope. */
  lemma SlopeOfSamples(xs: seq<real>, fs: seq<real>, dx: real, x: real, alpha: real, beta: real)
    requires EquallySpaced(xs, dx) && |fs| == 4 && dx != 0.0
    requires forall k :: 0 <= k < 4 ==> fs[k] == Line(alpha, beta, xs[k])
    ensures CubicDeriv(xs, fs, dx, x) == beta
  {
    forall k | 0 <= k < 4
      ensures fs[k] == fs[1] + beta * ((k - 1) as real * dx)
    {
      assert xs[k] == xs[1] + (k - 1) as real * dx;
    }
    CubicOfLine(xs, fs, dx, x, beta);
  }

  /** Equal data values: the fit is that constant and its slope is 0. */
  lemma CubicOfConstant(xs: seq<real>, fs: seq<real>, dx: real, x: real)
    requires |xs| == 4 && |fs| == 4 && dx != 0.0
    requires fs[0] == fs[1] == fs[2] == fs[3]
    ensures Cubic(xs, fs, dx, x) == fs[1]
    ensures CubicDeriv(xs, fs, dx, x) == 0.0
  {
    CubicOfLine(xs, fs, dx, x, 0.0);
  }

  // ---------------------------------------------------------------------
  // Table access

  /** A table array holds one value per grid point. */
  predicate Fits(g: Geometry, data: seq<real>)
  {
    |data| == Size(g)
  }

  /** data(nse_idx(ir, it, ic)) for a 1-based table array. */
  function At(g: Geometry, data: seq<real>, ir: int, it: int, ic: int): (r: real)
    requires Fits(g, data) && InTable(g, ir, it, ic)
    ensures r in data
  {
    IdxInRange(g, ir, it, ic);
    data[Idx(g, ir, it, ic) - 1]
  }

  /** A query point in the table's own coordinates: log10 rho, log10 T, Ye. */
  datatype Point = Point(logrho: real, logT: real, ye: real)

  // ---------------------------------------------------------------------
  // Trilinear

  /** Both corners of the cell whose lower corner is (ir1, it1, ic1) are
      in the table. */
  predicate CellOk(g: Geometry, ir1: int, it1: int, ic1: int)
  {
    InTable(g, ir1, it1, ic1) && InTable(g, ir1 + 1, it1 + 1, ic1 + 1)
  }

  /** The three fractional distances of the query inside the cell; the Ye
      one is measured downwards and clamped at 0. */
  function TempFraction(g: Geometry, it1: int, q: Point): real
    requires g.temp.step > 0.0
  {
    (q.logT - LogTAt(g, it1)) / g.temp.step
  }

  function RhoFraction(g: Geometry, ir1: int, q: Point): real
    requires g.rho.step > 0.0
  {
    (q.logrho - LogRhoAt(g, ir1)) / g.rho.step
  }

  function YeFraction(g: Geometry, ic1: int, q: Point): (xd: real)
    requires g.ye.step > 0.0
    ensures xd >= 0.0
    ensures YeAt(g, ic1) - q.ye >= 0.0 ==> xd * g.ye.step == YeAt(g, ic1) - q.ye
    ensures q.ye >= YeAt(g, ic1) ==> xd == 0.0
  {
    Max(0.0, (YeAt(g, ic1) - q.ye) / g.ye.step)
  }

  /** The eight corner values in the order trilinear names them:
      it1r1c1, it1r1c2, it1r2c1, it1r2c2, it2r1c1, it2r1c2, it2r2c1, it2r2c2. */
  function Corners(g: Geometry, ir1: int, it1: int, ic1: int, data: seq<real>): (c: seq<real>)
    requires Fits(g, data) && CellOk(g, ir1, it1, ic1)
    ensures |c| == 8
  {
    [At(g, data, ir1, it1, ic1), At(g, data, ir1, it1, ic1 + 1),
     At(g, data, ir1 + 1, it1, ic1), At(g, data, ir1 + 1, it1, ic1 + 1),
     At(g, data, ir1, it1 + 1, ic1), At(g, data, ir1, it1 + 1, ic1 + 1),
     At(g, data, ir1 + 1, it1 + 1, ic1), At(g, data, ir1 + 1, it1 + 1, ic1 + 1)]
  }

  /** The 8-corner weighted sum for fractions td (T), rd (rho), xd (Ye). */
  function WeightedSum(c: seq<real>, td: real, rd: real, xd: real): real
    requires |c| == 8
  {
    var omtd, omrd, omxd := 1.0 - td, 1.0 - rd, 1.0 - xd;
    c[0] * omtd * omrd * omxd +
    c[1] * omtd * omrd * xd +
    c[2] * omtd * rd * omxd +
    c[3] * omtd * rd * xd +
    c[4] * td * omrd * omxd +
    c[5] * td * omrd * xd +
    c[6] * td * rd * omxd +
    c[7] * td * rd * xd
  }

  /** trilinear */
  function Trilinear(g: Geometry, ir1: int, it1: int, ic1: int, q: Point, data: seq<real>): real
    requires GeometryOk(g) && Fits(g, data) && CellOk(g, ir1, it1, ic1)
  {
    WeightedSum(Corners(g, ir1, it1, ic1, data),
                TempFraction(g, it1, q), RhoFraction(g, ir1, q), YeFraction(g, ic1, q))
  }

  /** At each of the eight corners of its cell the trilinear interpolant
      returns the value stored at that corner. */
  lemma TrilinearAtCorner(g: Geometry, ir1: int, it1: int, ic1: int, a: int, b: int, c: int, data: seq<real>)
    requires GeometryOk(g) && Fits(g, data) && CellOk(g, ir1, it1, ic1)
    requires 0 <= a <= 1 && 0 <= b <= 1 && 0 <= c <= 1
    ensures Trilinear(g, ir1, it1, ic1, Point(LogRhoAt(g, ir1 + a), LogTAt(g, it1 + b), YeAt(g, ic1 + c)), data)
         == At(g, data, ir1 + a, it1 + b, ic1 + c)
  {
    var q := Point(LogRhoAt(g, ir1 + a), LogTAt(g, it1 + b), YeAt(g, ic1 + c));
    CornerFractions(g, ir1, it1, ic1, a, b, c);
    var cs := Corners(g, ir1, it1, ic1, data);
    TrilinearOfFractions(g, ir1, it1, ic1, q, data, b as real, a as real, c as real);
    WeightedSumAtCorner(cs, a, b, c);
    assert cs[4 * b + 2 * a + c] == At(g, data, ir1 + a, it1 + b, ic1 + c);
  }

  /** Trilinear is the weighted sum of the corners at the query's fractions. */
  lemma TrilinearOfFractions(g: Geometry, ir1: int, it1: int, ic1: int, q: Point, data: seq<real>,
                             td: real, rd: real, xd: real)
    requires GeometryOk(g) && Fits(g, data) && CellOk(g, ir1, it1, ic1)
    requires TempFraction(g, it1, q) == td && RhoFraction(g, ir1, q) == rd && YeFraction(g, ic1, q) == xd
    ensures Trilinear(g, ir1, it1, ic1, q, data) == WeightedSum(Corners(g, ir1, it1, ic1, data), td, rd, xd)
  {
  }

  /** At a corner of the cell the three fractions are that corner's 0/1
      offsets. */
  lemma CornerFractions(g: Geometry, ir1: int, it1: int, ic1: int, a: int, b: int, c: int)
    requires GeometryOk(g)
    ensures var q := Point(LogRhoAt(g, ir1 + a), LogTAt(g, it1 + b), YeAt(g, ic1 + c));
            TempFraction(g, it1, q) == b as real && RhoFraction(g, ir1, q) == a as real &&
            (c >= 0 ==> YeFraction(g, ic1, q) == c as real)
  {
    AxisOffset(g, ir1, a);
    AxisOffset(g, it1, b);
    AxisOffset(g, ic1, c);
    DivideOut(b as real * g.temp.step, g.temp.step, b as real);
    DivideOut(a as real * g.rho.step, g.rho.step, a as real);
    DivideOut(c as real * g.ye.step, g.ye.step, c as real);
  }

  /** With 0/1 fractions the weighted sum selects one corner. */
  lemma WeightedSumAtCorner(cs: seq<real>, a: int, b: int, c: int)
    requires |cs| == 8
    requires 0 <= a <= 1 && 0 <= b <= 1 && 0 <= c <= 1
    ensures WeightedSum(cs, b as real, a as real, c as real) == cs[4 * b + 2 * a + c]
  {
    if b == 0 {
      if a == 0 {
        if c == 0 { assert WeightedSum(cs, 0.0, 0.0, 0.0) == cs[0]; }
        else { assert WeightedSum(cs, 0.0, 0.0, 1.0) == cs[1]; }
      } else {
        if c == 0 { assert WeightedSum(cs, 0.0, 1.0, 0.0) == cs[2]; }
        else { assert WeightedSum(cs, 0.0, 1.0, 1.0) == cs[3]; }
      }
    } else {
      if a == 0 {
        if c == 0 { assert WeightedSum(cs, 1.0, 0.0, 0.0) == cs[4]; }
        else { assert WeightedSum(cs, 1.0, 0.0, 1.0) == cs[5]; }
      } else {
        if c == 0 { assert WeightedSum(cs, 1.0, 1.0, 0.0) == cs[6]; }
        else { assert WeightedSum(cs, 1.0, 1.0, 1.0) == cs[7]; }
      }
    }
  }

  /** The eight weights sum to one whatever the fractions. */
  lemma WeightsSumToOne(c: seq<real>, td: real, rd: real, xd: real, v: real)
    requires |c| == 8 && forall k :: 0 <= k < 8 ==> c[k] == v
    ensures WeightedSum(c, td, rd, xd) == v
  {
    var omtd, omrd, omxd := 1.0 - td, 1.0 - rd, 1.0 - xd;
    assert v * omtd * omrd * omxd + v * omtd * omrd * xd == v * omtd * omrd;
    assert v * omtd * rd * omxd + v * omtd * rd * xd == v * omtd * rd;
    assert v * td * omrd * omxd + v * td * omrd * xd == v * td * omrd;
    assert v * td * rd * omxd + v * td * rd * xd == v * td * rd;
    assert v * omtd * omrd + v * omtd * rd == v * omtd;
    assert v * td * omrd + v * td * rd == v * td;
  }

  /** Constant data is reproduced for every query, including ones outside
      the cell. */
  lemma TrilinearConstant(g: Geometry, ir1: int, it1: int, ic1: int, q: Point, data: seq<real>, v: real)
    requires GeometryOk(g) && Fits(g, data) && CellOk(g, ir1, it1, ic1)
    requires forall j :: 0 <= j < |data| ==> data[j] == v
    ensures Trilinear(g, ir1, it1, ic1, q, data) == v
  {
    var c := Corners(g, ir1, it1, ic1, data);
    CornersConstant(g, ir1, it1, ic1, data, v);
    var td, rd, xd := TempFraction(g, it1, q), RhoFraction(g, ir1, q), YeFraction(g, ic1, q);
    WeightsSumToOne(c, td, rd, xd, v);
    assert Trilinear(g, ir1, it1, ic1, q, data) == WeightedSum(c, td, rd, xd);
  }

  lemma CornersConstant(g: Geometry, ir1: int, it1: int, ic1: int, data: seq<real>, v: real)
    requires Fits(g, data) && CellOk(g, ir1, it1, ic1)
    requires forall j :: 0 <= j < |data| ==> data[j] == v
    ensures forall k :: 0 <= k < 8 ==> Corners(g, ir1, it1, ic1, data)[k] == v
  {
  }

  /** The Ye weight never extrapolates past the cell's upper-Ye node: any
      Ye at or above it gives the same value as the node itself. */
  lemma TrilinearYeFloor(g: Geometry, ir1: int, it1: int, ic1: int, q: Point, data: seq<real>)
    requires GeometryOk(g) && Fits(g, data) && CellOk(g, ir1, it1, ic1)
    requires q.ye >= YeAt(g, ic1)
    ensures Trilinear(g, ir1, it1, ic1, q, data) == Trilinear(g, ir1, it1, ic1, q.(ye := YeAt(g, ic1)), data)
  {
    assert YeFraction(g, ic1, q) == 0.0;
    assert YeFraction(g, ic1, q.(ye := YeAt(g, ic1))) == 0.0;
  }

  // ---------------------------------------------------------------------
  // Tricubic: the axis-by-axis collapse

  /** The 4x4x4 stencil starting at (ir0, it0, ic0) lies in the table. */
  predicate StencilOk(g: Geometry, ir0: int, it0: int, ic0: int)
  {
    InTable(g, ir0, it0, ic0) && InTable(g, ir0 + 3, it0 + 3, ic0 + 3)
  }

  /** A well-formed table whose data array fits it, and a stencil inside
      it: what every tricubic routine assumes of its arguments. */
  predicate StencilData(g: Geometry, ir0: int, it0: int, ic0: int, data: seq<real>)
  {
    GeometryOk(g) && Fits(g, data) && StencilOk(g, ir0, it0, ic0)
  }

  /** The coordinates of the four stencil nodes along each axis. */
  function YeNodes(g: Geometry, ic0: int): seq<real>
  {
    seq(4, k => YeAt(g, ic0 + k))
  }

  function TempNodes(g: Geometry, it0: int): seq<real>
  {
    seq(4, k => LogTAt(g, it0 + k))
  }

  function RhoNodes(g: Geometry, ir0: int): seq<real>
  {
    seq(4, k => LogRhoAt(g, ir0 + k))
  }

  /** The four table values along Ye at density ir0+ii and temperature
      it0+jj: the data of one Ye interpolation. */
  function YeSamples(g: Geometry, ir0: int, it0: int, ic0: int, data: seq<real>, ii: int, jj: int): (r: seq<real>)
    requires Fits(g, data) && StencilOk(g, ir0, it0, ic0)
    requires 0 <= ii < 4 && 0 <= jj < 4
    ensures |r| == 4
  {
    seq(4, k requires 0 <= k < 4 => At(g, data, ir0 + ii, it0 + jj, ic0 + k))
  }

  /** d1[ii][jj]: the cubic along Ye (spacing -dye, since Ye falls) through
      the four table values at density ir0+ii and temperature it0+jj. */
  function YeFit(g: Geometry, ir0: int, it0: int, ic0: int, q: Point, data: seq<real>, ii: int, jj: int): real
    requires StencilData(g, ir0, it0, ic0, data)
    requires 0 <= ii < 4 && 0 <= jj < 4
  {
    Cubic(YeNodes(g, ic0), YeSamples(g, ir0, it0, ic0, data, ii, jj), -g.ye.step, q.ye)
  }

  /** Row ii of d1 (one density plane, four temperatures) and column jj
      (one temperature plane, four densities). */
  function PlaneRow(g: Geometry, ir0: int, it0: int, ic0: int, q: Point, data: seq<real>, ii: int): (r: seq<real>)
    requires StencilData(g, ir0, it0, ic0, data)
    requires 0 <= ii < 4
    ensures |r| == 4
  {
    seq(4, jj requires 0 <= jj < 4 => YeFit(g, ir0, it0, ic0, q, data, ii, jj))
  }

  function PlaneColumn(g: Geometry, ir0: int, it0: int, ic0: int, q: Point, data: seq<real>, jj: int): (r: seq<real>)
    requires StencilData(g, ir0, it0, ic0, data)
    requires 0 <= jj < 4
    ensures |r| == 4
  {
    seq(4, ii requires 0 <= ii < 4 => YeFit(g, ir0, it0, ic0, q, data, ii, jj))
  }

  /** The cubic along T through the Ye fits of density plane ii. */
  function TempFit(g: Geometry, ir0: int, it0: int, ic0: int, q: Point, data: seq<real>, ii: int): real
    requires StencilData(g, ir0, it0, ic0, data)
    requires 0 <= ii < 4
  {
    Cubic(TempNodes(g, it0), PlaneRow(g, ir0, it0, ic0, q, data, ii), g.temp.step, q.logT)
  }

  /** The cubic along rho through the Ye fits of temperature plane jj. */
  function RhoFit(g: Geometry, ir0: int, it0: int, ic0: int, q: Point, data: seq<real>, jj: int): real
    requires StencilData(g, ir0, it0, ic0, data)
    requires 0 <= jj < 4
  {
    Cubic(RhoNodes(g, ir0), PlaneColumn(g, ir0, it0, ic0, q, data, jj), g.rho.step, q.logrho)
  }

  /** d2 of tricubic and tricubic_drho, and d2 of tricubic_dT. */
  function TempFits(g: Geometry, ir0: int, it0: int, ic0: int, q: Point, data: seq<real>): (r: seq<real>)
    requires StencilData(g, ir0, it0, ic0, data)
    ensures |r| == 4
  {
    seq(4, ii requires 0 <= ii < 4 => TempFit(g, ir0, it0, ic0, q, data, ii))
  }

  function RhoFits(g: Geometry, ir0: int, it0: int, ic0: int, q: Point, data: seq<real>): (r: seq<real>)
    requires StencilData(g, ir0, it0, ic0, data)
    ensures |r| == 4
  {
    seq(4, jj requires 0 <= jj < 4 => RhoFit(g, ir0, it0, ic0, q, data, jj))
  }

  /** tricubic: Ye, then T, then rho. */
  function TricubicValue(g: Geometry, ir0: int, it0: int, ic0: int, q: Point, data: seq<real>): real
    requires StencilData(g, ir0, it0, ic0, data)
  {
    Cubic(RhoNodes(g, ir0), TempFits(g, ir0, it0, ic0, q, data), g.rho.step, q.logrho)
  }

  /** tricubic_dT: Ye, then rho, then the derivative of the T cubic. */
  function TricubicDTValue(g: Geometry, ir0: int, it0: int, ic0: int, q: Point, data: seq<real>): real
    requires StencilData(g, ir0, it0, ic0, data)
  {
    CubicDeriv(TempNodes(g, it0), RhoFits(g, ir0, it0, ic0, q, data), g.temp.step, q.logT)
  }

  /** tricubic_drho: Ye, then T, then the derivative of the rho cubic. */
  function TricubicDRhoValue(g: Geometry, ir0: int, it0: int, ic0: int, q: Point, data: seq<real>): real
    requires StencilData(g, ir0, it0, ic0, data)
  {
    CubicDeriv(RhoNodes(g, ir0), TempFits(g, ir0, it0, ic0, q, data), g.rho.step, q.logrho)
  }

  /** A row (column) of d1 holding the Ye fits of one density
      (temperature) plane gives that plane's T (rho) fit. */
  lemma TempFitOfRow(g: Geometry, ir0: int, it0: int, ic0: int, q: Point, data: seq<real>, ii: int, d: seq<real>)
    requires StencilData(g, ir0, it0, ic0, data) && 0 <= ii < 4
    requires |d| == 4 && forall jj :: 0 <= jj < 4 ==> d[jj] == YeFit(g, ir0, it0, ic0, q, data, ii, jj)
    ensures Cubic(TempNodes(g, it0), d, g.temp.step, q.logT) == TempFit(g, ir0, it0, ic0, q, data, ii)
  {
    SameFour(d, PlaneRow(g, ir0, it0, ic0, q, data, ii));
  }

  lemma RhoFitOfColumn(g: Geometry, ir0: int, it0: int, ic0: int, q: Point, data: seq<real>, jj: int, d: seq<real>)
    requires StencilData(g, ir0, it0, ic0, data) && 0 <= jj < 4
    requires |d| == 4 && forall ii :: 0 <= ii < 4 ==> d[ii] == YeFit(g, ir0, it0, ic0, q, data, ii, jj)
    ensures Cubic(RhoNodes(g, ir0), d, g.rho.step, q.logrho) == RhoFit(g, ir0, it0, ic0, q, data, jj)
  {
    SameFour(d, PlaneColumn(g, ir0, it0, ic0, q, data, jj));
  }

  /** d2 holding the four T fits gives tricubic and tricubic_drho; d2
      holding the four rho fits gives tricubic_dT. */
  lemma OfTempFits(g: Geometry, ir0: int, it0: int, ic0: int, q: Point, data: seq<real>, d: seq<real>)
    requires StencilData(g, ir0, it0, ic0, data)
    requires |d| == 4 && forall ii :: 0 <= ii < 4 ==> d[ii] == TempFit(g, ir0, it0, ic0, q, data, ii)
    ensures Cubic(RhoNodes(g, ir0), d, g.rho.step, q.logrho) == TricubicValue(g, ir0, it0, ic0, q, data)
    ensures CubicDeriv(RhoNodes(g, ir0), d, g.rho.step, q.logrho) == TricubicDRhoValue(g, ir0, it0, ic0, q, data)
  {
    SameFour(d, TempFits(g, ir0, it0, ic0, q, data));
  }

  lemma OfRhoFits(g: Geometry, ir0: int, it0: int, ic0: int, q: Point, data: seq<real>, d: seq<real>)
    requires StencilData(g, ir0, it0, ic0, data)
    requires |d| == 4 && forall jj :: 0 <= jj < 4 ==> d[jj] == RhoFit(g, ir0, it0, ic0, q, data, jj)
    ensures CubicDeriv(TempNodes(g, it0), d, g.temp.step, q.logT) == TricubicDTValue(g, ir0, it0, ic0, q, data)
  {
    SameFour(d, RhoFits(g, ir0, it0, ic0, q, data));
  }

  lemma NodesEquallySpaced(g: Geometry, ir0: int, it0: int, ic0: int)
    ensures EquallySpaced(YeNodes(g, ic0), -g.ye.step)
    ensures EquallySpaced(TempNodes(g, it0), g.temp.step)
    ensures EquallySpaced(RhoNodes(g, ir0), g.rho.step)
  {
    forall k | 0 <= k < 4
      ensures YeNodes(g, ic0)[k] == YeNodes(g, ic0)[1] + (k - 1) as real * -g.ye.step
      ensures TempNodes(g, it0)[k] == TempNodes(g, it0)[1] + (k - 1) as real * g.temp.step
      ensures RhoNodes(g, ir0)[k] == RhoNodes(g, ir0)[1] + (k - 1) as real * g.rho.step
    {
      AxisOffset(g, ir0 + 1, k - 1);
      AxisOffset(g, it0 + 1, k - 1);
      AxisOffset(g, ic0 + 1, k - 1);
    }
  }

  /** At every node of its stencil the tricubic interpolant returns the
      stored value: each of the three collapses passes through its data. */
  lemma {:induction false} TricubicAtNode(g: Geometry, ir0: int, it0: int, ic0: int, ir: int, it: int, ic: int, data: seq<real>)
    requires StencilData(g, ir0, it0, ic0, data)
    requires ir0 <= ir < ir0 + 4 && it0 <= it < it0 + 4 && ic0 <= ic < ic0 + 4
    ensures TricubicValue(g, ir0, it0, ic0, Point(LogRhoAt(g, ir), LogTAt(g, it), YeAt(g, ic)), data)
         == At(g, data, ir, it, ic)
  {
    var q := Point(LogRhoAt(g, ir), LogTAt(g, it), YeAt(g, ic));
    var fs := TempFits(g, ir0, it0, ic0, q, data);
    TempFitsAtNode(g, ir0, it0, ic0, it, ic, q, data);
    assert TricubicValue(g, ir0, it0, ic0, q, data) == Cubic(RhoNodes(g, ir0), fs, g.rho.step, q.logrho);
    NodesEquallySpaced(g, ir0, it0, ic0);
    assert q.logrho == RhoNodes(g, ir0)[ir - ir0];
    CubicAtNodes(RhoNodes(g, ir0), fs, g.rho.step, ir - ir0);
  }

  /** The four T collapses at a node query: the stored values. */
  lemma TempFitsAtNode(g: Geometry, ir0: int, it0: int, ic0: int, it: int, ic: int, q: Point, data: seq<real>)
    requires StencilData(g, ir0, it0, ic0, data)
    requires it0 <= it < it0 + 4 && ic0 <= ic < ic0 + 4
    requires q.logT == LogTAt(g, it) && q.ye == YeAt(g, ic)
    ensures forall ii :: 0 <= ii < 4 ==> TempFits(g, ir0, it0, ic0, q, data)[ii] == At(g, data, ir0 + ii, it, ic)
  {
    forall ii | 0 <= ii < 4
      ensures TempFits(g, ir0, it0, ic0, q, data)[ii] == At(g, data, ir0 + ii, it, ic)
    {
      TempFitAtNode(g, ir0, it0, ic0, it, ic, q, data, ii);
    }
  }

  /** The T collapse of density plane ii at a node query: the stored value. */
  lemma TempFitAtNode(g: Geometry, ir0: int, it0: int, ic0: int, it: int, ic: int, q: Point, data: seq<real>, ii: int)
    requires StencilData(g, ir0, it0, ic0, data)
    requires it0 <= it < it0 + 4 && ic0 <= ic < ic0 + 4 && 0 <= ii < 4
    requires q.logT == LogTAt(g, it) && q.ye == YeAt(g, ic)
    ensures TempFit(g, ir0, it0, ic0, q, data, ii) == At(g, data, ir0 + ii, it, ic)
  {
    NodesEquallySpaced(g, ir0, it0, ic0);
    var fs := PlaneRow(g, ir0, it0, ic0, q, data, ii);
    forall jj | 0 <= jj < 4
      ensures fs[jj] == At(g, data, ir0 + ii, it0 + jj, ic)
    {
      var ys := YeSamples(g, ir0, it0, ic0, data, ii, jj);
      assert q.ye == YeNodes(g, ic0)[ic - ic0];
      CubicAtNodes(YeNodes(g, ic0), ys, -g.ye.step, ic - ic0);
    }
    assert q.logT == TempNodes(g, it0)[it - it0];
    CubicAtNodes(TempNodes(g, it0), fs, g.temp.step, it - it0);
  }

  /** Table data that depends on the temperature node only through a
      straight line in log T: alpha + beta * logT. */
  ghost predicate LinearInLogT(g: Geometry, data: seq<real>, alpha: real, beta: real)
    requires Fits(g, data)
  {
    forall ir, it, ic :: InTable(g, ir, it, ic) ==> At(g, data, ir, it, ic) == Line(alpha, beta, LogTAt(g, it))
  }

  /** Table data that is a straight line in log rho: alpha + beta * logrho. */
  ghost predicate LinearInLogRho(g: Geometry, data: seq<real>, alpha: real, beta: real)
    requires Fits(g, data)
  {
    forall ir, it, ic :: InTable(g, ir, it, ic) ==> At(g, data, ir, it, ic) == Line(alpha, beta, LogRhoAt(g, ir))
  }

  /** A Ye fit through four equal values is that value. */
  lemma YeFitFlat(g: Geometry, ir0: int, it0: int, ic0: int, q: Point, data: seq<real>, ii: int, jj: int, v: real)
    requires StencilData(g, ir0, it0, ic0, data)
    requires 0 <= ii < 4 && 0 <= jj < 4
    requires At(g, data, ir0 + ii, it0 + jj, ic0) == v && At(g, data, ir0 + ii, it0 + jj, ic0 + 1) == v
    requires At(g, data, ir0 + ii, it0 + jj, ic0 + 2) == v && At(g, data, ir0 + ii, it0 + jj, ic0 + 3) == v
    ensures YeFit(g, ir0, it0, ic0, q, data, ii, jj) == v
  {
    var fs := YeSamples(g, ir0, it0, ic0, data, ii, jj);
    assert fs[0] == v && fs[1] == v && fs[2] == v && fs[3] == v;
    CubicOfConstant(YeNodes(g, ic0), fs, -g.ye.step, q.ye);
  }

  /** A T fit of density plane ii through four equal Ye fits is that value. */
  lemma TempFitFlat(g: Geometry, ir0: int, it0: int, ic0: int, q: Point, data: seq<real>, ii: int, v: real)
    requires StencilData(g, ir0, it0, ic0, data)
    requires 0 <= ii < 4
    requires forall jj :: 0 <= jj < 4 ==> YeFit(g, ir0, it0, ic0, q, data, ii, jj) == v
    ensures TempFit(g, ir0, it0, ic0, q, data, ii) == v
  {
    var fs := PlaneRow(g, ir0, it0, ic0, q, data, ii);
    assert fs[0] == v && fs[1] == v && fs[2] == v && fs[3] == v;
    CubicOfConstant(TempNodes(g, it0), fs, g.temp.step, q.logT);
  }

  /** A rho fit of temperature plane jj through four equal Ye fits is that value. */
  lemma RhoFitFlat(g: Geometry, ir0: int, it0: int, ic0: int, q: Point, data: seq<real>, jj: int, v: real)
    requires StencilData(g, ir0, it0, ic0, data)
    requires 0 <= jj < 4
    requires forall ii :: 0 <= ii < 4 ==> YeFit(g, ir0, it0, ic0, q, data, ii, jj) == v
    ensures RhoFit(g, ir0, it0, ic0, q, data, jj) == v
  {
    var fs := PlaneColumn(g, ir0, it0, ic0, q, data, jj);
    assert fs[0] == v && fs[1] == v && fs[2] == v && fs[3] == v;
    CubicOfConstant(RhoNodes(g, ir0), fs, g.rho.step, q.logrho);
  }

  /** For data linear in log T, the four Ye samples of one (density,
      temperature) pair are equal, so their fit is the line's value. */
  lemma YeFitOfLineT(g: Geometry, ir0: int, it0: int, ic0: int, q: Point, data: seq<real>,
                     alpha: real, beta: real, ii: int, jj: int)
    requires StencilData(g, ir0, it0, ic0, data)
    requires LinearInLogT(g, data, alpha, beta)
    requires 0 <= ii < 4 && 0 <= jj < 4
    ensures YeFit(g, ir0, it0, ic0, q, data, ii, jj) == Line(alpha, beta, LogTAt(g, it0 + jj))
  {
    var ir, it := ir0 + ii, it0 + jj;
    assert InTable(g, ir, it, ic0) && InTable(g, ir, it, ic0 + 1);
    assert InTable(g, ir, it, ic0 + 2) && InTable(g, ir, it, ic0 + 3);
    YeFitFlat(g, ir0, it0, ic0, q, data, ii, jj, Line(alpha, beta, LogTAt(g, it)));
  }

  /** The same for data linear in log rho. */
  lemma YeFitOfLineRho(g: Geometry, ir0: int, it0: int, ic0: int, q: Point, data: seq<real>,
                       alpha: real, beta: real, ii: int, jj: int)
    requires StencilData(g, ir0, it0, ic0, data)
    requires LinearInLogRho(g, data, alpha, beta)
    requires 0 <= ii < 4 && 0 <= jj < 4
    ensures YeFit(g, ir0, it0, ic0, q, data, ii, jj) == Line(alpha, beta, LogRhoAt(g, ir0 + ii))
  {
    var ir, it := ir0 + ii, it0 + jj;
    assert InTable(g, ir, it, ic0) && InTable(g, ir, it, ic0 + 1);
    assert InTable(g, ir, it, ic0 + 2) && InTable(g, ir, it, ic0 + 3);
    YeFitFlat(g, ir0, it0, ic0, q, data, ii, jj, Line(alpha, beta, LogRhoAt(g, ir)));
  }

  /** For data linear in log T, tricubic_dT returns the exact slope. */
  lemma {:induction false} TricubicDTOfLine(g: Geometry, ir0: int, it0: int, ic0: int, q: Point, data: seq<real>, alpha: real, beta: real)
    requires StencilData(g, ir0, it0, ic0, data)
    requires LinearInLogT(g, data, alpha, beta)
    ensures TricubicDTValue(g, ir0, it0, ic0, q, data) == beta
  {
    forall jj | 0 <= jj < 4
      ensures RhoFits(g, ir0, it0, ic0, q, data)[jj] == Line(alpha, beta, TempNodes(g, it0)[jj])
    {
      RhoFitOfLineT(g, ir0, it0, ic0, q, data, alpha, beta, jj);
    }
    NodesEquallySpaced(g, ir0, it0, ic0);
    SlopeOfSamples(TempNodes(g, it0), RhoFits(g, ir0, it0, ic0, q, data), g.temp.step, q.logT, alpha, beta);
  }

  /** For data linear in log T, the rho collapse of temperature plane jj
      is the line's value at that plane's temperature. */
  lemma RhoFitOfLineT(g: Geometry, ir0: int, it0: int, ic0: int, q: Point, data: seq<real>,
                      alpha: real, beta: real, jj: int)
    requires StencilData(g, ir0, it0, ic0, data)
    requires LinearInLogT(g, data, alpha, beta)
    requires 0 <= jj < 4
    ensures RhoFit(g, ir0, it0, ic0, q, data, jj) == Line(alpha, beta, LogTAt(g, it0 + jj))
  {
    forall ii | 0 <= ii < 4
      ensures YeFit(g, ir0, it0, ic0, q, data, ii, jj) == Line(alpha, beta, LogTAt(g, it0 + jj))
    {
      YeFitOfLineT(g, ir0, it0, ic0, q, data, alpha, beta, ii, jj);
    }
    RhoFitFlat(g, ir0, it0, ic0, q, data, jj, Line(alpha, beta, LogTAt(g, it0 + jj)));
  }

  /** For data linear in log rho, tricubic_drho returns the exact slope. */
  lemma {:induction false} TricubicDRhoOfLine(g: Geometry, ir0: int, it0: int, ic0: int, q: Point, data: seq<real>, alpha: real, beta: real)
    requires StencilData(g, ir0, it0, ic0, data)
    requires LinearInLogRho(g, data, alpha, beta)
    ensures TricubicDRhoValue(g, ir0, it0, ic0, q, data) == beta
  {
    forall ii | 0 <= ii < 4
      ensures TempFits(g, ir0, it0, ic0, q, data)[ii] == Line(alpha, beta, RhoNodes(g, ir0)[ii])
    {
      TempFitOfLineRho(g, ir0, it0, ic0, q, data, alpha, beta, ii);
    }
    NodesEquallySpaced(g, ir0, it0, ic0);
    SlopeOfSamples(RhoNodes(g, ir0), TempFits(g, ir0, it0, ic0, q, data), g.rho.step, q.logrho, alpha, beta);
  }

  /** For data linear in log rho, the T collapse of density plane ii is
      the line's value at that plane's density. */
  lemma TempFitOfLineRho(g: Geometry, ir0: int, it0: int, ic0: int, q: Point, data: seq<real>,
                         alpha: real, beta: real, ii: int)
    requires StencilData(g, ir0, it0, ic0, data)
    requires LinearInLogRho(g, data, alpha, beta)
    requires 0 <= ii < 4
    ensures TempFit(g, ir0, it0, ic0, q, data, ii) == Line(alpha, beta, LogRhoAt(g, ir0 + ii))
  {
    forall jj | 0 <= jj < 4
      ensures YeFit(g, ir0, it0, ic0, q, data, ii, jj) == Line(alpha, beta, LogRhoAt(g, ir0 + ii))
    {
      YeFitOfLineRho(g, ir0, it0, ic0, q, data, alpha, beta, ii, jj);
    }
    TempFitFlat(g, ir0, it0, ic0, q, data, ii, Line(alpha, beta, LogRhoAt(g, ir0 + ii)));
  }

  /** Adding c to every sample leaves the three coefficients unchanged:
      each is a combination of the samples whose weights sum to zero. */
  lemma CoefShift(us: seq<real>, fs: seq<real>, dx: real, c: real)
    requires |us| == 4 && |fs| == 4 && dx != 0.0
    requires forall k :: 0 <= k < 4 ==> fs[k] == us[k] + c
    ensures CoefA(fs, dx) == CoefA(us, dx)
    ensures CoefB(fs, dx) == CoefB(us, dx)
    ensures CoefC(fs, dx) == CoefC(us, dx)
  {
    assert fs[0] == us[0] + c && fs[1] == us[1] + c;
    assert fs[2] == us[2] + c && fs[3] == us[3] + c;
    var na := 3.0 * us[1] - 3.0 * us[2] + us[3] - us[0];
    var nb := -2.0 * us[1] + us[2] + us[0];
    var nc := -3.0 * us[1] + 6.0 * us[2] - us[3] - 2.0 * us[0];
    assert 3.0 * fs[1] - 3.0 * fs[2] + fs[3] - fs[0] == na;
    assert -2.0 * fs[1] + fs[2] + fs[0] == nb;
    assert -3.0 * fs[1] + 6.0 * fs[2] - fs[3] - 2.0 * fs[0] == nc;
  }

  /** Adding c to every sample adds c to the fitted cubic and leaves its
      derivative unchanged. */
  lemma CubicShift(xs: seq<real>, us: seq<real>, fs: seq<real>, dx: real, x: real, c: real)
    requires |xs| == 4 && |us| == 4 && |fs| == 4 && dx != 0.0
    requires forall k :: 0 <= k < 4 ==> fs[k] == us[k] + c
    ensures Cubic(xs, fs, dx, x) == Cubic(xs, us, dx, x) + c
    ensures CubicDeriv(xs, fs, dx, x) == CubicDeriv(xs, us, dx, x)
  {
    CoefShift(us, fs, dx, c);
    assert fs[1] == us[1] + c;
  }

  /** A plane's fit moved by u - v from the base plane's is the line
      through the base value less v, plus u. */
  lemma Regroup(x: real, y: real, u: real, v: real)
    requires x == y + (u - v)
    ensures x == (y - v) + u
  {
  }

  /** Table data f(logrho, Ye) + beta * logT: at every grid point the
      value is f of its density and Ye nodes plus beta times its logT. */
  ghost predicate ShiftedInLogT(g: Geometry, data: seq<real>, f: (int, int) -> real, beta: real)
    requires Fits(g, data)
  {
    forall ir, it, ic :: InTable(g, ir, it, ic) ==> At(g, data, ir, it, ic) == f(ir, ic) + beta * LogTAt(g, it)
  }

  /** Table data f(logT, Ye) + beta * logrho. */
  ghost predicate ShiftedInLogRho(g: Geometry, data: seq<real>, f: (int, int) -> real, beta: real)
    requires Fits(g, data)
  {
    forall ir, it, ic :: InTable(g, ir, it, ic) ==> At(g, data, ir, it, ic) == f(it, ic) + beta * LogRhoAt(g, ir)
  }

  /** For data f(logrho, Ye) + beta * logT, the Ye fit at temperature
      plane jj is the one at plane 0 moved by beta times the logT step. */
  lemma YeFitOfShiftT(g: Geometry, ir0: int, it0: int, ic0: int, q: Point, data: seq<real>, f: (int, int) -> real,
                      beta: real, ii: int, jj: int)
    requires StencilData(g, ir0, it0, ic0, data)
    requires ShiftedInLogT(g, data, f, beta)
    requires 0 <= ii < 4 && 0 <= jj < 4
    ensures YeFit(g, ir0, it0, ic0, q, data, ii, jj)
         == YeFit(g, ir0, it0, ic0, q, data, ii, 0) + (beta * LogTAt(g, it0 + jj) - beta * LogTAt(g, it0))
  {
    var c := beta * LogTAt(g, it0 + jj) - beta * LogTAt(g, it0);
    var us, fs := YeSamples(g, ir0, it0, ic0, data, ii, 0), YeSamples(g, ir0, it0, ic0, data, ii, jj);
    SamplesOfShiftT(g, ir0, it0, ic0, data, f, beta, ii, jj);
    CubicShift(YeNodes(g, ic0), us, fs, -g.ye.step, q.ye, c);
    assert YeFit(g, ir0, it0, ic0, q, data, ii, jj) == Cubic(YeNodes(g, ic0), fs, -g.ye.step, q.ye);
    assert YeFit(g, ir0, it0, ic0, q, data, ii, 0) == Cubic(YeNodes(g, ic0), us, -g.ye.step, q.ye);
  }

  /** The Ye samples at temperature plane jj are those at plane 0 moved
      by beta times the logT step. */
  lemma SamplesOfShiftT(g: Geometry, ir0: int, it0: int, ic0: int, data: seq<real>, f: (int, int) -> real,
                        beta: real, ii: int, jj: int)
    requires StencilData(g, ir0, it0, ic0, data)
    requires ShiftedInLogT(g, data, f, beta)
    requires 0 <= ii < 4 && 0 <= jj < 4
    ensures forall k :: 0 <= k < 4 ==>
              YeSamples(g, ir0, it0, ic0, data, ii, jj)[k]
              == YeSamples(g, ir0, it0, ic0, data, ii, 0)[k] + (beta * LogTAt(g, it0 + jj) - beta * LogTAt(g, it0))
  {
    forall k | 0 <= k < 4
      ensures YeSamples(g, ir0, it0, ic0, data, ii, jj)[k]
           == YeSamples(g, ir0, it0, ic0, data, ii, 0)[k] + (beta * LogTAt(g, it0 + jj) - beta * LogTAt(g, it0))
    {
      assert InTable(g, ir0 + ii, it0 + jj, ic0 + k) && InTable(g, ir0 + ii, it0, ic0 + k);
    }
  }

  /** ... and so is the rho collapse of temperature plane jj. */
  lemma RhoFitOfShiftT(g: Geometry, ir0: int, it0: int, ic0: int, q: Point, data: seq<real>, f: (int, int) -> real,
                       beta: real, jj: int)
    requires StencilData(g, ir0, it0, ic0, data)
    requires ShiftedInLogT(g, data, f, beta)
    requires 0 <= jj < 4
    ensures RhoFit(g, ir0, it0, ic0, q, data, jj)
         == Line(RhoFit(g, ir0, it0, ic0, q, data, 0) - beta * LogTAt(g, it0), beta, LogTAt(g, it0 + jj))
  {
    var c := beta * LogTAt(g, it0 + jj) - beta * LogTAt(g, it0);
    var us := PlaneColumn(g, ir0, it0, ic0, q, data, 0);
    var fs := PlaneColumn(g, ir0, it0, ic0, q, data, jj);
    forall ii | 0 <= ii < 4
      ensures fs[ii] == us[ii] + c
    {
      YeFitOfShiftT(g, ir0, it0, ic0, q, data, f, beta, ii, jj);
    }
    CubicShift(RhoNodes(g, ir0), us, fs, g.rho.step, q.logrho, c);
    Regroup(RhoFit(g, ir0, it0, ic0, q, data, jj), RhoFit(g, ir0, it0, ic0, q, data, 0),
            beta * LogTAt(g, it0 + jj), beta * LogTAt(g, it0));
  }

  /** When the four rho collapses lie on a line of slope beta in logT,
      tricubic_dT returns beta. */
  lemma TricubicDTOfPlanes(g: Geometry, ir0: int, it0: int, ic0: int, q: Point, data: seq<real>, alpha: real, beta: real)
    requires StencilData(g, ir0, it0, ic0, data)
    requires forall jj :: 0 <= jj < 4 ==> RhoFit(g, ir0, it0, ic0, q, data, jj) == Line(alpha, beta, LogTAt(g, it0 + jj))
    ensures TricubicDTValue(g, ir0, it0, ic0, q, data) == beta
  {
    forall jj | 0 <= jj < 4
      ensures RhoFits(g, ir0, it0, ic0, q, data)[jj] == Line(alpha, beta, TempNodes(g, it0)[jj])
    {
    }
    NodesEquallySpaced(g, ir0, it0, ic0);
    SlopeOfSamples(TempNodes(g, it0), RhoFits(g, ir0, it0, ic0, q, data), g.temp.step, q.logT, alpha, beta);
  }

  /** For data f(logrho, Ye) + beta * logT, tricubic_dT returns beta at
      every query: the derivative does not depend on f. */
  lemma {:induction false} TricubicDTOfShift(g: Geometry, ir0: int, it0: int, ic0: int, q: Point, data: seq<real>, f: (int, int) -> real, beta: real)
    requires StencilData(g, ir0, it0, ic0, data)
    requires ShiftedInLogT(g, data, f, beta)
    ensures TricubicDTValue(g, ir0, it0, ic0, q, data) == beta
  {
    var base := RhoFit(g, ir0, it0, ic0, q, data, 0) - beta * LogTAt(g, it0);
    forall jj | 0 <= jj < 4
      ensures RhoFit(g, ir0, it0, ic0, q, data, jj) == Line(base, beta, LogTAt(g, it0 + jj))
    {
      RhoFitOfShiftT(g, ir0, it0, ic0, q, data, f, beta, jj);
    }
    TricubicDTOfPlanes(g, ir0, it0, ic0, q, data, base, beta);
  }

  /** For data f(logT, Ye) + beta * logrho, the Ye fit of density plane
      ii is the one of plane 0 moved by beta times the logrho step. */
  lemma YeFitOfShiftRho(g: Geometry, ir0: int, it0: int, ic0: int, q: Point, data: seq<real>, f: (int, int) -> real,
                        beta: real, ii: int, jj: int)
    requires StencilData(g, ir0, it0, ic0, data)
    requires ShiftedInLogRho(g, data, f, beta)
    requires 0 <= ii < 4 && 0 <= jj < 4
    ensures YeFit(g, ir0, it0, ic0, q, data, ii, jj)
         == YeFit(g, ir0, it0, ic0, q, data, 0, jj) + (beta * LogRhoAt(g, ir0 + ii) - beta * LogRhoAt(g, ir0))
  {
    var c := beta * LogRhoAt(g, ir0 + ii) - beta * LogRhoAt(g, ir0);
    var us, fs := YeSamples(g, ir0, it0, ic0, data, 0, jj), YeSamples(g, ir0, it0, ic0, data, ii, jj);
    SamplesOfShiftRho(g, ir0, it0, ic0, data, f, beta, ii, jj);
    CubicShift(YeNodes(g, ic0), us, fs, -g.ye.step, q.ye, c);
    assert YeFit(g, ir0, it0, ic0, q, data, ii, jj) == Cubic(YeNodes(g, ic0), fs, -g.ye.step, q.ye);
    assert YeFit(g, ir0, it0, ic0, q, data, 0, jj) == Cubic(YeNodes(g, ic0), us, -g.ye.step, q.ye);
  }

  /** The Ye samples at density plane ii are those at plane 0 moved by
      beta times the logrho step. */
  lemma SamplesOfShiftRho(g: Geometry, ir0: int, it0: int, ic0: int, data: seq<real>, f: (int, int) -> real,
                          beta: real, ii: int, jj: int)
    requires StencilData(g, ir0, it0, ic0, data)
    requires ShiftedInLogRho(g, data, f, beta)
    requires 0 <= ii < 4 && 0 <= jj < 4
    ensures forall k :: 0 <= k < 4 ==>
              YeSamples(g, ir0, it0, ic0, data, ii, jj)[k]
              == YeSamples(g, ir0, it0, ic0, data, 0, jj)[k] + (beta * LogRhoAt(g, ir0 + ii) - beta * LogRhoAt(g, ir0))
  {
    forall k | 0 <= k < 4
      ensures YeSamples(g, ir0, it0, ic0, data, ii, jj)[k]
           == YeSamples(g, ir0, it0, ic0, data, 0, jj)[k] + (beta * LogRhoAt(g, ir0 + ii) - beta * LogRhoAt(g, ir0))
    {
      assert InTable(g, ir0 + ii, it0 + jj, ic0 + k) && InTable(g, ir0, it0 + jj, ic0 + k);
    }
  }

  /** ... and so is the T collapse of density plane ii. */
  lemma TempFitOfShiftRho(g: Geometry, ir0: int, it0: int, ic0: int, q: Point, data: seq<real>, f: (int, int) -> real,
                          beta: real, ii: int)
    requires StencilData(g, ir0, it0, ic0, data)
    requires ShiftedInLogRho(g, data, f, beta)
    requires 0 <= ii < 4
    ensures TempFit(g, ir0, it0, ic0, q, data, ii)
         == Line(TempFit(g, ir0, it0, ic0, q, data, 0) - beta * LogRhoAt(g, ir0), beta, LogRhoAt(g, ir0 + ii))
  {
    var c := beta * LogRhoAt(g, ir0 + ii) - beta * LogRhoAt(g, ir0);
    var us := PlaneRow(g, ir0, it0, ic0, q, data, 0);
    var fs := PlaneRow(g, ir0, it0, ic0, q, data, ii);
    forall jj | 0 <= jj < 4
      ensures fs[jj] == us[jj] + c
    {
      YeFitOfShiftRho(g, ir0, it0, ic0, q, data, f, beta, ii, jj);
    }
    CubicShift(TempNodes(g, it0), us, fs, g.temp.step, q.logT, c);
    Regroup(TempFit(g, ir0, it0, ic0, q, data, ii), TempFit(g, ir0, it0, ic0, q, data, 0),
            beta * LogRhoAt(g, ir0 + ii), beta * LogRhoAt(g, ir0));
  }

  /** When the four T collapses lie on a line of slope beta in logrho,
      tricubic_drho returns beta. */
  lemma TricubicDRhoOfPlanes(g: Geometry, ir0: int, it0: int, ic0: int, q: Point, data: seq<real>, alpha: real, beta: real)
    requires StencilData(g, ir0, it0, ic0, data)
    requires forall ii :: 0 <= ii < 4 ==> TempFit(g, ir0, it0, ic0, q, data, ii) == Line(alpha, beta, LogRhoAt(g, ir0 + ii))
    ensures TricubicDRhoValue(g, ir0, it0, ic0, q, data) == beta
  {
    forall ii | 0 <= ii < 4
      ensures TempFits(g, ir0, it0, ic0, q, data)[ii] == Line(alpha, beta, RhoNodes(g, ir0)[ii])
    {
    }
    NodesEquallySpaced(g, ir0, it0, ic0);
    SlopeOfSamples(RhoNodes(g, ir0), TempFits(g, ir0, it0, ic0, q, data), g.rho.step, q.logrho, alpha, beta);
  }

  /** For data f(logT, Ye) + beta * logrho, tricubic_drho returns beta at
      every query. */
  lemma {:induction false} TricubicDRhoOfShift(g: Geometry, ir0: int, it0: int, ic0: int, q: Point, data: seq<real>, f: (int, int) -> real, beta: real)
    requires StencilData(g, ir0, it0, ic0, data)
    requires ShiftedInLogRho(g, data, f, beta)
    ensures TricubicDRhoValue(g, ir0, it0, ic0, q, data) == beta
  {
    var base := TempFit(g, ir0, it0, ic0, q, data, 0) - beta * LogRhoAt(g, ir0);
    forall ii | 0 <= ii < 4
      ensures TempFit(g, ir0, it0, ic0, q, data, ii) == Line(base, beta, LogRhoAt(g, ir0 + ii))
    {
      TempFitOfShiftRho(g, ir0, it0, ic0, q, data, f, beta, ii);
    }
    TricubicDRhoOfPlanes(g, ir0, it0, ic0, q, data, base, beta);
  }

  /** Constant data: tricubic returns the constant and both derivative
      variants return 0, for every query point. */
  lemma {:induction false} TricubicConstant(g: Geometry, ir0: int, it0: int, ic0: int, q: Point, data: seq<real>, v: real)
    requires StencilData(g, ir0, it0, ic0, data)
    requires forall j :: 0 <= j < |data| ==> data[j] == v
    ensures TricubicValue(g, ir0, it0, ic0, q, data) == v
    ensures TricubicDTValue(g, ir0, it0, ic0, q, data) == 0.0
    ensures TricubicDRhoValue(g, ir0, it0, ic0, q, data) == 0.0
  {
    assert LinearInLogT(g, data, v, 0.0);
    assert LinearInLogRho(g, data, v, 0.0);
    TricubicDTOfLine(g, ir0, it0, ic0, q, data, v, 0.0);
    TricubicDRhoOfLine(g, ir0, it0, ic0, q, data, v, 0.0);
    forall ii | 0 <= ii < 4
      ensures TempFits(g, ir0, it0, ic0, q, data)[ii] == v
    {
      TempFitOfLineRho(g, ir0, it0, ic0, q, data, v, 0.0, ii);
    }
    var fs := TempFits(g, ir0, it0, ic0, q, data);
    assert fs[0] == v && fs[1] == v && fs[2] == v && fs[3] == v;
    CubicOfConstant(RhoNodes(g, ir0), fs, g.rho.step, q.logrho);
  }
}
