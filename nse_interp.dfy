/** The lookup side of nse_tabular/nse_table.H: the three tricubic
    routines over their local arrays d1[4][4] and d2[4], and nse_interp /
    nse_interp_dT / nse_interp_drho, which clamp the query to the table,
    pick the cell (linear) or the 4-node stencil (cubic) and evaluate.
    std::log10 and std::log(10) are parameters of the model. */
module NseInterp {
  import opened Numerics
  import opened NseGrid
  import opened NseInterpolants
  import opened NseTable

  // ---------------------------------------------------------------------
  // tricubic, tricubic_dT, tricubic_drho

  /** The 16 Ye interpolations shared by the three tricubic routines:
      d1[ii][jj] is the Ye cubic at density ir0+ii, temperature it0+jj. */
  method CollapseYe(g: Geometry, ir0: int, it0: int, ic0: int, q: Point, data: seq<real>)
    returns (d1: array2<real>)
    requires StencilData(g, ir0, it0, ic0, data)
    ensures fresh(d1) && d1.Length0 == 4 && d1.Length1 == 4
    ensures forall ii, jj :: 0 <= ii < 4 && 0 <= jj < 4 ==> d1[ii, jj] == YeFit(g, ir0, it0, ic0, q, data, ii, jj)
  {
    var yes := YeNodes(g, ic0);
    d1 := new real[4, 4];
    for ii := 0 to 4
      invariant forall a, b :: 0 <= a < ii && 0 <= b < 4 ==> d1[a, b] == YeFit(g, ir0, it0, ic0, q, data, a, b)
    {
      for jj := 0 to 4
        invariant forall a, b :: 0 <= a < ii && 0 <= b < 4 ==> d1[a, b] == YeFit(g, ir0, it0, ic0, q, data, a, b)
        invariant forall b :: 0 <= b < jj ==> d1[ii, b] == YeFit(g, ir0, it0, ic0, q, data, ii, b)
      {
        var d := [At(g, data, ir0 + ii, it0 + jj, ic0), At(g, data, ir0 + ii, it0 + jj, ic0 + 1),
                  At(g, data, ir0 + ii, it0 + jj, ic0 + 2), At(g, data, ir0 + ii, it0 + jj, ic0 + 3)];
        SameFour(d, YeSamples(g, ir0, it0, ic0, data, ii, jj));
        d1[ii, jj] := Cubic(yes, d, -g.ye.step, q.ye);
      }
    }
  }

  /** The d2 loop of tricubic and tricubic_drho: the T cubic through each
      density plane d1[ii][0..3]. */
  method TempPass(g: Geometry, ir0: int, it0: int, ic0: int, q: Point, data: seq<real>, d1: array2<real>)
    returns (d2: array<real>)
    requires StencilData(g, ir0, it0, ic0, data)
    requires d1.Length0 == 4 && d1.Length1 == 4
    requires forall ii, jj :: 0 <= ii < 4 && 0 <= jj < 4 ==> d1[ii, jj] == YeFit(g, ir0, it0, ic0, q, data, ii, jj)
    ensures fresh(d2) && d2.Length == 4
    ensures forall ii :: 0 <= ii < 4 ==> d2[ii] == TempFit(g, ir0, it0, ic0, q, data, ii)
  {
    d2 := new real[4];
    for ii := 0 to 4
      modifies d2
      invariant forall a :: 0 <= a < ii ==> d2[a] == TempFit(g, ir0, it0, ic0, q, data, a)
    {
      var v := RowFit(g, ir0, it0, ic0, q, data, d1, ii);
      d2[ii] := v;
    }
  }

  /** One step of that loop: the T cubic through row ii of d1. */
  method RowFit(g: Geometry, ir0: int, it0: int, ic0: int, q: Point, data: seq<real>, d1: array2<real>, ii: int)
    returns (v: real)
    requires StencilData(g, ir0, it0, ic0, data) && 0 <= ii < 4
    requires d1.Length0 == 4 && d1.Length1 == 4
    requires forall jj :: 0 <= jj < 4 ==> d1[ii, jj] == YeFit(g, ir0, it0, ic0, q, data, ii, jj)
    ensures v == TempFit(g, ir0, it0, ic0, q, data, ii)
  {
    var d := [d1[ii, 0], d1[ii, 1], d1[ii, 2], d1[ii, 3]];
    TempFitOfRow(g, ir0, it0, ic0, q, data, ii, d);
    v := Cubic(TempNodes(g, it0), d, g.temp.step, q.logT);
  }

  /** The d2 loop of tricubic_dT: the rho cubic through each temperature
      plane d1[0..3][jj]. */
  method RhoPass(g: Geometry, ir0: int, it0: int, ic0: int, q: Point, data: seq<real>, d1: array2<real>)
    returns (d2: array<real>)
    requires StencilData(g, ir0, it0, ic0, data)
    requires d1.Length0 == 4 && d1.Length1 == 4
    requires forall ii, jj :: 0 <= ii < 4 && 0 <= jj < 4 ==> d1[ii, jj] == YeFit(g, ir0, it0, ic0, q, data, ii, jj)
    ensures fresh(d2) && d2.Length == 4
    ensures forall jj :: 0 <= jj < 4 ==> d2[jj] == RhoFit(g, ir0, it0, ic0, q, data, jj)
  {
    d2 := new real[4];
    for jj := 0 to 4
      modifies d2
      invariant forall b :: 0 <= b < jj ==> d2[b] == RhoFit(g, ir0, it0, ic0, q, data, b)
    {
      var v := ColumnFit(g, ir0, it0, ic0, q, data, d1, jj);
      d2[jj] := v;
    }
  }

  /** One step of that loop: the rho cubic through column jj of d1. */
  method ColumnFit(g: Geometry, ir0: int, it0: int, ic0: int, q: Point, data: seq<real>, d1: array2<real>, jj: int)
    returns (v: real)
    requires StencilData(g, ir0, it0, ic0, data) && 0 <= jj < 4
    requires d1.Length0 == 4 && d1.Length1 == 4
    requires forall ii :: 0 <= ii < 4 ==> d1[ii, jj] == YeFit(g, ir0, it0, ic0, q, data, ii, jj)
    ensures v == RhoFit(g, ir0, it0, ic0, q, data, jj)
  {
    var d := [d1[0, jj], d1[1, jj], d1[2, jj], d1[3, jj]];
    RhoFitOfColumn(g, ir0, it0, ic0, q, data, jj, d);
    v := Cubic(RhoNodes(g, ir0), d, g.rho.step, q.logrho);
  }

  /** tricubic: the T cubics of each density plane into d2, then the rho
      cubic through d2. */
  method Tricubic(g: Geometry, ir0: int, it0: int, ic0: int, q: Point, data: seq<real>) returns (val: real)
    requires StencilData(g, ir0, it0, ic0, data)
    ensures val == TricubicValue(g, ir0, it0, ic0, q, data)
  {
    var d1 := CollapseYe(g, ir0, it0, ic0, q, data);
    var d2 := TempPass(g, ir0, it0, ic0, q, data, d1);
    OfTempFits(g, ir0, it0, ic0, q, data, d2[..]);
    val := Cubic(RhoNodes(g, ir0), d2[..], g.rho.step, q.logrho);
  }

  /** tricubic_dT: the rho cubics of each temperature plane into d2, then
      the derivative of the T cubic through d2. */
  method TricubicDT(g: Geometry, ir0: int, it0: int, ic0: int, q: Point, data: seq<real>) returns (val: real)
    requires StencilData(g, ir0, it0, ic0, data)
    ensures val == TricubicDTValue(g, ir0, it0, ic0, q, data)
  {
    var d1 := CollapseYe(g, ir0, it0, ic0, q, data);
    var d2 := RhoPass(g, ir0, it0, ic0, q, data, d1);
    OfRhoFits(g, ir0, it0, ic0, q, data, d2[..]);
    val := CubicDeriv(TempNodes(g, it0), d2[..], g.temp.step, q.logT);
  }

  /** tricubic_drho: the T cubics of each density plane into d2, then the
      derivative of the rho cubic through d2. */
  method TricubicDRho(g: Geometry, ir0: int, it0: int, ic0: int, q: Point, data: seq<real>) returns (val: real)
    requires StencilData(g, ir0, it0, ic0, data)
    ensures val == TricubicDRhoValue(g, ir0, it0, ic0, q, data)
  {
    var d1 := CollapseYe(g, ir0, it0, ic0, q, data);
    var d2 := TempPass(g, ir0, it0, ic0, q, data, d1);
    OfTempFits(g, ir0, it0, ic0, q, data, d2[..]);
    val := CubicDeriv(RhoNodes(g, ir0), d2[..], g.rho.step, q.logrho);
  }

  // ---------------------------------------------------------------------
  // The query point, the cell and the stencil

  /** The query lies inside the table's coordinate box. */
  predicate InRange(g: Geometry, q: Point)
  {
    g.rho.lo <= q.logrho <= g.rho.hi && g.temp.lo <= q.logT <= g.temp.hi && g.ye.lo <= q.ye <= g.ye.hi
  }

  /** The clamped query of nse_interp and its derivative variants, from
      log10 rho, log10 T and Ye. */
  function ClampQuery(g: Geometry, logrho: real, logT: real, ye: real): (q: Point)
    requires GeometryOk(g)
    ensures InRange(g, q)
    ensures InRange(g, Point(logrho, logT, ye)) ==> q == Point(logrho, logT, ye)
    ensures logrho < g.rho.lo ==> q.logrho == g.rho.lo
    ensures g.rho.hi < logrho ==> q.logrho == g.rho.hi
    ensures logT < g.temp.lo ==> q.logT == g.temp.lo
    ensures g.temp.hi < logT ==> q.logT == g.temp.hi
    ensures ye < g.ye.lo ==> q.ye == g.ye.lo
    ensures g.ye.hi < ye ==> q.ye == g.ye.hi
  {
    AxisSpan(g.rho);
    AxisSpan(g.temp);
    AxisSpan(g.ye);
    Point(ClampReal(logrho, g.rho.lo, g.rho.hi), ClampReal(logT, g.temp.lo, g.temp.hi),
          ClampReal(ye, g.ye.lo, g.ye.hi))
  }

  /** Clamping a query that is already in the box changes nothing. */
  lemma ClampIdempotent(g: Geometry, logrho: real, logT: real, ye: real)
    requires GeometryOk(g)
    ensures var q := ClampQuery(g, logrho, logT, ye);
            ClampQuery(g, q.logrho, q.logT, q.ye) == q
  {
  }

  /** Enough nodes along every axis for a cell (linear) or for a 4-node
      stencil (cubic). */
  predicate LinearSizes(g: Geometry)
  {
    g.rho.n >= 2 && g.temp.n >= 2 && g.ye.n >= 2
  }

  predicate CubicSizes(g: Geometry)
  {
    g.rho.n >= 4 && g.temp.n >= 4 && g.ye.n >= 4
  }

  predicate SizesFor(g: Geometry, linear: bool)
  {
    if linear then LinearSizes(g) else CubicSizes(g)
  }

  /** The lower corner (ir1, it1, ic1) of the cell nse_interp's linear
      branch uses. */
  function Cell(g: Geometry, q: Point): (c: (int, int, int))
    requires GeometryOk(g) && LinearSizes(g) && InRange(g, q)
    ensures CellOk(g, c.0, c.1, c.2)
    ensures LogRhoAt(g, c.0) <= q.logrho && LogTAt(g, c.1) <= q.logT && q.ye <= YeAt(g, c.2)
  {
    RhoIndexInCell(g, q.logrho);
    TempIndexInCell(g, q.logT);
    YeIndexInCell(g, q.ye);
    (LogRhoIndex(g, q.logrho), LogTIndex(g, q.logT), YeIndex(g, q.ye))
  }

  /** The first node (ir0, it0, ic0) of the stencil of the cubic branch
      and of the derivative routines. */
  function Stencil(g: Geometry, q: Point): (s: (int, int, int))
    requires GeometryOk(g) && CubicSizes(g)
    ensures StencilOk(g, s.0, s.1, s.2)
  {
    (StencilStart(LogRhoIndex(g, q.logrho), g.rho.n),
     StencilStart(LogTIndex(g, q.logT), g.temp.n),
     StencilStart(YeIndex(g, q.ye), g.ye.n))
  }

  /** The value nse_interp stores for one table array at a clamped query. */
  function InterpValue(g: Geometry, linear: bool, q: Point, data: seq<real>): real
    requires GeometryOk(g) && SizesFor(g, linear) && InRange(g, q) && Fits(g, data)
  {
    if linear then
      var c := Cell(g, q);
      Trilinear(g, c.0, c.1, c.2, q, data)
    else
      var s := Stencil(g, q);
      TricubicValue(g, s.0, s.1, s.2, q, data)
  }

  /** d(data)/d(log10 T) and d(data)/d(log10 rho) of the cubic interpolant
      at a clamped query. */
  function InterpDTValue(g: Geometry, q: Point, data: seq<real>): real
    requires GeometryOk(g) && CubicSizes(g) && Fits(g, data)
  {
    var s := Stencil(g, q);
    TricubicDTValue(g, s.0, s.1, s.2, q, data)
  }

  function InterpDRhoValue(g: Geometry, q: Point, data: seq<real>): real
    requires GeometryOk(g) && CubicSizes(g) && Fits(g, data)
  {
    var s := Stencil(g, q);
    TricubicDRhoValue(g, s.0, s.1, s.2, q, data)
  }

  // ---------------------------------------------------------------------
  // Properties of the interpolated values

  /** A node coordinate is located as its own index along each axis. */
  lemma NodeLocated(g: Geometry, ir: int, it: int, ic: int)
    requires GeometryOk(g)
    ensures LogRhoIndex(g, LogRhoAt(g, ir)) == Locate((ir - 1) as real)
    ensures LogTIndex(g, LogTAt(g, it)) == Locate((it - 1) as real)
    ensures YeIndex(g, YeAt(g, ic)) == Locate((ic - 1) as real)
  {
    assert (LogRhoAt(g, ir) - g.rho.lo) / g.rho.step == (ir - 1) as real;
    assert (LogTAt(g, it) - g.temp.lo) / g.temp.step == (it - 1) as real;
    assert (g.ye.hi - YeAt(g, ic)) / g.ye.step == (ic - 1) as real;
  }

  /** Every grid node is inside the table's coordinate box. */
  lemma NodeInRange(g: Geometry, ir: int, it: int, ic: int)
    requires GeometryOk(g) && InTable(g, ir, it, ic)
    ensures InRange(g, Point(LogRhoAt(g, ir), LogTAt(g, it), YeAt(g, ic)))
  {
    AxisEnds(g);
    if ir > 1 { AxesMonotone(g, 1, ir); }
    if ir < g.rho.n { AxesMonotone(g, ir, g.rho.n); }
    if it > 1 { AxesMonotone(g, 1, it); }
    if it < g.temp.n { AxesMonotone(g, it, g.temp.n); }
    if ic > 1 { AxesMonotone(g, 1, ic); }
    if ic < g.ye.n { AxesMonotone(g, ic, g.ye.n); }
  }

  /** Along one axis, a node's located cell (linear) has the node as its
      lower or upper corner. */
  lemma CellCorner(k: int, n: int)
    requires 1 <= k <= n && n >= 2
    ensures 0 <= k - Locate((k - 1) as real) <= 1
  {
    LocateAtNode(k);
  }

  /** Queried exactly at a grid node, nse_interp returns the stored value
      there, in both the linear and the cubic mode. */
  lemma InterpAtNode(g: Geometry, linear: bool, data: seq<real>, ir: int, it: int, ic: int)
    requires GeometryOk(g) && SizesFor(g, linear) && Fits(g, data) && InTable(g, ir, it, ic)
    ensures InRange(g, Point(LogRhoAt(g, ir), LogTAt(g, it), YeAt(g, ic)))
    ensures InterpValue(g, linear, Point(LogRhoAt(g, ir), LogTAt(g, it), YeAt(g, ic)), data) == At(g, data, ir, it, ic)
  {
    NodeInRange(g, ir, it, ic);
    if linear {
      LinearAtNode(g, data, ir, it, ic);
    } else {
      CubicAtNode(g, data, ir, it, ic);
    }
  }

  /** The two halves of InterpAtNode: the cell located for a node has the
      node as a corner, and the stencil located for a node covers it. */
  lemma LinearAtNode(g: Geometry, data: seq<real>, ir: int, it: int, ic: int)
    requires GeometryOk(g) && LinearSizes(g) && Fits(g, data) && InTable(g, ir, it, ic)
    requires InRange(g, Point(LogRhoAt(g, ir), LogTAt(g, it), YeAt(g, ic)))
    ensures var c := Cell(g, Point(LogRhoAt(g, ir), LogTAt(g, it), YeAt(g, ic)));
            Trilinear(g, c.0, c.1, c.2, Point(LogRhoAt(g, ir), LogTAt(g, it), YeAt(g, ic)), data) == At(g, data, ir, it, ic)
  {
    var q := Point(LogRhoAt(g, ir), LogTAt(g, it), YeAt(g, ic));
    NodeLocated(g, ir, it, ic);
    var c := Cell(g, q);
    CellCorner(ir, g.rho.n);
    CellCorner(it, g.temp.n);
    CellCorner(ic, g.ye.n);
    var a, b, e := ir - c.0, it - c.1, ic - c.2;
    assert c.0 + a == ir && c.1 + b == it && c.2 + e == ic;
    TrilinearAtCorner(g, c.0, c.1, c.2, a, b, e, data);
  }

  lemma CubicAtNode(g: Geometry, data: seq<real>, ir: int, it: int, ic: int)
    requires GeometryOk(g) && CubicSizes(g) && Fits(g, data) && InTable(g, ir, it, ic)
    ensures var s := Stencil(g, Point(LogRhoAt(g, ir), LogTAt(g, it), YeAt(g, ic)));
            TricubicValue(g, s.0, s.1, s.2, Point(LogRhoAt(g, ir), LogTAt(g, it), YeAt(g, ic)), data) == At(g, data, ir, it, ic)
  {
    var q := Point(LogRhoAt(g, ir), LogTAt(g, it), YeAt(g, ic));
    NodeLocated(g, ir, it, ic);
    var s := Stencil(g, q);
    StencilCoversNode(ir, g.rho.n);
    StencilCoversNode(it, g.temp.n);
    StencilCoversNode(ic, g.ye.n);
    TricubicAtNode(g, s.0, s.1, s.2, ir, it, ic, data);
  }

  /** A table holding one constant everywhere interpolates to that
      constant at every query, in both modes, and both cubic derivatives
      vanish. */
  lemma {:induction false} InterpConstant(g: Geometry, linear: bool, q: Point, data: seq<real>, v: real)
    requires GeometryOk(g) && SizesFor(g, linear) && InRange(g, q) && Fits(g, data)
    requires forall j :: 0 <= j < |data| ==> data[j] == v
    ensures InterpValue(g, linear, q, data) == v
    ensures !linear ==> InterpDTValue(g, q, data) == 0.0 && InterpDRhoValue(g, q, data) == 0.0
  {
    if linear {
      var c := Cell(g, q);
      TrilinearConstant(g, c.0, c.1, c.2, q, data, v);
    } else {
      var s := Stencil(g, q);
      TricubicConstant(g, s.0, s.1, s.2, q, data, v);
    }
  }

  /** Data that is a straight line in log10 T has the line's slope as its
      log10 T derivative; likewise for log10 rho. */
  lemma InterpDTOfLine(g: Geometry, q: Point, data: seq<real>, alpha: real, beta: real)
    requires GeometryOk(g) && CubicSizes(g) && Fits(g, data)
    requires LinearInLogT(g, data, alpha, beta)
    ensures InterpDTValue(g, q, data) == beta
  {
    var s := Stencil(g, q);
    TricubicDTOfLine(g, s.0, s.1, s.2, q, data, alpha, beta);
  }

  lemma InterpDRhoOfLine(g: Geometry, q: Point, data: seq<real>, alpha: real, beta: real)
    requires GeometryOk(g) && CubicSizes(g) && Fits(g, data)
    requires LinearInLogRho(g, data, alpha, beta)
    ensures InterpDRhoValue(g, q, data) == beta
  {
    var s := Stencil(g, q);
    TricubicDRhoOfLine(g, s.0, s.1, s.2, q, data, alpha, beta);
  }

  /** For data f(logrho, Ye) + beta * log10 T the log10 T derivative is
      beta at every query, whatever f is; likewise for log10 rho. */
  lemma InterpDTOfShift(g: Geometry, q: Point, data: seq<real>, f: (int, int) -> real, beta: real)
    requires GeometryOk(g) && CubicSizes(g) && Fits(g, data)
    requires ShiftedInLogT(g, data, f, beta)
    ensures InterpDTValue(g, q, data) == beta
  {
    var s := Stencil(g, q);
    TricubicDTOfShift(g, s.0, s.1, s.2, q, data, f, beta);
  }

  lemma InterpDRhoOfShift(g: Geometry, q: Point, data: seq<real>, f: (int, int) -> real, beta: real)
    requires GeometryOk(g) && CubicSizes(g) && Fits(g, data)
    requires ShiftedInLogRho(g, data, f, beta)
    ensures InterpDRhoValue(g, q, data) == beta
  {
    var s := Stencil(g, q);
    TricubicDRhoOfShift(g, s.0, s.1, s.2, q, data, f, beta);
  }

  // ---------------------------------------------------------------------
  // nse_interp

  /** The nse_table_t record nse_interp reads (rho, T, Ye) and fills in
      (abar, bea, dyedt, dbeadt, e_nu and the mass fractions X).  The
      dabardt field is carried but never written by nse_interp.  The
      record is passed by reference in the source; here nse_interp
      returns the updated record. */
  datatype NseState = NseState(rho: real, T: real, Ye: real,
                               abar: real, bea: real, dyedt: real, dabardt: real, dbeadt: real, eNu: real,
                               X: seq<real>)

  /** One table lookup at the clamped query, trilinear or tricubic. */
  method Lookup(g: Geometry, linear: bool, q: Point, data: seq<real>) returns (v: real)
    requires GeometryOk(g) && SizesFor(g, linear) && InRange(g, q) && Fits(g, data)
    ensures v == InterpValue(g, linear, q, data)
  {
    if linear {
      var ir1 := LogRhoIndex(g, q.logrho);
      var it1 := LogTIndex(g, q.logT);
      var ic1 := YeIndex(g, q.ye);
      assert (ir1, it1, ic1) == Cell(g, q);
      v := Trilinear(g, ir1, it1, ic1, q, data);
    } else {
      var ir0 := LogRhoIndex(g, q.logrho) - 1;
      ir0 := ClampInt(ir0, 1, g.rho.n - 3);
      var it0 := LogTIndex(g, q.logT) - 1;
      it0 := ClampInt(it0, 1, g.temp.n - 3);
      var ic0 := YeIndex(g, q.ye) - 1;
      ic0 := ClampInt(ic0, 1, g.ye.n - 3);
      assert (ir0, it0, ic0) == Stencil(g, q);
      v := Tricubic(g, ir0, it0, ic0, q, data);
    }
  }

  /** The mass-fraction loop of nse_interp: X[n] becomes the
      interpolated fraction of species n clamped to [0, 1]. */
  method FillMassFractions(g: Geometry, linear: bool, q: Point, fracs: seq<seq<real>>, X0: seq<real>)
    returns (X: seq<real>)
    requires GeometryOk(g) && SizesFor(g, linear) && InRange(g, q)
    requires |fracs| == |X0| && forall n :: 0 <= n < |fracs| ==> Fits(g, fracs[n])
    ensures |X| == |X0|
    ensures forall n :: 0 <= n < |X| ==> X[n] == ClampReal(InterpValue(g, linear, q, fracs[n]), 0.0, 1.0)
  {
    ghost var want := seq(|fracs|, k requires 0 <= k < |fracs| => ClampReal(InterpValue(g, linear, q, fracs[k]), 0.0, 1.0));
    X := X0;
    for n := 1 to |X0| + 1
      invariant |X| == |X0|
      invariant X[..n - 1] == want[..n - 1]
    {
      var x := ClampedLookup(g, linear, q, fracs[n - 1]);
      X := X[n - 1 := x];
      assert X[..n] == want[..n - 1] + [want[n - 1]];
    }
    assert X == X[..|X0|];
  }

  /** One step of that loop: the lookup clamped to [0, 1]. */
  method ClampedLookup(g: Geometry, linear: bool, q: Point, data: seq<real>) returns (x: real)
    requires GeometryOk(g) && SizesFor(g, linear) && InRange(g, q) && Fits(g, data)
    ensures x == ClampReal(InterpValue(g, linear, q, data), 0.0, 1.0)
  {
    var v := Lookup(g, linear, q, data);
    x := ClampReal(v, 0.0, 1.0);
  }

  /** The five thermodynamic fields of `s` hold the interpolants at q. */
  predicate Stored(g: Geometry, tab: Tables, linear: bool, q: Point, s: NseState)
    requires GeometryOk(g) && SizesFor(g, linear) && InRange(g, q) && TablesOk(g, tab, |tab.massfrac|)
  {
    s.abar == InterpValue(g, linear, q, tab.abar) &&
    s.bea == InterpValue(g, linear, q, tab.bea) &&
    s.dyedt == InterpValue(g, linear, q, tab.dyedt) &&
    s.dbeadt == InterpValue(g, linear, q, tab.dbeadt) &&
    s.eNu == InterpValue(g, linear, q, tab.enu)
  }

  /** nse_interp: clamp (log10 rho, log10 T, Ye) to the table, then store
      the interpolated abar, bea, dyedt, dbeadt and e_nu and, unless
      skipXFill, every mass fraction clamped to [0, 1].  `log10` stands
      for std::log10.  rho, T, Ye and dabardt come back unchanged. */
  method NseInterpolate(g: Geometry, tab: Tables, linear: bool, log10: real -> real,
                        state: NseState, skipXFill: bool) returns (r: NseState)
    requires GeometryOk(g) && SizesFor(g, linear) && TablesOk(g, tab, |state.X|)
    ensures r.rho == state.rho && r.T == state.T && r.Ye == state.Ye && r.dabardt == state.dabardt
    ensures Stored(g, tab, linear, ClampQuery(g, log10(state.rho), log10(state.T), state.Ye), r)
    ensures skipXFill ==> r.X == state.X
    ensures !skipXFill ==> |r.X| == |state.X| && forall n :: 0 <= n < |r.X| ==>
              r.X[n] == ClampReal(InterpValue(g, linear, ClampQuery(g, log10(state.rho), log10(state.T), state.Ye),
                                              tab.massfrac[n]), 0.0, 1.0)
  {
    AxisSpan(g.rho);
    AxisSpan(g.temp);
    AxisSpan(g.ye);
    var rholog := log10(state.rho);
    rholog := ClampReal(rholog, g.rho.lo, g.rho.hi);
    var tlog := log10(state.T);
    tlog := ClampReal(tlog, g.temp.lo, g.temp.hi);
    var yet := state.Ye;
    yet := ClampReal(yet, g.ye.lo, g.ye.hi);
    var q := Point(rholog, tlog, yet);
    assert q == ClampQuery(g, log10(state.rho), log10(state.T), state.Ye);

    var abar, bea, dyedt, dbeadt, eNu := InterpolateThermo(g, tab, linear, q);
    r := state.(abar := abar, bea := bea, dyedt := dyedt, dbeadt := dbeadt, eNu := eNu);
    if !skipXFill {
      var X := FillMassFractions(g, linear, q, tab.massfrac, state.X);
      r := r.(X := X);
    }
  }

  /** Locate the cell (linear) or the stencil (cubic) once, as nse_interp
      does, and interpolate abar, bea, dyedt, dbeadt and e_nu there. */
  method InterpolateThermo(g: Geometry, tab: Tables, linear: bool, q: Point)
    returns (abar: real, bea: real, dyedt: real, dbeadt: real, eNu: real)
    requires GeometryOk(g) && SizesFor(g, linear) && InRange(g, q) && TablesOk(g, tab, |tab.massfrac|)
    ensures abar == InterpValue(g, linear, q, tab.abar) && bea == InterpValue(g, linear, q, tab.bea)
    ensures dyedt == InterpValue(g, linear, q, tab.dyedt) && dbeadt == InterpValue(g, linear, q, tab.dbeadt)
    ensures eNu == InterpValue(g, linear, q, tab.enu)
  {
    if linear {
      var ir1 := LogRhoIndex(g, q.logrho);
      var it1 := LogTIndex(g, q.logT);
      var ic1 := YeIndex(g, q.ye);
      assert (ir1, it1, ic1) == Cell(g, q);
      abar := Trilinear(g, ir1, it1, ic1, q, tab.abar);
      bea := Trilinear(g, ir1, it1, ic1, q, tab.bea);
      dyedt := Trilinear(g, ir1, it1, ic1, q, tab.dyedt);
      dbeadt := Trilinear(g, ir1, it1, ic1, q, tab.dbeadt);
      eNu := Trilinear(g, ir1, it1, ic1, q, tab.enu);
    } else {
      var ir0 := LogRhoIndex(g, q.logrho) - 1;
      ir0 := ClampInt(ir0, 1, g.rho.n - 3);
      var it0 := LogTIndex(g, q.logT) - 1;
      it0 := ClampInt(it0, 1, g.temp.n - 3);
      var ic0 := YeIndex(g, q.ye) - 1;
      ic0 := ClampInt(ic0, 1, g.ye.n - 3);
      assert (ir0, it0, ic0) == Stencil(g, q);
      abar := Tricubic(g, ir0, it0, ic0, q, tab.abar);
      bea := Tricubic(g, ir0, it0, ic0, q, tab.bea);
      dyedt := Tricubic(g, ir0, it0, ic0, q, tab.dyedt);
      dbeadt := Tricubic(g, ir0, it0, ic0, q, tab.dbeadt);
      eNu := Tricubic(g, ir0, it0, ic0, q, tab.enu);
    }
  }

  // ---------------------------------------------------------------------
  // nse_interp_dT and nse_interp_drho

  /** d/dT of a table quantity as nse_interp_dT computes it: the log10 T
      derivative of the cubic interpolant at the clamped query, divided
      by ln(10) T.  `ln10` stands for std::log(10.0). */
  function DerivT(g: Geometry, log10: real -> real, ln10: real,
                  temp: real, rho: real, ye: real, data: seq<real>): real
    requires GeometryOk(g) && CubicSizes(g) && Fits(g, data)
    requires ln10 > 0.0 && temp > 0.0
  {
    ProductPositive(ln10, temp);
    InterpDTValue(g, ClampQuery(g, log10(rho), log10(temp), ye), data) / (ln10 * temp)
  }

  /** d/drho as nse_interp_drho computes it: the log10 rho derivative
      divided by ln(10) rho. */
  function DerivRho(g: Geometry, log10: real -> real, ln10: real,
                    temp: real, rho: real, ye: real, data: seq<real>): real
    requires GeometryOk(g) && CubicSizes(g) && Fits(g, data)
    requires ln10 > 0.0 && rho > 0.0
  {
    ProductPositive(ln10, rho);
    InterpDRhoValue(g, ClampQuery(g, log10(rho), log10(temp), ye), data) / (ln10 * rho)
  }

  /** nse_interp_dT: clamp the query, locate the stencil, differentiate
      the tricubic along log10 T and convert to d/dT. */
  method NseInterpDT(g: Geometry, log10: real -> real, ln10: real,
                     temp: real, rho: real, ye: real, data: seq<real>) returns (r: real)
    requires GeometryOk(g) && CubicSizes(g) && Fits(g, data)
    requires ln10 > 0.0 && temp > 0.0
    ensures r == DerivT(g, log10, ln10, temp, rho, ye, data)
  {
    AxisSpan(g.rho);
    AxisSpan(g.temp);
    AxisSpan(g.ye);
    var rholog := ClampReal(log10(rho), g.rho.lo, g.rho.hi);
    var tlog := ClampReal(log10(temp), g.temp.lo, g.temp.hi);
    var yet := ClampReal(ye, g.ye.lo, g.ye.hi);
    var q := Point(rholog, tlog, yet);
    var ir0 := ClampInt(LogRhoIndex(g, rholog) - 1, 1, g.rho.n - 3);
    var it0 := ClampInt(LogTIndex(g, tlog) - 1, 1, g.temp.n - 3);
    var ic0 := ClampInt(YeIndex(g, yet) - 1, 1, g.ye.n - 3);
    assert (ir0, it0, ic0) == Stencil(g, q);
    var d := TricubicDT(g, ir0, it0, ic0, q, data);
    ProductPositive(ln10, temp);
    r := d / (ln10 * temp);
  }

  /** nse_interp_drho: the same along log10 rho, converted to d/drho. */
  method NseInterpDRho(g: Geometry, log10: real -> real, ln10: real,
                       temp: real, rho: real, ye: real, data: seq<real>) returns (r: real)
    requires GeometryOk(g) && CubicSizes(g) && Fits(g, data)
    requires ln10 > 0.0 && rho > 0.0
    ensures r == DerivRho(g, log10, ln10, temp, rho, ye, data)
  {
    AxisSpan(g.rho);
    AxisSpan(g.temp);
    AxisSpan(g.ye);
    var rholog := ClampReal(log10(rho), g.rho.lo, g.rho.hi);
    var tlog := ClampReal(log10(temp), g.temp.lo, g.temp.hi);
    var yet := ClampReal(ye, g.ye.lo, g.ye.hi);
    var q := Point(rholog, tlog, yet);
    var ir0 := ClampInt(LogRhoIndex(g, rholog) - 1, 1, g.rho.n - 3);
    var it0 := ClampInt(LogTIndex(g, tlog) - 1, 1, g.temp.n - 3);
    var ic0 := ClampInt(YeIndex(g, yet) - 1, 1, g.ye.n - 3);
    assert (ir0, it0, ic0) == Stencil(g, q);
    var d := TricubicDRho(g, ir0, it0, ic0, q, data);
    ProductPositive(ln10, rho);
    r := d / (ln10 * rho);
  }

  /** The chain rule the conversion implements: for data that is the
      line alpha + beta log10 T, nse_interp_dT gives beta / (ln(10) T),
      the exact d/dT of that line; it is zero on constant data. */
  lemma DerivTOfLine(g: Geometry, log10: real -> real, ln10: real, temp: real, rho: real, ye: real,
                     data: seq<real>, alpha: real, beta: real)
    requires GeometryOk(g) && CubicSizes(g) && Fits(g, data)
    requires ln10 > 0.0 && temp > 0.0
    requires LinearInLogT(g, data, alpha, beta)
    ensures DerivT(g, log10, ln10, temp, rho, ye, data) == beta / (ln10 * temp)
  {
    InterpDTOfLine(g, ClampQuery(g, log10(rho), log10(temp), ye), data, alpha, beta);
  }

  lemma DerivRhoOfLine(g: Geometry, log10: real -> real, ln10: real, temp: real, rho: real, ye: real,
                       data: seq<real>, alpha: real, beta: real)
    requires GeometryOk(g) && CubicSizes(g) && Fits(g, data)
    requires ln10 > 0.0 && rho > 0.0
    requires LinearInLogRho(g, data, alpha, beta)
    ensures DerivRho(g, log10, ln10, temp, rho, ye, data) == beta / (ln10 * rho)
  {
    InterpDRhoOfLine(g, ClampQuery(g, log10(rho), log10(temp), ye), data, alpha, beta);
  }

  /** nse_interp_dT of data f(logrho, Ye) + beta log10 T is beta / (ln(10) T)
      whatever f is: the temperature derivative does not see the other
      axes.  Likewise nse_interp_drho of f(logT, Ye) + beta log10 rho. */
  lemma DerivTOfShift(g: Geometry, log10: real -> real, ln10: real, temp: real, rho: real, ye: real,
                      data: seq<real>, f: (int, int) -> real, beta: real)
    requires GeometryOk(g) && CubicSizes(g) && Fits(g, data)
    requires ln10 > 0.0 && temp > 0.0
    requires ShiftedInLogT(g, data, f, beta)
    ensures DerivT(g, log10, ln10, temp, rho, ye, data) == beta / (ln10 * temp)
  {
    InterpDTOfShift(g, ClampQuery(g, log10(rho), log10(temp), ye), data, f, beta);
  }

  lemma DerivRhoOfShift(g: Geometry, log10: real -> real, ln10: real, temp: real, rho: real, ye: real,
                        data: seq<real>, f: (int, int) -> real, beta: real)
    requires GeometryOk(g) && CubicSizes(g) && Fits(g, data)
    requires ln10 > 0.0 && rho > 0.0
    requires ShiftedInLogRho(g, data, f, beta)
    ensures DerivRho(g, log10, ln10, temp, rho, ye, data) == beta / (ln10 * rho)
  {
    InterpDRhoOfShift(g, ClampQuery(g, log10(rho), log10(temp), ye), data, f, beta);
  }
}
