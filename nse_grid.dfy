/** Geometry of the NSE table (nse_tabular/nse_table.H): the 1-based
    (density, temperature, Ye) index triple, its flattening to a table
    offset, the grid coordinates of each index and the truncation-based
    cell locators with the stencil clamp used by the cubic interpolant. */
module NseGrid {
  import opened Numerics

  /** One axis of the table: `n` equally spaced nodes from `lo` to `hi`. */
  datatype Axis = Axis(n: int, lo: real, hi: real, step: real)

  /** The compile-time table description (nse_table_size): log10 density
      rows, log10 temperature rows and Ye columns.  The Ye axis is stored
      from `hi` downwards. */
  datatype Geometry = Geometry(rho: Axis, temp: Axis, ye: Axis)

  /** Node spacing is positive and the extreme nodes are `lo` and `hi`. */
  predicate AxisOk(a: Axis)
  {
    a.n >= 1 && a.step > 0.0 && a.hi == a.lo + (a.n - 1) as real * a.step
  }

  predicate GeometryOk(g: Geometry)
  {
    AxisOk(g.rho) && AxisOk(g.temp) && AxisOk(g.ye)
  }

  /** Number of grid points, the length of every table array. */
  function Size(g: Geometry): int
  {
    g.rho.n * g.temp.n * g.ye.n
  }

  /** A well-formed table has at least one grid point. */
  lemma SizePositive(g: Geometry)
    requires GeometryOk(g)
    ensures Size(g) >= 1
  {
    MulMono(1, g.rho.n, g.temp.n);
    MulMono(1, g.rho.n * g.temp.n, g.ye.n);
  }

  predicate InTable(g: Geometry, ir: int, it: int, ic: int)
  {
    1 <= ir <= g.rho.n && 1 <= it <= g.temp.n && 1 <= ic <= g.ye.n
  }

  /** nse_idx: 1-based triple to 1-based table offset, Ye fastest. */
  function Idx(g: Geometry, ir: int, it: int, ic: int): int
  {
    (ir - 1) * g.temp.n * g.ye.n + (it - 1) * g.ye.n + ic
  }

  // ---------------------------------------------------------------------
  // Offsets: range, inverse and injectivity

  lemma MulMono(a: int, b: int, c: int)
    requires 0 <= a <= b && 0 <= c
    ensures a * c <= b * c
  {
  }

  /** Every index triple inside the table lands on an offset in [1, Size]. */
  lemma {:induction false} IdxInRange(g: Geometry, ir: int, it: int, ic: int)
    requires InTable(g, ir, it, ic)
    ensures 1 <= Idx(g, ir, it, ic) <= Size(g)
  {
    var tY := g.temp.n * g.ye.n;
    IdxSplit(g, ir, it, ic);
    MulMono(ir - 1, g.rho.n - 1, tY);
    MulMono(0, ir - 1, tY);
    assert (g.rho.n - 1) * tY + tY == Size(g);
  }

  /** Euclidean division has exactly one quotient/remainder pair. */
  lemma DivModUnique(x: int, d: int, q: int, r: int)
    requires d > 0 && 0 <= r < d && x == q * d + r
    ensures x / d == q && x % d == r
  {
    var q', r' := x / d, x % d;
    assert x == q' * d + r';
    assert (q' - q) * d == r - r';
    if q' > q {
      MulMono(1, q' - q, d);
    } else if q' < q {
      MulMono(1, q - q', d);
    }
  }

  /** Inverse of nse_idx: the triple stored at a 1-based offset. */
  function Triple(g: Geometry, j: int): (r: (int, int, int))
    requires g.temp.n >= 1 && g.ye.n >= 1
  {
    var k := j - 1;
    var tY := g.temp.n * g.ye.n;
    var rem := k % tY;
    (k / tY + 1, rem / g.ye.n + 1, rem % g.ye.n + 1)
  }

  /** Decoding an offset of an in-table triple gives the triple back. */
  lemma {:induction false} TripleOfIdx(g: Geometry, ir: int, it: int, ic: int)
    requires InTable(g, ir, it, ic)
    ensures Triple(g, Idx(g, ir, it, ic)) == (ir, it, ic)
  {
    var tY := g.temp.n * g.ye.n;
    var k := Idx(g, ir, it, ic) - 1;
    var a := (it - 1) * g.ye.n + (ic - 1);
    IdxSplit(g, ir, it, ic);
    DivModUnique(k, tY, ir - 1, a);
    DivModUnique(a, g.ye.n, it - 1, ic - 1);
  }

  /** The 0-based offset of an in-table triple as whole density planes
      plus a position inside the plane. */
  lemma IdxSplit(g: Geometry, ir: int, it: int, ic: int)
    requires InTable(g, ir, it, ic)
    ensures Idx(g, ir, it, ic) - 1 == (ir - 1) * (g.temp.n * g.ye.n) + ((it - 1) * g.ye.n + (ic - 1))
    ensures 0 <= (it - 1) * g.ye.n + (ic - 1) < g.temp.n * g.ye.n
  {
    var T, Y := g.temp.n, g.ye.n;
    MulMono(it - 1, T - 1, Y);
    assert (T - 1) * Y + Y == T * Y;
    assert (ir - 1) * T * Y == (ir - 1) * (T * Y);
  }

  /** Every offset in [1, Size] decodes to an in-table triple that encodes
      back to it: nse_idx is a bijection onto [1, Size]. */
  lemma {:induction false} IdxOfTriple(g: Geometry, j: int)
    requires g.temp.n >= 1 && g.ye.n >= 1 && g.rho.n >= 1
    requires 1 <= j <= Size(g)
    ensures InTable(g, Triple(g, j).0, Triple(g, j).1, Triple(g, j).2)
    ensures Idx(g, Triple(g, j).0, Triple(g, j).1, Triple(g, j).2) == j
  {
    var T, Y := g.temp.n, g.ye.n;
    var tY := T * Y;
    MulMono(1, T, Y);
    MulAssoc(g.rho.n, T, Y);
    var k := j - 1;
    QuotientBelow(k, tY, g.rho.n);
    var q, rem := k / tY, k % tY;
    QuotientBelow(rem, Y, T);
    var q2, r2 := rem / Y, rem % Y;
    DivMod(k, tY);
    DivMod(rem, Y);
    MulAssoc(q, T, Y);
    assert Triple(g, j) == (q + 1, q2 + 1, r2 + 1);
    assert Idx(g, q + 1, q2 + 1, r2 + 1) == q * T * Y + q2 * Y + r2 + 1;
  }

  lemma MulAssoc(a: int, b: int, c: int)
    ensures a * b * c == a * (b * c)
  {
  }

  /** Euclidean division reassembles its dividend. */
  lemma DivMod(k: int, d: int)
    requires d > 0
    ensures k == (k / d) * d + k % d
  {
  }

  /** A non-negative number below n * d has a quotient by d below n. */
  lemma QuotientBelow(k: int, d: int, n: int)
    requires d > 0 && 0 <= k < n * d
    ensures 0 <= k / d < n && 0 <= k % d < d
  {
    var q := k / d;
    assert k == q * d + k % d;
    if q >= n {
      MulMono(n, q, d);
    }
  }

  /** Distinct in-table triples have distinct offsets. */
  lemma IdxInjective(g: Geometry, ir: int, it: int, ic: int, jr: int, jt: int, jc: int)
    requires InTable(g, ir, it, ic) && InTable(g, jr, jt, jc)
    requires Idx(g, ir, it, ic) == Idx(g, jr, jt, jc)
    ensures ir == jr && it == jt && ic == jc
  {
    TripleOfIdx(g, ir, it, ic);
    TripleOfIdx(g, jr, jt, jc);
  }

  /** The init_nse loops (density outer, temperature middle, Ye inner)
      move to the next offset at every step, including across the wrap
      of an inner index. */
  lemma IdxSuccessor(g: Geometry, ir: int, it: int, ic: int)
    ensures Idx(g, ir, it, ic + 1) == Idx(g, ir, it, ic) + 1
    ensures Idx(g, ir, it + 1, 1) == Idx(g, ir, it, g.ye.n) + 1
    ensures Idx(g, ir + 1, 1, 1) == Idx(g, ir, g.temp.n, g.ye.n) + 1
  {
    var T, Y := g.temp.n, g.ye.n;
    assert ir * T * Y == (ir - 1) * T * Y + T * Y;
    assert it * Y == (it - 1) * Y + Y;
    assert (T - 1) * Y + Y == T * Y;
  }

  /** One past the last density plane starts right after the table. */
  lemma IdxAfterLast(g: Geometry)
    ensures Idx(g, g.rho.n + 1, 1, 1) == Size(g) + 1
  {
  }

  // ---------------------------------------------------------------------
  // Grid coordinates

  /** nse_table_logrho */
  function LogRhoAt(g: Geometry, ir: int): real
  {
    g.rho.lo + (ir - 1) as real * g.rho.step
  }

  /** nse_table_logT */
  function LogTAt(g: Geometry, it: int): real
  {
    g.temp.lo + (it - 1) as real * g.temp.step
  }

  /** nse_table_ye: the Ye axis runs downwards from its maximum. */
  function YeAt(g: Geometry, ic: int): real
  {
    g.ye.hi - (ic - 1) as real * g.ye.step
  }

  /** log rho and log T grow strictly with the index, Ye falls strictly,
      and consecutive nodes are exactly one step apart. */
  lemma AxesMonotone(g: Geometry, i: int, j: int)
    requires GeometryOk(g)
    requires i < j
    ensures LogRhoAt(g, i) < LogRhoAt(g, j)
    ensures LogTAt(g, i) < LogTAt(g, j)
    ensures YeAt(g, j) < YeAt(g, i)
    ensures LogRhoAt(g, i + 1) - LogRhoAt(g, i) == g.rho.step
    ensures LogTAt(g, i + 1) - LogTAt(g, i) == g.temp.step
    ensures YeAt(g, i) - YeAt(g, i + 1) == g.ye.step
  {
    var d := (j - i) as real;
    assert d > 0.0;
    assert LogRhoAt(g, j) - LogRhoAt(g, i) == d * g.rho.step;
    assert LogTAt(g, j) - LogTAt(g, i) == d * g.temp.step;
    assert YeAt(g, i) - YeAt(g, j) == d * g.ye.step;
  }

  /** Moving k nodes along an axis moves the coordinate by k steps. */
  lemma AxisOffset(g: Geometry, i: int, k: int)
    ensures LogRhoAt(g, i + k) == LogRhoAt(g, i) + k as real * g.rho.step
    ensures LogTAt(g, i + k) == LogTAt(g, i) + k as real * g.temp.step
    ensures YeAt(g, i + k) == YeAt(g, i) - k as real * g.ye.step
  {
    assert (i + k - 1) as real == (i - 1) as real + k as real;
  }

  /** An axis's lower bound is not above its upper bound. */
  lemma AxisSpan(a: Axis)
    requires AxisOk(a)
    ensures a.lo <= a.hi
  {
    assert (a.n - 1) as real * a.step >= 0.0;
  }

  /** The first and last nodes of each axis are its bounds. */
  lemma AxisEnds(g: Geometry)
    requires GeometryOk(g)
    ensures LogRhoAt(g, 1) == g.rho.lo && LogRhoAt(g, g.rho.n) == g.rho.hi
    ensures LogTAt(g, 1) == g.temp.lo && LogTAt(g, g.temp.n) == g.temp.hi
    ensures YeAt(g, 1) == g.ye.hi && YeAt(g, g.ye.n) == g.ye.lo
  {
  }

  // ---------------------------------------------------------------------
  // Cell location

  /** The small bias subtracted before truncation (1.e-6). */
  const LocateBias: real := 0.000001

  /** `static_cast<int>(u - 1.e-6) + 1` for a position `u` measured in
      node spacings from the first node. */
  function Locate(u: real): int
  {
    Trunc(u - LocateBias) + 1
  }

  /** nse_get_logrho_index */
  function LogRhoIndex(g: Geometry, logrho: real): int
    requires g.rho.step > 0.0
  {
    Locate((logrho - g.rho.lo) / g.rho.step)
  }

  /** nse_get_logT_index */
  function LogTIndex(g: Geometry, logT: real): int
    requires g.temp.step > 0.0
  {
    Locate((logT - g.temp.lo) / g.temp.step)
  }

  /** nse_get_ye_index: measured downwards from the Ye maximum. */
  function YeIndex(g: Geometry, ye: real): int
    requires g.ye.step > 0.0
  {
    Locate((g.ye.hi - ye) / g.ye.step)
  }

  /** For a position at or past the first node the locator gives an index
      of at least 1 whose node lies at or below the position and whose
      successor lies above it, up to the bias. */
  lemma LocateCell(u: real)
    requires u >= 0.0
    ensures Locate(u) >= 1
    ensures (Locate(u) - 1) as real <= u < Locate(u) as real + LocateBias
  {
  }

  /** A position no further than the last node never yields the last
      node, so the `+1` corner of the cell is still in the table. */
  lemma LocateBelowLast(u: real, n: int)
    requires n >= 2
    requires u <= (n - 1) as real
    ensures Locate(u) <= n - 1
  {
  }

  /** At an exact node the tie goes to the cell below it: node k lies in
      cell k-1 (its upper corner), except node 1, which is cell 1. */
  lemma LocateAtNode(k: int)
    requires k >= 1
    ensures Locate((k - 1) as real) == if k == 1 then 1 else k - 1
  {
  }

  /** A position strictly inside a cell, past the bias, is located in
      that cell. */
  lemma LocateInside(i: int, f: real)
    requires i >= 0
    requires LocateBias <= f < 1.0
    ensures Locate(i as real + f) == i + 1
  {
  }

  /** Locator bounds for a log density clamped to the table. */
  lemma RhoIndexInCell(g: Geometry, logrho: real)
    requires GeometryOk(g) && g.rho.n >= 2
    requires g.rho.lo <= logrho <= g.rho.hi
    ensures 1 <= LogRhoIndex(g, logrho) <= g.rho.n - 1
    ensures LogRhoAt(g, LogRhoIndex(g, logrho)) <= logrho
  {
    var u := (logrho - g.rho.lo) / g.rho.step;
    assert u * g.rho.step == logrho - g.rho.lo;
    ScaledBelow(logrho - g.rho.lo, g.rho.n - 1, g.rho.step);
    LocateCell(u);
    LocateBelowLast(u, g.rho.n);
    StepBelow(Locate(u) - 1, u, g.rho.step);
  }

  /** Locator bounds for a log temperature clamped to the table. */
  lemma TempIndexInCell(g: Geometry, logT: real)
    requires GeometryOk(g) && g.temp.n >= 2
    requires g.temp.lo <= logT <= g.temp.hi
    ensures 1 <= LogTIndex(g, logT) <= g.temp.n - 1
    ensures LogTAt(g, LogTIndex(g, logT)) <= logT
  {
    var u := (logT - g.temp.lo) / g.temp.step;
    assert u * g.temp.step == logT - g.temp.lo;
    ScaledBelow(logT - g.temp.lo, g.temp.n - 1, g.temp.step);
    LocateCell(u);
    LocateBelowLast(u, g.temp.n);
    StepBelow(Locate(u) - 1, u, g.temp.step);
  }

  /** Locator bounds for a Ye clamped to the table; the located node has
      a Ye at or above the query since the axis falls. */
  lemma YeIndexInCell(g: Geometry, ye: real)
    requires GeometryOk(g) && g.ye.n >= 2
    requires g.ye.lo <= ye <= g.ye.hi
    ensures 1 <= YeIndex(g, ye) <= g.ye.n - 1
    ensures ye <= YeAt(g, YeIndex(g, ye))
  {
    var u := (g.ye.hi - ye) / g.ye.step;
    assert u * g.ye.step == g.ye.hi - ye;
    ScaledBelow(g.ye.hi - ye, g.ye.n - 1, g.ye.step);
    LocateCell(u);
    LocateBelowLast(u, g.ye.n);
    StepBelow(Locate(u) - 1, u, g.ye.step);
  }

  lemma ScaledBelow(x: real, m: int, d: real)
    requires d > 0.0 && 0.0 <= x <= m as real * d
    ensures 0.0 <= x / d <= m as real
  {
    assert (x / d) * d == x;
  }

  lemma StepBelow(k: int, u: real, d: real)
    requires d > 0.0 && k as real <= u
    ensures k as real * d <= u * d
  {
  }

  // ---------------------------------------------------------------------
  // The cubic stencil

  /** The first node of the 4-point stencil along an axis of `n` nodes:
      one below the located node, clamped so the stencil stays inside. */
  function StencilStart(located: int, n: int): (s: int)
    requires n >= 4
    ensures 1 <= s && s + 3 <= n
  {
    ClampInt(located - 1, 1, n - 3)
  }

  /** Away from the table edges the located cell is the middle interval of
      the stencil: the query lies between its second and third nodes. */
  lemma StencilCentred(located: int, n: int)
    requires n >= 4 && 2 <= located <= n - 2
    ensures StencilStart(located, n) + 1 == located
  {
  }

  /** When the query sits exactly on node k, that node is one of the four
      stencil nodes. */
  lemma StencilCoversNode(k: int, n: int)
    requires n >= 4 && 1 <= k <= n
    ensures StencilStart(Locate((k - 1) as real), n) <= k <= StencilStart(Locate((k - 1) as real), n) + 3
  {
    LocateAtNode(k);
  }
}
