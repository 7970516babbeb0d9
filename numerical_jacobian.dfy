/** numerical_jac from integration/utils/numerical_jacobian.H: the
    Jacobian d(ydot)/dy of the reactive system, y = (X_1..X_NumSpec, e),
    built column by column from forward differences of the network RHS.
    Species columns are differenced at constant T, the last column with
    respect to T, and the result is converted to constant e with c_v and
    de/dX.  Indices here are 0-based: species n of the source is column
    n-1, and net_ienuc is index NumSpec. */
module NumericalJacobian {
  import opened Numerics

  /** The part of the burn state that numerical_jac reads or perturbs. */
  datatype BurnState = BurnState(rho: real, T: real, e: real, xn: seq<real>, eScale: real)

  /** What eos(eos_input_re) followed by composition_derivatives yield
      for a state: c_v and de/dX. */
  datatype Thermo = Thermo(cv: real, dedX: seq<real>)

  /** The network: NumSpec, aion, and the foreign calls, which are left
      uninterpreted.  rhs is actual_rhs (dY/dt and denuc/dt), eosRT is
      eos(eos_input_rt, .), thermo is the eos_input_re call together with
      composition_derivatives. */
  datatype Network = Network(numSpec: nat, aion: seq<real>,
                             rhs: BurnState -> seq<real>,
                             eosRT: BurnState -> BurnState,
                             thermo: BurnState -> Thermo)

  /** The integrator runtime parameters numerical_jac reads, together
      with EOSData::mintemp. */
  datatype Params = Params(rtolSpec: real, atolSpec: real, rtolEnuc: real, atolEnuc: real,
                           minTemp: real, maxTemp: real, scaleSystem: bool,
                           reactBoost: real, integrateEnergy: bool)

  /** aion has one entry per species and every RHS result has
      NumSpec + 1 components, as the fixed-size arrays of the source do. */
  ghost predicate NetworkOk(net: Network)
  {
    |net.aion| == net.numSpec && forall s :: |net.rhs(s)| == net.numSpec + 1
  }

  /** Tolerances for which every error weight is positive. */
  predicate ParamsOk(p: Params)
  {
    p.rtolSpec >= 0.0 && p.atolSpec > 0.0 && p.rtolEnuc >= 0.0 && p.atolEnuc > 0.0
  }

  // ---------------------------------------------------------------------
  // Matrices

  type Matrix = seq<seq<real>>

  predicate Square(M: Matrix, n: nat)
  {
    |M| == n && forall i :: 0 <= i < n ==> |M[i]| == n
  }

  /** The array holds exactly the matrix M. */
  ghost predicate Holds(jac: array2<real>, M: Matrix)
    reads jac
  {
    Square(M, |M|) && jac.Length0 == |M| && jac.Length1 == |M| &&
    forall i, j :: 0 <= i < |M| && 0 <= j < |M| ==> jac[i, j] == M[i][j]
  }

  /** The current contents of a square array. */
  ghost function Contents(jac: array2<real>): (M: Matrix)
    requires jac.Length0 == jac.Length1
    reads jac
    ensures Holds(jac, M)
  {
    seq(jac.Length0, i requires 0 <= i < jac.Length0 reads jac =>
      seq(jac.Length1, j requires 0 <= j < jac.Length1 reads jac => jac[i, j]))
  }

  /** jac.zero() */
  function Zeros(n: nat): (r: Matrix)
    ensures Square(r, n)
    ensures forall i, j :: 0 <= i < n && 0 <= j < n ==> r[i][j] == 0.0
  {
    seq(n, i => seq(n, j => 0.0))
  }

  /** jac.mul(k) */
  function Times(M: Matrix, k: real): (r: Matrix)
    requires Square(M, |M|)
    ensures Square(r, |M|)
  {
    seq(|M|, i requires 0 <= i < |M| => seq(|M|, j requires 0 <= j < |M| => M[i][j] * k))
  }

  /** Every entry of column c multiplied by k. */
  function ColumnTimes(M: Matrix, c: nat, k: real): (r: Matrix)
    requires Square(M, |M|)
    ensures Square(r, |M|)
  {
    seq(|M|, i requires 0 <= i < |M| =>
      seq(|M|, j requires 0 <= j < |M| => if j == c then M[i][j] * k else M[i][j]))
  }

  /** Every entry of row r divided by k. */
  function RowOver(M: Matrix, row: nat, k: real): (r: Matrix)
    requires Square(M, |M|) && k != 0.0
    ensures Square(r, |M|)
  {
    seq(|M|, i requires 0 <= i < |M| =>
      seq(|M|, j requires 0 <= j < |M| => if i == row then M[i][j] / k else M[i][j]))
  }

  /** Every entry of row r set to zero. */
  function RowZeroed(M: Matrix, row: nat): (r: Matrix)
    requires Square(M, |M|)
    ensures Square(r, |M|)
  {
    seq(|M|, i requires 0 <= i < |M| =>
      seq(|M|, j requires 0 <= j < |M| => if i == row then 0.0 else M[i][j]))
  }

  /** The species correction: each column j < e loses dedX[j] times the
      energy column e; column e itself is kept. */
  function SpeciesCorrected(M: Matrix, e: nat, dedX: seq<real>): (r: Matrix)
    requires Square(M, |M|) && e < |M| && |dedX| == e
    ensures Square(r, |M|)
  {
    seq(|M|, i requires 0 <= i < |M| =>
      seq(|M|, j requires 0 <= j < |M| => if j < e then M[i][j] - dedX[j] * M[i][e] else M[i][j]))
  }

  // ---------------------------------------------------------------------
  // The quantities numerical_jac computes, as functions of its inputs

  /** The RHS result converted from dY/dt to dX/dt: each species
      component times its aion, the energy component as it is. */
  function MassRates(aion: seq<real>, ydot: seq<real>): (r: seq<real>)
    ensures |r| == |ydot|
    ensures forall q :: 0 <= q < |ydot| && q < |aion| ==> r[q] == ydot[q] * aion[q]
    ensures forall q :: |aion| <= q < |ydot| ==> r[q] == ydot[q]
  {
    seq(|ydot|, q requires 0 <= q < |ydot| => if q < |aion| then ydot[q] * aion[q] else ydot[q])
  }

  /** actual_rhs on s, converted to dX/dt. */
  ghost function Ydot(net: Network, s: BurnState): (r: seq<real>)
    requires NetworkOk(net)
    ensures |r| == net.numSpec + 1
  {
    MassRates(net.aion, net.rhs(s))
  }

  /** The VODE error weight rtol |x| + atol (the reciprocal of w). */
  function Ewt(rtol: real, atol: real, x: real): (r: real)
    requires rtol >= 0.0 && atol > 0.0
    ensures r >= atol > 0.0
  {
    rtol * Abs(x) + atol
  }

  /** (x * x), as the accumulations of fac and yddnorm write it. */
  function Square1(x: real): (r: real)
    ensures r >= 0.0
  {
    x * x
  }

  /** The species part of |f|^2: the sum over the first k species of
      (ydot_i / ewt_i)^2, accumulated in index order. */
  function SpeciesNorm(p: Params, ydot: seq<real>, xn: seq<real>, k: nat): real
    requires ParamsOk(p) && k <= |ydot| && k <= |xn|
  {
    if k == 0 then 0.0
    else SpeciesNorm(p, ydot, xn, k - 1) + Square1(ydot[k - 1] * (1.0 / Ewt(p.rtolSpec, p.atolSpec, xn[k - 1])))
  }

  /** A sum of squares is non-negative. */
  lemma {:induction false} SpeciesNormNonneg(p: Params, ydot: seq<real>, xn: seq<real>, k: nat)
    requires ParamsOk(p) && k <= |ydot| && k <= |xn|
    ensures SpeciesNorm(p, ydot, xn, k) >= 0.0
  {
    if k > 0 {
      SpeciesNormNonneg(p, ydot, xn, k - 1);
    }
  }

  /** |f|^2 * int_neqs: the species sum plus the energy term, whose
      weight uses e rather than T. */
  function NormSum(net: Network, p: Params, s: BurnState, ydotm: seq<real>): real
    requires ParamsOk(p) && |s.xn| == net.numSpec && |ydotm| == net.numSpec + 1
  {
    SpeciesNorm(p, ydotm, s.xn, net.numSpec) +
    Square1(ydotm[net.numSpec] * (1.0 / Ewt(p.rtolEnuc, p.atolEnuc, s.e)))
  }

  /** r0 of the LSODE paper, eq. 3.34: 1000 |h| U int_neqs |f|, with 1
      in place of a zero. */
  ghost function R0(net: Network, p: Params, sqrt: real -> real, h: real, s: BurnState): real
    requires NetworkOk(net) && ParamsOk(p) && |s.xn| == net.numSpec
  {
    var neqs := (net.numSpec + 1) as real;
    var fac := sqrt(NormSum(net, p, s, Ydot(net, s)) / neqs);
    var r0 := 1000.0 * Abs(h) * Epsilon * neqs * fac;
    if r0 == 0.0 then 1.0 else r0
  }

  /** r0 is never zero: it is positive for every state and every h. */
  lemma R0Positive(net: Network, p: Params, sqrt: real -> real, h: real, s: BurnState)
    requires NetworkOk(net) && ParamsOk(p) && SqrtFn(sqrt) && |s.xn| == net.numSpec
    ensures R0(net, p, sqrt, h, s) > 0.0
  {
    var neqs := (net.numSpec + 1) as real;
    var ydotm := Ydot(net, s);
    SpeciesNormNonneg(p, ydotm, s.xn, net.numSpec);
    var x := NormSum(net, p, s, ydotm) / neqs;
    assert x >= 0.0;
    assert IsSqrt(x, sqrt(x));
    var r0 := 1000.0 * Abs(h) * Epsilon * neqs * sqrt(x);
    assert 1000.0 * Abs(h) * Epsilon * neqs >= 0.0;
    assert r0 >= 0.0;
  }

  /** The increment of eq. 3.35: max(sqrt(U) |y|, r0 ewt). */
  function Increment(sqrt: real -> real, r0: real, rtol: real, atol: real, y: real): real
    requires rtol >= 0.0 && atol > 0.0
  {
    Max(sqrt(Epsilon) * Abs(y), r0 * Ewt(rtol, atol, y))
  }

  /** With r0 > 0 every increment is positive, so no difference quotient
      divides by zero. */
  lemma IncrementPositive(sqrt: real -> real, r0: real, rtol: real, atol: real, y: real)
    requires SqrtFn(sqrt) && r0 > 0.0 && rtol >= 0.0 && atol > 0.0
    ensures Increment(sqrt, r0, rtol, atol, y) > 0.0
  {
    ProductPositive(r0, Ewt(rtol, atol, y));
  }

  /** The forward difference (ydotp - ydotm) / dy, component by component. */
  function Difference(ydotp: seq<real>, ydotm: seq<real>, dy: real): (r: seq<real>)
    requires |ydotp| == |ydotm| && dy != 0.0
    ensures |r| == |ydotm|
    ensures forall m :: 0 <= m < |r| ==> r[m] * dy == ydotp[m] - ydotm[m]
  {
    seq(|ydotm|, m requires 0 <= m < |ydotm| => (ydotp[m] - ydotm[m]) / dy)
  }

  /** s with species n raised by dy and nothing else changed. */
  function PerturbSpecies(s: BurnState, n: nat, dy: real): (r: BurnState)
    requires n < |s.xn|
    ensures r.rho == s.rho && r.T == s.T && r.e == s.e && r.eScale == s.eScale
    ensures |r.xn| == |s.xn| && r.xn[n] == s.xn[n] + dy
    ensures forall k :: 0 <= k < |s.xn| && k != n ==> r.xn[k] == s.xn[k]
  {
    s.(xn := s.xn[n := s.xn[n] + dy])
  }

  /** Column n of the raw Jacobian: the difference quotient of the RHS
      with only species n perturbed from s. */
  ghost function SpeciesColumn(net: Network, p: Params, sqrt: real -> real, r0: real,
                               s: BurnState, n: nat): (r: seq<real>)
    requires NetworkOk(net) && ParamsOk(p) && SqrtFn(sqrt) && r0 > 0.0
    requires |s.xn| == net.numSpec && n < net.numSpec
    ensures |r| == net.numSpec + 1
  {
    var dy := Increment(sqrt, r0, p.rtolSpec, p.atolSpec, s.xn[n]);
    IncrementPositive(sqrt, r0, p.rtolSpec, p.atolSpec, s.xn[n]);
    Difference(Ydot(net, PerturbSpecies(s, n, dy)), Ydot(net, s), dy)
  }

  /** A species column is the difference quotient for the step the
      loop computes, given the RHS at the perturbed state. */
  lemma SpeciesColumnIs(net: Network, p: Params, sqrt: real -> real, r0: real,
                        s: BurnState, n: nat, dy: real, ydotp: seq<real>)
    requires NetworkOk(net) && ParamsOk(p) && SqrtFn(sqrt) && r0 > 0.0
    requires |s.xn| == net.numSpec && n < net.numSpec
    requires dy == Increment(sqrt, r0, p.rtolSpec, p.atolSpec, s.xn[n])
    requires ydotp == Ydot(net, PerturbSpecies(s, n, dy))
    ensures dy > 0.0 && SpeciesColumn(net, p, sqrt, r0, s, n) == Difference(ydotp, Ydot(net, s), dy)
  {
    IncrementPositive(sqrt, r0, p.rtolSpec, p.atolSpec, s.xn[n]);
  }

  /** The range guard on the perturbed temperature T + dy, with the
      temperature increment dy for this r0: at or below mintemp, or at or
      above MAX_TEMP. */
  predicate OutOfRange(p: Params, sqrt: real -> real, r0: real, s: BurnState)
    requires ParamsOk(p)
  {
    var t := s.T + Increment(sqrt, r0, p.rtolEnuc, p.atolEnuc, s.T);
    t <= p.minTemp || t >= p.maxTemp
  }

  /** The range guard of numerical_jac at state s. */
  ghost predicate Guarded(net: Network, p: Params, sqrt: real -> real, h: real, s: BurnState)
    requires NetworkOk(net) && ParamsOk(p) && |s.xn| == net.numSpec
  {
    OutOfRange(p, sqrt, R0(net, p, sqrt, h, s), s)
  }

  /** The last raw column: the difference quotient with respect to T,
      taken after the EOS has made the perturbed state consistent. */
  ghost function TempColumn(net: Network, p: Params, sqrt: real -> real, r0: real, s: BurnState): (r: seq<real>)
    requires NetworkOk(net) && ParamsOk(p) && SqrtFn(sqrt) && r0 > 0.0
    ensures |r| == net.numSpec + 1
  {
    var dy := Increment(sqrt, r0, p.rtolEnuc, p.atolEnuc, s.T);
    IncrementPositive(sqrt, r0, p.rtolEnuc, p.atolEnuc, s.T);
    Difference(Ydot(net, net.eosRT(s.(T := s.T + dy))), Ydot(net, s), dy)
  }

  /** The Jacobian before the corrections: species columns at constant
      T, then the T column. */
  ghost function Raw(net: Network, p: Params, sqrt: real -> real, r0: real, s: BurnState): (r: Matrix)
    requires NetworkOk(net) && ParamsOk(p) && SqrtFn(sqrt) && r0 > 0.0 && |s.xn| == net.numSpec
    ensures Square(r, net.numSpec + 1)
  {
    var N := net.numSpec + 1;
    seq(N, i requires 0 <= i < N =>
      seq(N, j requires 0 <= j < N =>
        if j < net.numSpec then SpeciesColumn(net, p, sqrt, r0, s, j)[i]
        else TempColumn(net, p, sqrt, r0, s)[i]))
  }

  /** jac holds the raw matrix once every species column and the T
      column hold their difference quotients. */
  lemma RawHolds(net: Network, p: Params, sqrt: real -> real, r0: real, s: BurnState,
                 jac: array2<real>, dy: real, ydotp: seq<real>)
    requires NetworkOk(net) && ParamsOk(p) && SqrtFn(sqrt) && r0 > 0.0 && |s.xn| == net.numSpec
    requires jac.Length0 == jac.Length1 == net.numSpec + 1
    requires dy == Increment(sqrt, r0, p.rtolEnuc, p.atolEnuc, s.T) && dy != 0.0
    requires ydotp == Ydot(net, net.eosRT(s.(T := s.T + dy)))
    requires forall a, b :: 0 <= a < jac.Length0 && 0 <= b < net.numSpec ==>
               jac[a, b] == SpeciesColumn(net, p, sqrt, r0, s, b)[a]
    requires forall a :: 0 <= a < jac.Length0 ==> jac[a, net.numSpec] == Difference(ydotp, Ydot(net, s), dy)[a]
    ensures Holds(jac, Raw(net, p, sqrt, r0, s))
  {
    var R := Raw(net, p, sqrt, r0, s);
    assert TempColumn(net, p, sqrt, r0, s) == Difference(ydotp, Ydot(net, s), dy);
    forall i, j | 0 <= i < |R| && 0 <= j < |R|
      ensures jac[i, j] == R[i][j]
    {
      if j < net.numSpec {
        assert R[i][j] == SpeciesColumn(net, p, sqrt, r0, s, j)[i];
      } else {
        assert R[i][j] == TempColumn(net, p, sqrt, r0, s)[i];
      }
    }
  }

  /** What the source needs of the EOS whenever it gets past the range
      guard: a non-zero c_v, one de/dX per species, and a non-zero
      e_scale when the system is scaled. */
  ghost predicate ThermoOk(net: Network, p: Params, s: BurnState)
  {
    net.thermo(s).cv != 0.0 && |net.thermo(s).dedX| == net.numSpec &&
    (p.scaleSystem ==> s.eScale != 0.0)
  }

  /** The Jacobian at constant e: the T column (index e) times 1/c_v,
      then each species column corrected by de/dX times that column. */
  function Converted(R: Matrix, e: nat, th: Thermo): (r: Matrix)
    requires Square(R, |R|) && e < |R| && th.cv != 0.0 && |th.dedX| == e
    ensures Square(r, |R|)
  {
    SpeciesCorrected(ColumnTimes(R, e, 1.0 / th.cv), e, th.dedX)
  }

  /** The energy scaling, when enabled. */
  function EnergyScaled(M: Matrix, e: nat, scale: bool, eScale: real): (r: Matrix)
    requires Square(M, |M|) && (scale ==> eScale != 0.0)
    ensures Square(r, |M|)
  {
    if scale then ColumnTimes(RowOver(M, e, eScale), e, eScale) else M
  }

  /** The boost, when react_boost is positive. */
  function Boosted(M: Matrix, boost: real): (r: Matrix)
    requires Square(M, |M|)
    ensures Square(r, |M|)
  {
    if boost > 0.0 then Times(M, boost) else M
  }

  /** The optional steps after the conversion, in the source's order:
      energy scaling, boost, and clearing the energy row when energy
      integration is disabled. */
  function Finished(C: Matrix, e: nat, p: Params, eScale: real): (r: Matrix)
    requires Square(C, |C|) && (p.scaleSystem ==> eScale != 0.0)
    ensures Square(r, |C|)
  {
    var B := Boosted(EnergyScaled(C, e, p.scaleSystem, eScale), p.reactBoost);
    if p.integrateEnergy then B else RowZeroed(B, e)
  }

  /** What numerical_jac leaves in jac: all zeros when the range guard
      fires, otherwise the raw matrix converted and finished. */
  ghost function Jacobian(net: Network, p: Params, sqrt: real -> real, h: real, s: BurnState): (r: Matrix)
    requires NetworkOk(net) && ParamsOk(p) && SqrtFn(sqrt) && |s.xn| == net.numSpec
    requires Guarded(net, p, sqrt, h, s) || ThermoOk(net, p, s)
    ensures Square(r, net.numSpec + 1)
  {
    R0Positive(net, p, sqrt, h, s);
    var r0 := R0(net, p, sqrt, h, s);
    if OutOfRange(p, sqrt, r0, s) then Zeros(net.numSpec + 1)
    else Finished(Converted(Raw(net, p, sqrt, r0, s), net.numSpec, net.thermo(s)), net.numSpec, p, s.eScale)
  }

  /** Jacobian unfolded for the r0 of s. */
  lemma JacobianIs(net: Network, p: Params, sqrt: real -> real, h: real, s: BurnState, r0: real)
    requires NetworkOk(net) && ParamsOk(p) && SqrtFn(sqrt) && |s.xn| == net.numSpec
    requires Guarded(net, p, sqrt, h, s) || ThermoOk(net, p, s)
    requires r0 == R0(net, p, sqrt, h, s) && r0 > 0.0
    ensures OutOfRange(p, sqrt, r0, s) ==> Jacobian(net, p, sqrt, h, s) == Zeros(net.numSpec + 1)
    ensures !OutOfRange(p, sqrt, r0, s) ==>
              ThermoOk(net, p, s) &&
              Jacobian(net, p, sqrt, h, s) ==
                Finished(Converted(Raw(net, p, sqrt, r0, s), net.numSpec, net.thermo(s)), net.numSpec, p, s.eScale)
  {
  }

  // ---------------------------------------------------------------------
  // Properties of the result

  /** When the range guard fires the whole matrix is zero. */
  lemma GuardZeroes(net: Network, p: Params, sqrt: real -> real, h: real, s: BurnState)
    requires NetworkOk(net) && ParamsOk(p) && SqrtFn(sqrt) && |s.xn| == net.numSpec
    requires Guarded(net, p, sqrt, h, s)
    ensures forall i, j :: 0 <= i <= net.numSpec && 0 <= j <= net.numSpec ==>
              Jacobian(net, p, sqrt, h, s)[i][j] == 0.0
  {
  }

  /** The conversion to constant e: the energy column is the raw T
      column divided by c_v, and each species entry is its raw value
      minus de/dX of that species times the converted energy entry. */
  lemma ConvertedEntries(R: Matrix, e: nat, th: Thermo, i: nat, j: nat)
    requires Square(R, |R|) && e < |R| && th.cv != 0.0 && |th.dedX| == e
    requires i < |R| && j < e
    ensures Converted(R, e, th)[i][e] * th.cv == R[i][e]
    ensures Converted(R, e, th)[i][j] == R[i][j] - th.dedX[j] * Converted(R, e, th)[i][e]
  {
    var E := ColumnTimes(R, e, 1.0 / th.cv);
    assert E[i][e] == R[i][e] * (1.0 / th.cv);
    assert E[i][j] == R[i][j];
  }

  /** Scaling the energy row down and the energy column up by the same
      factor leaves the diagonal entry (net_ienuc, net_ienuc) as it was,
      and touches no entry outside that row and column. */
  lemma ScalingKeepsDiagonal(M: Matrix, e: nat, k: real)
    requires Square(M, |M|) && e < |M| && k != 0.0
    ensures EnergyScaled(M, e, true, k)[e][e] == M[e][e]
    ensures forall i, j :: 0 <= i < |M| && 0 <= j < |M| && i != e && j != e ==>
              EnergyScaled(M, e, true, k)[i][j] == M[i][j]
  {
    var D := RowOver(M, e, k);
    assert D[e][e] == M[e][e] / k;
    DivideOut(M[e][e], k, D[e][e]);
  }

  /** With energy integration on, the diagonal energy entry after the
      optional steps is the converted one, times the boost when there is
      one, whether or not the system is scaled. */
  lemma FinishedDiagonal(C: Matrix, e: nat, p: Params, eScale: real)
    requires Square(C, |C|) && e < |C| && (p.scaleSystem ==> eScale != 0.0)
    requires p.integrateEnergy
    ensures Finished(C, e, p, eScale)[e][e] == if p.reactBoost > 0.0 then C[e][e] * p.reactBoost else C[e][e]
  {
    if p.scaleSystem {
      ScalingKeepsDiagonal(C, e, eScale);
    }
  }

  /** With a positive boost, every entry outside a cleared energy row is
      the boost times the scaled entry. */
  lemma FinishedBoost(C: Matrix, e: nat, p: Params, eScale: real, i: nat, j: nat)
    requires Square(C, |C|) && e < |C| && (p.scaleSystem ==> eScale != 0.0)
    requires p.reactBoost > 0.0 && i < |C| && j < |C| && (p.integrateEnergy || i != e)
    ensures Finished(C, e, p, eScale)[i][j] == EnergyScaled(C, e, p.scaleSystem, eScale)[i][j] * p.reactBoost
  {
  }

  /** With energy integration off, the energy row is zero on return,
      since clearing it is the last step. */
  lemma FinishedEnergyRow(C: Matrix, e: nat, p: Params, eScale: real)
    requires Square(C, |C|) && e < |C| && (p.scaleSystem ==> eScale != 0.0)
    requires !p.integrateEnergy
    ensures forall j :: 0 <= j < |C| ==> Finished(C, e, p, eScale)[e][j] == 0.0
  {
  }

  /** Each species column is the forward difference for that species
      alone, with step dy = max(sqrt(U) |X_n|, r0 ewt_n) > 0. */
  lemma RawSpeciesEntry(net: Network, p: Params, sqrt: real -> real, r0: real, s: BurnState, i: nat, j: nat)
    requires NetworkOk(net) && ParamsOk(p) && SqrtFn(sqrt) && r0 > 0.0 && |s.xn| == net.numSpec
    requires i <= net.numSpec && j < net.numSpec
    ensures var dy := Increment(sqrt, r0, p.rtolSpec, p.atolSpec, s.xn[j]);
            dy > 0.0 &&
            Raw(net, p, sqrt, r0, s)[i][j] * dy == Ydot(net, PerturbSpecies(s, j, dy))[i] - Ydot(net, s)[i]
  {
    IncrementPositive(sqrt, r0, p.rtolSpec, p.atolSpec, s.xn[j]);
  }

  /** The T column is the forward difference in T of the RHS after the
      EOS call, with step dy = max(sqrt(U) |T|, r0 ewt_e) > 0. */
  lemma RawTempEntry(net: Network, p: Params, sqrt: real -> real, r0: real, s: BurnState, i: nat)
    requires NetworkOk(net) && ParamsOk(p) && SqrtFn(sqrt) && r0 > 0.0 && |s.xn| == net.numSpec
    requires i <= net.numSpec
    ensures var dy := Increment(sqrt, r0, p.rtolEnuc, p.atolEnuc, s.T);
            dy > 0.0 &&
            Raw(net, p, sqrt, r0, s)[i][net.numSpec] * dy == Ydot(net, net.eosRT(s.(T := s.T + dy)))[i] - Ydot(net, s)[i]
  {
    IncrementPositive(sqrt, r0, p.rtolEnuc, p.atolEnuc, s.T);
    assert Raw(net, p, sqrt, r0, s)[i][net.numSpec] == TempColumn(net, p, sqrt, r0, s)[i];
  }

  // ---------------------------------------------------------------------
  // The in-place steps on jac

  /** jac.zero() */
  method ZeroAll(jac: array2<real>, ghost M: Matrix)
    modifies jac
    requires Holds(jac, M)
    ensures Holds(jac, Zeros(|M|))
  {
    for i := 0 to jac.Length0
      invariant forall a, b :: 0 <= a < i && 0 <= b < jac.Length1 ==> jac[a, b] == 0.0
    {
      for j := 0 to jac.Length1
        invariant forall a, b :: 0 <= a < i && 0 <= b < jac.Length1 ==> jac[a, b] == 0.0
        invariant forall b :: 0 <= b < j ==> jac[i, b] == 0.0
      {
        jac[i, j] := 0.0;
      }
    }
  }

  /** jac.mul(k) */
  method MultiplyAll(jac: array2<real>, k: real, ghost M: Matrix)
    modifies jac
    requires Holds(jac, M)
    ensures Holds(jac, Times(M, k))
  {
    for i := 0 to jac.Length0
      invariant forall a, b :: 0 <= a < jac.Length0 && 0 <= b < jac.Length1 ==>
                  jac[a, b] == if a < i then M[a][b] * k else M[a][b]
    {
      for j := 0 to jac.Length1
        invariant forall a, b :: 0 <= a < jac.Length0 && 0 <= b < jac.Length1 ==>
                    jac[a, b] == if a < i || (a == i && b < j) then M[a][b] * k else M[a][b]
      {
        jac[i, j] := jac[i, j] * k;
      }
    }
  }

  /** The loop over m of jac(m, c) *= k. */
  method MultiplyColumn(jac: array2<real>, c: int, k: real, ghost M: Matrix)
    modifies jac
    requires Holds(jac, M) && 0 <= c < |M|
    ensures Holds(jac, ColumnTimes(M, c, k))
  {
    for m := 0 to jac.Length0
      invariant forall a, b :: 0 <= a < jac.Length0 && 0 <= b < jac.Length1 ==>
                  jac[a, b] == if b == c && a < m then M[a][b] * k else M[a][b]
    {
      jac[m, c] := jac[m, c] * k;
    }
  }

  /** The loop over n of jac(r, n) /= k. */
  method DivideRow(jac: array2<real>, row: int, k: real, ghost M: Matrix)
    modifies jac
    requires Holds(jac, M) && 0 <= row < |M| && k != 0.0
    ensures Holds(jac, RowOver(M, row, k))
  {
    for n := 0 to jac.Length1
      invariant forall a, b :: 0 <= a < jac.Length0 && 0 <= b < jac.Length1 ==>
                  jac[a, b] == if a == row && b < n then M[a][b] / k else M[a][b]
    {
      jac[row, n] := jac[row, n] / k;
    }
  }

  /** The loop over n of jac(r, n) = 0. */
  method ClearRow(jac: array2<real>, row: int, ghost M: Matrix)
    modifies jac
    requires Holds(jac, M) && 0 <= row < |M|
    ensures Holds(jac, RowZeroed(M, row))
  {
    for n := 0 to jac.Length1
      invariant forall a, b :: 0 <= a < jac.Length0 && 0 <= b < jac.Length1 ==>
                  jac[a, b] == if a == row && b < n then 0.0 else M[a][b]
    {
      jac[row, n] := 0.0;
    }
  }

  /** The species correction loops: for each species column n and each
      row m, jac(m, n) -= dedX[n] * jac(m, e). */
  method CorrectSpecies(jac: array2<real>, e: int, dedX: seq<real>, ghost M: Matrix)
    modifies jac
    requires Holds(jac, M) && 0 <= e < |M| && |dedX| == e
    ensures Holds(jac, SpeciesCorrected(M, e, dedX))
  {
    for n := 0 to e
      invariant forall a, b :: 0 <= a < jac.Length0 && 0 <= b < jac.Length1 ==>
                  jac[a, b] == if b < n then M[a][b] - dedX[b] * M[a][e] else M[a][b]
    {
      for m := 0 to jac.Length0
        invariant forall a, b :: 0 <= a < jac.Length0 && 0 <= b < jac.Length1 ==>
                    jac[a, b] == if b < n || (b == n && a < m) then M[a][b] - dedX[b] * M[a][e] else M[a][b]
      {
        jac[m, n] := jac[m, n] - dedX[n] * jac[m, e];
      }
    }
  }

  /** The loop over m of jac(m, c) = (ydotp(m) - ydotm(m)) / dy. */
  method FillColumn(jac: array2<real>, c: int, ydotp: seq<real>, ydotm: seq<real>, dy: real)
    modifies jac
    requires 0 <= c < jac.Length1 && |ydotp| == |ydotm| == jac.Length0 && dy != 0.0
    ensures forall a :: 0 <= a < jac.Length0 ==> jac[a, c] == Difference(ydotp, ydotm, dy)[a]
    ensures forall a, b :: 0 <= a < jac.Length0 && 0 <= b < jac.Length1 && b != c ==> jac[a, b] == old(jac[a, b])
  {
    for m := 0 to jac.Length0
      invariant forall a :: 0 <= a < m ==> jac[a, c] == Difference(ydotp, ydotm, dy)[a]
      invariant forall a, b :: 0 <= a < jac.Length0 && 0 <= b < jac.Length1 && (b != c || m <= a) ==>
                  jac[a, b] == old(jac[a, b])
    {
      jac[m, c] := (ydotp[m] - ydotm[m]) / dy;
    }
  }

  // ---------------------------------------------------------------------
  // The computation

  /** actual_rhs on s, then the species components times aion. */
  method RhsInX(net: Network, s: BurnState) returns (ydot: seq<real>)
    requires NetworkOk(net)
    ensures ydot == Ydot(net, s)
  {
    ydot := net.rhs(s);
    for q := 0 to net.numSpec
      invariant |ydot| == net.numSpec + 1
      invariant forall k :: 0 <= k < |ydot| ==> ydot[k] == if k < q then net.rhs(s)[k] * net.aion[k] else net.rhs(s)[k]
    {
      ydot := ydot[q := ydot[q] * net.aion[q]];
    }
    assert |net.rhs(s)| == net.numSpec + 1;
    assert forall k :: 0 <= k < |ydot| ==> ydot[k] == MassRates(net.aion, net.rhs(s))[k];
  }

  /** The loop of fac over the species: the sum of (ydot_i w_i)^2 with
      w_i = 1 / (rtol_spec |X_i| + atol_spec). */
  method SpeciesSum(p: Params, ydotm: seq<real>, xn: seq<real>) returns (fac: real)
    requires ParamsOk(p) && |xn| < |ydotm|
    ensures fac == SpeciesNorm(p, ydotm, xn, |xn|)
  {
    fac := 0.0;
    for i := 0 to |xn|
      invariant fac == SpeciesNorm(p, ydotm, xn, i)
    {
      var w := 1.0 / Ewt(p.rtolSpec, p.atolSpec, xn[i]);
      fac := fac + Square1(ydotm[i] * w);
    }
  }

  /** fac: the species sum plus the energy term, whose weight uses e,
      then the root mean square over int_neqs components. */
  method Fac(net: Network, p: Params, sqrt: real -> real, s: BurnState, ydotm: seq<real>) returns (fac: real)
    requires ParamsOk(p) && |s.xn| == net.numSpec && |ydotm| == net.numSpec + 1
    ensures fac == sqrt(NormSum(net, p, s, ydotm) / (net.numSpec + 1) as real)
  {
    fac := SpeciesSum(p, ydotm, s.xn);
    var w := 1.0 / Ewt(p.rtolEnuc, p.atolEnuc, s.e);
    fac := fac + Square1(ydotm[net.numSpec] * w);
    assert fac == NormSum(net, p, s, ydotm);
    fac := sqrt(fac / (net.numSpec + 1) as real);
  }

  /** w = rtol |y| + atol and dy = max(sqrt(U) |y|, r0 w), as computed
      before each perturbation. */
  method Step(sqrt: real -> real, r0: real, rtol: real, atol: real, y: real) returns (dy: real)
    requires SqrtFn(sqrt) && r0 > 0.0 && rtol >= 0.0 && atol > 0.0
    ensures dy == Increment(sqrt, r0, rtol, atol, y) && dy > 0.0
  {
    var w := rtol * Abs(y) + atol;
    dy := Max(sqrt(Epsilon) * Abs(y), r0 * w);
    IncrementPositive(sqrt, r0, rtol, atol, y);
  }

  /** The species columns: perturb species n by dy, difference, and put
      X_n back.  The perturbed copy comes back as it went in. */
  method SpeciesColumns(net: Network, p: Params, sqrt: real -> real, r0: real,
                        ydotm: seq<real>, delp: BurnState, jac: array2<real>)
    returns (delpOut: BurnState)
    modifies jac
    requires NetworkOk(net) && ParamsOk(p) && SqrtFn(sqrt) && r0 > 0.0
    requires |delp.xn| == net.numSpec && ydotm == Ydot(net, delp)
    requires jac.Length0 == jac.Length1 == net.numSpec + 1
    ensures delpOut == delp
    ensures forall a, b :: 0 <= a < jac.Length0 && 0 <= b < net.numSpec ==>
              jac[a, b] == SpeciesColumn(net, p, sqrt, r0, delp, b)[a]
    ensures forall a :: 0 <= a < jac.Length0 ==> jac[a, net.numSpec] == old(jac[a, net.numSpec])
  {
    delpOut := delp;
    for n := 0 to net.numSpec
      invariant delpOut == delp
      invariant forall a, b :: 0 <= a < jac.Length0 && 0 <= b < n ==>
                  jac[a, b] == SpeciesColumn(net, p, sqrt, r0, delp, b)[a]
      invariant forall a :: 0 <= a < jac.Length0 ==> jac[a, net.numSpec] == old(jac[a, net.numSpec])
    {
      var yj := delpOut.xn[n];
      var dy := Step(sqrt, r0, p.rtolSpec, p.atolSpec, yj);
      delpOut := delpOut.(xn := delpOut.xn[n := delpOut.xn[n] + dy]);
      var ydotp := RhsInX(net, delpOut);
      SpeciesColumnIs(net, p, sqrt, r0, delp, n, dy, ydotp);
      FillColumn(jac, n, ydotp, ydotm, dy);
      delpOut := delpOut.(xn := delpOut.xn[n := yj]);
      assert delpOut.xn == delp.xn;
    }
  }

  /** Everything after the T column: the conversion to constant e
      (energy column times 1/c_v, then the species corrections), the
      optional energy scaling, the boost and the clearing of the energy
      row, each done in place. */
  method ConvertAndFinish(jac: array2<real>, e: int, th: Thermo, p: Params, eScale: real, ghost R: Matrix)
    modifies jac
    requires Holds(jac, R) && 0 <= e < |R| && th.cv != 0.0 && |th.dedX| == e
    requires p.scaleSystem ==> eScale != 0.0
    ensures Holds(jac, Finished(Converted(R, e, th), e, p, eScale))
  {
    ghost var M := R;
    MultiplyColumn(jac, e, 1.0 / th.cv, M);
    M := ColumnTimes(M, e, 1.0 / th.cv);
    CorrectSpecies(jac, e, th.dedX, M);
    M := SpeciesCorrected(M, e, th.dedX);

    if p.scaleSystem {
      DivideRow(jac, e, eScale, M);
      M := RowOver(M, e, eScale);
      MultiplyColumn(jac, e, eScale, M);
      M := ColumnTimes(M, e, eScale);
    }

    if p.reactBoost > 0.0 {
      MultiplyAll(jac, p.reactBoost, M);
      M := Times(M, p.reactBoost);
    }

    if !p.integrateEnergy {
      ClearRow(jac, e, M);
      M := RowZeroed(M, e);
    }
  }

  /** The T column: the EOS on the perturbed copy, the RHS there, and
      the difference quotients in the last column, after which jac holds
      the raw matrix. */
  method TempColumnFill(net: Network, p: Params, sqrt: real -> real, r0: real, state: BurnState,
                        ydotm: seq<real>, delp: BurnState, dy: real, jac: array2<real>)
    modifies jac
    requires NetworkOk(net) && ParamsOk(p) && SqrtFn(sqrt) && r0 > 0.0 && |state.xn| == net.numSpec
    requires jac.Length0 == jac.Length1 == net.numSpec + 1
    requires ydotm == Ydot(net, state)
    requires dy == Increment(sqrt, r0, p.rtolEnuc, p.atolEnuc, state.T) && dy > 0.0
    requires delp == state.(T := state.T + dy)
    requires forall a, b :: 0 <= a < jac.Length0 && 0 <= b < net.numSpec ==>
               jac[a, b] == SpeciesColumn(net, p, sqrt, r0, state, b)[a]
    ensures Holds(jac, Raw(net, p, sqrt, r0, state))
  {
    var delpEos := net.eosRT(delp);
    var ydotp := RhsInX(net, delpEos);
    FillColumn(jac, net.numSpec, ydotp, ydotm, dy);
    RawHolds(net, p, sqrt, r0, state, jac, dy, ydotp);
  }

  /** fac and r0: r0 = 1000 |h| U int_neqs fac, replaced by 1 when it
      comes out zero. */
  method StepScale(net: Network, p: Params, sqrt: real -> real, h: real, s: BurnState, ydotm: seq<real>)
    returns (r0: real)
    requires NetworkOk(net) && ParamsOk(p) && SqrtFn(sqrt) && |s.xn| == net.numSpec
    requires ydotm == Ydot(net, s)
    ensures r0 == R0(net, p, sqrt, h, s) && r0 > 0.0
  {
    var fac := Fac(net, p, sqrt, s, ydotm);
    r0 := 1000.0 * Abs(h) * Epsilon * (net.numSpec + 1) as real * fac;
    if r0 == 0.0 {
      r0 := 1.0;
    }
    R0Positive(net, p, sqrt, h, s);
  }

  /** numerical_jac: fill jac with d(ydot)/dy at `state`.  `h` is
      jac_info.h and `sqrt` stands for std::sqrt. */
  method NumericalJac(net: Network, p: Params, sqrt: real -> real, h: real,
                      state: BurnState, jac: array2<real>)
    modifies jac
    requires NetworkOk(net) && ParamsOk(p) && SqrtFn(sqrt) && |state.xn| == net.numSpec
    requires jac.Length0 == jac.Length1 == net.numSpec + 1
    requires Guarded(net, p, sqrt, h, state) || ThermoOk(net, p, state)
    ensures Holds(jac, Jacobian(net, p, sqrt, h, state))
  {
    var e := net.numSpec;
    var delp := state;

    var ydotm := RhsInX(net, state);
    var r0 := StepScale(net, p, sqrt, h, state, ydotm);

    delp := SpeciesColumns(net, p, sqrt, r0, ydotm, delp, jac);

    var dy := Step(sqrt, r0, p.rtolEnuc, p.atolEnuc, state.T);
    delp := delp.(T := delp.T + dy);

    if delp.T <= p.minTemp || delp.T >= p.maxTemp {
      JacobianIs(net, p, sqrt, h, state, r0);
      ZeroAll(jac, Contents(jac));
      return;
    }

    TempColumnFill(net, p, sqrt, r0, state, ydotm, delp, dy, jac);
    JacobianIs(net, p, sqrt, h, state, r0);
    ConvertAndFinish(jac, e, net.thermo(state), p, state.eScale, Raw(net, p, sqrt, r0, state));
  }
}
