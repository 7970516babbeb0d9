/** initial_react_dt from integration/utils/initial_timestep.H: VODE's
    estimate of a first step size.  Starting from sqrt(hL hU), up to four
    passes probe the RHS at y_old + h ydot, estimate the second
    derivative, and move h towards sqrt(2 / |y''|); the result is h
    clamped to [hL, hU] and capped by ode_max_dt.  int_state.y is
    overwritten with each trial point and restored on exit.  Indices are
    0-based: component n of the source is n-1 here, and net_ienuc is
    index NumSpec. */
module InitialTimestep {
  import opened Numerics

  /** The tolerances int_state carries. */
  datatype Tolerances = Tolerances(rtolSpec: real, atolSpec: real, rtolEnuc: real, atolEnuc: real)

  /** The integrator state: the solution vector y, which the estimator
      overwrites in place, and the current time, target time and
      tolerances, which it only reads. */
  class IntState {
    var y: array<real>
    const t: real
    const tout: real
    const tol: Tolerances

    constructor (y0: array<real>, t0: real, tout0: real, tol0: Tolerances)
      ensures y == y0 && t == t0 && tout == tout0 && tol == tol0
    {
      y := y0;
      t := t0;
      tout := tout0;
      tol := tol0;
    }
  }

  /** rhs(t, burn_state, int_state, ydot) gives one component per
      integrated equation, NumSpec + 1 in all. */
  ghost predicate RhsOk(rhs: (real, seq<real>) -> seq<real>, numSpec: nat)
  {
    forall t, y :: |rhs(t, y)| == numSpec + 1
  }

  /** The RHS at one point has NumSpec + 1 components. */
  lemma RhsLength(rhs: (real, seq<real>) -> seq<real>, numSpec: nat, t: real, y: seq<real>)
    requires RhsOk(rhs, numSpec)
    ensures |rhs(t, y)| == numSpec + 1
  {
  }

  // ---------------------------------------------------------------------
  // Bounds

  /** hL = 100 U tout. */
  function LowerBound(tout: real): real
  {
    100.0 * Epsilon * tout
  }

  /** hU = 0.1 tout. */
  function UpperBound(tout: real): real
  {
    0.1 * tout
  }

  /** For a positive tout, 0 < hL <= hU. */
  lemma BoundsOrdered(tout: real)
    requires tout > 0.0
    ensures 0.0 < LowerBound(tout) <= UpperBound(tout)
  {
  }

  /** The first guess sqrt(hL hU). */
  function FirstGuess(sqrt: real -> real, tout: real): real
  {
    sqrt(LowerBound(tout) * UpperBound(tout))
  }

  /** The first guess is positive. */
  lemma FirstGuessPositive(sqrt: real -> real, tout: real)
    requires SqrtFn(sqrt) && tout > 0.0
    ensures FirstGuess(sqrt, tout) > 0.0
  {
    BoundsOrdered(tout);
    ProductPositive(LowerBound(tout), UpperBound(tout));
    SqrtPositive(sqrt, LowerBound(tout) * UpperBound(tout));
  }

  // ---------------------------------------------------------------------
  // One pass

  /** The error weights, computed from the saved y_old: rtol_spec |y| +
      atol_spec for the species, rtol_enuc |y| + atol_enuc for the
      energy. */
  function ErrorWeights(tol: Tolerances, yOld: seq<real>, numSpec: nat): (r: seq<real>)
    ensures |r| == |yOld|
  {
    seq(|yOld|, i requires 0 <= i < |yOld| =>
      if i < numSpec then tol.rtolSpec * Abs(yOld[i]) + tol.atolSpec
      else tol.rtolEnuc * Abs(yOld[i]) + tol.atolEnuc)
  }

  /** The trial point y_old + h ydot. */
  function TrialPoint(yOld: seq<real>, ydot: seq<real>, h: real): (r: seq<real>)
    requires |ydot| == |yOld|
    ensures |r| == |yOld|
  {
    seq(|yOld|, i requires 0 <= i < |yOld| => yOld[i] + h * ydot[i])
  }

  /** The finite-difference second derivative (ydot_temp - ydot) / h. */
  function SecondDerivative(ydotTemp: seq<real>, ydot: seq<real>, h: real): (r: seq<real>)
    requires |ydotTemp| == |ydot| && h != 0.0
    ensures |r| == |ydot|
    ensures forall i :: 0 <= i < |r| ==> r[i] * h == ydotTemp[i] - ydot[i]
  {
    seq(|ydot|, i requires 0 <= i < |ydot| => (ydotTemp[i] - ydot[i]) / h)
  }

  /** The sum over the first k components of (ddydtt_i ewt_i)^2. */
  function WeightedSquares(dd: seq<real>, ewt: seq<real>, k: nat): (r: real)
    requires k <= |dd| && k <= |ewt|
    ensures r >= 0.0
  {
    if k == 0 then 0.0
    else
      var x := dd[k - 1] * ewt[k - 1];
      WeightedSquares(dd, ewt, k - 1) + x * x
  }

  /** yddnorm: the root mean square of the weighted second derivative. */
  function YddNorm(sqrt: real -> real, dd: seq<real>, ewt: seq<real>): real
    requires |dd| == |ewt| > 0
  {
    sqrt(WeightedSquares(dd, ewt, |dd|) / |dd| as real)
  }

  /** The update of h: sqrt(2 / yddnorm) when yddnorm hU^2 > 2, and the
      geometric mean sqrt(h hU) otherwise. */
  function NextStep(sqrt: real -> real, h: real, yddnorm: real, hU: real): real
  {
    if yddnorm * hU * hU > 2.0 then sqrt(2.0 / yddnorm) else sqrt(h * hU)
  }

  /** From a positive h and a positive hU the update stays positive. */
  lemma NextStepPositive(sqrt: real -> real, h: real, yddnorm: real, hU: real)
    requires SqrtFn(sqrt) && h > 0.0 && hU > 0.0
    ensures NextStep(sqrt, h, yddnorm, hU) > 0.0
  {
    if yddnorm * hU * hU > 2.0 {
      ProductPositive(hU, hU);
      SqrtPositive(sqrt, 2.0 / yddnorm);
    } else {
      ProductPositive(h, hU);
      SqrtPositive(sqrt, h * hU);
    }
  }

  /** The h that one pass computes from h. */
  ghost function PassStep(tol: Tolerances, t: real, rhs: (real, seq<real>) -> seq<real>, sqrt: real -> real,
                          numSpec: nat, yOld: seq<real>, ydot: seq<real>, hU: real, h: real): real
    requires RhsOk(rhs, numSpec) && |yOld| == |ydot| == numSpec + 1 && h != 0.0
  {
    var ydotTemp := rhs(t, TrialPoint(yOld, ydot, h));
    NextStep(sqrt, h, YddNorm(sqrt, SecondDerivative(ydotTemp, ydot, h), ErrorWeights(tol, yOld, numSpec)), hU)
  }

  /** `step` is one pass: wherever h != 0 it is defined and gives the h
      that a pass from h computes. */
  ghost predicate IsPass(step: real --> real, tol: Tolerances, t: real, rhs: (real, seq<real>) -> seq<real>,
                         sqrt: real -> real, numSpec: nat, yOld: seq<real>, ydot: seq<real>, hU: real)
    requires RhsOk(rhs, numSpec) && |yOld| == |ydot| == numSpec + 1
  {
    forall h {:trigger PassStep(tol, t, rhs, sqrt, numSpec, yOld, ydot, hU, h)} :: h != 0.0 ==>
      step.requires(h) && step(h) == PassStep(tol, t, rhs, sqrt, numSpec, yOld, ydot, hU, h)
  }

  /** A step function that is defined on, and maps into, the positive
      reals. */
  ghost predicate KeepsPositive(step: real --> real)
  {
    forall h :: h > 0.0 ==> step.requires(h) && step(h) > 0.0
  }

  /** A pass from a positive h gives a positive h. */
  lemma PassKeepsPositive(step: real --> real, tol: Tolerances, t: real, rhs: (real, seq<real>) -> seq<real>,
                          sqrt: real -> real, numSpec: nat, yOld: seq<real>, ydot: seq<real>, hU: real)
    requires RhsOk(rhs, numSpec) && SqrtFn(sqrt) && |yOld| == |ydot| == numSpec + 1 && hU > 0.0
    requires IsPass(step, tol, t, rhs, sqrt, numSpec, yOld, ydot, hU)
    ensures KeepsPositive(step)
  {
    forall h | h > 0.0
      ensures step.requires(h) && step(h) > 0.0
    {
      var h' := PassStep(tol, t, rhs, sqrt, numSpec, yOld, ydot, hU, h);
      assert step(h) == h';
      NextStepPositive(sqrt, h, YddNorm(sqrt, SecondDerivative(rhs(t, TrialPoint(yOld, ydot, h)), ydot, h),
                                        ErrorWeights(tol, yOld, numSpec)), hU);
    }
  }

  /** The early exit: the previous h lies strictly between h/2 and 2h. */
  predicate Settled(hOld: real, h: real)
  {
    hOld < 2.0 * h && hOld > 0.5 * h
  }

  /** h after at most `passes` passes of `step` from h, stopping after the
      first pass that settles. */
  ghost function Iterate(step: real --> real, h: real, passes: nat): real
    requires KeepsPositive(step) && h > 0.0
    decreases passes
  {
    if passes == 0 then h
    else
      var h' := step(h);
      if Settled(h, h') then h' else Iterate(step, h', passes - 1)
  }

  /** h stays positive through every pass. */
  lemma {:induction false} IteratePositive(step: real --> real, h: real, passes: nat)
    requires KeepsPositive(step) && h > 0.0
    ensures Iterate(step, h, passes) > 0.0
    decreases passes
  {
    if passes > 0 && !Settled(h, step(h)) {
      IteratePositive(step, step(h), passes - 1);
    }
  }

  /** The result is the h of some pass: h itself, or step(h) when the
      first pass settles or no pass is left after it. */
  lemma IterateSettles(step: real --> real, h: real, passes: nat)
    requires KeepsPositive(step) && h > 0.0 && passes > 0
    ensures Settled(h, step(h)) || passes == 1 ==> Iterate(step, h, passes) == step(h)
  {
  }

  /** How many passes run: up to `passes`, stopping after the first that
      settles. */
  ghost function PassCount(step: real --> real, h: real, passes: nat): nat
    requires KeepsPositive(step) && h > 0.0
    decreases passes
  {
    if passes == 0 then 0
    else
      var h' := step(h);
      if Settled(h, h') then 1 else 1 + PassCount(step, h', passes - 1)
  }

  /** At least one and at most `passes` passes run. */
  lemma {:induction false} PassCountBounded(step: real --> real, h: real, passes: nat)
    requires KeepsPositive(step) && h > 0.0 && passes > 0
    ensures 1 <= PassCount(step, h, passes) <= passes
    decreases passes
  {
    if !Settled(h, step(h)) && passes > 1 {
      PassCountBounded(step, step(h), passes - 1);
    }
  }

  // ---------------------------------------------------------------------
  // The result

  /** dt = min(Clamp(h, hL, hU), ode_max_dt).  The h / 2 stored into dt
      before the clamp is overwritten and plays no part. */
  function FinalDt(h: real, hL: real, hU: real, odeMaxDt: real): real
    requires hL <= hU
  {
    Min(ClampReal(h, hL, hU), odeMaxDt)
  }

  /** dt never exceeds hU or ode_max_dt, is at least hL whenever
      ode_max_dt is, and is h itself when h lies in [hL, hU] below
      ode_max_dt. */
  lemma FinalDtBounds(h: real, hL: real, hU: real, odeMaxDt: real)
    requires hL <= hU
    ensures FinalDt(h, hL, hU, odeMaxDt) <= hU && FinalDt(h, hL, hU, odeMaxDt) <= odeMaxDt
    ensures odeMaxDt >= hL ==> FinalDt(h, hL, hU, odeMaxDt) >= hL
    ensures hL <= h <= hU && h <= odeMaxDt ==> FinalDt(h, hL, hU, odeMaxDt) == h
  {
  }

  /** The pass function of initial_react_dt for the state y0. */
  ghost function Passes(tol: Tolerances, t: real, tout: real, rhs: (real, seq<real>) -> seq<real>,
                        sqrt: real -> real, numSpec: nat, y0: seq<real>, ydot: seq<real>): (step: real --> real)
    requires RhsOk(rhs, numSpec) && SqrtFn(sqrt) && |y0| == |ydot| == numSpec + 1 && tout > 0.0
    ensures IsPass(step, tol, t, rhs, sqrt, numSpec, y0, ydot, UpperBound(tout))
    ensures KeepsPositive(step)
  {
    var hU := UpperBound(tout);
    var pass := h requires h != 0.0 => PassStep(tol, t, rhs, sqrt, numSpec, y0, ydot, hU, h);
    assert IsPass(pass, tol, t, rhs, sqrt, numSpec, y0, ydot, hU);
    var step :| IsPass(step, tol, t, rhs, sqrt, numSpec, y0, ydot, hU);
    BoundsOrdered(tout);
    PassKeepsPositive(step, tol, t, rhs, sqrt, numSpec, y0, ydot, hU);
    step
  }

  /** What initial_react_dt returns for the state y0 on entry. */
  ghost function InitialDt(tol: Tolerances, t: real, tout: real, rhs: (real, seq<real>) -> seq<real>,
                           sqrt: real -> real, numSpec: nat, y0: seq<real>, ydot: seq<real>, odeMaxDt: real): real
    requires RhsOk(rhs, numSpec) && SqrtFn(sqrt) && |y0| == |ydot| == numSpec + 1 && tout > 0.0
  {
    BoundsOrdered(tout);
    FirstGuessPositive(sqrt, tout);
    var h := Iterate(Passes(tol, t, tout, rhs, sqrt, numSpec, y0, ydot), FirstGuess(sqrt, tout), 4);
    FinalDt(h, LowerBound(tout), UpperBound(tout), odeMaxDt)
  }

  /** The estimate lies in (0, hU], never exceeds ode_max_dt, and is at
      least hL whenever ode_max_dt is. */
  lemma InitialDtBounds(tol: Tolerances, t: real, tout: real, rhs: (real, seq<real>) -> seq<real>,
                        sqrt: real -> real, numSpec: nat, y0: seq<real>, ydot: seq<real>, odeMaxDt: real)
    requires RhsOk(rhs, numSpec) && SqrtFn(sqrt) && |y0| == |ydot| == numSpec + 1 && tout > 0.0
    ensures var dt := InitialDt(tol, t, tout, rhs, sqrt, numSpec, y0, ydot, odeMaxDt);
            dt <= UpperBound(tout) && dt <= odeMaxDt &&
            (odeMaxDt >= LowerBound(tout) ==> dt >= LowerBound(tout)) &&
            (odeMaxDt > 0.0 ==> dt > 0.0)
  {
    BoundsOrdered(tout);
    FirstGuessPositive(sqrt, tout);
    var h := Iterate(Passes(tol, t, tout, rhs, sqrt, numSpec, y0, ydot), FirstGuess(sqrt, tout), 4);
    FinalDtBounds(h, LowerBound(tout), UpperBound(tout), odeMaxDt);
  }

  /** How many passes initial_react_dt makes for the state y0. */
  ghost function InitialPasses(tol: Tolerances, t: real, tout: real, rhs: (real, seq<real>) -> seq<real>,
                               sqrt: real -> real, numSpec: nat, y0: seq<real>, ydot: seq<real>): nat
    requires RhsOk(rhs, numSpec) && SqrtFn(sqrt) && |y0| == |ydot| == numSpec + 1 && tout > 0.0
  {
    FirstGuessPositive(sqrt, tout);
    PassCount(Passes(tol, t, tout, rhs, sqrt, numSpec, y0, ydot), FirstGuess(sqrt, tout), 4)
  }

  /** The loop makes at least one and at most four passes. */
  lemma InitialPassesBounded(tol: Tolerances, t: real, tout: real, rhs: (real, seq<real>) -> seq<real>,
                             sqrt: real -> real, numSpec: nat, y0: seq<real>, ydot: seq<real>)
    requires RhsOk(rhs, numSpec) && SqrtFn(sqrt) && |y0| == |ydot| == numSpec + 1 && tout > 0.0
    ensures 1 <= InitialPasses(tol, t, tout, rhs, sqrt, numSpec, y0, ydot) <= 4
  {
    FirstGuessPositive(sqrt, tout);
    PassCountBounded(Passes(tol, t, tout, rhs, sqrt, numSpec, y0, ydot), FirstGuess(sqrt, tout), 4);
  }

  // ---------------------------------------------------------------------
  // The loops of initial_react_dt

  /** Copy src into dst component by component. */
  method CopyInto(dst: array<real>, src: array<real>)
    modifies dst
    requires dst.Length == src.Length && dst != src
    ensures dst[..] == src[..]
  {
    for n := 0 to dst.Length
      invariant dst[..n] == src[..n]
    {
      dst[n] := src[n];
    }
  }

  /** The error-weight loops: ewt from y_old. */
  method FillWeights(ewt: array<real>, yOld: array<real>, tol: Tolerances, numSpec: nat)
    modifies ewt
    requires ewt.Length == yOld.Length == numSpec + 1 && ewt != yOld
    ensures ewt[..] == ErrorWeights(tol, yOld[..], numSpec)
  {
    ghost var w := ErrorWeights(tol, yOld[..], numSpec);
    for ii := 0 to numSpec
      invariant forall k :: 0 <= k < ii ==> ewt[k] == w[k]
    {
      ewt[ii] := tol.rtolSpec * Abs(yOld[ii]) + tol.atolSpec;
    }
    ewt[numSpec] := tol.rtolEnuc * Abs(yOld[numSpec]) + tol.atolEnuc;
    assert forall k :: 0 <= k < ewt.Length ==> ewt[k] == w[k];
  }

  /** The trial-point loop: y = y_old + h ydot, written into int_state.y. */
  method WriteTrial(y: array<real>, yOld: array<real>, ydot: seq<real>, h: real)
    modifies y
    requires y.Length == yOld.Length == |ydot| && y != yOld
    ensures y[..] == TrialPoint(yOld[..], ydot, h)
  {
    ghost var trial := TrialPoint(yOld[..], ydot, h);
    for ii := 0 to y.Length
      invariant forall k :: 0 <= k < ii ==> y[k] == trial[k]
    {
      y[ii] := yOld[ii] + h * ydot[ii];
    }
    assert forall k :: 0 <= k < y.Length ==> y[k] == trial[k];
  }

  /** The difference loop: ddydtt = (ydot_temp - ydot) / h. */
  method FillDifferences(ddydtt: array<real>, ydotTemp: seq<real>, ydot: seq<real>, h: real)
    modifies ddydtt
    requires ddydtt.Length == |ydotTemp| == |ydot| && h != 0.0
    ensures ddydtt[..] == SecondDerivative(ydotTemp, ydot, h)
  {
    for ii := 0 to ddydtt.Length
      invariant forall k :: 0 <= k < ii ==> ddydtt[k] == (ydotTemp[k] - ydot[k]) / h
    {
      ddydtt[ii] := (ydotTemp[ii] - ydot[ii]) / h;
    }
  }

  /** The accumulation of yddnorm and its root mean square. */
  method Norm(sqrt: real -> real, ddydtt: array<real>, ewt: array<real>) returns (yddnorm: real)
    requires ddydtt.Length == ewt.Length > 0
    ensures yddnorm == YddNorm(sqrt, ddydtt[..], ewt[..])
  {
    yddnorm := 0.0;
    for ii := 0 to ddydtt.Length
      invariant yddnorm == WeightedSquares(ddydtt[..], ewt[..], ii)
    {
      var x := ddydtt[ii] * ewt[ii];
      yddnorm := yddnorm + x * x;
    }
    yddnorm := sqrt(yddnorm / ddydtt.Length as real);
  }

  /** One pass of the loop: weights from y_old, the trial point into
      int_state.y, the RHS there, the second derivative, its norm and
      the new h. */
  method Pass(st: IntState, yOld: array<real>, ewt: array<real>, ddydtt: array<real>, ydot: seq<real>,
              rhs: (real, seq<real>) -> seq<real>, sqrt: real -> real, numSpec: nat, hU: real, h: real)
    returns (hNew: real)
    modifies st.y, ewt, ddydtt
    requires RhsOk(rhs, numSpec) && h != 0.0
    requires st.y.Length == yOld.Length == ewt.Length == ddydtt.Length == |ydot| == numSpec + 1
    requires st.y != yOld && st.y != ewt && st.y != ddydtt && yOld != ewt && yOld != ddydtt && ewt != ddydtt
    ensures st.y[..] == TrialPoint(yOld[..], ydot, h)
    ensures hNew == PassStep(st.tol, st.t, rhs, sqrt, numSpec, yOld[..], ydot, hU, h)
  {
    ghost var y0 := yOld[..];
    FillWeights(ewt, yOld, st.tol, numSpec);
    WriteTrial(st.y, yOld, ydot, h);
    var ydotTemp := rhs(st.t, st.y[..]);
    RhsLength(rhs, numSpec, st.t, st.y[..]);
    assert ydotTemp == rhs(st.t, TrialPoint(y0, ydot, h));
    FillDifferences(ddydtt, ydotTemp, ydot, h);
    var yddnorm := Norm(sqrt, ddydtt, ewt);
    assert yddnorm == YddNorm(sqrt, SecondDerivative(ydotTemp, ydot, h), ErrorWeights(st.tol, y0, numSpec));
    hNew := Update(sqrt, h, yddnorm, hU);
  }

  /** The two-branch update of h. */
  method Update(sqrt: real -> real, h: real, yddnorm: real, hU: real) returns (hNew: real)
    ensures hNew == NextStep(sqrt, h, yddnorm, hU)
  {
    if yddnorm * hU * hU > 2.0 {
      hNew := sqrt(2.0 / yddnorm);
    } else {
      hNew := sqrt(h * hU);
    }
  }

  /** A pass of the loop as an application of the pass function. */
  method StepOnce(st: IntState, yOld: array<real>, ewt: array<real>, ddydtt: array<real>, ydot: seq<real>,
                  rhs: (real, seq<real>) -> seq<real>, sqrt: real -> real, numSpec: nat, hU: real, h: real,
                  ghost step: real --> real)
    returns (hNew: real)
    modifies st.y, ewt, ddydtt
    requires RhsOk(rhs, numSpec) && h != 0.0
    requires st.y.Length == yOld.Length == ewt.Length == ddydtt.Length == |ydot| == numSpec + 1
    requires st.y != yOld && st.y != ewt && st.y != ddydtt && yOld != ewt && yOld != ddydtt && ewt != ddydtt
    requires IsPass(step, st.tol, st.t, rhs, sqrt, numSpec, yOld[..], ydot, hU)
    ensures step.requires(h) && hNew == step(h)
  {
    hNew := Pass(st, yOld, ewt, ddydtt, ydot, rhs, sqrt, numSpec, hU, h);
  }

  /** hL, hU and the first guess sqrt(hL hU). */
  method Bounds(sqrt: real -> real, tout: real) returns (hL: real, hU: real, h: real)
    requires SqrtFn(sqrt) && tout > 0.0
    ensures hL == LowerBound(tout) && hU == UpperBound(tout) && h == FirstGuess(sqrt, tout)
    ensures 0.0 < hL <= hU && h > 0.0
  {
    hL := 100.0 * Epsilon * tout;
    hU := 0.1 * tout;
    h := sqrt(hL * hU);
    BoundsOrdered(tout);
    FirstGuessPositive(sqrt, tout);
  }

  /** The result: h / 2 is stored and then overwritten by the clamp of h
      to [hL, hU], which is capped by ode_max_dt. */
  method Finish(h: real, hL: real, hU: real, odeMaxDt: real) returns (dt: real)
    requires hL <= hU
    ensures dt == FinalDt(h, hL, hU, odeMaxDt)
  {
    dt := h / 2.0;
    dt := ClampReal(h, hL, hU);
    dt := Min(dt, odeMaxDt);
  }

  /** initial_react_dt: estimate the first step for the state in
      int_state.y with derivative ydot.  `sqrt` stands for std::sqrt and
      the RHS for rhs(t, burn_state, int_state, .). */
  method InitialReactDt(st: IntState, ydot: seq<real>, rhs: (real, seq<real>) -> seq<real>,
                        sqrt: real -> real, numSpec: nat, odeMaxDt: real)
    returns (dt: real, ghost passes: nat)
    modifies st.y
    requires RhsOk(rhs, numSpec) && SqrtFn(sqrt)
    requires st.y.Length == |ydot| == numSpec + 1 && st.tout > 0.0
    ensures st.y[..] == old(st.y[..])
    ensures dt == InitialDt(st.tol, st.t, st.tout, rhs, sqrt, numSpec, old(st.y[..]), ydot, odeMaxDt)
    ensures passes == InitialPasses(st.tol, st.t, st.tout, rhs, sqrt, numSpec, old(st.y[..]), ydot)
  {
    var hL, hU, h := Bounds(sqrt, st.tout);
    var hOld := 10.0 * h;

    var ewt := new real[numSpec + 1];
    var ddydtt := new real[numSpec + 1];
    var yOld := new real[numSpec + 1];
    CopyInto(yOld, st.y);
    ghost var y0 := yOld[..];
    ghost var step := Passes(st.tol, st.t, st.tout, rhs, sqrt, numSpec, y0, ydot);
    ghost var final := Iterate(step, h, 4);
    ghost var count := PassCount(step, h, 4);
    passes := 0;
    ghost var left := 4;

    for n := 1 to 5
      invariant yOld[..] == y0
      invariant h > 0.0 && left == 5 - n && passes == n - 1
      invariant Iterate(step, h, left) == final
      invariant passes + PassCount(step, h, left) == count
    {
      hOld := h;
      h := StepOnce(st, yOld, ewt, ddydtt, ydot, rhs, sqrt, numSpec, hU, h, step);
      passes := passes + 1;
      left := left - 1;
      if hOld < 2.0 * h && hOld > 0.5 * h {
        break;
      }
    }

    dt := Finish(h, hL, hU, odeMaxDt);
    CopyInto(st.y, yOld);
  }
}
