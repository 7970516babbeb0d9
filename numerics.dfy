/** Scalar helpers shared by the table interpolator, the Jacobian builder
    and the step estimator: absolute value, min/max, AMReX-style clamps,
    C++ integer truncation, and the abstract square root.  All arithmetic
    is exact (`real`); floating-point rounding is not modelled. */
module Numerics {

  /** Machine epsilon of IEEE double precision, treated as an exact
      positive constant (std::numeric_limits<double>::epsilon()). */
  const Epsilon: real := 0.0000000000000002220446049250313080847263336181640625

  function Abs(x: real): (r: real)
    ensures r >= 0.0 && (r == x || r == -x)
  {
    if x < 0.0 then -x else x
  }

  function Max(a: real, b: real): (r: real)
    ensures r >= a && r >= b && (r == a || r == b)
  {
    if a < b then b else a
  }

  function Min(a: real, b: real): (r: real)
    ensures r <= a && r <= b && (r == a || r == b)
  {
    if b < a then b else a
  }

  /** amrex::Clamp on reals: `(v < lo) ? lo : (hi < v) ? hi : v`. */
  function ClampReal(v: real, lo: real, hi: real): (r: real)
    requires lo <= hi
    ensures lo <= r <= hi
    ensures lo <= v <= hi ==> r == v
    ensures v < lo ==> r == lo
    ensures hi < v ==> r == hi
  {
    if v < lo then lo else if hi < v then hi else v
  }

  /** amrex::Clamp on ints. */
  function ClampInt(v: int, lo: int, hi: int): (r: int)
    requires lo <= hi
    ensures lo <= r <= hi
    ensures lo <= v <= hi ==> r == v
    ensures v < lo ==> r == lo
    ensures hi < v ==> r == hi
  {
    if v < lo then lo else if hi < v then hi else v
  }

  /** static_cast<int> of a real: truncation toward zero, not floor. */
  function Trunc(x: real): (r: int)
    ensures x >= 0.0 ==> 0 <= r && r as real <= x < r as real + 1.0
    ensures x < 0.0 ==> r <= 0 && r as real - 1.0 < x <= r as real
  {
    if x >= 0.0 then x.Floor else -((-x).Floor)
  }

  /** Dividing by a non-zero number and multiplying back is the identity,
      and a product with a non-zero factor determines the other factor. */
  lemma DivideOut(x: real, k: real, r: real)
    requires k != 0.0
    ensures r == x / k <==> r * k == x
  {
    if r * k == x {
      assert r == (r * k) / k;
    }
  }

  /** The product of two positive numbers is positive. */
  lemma ProductPositive(a: real, b: real)
    requires a > 0.0 && b > 0.0
    ensures a * b > 0.0
  {
  }

  /** Two four-element sequences that agree at every index are equal. */
  lemma SameFour(s: seq<real>, t: seq<real>)
    requires |s| == 4 && |t| == 4
    requires s[0] == t[0] && s[1] == t[1] && s[2] == t[2] && s[3] == t[3]
    ensures s == t
  {
    forall k | 0 <= k < 4
      ensures s[k] == t[k]
    {
      if k == 0 {} else if k == 1 {} else if k == 2 {} else {}
    }
  }

  /** `r` is the non-negative square root of `x`. */
  predicate IsSqrt(x: real, r: real)
  {
    r >= 0.0 && r * r == x
  }

  /** `sqrt` behaves as std::sqrt does on exact reals for every
      non-negative argument; nothing is said about negative ones. */
  ghost predicate SqrtFn(sqrt: real -> real)
  {
    forall x :: 0.0 <= x ==> IsSqrt(x, sqrt(x))
  }

  /** A positive number has a positive square root. */
  lemma SqrtPositive(sqrt: real -> real, x: real)
    requires SqrtFn(sqrt)
    requires x > 0.0
    ensures sqrt(x) > 0.0
  {
    assert IsSqrt(x, sqrt(x));
  }
}
