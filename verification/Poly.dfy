// Polynomials of degree at most seven, rewritten in place.
module Polynomials {
  import opened Basics
  import opened Bezier

  const MAX_COEFFS: nat := 8
  const FLT_EPSILON: real := 1.0 / 8388608.0

  /** The library's table of factorials. */
  const FACS: seq<int> := [1, 1, 2, 6, 24, 120, 720, 5040]

  lemma FacsCorrect(i: nat)
    requires i < |FACS|
    ensures |FACS| == MAX_COEFFS && FACS[i] as real == FacReal(i) && FacReal(i) >= 1.0
  {
    assert Fac(4) == 24;
    assert Fac(5) == 120;
    assert Fac(6) == 720;
    assert Fac(7) == 5040;
    if i == 0 {} else if i == 1 {} else if i == 2 {} else if i == 3 {}
  }

  /** The control points that matter: no more than the polynomial can hold coefficients. */
  function Used(xs: seq<real>): seq<real> { if |xs| < MAX_COEFFS then xs else xs[..MAX_COEFFS] }

  class Poly {
    const coeffs: array<real>
    var numCoeffs: nat

    ghost predicate Valid()
      reads this
    {
      coeffs.Length == MAX_COEFFS && numCoeffs <= MAX_COEFFS
    }

    ghost function Contents(): seq<real>
      requires Valid()
      reads this, coeffs
    {
      coeffs[..numCoeffs]
    }

    constructor ()
      ensures Valid() && fresh(coeffs) && Contents() == []
    {
      coeffs := new real[MAX_COEFFS](_ => 0.0);
      numCoeffs := 0;
    }

    method Clear()
      requires Valid()
      modifies coeffs
      ensures forall i :: 0 <= i < MAX_COEFFS ==> coeffs[i] == 0.0
    {
      forall i | 0 <= i < coeffs.Length {
        coeffs[i] := 0.0;
      }
    }

    /** The polynomial with these coefficients, as many as fit. */
    method Make(xs: seq<real>)
      requires Valid()
      modifies this, coeffs
      ensures Valid() && Contents() == Used(xs)
    {
      Clear();
      numCoeffs := if |xs| <= MAX_COEFFS then |xs| else MAX_COEFFS;
      forall i | 0 <= i < numCoeffs {
        coeffs[i] := xs[i];
      }
    }

    /** Struct assignment. */
    method CopyFrom(p: Poly)
      requires Valid() && p.Valid() && p.coeffs != coeffs
      modifies this, coeffs
      ensures Valid() && Contents() == old(p.Contents())
    {
      forall i | 0 <= i < coeffs.Length {
        coeffs[i] := p.coeffs[i];
      }
      numCoeffs := p.numCoeffs;
    }

    method MakeConstant(x: real)
      requires Valid()
      modifies this, coeffs
      ensures Valid() && Contents() == [x]
    {
      Clear();
      coeffs[0] := x;
      numCoeffs := 1;
    }

    method MakeZero()
      requires Valid()
      modifies this, coeffs
      ensures Valid() && Contents() == [0.0]
    {
      MakeConstant(0.0);
    }

    /** The straight line from x0 to x1; for a vanishing duration, their mean. */
    method MakeLinear(duration: real, x0: real, x1: real)
      requires Valid()
      modifies this, coeffs
      ensures Valid()
      ensures AbsReal(duration) >= FLT_EPSILON ==>
                forall t :: Eval(Contents(), t) == Curve([x0, x1], t / duration)
      ensures AbsReal(duration) >= FLT_EPSILON ==> Contents() == [x0, (x1 - x0) / duration]
      ensures AbsReal(duration) < FLT_EPSILON ==> Contents() == [(x0 + x1) / 2.0, 0.0]
    {
      Clear();
      numCoeffs := 2;
      if AbsReal(duration) >= FLT_EPSILON {
        coeffs[0] := x0;
        coeffs[1] := (x1 - x0) / duration;
        assert Contents() == [x0, (x1 - x0) / duration];
        forall t ensures Eval(Contents(), t) == Curve([x0, x1], t / duration) {
          LineIsCurve(duration, x0, x1, t);
        }
      } else {
        coeffs[0] := (x0 + x1) / 2.0;
      }
    }

    /** The Bezier curve of the control points, run through in the given duration. */
    method MakeBezier(duration: real, xs: seq<real>)
      requires Valid() && (|xs| >= 3 ==> duration != 0.0)
      modifies this, coeffs
      ensures Valid()
      ensures xs == [] ==> Contents() == [0.0]
      ensures |xs| == 1 ==> Contents() == [xs[0]]
      ensures |xs| == 2 && AbsReal(duration) < FLT_EPSILON ==> Contents() == [(xs[0] + xs[1]) / 2.0, 0.0]
      ensures xs != [] && duration != 0.0 && (|xs| == 2 ==> AbsReal(duration) >= FLT_EPSILON) ==>
                Contents() == BezierCoefs(Used(xs), duration)
                && forall t :: Eval(Contents(), t) == Curve(Used(xs), t / duration)
    {
      if |xs| == 0 {
        MakeZero();
      } else if |xs| == 1 {
        MakeConstant(xs[0]);
        BezierCoefsEvals(Used(xs), duration);
      } else if |xs| == 2 {
        MakeLinear(duration, xs[0], xs[1]);
        assert xs == [xs[0], xs[1]];
      } else {
        var n := (if |xs| < MAX_COEFFS then |xs| else MAX_COEFFS) - 1;
        ghost var ps := Used(xs);
        numCoeffs := n + 1;
        var j := 0;
        while j <= n
          invariant 0 <= j <= n + 1 && Valid() && numCoeffs == n + 1
          invariant forall k :: 0 <= k < j ==> coeffs[k] == Coef(ps, k)
        {
          hide Coef;
          var coeff := InnerSum(xs, j);
          coeffs[j] := coeff * FACS[n] as real / FACS[n - j] as real;
          StoredCoef(ps, n, j, coeff);
          j := j + 1;
        }
        assert Contents() == Coefs(ps);
        Stretch(duration);
        BezierCoefsEvals(ps, duration);
      }
    }

    /** The inner loop: an alternating sum with factorial weights. */
    method InnerSum(xs: seq<real>, j: nat) returns (coeff: real)
      requires j < |Used(xs)|
      ensures coeff == Terms(Used(xs), j, j + 1)
    {
      hide Term, Sign;
      coeff := 0.0;
      var sign := if j % 2 == 0 then 1 else -1;
      var i := 0;
      SignOf(j);
      while i <= j
        invariant 0 <= i <= j + 1 && sign as real == Sign(i + j)
        invariant coeff == Terms(Used(xs), j, i)
      {
        coeff := coeff + sign as real * xs[i] / FACS[i] as real / FACS[j - i] as real;
        OneTerm(xs[i], j, i, sign);
        i := i + 1;
        sign := -sign;
        SignFlips(i + j);
      }
    }

    /** Horner's rule, from the highest coefficient down. */
    method EvalAt(t: real) returns (result: real)
      requires Valid()
      ensures result == Eval(Contents(), t)
    {
      result := 0.0;
      var p: nat := numCoeffs;
      while p > 0
        invariant p <= numCoeffs <= coeffs.Length && result == Eval(coeffs[p..numCoeffs], t)
      {
        p := p - 1;
        assert coeffs[p..numCoeffs][1..] == coeffs[p + 1..numCoeffs];
        result := result * t + coeffs[p];
      }
      assert coeffs[0..numCoeffs] == Contents();
    }

    /** The derivative, in place; that of a constant is the constant zero. */
    method Differentiate()
      requires Valid()
      modifies this, coeffs
      ensures Valid()
      ensures Contents() == if |old(Contents())| > 1 then Deriv(old(Contents())) else [0.0]
    {
      hide Times;
      if numCoeffs > 1 {
        ghost var cs := Contents();
        var i := 1;
        while i < numCoeffs
          invariant 1 <= i <= numCoeffs == |cs| && Valid()
          invariant forall k :: 0 <= k < i - 1 ==> coeffs[k] == Times(k + 1, cs[k + 1])
          invariant forall k :: i - 1 <= k < numCoeffs ==> coeffs[k] == cs[k]
        {
          coeffs[i - 1] := Times(i, coeffs[i]);
          i := i + 1;
        }
        numCoeffs := numCoeffs - 1;
        coeffs[numCoeffs] := 0.0;
      } else {
        MakeZero();
      }
    }

    method Scale(factor: real)
      requires Valid()
      modifies coeffs
      ensures |Contents()| == |old(Contents())|
      ensures forall i :: 0 <= i < |Contents()| ==> Contents()[i] == Weigh(old(Contents())[i], factor)
    {
      hide Weigh;
      ghost var cs := Contents();
      var i := 0;
      while i < numCoeffs
        invariant 0 <= i <= numCoeffs
        invariant forall k :: 0 <= k < i ==> coeffs[k] == Weigh(cs[k], factor)
        invariant forall k :: i <= k < numCoeffs ==> coeffs[k] == cs[k]
      {
        coeffs[i] := Weigh(coeffs[i], factor);
        i := i + 1;
      }
    }

    /** Makes the polynomial run through [0, 1] in the given time. */
    method Stretch(duration: real)
      requires Valid() && duration != 0.0
      modifies coeffs
      ensures Contents() == Stretched(old(Contents()), 1.0 / duration, 1.0)
    {
      var factor := 1.0 / duration;
      var scale := factor;
      ghost var cs := Contents();
      hide Weigh, Stretched;
      var i := 1;
      if numCoeffs > 0 { StretchHead(cs, factor); }
      while i < numCoeffs
        invariant 1 <= i && (i <= numCoeffs || numCoeffs == 0)
        invariant forall k :: i <= k < numCoeffs ==> coeffs[k] == cs[k]
        invariant numCoeffs > 0 ==>
                    coeffs[..i] + Stretched(cs[i..], factor, scale) == Stretched(cs, factor, 1.0)
      {
        ghost var done := coeffs[..i];
        ghost var rest := Stretched(cs[i + 1..], factor, scale * factor);
        StretchNext(cs, i, factor, scale);
        coeffs[i] := Weigh(coeffs[i], scale);
        assert coeffs[..i + 1] == done + [Weigh(cs[i], scale)];
        assert done + ([Weigh(cs[i], scale)] + rest) == coeffs[..i + 1] + rest;
        scale := scale * factor;
        i := i + 1;
      }
      StretchNothing(cs, factor, scale);
      if numCoeffs > 0 {
        assert cs[i..] == [];
        assert coeffs[..i] + [] == coeffs[..i];
      }
    }
  }

  /** The coefficients that a Bezier curve of one to eight points gets. */
  function BezierCoefs(xs: seq<real>, duration: real): seq<real>
    requires 1 <= |xs| && duration != 0.0
  {
    if |xs| == 1 then [xs[0]]
    else if |xs| == 2 then [xs[0], (xs[1] - xs[0]) / duration]
    else Stretched(Coefs(xs), 1.0 / duration, 1.0)
  }

  /** They are those of the curve: at t they evaluate to its point at t / duration. */
  lemma BezierCoefsEval(xs: seq<real>, duration: real, t: real)
    requires 1 <= |xs| && duration != 0.0
    ensures Eval(BezierCoefs(xs, duration), t) == Curve(xs, t / duration)
  {
    if |xs| == 1 {
      assert [xs[0]][1..] == [] && t * 0.0 == 0.0;
    } else if |xs| == 2 {
      assert xs == [xs[0], xs[1]];
      LineIsCurve(duration, xs[0], xs[1], t);
    } else {
      StretchedCurve(xs, duration, t);
    }
  }

  lemma BezierCoefsEvals(xs: seq<real>, duration: real)
    requires 1 <= |xs|
    ensures duration != 0.0 ==>
              forall t :: Eval(BezierCoefs(xs, duration), t) == Curve(xs, t / duration)
  {
    if duration != 0.0 {
      forall t ensures Eval(BezierCoefs(xs, duration), t) == Curve(xs, t / duration) {
        BezierCoefsEval(xs, duration, t);
      }
    }
  }

  lemma LineIsCurve(duration: real, x0: real, x1: real, t: real)
    requires duration != 0.0
    ensures Eval([x0, (x1 - x0) / duration], t) == Curve([x0, x1], t / duration)
  {
    var s := (x1 - x0) / duration;
    assert [x0, s][1..] == [s] && [s][1..] == [];
    assert [x0, x1][..1] == [x0] && [x0, x1][1..] == [x1];
    assert Eval([s], t) == s + t * Eval([], t) == s;
    LineArithmetic(duration, x0, x1, t);
  }

  lemma LineArithmetic(d: real, x0: real, x1: real, t: real)
    requires d != 0.0
    ensures x0 + t * ((x1 - x0) / d) == Lerp(x0, x1, t / d)
  {
    var q := t / d;
    assert (t * ((x1 - x0) / d)) * d == t * (x1 - x0);
    assert (q * (x1 - x0)) * d == t * (x1 - x0);
  }

  lemma StretchedCurve(xs: seq<real>, duration: real, t: real)
    requires 1 <= |xs| && duration != 0.0
    ensures Eval(Stretched(Coefs(xs), 1.0 / duration, 1.0), t) == Curve(xs, t / duration)
  {
    hide Coefs, Curve;
    Reciprocal(duration, t);
    EvalStretched(Coefs(xs), 1.0 / duration, 1.0, t, t / duration);
    hide Eval;
    CoefsEvalToCurve(xs, t / duration);
  }

  lemma Reciprocal(d: real, t: real)
    requires d != 0.0
    ensures (1.0 / d) * t == t / d
  {
    assert ((1.0 / d) * t) * d == t;
  }

  lemma StretchNext(cs: seq<real>, i: nat, factor: real, scale: real)
    requires i < |cs|
    ensures Stretched(cs[i..], factor, scale)
            == [Weigh(cs[i], scale)] + Stretched(cs[i + 1..], factor, scale * factor)
  {
    assert cs[i..][0] == cs[i] && cs[i..][1..] == cs[i + 1..];
  }

  lemma StretchNothing(cs: seq<real>, factor: real, scale: real)
    ensures Stretched([], factor, scale) == []
    ensures cs == [] ==> Stretched(cs, factor, 1.0) == []
  {
  }

  lemma StretchHead(cs: seq<real>, factor: real)
    requires cs != []
    ensures cs[..1] + Stretched(cs[1..], factor, factor) == Stretched(cs, factor, 1.0)
  {
    assert cs[..1] == [Weigh(cs[0], 1.0)];
    assert 1.0 * factor == factor;
  }

  lemma StoredCoef(ps: seq<real>, n: nat, j: nat, coeff: real)
    requires 3 <= |ps| == n + 1 <= MAX_COEFFS && j <= n && coeff == Terms(ps, j, j + 1)
    ensures FACS[n - j] != 0 && coeff * FACS[n] as real / FACS[n - j] as real == Coef(ps, j)
  {
    hide Terms, FacReal;
    FacsCorrect(n);
    FacsCorrect(n - j);
  }

  lemma SignOf(j: nat)
    ensures Sign(j) == if j % 2 == 0 then 1.0 else -1.0
  {
  }

  lemma SignFlips(k: nat)
    requires k >= 1
    ensures Sign(k) == -Sign(k - 1)
  {
  }

  lemma OneTerm(x: real, j: nat, i: nat, sign: int)
    requires i <= j < MAX_COEFFS && sign as real == Sign(i + j)
    ensures FACS[i] != 0 && FACS[j - i] != 0
    ensures sign as real * x / FACS[i] as real / FACS[j - i] as real == Term(x, j, i)
  {
    hide Sign, FacReal;
    FacsCorrect(i);
    FacsCorrect(j - i);
  }
}
