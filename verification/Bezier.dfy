// Polynomials as coefficient sequences, Bezier curves as control points, and why the
// coefficients that the library computes describe the curve.
module Bezier {
  import opened Basics

  // ---- polynomials ----

  function Product(a: real, b: real): real { a * b }

  function Eval(cs: seq<real>, t: real): real {
    if cs == [] then 0.0 else cs[0] + Product(t, Eval(cs[1..], t))
  }

  function Add(a: seq<real>, b: seq<real>): (c: seq<real>)
    requires |a| == |b|
    ensures |c| == |a| && forall i :: 0 <= i < |a| ==> c[i] == a[i] + b[i]
  {
    seq(|a|, i requires 0 <= i < |a| => a[i] + b[i])
  }

  function Sub(a: seq<real>, b: seq<real>): (c: seq<real>)
    requires |a| == |b|
    ensures |c| == |a| && forall i :: 0 <= i < |a| ==> c[i] == a[i] - b[i]
  {
    seq(|a|, i requires 0 <= i < |a| => a[i] - b[i])
  }

  lemma {:induction false} EvalAdd(a: seq<real>, b: seq<real>, t: real)
    requires |a| == |b|
    ensures Eval(Add(a, b), t) == Eval(a, t) + Eval(b, t)
    ensures Eval(Sub(a, b), t) == Eval(a, t) - Eval(b, t)
    decreases |a|
  {
    hide Product;
    if a != [] {
      EvalAdd(a[1..], b[1..], t);
      assert Add(a, b)[1..] == Add(a[1..], b[1..]);
      assert Sub(a, b)[1..] == Sub(a[1..], b[1..]);
      Distribute(t, Eval(a[1..], t), Eval(b[1..], t));
    }
  }

  lemma Distribute(t: real, x: real, y: real)
    ensures Product(t, x + y) == Product(t, x) + Product(t, y)
    ensures Product(t, x - y) == Product(t, x) - Product(t, y)
    ensures Product(t, 0.0) == 0.0
  {
  }

  lemma EvalShifted(a: seq<real>, t: real)
    ensures Eval([0.0] + a, t) == Product(t, Eval(a, t))
  {
    hide Product;
    assert ([0.0] + a)[1..] == a;
  }

  lemma {:induction false} EvalPadded(a: seq<real>, t: real)
    ensures Eval(a + [0.0], t) == Eval(a, t)
    decreases |a|
  {
    hide Product;
    if a == [] {
      assert (a + [0.0])[1..] == [];
      Distribute(t, 0.0, 0.0);
    } else {
      assert (a + [0.0])[1..] == a[1..] + [0.0];
      EvalPadded(a[1..], t);
    }
  }

  function Times(n: nat, x: real): real { n as real * x }

  function Weigh(x: real, w: real): real { x * w }

  // ---- the derivative ----

  function Deriv(cs: seq<real>): (d: seq<real>)
    ensures |d| == (if |cs| <= 1 then 0 else |cs| - 1)
    ensures forall i :: 0 <= i < |d| ==> d[i] == Times(i + 1, cs[i + 1])
  {
    if |cs| <= 1 then [] else seq(|cs| - 1, i requires 0 <= i < |cs| - 1 => Times(i + 1, cs[i + 1]))
  }

  /** The slope of the polynomial between two points, as a polynomial in both of them. */
  function Slope(cs: seq<real>, a: real, b: real): real {
    if cs == [] then 0.0 else Eval(cs[1..], b) + Product(a, Slope(cs[1..], a, b))
  }

  /** Caratheodory's characterisation: the derivative is the value at the diagonal of the
      slope, which is a polynomial, hence continuous. */
  lemma {:induction false} DerivIsSlope(cs: seq<real>, a: real, b: real)
    ensures Eval(cs, b) - Eval(cs, a) == Product(b - a, Slope(cs, a, b))
    ensures Slope(cs, a, a) == Eval(Deriv(cs), a)
    decreases |cs|
  {
    hide Product;
    if cs != [] {
      hide Eval, Deriv, Slope;
      DerivIsSlope(cs[1..], a, b);
      SlopeStep(cs, a, b);
      DiagonalStep(cs, a);
    } else {
      SlopeOfNothing(cs, a, b);
    }
  }

  lemma SlopeOfNothing(cs: seq<real>, a: real, b: real)
    requires cs == []
    ensures Eval(cs, b) - Eval(cs, a) == Product(b - a, Slope(cs, a, b))
    ensures Slope(cs, a, a) == Eval(Deriv(cs), a)
  {
    Distribute(b - a, 0.0, 0.0);
  }

  lemma SlopeStep(cs: seq<real>, a: real, b: real)
    requires cs != [] && Eval(cs[1..], b) - Eval(cs[1..], a) == Product(b - a, Slope(cs[1..], a, b))
    ensures Eval(cs, b) - Eval(cs, a) == Product(b - a, Slope(cs, a, b))
  {
    hide Product;
    SlopeArithmetic(Eval(cs[1..], a), Eval(cs[1..], b), Slope(cs[1..], a, b), a, b);
  }

  lemma SlopeArithmetic(ta: real, tb: real, s: real, a: real, b: real)
    requires tb - ta == Product(b - a, s)
    ensures Product(b, tb) - Product(a, ta) == Product(b - a, tb + Product(a, s))
  {
    assert b * tb - a * ta == (b - a) * tb + a * (tb - ta);
    assert a * ((b - a) * s) == (b - a) * (a * s);
    assert (b - a) * (tb + a * s) == (b - a) * tb + (b - a) * (a * s);
  }

  lemma DiagonalStep(cs: seq<real>, a: real)
    requires cs != [] && Slope(cs[1..], a, a) == Eval(Deriv(cs[1..]), a)
    ensures Slope(cs, a, a) == Eval(Deriv(cs), a)
  {
    hide Deriv, Product;
    DerivStep(cs, a);
  }

  lemma DerivStep(cs: seq<real>, a: real)
    requires cs != []
    ensures Eval(Deriv(cs), a) == Eval(cs[1..], a) + Product(a, Eval(Deriv(cs[1..]), a))
  {
    hide Deriv, Add, Product;
    var tail := cs[1..];
    DerivEmpty(tail);
    if |tail| == 0 {
      DerivEmpty(cs);
      Distribute(a, 0.0, 0.0);
    } else {
      DerivSum(cs);
      EvalAdd(tail, [0.0] + Deriv(tail), a);
      EvalShifted(Deriv(tail), a);
    }
  }

  lemma DerivEmpty(cs: seq<real>)
    ensures |cs| <= 1 ==> Deriv(cs) == []
    ensures |cs| >= 1 ==> |Deriv(cs)| == |cs| - 1
  {
  }

  lemma DerivSum(cs: seq<real>)
    requires |cs| >= 2
    ensures |Deriv(cs[1..])| == |cs| - 2
    ensures Deriv(cs) == Add(cs[1..], [0.0] + Deriv(cs[1..]))
  {
    hide Times, Deriv, Add;
    var tail := cs[1..];
    var shifted := [0.0] + Deriv(tail);
    forall i | 0 <= i < |tail| ensures Deriv(cs)[i] == tail[i] + shifted[i] {
      TimesSplit(i + 1, i, tail[i]);
      TimesOne(tail[i]);
    }
  }

  lemma TimesOne(x: real)
    ensures Times(1, x) == x && Times(0, x) == 0.0
  {
  }

  // ---- stretching the argument ----

  /** Coefficient i multiplied by `first` times the i-th power of `factor`. */
  function Stretched(cs: seq<real>, factor: real, first: real): (ds: seq<real>)
    ensures |ds| == |cs|
  {
    if cs == [] then [] else [Weigh(cs[0], first)] + Stretched(cs[1..], factor, first * factor)
  }

  lemma {:induction false} EvalStretched(cs: seq<real>, factor: real, first: real, t: real, u: real)
    requires u == factor * t
    ensures Eval(Stretched(cs, factor, first), t) == Weigh(Eval(cs, u), first)
    decreases |cs|
  {
    assert Weigh(0.0, first) == 0.0;
    hide Weigh;
    if cs != [] {
      var rest := Stretched(cs[1..], factor, first * factor);
      assert Stretched(cs, factor, first)[1..] == rest;
      EvalStretched(cs[1..], factor, first * factor, t, u);
      StretchArithmetic(cs[0], Eval(cs[1..], u), factor, first, t, u);
    }
  }

  lemma {:induction false} StretchedByOne(cs: seq<real>)
    ensures Stretched(cs, 1.0, 1.0) == cs
  {
    if cs != [] {
      StretchedByOne(cs[1..]);
      assert Weigh(cs[0], 1.0) == cs[0] && 1.0 * 1.0 == 1.0;
      assert cs == [cs[0]] + cs[1..];
    }
  }

  lemma StretchArithmetic(c: real, e: real, factor: real, first: real, t: real, u: real)
    requires u == factor * t
    ensures Weigh(c, first) + t * Weigh(e, first * factor) == Weigh(c + u * e, first)
  {
    assert t * (e * (first * factor)) == (u * e) * first;
  }

  // ---- Bezier curves ----

  /** The point of the curve at `u`, by repeated linear interpolation. */
  function Curve(xs: seq<real>, u: real): real
    requires |xs| >= 1
    decreases |xs|
  {
    if |xs| == 1 then xs[0] else Lerp(Curve(xs[..|xs| - 1], u), Curve(xs[1..], u), u)
  }

  function Lerp(a: real, b: real, u: real): real { (1.0 - u) * a + u * b }

  /** The curve starts at the first control point and ends at the last. */
  lemma {:induction false} CurveEnds(xs: seq<real>)
    requires |xs| >= 1
    ensures Curve(xs, 0.0) == xs[0] && Curve(xs, 1.0) == xs[|xs| - 1]
    decreases |xs|
  {
    if |xs| > 1 {
      CurveEnds(xs[..|xs| - 1]);
      CurveEnds(xs[1..]);
    }
  }

  /** On [0, 1] the curve stays within any bounds on its control points. */
  lemma {:induction false} CurveInHull(xs: seq<real>, u: real, lo: real, hi: real)
    requires |xs| >= 1 && 0.0 <= u <= 1.0
    requires forall i :: 0 <= i < |xs| ==> lo <= xs[i] <= hi
    ensures lo <= Curve(xs, u) <= hi
    decreases |xs|
  {
    CurveStep(xs, u);
    hide Curve, Lerp;
    if |xs| > 1 {
      CurveInHull(xs[..|xs| - 1], u, lo, hi);
      CurveInHull(xs[1..], u, lo, hi);
      Convex(Curve(xs[..|xs| - 1], u), Curve(xs[1..], u), u, lo, hi);
    }
  }

  lemma CurveStep(xs: seq<real>, u: real)
    requires |xs| >= 1
    ensures |xs| == 1 ==> Curve(xs, u) == xs[0]
    ensures |xs| > 1 ==> Curve(xs, u) == Lerp(Curve(xs[..|xs| - 1], u), Curve(xs[1..], u), u)
  {
  }

  lemma Convex(a: real, b: real, u: real, lo: real, hi: real)
    requires 0.0 <= u <= 1.0 && lo <= a <= hi && lo <= b <= hi
    ensures lo <= Lerp(a, b, u) <= hi
  {
    NonNegative(1.0 - u, a - lo);
    NonNegative(u, b - lo);
    NonNegative(1.0 - u, hi - a);
    NonNegative(u, hi - b);
  }

  lemma NonNegative(p: real, q: real)
    requires p >= 0.0 && q >= 0.0
    ensures p * q >= 0.0
  {
  }

  // ---- the coefficients that the library computes ----

  function Fac(n: nat): (f: nat)
    ensures f >= 1
  {
    if n == 0 then 1 else n * Fac(n - 1)
  }

  function FacReal(n: nat): real { Fac(n) as real }

  function Sign(k: nat): real { if k % 2 == 0 then 1.0 else -1.0 }

  /** One term of the inner loop. */
  function Term(x: real, j: nat, i: nat): real
    requires i <= j
  {
    FacPositive(i);
    FacPositive(j - i);
    Quotient(Sign(i + j), x, FacReal(i), FacReal(j - i))
  }

  function Quotient(s: real, x: real, f: real, g: real): real
    requires f >= 1.0 && g >= 1.0
  {
    s * x / f / g
  }

  /** The inner loop's sum over the first k terms. */
  function Terms(xs: seq<real>, j: nat, k: nat): real
    requires k <= j + 1 && k <= |xs|
  {
    if k == 0 then 0.0 else Terms(xs, j, k - 1) + Term(xs[k - 1], j, k - 1)
  }

  function Coef(xs: seq<real>, j: nat): real
    requires j < |xs|
  {
    Scaled(Terms(xs, j, j + 1), |xs| - 1, j)
  }

  function Scaled(d: real, n: nat, j: nat): real
    requires j <= n
  {
    d * FacReal(n) / FacReal(n - j)
  }

  function Coefs(xs: seq<real>): (cs: seq<real>)
    ensures |cs| == |xs|
  {
    seq(|xs|, j requires 0 <= j < |xs| => Coef(xs, j))
  }

  lemma FacStep(n: nat)
    requires n >= 1
    ensures FacReal(n) == n as real * FacReal(n - 1) && FacReal(n) >= 1.0 && FacReal(n - 1) >= 1.0
  {
  }

  lemma FacPositive(n: nat)
    ensures FacReal(n) >= 1.0
  {
  }

  lemma DivideByProduct(x: real, k: real, f: real)
    requires k > 0.0 && f > 0.0
    ensures k * (x / (k * f)) == x / f
  {
    var q := x / (k * f);
    assert q * (k * f) == x;
    assert (k * q) * f == x;
  }

  lemma TimesSum(n: nat, x: real, y: real)
    ensures Times(n, x + y) == Times(n, x) + Times(n, y) && Times(n, 0.0) == 0.0
  {
  }

  lemma TimesSplit(j: nat, i: nat, a: real)
    requires i <= j
    ensures Times(j, a) == Times(i, a) + Times(j - i, a) && Times(0, a) == 0.0
  {
    assert j as real == i as real + (j - i) as real;
  }

  /** The weights obey a difference rule: j times the term of order j is a difference of
      terms of order j - 1. */
  lemma TermRule(x: real, j: nat, i: nat)
    requires 1 <= i < j
    ensures Times(j, Term(x, j, i)) == Term(x, j - 1, i - 1) - Term(x, j - 1, i)
  {
    hide Term, Times;
    UpperTerm(x, j, i);
    LowerTerm(x, j, i);
    TimesSplit(j, i, Term(x, j, i));
  }

  lemma UpperTerm(x: real, j: nat, i: nat)
    requires 1 <= i <= j
    ensures Term(x, j - 1, i - 1) == Times(i, Term(x, j, i))
  {
    hide FacReal, Quotient, Sign, Times;
    FacStep(i);
    FacPositive(j - i);
    SignStep(i, j);
    UpperQuotient(Sign(i + j), x, FacReal(i - 1), FacReal(i), i, FacReal(j - i));
  }

  lemma UpperQuotient(s: real, x: real, f: real, kf: real, k: nat, g: real)
    requires f >= 1.0 && g >= 1.0 && k >= 1 && kf == k as real * f && kf >= 1.0
    ensures Quotient(s, x, f, g) == Times(k, Quotient(s, x, kf, g))
  {
    DivideByProduct(s * x, k as real, f);
    ScaledQuotient(k as real, s * x / kf, g);
  }

  lemma LowerTerm(x: real, j: nat, i: nat)
    requires i < j
    ensures Term(x, j - 1, i) == -Times(j - i, Term(x, j, i))
  {
    hide FacReal, Quotient, Sign, Times;
    FacStep(j - i);
    FacPositive(i);
    SignStep(i, j);
    LowerQuotient(Sign(i + (j - 1)), Sign(i + j), x, FacReal(i), FacReal(j - i - 1), j - i, FacReal(j - i));
  }

  lemma LowerQuotient(r: real, s: real, x: real, f: real, g: real, k: nat, kg: real)
    requires f >= 1.0 && g >= 1.0 && k >= 1 && kg == k as real * g && kg >= 1.0 && r == -s
    ensures Quotient(r, x, f, g) == -Times(k, Quotient(s, x, f, kg))
  {
    DivideByProduct(s * x / f, k as real, g);
    NegatedQuotient(s * x, f, g);
    assert r * x == -(s * x);
  }

  lemma SignStep(i: nat, j: nat)
    ensures j >= 1 ==> Sign(i + (j - 1)) == -Sign(i + j)
    ensures i >= 1 && j >= 1 ==> Sign((i - 1) + (j - 1)) == Sign(i + j)
  {
    assert i >= 1 && j >= 1 ==> (i - 1) + (j - 1) == i + j - 2;
  }

  lemma ScaledQuotient(k: real, q: real, g: real)
    requires g >= 1.0
    ensures (k * q) / g == k * (q / g)
  {
    assert (k * (q / g)) * g == k * q;
  }

  lemma NegatedQuotient(s: real, f: real, g: real)
    requires f >= 1.0 && g >= 1.0
    ensures (-s) / f / g == -(s / f / g)
  {
    NegatedOnce(s, f);
    NegatedOnce(s / f, g);
  }

  lemma NegatedOnce(s: real, f: real)
    requires f >= 1.0
    ensures (-s) / f == -(s / f)
  {
    assert (-(s / f)) * f == -s;
  }

  lemma FirstTermRule(x: real, j: nat)
    requires j >= 1
    ensures Times(j, Term(x, j, 0)) == -Term(x, j - 1, 0)
  {
    LowerTerm(x, j, 0);
  }

  lemma LastTermRule(x: real, j: nat)
    requires j >= 1
    ensures Times(j, Term(x, j, j)) == Term(x, j - 1, j - 1)
  {
    UpperTerm(x, j, j);
  }

  /** The same rule for partial sums. */
  lemma {:induction false} TermsRule(xs: seq<real>, j: nat, k: nat)
    requires 1 <= k <= j < |xs|
    ensures Times(j, Terms(xs, j, k)) == Terms(xs[1..], j - 1, k - 1) - Terms(xs, j - 1, k)
    decreases k
  {
    hide Term, Times;
    var t := Term(xs[k - 1], j, k - 1);
    TimesSum(j, Terms(xs, j, k - 1), t);
    if k == 1 {
      FirstTermRule(xs[0], j);
      assert Terms(xs, j, 1) == Terms(xs, j, 0) + t;
      assert Terms(xs, j - 1, 1) == Terms(xs, j - 1, 0) + Term(xs[0], j - 1, 0);
    } else {
      TermsRule(xs, j, k - 1);
      TermRule(xs[k - 1], j, k - 1);
    }
  }

  lemma DifferenceRule(xs: seq<real>, j: nat)
    requires 1 <= j < |xs|
    ensures Times(j, Terms(xs, j, j + 1)) == Terms(xs[1..], j - 1, j) - Terms(xs, j - 1, j)
  {
    hide Term, Times;
    TermsRule(xs, j, j);
    LastTermRule(xs[j], j);
    TimesSum(j, Terms(xs, j, j), Term(xs[j], j, j));
  }

  lemma {:induction false} TermsOfPrefix(xs: seq<real>, n: nat, j: nat, k: nat)
    requires k <= j + 1 && k <= n <= |xs|
    ensures Terms(xs[..n], j, k) == Terms(xs, j, k)
    decreases k
  {
    hide Term;
    if k > 0 { TermsOfPrefix(xs, n, j, k - 1); }
  }

  /** How a coefficient arises from those of the two curves that are blended. */
  lemma CoefRule(xs: seq<real>, j: nat)
    requires |xs| >= 2 && 1 <= j < |xs|
    ensures var n := |xs| - 1;
            Coef(xs, j) == (if j < n then Coef(xs[..n], j) else 0.0)
                           + (Coef(xs[1..], j - 1) - Coef(xs[..n], j - 1))
  {
    hide Terms, Scaled;
    var n := |xs| - 1;
    DifferenceRule(xs, j);
    TermsOfPrefix(xs, n, j - 1, j);
    if j < n { TermsOfPrefix(xs, n, j, j + 1); }
    ScaledRule(Terms(xs, j, j + 1), Terms(xs[1..], j - 1, j), Terms(xs, j - 1, j), n, j);
  }

  /** d times (n - 1)! / (n - j)!. */
  function Part(d: real, n: nat, j: nat): real
    requires 1 <= j <= n
  {
    d * (FacReal(n - 1) / FacReal(n - j))
  }

  lemma ScaledRule(d: real, a: real, b: real, n: nat, j: nat)
    requires 1 <= j <= n && Times(j, d) == a - b
    ensures Scaled(d, n, j)
            == (if j < n then Scaled(d, n - 1, j) else 0.0) + (Scaled(a, n - 1, j - 1) - Scaled(b, n - 1, j - 1))
  {
    hide Scaled, Part, Times;
    ScaledUp(d, n, j);
    if j < n { ScaledSame(d, n, j); }
    ScaledDown(a, n, j);
    ScaledDown(b, n, j);
    TimesSplit(n, j, Part(d, n, j));
    PartRule(d, a, b, n, j);
  }

  lemma PartRule(d: real, a: real, b: real, n: nat, j: nat)
    requires 1 <= j <= n && Times(j, d) == a - b
    ensures Times(j, Part(d, n, j)) == Part(a, n, j) - Part(b, n, j)
  {
    hide FacReal;
    FacStep(n - j + 1);
    var q := FacReal(n - 1) / FacReal(n - j);
    assert j as real * (d * q) == (j as real * d) * q;
    assert (a - b) * q == a * q - b * q;
  }

  lemma ScaledUp(d: real, n: nat, j: nat)
    requires 1 <= j <= n
    ensures Scaled(d, n, j) == Times(n, Part(d, n, j))
  {
    hide FacReal;
    FacStep(n);
    FacStep(n - j + 1);
    ProductOverG(d, FacReal(n), FacReal(n - 1), n as real, FacReal(n - j));
  }

  lemma ScaledSame(d: real, n: nat, j: nat)
    requires 1 <= j < n
    ensures Scaled(d, n - 1, j) == Times(n - j, Part(d, n, j))
  {
    hide FacReal;
    FacStep(n - j);
    QuotientOf(d, FacReal(n - 1), FacReal(n - j));
    DivideByProduct(d * FacReal(n - 1), (n - j) as real, FacReal(n - j - 1));
  }

  lemma ScaledDown(a: real, n: nat, j: nat)
    requires 1 <= j <= n
    ensures Scaled(a, n - 1, j - 1) == Part(a, n, j)
  {
    hide FacReal;
    FacStep(n - j + 1);
    QuotientOf(a, FacReal(n - 1), FacReal(n - j));
  }

  lemma QuotientOf(a: real, f: real, g: real)
    requires g >= 1.0
    ensures a * f / g == a * (f / g)
  {
    assert (a * (f / g)) * g == a * f;
  }

  lemma ProductOverG(d: real, nf: real, f: real, n: real, g: real)
    requires g >= 1.0 && nf == n * f
    ensures d * nf / g == n * (d * (f / g))
  {
    QuotientOf(d, nf, g);
    QuotientOf(n, f, g);
  }

  lemma FirstCoef(xs: seq<real>)
    requires |xs| >= 1
    ensures Coef(xs, 0) == xs[0]
  {
    FirstTerm(xs);
    hide Scaled, Terms;
    Unscaled(xs[0], |xs| - 1);
  }

  lemma Unscaled(d: real, n: nat)
    ensures Scaled(d, n, 0) == d
  {
    FacPositive(n);
    hide FacReal;
    FullQuotient(d, FacReal(n));
  }

  lemma FirstTerm(xs: seq<real>)
    requires |xs| >= 1
    ensures Terms(xs, 0, 1) == xs[0]
  {
    assert Terms(xs, 0, 0) == 0.0;
    assert Term(xs[0], 0, 0) == xs[0];
  }

  lemma FullQuotient(x: real, f: real)
    requires f >= 1.0
    ensures x * f / f == x
  {
  }

  /** The coefficients of the curve are those of the two shorter curves, blended. */
  lemma CoefsRule(xs: seq<real>)
    requires |xs| >= 2
    ensures var n := |xs| - 1;
            Coefs(xs) == Add(Coefs(xs[..n]) + [0.0], [0.0] + Sub(Coefs(xs[1..]), Coefs(xs[..n])))
  {
    hide Coef;
    var n := |xs| - 1;
    var a, b := Coefs(xs[..n]) + [0.0], [0.0] + Sub(Coefs(xs[1..]), Coefs(xs[..n]));
    forall j | 0 <= j < |xs| ensures Coefs(xs)[j] == a[j] + b[j] {
      if j == 0 {
        FirstCoef(xs);
        FirstCoef(xs[..n]);
      } else {
        CoefRule(xs, j);
      }
    }
  }

  /** For every list of control points the computed coefficients evaluate to the curve. */
  lemma {:induction false} CoefsEvalToCurve(xs: seq<real>, u: real)
    requires |xs| >= 1
    ensures Eval(Coefs(xs), u) == Curve(xs, u)
    decreases |xs|
  {
    hide Coef, Product, Lerp, Add, Sub, Coefs;
    var n := |xs| - 1;
    if n == 0 {
      OnePoint(xs, u);
    } else {
      hide Eval;
      var p, q := Coefs(xs[..n]), Coefs(xs[1..]);
      CoefsRule(xs);
      EvalAdd(p + [0.0], [0.0] + Sub(q, p), u);
      EvalPadded(p, u);
      EvalShifted(Sub(q, p), u);
      EvalAdd(q, p, u);
      CoefsEvalToCurve(xs[..n], u);
      CoefsEvalToCurve(xs[1..], u);
      Blend(Eval(p, u), Eval(q, u), u);
    }
  }

  lemma OnePoint(xs: seq<real>, u: real)
    requires |xs| == 1
    ensures Eval(Coefs(xs), u) == Curve(xs, u)
  {
    FirstCoef(xs);
    assert Coefs(xs)[1..] == [];
    Distribute(u, 0.0, 0.0);
  }

  lemma Blend(p: real, q: real, u: real)
    ensures p + Product(u, q - p) == Lerp(p, q, u)
  {
  }

  // ---- the derivative of the curve ----

  /** The legs between consecutive control points. */
  function Differences(xs: seq<real>): (ds: seq<real>)
    requires |xs| >= 2
    ensures |ds| == |xs| - 1 && forall i :: 0 <= i < |ds| ==> ds[i] == xs[i + 1] - xs[i]
  {
    seq(|xs| - 1, i requires 0 <= i < |xs| - 1 => xs[i + 1] - xs[i])
  }

  lemma {:induction false} CurveSub(a: seq<real>, b: seq<real>, u: real)
    requires |a| == |b| >= 1
    ensures Curve(Sub(a, b), u) == Curve(a, u) - Curve(b, u)
    decreases |a|
  {
    if |a| > 1 {
      var n := |a| - 1;
      CurveStep(a, u);
      CurveStep(b, u);
      CurveStep(Sub(a, b), u);
      hide Curve, Lerp;
      CurveSub(a[..n], b[..n], u);
      CurveSub(a[1..], b[1..], u);
      assert Sub(a, b)[..n] == Sub(a[..n], b[..n]) && Sub(a, b)[1..] == Sub(a[1..], b[1..]);
      LerpSub(Curve(a[..n], u), Curve(a[1..], u), Curve(b[..n], u), Curve(b[1..], u), u);
    }
  }

  lemma LerpSub(a: real, b: real, c: real, d: real, u: real)
    ensures Lerp(a - c, b - d, u) == Lerp(a, b, u) - Lerp(c, d, u)
  {
  }

  lemma DerivAdd(a: seq<real>, b: seq<real>)
    requires |a| == |b| >= 1
    ensures |Deriv(a)| == |Deriv(b)| && Deriv(Add(a, b)) == Add(Deriv(a), Deriv(b))
  {
    hide Times, Deriv, Add;
    forall i | 0 <= i < |a| - 1 ensures Deriv(Add(a, b))[i] == Deriv(a)[i] + Deriv(b)[i] {
      TimesDifference(i + 1, a[i + 1], b[i + 1]);
    }
  }

  lemma DerivSub(a: seq<real>, b: seq<real>)
    requires |a| == |b| >= 1
    ensures |Deriv(a)| == |Deriv(b)| && Deriv(Sub(a, b)) == Sub(Deriv(a), Deriv(b))
  {
    hide Times, Deriv, Sub;
    forall i | 0 <= i < |a| - 1 ensures Deriv(Sub(a, b))[i] == Deriv(a)[i] - Deriv(b)[i] {
      TimesDifference(i + 1, a[i + 1], b[i + 1]);
    }
  }

  lemma TimesDifference(n: nat, x: real, y: real)
    ensures Times(n, x + y) == Times(n, x) + Times(n, y) && Times(n, x - y) == Times(n, x) - Times(n, y)
  {
  }

  lemma DerivPadded(p: seq<real>)
    requires |p| >= 1
    ensures Deriv(p + [0.0]) == Deriv(p) + [0.0]
  {
    forall i | 0 <= i < |p| ensures Deriv(p + [0.0])[i] == (Deriv(p) + [0.0])[i] {
      if i == |p| - 1 { TimesSum(|p|, 0.0, 0.0); }
    }
  }

  /** The slope of the blended coefficients. */
  lemma DerivOfBlend(p: seq<real>, q: seq<real>, u: real)
    requires |p| == |q| >= 1
    ensures Eval(Deriv(Add(p + [0.0], [0.0] + Sub(q, p))), u)
            == Eval(Deriv(p), u) + (Eval(q, u) - Eval(p, u)) + Product(u, Eval(Deriv(q), u) - Eval(Deriv(p), u))
  {
    hide Eval, Deriv, Product, Add, Sub;
    var s := Sub(q, p);
    DerivAdd(p + [0.0], [0.0] + s);
    EvalAdd(Deriv(p + [0.0]), Deriv([0.0] + s), u);
    DerivPadded(p);
    EvalPadded(Deriv(p), u);
    DerivStep([0.0] + s, u);
    assert ([0.0] + s)[1..] == s;
    EvalAdd(q, p, u);
    DerivSub(q, p);
    EvalAdd(Deriv(q), Deriv(p), u);
  }

  /** The slope of a curve in terms of the two shorter curves and of the legs. */
  lemma SlopeOfCurve(xs: seq<real>, u: real)
    requires |xs| >= 2
    ensures var p, q := Eval(Deriv(Coefs(xs[..|xs| - 1])), u), Eval(Deriv(Coefs(xs[1..])), u);
            Eval(Deriv(Coefs(xs)), u) == p + Curve(Differences(xs), u) + Product(u, q - p)
  {
    hide Coef, Coefs, Eval, Deriv, Product, Add, Sub, Lerp, Curve;
    var head, tail := xs[..|xs| - 1], xs[1..];
    CoefsRule(xs);
    DerivOfBlend(Coefs(head), Coefs(tail), u);
    CoefsEvalToCurve(head, u);
    CoefsEvalToCurve(tail, u);
    LegsAreDifference(xs);
    CurveSub(tail, head, u);
  }

  /** The derivative of a curve of degree n is n times the curve of the legs between its control
      points. */
  lemma {:induction false} Hodograph(xs: seq<real>, u: real)
    requires |xs| >= 2
    ensures Eval(Deriv(Coefs(xs)), u) == Times(|xs| - 1, Curve(Differences(xs), u))
    decreases |xs|
  {
    hide Coef, Coefs, Eval, Deriv, Product, Lerp, Times, Curve, Differences;
    var n := |xs| - 1;
    var head, tail, legs := xs[..n], xs[1..], Differences(xs);
    SlopeOfCurve(xs, u);
    if n == 1 {
      DerivEmpty(Coefs(head));
      DerivEmpty(Coefs(tail));
      NoDegree(u);
      TimesOne(Curve(legs, u));
    } else {
      Hodograph(head, u);
      Hodograph(tail, u);
      LegsOfParts(xs);
      CurveStep(legs, u);
      HodographStep(n, Curve(legs[..n - 1], u), Curve(legs[1..], u), Curve(legs, u), u);
    }
  }

  lemma LegsOfParts(xs: seq<real>)
    requires |xs| >= 3
    ensures var legs, n := Differences(xs), |xs| - 1;
            Differences(xs[..n]) == legs[..n - 1] && Differences(xs[1..]) == legs[1..]
  {
  }

  lemma LegsAreDifference(xs: seq<real>)
    requires |xs| >= 2
    ensures Differences(xs) == Sub(xs[1..], xs[..|xs| - 1])
  {
  }

  lemma NoDegree(u: real)
    ensures Eval([], u) == 0.0 && Product(u, 0.0) == 0.0
  {
  }

  lemma HodographStep(n: nat, a: real, b: real, c: real, u: real)
    requires n >= 1 && c == Lerp(a, b, u)
    ensures Times(n - 1, a) + c + Product(u, Times(n - 1, b) - Times(n - 1, a)) == Times(n, c)
  {
    var m := (n - 1) as real;
    assert u * (m * b - m * a) == m * (u * b) - m * (u * a);
    assert m * c == m * a - m * (u * a) + m * (u * b);
  }

  // ---- the Bernstein form ----

  function Choose(n: nat, k: nat): nat {
    if k == 0 then 1 else if n == 0 then 0 else Choose(n - 1, k - 1) + Choose(n - 1, k)
  }

  function Power(x: real, k: nat): real { if k == 0 then 1.0 else x * Power(x, k - 1) }

  function Spread(c: real, x: real, y: real): real { c * (x * y) }

  function Basis(n: nat, i: nat, u: real): real
    requires i <= n
  {
    Spread(Choose(n, i) as real, Power(u, i), Power(1.0 - u, n - i))
  }

  function Bernstein(xs: seq<real>, n: nat, k: nat, u: real): real
    requires k <= n + 1 && k <= |xs|
  {
    if k == 0 then 0.0 else Bernstein(xs, n, k - 1, u) + Weigh(xs[k - 1], Basis(n, k - 1, u))
  }

  lemma {:induction false} ChooseAbove(n: nat, k: nat)
    requires k > n
    ensures Choose(n, k) == 0
    decreases n
  {
    if n > 0 {
      ChooseAbove(n - 1, k - 1);
      ChooseAbove(n - 1, k);
    }
  }

  lemma BasisRule(n: nat, i: nat, u: real)
    requires 1 <= i < n
    ensures Basis(n, i, u) == Lerp(Basis(n - 1, i, u), Basis(n - 1, i - 1, u), u)
  {
    var a, b, v := Choose(n - 1, i - 1), Choose(n - 1, i), 1.0 - u;
    ChooseRule(n, i);
    hide Lerp, Power, Choose, Spread;
    PowerRule(u, i);
    PowerRule(v, n - i);
    LerpOfParts(a, b, Power(u, i - 1), Power(v, n - i - 1), Power(u, i), Power(v, n - i), u);
  }

  lemma PowerRule(x: real, k: nat)
    requires k >= 1
    ensures Power(x, k) == x * Power(x, k - 1)
  {
  }

  lemma ChooseRule(n: nat, k: nat)
    requires n >= 1 && k >= 1
    ensures Choose(n, k) == Choose(n - 1, k - 1) + Choose(n - 1, k)
  {
  }

  lemma LerpOfParts(a: nat, b: nat, p: real, q: real, x: real, y: real, u: real)
    requires x == u * p && y == (1.0 - u) * q
    ensures Lerp(Spread(b as real, x, q), Spread(a as real, p, y), u) == Spread((a + b) as real, x, y)
  {
    BasisArithmetic(a as real, b as real, p, q, u, 1.0 - u);
  }

  lemma BasisArithmetic(a: real, b: real, p: real, q: real, u: real, v: real)
    ensures (a + b) * ((u * p) * (v * q)) == v * (b * ((u * p) * q)) + u * (a * (p * (v * q)))
  {
    var m := (u * p) * (v * q);
    assert v * (b * ((u * p) * q)) == b * m;
    assert u * (a * (p * (v * q))) == a * m;
  }

  lemma BasisEnds(n: nat, u: real)
    requires n >= 1
    ensures Basis(n, 0, u) == Lerp(Basis(n - 1, 0, u), 0.0, u)
    ensures Basis(n, n, u) == Lerp(0.0, Basis(n - 1, n - 1, u), u)
  {
    FirstAndLast(n, u);
    FirstAndLast(n - 1, u);
    hide Basis, Spread, Power, Lerp, Choose;
    PowerRule(u, n);
    LerpLast(Power(u, n - 1), Power(u, n), u);
    PowersOfRest(n, u, 1.0 - u);
  }

  lemma PowersOfRest(n: nat, u: real, v: real)
    requires n >= 1 && v == 1.0 - u
    ensures Lerp(Power(v, n - 1), 0.0, u) == Power(v, n)
  {
    hide Power, Lerp;
    PowerRule(v, n);
    LerpFirst(Power(v, n - 1), Power(v, n), u, v);
  }

  lemma LerpFirst(x: real, y: real, u: real, v: real)
    requires v == 1.0 - u && y == v * x
    ensures Lerp(x, 0.0, u) == y
  {
  }

  lemma LerpLast(x: real, y: real, u: real)
    requires y == u * x
    ensures Lerp(0.0, x, u) == y
  {
  }

  lemma {:induction false} ChooseAll(n: nat)
    ensures Choose(n, n) == 1
  {
    if n > 0 {
      ChooseAll(n - 1);
      ChooseAbove(n - 1, n);
    }
  }

  lemma FirstAndLast(n: nat, u: real)
    ensures Basis(n, 0, u) == Power(1.0 - u, n) && Basis(n, n, u) == Power(u, n)
  {
    ChooseAll(n);
    assert Choose(n, 0) == 1 && Power(u, 0) == 1.0 && Power(1.0 - u, 0) == 1.0;
    hide Power, Choose;
  }

  lemma {:induction false} BernsteinRule(xs: seq<real>, n: nat, k: nat, u: real)
    requires 1 <= k <= n < |xs|
    ensures Bernstein(xs, n, k, u)
            == Lerp(Bernstein(xs, n - 1, k, u), Bernstein(xs[1..], n - 1, k - 1, u), u)
    decreases k
  {
    hide Bernstein, Basis, Lerp, Weigh, Spread, Power, Choose;
    if k == 1 {
      BernsteinFirst(xs, n, u);
    } else {
      BernsteinRule(xs, n, k - 1, u);
      BernsteinNext(xs, n, k, u);
    }
  }

  lemma BernsteinFirst(xs: seq<real>, n: nat, u: real)
    requires 1 <= n < |xs|
    ensures Bernstein(xs, n, 1, u) == Lerp(Bernstein(xs, n - 1, 1, u), Bernstein(xs[1..], n - 1, 0, u), u)
  {
    hide Bernstein, Basis, Lerp, Weigh, Spread, Power, Choose;
    BernsteinStep(xs, n, 1, u);
    BernsteinStep(xs, n - 1, 1, u);
    BernsteinNothing(xs, n, u);
    BernsteinNothing(xs, n - 1, u);
    BernsteinNothing(xs[1..], n - 1, u);
    BasisEnds(n, u);
    LerpWeighed(xs[0], Basis(n - 1, 0, u), 0.0, u, 0.0, 0.0);
  }

  lemma BernsteinNext(xs: seq<real>, n: nat, k: nat, u: real)
    requires 2 <= k <= n < |xs|
    requires Bernstein(xs, n, k - 1, u)
             == Lerp(Bernstein(xs, n - 1, k - 1, u), Bernstein(xs[1..], n - 1, k - 2, u), u)
    ensures Bernstein(xs, n, k, u)
            == Lerp(Bernstein(xs, n - 1, k, u), Bernstein(xs[1..], n - 1, k - 1, u), u)
  {
    hide Bernstein, Basis, Lerp, Weigh, Spread, Power, Choose;
    var i := k - 1;
    BernsteinStep(xs, n, k, u);
    BernsteinStep(xs, n - 1, k, u);
    BernsteinStep(xs[1..], n - 1, i, u);
    BasisRule(n, i, u);
    LerpWeighed(xs[i], Basis(n - 1, i, u), Basis(n - 1, i - 1, u), u,
                Bernstein(xs, n - 1, i, u), Bernstein(xs[1..], n - 1, i - 1, u));
  }

  lemma BernsteinStep(xs: seq<real>, n: nat, k: nat, u: real)
    requires 1 <= k <= n + 1 && k <= |xs|
    ensures Bernstein(xs, n, k, u) == Bernstein(xs, n, k - 1, u) + Weigh(xs[k - 1], Basis(n, k - 1, u))
  {
  }

  lemma BernsteinNothing(xs: seq<real>, n: nat, u: real)
    ensures Bernstein(xs, n, 0, u) == 0.0
  {
  }

  /** Interpolation is linear in its end points. */
  lemma LerpWeighed(x: real, a: real, b: real, u: real, s: real, t: real)
    ensures Lerp(s, t, u) + Weigh(x, Lerp(a, b, u)) == Lerp(s + Weigh(x, a), t + Weigh(x, b), u)
    ensures Weigh(x, 0.0) == 0.0 && Lerp(0.0, 0.0, u) == 0.0
  {
    var v := 1.0 - u;
    assert x * (v * a + u * b) == v * (x * a) + u * (x * b);
  }

  lemma {:induction false} BernsteinOfPrefix(xs: seq<real>, m: nat, n: nat, k: nat, u: real)
    requires k <= n + 1 && k <= m <= |xs|
    ensures Bernstein(xs[..m], n, k, u) == Bernstein(xs, n, k, u)
    decreases k
  {
    hide Basis;
    if k > 0 { BernsteinOfPrefix(xs, m, n, k - 1, u); }
  }

  /** The curve is the Bernstein form of its control points. */
  lemma {:induction false} CurveIsBernstein(xs: seq<real>, u: real)
    requires |xs| >= 1
    ensures Curve(xs, u) == Bernstein(xs, |xs| - 1, |xs|, u)
    decreases |xs|
  {
    var n := |xs| - 1;
    CurveStep(xs, u);
    BernsteinStep(xs, n, n + 1, u);
    BernsteinNothing(xs, n, u);
    if n == 0 {
      assert Basis(0, 0, u) == 1.0;
    } else {
      hide Basis, Bernstein, Curve, Lerp, Weigh;
      CurveIsBernstein(xs[..n], u);
      CurveIsBernstein(xs[1..], u);
      BernsteinOfPrefix(xs, n, n - 1, n, u);
      BernsteinRule(xs, n, n, u);
      BernsteinStep(xs[1..], n - 1, n, u);
      BasisEnds(n, u);
      LerpWeighed(xs[n], 0.0, Basis(n - 1, n - 1, u), u,
                  Bernstein(xs, n - 1, n, u), Bernstein(xs[1..], n - 1, n - 1, u));
    }
  }
}
