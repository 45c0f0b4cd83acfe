// Extrema of a polynomial on [0, 1]: the end points and the roots of the derivative there.
module Extrema {
  import opened Basics
  import opened Bezier
  import opened Polynomials

  /** Smallest normal single-precision number: what the library takes for zero. */
  const FLT_MIN: real := 1.0 / 85070591730234615865843651857942052864.0

  predicate IsZero(x: real) { AbsReal(x) < FLT_MIN }

  /** The comparison with zero is not deceived by this number. */
  predicate Significant(x: real) { x != 0.0 ==> AbsReal(x) >= FLT_MIN }

  /** A root as the solver returns it: the square root of a negative number is not one. */
  datatype Root = NaN | Real(x: real)

  datatype Interval = Interval(min: real, max: real)

  ghost predicate SquareRoot(sqrt: real -> real) {
    forall d: real :: d >= 0.0 ==> sqrt(d) >= 0.0 && sqrt(d) * sqrt(d) == d
  }

  /** How many coefficients remain when trailing zeros are cut, down to `least`. */
  function Trim(cs: seq<real>, least: nat): (n: nat)
    ensures n <= |cs| && (n == |cs| || n >= least)
    ensures forall i :: n <= i < |cs| ==> IsZero(cs[i])
    ensures n > least ==> !IsZero(cs[n - 1])
  {
    if |cs| <= least || !IsZero(cs[|cs| - 1]) then |cs| else Trim(cs[..|cs| - 1], least)
  }

  // ---- cubic polynomials ----

  datatype Cubic = Cubic(c0: real, c1: real, c2: real, c3: real)
  {
    function At(u: real): real { c0 + u * (c1 + u * (c2 + u * c3)) }

    function Slope(u: real): real { c1 + (2.0 * c2) * u + (3.0 * c3) * (u * u) }
  }

  function Coefficient(cs: seq<real>, i: nat): real { if i < |cs| then cs[i] else 0.0 }

  function AsCubic(cs: seq<real>): Cubic {
    Cubic(Coefficient(cs, 0), Coefficient(cs, 1), Coefficient(cs, 2), Coefficient(cs, 3))
  }

  /** Simpson's rule is exact: the rise between two points in terms of three slopes. */
  lemma Simpson(q: Cubic, a: real, b: real)
    ensures 6.0 * (q.At(b) - q.At(a))
            == (b - a) * (q.Slope(a) + 4.0 * q.Slope((a + b) / 2.0) + q.Slope(b))
  {
    var m := (a + b) / 2.0;
    var w := b - a;
    SimpsonTerm(w, a, b, q.c1, q.c2, q.c3, q.c0);
    assert q.Slope(m) == q.c1 + (2.0 * q.c2) * m + (3.0 * q.c3) * (m * m);
  }

  lemma SimpsonTerm(w: real, a: real, b: real, c1: real, c2: real, c3: real, c0: real)
    requires w == b - a
    ensures var m := (a + b) / 2.0;
            6.0 * ((c0 + b * (c1 + b * (c2 + b * c3))) - (c0 + a * (c1 + a * (c2 + a * c3))))
            == w * ((c1 + (2.0 * c2) * a + (3.0 * c3) * (a * a))
                    + 4.0 * (c1 + (2.0 * c2) * m + (3.0 * c3) * (m * m))
                    + (c1 + (2.0 * c2) * b + (3.0 * c3) * (b * b)))
  {
  }

  /** Where the slope does not change sign the polynomial is monotone. */
  lemma Monotone(q: Cubic, a: real, b: real, up: bool)
    requires a <= b
    requires forall x: real :: a <= x <= b ==> if up then q.Slope(x) >= 0.0 else q.Slope(x) <= 0.0
    ensures if up then q.At(a) <= q.At(b) else q.At(a) >= q.At(b)
  {
    hide Cubic.Slope, Cubic.At;
    Simpson(q, a, b);
    var s := q.Slope(a) + 4.0 * q.Slope((a + b) / 2.0) + q.Slope(b);
    assert a <= (a + b) / 2.0 <= b;
    if up { NonNegative(b - a, s); } else { NonNegative(b - a, -s); }
  }

  /** On such a piece the value lies between those at the ends of the piece. */
  lemma OnPiece(q: Cubic, a: real, b: real, up: bool, u: real, r: Interval)
    requires a <= u <= b
    requires forall x: real :: a <= x <= b ==> if up then q.Slope(x) >= 0.0 else q.Slope(x) <= 0.0
    requires r.min <= q.At(a) <= r.max && r.min <= q.At(b) <= r.max
    ensures r.min <= q.At(u) <= r.max
  {
    hide Cubic.Slope, Cubic.At;
    Monotone(q, a, u, up);
    Monotone(q, u, b, up);
  }

  ghost predicate BoundsEnds(q: Cubic, r: Interval) {
    r.min <= q.At(0.0) <= r.max && r.min <= q.At(1.0) <= r.max
  }

  ghost predicate BoundsAt(q: Cubic, x: real, r: Interval) {
    0.0 <= x <= 1.0 ==> r.min <= q.At(x) <= r.max
  }

  /** The slope keeps one sign. */
  lemma NoRoots(q: Cubic, up: bool, u: real, r: Interval)
    requires 0.0 <= u <= 1.0 && BoundsEnds(q, r)
    requires forall x: real :: if up then q.Slope(x) >= 0.0 else q.Slope(x) <= 0.0
    ensures r.min <= q.At(u) <= r.max
  {
    hide Cubic.Slope, Cubic.At;
    OnPiece(q, 0.0, 1.0, up, u, r);
  }

  /** The slope is linear. */
  lemma OneRoot(q: Cubic, k: real, x1: real, u: real, r: Interval)
    requires 0.0 <= u <= 1.0 && BoundsEnds(q, r) && BoundsAt(q, x1, r)
    requires forall x: real :: q.Slope(x) == k * (x - x1)
    ensures r.min <= q.At(u) <= r.max
  {
    hide Cubic.Slope, Cubic.At;
    if u <= x1 {
      var b := if x1 <= 1.0 then x1 else 1.0;
      forall x: real | 0.0 <= x <= b
        ensures if k <= 0.0 then q.Slope(x) >= 0.0 else q.Slope(x) <= 0.0
      {
        SignOfProduct(k, x - x1);
      }
      OnPiece(q, 0.0, b, k <= 0.0, u, r);
    } else {
      var a := if x1 >= 0.0 then x1 else 0.0;
      forall x: real | a <= x <= 1.0
        ensures if k >= 0.0 then q.Slope(x) >= 0.0 else q.Slope(x) <= 0.0
      {
        SignOfProduct(k, x - x1);
      }
      OnPiece(q, a, 1.0, k >= 0.0, u, r);
    }
  }

  lemma SignOfProduct(a: real, b: real)
    ensures (a >= 0.0 && b >= 0.0) || (a <= 0.0 && b <= 0.0) ==> a * b >= 0.0
    ensures (a >= 0.0 && b <= 0.0) || (a <= 0.0 && b >= 0.0) ==> a * b <= 0.0
  {
    if a >= 0.0 && b >= 0.0 { NonNegative(a, b); }
    if a <= 0.0 && b <= 0.0 { NonNegative(-a, -b); }
    if a >= 0.0 && b <= 0.0 { NonNegative(a, -b); }
    if a <= 0.0 && b >= 0.0 { NonNegative(-a, b); }
  }

  /** The slope is quadratic with two real roots. */
  lemma TwoRoots(q: Cubic, k: real, x1: real, x2: real, u: real, r: Interval)
    requires 0.0 <= u <= 1.0 && BoundsEnds(q, r) && BoundsAt(q, x1, r) && BoundsAt(q, x2, r)
    requires x1 <= x2
    requires forall x: real :: q.Slope(x) == k * ((x - x1) * (x - x2))
    ensures r.min <= q.At(u) <= r.max
  {
    hide Cubic.Slope, Cubic.At;
    var a := if u <= x1 then 0.0 else if u <= x2 then Larger(0.0, x1) else Larger(0.0, x2);
    var b := if u <= x1 then Smaller(1.0, x1) else if u <= x2 then Smaller(1.0, x2) else 1.0;
    var inside := x1 < u <= x2;
    var up := if inside then k <= 0.0 else k >= 0.0;
    forall x: real | a <= x <= b ensures if up then q.Slope(x) >= 0.0 else q.Slope(x) <= 0.0 {
      SignOfProduct(x - x1, x - x2);
      SignOfProduct(k, (x - x1) * (x - x2));
    }
    OnPiece(q, a, b, up, u, r);
  }

  function Larger(a: real, b: real): real { if a < b then b else a }

  function Smaller(a: real, b: real): real { if b < a then b else a }

  // ---- the slope's roots ----

  /** Discriminant of the slope. */
  function Discriminant(c: real, b: real, a: real): real { b * b - 4.0 * a * c }

  /** The roots that the solver reports for c + b x + a x^2, a not zero. */
  function QuadraticRoots(sqrt: real -> real, c: real, b: real, a: real): seq<Root>
    requires a != 0.0
  {
    var d := Discriminant(c, b, a);
    if IsZero(d) then [Real(-b / (2.0 * a))]
    else if d < 0.0 then [NaN, NaN]
    else [Real((-b - sqrt(d)) / (2.0 * a)), Real((-b + sqrt(d)) / (2.0 * a))]
  }

  lemma Factored(a: real, b: real, c: real, s: real, x1: real, x2: real, x: real)
    requires a != 0.0 && s * s == b * b - 4.0 * a * c
    requires x1 == (-b - s) / (2.0 * a) && x2 == (-b + s) / (2.0 * a)
    ensures c + b * x + a * (x * x) == a * ((x - x1) * (x - x2))
  {
    var p, t := 2.0 * a * x1, 2.0 * a * x2;
    assert p == -b - s && t == -b + s;
    SumAndProduct(a, b, c, s, x1, x2);
    assert (x - x1) * (x - x2) == x * x - (x1 + x2) * x + x1 * x2;
    assert a * ((x1 + x2) * x) == (a * (x1 + x2)) * x;
  }

  lemma SumAndProduct(a: real, b: real, c: real, s: real, x1: real, x2: real)
    requires a != 0.0 && s * s == b * b - 4.0 * a * c
    requires 2.0 * a * x1 == -b - s && 2.0 * a * x2 == -b + s
    ensures a * (x1 + x2) == -b && a * (x1 * x2) == c
  {
    assert (2.0 * a * x1) * (2.0 * a * x2) == (-b - s) * (-b + s) == b * b - s * s;
    assert (2.0 * a * x1) * (2.0 * a * x2) == 4.0 * a * (a * (x1 * x2));
    CancelFactor(4.0 * a, a * (x1 * x2), c);
  }

  lemma CancelFactor(k: real, x: real, y: real)
    requires k != 0.0 && k * x == k * y
    ensures x == y
  {
    assert k * (x - y) == 0.0;
  }

  /** With a negative discriminant the quadratic keeps the sign of its leading coefficient. */
  lemma NoRealRoots(a: real, b: real, c: real, x: real)
    requires a != 0.0 && b * b - 4.0 * a * c <= 0.0
    ensures a > 0.0 ==> c + b * x + a * (x * x) >= 0.0
    ensures a < 0.0 ==> c + b * x + a * (x * x) <= 0.0
  {
    var y := c + b * x + a * (x * x);
    var z := 2.0 * a * x + b;
    Completed(a, b, c, x);
    SignOfProduct(z, z);
    assert 4.0 * (a * y) >= 0.0;
    if a > 0.0 && y < 0.0 { NonNegative(a, -y); CancelFactor(a, y, 0.0); }
    if a < 0.0 && y > 0.0 { NonNegative(-a, y); CancelFactor(a, y, 0.0); }
  }

  lemma Completed(a: real, b: real, c: real, x: real)
    ensures var z := 2.0 * a * x + b;
            4.0 * (a * (c + b * x + a * (x * x))) == z * z - (b * b - 4.0 * a * c)
  {
  }

  // ---- the solver ----

  /** The comparisons with zero that the solver makes come out exactly. */
  ghost predicate Exact(cs: seq<real>) {
    (forall i :: 0 <= i < |cs| ==> Significant(cs[i]))
    && Significant(Discriminant(Coefficient(cs, 0), Coefficient(cs, 1), Coefficient(cs, 2)))
  }

  /** The roots that the solver reports for a polynomial of degree at most two. */
  function Roots(sqrt: real -> real, cs: seq<real>): seq<Root> {
    var n := Trim(cs, 1);
    if n == 1 then if IsZero(cs[0]) then [Real(0.0)] else []
    else if n == 2 then [Real(-cs[0] / cs[1])]
    else if n == 3 then QuadraticRoots(sqrt, cs[0], cs[1], cs[2])
    else []
  }

  lemma {:induction false} TrailingZeros(cs: seq<real>, n: nat, u: real)
    requires n <= |cs| && forall i :: n <= i < |cs| ==> cs[i] == 0.0
    ensures Eval(cs, u) == Eval(cs[..n], u)
    decreases |cs| - n
  {
    if n < |cs| {
      var m := |cs| - 1;
      TrailingZeros(cs[..m], n, u);
      assert cs[..m][..n] == cs[..n] && cs == cs[..m] + [0.0];
      EvalPadded(cs[..m], u);
    } else {
      assert cs[..n] == cs;
    }
  }

  lemma ExactTrim(cs: seq<real>, least: nat)
    requires forall i :: 0 <= i < |cs| ==> Significant(cs[i])
    ensures forall i :: Trim(cs, least) <= i < |cs| ==> cs[i] == 0.0
  {
    hide Trim;
    forall i | Trim(cs, least) <= i < |cs| ensures cs[i] == 0.0 {
      assert IsZero(cs[i]) && Significant(cs[i]);
    }
  }

  lemma Horner(cs: seq<real>, u: real)
    ensures |cs| <= 4 ==> Eval(cs, u) == AsCubic(cs).At(u)
  {
    if |cs| == 1 { assert cs[1..] == []; }
    if |cs| == 2 { assert cs[1..][1..] == []; }
    if |cs| == 3 { assert cs[1..][1..] == [cs[2]] && [cs[2]][1..] == []; }
    if |cs| == 4 { HornerFour(cs, u); }
  }

  lemma HornerFour(cs: seq<real>, u: real)
    requires |cs| == 4
    ensures Eval(cs, u) == AsCubic(cs).At(u)
  {
    var a, b, c := cs[1..], cs[2..], cs[3..];
    assert a[1..] == b && b[1..] == c && c[1..] == [];
    assert Eval(c, u) == cs[3] && Eval(b, u) == cs[2] + u * Eval(c, u);
    assert Eval(a, u) == cs[1] + u * Eval(b, u);
  }

  /** With at most four coefficients that are not zero the polynomial is a cubic. */
  lemma EvalIsCubic(cs: seq<real>, u: real)
    requires forall i :: 4 <= i < |cs| ==> cs[i] == 0.0
    ensures Eval(cs, u) == AsCubic(cs).At(u)
  {
    if |cs| <= 4 {
      Horner(cs, u);
    } else {
      TrailingZeros(cs, 4, u);
      Horner(cs[..4], u);
    }
  }

  /** Where the comparisons are exact, the solver reports the real roots, all of them and
      nothing else; the only exception is the zero polynomial. */
  lemma RootsComplete(sqrt: real -> real, cs: seq<real>, x: real)
    requires SquareRoot(sqrt) && Exact(cs) && 1 <= Trim(cs, 1) <= 3 && !IsZero(cs[Trim(cs, 1) - 1])
    ensures Real(x) in Roots(sqrt, cs) <==> Eval(cs, x) == 0.0
  {
    hide Trim, Eval, QuadraticRoots, Discriminant, Cubic.At, Quadratic;
    ExactTrim(cs, 1);
    EvalIsCubic(cs, x);
    AtSmall(AsCubic(cs), x);
    var n := Trim(cs, 1);
    if n == 2 {
      LinearRoot(cs[0], cs[1], x);
    } else if n == 3 {
      QuadraticComplete(sqrt, cs[0], cs[1], cs[2], x);
    } else {
      Constant(cs[0], x);
    }
  }

  function Quadratic(c: real, b: real, a: real, x: real): real { c + b * x + a * (x * x) }

  lemma AtSmall(q: Cubic, x: real)
    ensures q.c3 == 0.0 ==> q.At(x) == Quadratic(q.c0, q.c1, q.c2, x)
  {
  }

  lemma Constant(c: real, x: real)
    ensures Quadratic(c, 0.0, 0.0, x) == c
  {
  }

  lemma TimesQuotient(a: real, b: real)
    requires a != 0.0
    ensures a * (b / a) == b
  {
  }

  lemma LinearRoot(b: real, a: real, x: real)
    requires a != 0.0
    ensures b + a * x == a * (x - -b / a)
    ensures x == -b / a <==> Quadratic(b, a, 0.0, x) == 0.0
  {
    var r := -b / a;
    TimesQuotient(a, -b);
    if a * (x - r) == 0.0 && x != r { CancelFactor(a, x - r, 0.0); }
  }

  lemma ZeroProduct(a: real, b: real)
    ensures a * b == 0.0 <==> a == 0.0 || b == 0.0
  {
    if a != 0.0 && a * b == 0.0 { CancelFactor(a, b, 0.0); }
  }

  lemma QuadraticComplete(sqrt: real -> real, c: real, b: real, a: real, x: real)
    requires SquareRoot(sqrt) && a != 0.0 && Significant(Discriminant(c, b, a))
    ensures Real(x) in QuadraticRoots(sqrt, c, b, a) <==> Quadratic(c, b, a, x) == 0.0
  {
    var d := Discriminant(c, b, a);
    if d < 0.0 {
      Rootless(c, b, a, x);
    } else {
      var s := if d == 0.0 then 0.0 else sqrt(d);
      var x1, x2 := (-b - s) / (2.0 * a), (-b + s) / (2.0 * a);
      TwoRootsOnly(c, b, a, s, x1, x2, x);
    }
  }

  lemma Rootless(c: real, b: real, a: real, x: real)
    requires a != 0.0 && Discriminant(c, b, a) < 0.0
    ensures c + b * x + a * (x * x) != 0.0
  {
    var y, z := c + b * x + a * (x * x), 2.0 * a * x + b;
    Completed(a, b, c, x);
    SignOfProduct(z, z);
    SignOfProduct(a, y);
  }

  lemma TwoRootsOnly(c: real, b: real, a: real, s: real, x1: real, x2: real, x: real)
    requires a != 0.0 && s * s == Discriminant(c, b, a)
    requires x1 == (-b - s) / (2.0 * a) && x2 == (-b + s) / (2.0 * a)
    ensures x == x1 || x == x2 <==> c + b * x + a * (x * x) == 0.0
  {
    Factored(a, b, c, s, x1, x2, x);
    ZeroProduct(a, (x - x1) * (x - x2));
    ZeroProduct(x - x1, x - x2);
  }

  /** Finds the roots of a polynomial of degree at most two; higher degrees are refused. */
  method Solve(p: Poly, sqrt: real -> real) returns (status: Status, roots: seq<Root>)
    requires p.Valid()
    ensures status == if Trim(p.Contents(), 1) > 3 then EUnimplemented else Success
    ensures status == Success ==> roots == Roots(sqrt, p.Contents())
  {
    roots := [];
    var n: nat := p.numCoeffs;
    ghost var cs := p.Contents();
    assert cs[..n] == cs;
    while n > 1 && IsZero(p.coeffs[n - 1])
      invariant n <= |cs| && Trim(cs[..n], 1) == Trim(cs, 1)
    {
      assert cs[..n][..n - 1] == cs[..n - 1];
      n := n - 1;
    }
    if n == 0 {
      return Success, roots;
    }
    if n == 1 {
      if IsZero(p.coeffs[0]) { roots := [Real(0.0)]; }
    } else if n == 2 {
      roots := [Real(-p.coeffs[0] / p.coeffs[1])];
    } else if n == 3 {
      roots := QuadraticRoots(sqrt, p.coeffs[0], p.coeffs[1], p.coeffs[2]);
    } else {
      return EUnimplemented, roots;
    }
    status := Success;
  }

  // ---- the extrema ----

  /** The polynomial stays within the interval on [0, 1]. */
  ghost predicate Encloses(r: Interval, cs: seq<real>) {
    forall u: real :: 0.0 <= u <= 1.0 ==> r.min <= Eval(cs, u) <= r.max
  }

  ghost predicate TakenAt(cs: seq<real>, u: real, v: real) {
    0.0 <= u <= 1.0 && Eval(cs, u) == v
  }

  /** The polynomial takes this value on [0, 1]. */
  ghost predicate Takes(cs: seq<real>, v: real) { exists u :: TakenAt(cs, u, v) }

  /** The comparisons with zero that the search for extrema makes come out exactly. */
  ghost predicate Clean(cs: seq<real>) {
    (forall i :: 0 <= i < |cs| ==> Significant(cs[i]))
    && Significant(SlopeDiscriminant(AsCubic(cs)))
  }

  function SlopeDiscriminant(q: Cubic): real { Discriminant(q.c1, 2.0 * q.c2, 3.0 * q.c3) }

  /** The ends and the roots of the slope bound the whole piece. */
  lemma EndsAndRoots(sqrt: real -> real, q: Cubic, u: real, r: Interval)
    requires SquareRoot(sqrt) && 0.0 <= u <= 1.0 && BoundsEnds(q, r)
    requires Significant(SlopeDiscriminant(q))
    requires q.c3 != 0.0 || q.c2 != 0.0
    requires forall x: real :: Real(x) in SlopeRoots(sqrt, q) ==> BoundsAt(q, x, r)
    ensures r.min <= q.At(u) <= r.max
  {
    hide Cubic.At;
    if q.c3 == 0.0 {
      var x1 := -q.c1 / (2.0 * q.c2);
      hide Cubic.Slope;
      assert Real(x1) in SlopeRoots(sqrt, q);
      forall x: real ensures q.Slope(x) == (2.0 * q.c2) * (x - x1) { LinearSlope(q, x1, x); }
      OneRoot(q, 2.0 * q.c2, x1, u, r);
    } else {
      hide Cubic.Slope;
      CubicCase(sqrt, q, u, r);
    }
  }

  function SlopeRoots(sqrt: real -> real, q: Cubic): seq<Root>
    requires q.c3 != 0.0 || q.c2 != 0.0
  {
    if q.c3 == 0.0 then [Real(-q.c1 / (2.0 * q.c2))]
    else QuadraticRoots(sqrt, q.c1, 2.0 * q.c2, 3.0 * q.c3)
  }

  lemma LinearSlope(q: Cubic, x1: real, x: real)
    requires q.c3 == 0.0 && q.c2 != 0.0 && x1 == -q.c1 / (2.0 * q.c2)
    ensures q.Slope(x) == (2.0 * q.c2) * (x - x1)
  {
    LinearRoot(q.c1, 2.0 * q.c2, x);
  }

  lemma CubicCase(sqrt: real -> real, q: Cubic, u: real, r: Interval)
    requires SquareRoot(sqrt) && 0.0 <= u <= 1.0 && BoundsEnds(q, r)
    requires Significant(SlopeDiscriminant(q)) && q.c3 != 0.0
    requires forall x: real :: Real(x) in SlopeRoots(sqrt, q) ==> BoundsAt(q, x, r)
    ensures r.min <= q.At(u) <= r.max
  {
    hide Cubic.At, Cubic.Slope;
    var a, b := 3.0 * q.c3, 2.0 * q.c2;
    var d := SlopeDiscriminant(q);
    if d < 0.0 {
      forall x: real ensures if a > 0.0 then q.Slope(x) >= 0.0 else q.Slope(x) <= 0.0 {
        SignedSlope(q, x);
      }
      NoRoots(q, a > 0.0, u, r);
    } else {
      var s := if d == 0.0 then 0.0 else sqrt(d);
      var x1, x2 := (-b - s) / (2.0 * a), (-b + s) / (2.0 * a);
      assert Real(x1) in SlopeRoots(sqrt, q) && Real(x2) in SlopeRoots(sqrt, q);
      forall x: real ensures q.Slope(x) == a * ((x - x1) * (x - x2)) && q.Slope(x) == a * ((x - x2) * (x - x1)) {
        FactoredSlope(q, s, x1, x2, x);
      }
      if x1 <= x2 { TwoRoots(q, a, x1, x2, u, r); } else { TwoRoots(q, a, x2, x1, u, r); }
    }
  }

  lemma SignedSlope(q: Cubic, x: real)
    requires q.c3 != 0.0 && SlopeDiscriminant(q) <= 0.0
    ensures if 3.0 * q.c3 > 0.0 then q.Slope(x) >= 0.0 else q.Slope(x) <= 0.0
  {
    NoRealRoots(3.0 * q.c3, 2.0 * q.c2, q.c1, x);
  }

  lemma FactoredSlope(q: Cubic, s: real, x1: real, x2: real, x: real)
    requires q.c3 != 0.0 && s * s == SlopeDiscriminant(q)
    requires x1 == (-(2.0 * q.c2) - s) / (2.0 * (3.0 * q.c3))
    requires x2 == (-(2.0 * q.c2) + s) / (2.0 * (3.0 * q.c3))
    ensures q.Slope(x) == (3.0 * q.c3) * ((x - x1) * (x - x2))
    ensures q.Slope(x) == (3.0 * q.c3) * ((x - x2) * (x - x1))
  {
    Factored(3.0 * q.c3, 2.0 * q.c2, q.c1, s, x1, x2, x);
    assert (x - x1) * (x - x2) == (x - x2) * (x - x1);
  }

  lemma {:induction false} TrimIs(cs: seq<real>, least: nat, n: nat)
    requires least <= n <= |cs| && forall i :: n <= i < |cs| ==> IsZero(cs[i])
    requires n > least ==> !IsZero(cs[n - 1])
    ensures Trim(cs, least) == n
    decreases |cs| - n
  {
    if n < |cs| { TrimIs(cs[..|cs| - 1], least, n); }
  }

  /** The solver, run on the derivative, reports the roots of the slope. */
  lemma DerivRoots(sqrt: real -> real, cs: seq<real>)
    requires Clean(cs) && 3 <= Trim(cs, 2) <= 4
    ensures var q := AsCubic(cs);
            (q.c3 != 0.0 || q.c2 != 0.0)
            && Trim(Deriv(cs), 1) <= 3 && Roots(sqrt, Deriv(cs)) == SlopeRoots(sqrt, q)
  {
    hide Trim, QuadraticRoots;
    ExactTrim(cs, 2);
    var n, ds := Trim(cs, 2), Deriv(cs);
    DerivValues(cs);
    TrimIs(ds, 1, n - 1);
  }

  lemma DerivValues(cs: seq<real>)
    requires |cs| >= 3 && forall i :: 0 <= i < |cs| ==> Significant(cs[i])
    ensures |Deriv(cs)| == |cs| - 1
    ensures Deriv(cs)[0] == cs[1] && Deriv(cs)[1] == 2.0 * cs[2]
    ensures |cs| >= 4 ==> Deriv(cs)[2] == 3.0 * cs[3]
    ensures forall i :: 0 <= i < |cs| - 1 ==> (cs[i + 1] == 0.0 <==> IsZero(Deriv(cs)[i]))
  {
    forall i | 0 <= i < |cs| - 1 ensures cs[i + 1] == 0.0 <==> IsZero(Deriv(cs)[i]) {
      TimesSignificant(i + 1, cs[i + 1]);
    }
  }

  lemma TimesSignificant(k: nat, x: real)
    requires k >= 1 && Significant(x)
    ensures x == 0.0 <==> IsZero(Times(k, x))
  {
    if x > 0.0 { NonNegative(k as real - 1.0, x); }
    if x < 0.0 { NonNegative(k as real - 1.0, -x); }
  }

  function Straight(c0: real, c1: real): Interval {
    if c1 > 0.0 then Interval(c0, c0 + c1) else Interval(c0 + c1, c0)
  }

  /** Without curvature the ends bound the piece. */
  lemma StraightPiece(cs: seq<real>)
    requires Clean(cs) && Trim(cs, 2) <= 2
    ensures var r := Straight(Coefficient(cs, 0), Coefficient(cs, 1));
            Encloses(r, cs) && Takes(cs, r.min) && Takes(cs, r.max)
  {
    hide Trim, Eval, Clean;
    var c0, c1 := Coefficient(cs, 0), Coefficient(cs, 1);
    var r := Straight(c0, c1);
    hide Coefficient;
    forall u: real ensures Eval(cs, u) == Rising(c0, c1, u) { LineValue(cs, u); }
    forall u: real | 0.0 <= u <= 1.0 ensures r.min <= Eval(cs, u) <= r.max {
      LineBetween(c0, c1, u);
    }
    LineBetween(c0, c1, 0.0);
    assert TakenAt(cs, 0.0, c0) && TakenAt(cs, 1.0, c0 + c1);
  }

  function Rising(c0: real, c1: real, u: real): real { c0 + u * c1 }

  lemma LineValue(cs: seq<real>, u: real)
    requires Clean(cs) && Trim(cs, 2) <= 2
    ensures Eval(cs, u) == Rising(Coefficient(cs, 0), Coefficient(cs, 1), u)
  {
    hide Trim, Eval, Cubic.At, Rising;
    ExactTrim(cs, 2);
    EvalIsCubic(cs, u);
    AtLine(AsCubic(cs), u);
  }

  lemma AtLine(q: Cubic, u: real)
    ensures q.c3 == 0.0 && q.c2 == 0.0 ==> q.At(u) == Rising(q.c0, q.c1, u)
  {
  }

  lemma LineBetween(c0: real, c: real, u: real)
    requires 0.0 <= u <= 1.0
    ensures Straight(c0, c).min <= Rising(c0, c, u) <= Straight(c0, c).max
    ensures Rising(c0, c, 0.0) == c0 && Rising(c0, c, 1.0) == c0 + c
  {
    SignOfProduct(u, c);
    SignOfProduct(1.0 - u, c);
  }

  /** A candidate for an extremum has been taken into account. */
  ghost predicate Covered(r: Interval, cs: seq<real>, root: Root) {
    match root
    case NaN => true
    case Real(x) => 0.0 <= x <= 1.0 ==> r.min <= Eval(cs, x) <= r.max
  }

  ghost predicate Attained(r: Interval, cs: seq<real>) { Takes(cs, r.min) && Takes(cs, r.max) }

  /** The ends and all roots of the slope are in the interval: so is everything between. */
  lemma CoveredEncloses(sqrt: real -> real, cs: seq<real>, r: Interval)
    requires SquareRoot(sqrt) && Clean(cs) && 3 <= Trim(cs, 2) <= 4
    requires Covered(r, cs, Real(0.0)) && Covered(r, cs, Real(1.0))
    requires forall i :: 0 <= i < |Roots(sqrt, Deriv(cs))| ==> Covered(r, cs, Roots(sqrt, Deriv(cs))[i])
    ensures Encloses(r, cs)
  {
    hide Trim, Eval, Cubic.At, Roots;
    var q := AsCubic(cs);
    DerivRoots(sqrt, cs);
    ExactTrim(cs, 2);
    forall u: real ensures Eval(cs, u) == q.At(u) { EvalIsCubic(cs, u); }
    forall u: real | 0.0 <= u <= 1.0 ensures r.min <= Eval(cs, u) <= r.max {
      hide SlopeRoots, SlopeDiscriminant, AsCubic;
      EndsAndRoots(sqrt, q, u, r);
    }
  }

  /** The smallest interval that holds the polynomial on [0, 1]. The result is left unset
      when more than four coefficients are not negligible. */
  method GetExtrema(p: Poly, sqrt: real -> real) returns (status: Status, result: Option<Interval>)
    requires p.Valid() && SquareRoot(sqrt)
    ensures Trim(p.Contents(), 2) > 4 ==> status == Success && result == None
    ensures Trim(p.Contents(), 2) <= 4 && Clean(p.Contents()) ==>
              status == Success && result.Some?
              && Encloses(result.value, p.Contents()) && Attained(result.value, p.Contents())
  {
    hide Trim, Eval, Clean, Encloses, Attained, Deriv, Roots, Covered, SquareRoot;
    result := None;
    ghost var cs := p.Contents();
    var n: nat := Effective(p);
    if n == 0 {
      ShortPiece(cs);
      result := Some(Interval(0.0, 0.0));
    } else if n == 1 {
      ShortPiece(cs);
      result := Some(Interval(p.coeffs[0], p.coeffs[0]));
    } else if n == 2 {
      ShortPiece(cs);
      result := Some(Straight(p.coeffs[0], p.coeffs[1]));
    } else if n <= 4 {
      var deriv := new Poly();
      deriv.CopyFrom(p);
      deriv.Differentiate();
      var roots;
      status, roots := Solve(deriv, sqrt);
      ghost var clean := Clean(cs);
      if clean { DerivRoots(sqrt, cs); }
      if status != Success { return; }
      var y0 := p.EvalAt(0.0);
      var y1 := p.EvalAt(1.0);
      var r := if y0 > y1 then Interval(y1, y0) else Interval(y0, y1);
      StartInterval(r, cs);
      r := CoverRoots(p, roots, r);
      if clean { CoveredEncloses(sqrt, cs, r); }
      result := Some(r);
    }
    status := Success;
  }

  /** The loop over the roots: those in [0, 1] widen the interval. */
  method CoverRoots(p: Poly, roots: seq<Root>, start: Interval) returns (r: Interval)
    requires p.Valid() && Attained(start, p.Contents())
    ensures Attained(r, p.Contents())
    ensures forall root :: Covered(start, p.Contents(), root) || root in roots ==> Covered(r, p.Contents(), root)
  {
    hide Eval, Attained, Covered;
    ghost var cs := p.Contents();
    r := start;
    var k: nat := |roots|;
    while k > 0
      invariant k <= |roots| && Attained(r, cs) && r.min <= start.min && start.max <= r.max
      invariant forall i :: k <= i < |roots| ==> Covered(r, cs, roots[i])
    {
      k := k - 1;
      ghost var before := r;
      var y := 0.0;
      if roots[k].Real? && 0.0 <= roots[k].x <= 1.0 {
        y := p.EvalAt(roots[k].x);
        if y < r.min { r := r.(min := y); }
        if y > r.max { r := r.(max := y); }
      }
      Widened(before, r, cs, roots[k], y);
      forall i | k < i < |roots| ensures Covered(r, cs, roots[i]) {
        StillCovered(before, r, cs, roots[i]);
      }
    }
    forall root | Covered(start, cs, root) ensures Covered(r, cs, root) {
      StillCovered(start, r, cs, root);
    }
  }

  /** How many coefficients are left when negligible ones at the end are cut. */
  method Effective(p: Poly) returns (n: nat)
    requires p.Valid()
    ensures n == Trim(p.Contents(), 2)
  {
    n := p.numCoeffs;
    ghost var cs := p.Contents();
    assert cs[..n] == cs;
    while n > 2 && IsZero(p.coeffs[n - 1])
      invariant n <= |cs| && Trim(cs[..n], 2) == Trim(cs, 2)
    {
      assert cs[..n][..n - 1] == cs[..n - 1];
      n := n - 1;
    }
  }

  lemma ShortPiece(cs: seq<real>)
    requires Trim(cs, 2) <= 2
    ensures Clean(cs) ==>
              var c0, c1 := Coefficient(cs, 0), Coefficient(cs, 1);
              Encloses(Straight(c0, c1), cs) && Attained(Straight(c0, c1), cs)
    ensures Trim(cs, 2) < 2 ==> |cs| == Trim(cs, 2)
  {
    hide Trim, Eval, Encloses;
    if Clean(cs) { StraightPiece(cs); }
  }

  lemma StartInterval(r: Interval, cs: seq<real>)
    requires var y0, y1 := Eval(cs, 0.0), Eval(cs, 1.0);
             r == if y0 > y1 then Interval(y1, y0) else Interval(y0, y1)
    ensures Covered(r, cs, Real(0.0)) && Covered(r, cs, Real(1.0)) && Attained(r, cs)
  {
    hide Eval;
    assert TakenAt(cs, 0.0, Eval(cs, 0.0)) && TakenAt(cs, 1.0, Eval(cs, 1.0));
  }

  lemma Widened(before: Interval, r: Interval, cs: seq<real>, root: Root, y: real)
    requires Attained(before, cs)
    requires if root.Real? && 0.0 <= root.x <= 1.0
             then y == Eval(cs, root.x) && r.min == (if y < before.min then y else before.min)
                  && r.max == (if y > before.max then y else before.max)
             else r == before
    ensures Covered(r, cs, root) && Attained(r, cs)
    ensures r.min <= before.min && before.max <= r.max
  {
    hide Eval;
    if root.Real? && 0.0 <= root.x <= 1.0 { assert TakenAt(cs, root.x, y); }
  }

  lemma StillCovered(before: Interval, r: Interval, cs: seq<real>, root: Root)
    requires r.min <= before.min && before.max <= r.max && Covered(before, cs, root)
    ensures Covered(r, cs, root)
  {
    hide Eval;
  }

  // ---- integer coefficients ----

  /** Integers are never mistaken for zero. */
  lemma IntegersClean(cs: seq<real>)
    requires forall i :: 0 <= i < |cs| ==> IsInt(cs[i])
    ensures Clean(cs)
  {
    forall i | 0 <= i < |cs| ensures Significant(cs[i]) { IntegerSignificant(cs[i].Floor); }
    var q := AsCubic(cs);
    var a, b, c := 3 * q.c3.Floor, 2 * q.c2.Floor, q.c1.Floor;
    IntegerDiscriminant(c, b, a);
    IntegerSignificant(b * b - 4 * a * c);
  }

  lemma IntegerSignificant(n: int)
    ensures Significant(n as real)
  {
  }

  lemma IntegerDiscriminant(c: int, b: int, a: int)
    ensures Discriminant(c as real, b as real, a as real) == (b * b - 4 * a * c) as real
  {
    IntegerProduct(b, b);
    IntegerProduct(4 * a, c);
  }

  lemma IntegerProduct(m: int, n: int)
    ensures m as real * n as real == (m * n) as real
  {
  }
}
