/** The memory trend of the soak: a least-squares slope. */
module Slope {

  /** Multiplication, under a name that a proof about sums can leave closed. */
  function Times(a: real, b: real): real {
    a * b
  }

  function Sum(xs: seq<real>): real {
    if xs == [] then 0.0 else Sum(xs[..|xs| - 1]) + xs[|xs| - 1]
  }

  function Mean(xs: seq<real>): real
    requires xs != []
  {
    Sum(xs) / (|xs| as real)
  }

  /** The sum of the products of the deviations from `mx` and `my`. */
  function Products(xs: seq<real>, ys: seq<real>, mx: real, my: real): real
    requires |xs| == |ys|
  {
    if xs == [] then 0.0
    else Products(xs[..|xs| - 1], ys[..|xs| - 1], mx, my) + Times(xs[|xs| - 1] - mx, ys[|xs| - 1] - my)
  }

  /** How far the point lies from the line `y = a*x + b`. */
  function Residual(x: real, y: real, a: real, b: real): real {
    y - (Times(a, x) + b)
  }

  /** How badly the line fits: the sum of the squared residuals. */
  function Misfit(xs: seq<real>, ys: seq<real>, a: real, b: real): real
    requires |xs| == |ys|
  {
    if xs == [] then 0.0
    else
      Misfit(xs[..|xs| - 1], ys[..|xs| - 1], a, b)
      + Times(Residual(xs[|xs| - 1], ys[|xs| - 1], a, b), Residual(xs[|xs| - 1], ys[|xs| - 1], a, b))
  }

  predicate AllEqual(xs: seq<real>) {
    forall i, j :: 0 <= i < |xs| && 0 <= j < |xs| ==> xs[i] == xs[j]
  }

  /** The intercept that belongs to a slope: the line through the means. */
  function Through(xs: seq<real>, ys: seq<real>, slope: real): real
    requires xs != [] && ys != []
  {
    Mean(ys) - Times(slope, Mean(xs))
  }

  /** The line of this slope through the means fits better than every other line. */
  ghost predicate IsBest(xs: seq<real>, ys: seq<real>, slope: real)
    requires |xs| == |ys| > 0
  {
    forall a, b :: a != slope || b != Through(xs, ys, slope) ==>
      Misfit(xs, ys, slope, Through(xs, ys, slope)) < Misfit(xs, ys, a, b)
  }

  method SlopeOf(xs: seq<real>, ys: seq<real>) returns (slope: real)
    requires |xs| == |ys|
    ensures |xs| < 2 || AllEqual(xs) ==> slope == 0.0
    ensures |xs| >= 2 && !AllEqual(xs) ==> IsBest(xs, ys, slope)
  {
    hide Misfit, Mean, Times, IsBest, AllEqual;
    var n := |xs|;
    if n < 2 { return 0.0; }
    var mx, my := Mean(xs), Mean(ys);
    var num, den := 0.0, 0.0;
    for i := 0 to n
      invariant num == Products(xs[..i], ys[..i], mx, my)
      invariant den == Products(xs[..i], xs[..i], mx, mx)
    {
      assert xs[..i + 1][..i] == xs[..i] && ys[..i + 1][..i] == ys[..i];
      num := num + Times(xs[i] - mx, ys[i] - my);
      den := den + Times(xs[i] - mx, xs[i] - mx);
    }
    assert xs[..n] == xs && ys[..n] == ys;
    SpreadIsZeroIff(xs);
    if den == 0.0 { return 0.0; }
    slope := num / den;
    Quotient(num, den, slope);
    BestOfAll(xs, ys, slope);
  }

  // ----- products -----

  lemma TimesAdd(a: real, b: real, c: real)
    ensures Times(a, b + c) == Times(a, b) + Times(a, c)
    ensures Times(b + c, a) == Times(b, a) + Times(c, a)
  {}

  lemma TimesSub(a: real, b: real, c: real)
    ensures Times(a, b - c) == Times(a, b) - Times(a, c)
    ensures Times(b - c, a) == Times(b, a) - Times(c, a)
  {}

  lemma TimesAssoc(a: real, b: real, c: real)
    ensures Times(a, Times(b, c)) == Times(Times(a, b), c)
  {}

  lemma TimesComm(a: real, b: real)
    ensures Times(a, b) == Times(b, a)
  {}

  lemma TimesUnits(a: real)
    ensures Times(a, 0.0) == 0.0 == Times(0.0, a)
    ensures Times(a, 1.0) == a == Times(1.0, a)
  {}

  lemma SquareSign(d: real)
    ensures Times(d, d) >= 0.0
    ensures d != 0.0 ==> Times(d, d) > 0.0
  {
    if d > 0.0 { PositiveTimes(d, d); }
    if d < 0.0 {
      PositiveTimes(-d, -d);
      assert Times(-d, -d) == Times(d, d);
    }
  }

  lemma PositiveTimes(k: real, q: real)
    requires k > 0.0 && q >= 0.0
    ensures Times(k, q) >= 0.0 && (q > 0.0 ==> Times(k, q) > 0.0)
  {}

  lemma Quotient(num: real, den: real, s: real)
    requires den != 0.0 && s == num / den
    ensures Times(s, den) == num
  {}

  // ----- sums -----

  lemma {:induction false} ProductsOfDeviations(xs: seq<real>, mx: real)
    ensures Products(xs, xs, mx, mx) >= 0.0
    ensures Products(xs, xs, mx, mx) == 0.0 <==> forall i :: 0 <= i < |xs| ==> xs[i] == mx
  {
    hide Times;
    TimesUnits(0.0);
    if xs == [] {
    } else {
      ProductsOfDeviations(xs[..|xs| - 1], mx);
      SquareSign(xs[|xs| - 1] - mx);
    }
  }

  lemma {:induction false} SumOfConstant(xs: seq<real>, c: real)
    requires forall i :: 0 <= i < |xs| ==> xs[i] == c
    ensures Sum(xs) == Times(|xs| as real, c)
  {
    hide Times;
    TimesUnits(c);
    if xs == [] {
    } else {
      SumOfConstant(xs[..|xs| - 1], c);
      TimesAdd(c, |xs[..|xs| - 1]| as real, 1.0);
      assert |xs| as real == |xs[..|xs| - 1]| as real + 1.0;
    }
  }

  lemma MeanTimes(xs: seq<real>)
    requires xs != []
    ensures Times(|xs| as real, Mean(xs)) == Sum(xs)
  {}

  lemma SameProduct(n: real, a: real, b: real)
    requires n > 0.0 && Times(n, a) == Times(n, b)
    ensures a == b
  {}

  /** The denominator is zero exactly when all samples have the same x. */
  lemma SpreadIsZeroIff(xs: seq<real>)
    requires xs != []
    ensures Products(xs, xs, Mean(xs), Mean(xs)) >= 0.0
    ensures Products(xs, xs, Mean(xs), Mean(xs)) == 0.0 <==> AllEqual(xs)
  {
    MeanTimes(xs);
    hide Times, Mean, Products;
    ProductsOfDeviations(xs, Mean(xs));
    if AllEqual(xs) {
      SumOfConstant(xs, xs[0]);
      SameProduct(|xs| as real, xs[0], Mean(xs));
    }
  }

  /** The sum of the deviations from `m`. */
  function Deviations(xs: seq<real>, m: real): real {
    if xs == [] then 0.0 else Deviations(xs[..|xs| - 1], m) + (xs[|xs| - 1] - m)
  }

  lemma {:induction false} DeviationsAre(xs: seq<real>, m: real)
    ensures Deviations(xs, m) == Sum(xs) - Times(|xs| as real, m)
  {
    hide Times;
    TimesUnits(m);
    if xs == [] {
    } else {
      DeviationsAre(xs[..|xs| - 1], m);
      TimesAdd(m, |xs[..|xs| - 1]| as real, 1.0);
      assert |xs| as real == |xs[..|xs| - 1]| as real + 1.0;
    }
  }

  lemma DeviationsFromMeanCancel(xs: seq<real>)
    requires xs != []
    ensures Deviations(xs, Mean(xs)) == 0.0
  {
    DeviationsAre(xs, Mean(xs));
    MeanTimes(xs);
  }

  /** A square residual in terms of the deviations `u`, `v` of its point from a centre and the
      distance `d` of the line from the centre. */
  lemma SquareOfResidual(u: real, v: real, a: real, d: real, r: real)
    requires r == v - Times(a, u) + d
    ensures Times(r, r) == Times(v, v) + Times(Times(a, a), Times(u, u)) - 2.0 * Times(a, Times(u, v))
                           + Times(d, d) + 2.0 * Times(d, v - Times(a, u))
  {
    var w := v - Times(a, u);
    var au := Times(a, u);
    hide Times;
    TimesAdd(r, w, d);
    TimesAdd(w, w, d);
    TimesAdd(d, w, d);
    TimesComm(w, d);
    assert Times(r, r) == Times(w, w) + 2.0 * Times(d, w) + Times(d, d);
    TimesSub(w, v, au);
    TimesSub(v, v, au);
    TimesSub(au, v, au);
    TimesComm(v, au);
    assert Times(w, w) == Times(v, v) - 2.0 * Times(au, v) + Times(au, au);
    TimesAssoc(a, u, v);
    SquareOfProduct(a, u);
  }

  lemma SquareOfProduct(a: real, u: real)
    ensures Times(Times(a, u), Times(a, u)) == Times(Times(a, a), Times(u, u))
  {
    var x := a * u;
    assert x * x == a * (u * x);
    assert u * x == (u * a) * u == (a * u) * u == a * (u * u);
    assert a * (a * (u * u)) == (a * a) * (u * u);
  }

  lemma ResidualFromCentre(x: real, y: real, mx: real, my: real, a: real, b: real)
    ensures Residual(x, y, a, b) == (y - my) - Times(a, x - mx) + (my - Times(a, mx) - b)
  {
    TimesSub(a, x, mx);
  }

  /** The misfit of any line in terms of the deviations from any centre, `d` being the distance of
      the line from that centre. */
  lemma {:induction false} MisfitExpands(xs: seq<real>, ys: seq<real>, mx: real, my: real, a: real, b: real, d: real)
    requires |xs| == |ys| && d == my - Times(a, mx) - b
    ensures Misfit(xs, ys, a, b) ==
              Products(ys, ys, my, my) + Times(Times(a, a), Products(xs, xs, mx, mx)) - 2.0 * Times(a, Products(xs, ys, mx, my))
              + Times(|xs| as real, Times(d, d)) + 2.0 * Times(d, Deviations(ys, my) - Times(a, Deviations(xs, mx)))
  {
    hide Times, Residual;
    TimesUnits(a);
    TimesUnits(d);
    TimesUnits(Times(a, a));
    TimesUnits(Times(d, d));
    if xs == [] {
    } else {
      var k := |xs| - 1;
      var x, y, xi, yi := xs[k], ys[k], xs[..k], ys[..k];
      var u, v, r := x - mx, y - my, Residual(x, y, a, b);
      MisfitExpands(xi, yi, mx, my, a, b, d);
      ResidualFromCentre(x, y, mx, my, a, b);
      SquareOfResidual(u, v, a, d, r);
      assert |xs| as real == |xi| as real + 1.0;
      TimesAdd(Times(a, a), Products(xi, xi, mx, mx), Times(u, u));
      TimesAdd(a, Products(xi, yi, mx, my), Times(u, v));
      TimesAdd(Times(d, d), |xi| as real, 1.0);
      TimesAdd(a, Deviations(xi, mx), u);
      TimesAdd(d, Deviations(yi, my) - Times(a, Deviations(xi, mx)), v - Times(a, u));
      assert Deviations(ys, my) - Times(a, Deviations(xs, mx)) ==
             (Deviations(yi, my) - Times(a, Deviations(xi, mx))) + (v - Times(a, u));
    }
  }

  /** From the means, only the slope's and the intercept's own errors are left. */
  lemma MisfitFromMeans(xs: seq<real>, ys: seq<real>, a: real, b: real, d: real)
    requires |xs| == |ys| >= 1 && d == Mean(ys) - Times(a, Mean(xs)) - b
    ensures Misfit(xs, ys, a, b) ==
              Products(ys, ys, Mean(ys), Mean(ys)) + Times(Times(a, a), Products(xs, xs, Mean(xs), Mean(xs)))
              - 2.0 * Times(a, Products(xs, ys, Mean(xs), Mean(ys))) + Times(|xs| as real, Times(d, d))
  {
    hide Misfit, Products, Mean, Times;
    DeviationsFromMeanCancel(xs);
    DeviationsFromMeanCancel(ys);
    MisfitExpands(xs, ys, Mean(xs), Mean(ys), a, b, d);
    TimesUnits(a);
    TimesUnits(d);
  }

  /** Completing the square in the slope. */
  lemma Gap(a: real, s: real, sxx: real)
    ensures (Times(Times(a, a), sxx) - 2.0 * Times(a, Times(s, sxx))) - (Times(Times(s, s), sxx) - 2.0 * Times(s, Times(s, sxx)))
            == Times(sxx, Times(a - s, a - s))
  {
    hide Times;
    TimesAssoc(a, s, sxx);
    TimesAssoc(s, s, sxx);
    TimesSub(a - s, a, s);
    TimesSub(a, a, s);
    TimesSub(s, a, s);
    TimesComm(a, s);
    var q := Times(a - s, a - s);
    assert q == Times(a, a) - 2.0 * Times(a, s) + Times(s, s);
    TimesComm(sxx, q);
    TimesAdd(sxx, Times(a, a) - Times(a, s) - Times(a, s), Times(s, s));
    TimesSub(sxx, Times(a, a) - Times(a, s), Times(a, s));
    TimesSub(sxx, Times(a, a), Times(a, s));
  }

  /** No line fits better than the least-squares line, and no other line fits as well. */
  lemma LeastSquares(xs: seq<real>, ys: seq<real>, s: real, a: real, b: real)
    requires |xs| == |ys| >= 1 && Products(xs, xs, Mean(xs), Mean(xs)) > 0.0
    requires Times(s, Products(xs, xs, Mean(xs), Mean(xs))) == Products(xs, ys, Mean(xs), Mean(ys))
    requires a != s || b != Through(xs, ys, s)
    ensures Misfit(xs, ys, s, Through(xs, ys, s)) < Misfit(xs, ys, a, b)
  {
    hide Misfit, Products, Mean, Times;
    var n, c := |xs| as real, Through(xs, ys, s);
    var sxx := Products(xs, xs, Mean(xs), Mean(xs));
    var d := Mean(ys) - Times(a, Mean(xs)) - b;
    MisfitFromMeans(xs, ys, a, b, d);
    MisfitFromMeans(xs, ys, s, c, 0.0);
    TimesUnits(0.0);
    TimesUnits(n);
    Gap(a, s, sxx);
    SquareSign(a - s);
    SquareSign(d);
    PositiveTimes(sxx, Times(a - s, a - s));
    PositiveTimes(n, Times(d, d));
  }

  lemma BestOfAll(xs: seq<real>, ys: seq<real>, s: real)
    requires |xs| == |ys| >= 1 && Products(xs, xs, Mean(xs), Mean(xs)) > 0.0
    requires Times(s, Products(xs, xs, Mean(xs), Mean(xs))) == Products(xs, ys, Mean(xs), Mean(ys))
    ensures IsBest(xs, ys, s)
  {
    hide Misfit, Products, Mean, Times;
    forall a, b | a != s || b != Through(xs, ys, s)
      ensures Misfit(xs, ys, s, Through(xs, ys, s)) < Misfit(xs, ys, a, b)
    {
      LeastSquares(xs, ys, s, a, b);
    }
  }
}
