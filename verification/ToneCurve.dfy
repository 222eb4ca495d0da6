/**
  The tone curve eetf_2390_t (src/color_helpers.h), the EETF of section 5.4.1 of Report ITU-R BT.2390-8, over the
  reals. `e` is a value relative to the source range, E1 of the report; E2 is after the roll-off at the high end
  and E3 after the pedestal at the low end.
*/
module ToneCurve {
  import opened Lut1D

  // ----- The curve -----

  /** The fields init_pq computes: sourceBlack, sourcePQScale, invSourcePQScale, minLumPQ, maxLumPQ and ks. */
  datatype Fit = Fit(black: real, scale: real, inv: real, minLum: real, maxLum: real, ks: real)

  function Scaled(x: real, scale: real): real {
    x * scale
  }

  function Knee(maxLum: real): real {
    1.5 * maxLum - 0.5
  }

  function FitOf(sourceBlack: real, sourceWhite: real, targetBlack: real, targetWhite: real): Fit {
    var scale := sourceWhite - sourceBlack;
    var inv := if scale > 0.0 then 1.0 / scale else 0.0;
    var maxLum := Scaled(targetWhite - sourceBlack, inv);
    Fit(sourceBlack, scale, inv, Scaled(targetBlack - sourceBlack, inv), maxLum, Knee(maxLum))
  }

  /** _eetf_2390_spline, with the powers of t taken apart. The source divides by 1 - ks without a guard. */
  function Hermite(t: real, ks: real, maxLum: real): real {
    var t2 := t * t;
    var t3 := t2 * t;
    var v1 := (2.0 * t3 - 3.0 * t2 + 1.0) * ks;
    var v2 := (t3 - 2.0 * t2 + t) * (1.0 - ks);
    var v3 := (-2.0 * t3 + 3.0 * t2) * maxLum;
    v1 + v2 + v3
  }

  function Spline(e: real, ks: real, maxLum: real): real
    requires ks != 1.0
  {
    Hermite((e - ks) / (1.0 - ks), ks, maxLum)
  }

  function RollOff(e: real, ks: real, maxLum: real): real
    requires ks != 1.0
  {
    if e < ks then e else Spline(e, ks, maxLum)
  }

  function Pedestal(e2: real, minLum: real): real {
    var rest := 1.0 - e2;
    var square := rest * rest;
    e2 + minLum * (square * square)
  }

  function E3(f: Fit, e: real): real
    requires f.ks != 1.0
  {
    Pedestal(RollOff(e, f.ks, f.maxLum), f.minLum)
  }

  function ApplyPq(f: Fit, value: real): real
    requires f.ks != 1.0
  {
    Scaled(E3(f, Scaled(value - f.black, f.inv)), f.scale) + f.black
  }

  class Eetf2390 {
    var sourceBlack: real
    var sourceScale: real
    var invSourceScale: real
    var minLum: real
    var maxLum: real
    var ks: real

    function Value(): Fit
      reads this
    {
      Fit(sourceBlack, sourceScale, invSourceScale, minLum, maxLum, ks)
    }

    constructor ()
      ensures Value() == Fit(0.0, 0.0, 0.0, 0.0, 0.0, 0.0)
    {
      sourceBlack, sourceScale, invSourceScale, minLum, maxLum, ks := 0.0, 0.0, 0.0, 0.0, 0.0, 0.0;
    }

    method InitPq(black: real, white: real, targetBlack: real, targetWhite: real)
      modifies this
      ensures Value() == FitOf(black, white, targetBlack, targetWhite)
    {
      sourceBlack := black;
      sourceScale := white - black;
      invSourceScale := if sourceScale > 0.0 then 1.0 / sourceScale else 0.0;
      minLum := Scaled(targetBlack - black, invSourceScale);
      maxLum := Scaled(targetWhite - black, invSourceScale);
      ks := Knee(maxLum);
    }
  }

  // ----- The roll-off -----

  ghost function Cubed(x: real): real {
    x * x * x
  }

  /** The cubic the spline amounts to, by the distance `left` to the end of the range in units of 1 - ks. */
  ghost function Cubic(left: real, maxLum: real): real {
    maxLum - Scaled((1.0 - maxLum) / 2.0, Cubed(left))
  }

  lemma HermiteIsCubic(t: real, maxLum: real)
    ensures Hermite(t, Knee(maxLum), maxLum) == Cubic(1.0 - t, maxLum)
  {}

  lemma OneMinusQuotient(a: real, q: real)
    requires q != 0.0
    ensures 1.0 - a / q == (q - a) / q
  {
    assert (q - a) / q == q / q - a / q;
  }

  /** With ks fitted to maxLum the Hermite spline is maxLum - (1 - maxLum) / 2 * (1 - t)^3. */
  lemma SplineIsCubic(e: real, maxLum: real)
    requires maxLum != 1.0
    ensures Spline(e, Knee(maxLum), maxLum) == Cubic((1.0 - e) / (1.0 - Knee(maxLum)), maxLum)
  {
    hide Hermite, Cubic;
    var ks := Knee(maxLum);
    var t := (e - ks) / (1.0 - ks);
    OneMinusQuotient(e - ks, 1.0 - ks);
    HermiteIsCubic(t, maxLum);
  }

  ghost function SquareSum(a: real, b: real): real {
    a * a + a * b + b * b
  }

  lemma CubesDiffer(a: real, b: real)
    ensures Cubed(a) - Cubed(b) == Scaled(a - b, SquareSum(a, b))
  {}

  lemma SquareSumBounds(a: real, b: real)
    requires 0.0 <= b <= a <= 1.0
    ensures 0.0 <= SquareSum(a, b) <= 3.0
    ensures 0.0 < a ==> 0.0 < SquareSum(a, b)
  {
    assert SquareSum(a, b) == Scaled(a, a) + Scaled(a, b) + Scaled(b, b);
    hide SquareSum, Scaled;
    UnitProduct(a, a);
    UnitProduct(a, b);
    UnitProduct(b, b);
  }

  lemma UnitProduct(x: real, y: real)
    requires 0.0 <= x <= 1.0 && 0.0 <= y <= 1.0
    ensures 0.0 <= Scaled(x, y) <= 1.0
    ensures 0.0 < x && 0.0 < y ==> 0.0 < Scaled(x, y)
  {
    hide Scaled;
    ScaledBounds(x, y, 1.0);
    ScaledByConstants(x);
  }

  lemma ScaledBounds(x: real, y: real, hi: real)
    requires 0.0 <= x && 0.0 <= y <= hi
    ensures 0.0 <= Scaled(x, y) <= Scaled(x, hi)
    ensures 0.0 < x && 0.0 < y ==> 0.0 < Scaled(x, y)
  {
    assert x * (hi - y) >= 0.0;
  }

  lemma ScaledByConstants(x: real)
    ensures Scaled(x, 0.0) == 0.0 && Scaled(x, 1.0) == x && Scaled(x, 3.0) == 3.0 * x && Scaled(x, 4.0) == 4.0 * x
    ensures Scaled(0.0, x) == 0.0 && Scaled(1.0, x) == x
  {}

  lemma CubesApart(a: real, b: real)
    requires 0.0 <= b <= a <= 1.0
    ensures 0.0 <= Cubed(a) - Cubed(b) <= 3.0 * (a - b)
    ensures b < a ==> Cubed(b) < Cubed(a)
  {
    CubesDiffer(a, b);
    SquareSumBounds(a, b);
    hide Cubed, SquareSum, Scaled;
    ScaledBounds(a - b, SquareSum(a, b), 3.0);
    ScaledByConstants(a - b);
  }

  /** The cubic between two distances, with the factor that is a third of 1 - ks. */
  lemma CubicRises(a: real, b: real, maxLum: real)
    requires maxLum < 1.0 && 0.0 <= b <= a <= 1.0
    ensures 0.0 <= Cubic(b, maxLum) - Cubic(a, maxLum) <= Scaled(1.0 - Knee(maxLum), a - b)
    ensures b < a ==> Cubic(a, maxLum) < Cubic(b, maxLum)
  {
    CubesApart(a, b);
    CubicStep(a, b, maxLum);
    var third := (1.0 - Knee(maxLum)) / 3.0;
    ThirdOf(third, a - b);
    hide Cubed, Cubic, Scaled;
    ScaledBounds(third, Cubed(a) - Cubed(b), 3.0 * (a - b));
  }

  lemma ThirdOf(third: real, x: real)
    ensures Scaled(third, 3.0 * x) == Scaled(3.0 * third, x)
  {}

  /** Past the knee the curve rises, but never faster than its input. */
  lemma SplineRises(e: real, e': real, maxLum: real)
    requires maxLum < 1.0 && Knee(maxLum) <= e <= e' <= 1.0
    ensures 0.0 <= Spline(e', Knee(maxLum), maxLum) - Spline(e, Knee(maxLum), maxLum) <= e' - e
    ensures e < e' ==> Spline(e, Knee(maxLum), maxLum) < Spline(e', Knee(maxLum), maxLum)
  {
    SplineIsCubic(e, maxLum);
    SplineIsCubic(e', maxLum);
    hide Spline, Cubic;
    var q := 1.0 - Knee(maxLum);
    QuotientsInUnit(1.0 - e, 1.0 - e', q);
    hide Scaled;
    CubicRises((1.0 - e) / q, (1.0 - e') / q, maxLum);
  }

  lemma CubicStep(a: real, b: real, maxLum: real)
    ensures Cubic(b, maxLum) - Cubic(a, maxLum) == Scaled((1.0 - Knee(maxLum)) / 3.0, Cubed(a) - Cubed(b))
  {
    hide Cubed;
  }

  lemma QuotientsInUnit(x: real, y: real, q: real)
    requires 0.0 <= y <= x <= q && 0.0 < q
    ensures 0.0 <= y / q <= x / q <= 1.0
    ensures Scaled(q, x / q - y / q) == x - y
    ensures y < x ==> y / q < x / q
  {
    var a, b := x / q, y / q;
    assert q * a == x && q * b == y;
    assert q * (a - b) == x - y;
    if a < b { Positive(q, b - a); }
  }

  lemma SplineEnds(maxLum: real)
    requires maxLum != 1.0
    ensures Spline(Knee(maxLum), Knee(maxLum), maxLum) == Knee(maxLum)
    ensures Spline(1.0, Knee(maxLum), maxLum) == maxLum
  {
    var q := 1.0 - Knee(maxLum);
    assert (1.0 - Knee(maxLum)) / q == 1.0;
    assert 0.0 / q == 0.0;
  }

  /**
    The roll-off is strictly increasing and 1-Lipschitz over the source range, across the knee too: there is no
    jump there and no place where contrast grows.
  */
  lemma RollOffRises(e: real, e': real, maxLum: real)
    requires maxLum != 1.0 && e <= e' <= 1.0
    ensures 0.0 <= RollOff(e', Knee(maxLum), maxLum) - RollOff(e, Knee(maxLum), maxLum) <= e' - e
    ensures e < e' ==> RollOff(e, Knee(maxLum), maxLum) < RollOff(e', Knee(maxLum), maxLum)
  {
    hide Spline;
    var ks := Knee(maxLum);
    SplineEnds(maxLum);
    if ks <= e {
      SplineRises(e, e', maxLum);
    } else if ks <= e' {
      SplineRises(ks, e', maxLum);
    }
  }

  /** Where the source range lands: its white on the target's, its black on itself unless the knee is below it. */
  lemma RollOffEnds(maxLum: real)
    requires maxLum != 1.0
    ensures maxLum >= 1.0 / 3.0 ==> RollOff(0.0, Knee(maxLum), maxLum) == 0.0
    ensures maxLum < 1.0 / 3.0 ==> RollOff(0.0, Knee(maxLum), maxLum) < 0.0
    ensures RollOff(1.0, Knee(maxLum), maxLum) == if maxLum < 1.0 then maxLum else 1.0
  {
    hide Spline;
    SplineEnds(maxLum);
    if maxLum < 1.0 / 3.0 {
      SplineIsCubic(0.0, maxLum);
      CubicBelowBlack(1.0 - Knee(maxLum));
    }
  }

  /** With the knee below black, at 1 - q, the cubic has left the diagonal by the time it is at black. */
  lemma CubicBelowBlack(q: real)
    requires 1.0 < q
    ensures Cubic(1.0 / q, 1.0 - 2.0 * q / 3.0) < 0.0
  {
    var c := 1.0 / q;
    assert q * c == 1.0;
    var y := Cubic(c, 1.0 - 2.0 * q / 3.0);
    assert y == 1.0 - 2.0 * q / 3.0 - c * c / 3.0 by { CubeTimes(q, c); }
    var square := q * q;
    Positive(q, q);
    assert square * (c * c) == 1.0 by { SquareTimes(q, c); }
    BelowDiagonal(q);
    assert 3.0 * (square * y) == 3.0 * square - 2.0 * (square * q) - square * (c * c);
    NegativeFactor(square, y);
  }

  lemma NegativeFactor(x: real, y: real)
    requires 0.0 < x && x * y < 0.0
    ensures y < 0.0
  {
    assert y >= 0.0 ==> x * y >= 0.0;
  }

  lemma SquareTimes(q: real, c: real)
    requires q * c == 1.0
    ensures q * q * (c * c) == 1.0
  {
    assert q * q * (c * c) == (q * c) * (q * c);
  }

  lemma CubeTimes(q: real, c: real)
    requires q * c == 1.0
    ensures Scaled(q / 3.0, Cubed(c)) == c * c / 3.0
  {
    assert q / 3.0 * (c * c * c) == (q * c) * (c * c) / 3.0;
  }

  lemma BelowDiagonal(q: real)
    requires 1.0 < q
    ensures 3.0 * (q * q) - 2.0 * (q * q * q) - 1.0 < 0.0
  {
    Expanded(q - 1.0);
  }

  lemma Expanded(d: real)
    requires 0.0 < d
    ensures var q := 1.0 + d; 2.0 * (q * q * q) - 3.0 * (q * q) + 1.0 == Scaled(Scaled(d, d), 2.0 * d + 3.0) > 0.0
  {
    ScaledBounds(d, d, d);
    ScaledBounds(Scaled(d, d), 2.0 * d + 3.0, 2.0 * d + 3.0);
  }

  // ----- The pedestal -----

  ghost function Fourth(u: real): real {
    (u * u) * (u * u)
  }

  ghost function CubeSum(u: real, v: real): real {
    Scaled(u + v, u * u + v * v)
  }

  lemma FourthsDiffer(u: real, v: real)
    ensures Fourth(u) - Fourth(v) == Scaled(u - v, CubeSum(u, v))
  {}

  lemma PedestalIs(e2: real, minLum: real)
    ensures Pedestal(e2, minLum) == e2 + Scaled(minLum, Fourth(1.0 - e2))
  {}

  lemma ScaledOrder(x: real, y: real, x': real, y': real)
    requires 0.0 <= x <= x' && 0.0 <= y <= y'
    ensures 0.0 <= Scaled(x, y) <= Scaled(x', y')
  {
    assert x' * (y' - y) >= 0.0;
    assert (x' - x) * y >= 0.0;
  }

  lemma SquareOrder(u: real, top: real)
    requires 0.0 <= u <= top
    ensures 0.0 <= u * u <= top * top
  {
    ScaledOrder(u, u, top, top);
    assert Scaled(u, u) == u * u && Scaled(top, top) == top * top;
  }

  lemma CubeSumBounds(u: real, v: real, top: real)
    requires 0.0 <= u <= top && 0.0 <= v <= top
    ensures 0.0 <= CubeSum(u, v) <= 4.0 * Cubed(top)
  {
    SquareOrder(u, top);
    SquareOrder(v, top);
    ScaledOrder(u + v, u * u + v * v, 2.0 * top, 2.0 * (top * top));
    assert Scaled(2.0 * top, 2.0 * (top * top)) == 4.0 * Cubed(top);
  }

  lemma Regroup(x: real, y: real, z: real)
    ensures Scaled(x, Scaled(y, z)) == Scaled(Scaled(x, y), z)
    ensures Scaled(x, 4.0 * y) == 4.0 * Scaled(x, y)
    ensures Scaled(x, y) - Scaled(x, z) == Scaled(x, y - z)
    ensures Scaled(x, y) == Scaled(y, x)
  {}

  lemma ScaledOfNegative(x: real, y: real)
    requires x <= 0.0 <= y
    ensures Scaled(x, y) <= 0.0
  {
    assert (-x) * y >= 0.0;
  }

  /** How steep the pedestal can get where at most `top` is missing to 1. */
  ghost function Steepness(minLum: real, top: real): real {
    4.0 * Scaled(minLum, Cubed(top))
  }

  lemma PedestalRises(y: real, y': real, minLum: real, top: real)
    requires 1.0 - y <= top && y <= y' <= 1.0 && Steepness(minLum, top) <= 1.0
    ensures Pedestal(y, minLum) <= Pedestal(y', minLum)
  {
    var u, v := 1.0 - y, 1.0 - y';
    PedestalIs(y, minLum);
    PedestalIs(y', minLum);
    FourthsDiffer(u, v);
    CubeSumBounds(u, v, top);
    hide Pedestal, Fourth, CubeSum, Cubed, Scaled;
    Regroup(minLum, Fourth(u), Fourth(v));
    var d := y' - y;
    if minLum <= 0.0 {
      ScaledOrder(u - v, CubeSum(u, v), u - v, CubeSum(u, v));
      ScaledOfNegative(minLum, Fourth(u) - Fourth(v));
    } else {
      ScaledOrder(d, CubeSum(u, v), d, 4.0 * Cubed(top));
      ScaledOrder(minLum, Scaled(d, CubeSum(u, v)), minLum, Scaled(d, 4.0 * Cubed(top)));
      Regroup(d, 4.0 * Cubed(top), 0.0);
      Regroup(minLum, 4.0 * Cubed(top), d);
      Regroup(minLum, Cubed(top), 0.0);
      SteepnessBounds(minLum, top, d);
    }
  }

  lemma SteepnessBounds(minLum: real, top: real, d: real)
    requires Steepness(minLum, top) <= 1.0 && 0.0 <= d
    ensures Scaled(Steepness(minLum, top), d) <= d
  {
    var k := Steepness(minLum, top);
    hide Steepness;
    assert (1.0 - k) * d >= 0.0;
  }

  ghost function SixSquares(u: real): real {
    6.0 * (u * u)
  }

  lemma FourthIdentity(u: real, d: real)
    ensures Fourth(u) - Fourth(u - d) - Scaled(d, 4.0 * Cubed(u)) + Scaled(d, Scaled(SixSquares(u), d))
            == Scaled(d * d, Scaled(d, 4.0 * u - d))
  {}

  /** The fall of u^4 over a distance d, from below. */
  lemma FourthFalls(u: real, d: real)
    requires 0.0 <= d <= u
    ensures Fourth(u) - Fourth(u - d) >= Scaled(d, 4.0 * Cubed(u)) - Scaled(d, Scaled(SixSquares(u), d))
  {
    FourthIdentity(u, d);
    SquareOrder(d, d);
    hide Fourth, Scaled, Cubed, SixSquares;
    ScaledBounds(d, 4.0 * u - d, 4.0 * u - d);
    ScaledBounds(d * d, Scaled(d, 4.0 * u - d), Scaled(d, 4.0 * u - d));
  }

  /** Where the pedestal is too steep it falls over every distance d that is short enough. */
  lemma PedestalFalls(y: real, d: real, minLum: real)
    requires 0.0 < d <= 1.0 - y && 0.0 < minLum
    requires Scaled(Scaled(minLum, SixSquares(1.0 - y)), d) < Steepness(minLum, 1.0 - y) - 1.0
    ensures Pedestal(y + d, minLum) < Pedestal(y, minLum)
  {
    var u := 1.0 - y;
    assert 1.0 - (y + d) == u - d;
    var c, k := 4.0 * Cubed(u), SixSquares(u);
    PedestalIs(y, minLum);
    PedestalIs(y + d, minLum);
    FourthFalls(u, d);
    assert Steepness(minLum, u) == Scaled(minLum, c) by { Regroup(minLum, Cubed(u), 0.0); }
    hide Pedestal, Fourth, Cubed, Scaled, Steepness, SixSquares;
    // minLum * (fall of u^4) >= d * (steepness - minLum * k * d) > d
    Regroup(minLum, Fourth(u), Fourth(u - d));
    ScaledMonotone(minLum, Scaled(d, c) - Scaled(d, Scaled(k, d)), Fourth(u) - Fourth(u - d));
    Regroup(d, c, Scaled(k, d));
    Regroup(minLum, d, c - Scaled(k, d));
    Regroup(minLum, c, Scaled(k, d));
    Regroup(minLum, k, d);
    Regroup(d, minLum, c - Scaled(k, d));
    Regroup(d, Scaled(minLum, c - Scaled(k, d)), 1.0);
    ScaledByConstants(d);
    var more := Scaled(minLum, c - Scaled(k, d)) - 1.0;
    ScaledBounds(d, more, more);
  }

  lemma ScaledMonotone(x: real, y: real, z: real)
    requires 0.0 <= x && y <= z
    ensures Scaled(x, y) <= Scaled(x, z)
  {
    assert x * (z - y) >= 0.0;
  }

  // ----- The whole curve -----

  ghost predicate Fitted(f: Fit) {
    0.0 < f.scale && f.inv == 1.0 / f.scale && f.ks == Knee(f.maxLum) && f.maxLum != 1.0
  }

  lemma FitOfIsFitted(sourceBlack: real, sourceWhite: real, targetBlack: real, targetWhite: real)
    requires sourceBlack < sourceWhite
    ensures var f := FitOf(sourceBlack, sourceWhite, targetBlack, targetWhite);
            && (f.maxLum != 1.0 ==> Fitted(f))
            && f.black == sourceBlack && f.black + f.scale == sourceWhite
            && Scaled(f.minLum, f.scale) + f.black == targetBlack
            && Scaled(f.maxLum, f.scale) + f.black == targetWhite
  {
    Unscale(targetBlack - sourceBlack, sourceWhite - sourceBlack);
    Unscale(targetWhite - sourceBlack, sourceWhite - sourceBlack);
  }

  /** The curve never falls over 0..1, the source range. */
  ghost predicate E3Rises(f: Fit)
    requires f.ks != 1.0
  {
    forall e: real, e': real :: 0.0 <= e <= e' <= 1.0 ==> E3(f, e) <= E3(f, e')
  }

  ghost predicate CurveRises(f: Fit)
    requires f.ks != 1.0
  {
    forall v: real, w: real :: f.black <= v <= w <= f.black + f.scale ==> ApplyPq(f, v) <= ApplyPq(f, w)
  }

  lemma RollOffBelowOne(e: real, maxLum: real)
    requires maxLum != 1.0 && e <= 1.0
    ensures RollOff(e, Knee(maxLum), maxLum) <= 1.0
  {
    hide RollOff;
    RollOffRises(e, 1.0, maxLum);
    RollOffEnds(maxLum);
  }

  lemma GentlePedestalRises(f: Fit)
    requires Fitted(f) && Steepness(f.minLum, 1.0 - RollOff(0.0, f.ks, f.maxLum)) <= 1.0
    ensures E3Rises(f)
  {
    hide RollOff, Pedestal, Steepness;
    forall e: real, e': real | 0.0 <= e <= e' <= 1.0
      ensures E3(f, e) <= E3(f, e')
    {
      RollOffRises(0.0, e, f.maxLum);
      RollOffRises(e, e', f.maxLum);
      RollOffBelowOne(e', f.maxLum);
      PedestalRises(RollOff(e, f.ks, f.maxLum), RollOff(e', f.ks, f.maxLum), f.minLum,
                    1.0 - RollOff(0.0, f.ks, f.maxLum));
    }
  }

  /** A pedestal that is raised does not steepen anything. */
  lemma PedestalContracts(y: real, y': real, minLum: real)
    requires y <= y' <= 1.0 && 0.0 <= minLum
    ensures Pedestal(y', minLum) - Pedestal(y, minLum) <= y' - y
  {
    hide Pedestal, Fourth, CubeSum, Scaled;
    var u, v := 1.0 - y, 1.0 - y';
    PedestalIs(y, minLum);
    PedestalIs(y', minLum);
    FourthsDiffer(u, v);
    CubeSumBounds(u, v, u);
    Regroup(minLum, Fourth(u), Fourth(v));
    ScaledOrder(u - v, CubeSum(u, v), u - v, CubeSum(u, v));
    ScaledOrder(minLum, Fourth(u) - Fourth(v), minLum, Fourth(u) - Fourth(v));
  }

  lemma GentleE3(f: Fit, e: real, e': real)
    requires Fitted(f) && 0.0 <= f.minLum && Steepness(f.minLum, 1.0 - RollOff(0.0, f.ks, f.maxLum)) <= 1.0
    requires 0.0 <= e <= e' <= 1.0
    ensures 0.0 <= E3(f, e') - E3(f, e) <= e' - e
  {
    GentlePedestalRises(f);
    hide RollOff, Pedestal, Steepness;
    RollOffRises(e, e', f.maxLum);
    RollOffBelowOne(e', f.maxLum);
    PedestalContracts(RollOff(e, f.ks, f.maxLum), RollOff(e', f.ks, f.maxLum), f.minLum);
  }

  /** A step from black that is short enough for PedestalFalls. */
  lemma ShortStep(k: real, more: real) returns (d: real)
    requires 0.0 < k && 0.0 < more
    ensures 0.0 < d <= 1.0 && forall d' :: d' <= d ==> Scaled(k, d') < more
  {
    var half := more / (2.0 * k);
    assert k * half == more / 2.0;
    d := if half < 1.0 then half else 1.0;
    forall d' | d' <= d ensures Scaled(k, d') < more {
      ScaledMonotone(k, d', half);
    }
  }

  lemma SteepImpliesPositive(minLum: real, top: real)
    requires 0.0 <= top && Steepness(minLum, top) > 1.0
    ensures 0.0 < minLum && 0.0 < top && 0.0 < Scaled(minLum, SixSquares(top))
  {
    SquareOrder(0.0, top);
    ScaledOrder(0.0, 0.0, top, top * top);
    assert Cubed(top) >= 0.0;
    if minLum <= 0.0 { ScaledOfNegative(minLum, Cubed(top)); }
    assert top != 0.0;
    Positive(top, top);
    assert 0.0 < minLum;
    ScaledBounds(minLum, SixSquares(top), SixSquares(top));
  }

  lemma SteepPedestalFalls(f: Fit) returns (e: real)
    requires Fitted(f) && Steepness(f.minLum, 1.0 - RollOff(0.0, f.ks, f.maxLum)) > 1.0
    ensures 0.0 < e <= 1.0 && E3(f, e) < E3(f, 0.0)
  {
    hide RollOff, Pedestal, Steepness, Scaled, SixSquares;
    var y := RollOff(0.0, f.ks, f.maxLum);
    RollOffBelowOne(0.0, f.maxLum);
    SteepImpliesPositive(f.minLum, 1.0 - y);
    var k := Scaled(f.minLum, SixSquares(1.0 - y));
    e := ShortStep(k, Steepness(f.minLum, 1.0 - y) - 1.0);
    RollOffRises(0.0, e, f.maxLum);
    RollOffBelowOne(e, f.maxLum);
    PedestalFalls(y, RollOff(e, f.ks, f.maxLum) - y, f.minLum);
  }

  lemma RelativeValue(f: Fit, e: real)
    requires Fitted(f)
    ensures Scaled(f.black + Scaled(e, f.scale) - f.black, f.inv) == e
  {
    Unscale(e, f.scale);
  }

  lemma CurveAt(f: Fit, e: real)
    requires Fitted(f)
    ensures ApplyPq(f, f.black + Scaled(e, f.scale)) == Scaled(E3(f, e), f.scale) + f.black
  {
    RelativeValue(f, e);
  }

  lemma RelativeRange(f: Fit, v: real, w: real)
    requires Fitted(f) && f.black <= v <= w <= f.black + f.scale
    ensures 0.0 <= Scaled(v - f.black, f.inv) <= Scaled(w - f.black, f.inv) <= 1.0
  {
    ScaleMonotone(0.0, v - f.black, f.scale);
    ScaleMonotone(v - f.black, w - f.black, f.scale);
    ScaleMonotone(w - f.black, f.scale, f.scale);
    Unscale(1.0, f.scale);
  }

  /**
    Over the whole source range the curve is non-decreasing exactly when its pedestal is no steeper than the
    roll-off at black allows.
  */
  lemma CurveRisesIff(f: Fit)
    requires Fitted(f)
    ensures CurveRises(f) <==> Steepness(f.minLum, 1.0 - RollOff(0.0, f.ks, f.maxLum)) <= 1.0
  {
    hide RollOff, Steepness, Scaled, E3;
    if Steepness(f.minLum, 1.0 - RollOff(0.0, f.ks, f.maxLum)) <= 1.0 {
      GentlePedestalRises(f);
      forall v: real, w: real | f.black <= v <= w <= f.black + f.scale
        ensures ApplyPq(f, v) <= ApplyPq(f, w)
      {
        RelativeRange(f, v, w);
        ScaledMonotone(f.scale, E3(f, Scaled(v - f.black, f.inv)), E3(f, Scaled(w - f.black, f.inv)));
        Regroup(f.scale, E3(f, Scaled(v - f.black, f.inv)), 0.0);
        Regroup(f.scale, E3(f, Scaled(w - f.black, f.inv)), 0.0);
      }
    } else {
      var e := SteepPedestalFalls(f);
      CurveFallsTo(f, e);
    }
  }

  /** The curve neither falls nor adds contrast anywhere over the source range, so it is continuous there. */
  ghost predicate CurveIsGentle(f: Fit)
    requires f.ks != 1.0
  {
    forall v: real, w: real :: f.black <= v <= w <= f.black + f.scale ==>
      0.0 <= ApplyPq(f, w) - ApplyPq(f, v) <= w - v
  }

  lemma ApplyPqDiffers(f: Fit, v: real, w: real)
    requires Fitted(f)
    ensures var a, b := Scaled(v - f.black, f.inv), Scaled(w - f.black, f.inv);
            ApplyPq(f, w) - ApplyPq(f, v) == Scaled(E3(f, b) - E3(f, a), f.scale) && w - v == Scaled(b - a, f.scale)
  {
    hide E3;
    Unscale(v - f.black, f.scale);
    Unscale(w - f.black, f.scale);
    var a, b := Scaled(v - f.black, f.inv), Scaled(w - f.black, f.inv);
    ScaledSum(E3(f, b), -E3(f, a), f.scale);
    ScaledSum(b, -a, f.scale);
  }

  /** A target black at or above the source's keeps a curve that does not fall from adding contrast. */
  lemma RaisedCurveIsGentle(f: Fit)
    requires Fitted(f) && 0.0 <= f.minLum && CurveRises(f)
    ensures CurveIsGentle(f)
  {
    CurveRisesIff(f);
    hide RollOff, Steepness, Scaled, E3, ApplyPq, CurveRises;
    forall v: real, w: real | f.black <= v <= w <= f.black + f.scale
      ensures 0.0 <= ApplyPq(f, w) - ApplyPq(f, v) <= w - v
    {
      RelativeRange(f, v, w);
      ApplyPqDiffers(f, v, w);
      var a, b := Scaled(v - f.black, f.inv), Scaled(w - f.black, f.inv);
      GentleE3(f, a, b);
      ScaledOrder(E3(f, b) - E3(f, a), f.scale, b - a, f.scale);
    }
  }

  /** A target black below the source's stretches the darkest values. */
  lemma LoweredCurveIsSteep(f: Fit) returns (e: real)
    requires Fitted(f) && f.minLum < 0.0 && 1.0 / 3.0 < f.maxLum
    ensures 0.0 < e <= 1.0 && e < E3(f, e) - E3(f, 0.0)
  {
    hide Spline, Pedestal, Fourth, Scaled;
    e := if f.ks < 1.0 then f.ks / 2.0 else 0.5;
    PedestalIs(e, f.minLum);
    PedestalIs(0.0, f.minLum);
    FourthsDiffer(1.0, 1.0 - e);
    CubeSumIsPositive(1.0, 1.0 - e);
    hide CubeSum;
    ScaledBounds(e, CubeSum(1.0, 1.0 - e), CubeSum(1.0, 1.0 - e));
    var fall := Fourth(1.0) - Fourth(1.0 - e);
    ScaledBounds(-f.minLum, fall, fall);
    Regroup(f.minLum, Fourth(1.0), Fourth(1.0 - e));
    ScaledNegated(f.minLum, fall);
  }

  lemma ScaledNegated(x: real, y: real)
    ensures Scaled(-x, y) == -Scaled(x, y)
  {}

  lemma CubeSumIsPositive(u: real, v: real)
    requires 0.0 < u && 0.0 <= v
    ensures 0.0 < CubeSum(u, v)
  {
    SquareOrder(v, v);
    ScaledBounds(u, u, u);
    assert Scaled(u, u) == u * u;
    ScaledBounds(u + v, u * u + v * v, u * u + v * v);
  }

  /** For targets that reach more than a third of the source range: gentle exactly for minLum from 0 up to 1/4. */
  lemma CurveIsGentleIff(f: Fit)
    requires Fitted(f) && 1.0 / 3.0 < f.maxLum
    ensures CurveIsGentle(f) <==> 0.0 <= f.minLum <= 0.25
  {
    CurveRisesIffQuarter(f);
    GentleCurveRises(f);
    hide CurveIsGentle, CurveRises;
    if 0.0 <= f.minLum <= 0.25 {
      RaisedCurveIsGentle(f);
    } else if f.minLum < 0.0 {
      var e := LoweredCurveIsSteep(f);
      SteepIsNotGentle(f, e);
    }
  }

  lemma GentleCurveRises(f: Fit)
    requires f.ks != 1.0
    ensures CurveIsGentle(f) ==> CurveRises(f)
  {
    hide ApplyPq;
  }

  lemma SteepIsNotGentle(f: Fit, e: real)
    requires Fitted(f) && 0.0 < e <= 1.0 && e < E3(f, e) - E3(f, 0.0)
    ensures !CurveIsGentle(f)
  {
    hide E3, ApplyPq, Scaled;
    var v, w := f.black + Scaled(0.0, f.scale), f.black + Scaled(e, f.scale);
    CurveAt(f, 0.0);
    CurveAt(f, e);
    ScaledByConstants(f.scale);
    ScaledOrder(0.0, f.scale, e, f.scale);
    ScaledOrder(e, f.scale, 1.0, f.scale);
    var excess := E3(f, e) - E3(f, 0.0) - e;
    ScaledBounds(f.scale, excess, excess);
    Regroup(f.scale, E3(f, e) - E3(f, 0.0), e);
    Regroup(f.scale, E3(f, e), E3(f, 0.0));
    Regroup(f.scale, E3(f, 0.0), 0.0);
    Regroup(f.scale, E3(f, e), 0.0);
    Regroup(f.scale, e, 0.0);
    assert ApplyPq(f, w) - ApplyPq(f, v) > w - v;
  }

  lemma CurveFallsTo(f: Fit, e: real)
    requires Fitted(f) && 0.0 < e <= 1.0 && E3(f, e) < E3(f, 0.0)
    ensures !CurveRises(f)
  {
    var v, w := f.black + Scaled(0.0, f.scale), f.black + Scaled(e, f.scale);
    CurveAt(f, 0.0);
    CurveAt(f, e);
    ScaledByConstants(f.scale);
    hide E3, ApplyPq, Scaled;
    ScaledOrder(0.0, f.scale, e, f.scale);
    ScaledOrder(e, f.scale, 1.0, f.scale);
    var fall := E3(f, 0.0) - E3(f, e);
    ScaledBounds(f.scale, fall, fall);
    Regroup(f.scale, E3(f, 0.0), E3(f, e));
    Regroup(f.scale, E3(f, e), 0.0);
    assert ApplyPq(f, w) < ApplyPq(f, v);
  }

  lemma SteepnessAtOne(minLum: real)
    ensures Steepness(minLum, 1.0) == 4.0 * minLum
  {}

  /** For targets that reach a third of the source range or more: non-decreasing exactly up to minLum = 1/4. */
  lemma CurveRisesIffQuarter(f: Fit)
    requires Fitted(f) && f.maxLum >= 1.0 / 3.0
    ensures CurveRises(f) <==> f.minLum <= 0.25
  {
    CurveRisesIff(f);
    RollOffEnds(f.maxLum);
    SteepnessAtOne(f.minLum);
    hide Steepness, RollOff, CurveRises;
  }

  lemma PedestalAtEnds(maxLum: real, minLum: real)
    requires maxLum < 1.0
    ensures Pedestal(0.0, minLum) == minLum
    ensures Pedestal(maxLum, minLum) == maxLum + Scaled(minLum, Fourth(1.0 - maxLum))
    ensures 0.0 < Fourth(1.0 - maxLum)
  {
    var u := 1.0 - maxLum;
    ScaledBounds(u, u, u);
    assert Scaled(u, u) == u * u;
    ScaledBounds(u * u, u * u, u * u);
    assert Scaled(u * u, u * u) == Fourth(u);
  }

  lemma ScaledZeroIff(x: real, y: real)
    requires 0.0 < y
    ensures Scaled(x, y) == 0.0 <==> x == 0.0
  {
    if x > 0.0 { assert x * y > 0.0; } else if x < 0.0 { assert (-x) * y > 0.0; }
  }

  lemma ScaledSum(x: real, y: real, scale: real)
    ensures Scaled(x + y, scale) == Scaled(x, scale) + Scaled(y, scale)
  {}

  /** How far the pedestal misses minLum where the roll-off took black to y. */
  lemma PedestalMisses(y: real, minLum: real)
    ensures Pedestal(y, minLum) - minLum == Scaled(y, 1.0 - Scaled(minLum, CubeSum(1.0 - y, 1.0)))
  {
    hide Pedestal, Fourth, CubeSum, Scaled;
    PedestalIs(y, minLum);
    FourthsDiffer(1.0 - y, 1.0);
    assert Fourth(1.0) == 1.0 by { FourthOfOne(); }
    var sum := CubeSum(1.0 - y, 1.0);
    Regroup(minLum, Fourth(1.0 - y), 1.0);
    ScaledByConstants(minLum);
    ScaledNegated(y, sum);
    Regroup(minLum, -y, sum);
    Regroup(-y, minLum, sum);
    Regroup(minLum, -y, 0.0);
    ScaledNegated(y, Scaled(minLum, sum));
    Regroup(y, 1.0, Scaled(minLum, sum));
    ScaledByConstants(y);
  }

  lemma FourthOfOne()
    ensures Fourth(1.0) == 1.0
  {}

  lemma CubeSumBelow(u: real)
    requires 1.0 < u
    ensures 0.0 < CubeSum(u, 1.0) < 4.0 * Cubed(u)
  {
    CubeSumIsPositive(u, 1.0);
    CubeSumRest(u - 1.0);
  }

  lemma CubeSumRest(d: real)
    requires 0.0 < d
    ensures var u := 1.0 + d; 4.0 * Cubed(u) - CubeSum(u, 1.0) == Scaled(d, 6.0 + 8.0 * d + 3.0 * (d * d)) > 0.0
  {
    SquareOrder(d, d);
    ScaledBounds(d, 6.0 + 8.0 * d + 3.0 * (d * d), 6.0 + 8.0 * d + 3.0 * (d * d));
  }

  /** Where the knee is below black and the curve does not fall, what the pedestal adds cannot make up for it. */
  lemma RisingPedestalFallsShort(minLum: real, u: real)
    requires 1.0 < u && Steepness(minLum, u) <= 1.0
    ensures Scaled(minLum, CubeSum(u, 1.0)) < 1.0
  {
    CubeSumBelow(u);
    Regroup(minLum, Cubed(u), 0.0);
    hide CubeSum, Cubed, Scaled;
    if minLum <= 0.0 {
      ScaledOfNegative(minLum, CubeSum(u, 1.0));
    } else {
      var rest := 4.0 * Cubed(u) - CubeSum(u, 1.0);
      ScaledBounds(minLum, rest, rest);
      Regroup(minLum, 4.0 * Cubed(u), CubeSum(u, 1.0));
    }
  }

  /**
    Source black maps to target black exactly when the target reaches at least a third of the source range, or the
    pedestal happens to make up for what the roll-off takes away there. A curve that does not fall never does: with a
    smaller target it crushes source black below target black.
  */
  lemma BlackIsMetIff(sourceBlack: real, sourceWhite: real, targetBlack: real, targetWhite: real)
    requires sourceBlack < sourceWhite && FitOf(sourceBlack, sourceWhite, targetBlack, targetWhite).maxLum != 1.0
    ensures var f := FitOf(sourceBlack, sourceWhite, targetBlack, targetWhite);
            && f.ks != 1.0
            && (ApplyPq(f, sourceBlack) == targetBlack <==>
                || 1.0 / 3.0 <= f.maxLum
                || Scaled(f.minLum, CubeSum(1.0 - RollOff(0.0, f.ks, f.maxLum), 1.0)) == 1.0)
            && (f.maxLum < 1.0 / 3.0 && CurveRises(f) ==> ApplyPq(f, sourceBlack) < targetBlack)
  {
    var f := FitOf(sourceBlack, sourceWhite, targetBlack, targetWhite);
    FitOfIsFitted(sourceBlack, sourceWhite, targetBlack, targetWhite);
    hide FitOf, Pedestal, RollOff, CubeSum, Scaled, CurveRises, Steepness;
    CurveAt(f, 0.0);
    ScaledByConstants(f.scale);
    RollOffEnds(f.maxLum);
    var y := RollOff(0.0, f.ks, f.maxLum);
    PedestalMisses(y, f.minLum);
    var missing := 1.0 - Scaled(f.minLum, CubeSum(1.0 - y, 1.0));
    ScaledSum(Pedestal(y, f.minLum), -f.minLum, f.scale);
    ScaledNegated(f.minLum, f.scale);
    ScaledZeroIff(Scaled(y, missing), f.scale);
    if y < 0.0 {
      ScaledZeroIff(missing, -y);
      ScaledNegated(y, missing);
      Regroup(missing, -y, 0.0);
      if CurveRises(f) {
        CurveRisesIff(f);
        RisingPedestalFallsShort(f.minLum, 1.0 - y);
        ScaledBounds(-y, missing, missing);
        ScaledBounds(-Scaled(y, missing), f.scale, f.scale);
        ScaledNegated(Scaled(y, missing), f.scale);
      }
    } else {
      ScaledByConstants(missing);
    }
  }

  /**
    Source white maps to target white raised by what the pedestal leaves there, so it meets target white exactly
    when source and target black agree.
  */
  lemma CurveEnds(sourceBlack: real, sourceWhite: real, targetBlack: real, targetWhite: real)
    requires sourceBlack < sourceWhite
    requires FitOf(sourceBlack, sourceWhite, targetBlack, targetWhite).maxLum < 1.0
    ensures var f := FitOf(sourceBlack, sourceWhite, targetBlack, targetWhite);
            && f.ks != 1.0 && (1.0 / 3.0 <= f.maxLum ==> ApplyPq(f, sourceBlack) == targetBlack)
            && ApplyPq(f, sourceWhite) ==
                 targetWhite + Scaled(Scaled(f.minLum, Fourth(1.0 - f.maxLum)), f.scale)
            && (ApplyPq(f, sourceWhite) == targetWhite <==> targetBlack == sourceBlack)
  {
    BlackIsMetIff(sourceBlack, sourceWhite, targetBlack, targetWhite);
    var f := FitOf(sourceBlack, sourceWhite, targetBlack, targetWhite);
    FitOfIsFitted(sourceBlack, sourceWhite, targetBlack, targetWhite);
    hide FitOf, Pedestal, RollOff, Fourth, Scaled;
    CurveAt(f, 1.0);
    RollOffEnds(f.maxLum);
    ScaledByConstants(f.scale);
    PedestalAtEnds(f.maxLum, f.minLum);
    var lift := Scaled(f.minLum, Fourth(1.0 - f.maxLum));
    ScaledSum(f.maxLum, lift, f.scale);
    ScaledZeroIff(lift, f.scale);
    ScaledZeroIff(f.minLum, Fourth(1.0 - f.maxLum));
    ScaledZeroIff(f.minLum, f.scale);
  }
}
