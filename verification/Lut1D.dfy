/**
  The shaper of the colour pipeline (src/color_helpers.cpp): a one-dimensional table, its piecewise linear
  interpolation and the inverse of that interpolation, over the reals. A table is a non-decreasing sequence,
  possibly with a flat start and flat spots inside.
*/
module Lut1D {
  /** A position on the table counted in entries: 0.0 is the first, |data| - 1 the last. */
  function Clamp(x: real, lo: real, hi: real): real {
    var raised := if lo < x then x else lo;
    if raised < hi then raised else hi
  }

  function Ceiling(x: real): int {
    if x.Floor as real == x then x.Floor else x.Floor + 1
  }

  function Last(data: seq<real>): real
    requires data != []
  {
    (|data| - 1) as real
  }

  /** One channel of lerp_rgb. */
  function Lerp(a: real, b: real, z: real): real {
    (b - a) * z + a
  }

  /** How far from a up to b the value lies; 0 on a flat spot. */
  function Fraction(a: real, b: real, value: real): real {
    if b > a then (value - a) / (b - a) else 0.0
  }

  /** Linear interpolation between the entries on both sides of a position. */
  function Interpolate(data: seq<real>, position: real): real
    requires data != [] && 0.0 <= position <= Last(data)
  {
    var low, high := position.Floor, Ceiling(position);
    Lerp(data[low], data[high], position - low as real)
  }

  /** One channel of ApplyLut1D_Linear: [0, 1] spans the table, anything else is clamped to it. */
  function Forward(data: seq<real>, x: real): real
    requires data != []
  {
    Interpolate(data, Clamp(x * Last(data), 0.0, Last(data)))
  }

  /** std::lower_bound over data[first..last]: the first index whose entry is not less than v, or `last`. */
  function LowerBound(data: seq<real>, first: nat, last: nat, v: real): (k: nat)
    requires first <= last <= |data|
    ensures first <= k <= last
    ensures forall i :: first <= i < k ==> data[i] < v
    ensures k < last ==> data[k] >= v
    decreases last - first
  {
    if first == last || data[first] >= v then first else LowerBound(data, first + 1, last, v)
  }

  /** FindLutInv up to its scale: the position whose interpolation is v clamped to the table's range. */
  function InversePosition(data: seq<real>, start: nat, v: real): real
    requires start < |data|
  {
    var end := |data| - 1;
    var cv := Clamp(v, data[start], data[end]);
    var bound := LowerBound(data, start, end, cv);
    var low := if bound > start then bound - 1 else bound;
    var high := if low < end then low + 1 else low;
    (low - start) as real + start as real + Fraction(data[low], data[high], cv)
  }

  /** One channel of ApplyLut1D_Inverse_Linear on a finalised table. */
  function Inverse(data: seq<real>, start: nat, v: real): real
    requires start < |data| && |data| >= 2
  {
    InversePosition(data, start, v) * (1.0 / Last(data))
  }

  ghost predicate NonDecreasing(data: seq<real>) {
    forall i, j :: 0 <= i <= j < |data| ==> data[i] <= data[j]
  }

  /** The last entry of the flat start; 0 when the whole table is flat. */
  ghost predicate IsStart(data: seq<real>, start: nat) {
    if forall i :: 0 <= i < |data| ==> data[i] == data[0] then start == 0
    else
      && start + 1 < |data|
      && (forall i :: 0 <= i <= start ==> data[i] == data[0])
      && data[start + 1] != data[0]
  }

  method FindNonFlatStartIndex(data: seq<real>) returns (start: nat)
    ensures IsStart(data, start)
  {
    if data != [] {
      for index := 1 to |data|
        invariant forall i :: 0 <= i < index ==> data[i] == data[0]
      {
        if data[index] != data[0] {
          return index - 1;
        }
      }
    }
    return 0;
  }

  // ----- Arithmetic -----

  lemma Unscale(a: real, b: real)
    requires b > 0.0
    ensures a * (1.0 / b) * b == a
    ensures a * b * (1.0 / b) == a
  {
    var c := 1.0 / b;
    assert c * b == 1.0;
    assert a * c * b == a * (c * b);
    assert a * b * c == a * (c * b);
  }

  lemma ScaleMonotone(a: real, b: real, c: real)
    requires a <= b && 0.0 < c
    ensures a * (1.0 / c) <= b * (1.0 / c)
  {
    var d := 1.0 / c;
    assert d > 0.0;
    assert (b - a) * d >= 0.0;
  }

  lemma Positive(x: real, y: real)
    requires x > 0.0 && y > 0.0
    ensures x * y > 0.0
  {}

  lemma LerpEnds(a: real, b: real)
    ensures Lerp(a, b, 0.0) == a && Lerp(a, b, 1.0) == b
    ensures forall z :: Lerp(a, a, z) == a
  {}

  lemma LerpIncreases(a: real, b: real, y: real, z: real)
    requires a < b && y < z
    ensures Lerp(a, b, y) < Lerp(a, b, z)
  {
    Positive(b - a, z - y);
  }

  /** Lerp undoes Fraction. */
  lemma LerpOfFraction(a: real, b: real, value: real) returns (z: real)
    requires a < value <= b
    ensures z == Fraction(a, b, value) && 0.0 < z <= 1.0 && Lerp(a, b, z) == value
  {
    z := (value - a) / (b - a);
    assert (b - a) * z == value - a;
    LerpEnds(a, b);
    if z > 1.0 {
      LerpIncreases(a, b, 1.0, z);
    } else if z < 0.0 {
      LerpIncreases(a, b, z, 0.0);
    }
  }

  /** Interpolation at `low` plus a fraction, at both ends of the segment too. */
  lemma OnSegment(data: seq<real>, low: nat, delta: real)
    requires low + 1 < |data| && 0.0 <= delta <= 1.0
    ensures Interpolate(data, low as real + delta) == Lerp(data[low], data[low + 1], delta)
  {
    hide Lerp;
    var position := low as real + delta;
    LerpEnds(data[low], data[low + 1]);
    if delta == 1.0 {
      assert position == (low + 1) as real;
      assert position.Floor == low + 1;
      LerpEnds(data[low + 1], data[low + 1]);
    } else {
      assert position.Floor == low;
      LerpEnds(data[low], data[low]);
    }
  }

  lemma AtEntry(data: seq<real>, k: nat)
    requires k < |data|
    ensures Interpolate(data, k as real) == data[k]
  {
    assert (k as real).Floor == k;
    LerpEnds(data[k], data[k]);
  }

  /** The table spans [0, 1]: sample k of n + 1 stands at k / n, */
  lemma ForwardAtSample(data: seq<real>, k: nat)
    requires |data| >= 2 && k < |data|
    ensures Forward(data, k as real * (1.0 / Last(data))) == data[k]
  {
    hide Interpolate;
    Unscale(k as real, Last(data));
    ForwardAt(data, k as real * (1.0 / Last(data)), k as real);
    AtEntry(data, k);
  }

  /** and anything outside gets the nearer end. */
  lemma ForwardOutside(data: seq<real>, x: real)
    requires |data| >= 2
    ensures x <= 0.0 ==> Forward(data, x) == data[0]
    ensures x >= 1.0 ==> Forward(data, x) == data[|data| - 1]
  {
    hide Interpolate;
    var last := Last(data);
    SignOfScaled(x, last);
    SignOfScaled(x - 1.0, last);
    assert (x - 1.0) * last == x * last - last;
    AtEntry(data, 0);
    AtEntry(data, |data| - 1);
  }

  lemma SignOfScaled(x: real, y: real)
    requires y > 0.0
    ensures x <= 0.0 ==> x * y <= 0.0
    ensures x >= 0.0 ==> x * y >= 0.0
  {
    if x > 0.0 { Positive(x, y); }
    if x < 0.0 { Positive(-x, y); }
  }

  // ----- The inverse undoes the table -----

  ghost predicate Table(data: seq<real>, start: nat) {
    |data| >= 2 && NonDecreasing(data) && IsStart(data, start)
  }

  /** Position low + delta is where FindLutInv lands for cv: the start, or a segment that rises to cv. */
  ghost predicate Lands(data: seq<real>, start: nat, cv: real, low: nat, delta: real)
    requires start < |data|
  {
    && start <= low && low + 1 < |data| && 0.0 <= delta <= 1.0
    && Lerp(data[low], data[low + 1], delta) == cv
    && (cv == data[start] ==> low == start && delta == 0.0)
    && (cv != data[start] ==> data[low] < cv <= data[low + 1])
  }

  /** What the search of FindLutInv brackets. */
  lemma Bracket(data: seq<real>, start: nat, cv: real) returns (bound: nat)
    requires Table(data, start) && data[start] <= cv <= data[|data| - 1]
    ensures start <= bound < |data| && bound == LowerBound(data, start, |data| - 1, cv)
    ensures bound == start ==> cv == data[start] && start + 1 < |data|
    ensures bound > start ==> data[start] <= data[bound - 1] < cv <= data[bound]
  {
    bound := LowerBound(data, start, |data| - 1, cv);
  }

  lemma InverseLands(data: seq<real>, start: nat, v: real) returns (low: nat, delta: real)
    requires Table(data, start)
    ensures Lands(data, start, Clamp(v, data[start], data[|data| - 1]), low, delta)
    ensures InversePosition(data, start, v) == low as real + delta
  {
    hide Lerp, Fraction;
    var cv := Clamp(v, data[start], data[|data| - 1]);
    var bound := Bracket(data, start, cv);
    if bound == start {
      low, delta := start, 0.0;
      LerpEnds(data[start], data[start + 1]);
      FractionAtStart(data[start], data[start + 1]);
    } else {
      low := bound - 1;
      delta := LerpOfFraction(data[low], data[bound], cv);
    }
  }

  lemma FractionAtStart(a: real, b: real)
    ensures Fraction(a, b, a) == 0.0
  {}

  lemma LandingInterpolates(data: seq<real>, start: nat, cv: real, low: nat, delta: real)
    requires Table(data, start) && Lands(data, start, cv, low, delta)
    ensures 0.0 <= low as real + delta <= Last(data)
    ensures Interpolate(data, low as real + delta) == cv
  {
    hide Lerp;
    OnSegment(data, low, delta);
  }

  lemma LandingsInOrder(data: seq<real>, start: nat, cv: real, low: nat, delta: real, cw: real, low': nat, delta': real)
    requires Table(data, start) && data[start] <= cv <= cw
    requires Lands(data, start, cv, low, delta) && Lands(data, start, cw, low', delta')
    ensures low as real + delta <= low' as real + delta'
  {
    hide Lerp;
    assert forall k :: low' < k < |data| ==> data[low' + 1] <= data[k];
    if cv != data[start] && low == low' && delta' < delta {
      LerpIncreases(data[low], data[low + 1], delta', delta);
    }
  }

  lemma ForwardAt(data: seq<real>, x: real, position: real)
    requires data != [] && x * Last(data) == position && 0.0 <= position <= Last(data)
    ensures Forward(data, x) == Interpolate(data, position)
  {}

  /** forward(inverse(v)) is v clamped to the table's range, whatever flat spots the table has. */
  lemma ForwardOfInverse(data: seq<real>, start: nat, v: real)
    requires Table(data, start)
    ensures Forward(data, Inverse(data, start, v)) == Clamp(v, data[0], data[|data| - 1])
  {
    hide InversePosition, Interpolate, Lands;
    var low, delta := InverseLands(data, start, v);
    LandingInterpolates(data, start, Clamp(v, data[start], data[|data| - 1]), low, delta);
    var position := low as real + delta;
    Unscale(position, Last(data));
    assert Inverse(data, start, v) == position * (1.0 / Last(data));
    ForwardAt(data, position * (1.0 / Last(data)), position);
    assert data[start] == data[0];
  }

  lemma PositionsAreMonotone(data: seq<real>, start: nat, v: real, w: real)
    requires Table(data, start) && v <= w
    ensures 0.0 <= InversePosition(data, start, v) <= InversePosition(data, start, w) <= Last(data)
  {
    hide InversePosition, Interpolate, Lerp;
    var low, delta := InverseLands(data, start, v);
    var low', delta' := InverseLands(data, start, w);
    var cv, cw := Clamp(v, data[start], data[|data| - 1]), Clamp(w, data[start], data[|data| - 1]);
    LandingsInOrder(data, start, cv, low, delta, cw, low', delta');
  }

  /** The inverse is monotone and stays within [0, 1]. */
  lemma InverseIsMonotone(data: seq<real>, start: nat, v: real, w: real)
    requires Table(data, start) && v <= w
    ensures 0.0 <= Inverse(data, start, v) <= Inverse(data, start, w) <= 1.0
  {
    hide InversePosition;
    PositionsAreMonotone(data, start, v, w);
    hide NonDecreasing, IsStart;
    ScaleMonotone(0.0, InversePosition(data, start, v), Last(data));
    ScaleMonotone(InversePosition(data, start, v), InversePosition(data, start, w), Last(data));
    ScaleMonotone(InversePosition(data, start, w), Last(data), Last(data));
    Unscale(1.0, Last(data));
  }

  ghost predicate IncreasingFrom(data: seq<real>, start: nat) {
    forall i, j :: start <= i < j < |data| ==> data[i] < data[j]
  }

  /** The segment that ends at, or contains, a position past the flat start. */
  lemma SegmentOf(data: seq<real>, start: nat, position: real) returns (low: nat, delta: real)
    requires Table(data, start) && IncreasingFrom(data, start) && start as real < position <= Last(data)
    ensures start <= low && low + 1 < |data| && 0.0 < delta <= 1.0 && position == low as real + delta
    ensures data[start] <= data[low] < data[low + 1] <= data[|data| - 1]
  {
    var k := position.Floor;
    low := if k as real == position then k - 1 else k;
    delta := position - low as real;
  }

  /** A position past the flat start lies on the one segment that rises to its value. */
  lemma PositionLands(data: seq<real>, start: nat, position: real) returns (low: nat, delta: real)
    requires Table(data, start) && IncreasingFrom(data, start) && start as real < position <= Last(data)
    ensures Lands(data, start, Interpolate(data, position), low, delta) && position == low as real + delta
    ensures data[start] <= Interpolate(data, position) <= data[|data| - 1]
  {
    low, delta := SegmentOf(data, start, position);
    hide Lerp, NonDecreasing, IncreasingFrom, IsStart, Interpolate;
    OnSegment(data, low, delta);
    var a, b := data[low], data[low + 1];
    LerpEnds(a, b);
    LerpIncreases(a, b, 0.0, delta);
    if delta < 1.0 {
      LerpIncreases(a, b, delta, 1.0);
    }
  }

  /** On a table that rises strictly after its flat start, the inverse finds every position past that start. */
  lemma InverseOfInterpolation(data: seq<real>, start: nat, position: real)
    requires Table(data, start) && IncreasingFrom(data, start) && 0.0 <= position <= Last(data)
    ensures InversePosition(data, start, Interpolate(data, position)) ==
            if position <= start as real then start as real else position
  {
    hide InversePosition;
    var y := Interpolate(data, position);
    var low, delta := InverseLands(data, start, y);
    if position <= start as real {
      assert data[position.Floor] == data[0] && data[Ceiling(position)] == data[0];
      assert y == data[start];
    } else {
      var l, d := PositionLands(data, start, position);
      LandingsInOrder(data, start, y, low, delta, y, l, d);
      LandingsInOrder(data, start, y, l, d, y, low, delta);
    }
  }

  /** inverse(forward(x)) is x past the flat start of the table, and the end of the flat start below it. */
  lemma InverseOfForward(data: seq<real>, start: nat, x: real)
    requires Table(data, start) && IncreasingFrom(data, start) && 0.0 <= x <= 1.0
    ensures Inverse(data, start, Forward(data, x)) ==
            if x * Last(data) <= start as real then start as real * (1.0 / Last(data)) else x
  {
    hide InversePosition, Interpolate;
    var position := x * Last(data);
    assert 0.0 <= position <= Last(data) by {
      assert (1.0 - x) * Last(data) >= 0.0;
    }
    ForwardAt(data, x, position);
    InverseOfInterpolation(data, start, position);
    Unscale(x, Last(data));
  }

  ghost predicate LeftInverse(data: seq<real>, start: nat)
    requires Table(data, start)
  {
    forall p: real :: start as real <= p <= Last(data) ==> InversePosition(data, start, Interpolate(data, p)) == p
  }

  /** Strict growth past the flat start is exactly what makes the inverse a left inverse there. */
  lemma InvertibleIffIncreasing(data: seq<real>, start: nat)
    requires Table(data, start)
    ensures IncreasingFrom(data, start) <==> LeftInverse(data, start)
  {
    if IncreasingFrom(data, start) {
      forall p: real | start as real <= p <= Last(data)
        ensures InversePosition(data, start, Interpolate(data, p)) == p
      {
        InverseOfInterpolation(data, start, p);
      }
    } else {
      var i, j :| start <= i < j < |data| && data[i] >= data[j];
      assert data[i] == data[j];
      AtEntry(data, i);
      AtEntry(data, j);
      assert InversePosition(data, start, Interpolate(data, i as real)) ==
             InversePosition(data, start, Interpolate(data, j as real));
    }
  }
}
