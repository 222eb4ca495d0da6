/**
  When the colour table of calcColorTransform (src/color_helpers.cpp) is exact on its lattice: the exact condition
  on the shaper, for finalised non-decreasing curves of any range.
*/
module TableAgreement {
  import opened Options
  import opened Lut1D
  import opened Lut3D
  import opened ColorTransform

  ghost predicate FinalShaper(s: Shaper) {
    SearchableShaper(s) && FinalCurve(s.r) && FinalCurve(s.g) && FinalCurve(s.b)
  }

  ghost function LatticeValue(dim: nat, n: nat): real
    requires dim >= 2
  {
    Spaced(n, 1.0 / (dim as real - 1.0))
  }

  /** The colour on one axis of the lattice. */
  ghost function AxisColour(c: Curve, dim: nat, n: nat): real
    requires FinalCurve(c) && dim >= 2
  {
    Inverse(c.data, c.start, LatticeValue(dim, n))
  }

  ghost function Low(c: Curve): real
    requires FinalCurve(c)
  {
    c.data[0]
  }

  ghost function High(c: Curve): real
    requires FinalCurve(c)
  {
    c.data[|c.data| - 1]
  }

  /** Where shaping leads from such a colour: back, clamped to what the curve reaches. */
  ghost function ShapedBack(c: Curve, dim: nat, n: nat): real
    requires FinalCurve(c) && dim >= 2
  {
    Clamp(LatticeValue(dim, n), Low(c), High(c))
  }

  lemma AxisIsShapedBack(c: Curve, dim: nat, n: nat)
    requires FinalCurve(c) && dim >= 2
    ensures Forward(c.data, AxisColour(c, dim, n)) == ShapedBack(c, dim, n)
  {
    hide Forward, Inverse, Table, Spaced;
    ForwardOfInverse(c.data, c.start, LatticeValue(dim, n));
  }

  lemma ClampedInverse(data: seq<real>, start: nat, v: real, w: real)
    requires start < |data| && |data| >= 2
    requires Clamp(v, data[start], data[|data| - 1]) == Clamp(w, data[start], data[|data| - 1])
    ensures Inverse(data, start, v) == Inverse(data, start, w)
  {
    hide Clamp, LowerBound, Fraction;
  }

  lemma StartsLow(data: seq<real>, start: nat)
    requires Table(data, start)
    ensures start < |data| && data[start] == data[0] <= data[|data| - 1]
  {}

  /** Two axis colours are the same exactly when they are shaped to the same value. */
  lemma SameAxisColourIff(c: Curve, dim: nat, m: nat, n: nat)
    requires FinalCurve(c) && dim >= 2
    ensures AxisColour(c, dim, m) == AxisColour(c, dim, n) <==> ShapedBack(c, dim, m) == ShapedBack(c, dim, n)
  {
    AxisIsShapedBack(c, dim, m);
    AxisIsShapedBack(c, dim, n);
    StartsLow(c.data, c.start);
    hide Forward, LatticeValue, Clamp, Table, Inverse;
    if ShapedBack(c, dim, m) == ShapedBack(c, dim, n) {
      ClampedInverse(c.data, c.start, LatticeValue(dim, m), LatticeValue(dim, n));
    }
  }

  lemma LatticeValues(dim: nat, n: nat)
    requires dim >= 2 && n < dim
    ensures 0.0 <= LatticeValue(dim, n) <= 1.0 && LatticeValue(dim, n) * (dim - 1) as real == n as real
    ensures n == 0 ==> LatticeValue(dim, n) == 0.0
    ensures n == dim - 1 ==> LatticeValue(dim, n) == 1.0
  {
    SpacedOnUnit(dim, n);
    hide Spaced;
    var x, d := LatticeValue(dim, n), (dim - 1) as real;
    assert (1.0 - x) * d == d - x * d;
  }

  // ----- Shaping back -----

  ghost predicate ShapesBack(s: Shaper, dim: nat)
    requires FinalShaper(s) && dim >= 2
  {
    forall r: nat, g: nat, b: nat :: r < dim && g < dim && b < dim ==>
      Shape(Some(s), LatticeColour(Some(s), dim, r, g, b)) == LatticePoint(dim, r, g, b)
  }

  ghost predicate SpansUnitShaper(s: Shaper) {
    SpansUnit(s.r) && SpansUnit(s.g) && SpansUnit(s.b)
  }

  lemma SpansUnitIff(c: Curve, dim: nat)
    requires FinalCurve(c) && dim >= 2
    ensures SpansUnit(c) <==> ShapedBack(c, dim, 0) == LatticeValue(dim, 0) &&
                              ShapedBack(c, dim, dim - 1) == LatticeValue(dim, dim - 1)
  {
    LatticeValues(dim, 0);
    LatticeValues(dim, dim - 1);
    hide LatticeValue;
    assert c.data[0] <= c.data[|c.data| - 1];
  }

  /** Shaping leads back to the lattice point from each lattice colour exactly when each curve reaches all of [0, 1]. */
  lemma ShapesBackIff(s: Shaper, dim: nat)
    requires FinalShaper(s) && dim >= 2
    ensures ShapesBack(s, dim) <==> SpansUnitShaper(s)
  {
    if SpansUnitShaper(s) {
      forall r: nat, g: nat, b: nat | r < dim && g < dim && b < dim
        ensures Shape(Some(s), LatticeColour(Some(s), dim, r, g, b)) == LatticePoint(dim, r, g, b)
      {
        LatticeColourIsShapedBack(Some(s), dim, r, g, b);
      }
    } else if ShapesBack(s, dim) {
      DiagonalIsShapedBack(s, dim, 0);
      DiagonalIsShapedBack(s, dim, dim - 1);
      hide ShapesBack, ShapedBack, LatticeValue, SpansUnit, FinalCurve;
      SpansUnitIff(s.r, dim);
      SpansUnitIff(s.g, dim);
      SpansUnitIff(s.b, dim);
    }
  }

  lemma DiagonalIsShapedBack(s: Shaper, dim: nat, n: nat)
    requires FinalShaper(s) && dim >= 2 && n < dim && ShapesBack(s, dim)
    ensures ShapedBack(s.r, dim, n) == ShapedBack(s.g, dim, n) == ShapedBack(s.b, dim, n) == LatticeValue(dim, n)
  {
    assert LatticePoint(dim, n, n, n) == Shape(Some(s), LatticeColour(Some(s), dim, n, n, n));
    ShapedColour(s, dim, n, n, n);
    hide Shape, LatticeColour, ShapedBack, Spaced, FinalCurve, AxisColour, ShapesBack, SearchableShaper;
  }

  // ----- The table -----

  /** Both lookups give what was asked for at every colour of the lattice. */
  ghost predicate Agrees(t: Lut, s: Shaper, look: Option<Lut>, transform: Vec3 -> Vec3)
    requires FinalShaper(s) && MaybeLook(look) && ValidLut(t) && t.dim >= 2
  {
    forall r: nat, g: nat, b: nat, ch: Channel :: r < t.dim && g < t.dim && b < t.dim ==>
      AgreesAt(t, s, look, transform, LatticeColour(Some(s), t.dim, r, g, b), ch)
  }

  ghost predicate AgreesAt(
    t: Lut, s: Shaper, look: Option<Lut>, transform: Vec3 -> Vec3, colour: Vec3, ch: Channel)
    requires FinalShaper(s) && MaybeLook(look) && ValidLut(t)
  {
    && TetrahedralLookup(t, Shape(Some(s), colour), ch) == Get(Wanted(look, transform, colour), ch)
    && TrilinearLookup(t, Shape(Some(s), colour), ch) == Get(Wanted(look, transform, colour), ch)
  }

  ghost predicate AlwaysAgrees(s: Shaper, dim: nat)
    requires FinalShaper(s) && dim >= 2
  {
    forall t: Lut, look: Option<Lut>, transform: Vec3 -> Vec3 ::
      MaybeLook(look) && ValidLut(t) && t.dim == dim && Filled(t.data, dim, Cube(dim), Some(s), look, transform) ==>
        Agrees(t, s, look, transform)
  }

  /** A value on the lattice, or beyond it. */
  ghost predicate Aligned(dim: nat, v: real)
    requires dim >= 2
  {
    v <= 0.0 || v >= 1.0 || exists m: nat :: m < dim && LatticeValue(dim, m) == v
  }

  /** Both ends of the curve lie on the lattice, or beyond it, or the curve is flat. */
  ghost predicate Fits(c: Curve, dim: nat)
    requires FinalCurve(c) && dim >= 2
  {
    Low(c) == High(c) || (Aligned(dim, Low(c)) && Aligned(dim, High(c)))
  }

  ghost predicate FitsShaper(s: Shaper, dim: nat)
    requires FinalShaper(s) && dim >= 2
  {
    Fits(s.r, dim) && Fits(s.g, dim) && Fits(s.b, dim)
  }

  /** Both neighbours of the place a point is shaped to hold the colour of the point itself. */
  ghost predicate Lands(c: Curve, t: Lut, n: nat)
    requires FinalCurve(c) && t.dim >= 2 && n < t.dim
  {
    var p := Place(t, ShapedBack(c, t.dim, n));
    AxisColour(c, t.dim, p.Floor) == AxisColour(c, t.dim, n) == AxisColour(c, t.dim, Ceiling(p))
  }

  lemma WholeIsItsOwnFloor(x: real, n: nat)
    requires x == n as real
    ensures x.Floor == n && Ceiling(x) == n && Fractional(x) == 0.0
  {}

  lemma ScaledInOrder(x: real, y: real, d: real)
    requires d > 0.0
    ensures x <= y <==> x * d <= y * d
    ensures x == y <==> x * d == y * d
  {
    assert (y - x) * d == y * d - x * d;
    if x < y { Positive(y - x, d); }
    if y < x { Positive(x - y, d); assert (x - y) * d > 0.0; }
  }

  /** Clamping to the lattice and clamping to [0, 1] come to the same. */
  lemma PlaceIsScaled(t: Lut, v: real)
    requires t.dim >= 2
    ensures Place(t, v) == Clamp(v, 0.0, 1.0) * (t.dim - 1) as real
  {
    ScaledClamp(v, t.dim - 1);
  }

  /** An aligned value falls on the lattice point that has its value, as far as it lies within [0, 1]. */
  lemma AlignedPoint(t: Lut, v: real) returns (m: nat)
    requires t.dim >= 2 && Aligned(t.dim, v)
    ensures m < t.dim && Place(t, v) == m as real && LatticeValue(t.dim, m) == Clamp(v, 0.0, 1.0)
  {
    PlaceIsScaled(t, v);
    LatticeValues(t.dim, 0);
    LatticeValues(t.dim, t.dim - 1);
    hide LatticeValue, Place;
    if v <= 0.0 {
      m := 0;
    } else if v >= 1.0 {
      m := t.dim - 1;
    } else {
      m :| m < t.dim && LatticeValue(t.dim, m) == v;
      LatticeValues(t.dim, m);
    }
  }

  lemma ScaledClamp(v: real, d: nat)
    requires d >= 1
    ensures Clamp(v * d as real, 0.0, d as real) == Clamp(v, 0.0, 1.0) * d as real
  {
    ScaledInOrder(0.0, v, d as real);
    ScaledInOrder(v, 1.0, d as real);
  }

  lemma PlaceOfLatticeValue(t: Lut, n: nat)
    requires t.dim >= 2 && n < t.dim
    ensures Place(t, LatticeValue(t.dim, n)) == n as real
  {
    LatticeValues(t.dim, n);
    hide LatticeValue;
  }

  lemma FittingLands(c: Curve, t: Lut, n: nat)
    requires FinalCurve(c) && t.dim >= 2 && n < t.dim && Fits(c, t.dim)
    ensures Lands(c, t, n)
  {
    var dim := t.dim;
    var v := ShapedBack(c, dim, n);
    var m := WhereItLands(c, t, n);
    SameAxisColourIff(c, dim, m, n);
    hide AxisColour, ShapedBack, FinalCurve, Fits, Place;
    if Low(c) == High(c) {
      var p := Place(t, v);
      Flat(c, dim, p.Floor, n);
      Flat(c, dim, Ceiling(p), n);
    } else {
      WholeIsItsOwnFloor(Place(t, v), m);
    }
  }

  lemma Flat(c: Curve, dim: nat, m: nat, n: nat)
    requires FinalCurve(c) && dim >= 2 && Low(c) == High(c)
    ensures AxisColour(c, dim, m) == AxisColour(c, dim, n)
  {
    SameAxisColourIff(c, dim, m, n);
    hide AxisColour, LatticeValue;
  }

  /** A curve that fits and is not flat leads from a lattice point to one that is shaped to the same value. */
  lemma WhereItLands(c: Curve, t: Lut, n: nat) returns (m: nat)
    requires FinalCurve(c) && t.dim >= 2 && n < t.dim && Fits(c, t.dim)
    ensures Low(c) != High(c) ==> m < t.dim && Place(t, ShapedBack(c, t.dim, n)) == m as real
    ensures Low(c) != High(c) ==> ShapedBack(c, t.dim, m) == ShapedBack(c, t.dim, n)
  {
    var v := ShapedBack(c, t.dim, n);
    LatticeValues(t.dim, n);
    StartsLow(c.data, c.start);
    ClampTwice(LatticeValue(t.dim, n), Low(c), High(c));
    m := n;
    hide LatticeValue, FinalCurve, Table, Aligned, Clamp, Place;
    if Low(c) != High(c) {
      if v == LatticeValue(t.dim, n) {
        PlaceOfLatticeValue(t, n);
      } else {
        m := AlignedPoint(t, v);
      }
    }
  }

  /** Clamping to the curve's range gives the value itself or an end, also when it is clamped to [0, 1] in between. */
  lemma ClampTwice(x: real, lo: real, hi: real)
    requires 0.0 <= x <= 1.0 && lo <= hi
    ensures var v := Clamp(x, lo, hi);
            (v == x || v == lo || v == hi) && Clamp(Clamp(v, 0.0, 1.0), lo, hi) == v
  {}

  lemma ConstantLookup(t: Lut, v: Vec3, ch: Channel, value: real)
    requires ValidLut(t)
    requires CellAt(t, Place(t, v.r), Place(t, v.g), Place(t, v.b), ch) == AffineCell(value, 0.0, 0.0, 0.0)
    ensures TetrahedralLookup(t, v, ch) == value && TrilinearLookup(t, v, ch) == value
  {
    var x, y, z := Place(t, v.r), Place(t, v.g), Place(t, v.b);
    hide CellAt, Tetrahedral, Trilinear, Place, Fractional;
    TetrahedralOfAffine(value, 0.0, 0.0, 0.0, Fractional(x), Fractional(y), Fractional(z));
    TrilinearOfAffine(value, 0.0, 0.0, 0.0, Fractional(x), Fractional(y), Fractional(z));
  }

  lemma ShapedColour(s: Shaper, dim: nat, r: nat, g: nat, b: nat)
    requires FinalShaper(s) && dim >= 2
    ensures LatticeColour(Some(s), dim, r, g, b) ==
            Vec3(AxisColour(s.r, dim, r), AxisColour(s.g, dim, g), AxisColour(s.b, dim, b))
    ensures Shape(Some(s), LatticeColour(Some(s), dim, r, g, b)) ==
            Vec3(ShapedBack(s.r, dim, r), ShapedBack(s.g, dim, g), ShapedBack(s.b, dim, b))
  {
    AxisIsShapedBack(s.r, dim, r);
    AxisIsShapedBack(s.g, dim, g);
    AxisIsShapedBack(s.b, dim, b);
    hide Forward, Inverse, ShapedBack, Spaced;
  }

  lemma LandedCell(t: Lut, s: Shaper, look: Option<Lut>, transform: Vec3 -> Vec3, r: nat, g: nat, b: nat, ch: Channel)
    requires FinalShaper(s) && MaybeLook(look) && ValidLut(t) && t.dim >= 2 && r < t.dim && g < t.dim && b < t.dim
    requires Filled(t.data, t.dim, Cube(t.dim), Some(s), look, transform)
    requires Lands(s.r, t, r) && Lands(s.g, t, g) && Lands(s.b, t, b)
    ensures CellAt(t, Place(t, ShapedBack(s.r, t.dim, r)), Place(t, ShapedBack(s.g, t.dim, g)),
                   Place(t, ShapedBack(s.b, t.dim, b)), ch) ==
            AffineCell(Get(Wanted(look, transform, LatticeColour(Some(s), t.dim, r, g, b)), ch), 0.0, 0.0, 0.0)
  {
    hide At, AxisColour, Wanted, Filled, FinalCurve, LatticeColour, ShapedBack, MaybeLook, Place, Ceiling, ValidLut,
         Index, Cube;
    var wanted := Wanted(look, transform, LatticeColour(Some(s), t.dim, r, g, b));
    forall i: nat, j: nat, k: nat | i < t.dim && j < t.dim && k < t.dim
      && AxisColour(s.r, t.dim, i) == AxisColour(s.r, t.dim, r)
      && AxisColour(s.g, t.dim, j) == AxisColour(s.g, t.dim, g)
      && AxisColour(s.b, t.dim, k) == AxisColour(s.b, t.dim, b)
      ensures At(t, i, j, k) == wanted
    {
      EntryIsWanted(t, Some(s), look, transform, i, j, k);
      ShapedColour(s, t.dim, i, j, k);
      ShapedColour(s, t.dim, r, g, b);
    }
    Neighbours(Place(t, ShapedBack(s.r, t.dim, r)), t.dim - 1);
    Neighbours(Place(t, ShapedBack(s.g, t.dim, g)), t.dim - 1);
    Neighbours(Place(t, ShapedBack(s.b, t.dim, b)), t.dim - 1);
  }

  lemma FittingAgrees(
    t: Lut, s: Shaper, look: Option<Lut>, transform: Vec3 -> Vec3, r: nat, g: nat, b: nat, ch: Channel)
    requires FinalShaper(s) && MaybeLook(look) && ValidLut(t) && t.dim >= 2 && r < t.dim && g < t.dim && b < t.dim
    requires Filled(t.data, t.dim, Cube(t.dim), Some(s), look, transform) && FitsShaper(s, t.dim)
    ensures AgreesAt(t, s, look, transform, LatticeColour(Some(s), t.dim, r, g, b), ch)
  {
    FittingLands(s.r, t, r);
    FittingLands(s.g, t, g);
    FittingLands(s.b, t, b);
    LandedCell(t, s, look, transform, r, g, b, ch);
    ShapedColour(s, t.dim, r, g, b);
    var colour := LatticeColour(Some(s), t.dim, r, g, b);
    hide Fits, FinalCurve, Filled, Wanted, LatticeColour, Shape, Lands, CellAt, Place, ShapedBack, AffineCell, Get,
         TetrahedralLookup, TrilinearLookup, MaybeLook, SearchableCurve, SearchableShaper, ValidLut;
    ConstantLookup(t, Shape(Some(s), colour), ch, Get(Wanted(look, transform, colour), ch));
  }

  // ----- A table that does not fit -----

  lemma QuotientOf(r: nat, q: nat, d: nat)
    requires r < d
    ensures (r + d * q) % d == r && (r + d * q) / d == q
  {
    var i := r + d * q;
    var e := q - i / d;
    assert i == d * (i / d) + i % d;
    assert d * e == d * q - d * (i / d);
    BoundedMultiple(d, e);
  }

  lemma BoundedMultiple(d: nat, e: int)
    requires -(d as int) < d * e < d
    ensures e == 0
  {
    assert e >= 1 ==> d * (e - 1) >= 0;
    assert e <= -1 ==> d * (-1 - e) >= 0;
  }

  /** A transform that treats the channels one by one. */
  datatype Channels = Channels(r: real -> real, g: real -> real, b: real -> real)

  ghost function Channelwise(f: Channels): Vec3 -> Vec3 {
    (v: Vec3) => Vec3(f.r(v.r), f.g(v.g), f.b(v.b))
  }

  ghost function ChannelOf(f: Channels, ch: Channel): real -> real {
    match ch
    case Red => f.r
    case Green => f.g
    case Blue => f.b
  }

  const UNCHANGED := Channels(x => x, x => x, x => x)

  /** The table calcColorTransform makes for a transform. */
  ghost function ColourTable(s: Shaper, dim: nat, transform: Vec3 -> Vec3): Lut
    requires FinalShaper(s) && dim >= 2
  {
    Lut(dim, seq(Cube(dim), i requires 0 <= i => transform(EntryColour(s, dim, i))))
  }

  /** The lattice colour of an index. */
  ghost function EntryColour(s: Shaper, dim: nat, i: nat): Vec3
    requires FinalShaper(s) && dim >= 2
  {
    var row: nat := i / dim;
    LatticeColour(Some(s), dim, i % dim, row % dim, row / dim)
  }

  lemma EntryColourAt(s: Shaper, dim: nat, r: nat, g: nat, b: nat)
    requires FinalShaper(s) && dim >= 2 && r < dim && g < dim && b < dim
    ensures EntryColour(s, dim, Index(r, g, b, dim)) == LatticeColour(Some(s), dim, r, g, b)
  {
    var row := Digits(r, g, b, dim);
    hide LatticeColour, FinalShaper, Index;
  }

  lemma Digits(r: nat, g: nat, b: nat, dim: nat) returns (row: nat)
    requires r < dim && g < dim
    ensures Index(r, g, b, dim) % dim == r && Index(r, g, b, dim) / dim == row && row % dim == g && row / dim == b
  {
    row := g + dim * b;
    QuotientOf(r, row, dim);
    QuotientOf(g, b, dim);
  }

  lemma ColourTableIsFilled(s: Shaper, dim: nat, transform: Vec3 -> Vec3)
    requires FinalShaper(s) && dim >= 2
    ensures ColourTable(s, dim, transform).dim == dim && ValidLut(ColourTable(s, dim, transform))
    ensures Filled(ColourTable(s, dim, transform).data, dim, Cube(dim), Some(s), None, transform)
  {
    hide LatticeColour, Index, EntryColour, FinalCurve;
    var t := ColourTable(s, dim, transform);
    forall r: nat, g: nat, b: nat | r < dim && g < dim && b < dim
      ensures Index(r, g, b, dim) < Cube(dim)
      ensures t.data[Index(r, g, b, dim)] == transform(LatticeColour(Some(s), dim, r, g, b))
    {
      IndexInBounds(r, g, b, dim);
      EntryColourAt(s, dim, r, g, b);
      hide Cube;
    }
    hide ColourTable;
    assert forall v: Vec3 :: Wanted(None, transform, v) == transform(v);
  }

  /** In the table of such a transform a channel depends on its own axis only. */
  ghost predicate AxisTable(t: Lut, s: Shaper, f: Channels)
    requires FinalShaper(s) && ValidLut(t) && t.dim >= 2
  {
    forall r: nat, g: nat, b: nat :: r < t.dim && g < t.dim && b < t.dim ==>
      At(t, r, g, b) ==
      Vec3(f.r(AxisColour(s.r, t.dim, r)), f.g(AxisColour(s.g, t.dim, g)), f.b(AxisColour(s.b, t.dim, b)))
  }

  lemma FilledIsAxisTable(t: Lut, s: Shaper, f: Channels)
    requires FinalShaper(s) && ValidLut(t) && t.dim >= 2
    requires Filled(t.data, t.dim, Cube(t.dim), Some(s), None, Channelwise(f))
    ensures AxisTable(t, s, f)
  {
    hide At, Filled, FinalCurve, AxisColour, LatticeColour, SearchableCurve, SearchableShaper, ValidLut, Cube;
    forall r: nat, g: nat, b: nat | r < t.dim && g < t.dim && b < t.dim
      ensures At(t, r, g, b) ==
              Vec3(f.r(AxisColour(s.r, t.dim, r)), f.g(AxisColour(s.g, t.dim, g)), f.b(AxisColour(s.b, t.dim, b)))
    {
      EntryIsWanted(t, Some(s), None, Channelwise(f), r, g, b);
      ShapedColour(s, t.dim, r, g, b);
    }
  }

  /** So a lookup is linear between two axis colours. */
  lemma AxisTableIsLinear(t: Lut, s: Shaper, f: Channels, v: Vec3, ch: Channel)
    requires FinalShaper(s) && ValidLut(t) && t.dim >= 2 && AxisTable(t, s, f)
    ensures TetrahedralLookup(t, v, ch) == Between(AxisOf(s, ch), ChannelOf(f, ch), t, Place(t, Get(v, ch)))
  {
    hide At, AxisTable, FinalCurve, AxisColour, Place, CellAt, SearchableCurve, SearchableShaper, ValidLut, Tetrahedral,
         Ceiling, Fractional, Along, TetrahedralLookup, Sloped, LowAt, HighAt;
    var x, y, z := Place(t, v.r), Place(t, v.g), Place(t, v.b);
    SlopedCells(t, s, f, x, y, z, ch);
    var c, p := AxisOf(s, ch), Get(Vec3(x, y, z), ch);
    assert p == Place(t, Get(v, ch));
    SlopedLookup(t, v, ch, LowAt(c, ChannelOf(f, ch), t, p), HighAt(c, ChannelOf(f, ch), t, p));
  }

  ghost function AxisOf(s: Shaper, ch: Channel): Curve {
    match ch
    case Red => s.r
    case Green => s.g
    case Blue => s.b
  }

  lemma SlopedCells(t: Lut, s: Shaper, f: Channels, x: real, y: real, z: real, ch: Channel)
    requires FinalShaper(s) && ValidLut(t) && t.dim >= 2 && AxisTable(t, s, f)
    requires OnLattice(t, x) && OnLattice(t, y) && OnLattice(t, z)
    ensures var c, p := AxisOf(s, ch), Get(Vec3(x, y, z), ch);
            CellAt(t, x, y, z, ch) == Sloped(LowAt(c, ChannelOf(f, ch), t, p), HighAt(c, ChannelOf(f, ch), t, p), ch)
  {
    Neighbours(x, t.dim - 1);
    Neighbours(y, t.dim - 1);
    Neighbours(z, t.dim - 1);
    hide At, FinalCurve, AxisColour, Ceiling, SearchableShaper, ValidLut;
  }

  lemma Neighbours(p: real, n: nat)
    requires 0.0 <= p <= n as real
    ensures 0 <= p.Floor <= Ceiling(p) <= n
  {}

  /** A cell that changes along one axis only. */
  ghost function Sloped(low: real, high: real, ch: Channel): Cell {
    match ch
    case Red => Cell(low, high, low, low, high, high, low, high)
    case Green => Cell(low, low, high, low, high, low, high, high)
    case Blue => Cell(low, low, low, high, low, high, high, high)
  }

  lemma SlopedIsAffine(low: real, high: real)
    ensures Sloped(low, high, Red) == AffineCell(low, high - low, 0.0, 0.0)
    ensures Sloped(low, high, Green) == AffineCell(low, 0.0, high - low, 0.0)
    ensures Sloped(low, high, Blue) == AffineCell(low, 0.0, 0.0, high - low)
  {}

  ghost function Along(base: real, step: real, f: real): real {
    base + step * f
  }

  lemma OnSlope(low: real, high: real, fx: real, fy: real, fz: real)
    ensures Tetrahedral(Sloped(low, high, Red), fx, fy, fz) == Along(low, high - low, fx)
    ensures Tetrahedral(Sloped(low, high, Green), fx, fy, fz) == Along(low, high - low, fy)
    ensures Tetrahedral(Sloped(low, high, Blue), fx, fy, fz) == Along(low, high - low, fz)
  {
    SlopedIsAffine(low, high);
    hide Tetrahedral, AffineCell, Sloped;
    TetrahedralOfAffine(low, high - low, 0.0, 0.0, fx, fy, fz);
    TetrahedralOfAffine(low, 0.0, high - low, 0.0, fx, fy, fz);
    TetrahedralOfAffine(low, 0.0, 0.0, high - low, fx, fy, fz);
  }

  lemma SlopedLookup(t: Lut, v: Vec3, ch: Channel, low: real, high: real)
    requires ValidLut(t)
    requires CellAt(t, Place(t, v.r), Place(t, v.g), Place(t, v.b), ch) == Sloped(low, high, ch)
    ensures TetrahedralLookup(t, v, ch) == Along(low, high - low, Fractional(Place(t, Get(v, ch))))
  {
    var x, y, z := Place(t, v.r), Place(t, v.g), Place(t, v.b);
    hide CellAt, Tetrahedral, Place, Fractional, Sloped, Along;
    OnSlope(low, high, Fractional(x), Fractional(y), Fractional(z));
  }

  /** The entries on both sides of a place. */
  ghost function LowAt(c: Curve, f: real -> real, t: Lut, p: real): real
    requires FinalCurve(c) && t.dim >= 2 && OnLattice(t, p)
  {
    f(AxisColour(c, t.dim, p.Floor))
  }

  ghost function HighAt(c: Curve, f: real -> real, t: Lut, p: real): real
    requires FinalCurve(c) && t.dim >= 2 && OnLattice(t, p)
  {
    f(AxisColour(c, t.dim, Ceiling(p)))
  }

  ghost function Between(c: Curve, f: real -> real, t: Lut, p: real): real
    requires FinalCurve(c) && t.dim >= 2 && OnLattice(t, p)
  {
    Along(LowAt(c, f, t, p), HighAt(c, f, t, p) - LowAt(c, f, t, p), Fractional(p))
  }

  /** Different colours of the axis stay different. */
  ghost predicate TellsApart(c: Curve, f: real -> real, dim: nat)
    requires FinalCurve(c) && dim >= 2
  {
    forall m: nat, n: nat :: AxisColour(c, dim, m) != AxisColour(c, dim, n) ==>
      f(AxisColour(c, dim, m)) != f(AxisColour(c, dim, n))
  }

  /** From one end of the axis, a curve that does not fit leads between two points of different colours. */
  lemma MisfitDisagrees(c: Curve, f: real -> real, t: Lut) returns (n: nat)
    requires FinalCurve(c) && t.dim >= 2 && !Fits(c, t.dim) && TellsApart(c, f, t.dim)
    ensures n < t.dim
    ensures Between(c, f, t, Place(t, ShapedBack(c, t.dim, n))) != f(AxisColour(c, t.dim, n))
  {
    var low, high;
    n, low, high := MisfitLandsBetween(c, t);
    hide AxisColour, FinalCurve, Aligned, Fits, Place, ShapedBack, Fractional, Ceiling;
    var p := Place(t, ShapedBack(c, t.dim, n));
    var a, b := AxisColour(c, t.dim, low), AxisColour(c, t.dim, high);
    Misses(f(a), f(b) - f(a), Fractional(p));
    hide Along;
  }

  lemma MisfitLandsBetween(c: Curve, t: Lut) returns (n: nat, low: nat, high: nat)
    requires FinalCurve(c) && t.dim >= 2 && !Fits(c, t.dim)
    ensures n < t.dim
    ensures var p := Place(t, ShapedBack(c, t.dim, n));
            p.Floor == low && Ceiling(p) == high && 0.0 < Fractional(p) < 1.0
    ensures AxisColour(c, t.dim, low) != AxisColour(c, t.dim, high)
    ensures || AxisColour(c, t.dim, n) == AxisColour(c, t.dim, low)
            || AxisColour(c, t.dim, n) == AxisColour(c, t.dim, high)
  {
    var dim := t.dim;
    n := if Aligned(dim, Low(c)) then dim - 1 else 0;
    var v := if n == 0 then Low(c) else High(c);
    MisalignedPoint(t, v);
    var p := Place(t, v);
    low, high := p.Floor, Ceiling(p);
    LatticeValues(dim, n);
    LatticeValues(dim, low);
    LatticeValues(dim, high);
    StartsLow(c.data, c.start);
    SameAxisColourIff(c, dim, low, n);
    SameAxisColourIff(c, dim, high, n);
    hide AxisColour, LatticeValue, FinalCurve, Table, Aligned, Place;
    assert ShapedBack(c, dim, n) == v;
  }

  lemma Misses(base: real, step: real, f: real)
    requires step != 0.0 && 0.0 < f < 1.0
    ensures Along(base, step, f) != base && Along(base, step, f) != base + step
  {
    NonZero(step, f);
    NonZero(step, 1.0 - f);
    Rest(step, f);
  }

  lemma Rest(step: real, f: real)
    ensures step - step * f == step * (1.0 - f)
  {}

  lemma NonZero(x: real, y: real)
    requires y != 0.0 && x != 0.0
    ensures x * y != 0.0
  {
    if x > 0.0 && y > 0.0 {
      Positive(x, y);
    } else if x > 0.0 {
      Positive(x, -y);
      assert x * -y == -(x * y);
    } else if y > 0.0 {
      Positive(-x, y);
      assert -x * y == -(x * y);
    } else {
      Positive(-x, -y);
      assert -x * -y == x * y;
    }
  }

  lemma MisalignedPoint(t: Lut, v: real)
    requires t.dim >= 2 && !Aligned(t.dim, v)
    ensures var p := Place(t, v);
            && 0.0 < v < 1.0 && 0.0 < Fractional(p) < 1.0 && Ceiling(p) == p.Floor + 1 < t.dim
            && LatticeValue(t.dim, p.Floor) < v < LatticeValue(t.dim, Ceiling(p))
  {
    var p := Place(t, v);
    assert 0.0 < v < 1.0;
    PlaceWithin(t, v);
    assert p.Floor as real != p by {
      LatticeValues(t.dim, p.Floor);
      ScaledInOrder(LatticeValue(t.dim, p.Floor), v, (t.dim - 1) as real);
      hide Place, LatticeValue;
    }
    hide Aligned, Place, LatticeValue, Fractional, Ceiling;
    PartsOf(p, t.dim - 1);
    BetweenLatticeValues(t.dim, p.Floor, v);
  }

  lemma PlaceWithin(t: Lut, v: real)
    requires t.dim >= 2 && 0.0 <= v <= 1.0
    ensures Place(t, v) == v * (t.dim - 1) as real
  {
    PlaceIsScaled(t, v);
    hide Place;
  }

  lemma BetweenLatticeValues(dim: nat, k: nat, v: real)
    requires dim >= 2 && k + 1 < dim && k as real < v * (dim - 1) as real < (k + 1) as real
    ensures LatticeValue(dim, k) < v < LatticeValue(dim, k + 1)
  {
    hide LatticeValue;
    LatticeValues(dim, k);
    LatticeValues(dim, k + 1);
    InOrderUnscaled(LatticeValue(dim, k), v, LatticeValue(dim, k + 1), (dim - 1) as real, k as real, (k + 1) as real);
  }

  lemma InOrderUnscaled(low: real, v: real, high: real, d: real, lowScaled: real, highScaled: real)
    requires d > 0.0 && low * d == lowScaled && high * d == highScaled && lowScaled < v * d < highScaled
    ensures low < v < high
  {
    Unscaled(low, v, d);
    Unscaled(v, high, d);
  }

  lemma Unscaled(x: real, y: real, d: real)
    requires d > 0.0 && x * d < y * d
    ensures x < y
  {
    ScaledInOrder(y, x, d);
  }

  lemma PartsOf(p: real, n: nat)
    requires 0.0 <= p <= n as real && p.Floor as real != p
    ensures 0 <= p.Floor < n && Ceiling(p) == p.Floor + 1 && 0.0 < Fractional(p) < 1.0
    ensures p.Floor as real < p < (p.Floor + 1) as real
  {
    var k := p.Floor;
    assert k as real < p < k as real + 1.0;
    assert (k + 1) as real == k as real + 1.0;
  }

  /**
    Whatever the transform and the look, the pair of shaper and table is exact at every colour of the lattice: this
    holds exactly when each curve is flat, or starts and ends on lattice points or beyond them.
  */
  lemma AlwaysAgreesIff(s: Shaper, dim: nat)
    requires FinalShaper(s) && dim >= 2
    ensures AlwaysAgrees(s, dim) <==> FitsShaper(s, dim)
  {
    if FitsShaper(s, dim) {
      forall t: Lut, look: Option<Lut>, transform: Vec3 -> Vec3 |
        MaybeLook(look) && ValidLut(t) && t.dim == dim && Filled(t.data, dim, Cube(dim), Some(s), look, transform)
        ensures Agrees(t, s, look, transform)
      {
        forall r: nat, g: nat, b: nat, ch: Channel | r < dim && g < dim && b < dim
          ensures AgreesAt(t, s, look, transform, LatticeColour(Some(s), t.dim, r, g, b), ch)
        {
          FittingAgrees(t, s, look, transform, r, g, b, ch);
        }
      }
    } else {
      MisfitDisagreesSomewhere(s, dim);
    }
  }

  lemma MisfitDisagreesSomewhere(s: Shaper, dim: nat)
    requires FinalShaper(s) && dim >= 2 && !FitsShaper(s, dim)
    ensures !AlwaysAgrees(s, dim)
  {
    hide Filled, FitsShaper, ValidLut, AlwaysAgrees, ColourTable, Agrees, Cube, FinalCurve, SearchableShaper;
    var transform := Channelwise(UNCHANGED);
    var t := ColourTable(s, dim, transform);
    ColourTableIsFilled(s, dim, transform);
    SeparableAgreesIff(t, s, UNCHANGED);
    if AlwaysAgrees(s, dim) {
      AgreesInstance(t, s, None, transform);
    }
  }

  lemma AgreesInstance(t: Lut, s: Shaper, look: Option<Lut>, transform: Vec3 -> Vec3)
    requires FinalShaper(s) && MaybeLook(look) && ValidLut(t) && t.dim >= 2 && AlwaysAgrees(s, t.dim)
    requires Filled(t.data, t.dim, Cube(t.dim), Some(s), look, transform)
    ensures Agrees(t, s, look, transform)
  {
    hide Filled, FinalShaper, ValidLut, MaybeLook, Agrees, Cube;
  }

  /**
    One transform is enough to tell: with any that works channel by channel and keeps the colours of the axes
    apart, the pair is exact on the lattice exactly when the shaper fits.
  */
  lemma SeparableAgreesIff(t: Lut, s: Shaper, f: Channels)
    requires FinalShaper(s) && ValidLut(t) && t.dim >= 2
    requires Filled(t.data, t.dim, Cube(t.dim), Some(s), None, Channelwise(f))
    requires TellsApart(s.r, f.r, t.dim) && TellsApart(s.g, f.g, t.dim) && TellsApart(s.b, f.b, t.dim)
    ensures Agrees(t, s, None, Channelwise(f)) <==> FitsShaper(s, t.dim)
  {
    hide ValidLut, Cube, Filled, FinalCurve, TellsApart, LatticeColour, SearchableShaper, AgreesAt, Fits;
    if FitsShaper(s, t.dim) {
      forall r: nat, g: nat, b: nat, ch: Channel | r < t.dim && g < t.dim && b < t.dim
        ensures AgreesAt(t, s, None, Channelwise(f), LatticeColour(Some(s), t.dim, r, g, b), ch)
      {
        FittingAgrees(t, s, None, Channelwise(f), r, g, b, ch);
      }
    } else {
      FilledIsAxisTable(t, s, f);
      hide AxisTable;
      var ch := if !Fits(s.r, t.dim) then Red else if !Fits(s.g, t.dim) then Green else Blue;
      var n := MisfitDisagrees(AxisOf(s, ch), ChannelOf(f, ch), t);
      LookupOfColour(t, s, f, n, ch);
      assert !AgreesAt(t, s, None, Channelwise(f), LatticeColour(Some(s), t.dim, n, n, n), ch);
    }
  }

  lemma LookupOfColour(t: Lut, s: Shaper, f: Channels, n: nat, ch: Channel)
    requires FinalShaper(s) && ValidLut(t) && t.dim >= 2 && AxisTable(t, s, f)
    requires var c, h := AxisOf(s, ch), ChannelOf(f, ch);
             Between(c, h, t, Place(t, ShapedBack(c, t.dim, n))) != h(AxisColour(c, t.dim, n))
    ensures !AgreesAt(t, s, None, Channelwise(f), LatticeColour(Some(s), t.dim, n, n, n), ch)
  {
    hide ValidLut, AxisTable, AxisColour, LatticeColour, Place, Between, ShapedBack, FinalCurve, Shape, SearchableCurve,
         TetrahedralLookup, TrilinearLookup;
    ShapedColour(s, t.dim, n, n, n);
    var colour := LatticeColour(Some(s), t.dim, n, n, n);
    AxisTableIsLinear(t, s, f, Shape(Some(s), colour), ch);
    assert Wanted(None, Channelwise(f), colour) == Channelwise(f)(colour);
  }

  // ----- The shaper's own curve as the transform -----

  ghost function OwnCurves(s: Shaper): Channels
    requires FinalShaper(s)
  {
    Channels(x => Forward(s.r.data, x), x => Forward(s.g.data, x), x => Forward(s.b.data, x))
  }

  /** The shaper itself keeps the colours apart that its inverse gives out. */
  lemma OwnCurveTellsApart(c: Curve, f: real -> real, dim: nat)
    requires FinalCurve(c) && dim >= 2 && forall x :: f(x) == Forward(c.data, x)
    ensures TellsApart(c, f, dim)
  {
    hide FinalCurve, Forward, AxisColour, ShapedBack;
    forall m: nat, n: nat | AxisColour(c, dim, m) != AxisColour(c, dim, n)
      ensures f(AxisColour(c, dim, m)) != f(AxisColour(c, dim, n))
    {
      AxisIsShapedBack(c, dim, m);
      AxisIsShapedBack(c, dim, n);
      SameAxisColourIff(c, dim, m, n);
    }
  }

  /** Even the shaper's own curve comes out right on the lattice exactly when the shaper fits. */
  lemma OwnCurvesAgreeIff(t: Lut, s: Shaper)
    requires FinalShaper(s) && ValidLut(t) && t.dim >= 2
    requires Filled(t.data, t.dim, Cube(t.dim), Some(s), None, Channelwise(OwnCurves(s)))
    ensures forall v: Vec3 :: Channelwise(OwnCurves(s))(v) == ApplyForward(s, v)
    ensures Agrees(t, s, None, Channelwise(OwnCurves(s))) <==> FitsShaper(s, t.dim)
  {
    hide Forward, ValidLut, Filled, Agrees, FitsShaper, TellsApart, FinalCurve, Cube;
    OwnCurveTellsApart(s.r, OwnCurves(s).r, t.dim);
    OwnCurveTellsApart(s.g, OwnCurves(s).g, t.dim);
    OwnCurveTellsApart(s.b, OwnCurves(s).b, t.dim);
    SeparableAgreesIff(t, s, OwnCurves(s));
  }

  // ----- The pair calcColorTransform makes -----

  /** The shaping function applied to a grey. */
  ghost function Shaped(shape: Vec3 -> Vec3, x: real, ch: Channel): real {
    Get(shape(Vec3(x, x, x)), ch)
  }

  /** Over the greys that are sampled the shaping function does not fall. */
  ghost predicate Rises(shape: Vec3 -> Vec3, size: nat)
    requires size >= 2
  {
    forall m: nat, n: nat, ch: Channel :: m <= n < size ==>
      Shaped(shape, LatticeValue(size, m), ch) <= Shaped(shape, LatticeValue(size, n), ch)
  }

  /** The shaping function is flat over the greys, or takes black and white to lattice values or beyond. */
  ghost predicate EndsFit(shape: Vec3 -> Vec3, dim: nat, ch: Channel)
    requires dim >= 2
  {
    || Shaped(shape, 0.0, ch) == Shaped(shape, 1.0, ch)
    || (Aligned(dim, Shaped(shape, 0.0, ch)) && Aligned(dim, Shaped(shape, 1.0, ch)))
  }

  lemma SampledCurve(c: Curve, size: nat, shape: Vec3 -> Vec3, ch: Channel)
    requires size >= 2 && |c.data| == size && c.start >= 0 && IsStart(c.data, c.start) && Rises(shape, size)
    requires forall n: nat :: n < size ==> c.data[n] == Shaped(shape, LatticeValue(size, n), ch)
    ensures FinalCurve(c) && Low(c) == Shaped(shape, 0.0, ch) && High(c) == Shaped(shape, 1.0, ch)
  {
    hide LatticeValue, IsStart, Shaped;
    LatticeValues(size, 0);
    LatticeValues(size, size - 1);
    forall i, j | 0 <= i <= j < |c.data|
      ensures c.data[i] <= c.data[j]
    {
      assert Shaped(shape, LatticeValue(size, i), ch) <= Shaped(shape, LatticeValue(size, j), ch);
    }
  }

  /** With a shaping function that rises the shaper comes out final, with the ends of that function. */
  lemma CalculatedIsFinal(s: Shaper, size: nat, shape: Vec3 -> Vec3)
    requires size >= 2 && ShaperCalculated(s, size, shape) && Rises(shape, size)
    ensures FinalShaper(s)
    ensures forall ch: Channel ::
              Low(AxisOf(s, ch)) == Shaped(shape, 0.0, ch) && High(AxisOf(s, ch)) == Shaped(shape, 1.0, ch)
  {
    hide IsStart, Rises;
    forall n: nat | n < size
      ensures s.r.data[n] == Shaped(shape, LatticeValue(size, n), Red)
      ensures s.g.data[n] == Shaped(shape, LatticeValue(size, n), Green)
      ensures s.b.data[n] == Shaped(shape, LatticeValue(size, n), Blue)
    {
      var x := LatticeValue(size, n);
      assert Vec3(s.r.data[n], s.g.data[n], s.b.data[n]) == shape(Vec3(x, x, x));
      hide Spaced;
    }
    hide Sampled, Shaped, LatticeValue, FinalCurve, Low, High, SearchableShaper;
    SampledCurve(s.r, size, shape, Red);
    SampledCurve(s.g, size, shape, Green);
    SampledCurve(s.b, size, shape, Blue);
  }

  /**
    For a shaping function that rises, the shaper calcColorTransform makes of it is right for every transform and
    look, at all colours of the lattice, exactly when black and white are shaped to lattice values or beyond.
  */
  lemma CalculatedAgreesIff(s: Shaper, size: nat, shape: Vec3 -> Vec3, dim: nat)
    requires size >= 2 && dim >= 2 && ShaperCalculated(s, size, shape) && Rises(shape, size)
    ensures FinalShaper(s)
    ensures AlwaysAgrees(s, dim) <==> forall ch: Channel :: EndsFit(shape, dim, ch)
  {
    hide AlwaysAgrees, Shaped, Aligned, ShaperCalculated, Rises, FinalCurve, SearchableShaper, Low, High;
    CalculatedIsFinal(s, size, shape);
    AlwaysAgreesIff(s, dim);
    assert FitsShaper(s, dim) <==>
           Fits(AxisOf(s, Red), dim) && Fits(AxisOf(s, Green), dim) && Fits(AxisOf(s, Blue), dim);
    assert forall ch: Channel :: Fits(AxisOf(s, ch), dim) <==> EndsFit(shape, dim, ch);
  }

  /** In particular where it takes black to 0 or below and white to 1 or above. */
  lemma CalculatedPairAgrees(
    s: Shaper, size: nat, shape: Vec3 -> Vec3, t: Lut, look: Option<Lut>, transform: Vec3 -> Vec3)
    requires size >= 2 && ShaperCalculated(s, size, shape) && Rises(shape, size)
    requires forall ch: Channel :: Shaped(shape, 0.0, ch) <= 0.0 && 1.0 <= Shaped(shape, 1.0, ch)
    requires MaybeLook(look) && ValidLut(t) && t.dim >= 2
    requires Filled(t.data, t.dim, Cube(t.dim), Some(s), look, transform)
    ensures FinalShaper(s) && Agrees(t, s, look, transform)
  {
    hide AlwaysAgrees, Agrees, Filled, ValidLut, Cube, MaybeLook, ShaperCalculated, Rises, Shaped;
    CalculatedAgreesIff(s, size, shape, t.dim);
    AgreesInstance(t, s, look, transform);
  }
}
