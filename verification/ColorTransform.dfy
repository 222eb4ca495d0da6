/**
  calcColorTransform (src/color_helpers.cpp): it samples a shaper, fills a colour table at the colours the shaper
  maps to lattice points, and the pair is then used in place of the transform itself. The transform is any
  function on colours.
*/
module ColorTransform {
  import opened Options
  import opened Lut1D
  import opened Lut3D

  /** One channel of a finalised lut1d_t; a negative start means not finalised. */
  datatype Curve = Curve(data: seq<real>, start: int)

  datatype Shaper = Shaper(r: Curve, g: Curve, b: Curve)

  ghost predicate FinalCurve(c: Curve) {
    c.start >= 0 && Table(c.data, c.start)
  }

  ghost predicate SpansUnit(c: Curve) {
    c.data != [] && c.data[0] <= 0.0 && 1.0 <= c.data[|c.data| - 1]
  }

  ghost predicate UsableShaper(s: Shaper) {
    && FinalCurve(s.r) && FinalCurve(s.g) && FinalCurve(s.b)
    && SpansUnit(s.r) && SpansUnit(s.g) && SpansUnit(s.b)
  }

  predicate SearchableCurve(c: Curve) {
    c.start < |c.data| && |c.data| >= 2
  }

  predicate SearchableShaper(s: Shaper) {
    SearchableCurve(s.r) && SearchableCurve(s.g) && SearchableCurve(s.b) &&
    (s.r.start >= 0 ==> s.g.start >= 0 && s.b.start >= 0)
  }

  /** ApplyLut1D_Linear. */
  function ApplyForward(s: Shaper, v: Vec3): Vec3
    requires SearchableShaper(s)
  {
    Vec3(Forward(s.r.data, v.r), Forward(s.g.data, v.g), Forward(s.b.data, v.b))
  }

  /** ApplyLut1D_Inverse_Linear, which refuses a table that has not been finalised. */
  function ApplyInverse(s: Shaper, v: Vec3): Vec3
    requires SearchableShaper(s)
  {
    if s.r.start < 0 then Vec3(-1.0, -1.0, -1.0)
    else Vec3(Inverse(s.r.data, s.r.start, v.r), Inverse(s.g.data, s.g.start, v.g), Inverse(s.b.data, s.b.start, v.b))
  }

  predicate MaybeShaper(s: Option<Shaper>) {
    s.Some? ==> SearchableShaper(s.value)
  }

  /** The colour an output device shapes before it looks it up. */
  function Shape(s: Option<Shaper>, v: Vec3): Vec3
    requires MaybeShaper(s)
  {
    if s.Some? then ApplyForward(s.value, v) else v
  }

  function Spaced(n: nat, scale: real): real {
    n as real * scale
  }

  /** vSourceColorEOTFEncodedEdge[n]. */
  function Edge(s: Option<Shaper>, dim: nat, n: nat): Vec3
    requires MaybeShaper(s) && dim >= 2
  {
    var x := Spaced(n, 1.0 / (dim as real - 1.0));
    if s.Some? then ApplyInverse(s.value, Vec3(x, x, x)) else Vec3(x, x, x)
  }

  function LatticeColour(s: Option<Shaper>, dim: nat, r: nat, g: nat, b: nat): Vec3
    requires MaybeShaper(s) && dim >= 2
  {
    Vec3(Edge(s, dim, r).r, Edge(s, dim, g).g, Edge(s, dim, b).b)
  }

  ghost predicate MaybeLook(look: Option<Lut>) {
    look.Some? && look.value.data != [] ==> ValidLut(look.value)
  }

  function ApplyLook(look: Option<Lut>, v: Vec3): Vec3
    requires MaybeLook(look)
  {
    if look.Some? && look.value.data != [] then ApplyTetrahedral(look.value, v) else v
  }

  /** What calcColorTransform is asked for: the look, then the transform of its remaining arguments. */
  function Wanted(look: Option<Lut>, transform: Vec3 -> Vec3, v: Vec3): Vec3
    requires MaybeLook(look)
  {
    transform(ApplyLook(look, v))
  }

  /** The entries with an index below `count` hold the wanted colour of their lattice point. */
  ghost predicate Filled(
    data: seq<Vec3>, dim: nat, count: nat, s: Option<Shaper>, look: Option<Lut>, transform: Vec3 -> Vec3)
    requires MaybeShaper(s) && MaybeLook(look) && dim >= 2
  {
    forall r: nat, g: nat, b: nat ::
      r < dim && g < dim && b < dim && Index(r, g, b, dim) < count && count <= |data| ==>
        data[Index(r, g, b, dim)] == Wanted(look, transform, LatticeColour(s, dim, r, g, b))
  }

  lemma FillStep(
    data: seq<Vec3>, dim: nat, r: nat, g: nat, b: nat, s: Option<Shaper>, look: Option<Lut>, transform: Vec3 -> Vec3)
    requires MaybeShaper(s) && MaybeLook(look) && dim >= 2 && r < dim && g < dim && b < dim
    requires Index(r, g, b, dim) < |data| && Filled(data, dim, Index(r, g, b, dim), s, look, transform)
    ensures Filled(data[Index(r, g, b, dim) := Wanted(look, transform, LatticeColour(s, dim, r, g, b))], dim,
                   Index(r, g, b, dim) + 1, s, look, transform)
  {
    var at := Index(r, g, b, dim);
    hide Wanted, LatticeColour;
    forall r': nat, g': nat, b': nat | r' < dim && g' < dim && b' < dim && Index(r', g', b', dim) == at
      ensures r' == r && g' == g && b' == b
    {
      IndexIsInjective(r, g, b, r', g', b', dim);
    }
    hide Index;
  }

  /** Where the counters of the three loops carry over. */
  lemma Carries(dim: nat, g: nat, b: nat)
    ensures Index(dim, g, b, dim) == Index(0, g + 1, b, dim)
    ensures Index(0, dim, b, dim) == Index(0, 0, b + 1, dim)
    ensures Index(0, 0, dim, dim) == Cube(dim) && Index(0, 0, 0, dim) == 0
  {
    assert dim * (g + 1 + dim * b) == dim + dim * (g + dim * b);
  }

  lemma Advance(r: nat, g: nat, b: nat, dim: nat)
    ensures Index(r + 1, g, b, dim) == Index(r, g, b, dim) + 1
  {}

  lemma Nothing(data: seq<Vec3>, dim: nat, s: Option<Shaper>, look: Option<Lut>, transform: Vec3 -> Vec3)
    requires MaybeShaper(s) && MaybeLook(look) && dim >= 2
    ensures Index(0, 0, 0, dim) == 0 && Filled(data, dim, 0, s, look, transform) && InOrder([], 0)
  {}

  lemma SameColour(s: Option<Shaper>, dim: nat, r: nat, g: nat, b: nat)
    requires MaybeShaper(s) && dim >= 2
    ensures LatticeColour(s, dim, r, g, b) == Vec3(Edge(s, dim, r).r, Edge(s, dim, g).g, Edge(s, dim, b).b)
  {}

  /** vSourceColorEOTFEncodedEdge: the colours on the axes of the table. */
  method FillEdges(dim: nat, s: Option<Shaper>) returns (edge: array<Vec3>)
    requires MaybeShaper(s) && dim >= 2
    ensures edge.Length == dim && forall i :: 0 <= i < dim ==> edge[i] == Edge(s, dim, i)
    ensures fresh(edge)
  {
    hide ApplyInverse, SearchableShaper;
    edge := new Vec3[dim](_ => Vec3(0.0, 0.0, 0.0));
    var scale := 1.0 / (dim as real - 1.0);
    for n := 0 to dim
      invariant forall i :: 0 <= i < n ==> edge[i] == Edge(s, dim, i)
    {
      var x := Spaced(n, scale);
      edge[n] := Vec3(x, x, x);
      if s.Some? {
        edge[n] := ApplyInverse(s.value, edge[n]);
      }
    }
  }

  /** Writes went through 0, 1, 2, ... and no further than n. */
  ghost predicate InOrder(writes: seq<nat>, n: nat) {
    |writes| == n && forall i :: 0 <= i < n ==> writes[i] == i
  }

  /** lut3d_t as the loop fills it. */
  class Lut3d {
    var lutEdgeSize: nat
    var data: array<Vec3>

    constructor ()
      ensures lutEdgeSize == 0 && fresh(data)
    {
      lutEdgeSize := 0;
      data := new Vec3[0];
    }

    function Value(): Lut
      reads this, data
    {
      Lut(lutEdgeSize, data[..])
    }

    /** One turn of the innermost loop. */
    method WriteEntry(
      edge: array<Vec3>, red: nat, green: nat, blue: nat, s: Option<Shaper>, look: Option<Lut>,
      transform: Vec3 -> Vec3, ghost writes: seq<nat>) returns (ghost written: seq<nat>)
      requires MaybeShaper(s) && MaybeLook(look) && ValidLut(Value()) && lutEdgeSize >= 2 && edge != data
      requires edge.Length == lutEdgeSize && forall i :: 0 <= i < lutEdgeSize ==> edge[i] == Edge(s, lutEdgeSize, i)
      requires red < lutEdgeSize && green < lutEdgeSize && blue < lutEdgeSize
      requires Filled(data[..], lutEdgeSize, Index(red, green, blue, lutEdgeSize), s, look, transform)
      requires InOrder(writes, Index(red, green, blue, lutEdgeSize))
      modifies data
      ensures Filled(data[..], lutEdgeSize, Index(red + 1, green, blue, lutEdgeSize), s, look, transform)
      ensures InOrder(written, Index(red + 1, green, blue, lutEdgeSize))
    {
      hide Wanted, LatticeColour, Index, Cube, Filled, Edge;
      var color := Vec3(edge[red].r, edge[green].g, edge[blue].b);
      SameColour(s, lutEdgeSize, red, green, blue);
      IndexInBounds(red, green, blue, lutEdgeSize);
      FillStep(data[..], lutEdgeSize, red, green, blue, s, look, transform);
      Advance(red, green, blue, lutEdgeSize);
      var at := Index(red, green, blue, lutEdgeSize);
      var wanted := Wanted(look, transform, color);
      ghost var before := data[..];
      data[at] := wanted;
      assert data[..] == before[at := wanted];
      written := writes + [at];
    }

    /**
      Every index written is in bounds, and the writes go through 0, 1, 2, ... up to the last entry: each entry is
      written exactly once, in storage order.
    */
    method Fill(dim: nat, s: Option<Shaper>, look: Option<Lut>, transform: Vec3 -> Vec3)
      returns (ghost writes: seq<nat>)
      requires MaybeShaper(s) && MaybeLook(look) && dim >= 2
      modifies this
      ensures ValidLut(Value()) && lutEdgeSize == dim
      ensures Filled(data[..], dim, Cube(dim), s, look, transform)
      ensures InOrder(writes, Cube(dim))
      ensures fresh(data)
    {
      hide Wanted, LatticeColour, Index, Cube, Filled, Edge, InOrder, MaybeShaper, MaybeLook;
      var edge := FillEdges(dim, s);
      data := new Vec3[Cube(dim)](_ => Vec3(0.0, 0.0, 0.0));
      lutEdgeSize := dim;
      writes := [];
      Nothing(data[..], dim, s, look, transform);
      for blue := 0 to dim
        modifies data
        invariant InOrder(writes, Index(0, 0, blue, dim))
        invariant Filled(data[..], dim, Index(0, 0, blue, dim), s, look, transform)
      {
        for green := 0 to dim
          modifies data
          invariant InOrder(writes, Index(0, green, blue, dim))
          invariant Filled(data[..], dim, Index(0, green, blue, dim), s, look, transform)
        {
          for red := 0 to dim
            modifies data
            invariant InOrder(writes, Index(red, green, blue, dim))
            invariant Filled(data[..], dim, Index(red, green, blue, dim), s, look, transform)
          {
            writes := WriteEntry(edge, red, green, blue, s, look, transform, writes);
          }
          Carries(dim, green, blue);
        }
        Carries(dim, 0, blue);
      }
      Carries(dim, 0, dim);
    }
  }

  /** Entry n of each channel is the shaping function at n / (size - 1). */
  ghost predicate Sampled(red: seq<real>, green: seq<real>, blue: seq<real>, count: nat, size: nat, shape: Vec3 -> Vec3)
    requires size >= 2
  {
    && |red| == count && |green| == count && |blue| == count
    && forall n: nat :: n < count ==>
         var x := Spaced(n, 1.0 / (size as real - 1.0));
         Vec3(red[n], green[n], blue[n]) == shape(Vec3(x, x, x))
  }

  /** A shaper that was sampled and finalised. */
  ghost predicate ShaperCalculated(s: Shaper, size: nat, shape: Vec3 -> Vec3)
    requires size >= 2
  {
    && SearchableShaper(s) && Sampled(s.r.data, s.g.data, s.b.data, size, size, shape)
    && s.r.start >= 0 && s.g.start >= 0 && s.b.start >= 0
    && IsStart(s.r.data, s.r.start) && IsStart(s.g.data, s.g.start) && IsStart(s.b.data, s.b.start)
  }

  /** lut1d_t: the shaper as calcColorTransform samples and finalises it. */
  class Lut1d {
    var r: Curve
    var g: Curve
    var b: Curve

    constructor ()
      ensures Value() == Shaper(Curve([], -1), Curve([], -1), Curve([], -1))
    {
      r, g, b := Curve([], -1), Curve([], -1), Curve([], -1);
    }

    function Value(): Shaper
      reads this
    {
      Shaper(r, g, b)
    }

    /** finalize: the start of each channel becomes the end of its flat start. */
    method Finalize()
      modifies this
      ensures r.data == old(r.data) && g.data == old(g.data) && b.data == old(b.data)
      ensures r.start >= 0 && g.start >= 0 && b.start >= 0
      ensures IsStart(r.data, r.start) && IsStart(g.data, g.start) && IsStart(b.data, b.start)
    {
      var startR := FindNonFlatStartIndex(r.data);
      r := r.(start := startR);
      var startG := FindNonFlatStartIndex(g.data);
      g := g.(start := startG);
      var startB := FindNonFlatStartIndex(b.data);
      b := b.(start := startB);
    }

    /** The loop over nVal: the shaping function sampled at equal distances, then finalised. */
    method Sample(size: nat, shape: Vec3 -> Vec3)
      requires size >= 2
      modifies this
      ensures ShaperCalculated(Value(), size, shape)
    {
      var scale := 1.0 / (size as real - 1.0);
      var red, green, blue := [], [], [];
      for n := 0 to size
        invariant Sampled(red, green, blue, n, size, shape)
      {
        var x := Spaced(n, scale);
        var shaped := shape(Vec3(x, x, x));
        red, green, blue := red + [shaped.r], green + [shaped.g], blue + [shaped.b];
      }
      r, g, b := Curve(red, -1), Curve(green, -1), Curve(blue, -1);
      Finalize();
    }
  }

  // ----- The cache agrees with the transform -----

  lemma EdgeIsShapedBack(c: Curve, x: real)
    requires FinalCurve(c) && SpansUnit(c) && 0.0 <= x <= 1.0
    ensures Forward(c.data, Inverse(c.data, c.start, x)) == x
  {
    hide Forward, Inverse, Table;
    ForwardOfInverse(c.data, c.start, x);
  }

  lemma SpacedOnUnit(dim: nat, n: nat)
    requires n < dim && dim >= 2
    ensures 0.0 <= Spaced(n, 1.0 / (dim as real - 1.0)) <= 1.0
    ensures Spaced(n, 1.0 / (dim as real - 1.0)) * (dim - 1) as real == n as real
  {
    var d := dim as real - 1.0;
    assert (dim - 1) as real == d;
    Unscale(n as real, d);
    Unscale(1.0, d);
    ScaleMonotone(0.0, n as real, d);
    ScaleMonotone(n as real, d, d);
  }

  ghost function LatticePoint(dim: nat, r: nat, g: nat, b: nat): Vec3
    requires dim >= 2
  {
    var scale := 1.0 / (dim as real - 1.0);
    Vec3(Spaced(r, scale), Spaced(g, scale), Spaced(b, scale))
  }

  /** Shaping the colour of a lattice point leads back to the lattice point. */
  lemma LatticeColourIsShapedBack(s: Option<Shaper>, dim: nat, r: nat, g: nat, b: nat)
    requires MaybeShaper(s) && (s.Some? ==> UsableShaper(s.value)) && dim >= 2 && r < dim && g < dim && b < dim
    ensures Shape(s, LatticeColour(s, dim, r, g, b)) == LatticePoint(dim, r, g, b)
  {
    hide Forward, Inverse, Spaced, Table, SpansUnit;
    SpacedOnUnit(dim, r);
    SpacedOnUnit(dim, g);
    SpacedOnUnit(dim, b);
    if s.Some? {
      var scale := 1.0 / (dim as real - 1.0);
      EdgeIsShapedBack(s.value.r, Spaced(r, scale));
      EdgeIsShapedBack(s.value.g, Spaced(g, scale));
      EdgeIsShapedBack(s.value.b, Spaced(b, scale));
    }
  }

  lemma WholePlace(t: Lut, x: real, n: nat)
    requires t.dim >= 1 && n < t.dim && x * (t.dim - 1) as real == n as real
    ensures Place(t, x) == n as real && (n as real).Floor == n
    ensures Ceiling(n as real) == n && Fractional(n as real) == 0.0
  {}

  lemma NoFractions(c: Cell)
    ensures Tetrahedral(c, 0.0, 0.0, 0.0) == c.c000
  {}

  lemma LookupAtPoint(t: Lut, v: Vec3, r: nat, g: nat, b: nat, ch: Channel)
    requires ValidLut(t) && r < t.dim && g < t.dim && b < t.dim
    requires v.r * (t.dim - 1) as real == r as real
    requires v.g * (t.dim - 1) as real == g as real
    requires v.b * (t.dim - 1) as real == b as real
    ensures TetrahedralLookup(t, v, ch) == Get(At(t, r, g, b), ch)
    ensures TrilinearLookup(t, v, ch) == Get(At(t, r, g, b), ch)
  {
    WholePlace(t, v.r, r);
    WholePlace(t, v.g, g);
    WholePlace(t, v.b, b);
    LookupsAgreeOnEdges(t, v, ch);
    hide At, Place, Ceiling, Fractional, Tetrahedral, Trilinear, Get;
    NoFractions(CellAt(t, r as real, g as real, b as real, ch));
  }

  lemma LookupAtLatticePoint(t: Lut, r: nat, g: nat, b: nat, ch: Channel)
    requires ValidLut(t) && t.dim >= 2 && r < t.dim && g < t.dim && b < t.dim
    ensures TetrahedralLookup(t, LatticePoint(t.dim, r, g, b), ch) == Get(At(t, r, g, b), ch)
    ensures TrilinearLookup(t, LatticePoint(t.dim, r, g, b), ch) == Get(At(t, r, g, b), ch)
  {
    hide TetrahedralLookup, TrilinearLookup, Spaced, At, ValidLut;
    SpacedOnUnit(t.dim, r);
    SpacedOnUnit(t.dim, g);
    SpacedOnUnit(t.dim, b);
    LookupAtPoint(t, LatticePoint(t.dim, r, g, b), r, g, b, ch);
  }

  lemma EntryIsWanted(
    t: Lut, s: Option<Shaper>, look: Option<Lut>, transform: Vec3 -> Vec3, r: nat, g: nat, b: nat)
    requires MaybeShaper(s) && MaybeLook(look) && ValidLut(t) && t.dim >= 2 && r < t.dim && g < t.dim && b < t.dim
    requires Filled(t.data, t.dim, Cube(t.dim), s, look, transform)
    ensures At(t, r, g, b) == Wanted(look, transform, LatticeColour(s, t.dim, r, g, b))
  {
    IndexInBounds(r, g, b, t.dim);
  }

  /**
    The pair of shaper and table is exact at every colour of the lattice: shaping it and looking it up, by either
    interpolation, gives what the transform itself gives.
  */
  lemma TableAgreesOnLattice(
    t: Lut, s: Option<Shaper>, look: Option<Lut>, transform: Vec3 -> Vec3, r: nat, g: nat, b: nat, ch: Channel)
    requires MaybeShaper(s) && (s.Some? ==> UsableShaper(s.value)) && MaybeLook(look)
    requires ValidLut(t) && t.dim >= 2 && Filled(t.data, t.dim, Cube(t.dim), s, look, transform)
    requires r < t.dim && g < t.dim && b < t.dim
    ensures var colour := LatticeColour(s, t.dim, r, g, b);
            && TetrahedralLookup(t, Shape(s, colour), ch) == Get(Wanted(look, transform, colour), ch)
            && TrilinearLookup(t, Shape(s, colour), ch) == Get(Wanted(look, transform, colour), ch)
  {
    LatticeColourIsShapedBack(s, t.dim, r, g, b);
    EntryIsWanted(t, s, look, transform, r, g, b);
    hide TetrahedralLookup, TrilinearLookup, Wanted, Shape, LatticeColour, UsableShaper, Filled, At, LatticePoint;
    LookupAtLatticePoint(t, r, g, b, ch);
  }

  // ----- What the look does -----

  /** The colour falls on a lattice point of the look. */
  ghost predicate OnPoint(look: Lut, v: Vec3, i: nat, j: nat, k: nat) {
    && i < look.dim && j < look.dim && k < look.dim
    && v.r * (look.dim - 1) as real == i as real
    && v.g * (look.dim - 1) as real == j as real
    && v.b * (look.dim - 1) as real == k as real
  }

  lemma LookAtPoint(look: Lut, v: Vec3, i: nat, j: nat, k: nat)
    requires ValidLut(look) && OnPoint(look, v, i, j, k)
    ensures ApplyTetrahedral(look, v) == At(look, i, j, k)
  {
    hide ValidLut, TetrahedralLookup, TrilinearLookup, At;
    LookupAtPoint(look, v, i, j, k, Red);
    LookupAtPoint(look, v, i, j, k, Green);
    LookupAtPoint(look, v, i, j, k, Blue);
  }

  /** Where the colour of a lattice point falls on a point of the look, the transform gets the look's entry. */
  lemma LookIsAppliedFirst(
    t: Lut, s: Option<Shaper>, look: Lut, transform: Vec3 -> Vec3, r: nat, g: nat, b: nat, i: nat, j: nat, k: nat,
    ch: Channel)
    requires MaybeShaper(s) && (s.Some? ==> UsableShaper(s.value)) && ValidLut(look)
    requires ValidLut(t) && t.dim >= 2 && Filled(t.data, t.dim, Cube(t.dim), s, Some(look), transform)
    requires r < t.dim && g < t.dim && b < t.dim && OnPoint(look, LatticeColour(s, t.dim, r, g, b), i, j, k)
    ensures At(t, r, g, b) == transform(At(look, i, j, k))
    ensures var v := Shape(s, LatticeColour(s, t.dim, r, g, b));
            && TetrahedralLookup(t, v, ch) == Get(transform(At(look, i, j, k)), ch)
            && TrilinearLookup(t, v, ch) == Get(transform(At(look, i, j, k)), ch)
  {
    hide TetrahedralLookup, TrilinearLookup, Shape, LatticeColour, UsableShaper, Filled, At, ApplyTetrahedral, OnPoint,
         Index;
    LookAtPoint(look, LatticeColour(s, t.dim, r, g, b), i, j, k);
    NotEmpty(look);
    hide ValidLut;
    EntryIsWanted(t, s, Some(look), transform, r, g, b);
    TableAgreesOnLattice(t, s, Some(look), transform, r, g, b, ch);
  }

  lemma NotEmpty(look: Lut)
    requires ValidLut(look)
    ensures look.data != []
  {
    IndexInBounds(0, 0, 0, look.dim);
  }

  /** Without a look, or with an empty one, the transform gets the colour itself. */
  lemma NoLookIsTheColour(
    t: Lut, s: Option<Shaper>, look: Option<Lut>, transform: Vec3 -> Vec3, r: nat, g: nat, b: nat, ch: Channel)
    requires MaybeShaper(s) && (s.Some? ==> UsableShaper(s.value)) && (look.Some? ==> look.value.data == [])
    requires ValidLut(t) && t.dim >= 2 && Filled(t.data, t.dim, Cube(t.dim), s, look, transform)
    requires r < t.dim && g < t.dim && b < t.dim
    ensures var colour := LatticeColour(s, t.dim, r, g, b);
            && At(t, r, g, b) == transform(colour)
            && TetrahedralLookup(t, Shape(s, colour), ch) == Get(transform(colour), ch)
            && TrilinearLookup(t, Shape(s, colour), ch) == Get(transform(colour), ch)
  {
    hide TetrahedralLookup, TrilinearLookup, Shape, LatticeColour, UsableShaper, Filled, At, ValidLut, Index;
    EntryIsWanted(t, s, look, transform, r, g, b);
    TableAgreesOnLattice(t, s, look, transform, r, g, b, ch);
  }

  /** The affine function of a colour that a look holds in one channel, in terms of the clamped place. */
  datatype Affine = Affine(a: real, p: real, q: real, s: real)

  ghost function PlaneAtColour(look: Lut, f: Affine, v: Vec3): real
    requires look.dim >= 1
  {
    Plane(f.a, f.p, f.q, f.s, Place(look, v.r), Place(look, v.g), Place(look, v.b))
  }

  /** With an affine look the transform gets the look's own function of the colour, everywhere. */
  lemma AffineLookIsItsFunction(
    t: Lut, s: Option<Shaper>, look: Lut, red: Affine, green: Affine, blue: Affine, transform: Vec3 -> Vec3, r: nat,
    g: nat, b: nat, ch: Channel)
    requires MaybeShaper(s) && (s.Some? ==> UsableShaper(s.value)) && ValidLut(look)
    requires IsAffine(look, Red, red.a, red.p, red.q, red.s)
    requires IsAffine(look, Green, green.a, green.p, green.q, green.s)
    requires IsAffine(look, Blue, blue.a, blue.p, blue.q, blue.s)
    requires ValidLut(t) && t.dim >= 2 && Filled(t.data, t.dim, Cube(t.dim), s, Some(look), transform)
    requires r < t.dim && g < t.dim && b < t.dim
    ensures var colour := LatticeColour(s, t.dim, r, g, b);
            var looked := Vec3(PlaneAtColour(look, red, colour), PlaneAtColour(look, green, colour),
                               PlaneAtColour(look, blue, colour));
            && At(t, r, g, b) == transform(looked)
            && TetrahedralLookup(t, Shape(s, colour), ch) == Get(transform(looked), ch)
            && TrilinearLookup(t, Shape(s, colour), ch) == Get(transform(looked), ch)
  {
    hide TetrahedralLookup, TrilinearLookup, Shape, LatticeColour, UsableShaper, Filled, At, Index, IsAffine, Plane,
         Place;
    var colour := LatticeColour(s, t.dim, r, g, b);
    NotEmpty(look);
    hide ValidLut;
    LookupOfAffineTable(look, colour, Red, red.a, red.p, red.q, red.s);
    LookupOfAffineTable(look, colour, Green, green.a, green.p, green.q, green.s);
    LookupOfAffineTable(look, colour, Blue, blue.a, blue.p, blue.q, blue.s);
    EntryIsWanted(t, s, Some(look), transform, r, g, b);
    TableAgreesOnLattice(t, s, Some(look), transform, r, g, b, ch);
  }

  /** calcColorTransform: the shaper, then the table behind it. */
  method CalcColorTransform(
    shaper: Lut1d?, size1d: nat, lut: Lut3d?, dim: nat, shape: Vec3 -> Vec3, look: Option<Lut>, transform: Vec3 -> Vec3)
    requires size1d >= 2 && dim >= 2 && MaybeLook(look)
    modifies shaper, lut
    ensures shaper != null ==> ShaperCalculated(shaper.Value(), size1d, shape)
    ensures lut != null ==>
              && ValidLut(lut.Value()) && lut.lutEdgeSize == dim
              && Filled(lut.data[..], dim, Cube(dim), if shaper == null then None else Some(shaper.Value()), look,
                        transform)
  {
    if shaper != null {
      shaper.Sample(size1d, shape);
    }
    if lut != null {
      var s := if shaper == null then None else Some(shaper.Value());
      var _ := lut.Fill(dim, s, look, transform);
    }
  }
}
