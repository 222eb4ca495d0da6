/**
  The three-dimensional colour table (src/color_helpers.cpp): tetrahedral and trilinear interpolation inside one
  cell and over a whole table. Over the reals.
*/
module Lut3D {
  import opened Lut1D

  datatype Vec3 = Vec3(r: real, g: real, b: real)

  /** One channel at the corners of a cell; the digits are the red, green and blue directions. */
  datatype Cell = Cell(
    c000: real, c100: real, c010: real, c001: real, c110: real, c101: real, c011: real, c111: real)

  // ----- Interpolation inside one cell -----

  /** The six branches of ApplyLut3D_Tetrahedral, with the comparisons as they are written there. */
  function Tetrahedral(c: Cell, fx: real, fy: real, fz: real): real {
    if fx > fy then
      if fy > fz then
        (1.0 - fx) * c.c000 + (fx - fy) * c.c100 + (fy - fz) * c.c110 + fz * c.c111
      else if fx > fz then
        (1.0 - fx) * c.c000 + (fx - fz) * c.c100 + (fz - fy) * c.c101 + fy * c.c111
      else
        (1.0 - fz) * c.c000 + (fz - fx) * c.c001 + (fx - fy) * c.c101 + fy * c.c111
    else
      if fz > fy then
        (1.0 - fz) * c.c000 + (fz - fy) * c.c001 + (fy - fx) * c.c011 + fx * c.c111
      else if fz > fx then
        (1.0 - fy) * c.c000 + (fy - fz) * c.c010 + (fz - fx) * c.c011 + fx * c.c111
      else
        (1.0 - fy) * c.c000 + (fy - fx) * c.c010 + (fx - fz) * c.c110 + fz * c.c111
  }

  function Bilinear(a: real, b: real, c: real, d: real, y: real, z: real): real {
    Lerp(Lerp(a, b, z), Lerp(c, d, z), y)
  }

  function Trilinear(c: Cell, fx: real, fy: real, fz: real): real {
    Lerp(Bilinear(c.c000, c.c001, c.c010, c.c011, fy, fz), Bilinear(c.c100, c.c101, c.c110, c.c111, fy, fz), fx)
  }

  ghost predicate InCell(fx: real, fy: real, fz: real) {
    0.0 <= fx < 1.0 && 0.0 <= fy < 1.0 && 0.0 <= fz < 1.0
  }

  ghost predicate CornersWithin(c: Cell, lo: real, hi: real) {
    && lo <= c.c000 <= hi && lo <= c.c100 <= hi && lo <= c.c010 <= hi && lo <= c.c001 <= hi
    && lo <= c.c110 <= hi && lo <= c.c101 <= hi && lo <= c.c011 <= hi && lo <= c.c111 <= hi
  }

  /** Walking from corner 000 to 111 along the axes in falling order of their fractions f1 >= f2 >= f3. */
  ghost function Walk(c0: real, c1: real, c2: real, c3: real, f1: real, f2: real, f3: real): real {
    (1.0 - f1) * c0 + (f1 - f2) * c1 + (f2 - f3) * c2 + f3 * c3
  }

  /** Where two neighbouring fractions tie, the corner between them has no weight. */
  lemma WalkTies(c0: real, c1: real, c2: real, c3: real, d1: real, d2: real, f: real, g: real)
    ensures Walk(c0, c1, c2, c3, f, f, g) == Walk(c0, d1, c2, c3, f, f, g)
    ensures Walk(c0, c1, c2, c3, f, g, g) == Walk(c0, c1, d2, c3, f, g, g)
  {}

  /** The six branches one by one, each with its own order of the fractions. */
  lemma BranchIsWalk(c: Cell, fx: real, fy: real, fz: real)
    ensures Tetrahedral(c, fx, fy, fz) ==
            if fx > fy > fz then Walk(c.c000, c.c100, c.c110, c.c111, fx, fy, fz)
            else if fx > fz >= fy then Walk(c.c000, c.c100, c.c101, c.c111, fx, fz, fy)
            else if fz >= fx > fy then Walk(c.c000, c.c001, c.c101, c.c111, fz, fx, fy)
            else if fz > fy >= fx then Walk(c.c000, c.c001, c.c011, c.c111, fz, fy, fx)
            else if fy >= fz > fx then Walk(c.c000, c.c010, c.c011, c.c111, fy, fz, fx)
            else Walk(c.c000, c.c010, c.c110, c.c111, fy, fx, fz)
  {}

  /**
    The reference: whichever order of the fractions holds, also when some of them tie, the branch taken computes
    the walk along that order. So branches agree wherever they meet, and none of them uses a wrong corner.
  */
  lemma TetrahedralIsTheWalk(c: Cell, fx: real, fy: real, fz: real)
    ensures fx >= fy >= fz ==> Tetrahedral(c, fx, fy, fz) == Walk(c.c000, c.c100, c.c110, c.c111, fx, fy, fz)
    ensures fx >= fz >= fy ==> Tetrahedral(c, fx, fy, fz) == Walk(c.c000, c.c100, c.c101, c.c111, fx, fz, fy)
    ensures fz >= fx >= fy ==> Tetrahedral(c, fx, fy, fz) == Walk(c.c000, c.c001, c.c101, c.c111, fz, fx, fy)
    ensures fz >= fy >= fx ==> Tetrahedral(c, fx, fy, fz) == Walk(c.c000, c.c001, c.c011, c.c111, fz, fy, fx)
    ensures fy >= fz >= fx ==> Tetrahedral(c, fx, fy, fz) == Walk(c.c000, c.c010, c.c011, c.c111, fy, fz, fx)
    ensures fy >= fx >= fz ==> Tetrahedral(c, fx, fy, fz) == Walk(c.c000, c.c010, c.c110, c.c111, fy, fx, fz)
  {
    BranchIsWalk(c, fx, fy, fz);
    hide Walk, Tetrahedral;
    if fx == fy {
      WalkTies(c.c000, c.c100, c.c110, c.c111, c.c010, c.c110, fx, fz);
      WalkTies(c.c000, c.c001, c.c101, c.c111, c.c001, c.c011, fz, fx);
    }
    if fy == fz {
      WalkTies(c.c000, c.c010, c.c011, c.c111, c.c001, c.c011, fy, fx);
      WalkTies(c.c000, c.c100, c.c110, c.c111, c.c100, c.c101, fx, fy);
    }
    if fx == fz {
      WalkTies(c.c000, c.c100, c.c101, c.c111, c.c001, c.c101, fx, fy);
      WalkTies(c.c000, c.c010, c.c110, c.c111, c.c010, c.c011, fy, fx);
    }
  }

  lemma ScaledBetween(w: real, x: real, lo: real, hi: real)
    requires 0.0 <= w && lo <= x <= hi
    ensures w * lo <= w * x <= w * hi
  {
    NonNegative(w, x - lo);
    NonNegative(w, hi - x);
    assert w * x - w * lo == w * (x - lo);
    assert w * hi - w * x == w * (hi - x);
  }

  lemma NonNegative(x: real, y: real)
    requires x >= 0.0 && y >= 0.0
    ensures x * y >= 0.0
  {}

  lemma WeightsSumToOne(w0: real, w1: real, w2: real, w3: real, c: real)
    requires w0 + w1 + w2 + w3 == 1.0
    ensures w0 * c + w1 * c + w2 * c + w3 * c == c
  {
    assert w0 * c + w1 * c + w2 * c + w3 * c == (w0 + w1 + w2 + w3) * c;
  }

  lemma SumsInOrder(a: real, b: real, c: real, d: real, a': real, b': real, c': real, d': real)
    requires a <= a' && b <= b' && c <= c' && d <= d'
    ensures a + b + c + d <= a' + b' + c' + d'
  {}

  lemma WeightedStaysWithin(
    c0: real, c1: real, c2: real, c3: real, w0: real, w1: real, w2: real, w3: real, lo: real, hi: real)
    requires w0 >= 0.0 && w1 >= 0.0 && w2 >= 0.0 && w3 >= 0.0 && w0 + w1 + w2 + w3 == 1.0
    requires lo <= c0 <= hi && lo <= c1 <= hi && lo <= c2 <= hi && lo <= c3 <= hi
    ensures lo <= w0 * c0 + w1 * c1 + w2 * c2 + w3 * c3 <= hi
  {
    ScaledBetween(w0, c0, lo, hi);
    ScaledBetween(w1, c1, lo, hi);
    ScaledBetween(w2, c2, lo, hi);
    ScaledBetween(w3, c3, lo, hi);
    WeightsSumToOne(w0, w1, w2, w3, lo);
    WeightsSumToOne(w0, w1, w2, w3, hi);
    SumsInOrder(w0 * lo, w1 * lo, w2 * lo, w3 * lo, w0 * c0, w1 * c1, w2 * c2, w3 * c3);
    SumsInOrder(w0 * c0, w1 * c1, w2 * c2, w3 * c3, w0 * hi, w1 * hi, w2 * hi, w3 * hi);
  }

  lemma WalkStaysWithin(c0: real, c1: real, c2: real, c3: real, f1: real, f2: real, f3: real, lo: real, hi: real)
    requires 1.0 >= f1 >= f2 >= f3 >= 0.0
    requires lo <= c0 <= hi && lo <= c1 <= hi && lo <= c2 <= hi && lo <= c3 <= hi
    ensures lo <= Walk(c0, c1, c2, c3, f1, f2, f3) <= hi
  {
    WeightedStaysWithin(c0, c1, c2, c3, 1.0 - f1, f1 - f2, f2 - f3, f3, lo, hi);
  }

  /** The weights are non-negative and sum to 1: the result stays within the values at the corners. */
  lemma TetrahedralStaysWithin(c: Cell, fx: real, fy: real, fz: real, lo: real, hi: real)
    requires InCell(fx, fy, fz) && CornersWithin(c, lo, hi)
    ensures lo <= Tetrahedral(c, fx, fy, fz) <= hi
  {
    TetrahedralIsTheWalk(c, fx, fy, fz);
    hide Tetrahedral, Walk;
    if fx >= fy >= fz { WalkStaysWithin(c.c000, c.c100, c.c110, c.c111, fx, fy, fz, lo, hi); }
    else if fx >= fz >= fy { WalkStaysWithin(c.c000, c.c100, c.c101, c.c111, fx, fz, fy, lo, hi); }
    else if fz >= fx >= fy { WalkStaysWithin(c.c000, c.c001, c.c101, c.c111, fz, fx, fy, lo, hi); }
    else if fz >= fy >= fx { WalkStaysWithin(c.c000, c.c001, c.c011, c.c111, fz, fy, fx, lo, hi); }
    else if fy >= fz >= fx { WalkStaysWithin(c.c000, c.c010, c.c011, c.c111, fy, fz, fx, lo, hi); }
    else { WalkStaysWithin(c.c000, c.c010, c.c110, c.c111, fy, fx, fz, lo, hi); }
  }

  // ----- Where the two interpolations agree -----

  /** The values of an affine function a + p x + q y + s z at the corners. */
  ghost function AffineCell(a: real, p: real, q: real, s: real): Cell {
    Cell(a, a + p, a + q, a + s, a + p + q, a + p + s, a + q + s, a + p + q + s)
  }

  lemma AffineLerp(base: real, step: real, z: real)
    ensures Lerp(base, base + step, z) == base + step * z
  {
  }

  lemma TetrahedralOfAffine(a: real, p: real, q: real, s: real, fx: real, fy: real, fz: real)
    ensures Tetrahedral(AffineCell(a, p, q, s), fx, fy, fz) == a + p * fx + q * fy + s * fz
  {
  }

  lemma TrilinearOfAffine(a: real, p: real, q: real, s: real, fx: real, fy: real, fz: real)
    ensures Trilinear(AffineCell(a, p, q, s), fx, fy, fz) == a + p * fx + q * fy + s * fz
  {
    hide Lerp;
    AffineLerp(a, s, fz);
    AffineLerp(a + q, s, fz);
    AffineLerp(a + p, s, fz);
    AffineLerp(a + p + q, s, fz);
    AffineLerp(a + s * fz, q, fy);
    AffineLerp(a + p + s * fz, q, fy);
    AffineLerp(a + s * fz + q * fy, p, fx);
  }

  /** A point on one of the three cell edges at corner 000: at most one fraction is not zero. */
  ghost predicate OnEdge(fx: real, fy: real, fz: real) {
    (fx == 0.0 && fy == 0.0) || (fx == 0.0 && fz == 0.0) || (fy == 0.0 && fz == 0.0)
  }

  lemma EdgeAgrees(c: Cell, fx: real, fy: real, fz: real)
    requires InCell(fx, fy, fz) && OnEdge(fx, fy, fz)
    ensures Tetrahedral(c, fx, fy, fz) == Trilinear(c, fx, fy, fz)
  {
  }

  ghost predicate AgreeOnAllCells(fx: real, fy: real, fz: real) {
    forall c: Cell :: Tetrahedral(c, fx, fy, fz) == Trilinear(c, fx, fy, fz)
  }

  /** The two interpolations give the same result for every table exactly on the edges of the cells. */
  lemma AgreeIffOnEdge(fx: real, fy: real, fz: real)
    requires InCell(fx, fy, fz)
    ensures AgreeOnAllCells(fx, fy, fz) <==> OnEdge(fx, fy, fz)
  {
    if OnEdge(fx, fy, fz) {
      forall c: Cell ensures Tetrahedral(c, fx, fy, fz) == Trilinear(c, fx, fy, fz) {
        EdgeAgrees(c, fx, fy, fz);
      }
    } else {
      var c := OffEdgeDisagrees(fx, fy, fz);
      assert Tetrahedral(c, fx, fy, fz) != Trilinear(c, fx, fy, fz);
    }
  }

  const BLACK := Cell(0.0, 0.0, 0.0, 0.0, 0.0, 0.0, 0.0, 0.0)

  ghost function Product(x: real, y: real, z: real): real {
    x * (y * z)
  }

  lemma PositiveProduct(x: real, y: real, z: real)
    requires x > 0.0 && y > 0.0 && z > 0.0
    ensures Product(x, y, z) > 0.0
  {
    Positive(y, z);
    Positive(x, y * z);
  }

  /** The weight trilinear interpolation gives to a corner next to 000. */
  lemma CornerWeights(fx: real, fy: real, fz: real)
    ensures Trilinear(BLACK.(c100 := 1.0), fx, fy, fz) == Product(fx, 1.0 - fy, 1.0 - fz)
    ensures Trilinear(BLACK.(c010 := 1.0), fx, fy, fz) == Product(fy, 1.0 - fx, 1.0 - fz)
    ensures Trilinear(BLACK.(c001 := 1.0), fx, fy, fz) == Product(fz, 1.0 - fx, 1.0 - fy)
  {
  }

  /** The walk passes by every corner whose direction does not lead. */
  lemma PassedCorners(fx: real, fy: real, fz: real)
    ensures fx <= fy || fx <= fz ==> Tetrahedral(BLACK.(c100 := 1.0), fx, fy, fz) == 0.0
    ensures fy <= fx || fy <= fz ==> Tetrahedral(BLACK.(c010 := 1.0), fx, fy, fz) == 0.0
    ensures fz <= fx || fz <= fy ==> Tetrahedral(BLACK.(c001 := 1.0), fx, fy, fz) == 0.0
  {}

  /** Off the edges there is a corner that trilinear interpolation mixes in and the walk passes by. */
  lemma OffEdgeDisagrees(fx: real, fy: real, fz: real) returns (c: Cell)
    requires InCell(fx, fy, fz) && !OnEdge(fx, fy, fz)
    ensures Tetrahedral(c, fx, fy, fz) != Trilinear(c, fx, fy, fz)
  {
    CornerWeights(fx, fy, fz);
    PassedCorners(fx, fy, fz);
    hide Trilinear, Tetrahedral, Product;
    if 0.0 < fx && (fx < fy || (fy == 0.0 && fx < fz)) {
      c := BLACK.(c100 := 1.0);
      PositiveProduct(fx, 1.0 - fy, 1.0 - fz);
    } else if 0.0 < fy && (0.0 < fx || fy < fz) {
      c := BLACK.(c010 := 1.0);
      PositiveProduct(fy, 1.0 - fx, 1.0 - fz);
    } else {
      c := BLACK.(c001 := 1.0);
      PositiveProduct(fz, 1.0 - fx, 1.0 - fy);
    }
  }

  // ----- A whole table -----

  /** GetLut3DIndexRedFastRGB: red varies fastest. */
  function Index(r: nat, g: nat, b: nat, dim: nat): nat {
    r + dim * (g + dim * b)
  }

  function Cube(dim: nat): nat {
    dim * (dim * dim)
  }

  lemma RowsInOrder(dim: nat, r: nat, m: nat, r': nat, m': nat)
    requires r < dim && m < m'
    ensures r + dim * m < r' + dim * m'
  {
    var rest := m' - m - 1;
    assert dim * m' == dim * m + dim + dim * rest;
  }

  lemma IndexInBounds(r: nat, g: nat, b: nat, dim: nat)
    requires r < dim && g < dim && b < dim
    ensures Index(r, g, b, dim) < Cube(dim)
  {
    RowsInOrder(dim, g, b, 0, dim);
    RowsInOrder(dim, r, g + dim * b, 0, dim * dim);
  }

  /** Different lattice points have different indices. */
  lemma IndexIsInjective(r: nat, g: nat, b: nat, r': nat, g': nat, b': nat, dim: nat)
    requires r < dim && g < dim && b < dim && r' < dim && g' < dim && b' < dim
    requires Index(r, g, b, dim) == Index(r', g', b', dim)
    ensures r == r' && g == g' && b == b'
  {
    var m, m' := g + dim * b, g' + dim * b';
    if m < m' { RowsInOrder(dim, r, m, r', m'); } else if m' < m { RowsInOrder(dim, r', m', r, m); }
    if b < b' { RowsInOrder(dim, g, b, g', b'); } else if b' < b { RowsInOrder(dim, g', b', g, b); }
  }

  datatype Channel = Red | Green | Blue

  function Get(v: Vec3, ch: Channel): real {
    match ch
    case Red => v.r
    case Green => v.g
    case Blue => v.b
  }

  /** lut3d_t: the edge size and dim * dim * dim colours. */
  datatype Lut = Lut(dim: nat, data: seq<Vec3>)

  ghost predicate ValidLut(t: Lut) {
    t.dim >= 1 && |t.data| == Cube(t.dim)
  }

  function At(t: Lut, r: nat, g: nat, b: nat): Vec3
    requires ValidLut(t) && r < t.dim && g < t.dim && b < t.dim
  {
    IndexInBounds(r, g, b, t.dim);
    t.data[Index(r, g, b, t.dim)]
  }

  /** Where on the lattice an input coordinate falls: [0, 1] spans it, anything else is clamped. */
  function Place(t: Lut, x: real): (p: real)
    requires t.dim >= 1
    ensures 0.0 <= p <= (t.dim - 1) as real
  {
    Clamp(x * (t.dim - 1) as real, 0.0, (t.dim - 1) as real)
  }

  predicate OnLattice(t: Lut, p: real)
    requires t.dim >= 1
  {
    0.0 <= p <= (t.dim - 1) as real
  }

  /** The corners of the cell around a place; the high corner of a whole coordinate is the low one again. */
  function CellAt(t: Lut, x: real, y: real, z: real, ch: Channel): Cell
    requires ValidLut(t) && OnLattice(t, x) && OnLattice(t, y) && OnLattice(t, z)
  {
    var lx, ly, lz := x.Floor, y.Floor, z.Floor;
    var hx, hy, hz := Ceiling(x), Ceiling(y), Ceiling(z);
    Cell(
      Get(At(t, lx, ly, lz), ch), Get(At(t, hx, ly, lz), ch), Get(At(t, lx, hy, lz), ch), Get(At(t, lx, ly, hz), ch),
      Get(At(t, hx, hy, lz), ch), Get(At(t, hx, ly, hz), ch), Get(At(t, lx, hy, hz), ch), Get(At(t, hx, hy, hz), ch))
  }

  function Fractional(x: real): (f: real)
    ensures 0.0 <= f < 1.0
  {
    x - x.Floor as real
  }

  /** One channel of ApplyLut3D_Tetrahedral. */
  function TetrahedralLookup(t: Lut, v: Vec3, ch: Channel): real
    requires ValidLut(t)
  {
    var x, y, z := Place(t, v.r), Place(t, v.g), Place(t, v.b);
    Tetrahedral(CellAt(t, x, y, z, ch), Fractional(x), Fractional(y), Fractional(z))
  }

  /** One channel of ApplyLut3D_Trilinear. */
  function TrilinearLookup(t: Lut, v: Vec3, ch: Channel): real
    requires ValidLut(t)
  {
    var x, y, z := Place(t, v.r), Place(t, v.g), Place(t, v.b);
    Trilinear(CellAt(t, x, y, z, ch), Fractional(x), Fractional(y), Fractional(z))
  }

  function ApplyTetrahedral(t: Lut, v: Vec3): Vec3
    requires ValidLut(t)
  {
    Vec3(TetrahedralLookup(t, v, Red), TetrahedralLookup(t, v, Green), TetrahedralLookup(t, v, Blue))
  }

  ghost predicate ValuesWithin(t: Lut, ch: Channel, lo: real, hi: real) {
    forall i :: 0 <= i < |t.data| ==> lo <= Get(t.data[i], ch) <= hi
  }

  /** No lookup leaves the range of the table, whatever the input. */
  lemma LookupStaysWithinTable(t: Lut, v: Vec3, ch: Channel, lo: real, hi: real)
    requires ValidLut(t) && ValuesWithin(t, ch, lo, hi)
    ensures lo <= TetrahedralLookup(t, v, ch) <= hi
  {
    var x, y, z := Place(t, v.r), Place(t, v.g), Place(t, v.b);
    CellWithin(t, x, y, z, ch, lo, hi);
    hide Tetrahedral, CellAt, CornersWithin;
    TetrahedralStaysWithin(CellAt(t, x, y, z, ch), Fractional(x), Fractional(y), Fractional(z), lo, hi);
  }

  lemma CellWithin(t: Lut, x: real, y: real, z: real, ch: Channel, lo: real, hi: real)
    requires ValidLut(t) && OnLattice(t, x) && OnLattice(t, y) && OnLattice(t, z) && ValuesWithin(t, ch, lo, hi)
    ensures CornersWithin(CellAt(t, x, y, z, ch), lo, hi)
  {
    forall r: nat, g: nat, b: nat | r < t.dim && g < t.dim && b < t.dim
      ensures lo <= Get(At(t, r, g, b), ch) <= hi
    {
      IndexInBounds(r, g, b, t.dim);
    }
    hide At;
  }

  /** On the edges of the cells the two interpolations of a table never differ. */
  lemma LookupsAgreeOnEdges(t: Lut, v: Vec3, ch: Channel)
    requires ValidLut(t)
    requires OnEdge(Fractional(Place(t, v.r)), Fractional(Place(t, v.g)), Fractional(Place(t, v.b)))
    ensures TetrahedralLookup(t, v, ch) == TrilinearLookup(t, v, ch)
  {
    var x, y, z := Place(t, v.r), Place(t, v.g), Place(t, v.b);
    hide Tetrahedral, Trilinear, CellAt;
    EdgeAgrees(CellAt(t, x, y, z, ch), Fractional(x), Fractional(y), Fractional(z));
  }

  // ----- Affine tables -----

  ghost function Plane(a: real, p: real, q: real, s: real, x: real, y: real, z: real): real {
    a + p * x + q * y + s * z
  }

  ghost predicate IsAffine(t: Lut, ch: Channel, a: real, p: real, q: real, s: real)
    requires ValidLut(t)
  {
    forall r: nat, g: nat, b: nat :: r < t.dim && g < t.dim && b < t.dim ==>
      Get(At(t, r, g, b), ch) == Plane(a, p, q, s, r as real, g as real, b as real)
  }

  ghost function Step(x: real): real {
    (Ceiling(x) - x.Floor) as real
  }

  lemma PlaneOnCell(
    a: real, p: real, q: real, s: real, lx: real, ly: real, lz: real, dx: real, dy: real, dz: real)
    ensures Cell(Plane(a, p, q, s, lx, ly, lz), Plane(a, p, q, s, lx + dx, ly, lz),
                 Plane(a, p, q, s, lx, ly + dy, lz), Plane(a, p, q, s, lx, ly, lz + dz),
                 Plane(a, p, q, s, lx + dx, ly + dy, lz), Plane(a, p, q, s, lx + dx, ly, lz + dz),
                 Plane(a, p, q, s, lx, ly + dy, lz + dz), Plane(a, p, q, s, lx + dx, ly + dy, lz + dz))
            == AffineCell(Plane(a, p, q, s, lx, ly, lz), p * dx, q * dy, s * dz)
  {}

  lemma AffineTableCell(t: Lut, x: real, y: real, z: real, ch: Channel, a: real, p: real, q: real, s: real)
    requires ValidLut(t) && OnLattice(t, x) && OnLattice(t, y) && OnLattice(t, z) && IsAffine(t, ch, a, p, q, s)
    ensures CellAt(t, x, y, z, ch) ==
            AffineCell(Plane(a, p, q, s, x.Floor as real, y.Floor as real, z.Floor as real),
                       p * Step(x), q * Step(y), s * Step(z))
  {
    hide At, Get, Plane, AffineCell;
    var lx, ly, lz := x.Floor as real, y.Floor as real, z.Floor as real;
    assert Ceiling(x) as real == lx + Step(x);
    assert Ceiling(y) as real == ly + Step(y);
    assert Ceiling(z) as real == lz + Step(z);
    PlaneOnCell(a, p, q, s, lx, ly, lz, Step(x), Step(y), Step(z));
  }

  ghost function Rise(p: real, x: real): real {
    p * Fractional(x)
  }

  /** Stepping the fraction of the way over one cell, which has no width on a whole coordinate. */
  lemma StepScales(p: real, x: real)
    ensures p * Step(x) * Fractional(x) == Rise(p, x)
  {
    if x.Floor as real == x {
      assert Fractional(x) == 0.0;
    } else {
      assert Step(x) == 1.0;
    }
  }

  lemma PlaneAt(a: real, p: real, q: real, s: real, x: real, y: real, z: real)
    ensures Plane(a, p, q, s, x.Floor as real, y.Floor as real, z.Floor as real)
            + Rise(p, x) + Rise(q, y) + Rise(s, z) == Plane(a, p, q, s, x, y, z)
  {
    var lx, ly, lz := x.Floor as real, y.Floor as real, z.Floor as real;
    assert p * lx + p * (x - lx) == p * x;
    assert q * ly + q * (y - ly) == q * y;
    assert s * lz + s * (z - lz) == s * z;
  }

  lemma AffineCellRises(base: real, p: real, q: real, s: real, x: real, y: real, z: real)
    ensures Tetrahedral(AffineCell(base, p * Step(x), q * Step(y), s * Step(z)),
                        Fractional(x), Fractional(y), Fractional(z)) == base + Rise(p, x) + Rise(q, y) + Rise(s, z)
    ensures Trilinear(AffineCell(base, p * Step(x), q * Step(y), s * Step(z)),
                      Fractional(x), Fractional(y), Fractional(z)) == base + Rise(p, x) + Rise(q, y) + Rise(s, z)
  {
    StepScales(p, x);
    StepScales(q, y);
    StepScales(s, z);
    hide Rise, Step, Fractional, Tetrahedral, Trilinear, AffineCell;
    TetrahedralOfAffine(base, p * Step(x), q * Step(y), s * Step(z), Fractional(x), Fractional(y), Fractional(z));
    TrilinearOfAffine(base, p * Step(x), q * Step(y), s * Step(z), Fractional(x), Fractional(y), Fractional(z));
  }

  /** On an affine table both interpolations are exact at every input, not only on the lattice. */
  lemma LookupOfAffineTable(t: Lut, v: Vec3, ch: Channel, a: real, p: real, q: real, s: real)
    requires ValidLut(t) && IsAffine(t, ch, a, p, q, s)
    ensures TetrahedralLookup(t, v, ch) == Plane(a, p, q, s, Place(t, v.r), Place(t, v.g), Place(t, v.b))
    ensures TrilinearLookup(t, v, ch) == TetrahedralLookup(t, v, ch)
  {
    var x, y, z := Place(t, v.r), Place(t, v.g), Place(t, v.b);
    AffineTableCell(t, x, y, z, ch, a, p, q, s);
    hide Tetrahedral, Trilinear, CellAt, Plane, AffineCell, Step, Fractional, Place, Rise;
    AffineCellRises(Plane(a, p, q, s, x.Floor as real, y.Floor as real, z.Floor as real), p, q, s, x, y, z);
    PlaneAt(a, p, q, s, x, y, z);
  }
}
