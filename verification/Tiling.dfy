/**
 The shares of a filled tiling: how a tile's place on a desktop is carried, and the cells it comes back to
 (src/client/client_app.cpp, src/client/run_client.cpp). Fractions are exact here.
 */
module Tiling {
  /** The wire counts ten-thousandths of a content area. */
  const WHOLE := 10000

  /** `llround`, for numbers that are not negative: to the nearest whole number, halves up. */
  function Round(x: real): int {
    (x + 0.5).Floor
  }

  /** A boundary of a tiling, on an extent of so many cells. */
  function TileEdge(fraction: real, extent: nat): int {
    Round(fraction * extent as real)
  }

  function TileShare(fixed: nat): real {
    fixed as real / WHOLE as real
  }

  function TileFixed(share: real): nat {
    if !(share > 0.0) then 0
    else
      var scaled := Round(share * WHOLE as real);
      if scaled > WHOLE then WHOLE else scaled
  }

  /** The share that so many cells are of an extent. */
  function ShareOf(cells: nat, extent: nat): real
    requires extent > 0
  {
    cells as real / extent as real
  }

  // ------------------------------------------------------------- in whole numbers

  /** `over / under`, rounded. */
  function Nearest(over: nat, under: nat): nat
    requires under > 0
  {
    (2 * over + under) / (2 * under)
  }

  lemma MulOrder(a: real, b: real, c: real)
    requires c > 0.0
    ensures a <= b <==> a * c <= b * c
    ensures a < b <==> a * c < b * c
  {
    var d := b - a;
    assert b * c == a * c + d * c;
    assert (d > 0.0 ==> d * c > 0.0) && (d < 0.0 ==> d * c < 0.0) && (d == 0.0 ==> d * c == 0.0);
  }

  lemma Distributes(a: real, b: real, c: real)
    ensures (a + b) * c == a * c + b * c
  {
  }

  lemma QuotientTimes(over: nat, under: nat)
    requires under > 0
    ensures over as real / under as real * under as real == over as real
  {
  }

  lemma ProductAsReal(a: nat, b: nat)
    ensures (a * b) as real == a as real * b as real
  {
  }

  /** Multiples of a positive number are as far apart as their multipliers. */
  lemma Multiples(k: int, e: int)
    requires e > 0
    ensures (k >= 1 ==> e * k >= e) && (k >= 2 ==> e * k >= 2 * e) && (k <= -1 ==> e * k <= -e) && (k <= -2 ==> e * k <= -2 * e)
    ensures (k == 0 ==> e * k == 0) && (k == 1 ==> e * k == e)
  {
  }

  lemma Sums(e: int, a: int, b: int, c: int)
    ensures e * (a + b - c) == e * a + e * b - e * c
  {
  }

  lemma Divided(n: nat, d: nat) returns (q: nat, r: nat)
    requires d > 0
    ensures q == n / d && r == n % d && n == q * d + r && r < d
  {
    q, r := n / d, n % d;
  }

  lemma NearestBounds(over: nat, under: nat)
    requires under > 0
    ensures var n := Nearest(over, under); 2 * (under * n) - under <= 2 * over < 2 * (under * n) + under
  {
    var n, r := Divided(2 * over + under, 2 * under);
    assert n * (2 * under) == 2 * (under * n);
  }

  /** Rounding a quotient, without leaving whole numbers. */
  lemma RoundRatio(over: nat, under: nat)
    requires under > 0
    ensures Round(over as real / under as real) == Nearest(over, under)
  {
    NearestBounds(over, under);
    var n := Nearest(over, under);
    hide Nearest, Round;
    QuotientTimes(over, under);
    ProductAsReal(under, n);
    var p: nat := under * n;
    assert (2 * p - under) as real <= (2 * over) as real < (2 * p + under) as real;
    RoundBetween(over as real / under as real, under as real, over as real, n, p as real);
  }

  lemma RoundBetween(x: real, u: real, o: real, n: int, p: real)
    requires u > 0.0 && x * u == o && u * n as real == p && 2.0 * p - u <= 2.0 * o < 2.0 * p + u
    ensures Round(x) == n
  {
    var low, high := n as real - 0.5, n as real + 0.5;
    Distributes(n as real, -0.5, u);
    Distributes(n as real, 0.5, u);
    MulOrder(low, x, u);
    MulOrder(x, high, u);
    assert low * u <= o < high * u;
  }

  /** A carried share is the nearest number of ten-thousandths. */
  lemma FixedIsNearest(cells: nat, extent: nat)
    requires 0 < extent && cells <= extent
    ensures TileFixed(ShareOf(cells, extent)) == Nearest(WHOLE * cells, extent) <= WHOLE
  {
    RoundRatio(WHOLE * cells, extent);
    var share := ShareOf(cells, extent);
    assert share * WHOLE as real == (WHOLE * cells) as real / extent as real;
    assert cells == 0 <==> share == 0.0;
    NearestBounds(WHOLE * cells, extent);
    NearestAtMost(WHOLE * cells, extent, WHOLE);
  }

  lemma EdgeIsNearest(fixed: nat, extent: nat)
    ensures TileEdge(TileShare(fixed), extent) == Nearest(fixed * extent, WHOLE)
  {
    RoundRatio(fixed * extent, WHOLE);
    assert TileShare(fixed) * extent as real == (fixed * extent) as real / WHOLE as real;
  }

  lemma SharesAdd(a: nat, b: nat)
    ensures TileShare(a) + TileShare(b) == TileShare(a + b)
  {
  }

  lemma NearestAtMost(over: nat, under: nat, most: nat)
    requires under > 0 && over <= under * most
    ensures Nearest(over, under) <= most
  {
    NearestBounds(over, under);
    Sums(under, Nearest(over, under), 0, most);
    Multiples(Nearest(over, under) as int - most, under);
    hide Nearest;
  }

  // ------------------------------------------------------------- what comes back

  /** Not carried at all, a share gives its own edges back on any extent. */
  lemma ExactEdges(start: nat, size: nat, extent: nat)
    requires 0 < extent
    ensures TileEdge(ShareOf(start, extent), extent) == start
    ensures TileEdge(ShareOf(start, extent) + ShareOf(size, extent), extent) == start + size
  {
    QuotientTimes(start, extent);
    QuotientTimes(size, extent);
    Distributes(ShareOf(start, extent), ShareOf(size, extent), extent as real);
  }

  /** How far the nearest number of ten-thousandths is from a place, counted in ten-thousandths of a cell. */
  function Residue(cells: nat, extent: nat): int
    requires extent > 0
  {
    var r := WHOLE * cells % extent;
    if 2 * r >= extent then extent - r else -r
  }

  lemma CarriedResidue(cells: nat, extent: nat)
    requires extent > 0
    ensures extent * Nearest(WHOLE * cells, extent) == WHOLE * cells + Residue(cells, extent)
  {
    var n := Nearest(WHOLE * cells, extent);
    NearestBounds(WHOLE * cells, extent);
    var q, r := Divided(WHOLE * cells, extent);
    hide Nearest;
    Sums(extent, n, 0, q);
    Multiples(n as int - q, extent);
  }

  /** Less than half a cell out, a boundary falls on its own cell; so it does half a cell short. */
  predicate KeepsCell(residue: int) {
    -WHOLE <= 2 * residue < WHOLE
  }

  lemma EdgeComesBack(cells: nat, extent: nat, fixed: nat)
    requires extent > 0
    ensures TileEdge(TileShare(fixed), extent) == cells <==> KeepsCell(extent * fixed - WHOLE * cells)
    ensures TileEdge(TileShare(fixed), extent) < cells <==> 2 * (extent * fixed - WHOLE * cells) < -WHOLE
  {
    EdgeIsNearest(fixed, extent);
    NearestBounds(fixed * extent, WHOLE);
    Swapped(fixed, extent);
    NearestCell(cells, Nearest(fixed * extent, WHOLE), fixed * extent);
    hide TileEdge, TileShare, Nearest, KeepsCell;
  }

  lemma Swapped(a: int, b: int)
    ensures a * b == b * a
  {
  }

  lemma NearestCell(cells: nat, nearest: nat, over: nat)
    requires 2 * (WHOLE * nearest) - WHOLE <= 2 * over < 2 * (WHOLE * nearest) + WHOLE
    ensures nearest == cells <==> KeepsCell(over - WHOLE * cells)
    ensures nearest < cells <==> 2 * (over - WHOLE * cells) < -WHOLE
  {
  }

  /** Where the two edges of a carried tile fall on an extent of the same size: by what rounding left over. */
  lemma CarriedEdges(left: nat, width: nat, extent: nat)
    requires 0 < extent && left + width <= extent
    ensures var x, w := TileFixed(ShareOf(left, extent)), TileFixed(ShareOf(width, extent));
      var start, end := TileEdge(TileShare(x), extent), TileEdge(TileShare(x) + TileShare(w), extent);
      && (start == left <==> KeepsCell(Residue(left, extent)))
      && (end == left + width <==> KeepsCell(Residue(left, extent) + Residue(width, extent)))
      && (end < left + width <==> 2 * (Residue(left, extent) + Residue(width, extent)) < -WHOLE)
  {
    var x, w := TileFixed(ShareOf(left, extent)), TileFixed(ShareOf(width, extent));
    FixedIsNearest(left, extent);
    FixedIsNearest(width, extent);
    SharesAdd(x, w);
    CarriedResidue(left, extent);
    CarriedResidue(width, extent);
    Sums(extent, x, w, 0);
    EdgeComesBack(left, extent, x);
    EdgeComesBack(left + width, extent, x + w);
    hide TileFixed, TileShare, ShareOf, TileEdge, Nearest, Residue, KeepsCell;
  }

  /**
   A tile reported and laid back down on an extent of the same size has the same edges exactly if what rounding
   left over, at its start and over the whole of it, is within half a cell.
   */
  lemma EdgesComeBackExactly(left: nat, width: nat, extent: nat)
    requires 0 < extent && left + width <= extent
    ensures var x, w := TileFixed(ShareOf(left, extent)), TileFixed(ShareOf(width, extent));
      (TileEdge(TileShare(x), extent) == left && TileEdge(TileShare(x) + TileShare(w), extent) == left + width
       <==> KeepsCell(Residue(left, extent)) && KeepsCell(Residue(left, extent) + Residue(width, extent)))
  {
    CarriedEdges(left, width, extent);
    hide TileFixed, TileShare, ShareOf, TileEdge, Residue, KeepsCell;
  }

  lemma ResidueBounds(cells: nat, extent: nat)
    requires extent > 0
    ensures 2 * Residue(cells, extent) <= extent && -2 * Residue(cells, extent) < extent
  {
    var q, r := Divided(WHOLE * cells, extent);
  }

  /** On an extent that divides the whole nothing is left over. */
  lemma NothingOver(cells: nat, extent: nat, share: nat)
    requires extent > 0 && extent * share == WHOLE
    ensures Residue(cells, extent) == 0
  {
    var q, r := Divided(WHOLE * cells, extent);
    Regrouped(extent, share, cells);
    Sums(extent, share * cells, 0, q);
    Multiples(share * cells - q, extent);
  }

  lemma Regrouped(a: nat, b: nat, c: nat)
    ensures a * b * c == a * (b * c)
  {
  }

  /** Up to 5000 cells nothing is left over that matters. */
  lemma SmallResidues(left: nat, width: nat, extent: nat)
    requires 0 < extent <= 5000
    ensures KeepsCell(Residue(left, extent)) && KeepsCell(Residue(left, extent) + Residue(width, extent))
  {
    ResidueBounds(left, extent);
    ResidueBounds(width, extent);
    if extent == 5000 {
      NothingOver(left, 5000, 2);
      NothingOver(width, 5000, 2);
    }
    hide Residue;
  }

  /** So on every extent up to 5000 cells every tile comes back. */
  lemma EdgesComeBack(left: nat, width: nat, extent: nat)
    requires 0 < extent <= 5000 && left + width <= extent
    ensures var x, w := TileFixed(ShareOf(left, extent)), TileFixed(ShareOf(width, extent));
      TileEdge(TileShare(x), extent) == left && TileEdge(TileShare(x) + TileShare(w), extent) == left + width
  {
    hide TileFixed, TileShare, ShareOf, TileEdge, Residue, KeepsCell;
    SmallResidues(left, width, extent);
    EdgesComeBackExactly(left, width, extent);
  }

  /** And on every extent that divides the whole, 10000 among them. */
  lemma EdgesComeBackOnDivisors(left: nat, width: nat, extent: nat, share: nat)
    requires 0 < extent && extent * share == WHOLE && left + width <= extent
    ensures var x, w := TileFixed(ShareOf(left, extent)), TileFixed(ShareOf(width, extent));
      TileEdge(TileShare(x), extent) == left && TileEdge(TileShare(x) + TileShare(w), extent) == left + width
  {
    EdgesComeBackExactly(left, width, extent);
    NothingOver(left, extent, share);
    NothingOver(width, extent, share);
    hide TileFixed, TileShare, ShareOf, TileEdge, Residue;
  }

  /** A tile is still carried as one exactly if its size is worth half a ten-thousandth: always, up to 20000 cells. */
  lemma SomeShare(cells: nat, extent: nat)
    requires cells <= extent && 0 < extent
    ensures TileShare(TileFixed(ShareOf(cells, extent))) > 0.0 <==> 2 * WHOLE * cells >= extent
  {
    FixedIsNearest(cells, extent);
    NearestBounds(WHOLE * cells, extent);
    Multiples(Nearest(WHOLE * cells, extent), extent);
    hide TileFixed, ShareOf, Nearest;
  }

  /** One cell more, and there is a tile that comes back a cell wider. */
  lemma EdgesMayMoveAbove()
    ensures var x, w := TileFixed(ShareOf(1250, 5001)), TileFixed(ShareOf(1250, 5001));
      TileEdge(TileShare(x) + TileShare(w), 5001) == 2501
  {
    FixedIsNearest(1250, 5001);
    SharesAdd(2500, 2500);
    EdgeIsNearest(5000, 5001);
    hide TileFixed, TileShare, ShareOf, TileEdge;
  }

  lemma RoundKeepsOrder(x: real, y: real)
    requires x <= y
    ensures Round(x) <= Round(y)
  {
  }

  /** Boundaries keep their order on any extent, so no tile ends before it starts. */
  lemma EdgesKeepOrder(a: real, b: real, extent: nat)
    requires a <= b
    ensures TileEdge(a, extent) <= TileEdge(b, extent)
  {
    if extent == 0 { assert a * 0.0 == b * 0.0; } else { MulOrder(a, b, extent as real); }
    RoundKeepsOrder(a * extent as real, b * extent as real);
  }

  /** Numbers one ten-thousandth apart fall on one cell or on neighbours. */
  lemma NeighbourEdges(a: nat, b: nat, extent: nat)
    requires a <= b <= a + 1 && extent <= WHOLE
    ensures TileEdge(TileShare(a), extent) <= TileEdge(TileShare(b), extent) <= TileEdge(TileShare(a), extent) + 1
  {
    EdgeIsNearest(a, extent);
    EdgeIsNearest(b, extent);
    assert b * extent == a * extent || b * extent == a * extent + extent;
  }

  lemma OneApart(left: nat, width: nat, extent: nat)
    requires 0 < extent
    ensures var x, w, y := Nearest(WHOLE * left, extent), Nearest(WHOLE * width, extent), Nearest(WHOLE * (left + width), extent);
      y <= x + w + 1 && x + w <= y + 1
  {
    var x, w, y := Nearest(WHOLE * left, extent), Nearest(WHOLE * width, extent), Nearest(WHOLE * (left + width), extent);
    NearestBounds(WHOLE * left, extent);
    NearestBounds(WHOLE * width, extent);
    NearestBounds(WHOLE * (left + width), extent);
    hide Nearest;
    var d: int := x as int + w - y;
    Sums(extent, x, w, y);
    Multiples(d, extent);
  }

  /**
   Two tiles that met when they were reported, one ending where the other began: laid down on any extent up to
   10000 cells, their edges are on one cell or on neighbours.
   */
  lemma SharedEdgesStayTogether(left: nat, width: nat, extent: nat, other: nat)
    requires 0 < extent && left + width <= extent && other <= WHOLE
    ensures var mine := TileEdge(TileShare(TileFixed(ShareOf(left, extent))) + TileShare(TileFixed(ShareOf(width, extent))), other);
      var yours := TileEdge(TileShare(TileFixed(ShareOf(left + width, extent))), other);
      -1 <= mine - yours <= 1
  {
    var x, w, y := TileFixed(ShareOf(left, extent)), TileFixed(ShareOf(width, extent)), TileFixed(ShareOf(left + width, extent));
    FixedIsNearest(left, extent);
    FixedIsNearest(width, extent);
    FixedIsNearest(left + width, extent);
    SharesAdd(x, w);
    OneApart(left, width, extent);
    hide TileFixed, TileShare, ShareOf, TileEdge, Nearest;
    if x + w <= y { NeighbourEdges(x + w, y, other); } else { NeighbourEdges(y, x + w, other); }
  }

  // ------------------------------------------------------------- a share and where it starts

  /**
   The protocol says where a tile starts and its share add up to no more than the whole. They may come to one
   ten-thousandth more, and exactly when the tile ends at the far edge and both of its numbers are halves
   rounded up.
   */
  lemma SharesMayExceedTheWhole(left: nat, width: nat, extent: nat)
    requires 0 < extent && left + width <= extent
    ensures var sum := TileFixed(ShareOf(left, extent)) + TileFixed(ShareOf(width, extent));
      && sum <= WHOLE + 1
      && (sum > WHOLE <==> left + width == extent && 2 * WHOLE * left % (2 * extent) == extent)
  {
    var x, w := Nearest(WHOLE * left, extent), Nearest(WHOLE * width, extent);
    FixedIsNearest(left, extent);
    FixedIsNearest(width, extent);
    hide TileFixed, ShareOf;
    if left + width == extent { HalvesAtTheEdge(left, extent); } else { RoomToSpare(left, width, extent); }
  }

  lemma RoomToSpare(left: nat, width: nat, extent: nat)
    requires 0 < extent && left + width < extent
    ensures Nearest(WHOLE * left, extent) + Nearest(WHOLE * width, extent) <= WHOLE
  {
    var x, w := Nearest(WHOLE * left, extent), Nearest(WHOLE * width, extent);
    NearestBounds(WHOLE * left, extent);
    NearestBounds(WHOLE * width, extent);
    hide Nearest;
    Sums(extent, x, w, WHOLE);
    Multiples(x as int + w - WHOLE, extent);
  }

  lemma HalvesAtTheEdge(left: nat, extent: nat)
    requires 0 < extent && left <= extent
    ensures Nearest(WHOLE * left, extent) + Nearest(WHOLE * (extent - left), extent) ==
      if 2 * WHOLE * left % (2 * extent) == extent then WHOLE + 1 else WHOLE
  {
    var x, w := Nearest(WHOLE * left, extent), Nearest(WHOLE * (extent - left), extent);
    NearestBounds(WHOLE * left, extent);
    NearestBounds(WHOLE * (extent - left), extent);
    hide Nearest;
    Sums(extent, x, w, WHOLE);
    Multiples(x as int + w - WHOLE, extent);
    var m, s := Divided(2 * WHOLE * left, 2 * extent);
    Twice(extent, m);
    HalfAt(extent, x, w, m, s, extent * x, extent * w, extent * m, WHOLE * left);
  }

  lemma Twice(e: nat, m: nat)
    ensures m * (2 * e) == 2 * (e * m)
  {
  }

  /** The same in the products alone: `a` ten-thousandths of cells, `ex`, `ew` and `em` the multiples of the extent. */
  lemma HalfAt(extent: nat, x: nat, w: nat, m: nat, s: nat, ex: int, ew: int, em: int, a: int)
    requires 0 < extent && ex == extent * x && ew == extent * w && em == extent * m && 2 * a == 2 * em + s && s < 2 * extent
    requires 2 * ex - extent <= 2 * a < 2 * ex + extent
    requires 2 * ew - extent <= 2 * (WHOLE * extent - a) < 2 * ew + extent
    ensures x + w == if s == extent then WHOLE + 1 else WHOLE
  {
    Sums(extent, x, w, WHOLE);
    Multiples(x as int + w - WHOLE, extent);
    Sums(extent, x, 0, m);
    Multiples(x as int - m, extent);
  }
}
