/** Laying an arrangement back down (src/client/client_app.cpp): where each window goes, and in what order. */
module Restore {
  import opened Wire
  import opened LayoutReport
  import T = Tiling

  function Min(a: int, b: int): int { if a < b then a else b }

  function Max(a: int, b: int): int { if a > b then a else b }

  predicate Filled(share: Share) {
    share.width > 0.0 && share.height > 0.0
  }

  /** One axis of a floating window: pulled back by its overhang, and no further than the corner. */
  function MovedIn(at: int, size: int, start: int, extent: int): int {
    Max(Min(at, start + extent - size), start)
  }

  /** Where a window goes on this desktop. */
  function RestoredBounds(placed: Placement, area: Rect, shrink: bool): Rect
    requires area.width >= 0 && area.height >= 0
  {
    if Filled(placed.tile) then
      var left := area.x + T.TileEdge(placed.tile.x, area.width);
      var right := area.x + T.TileEdge(placed.tile.x + placed.tile.width, area.width);
      var top := area.y + T.TileEdge(placed.tile.y, area.height);
      var bottom := area.y + T.TileEdge(placed.tile.y + placed.tile.height, area.height);
      Rect(left, top, Max(1, right - left), Max(1, bottom - top))
    else
      var rect := placed.rect;
      var x, y := MovedIn(rect.x, rect.width, area.x, area.width), MovedIn(rect.y, rect.height, area.y, area.height);
      if shrink then Rect(x, y, Min(rect.width, area.width), Min(rect.height, area.height)) else Rect(x, y, rect.width, rect.height)
  }

  /** Inside a desktop's content area, all of it. */
  predicate Within(rect: Rect, area: Rect) {
    && area.x <= rect.x && rect.x + rect.width <= area.x + area.width
    && area.y <= rect.y && rect.y + rect.height <= area.y + area.height
  }

  predicate NoLarger(rect: Rect, area: Rect) {
    rect.width <= area.width && rect.height <= area.height
  }

  /** A floating window that is no larger than the desktop ends up inside it, at the size its reader made it. */
  lemma FloatingComesInside(placed: Placement, area: Rect, shrink: bool)
    requires area.width >= 0 && area.height >= 0 && !Filled(placed.tile)
    ensures var now := RestoredBounds(placed, area, shrink);
      && (NoLarger(placed.rect, area) ==> Within(now, area) && now.width == placed.rect.width && now.height == placed.rect.height)
      && (shrink ==> Within(now, area))
      && (!shrink ==> now.width == placed.rect.width && now.height == placed.rect.height)
      && (shrink ==> now.width == (if placed.rect.width > area.width then area.width else placed.rect.width))
      && (shrink ==> now.height == (if placed.rect.height > area.height then area.height else placed.rect.height))
  {
  }

  /** On an axis it is too large for, it stands at the corner, where it shows the most of itself. */
  lemma TooLargeStandsAtTheCorner(placed: Placement, area: Rect, shrink: bool)
    requires area.width >= 0 && area.height >= 0 && !Filled(placed.tile)
    ensures var now := RestoredBounds(placed, area, shrink);
      && (placed.rect.width >= area.width ==> now.x == area.x) && (placed.rect.height >= area.height ==> now.y == area.y)
  {
  }

  /** The cell boundary that a place between cells is nearest to; from halfway on, the next. */
  predicate NearestCell(edge: int, place: real) {
    edge as real - 0.5 <= place < edge as real + 0.5
  }

  /**
   A tile has its share of whatever desktop it is laid down on: each edge at the boundary nearest to where the share puts
   it, and a cell at least.
   */
  lemma TileHasItsShare(placed: Placement, area: Rect, shrink: bool)
    requires area.width >= 0 && area.height >= 0 && placed.tile.width > 0.0 && placed.tile.height > 0.0
    ensures var now, tile := RestoredBounds(placed, area, shrink), placed.tile;
      && SharesAxis(now.x - area.x, now.width, tile.x, tile.width, area.width)
      && SharesAxis(now.y - area.y, now.height, tile.y, tile.height, area.height)
  {
    AxisIsShared(placed.tile.x, placed.tile.width, area.width);
    AxisIsShared(placed.tile.y, placed.tile.height, area.height);
    hide T.TileEdge, SharesAxis;
  }

  /** One axis of a tile: it begins nearest to its share's beginning and ends nearest to its end, or has one cell past it. */
  predicate SharesAxis(at: int, size: int, start: real, length: real, extent: nat) {
    && NearestCell(at, start * extent as real) && size >= 1
    && (NearestCell(at + size, (start + length) * extent as real)
        || (size == 1 && (start + length) * extent as real < at as real + 0.5))
  }

  lemma AxisIsShared(start: real, length: real, extent: nat)
    ensures var left, right := T.TileEdge(start, extent), T.TileEdge(start + length, extent);
      SharesAxis(left, Max(1, right - left), start, length, extent)
  {
    RoundIsNearest(start * extent as real);
    RoundIsNearest((start + length) * extent as real);
    var first, last := start * extent as real, (start + length) * extent as real;
    hide T.Round;
    EdgesShare(T.Round(first), T.Round(last), first, last);
  }

  lemma EdgesShare(left: int, right: int, first: real, last: real)
    requires NearestCell(left, first) && NearestCell(right, last)
    ensures NearestCell(left + Max(1, right - left), last) || (Max(1, right - left) == 1 && last < left as real + 0.5)
  {
  }

  lemma RoundIsNearest(place: real)
    ensures NearestCell(T.Round(place), place)
  {
  }

  /** It stays where it was exactly if it is inside already, or, on an axis it is too large for, at the corner. */
  lemma StaysExactlyIfInside(placed: Placement, area: Rect, shrink: bool)
    requires area.width >= 0 && area.height >= 0 && !Filled(placed.tile)
    ensures RestoredBounds(placed, area, shrink) == placed.rect <==>
      && AtHome(placed.rect.x, placed.rect.width, area.x, area.width)
      && AtHome(placed.rect.y, placed.rect.height, area.y, area.height)
      && (shrink ==> NoLarger(placed.rect, area))
  {
  }

  predicate AtHome(at: int, size: int, start: int, extent: int) {
    (start <= at && at + size <= start + extent) || at == start
  }

  /** It moves no further than it has to: no place inside is nearer. */
  lemma MovesTheLeast(at: int, size: int, start: int, extent: int, other: int)
    requires start <= other && other + size <= start + extent
    ensures var now := MovedIn(at, size, start, extent);
      start <= now && now + size <= start + extent
      && (if now >= at then now - at else at - now) <= (if other >= at then other - at else at - other)
  {
  }

  /** Laying down what was laid down changes nothing. */
  lemma RestoringTwice(placed: Placement, area: Rect, shrink: bool)
    requires area.width >= 0 && area.height >= 0 && !Filled(placed.tile)
    ensures var now := RestoredBounds(placed, area, shrink);
      RestoredBounds(placed.(rect := now), area, shrink) == now
  {
  }

  /** The share a tile has of a desktop, exactly and as the wire carries it. */
  function ExactShare(rect: Rect, area: Rect): Share
    requires Within(rect, area) && rect.width > 0 && rect.height > 0
  {
    Share(T.ShareOf(rect.x - area.x, area.width), T.ShareOf(rect.y - area.y, area.height),
          T.ShareOf(rect.width, area.width), T.ShareOf(rect.height, area.height))
  }

  function Carried(share: Share): Share {
    Share(T.TileShare(T.TileFixed(share.x)), T.TileShare(T.TileFixed(share.y)),
          T.TileShare(T.TileFixed(share.width)), T.TileShare(T.TileFixed(share.height)))
  }

  /** One axis of a carried tile: its edges come back, or it is one cell that came back as none and is given one. */
  predicate AxisKept(left: nat, width: nat, extent: nat)
    requires 0 < extent
  {
    var start, end := T.Residue(left, extent), T.Residue(left, extent) + T.Residue(width, extent);
    T.KeepsCell(start) && (T.KeepsCell(end) || (width == 1 && 2 * end < -T.WHOLE))
  }

  lemma AxisComesBack(left: nat, width: nat, extent: nat)
    requires left + width <= extent && width > 0
    ensures var x, w := T.TileShare(T.TileFixed(T.ShareOf(left, extent))), T.TileShare(T.TileFixed(T.ShareOf(width, extent)));
      var start, end := T.TileEdge(x, extent), T.TileEdge(x + w, extent);
      (start == left && Max(1, end - start) == width <==> AxisKept(left, width, extent))
  {
    T.CarriedEdges(left, width, extent);
    hide T.TileFixed, T.TileShare, T.ShareOf, T.TileEdge, T.Residue, T.KeepsCell;
  }

  /** `to_wire` and back: a place in sixteen bits, a size in sixteen that are never negative. */
  function NarrowPlace(at: int): int {
    (at + 0x8000) % 0x10000 - 0x8000
  }

  function NarrowSize(size: int): int {
    Max(0, size) % 0x10000
  }

  function Narrowed(rect: Rect): Rect {
    Rect(NarrowPlace(rect.x), NarrowPlace(rect.y), NarrowSize(rect.width), NarrowSize(rect.height))
  }

  /** A place that comes back: one that fits its bits, or one at an edge whose other value lies beyond that edge. */
  predicate PlaceKept(at: int, size: int, start: int, extent: int) {
    || NarrowPlace(at) == at
    || (at == start && NarrowPlace(at) < at)
    || (at == start + extent - size && NarrowPlace(at) > at)
  }

  predicate FloatKept(rect: Rect, area: Rect) {
    && rect.width < 0x10000 && rect.height < 0x10000
    && PlaceKept(rect.x, rect.width, area.x, area.width) && PlaceKept(rect.y, rect.height, area.y, area.height)
  }

  lemma AxisMovesBack(at: int, size: int, start: int, extent: int)
    requires start <= at && at + size <= start + extent
    ensures MovedIn(NarrowPlace(at), size, start, extent) == at <==> PlaceKept(at, size, start, extent)
  {
    hide NarrowPlace;
  }

  lemma NarrowSizeIs(size: nat)
    ensures 0 <= NarrowSize(size) <= size && (NarrowSize(size) == size <==> size < 0x10000)
  {
  }

  /** A floating window inside the desktop, told to the server and told back, is where it was exactly then. */
  lemma CarriedWindowComesBackExactly(rect: Rect, placed: Placement, area: Rect, shrink: bool)
    requires Within(rect, area) && rect.width > 0 && rect.height > 0
    requires placed.rect == Narrowed(rect) && !Filled(placed.tile)
    ensures RestoredBounds(placed, area, shrink) == rect <==> FloatKept(rect, area)
  {
    NarrowSizeIs(rect.width);
    NarrowSizeIs(rect.height);
    AxisMovesBack(rect.x, rect.width, area.x, area.width);
    AxisMovesBack(rect.y, rect.height, area.y, area.height);
    hide NarrowPlace, NarrowSize, MovedIn, PlaceKept, Filled;
  }

  /** A tile too thin to be carried as one comes back if the window does; any other, if it does on both axes. */
  predicate TileKept(rect: Rect, area: Rect)
    requires Within(rect, area) && rect.width > 0 && rect.height > 0
  {
    if 2 * T.WHOLE * rect.width < area.width || 2 * T.WHOLE * rect.height < area.height then FloatKept(rect, area)
    else AxisKept(rect.x - area.x, rect.width, area.width) && AxisKept(rect.y - area.y, rect.height, area.height)
  }

  /** A tile told to the server, told back and laid down on a desktop of the same size is where it was exactly then. */
  lemma CarriedTileComesBackExactly(rect: Rect, placed: Placement, area: Rect, shrink: bool)
    requires Within(rect, area) && rect.width > 0 && rect.height > 0
    requires placed.rect == Narrowed(rect) && placed.tile == Carried(ExactShare(rect, area))
    ensures RestoredBounds(placed, area, shrink) == rect <==> TileKept(rect, area)
  {
    T.SomeShare(rect.width, area.width);
    T.SomeShare(rect.height, area.height);
    hide T.TileFixed, T.TileShare, T.ShareOf, T.TileEdge, AxisKept, FloatKept, Narrowed;
    if Filled(placed.tile) {
      AxisComesBack(rect.x - area.x, rect.width, area.width);
      AxisComesBack(rect.y - area.y, rect.height, area.height);
    } else {
      CarriedWindowComesBackExactly(rect, placed, area, shrink);
    }
  }

  /** So every tile is kept up to 5000 cells. */
  lemma SmallTilesAreKept(rect: Rect, area: Rect)
    requires Within(rect, area) && rect.width > 0 && rect.height > 0
    requires area.width <= 5000 && area.height <= 5000
    ensures TileKept(rect, area)
  {
    T.SmallResidues(rect.x - area.x, rect.width, area.width);
    T.SmallResidues(rect.y - area.y, rect.height, area.height);
    hide T.Residue, T.KeepsCell;
  }

  lemma CarriedTileComesBack(rect: Rect, placed: Placement, area: Rect, shrink: bool)
    requires Within(rect, area) && rect.width > 0 && rect.height > 0
    requires placed.rect == Narrowed(rect) && placed.tile == Carried(ExactShare(rect, area))
    requires area.width <= 5000 && area.height <= 5000
    ensures RestoredBounds(placed, area, shrink) == rect
  {
    SmallTilesAreKept(rect, area);
    CarriedTileComesBackExactly(rect, placed, area, shrink);
  }

  /** And every floating window is whose desktop lies in the sixteen bits. */
  lemma NearWindowsAreKept(rect: Rect, area: Rect)
    requires Within(rect, area) && rect.width > 0 && rect.height > 0
    requires -0x8000 <= area.x && area.x + area.width <= 0x8000 && -0x8000 <= area.y && area.y + area.height <= 0x8000
    requires area.width < 0x10000 && area.height < 0x10000
    ensures FloatKept(rect, area)
  {
  }
}
