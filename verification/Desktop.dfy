/**
 A desktop's arrangement taken and laid back down (src/client/client_app.cpp). Windows stand in a stack, the
 lowest first; what raising and zooming do is the window library's, as far as its callers rely on it.
 */
module Desktop {
  import opened Wrappers
  import opened Wire
  import opened LayoutReport
  import opened Restore
  import T = Tiling

  /** A terminal's window; `under` is where it goes back to when a zoom ends. */
  datatype Window = Window(term: TermId, bounds: Rect, under: Rect, zoomed: bool)

  /** The stack, and the terminals that have been placed once and are the reader's from then on. */
  datatype Desk = Desk(stack: seq<Window>, settled: set<TermId>)

  function ToggledZoom(window: Window, area: Rect): Window {
    if window.zoomed then window.(bounds := window.under, zoomed := false)
    else window.(under := window.bounds, bounds := area, zoomed := true)
  }

  predicate Apart(stack: seq<Window>) {
    forall i, j :: 0 <= i < j < |stack| ==> stack[i].term != stack[j].term
  }

  function Raised(stack: seq<Window>, i: nat): seq<Window>
    requires i < |stack|
  {
    stack[..i] + stack[i + 1..] + [stack[i]]
  }

  /** Where the window of a terminal stands in the stack. */
  function Showing(stack: seq<Window>, term: TermId): (at: Option<nat>)
    ensures at.Some? ==> at.value < |stack| && stack[at.value].term == term
    ensures at.None? ==> forall i :: 0 <= i < |stack| ==> stack[i].term != term
  {
    if stack == [] then None
    else if stack[|stack| - 1].term == term then Some(|stack| - 1)
    else Showing(stack[..|stack| - 1], term)
  }

  // ------------------------------------------------------------- laying down

  function Arranged(window: Window, placed: Placement, area: Rect, shrink: bool): Window
    requires area.width >= 0 && area.height >= 0
  {
    if placed.zoomed then (if window.zoomed then window.(bounds := area) else ToggledZoom(window, area))
    else (if window.zoomed then ToggledZoom(window, area) else window).(bounds := RestoredBounds(placed, area, shrink))
  }

  /** One placement: once for each terminal that has a window, and nothing for a window nobody has placed. */
  function PlacedOne(desk: Desk, placed: Placement, area: Rect, shrink: bool, modal: bool): (after: Desk)
    requires area.width >= 0 && area.height >= 0
    ensures |after.stack| == |desk.stack|
  {
    var at := Showing(desk.stack, placed.term);
    if at.None? || placed.term in desk.settled then desk
    else
      var settled := desk.settled + {placed.term};
      if placed.rect.width <= 0 || placed.rect.height <= 0 then desk.(settled := settled)
      else
        var changed := desk.stack[at.value := Arranged(desk.stack[at.value], placed, area, shrink)];
        Desk(if modal then changed else Raised(changed, at.value), settled)
  }

  function PlacedAll(desk: Desk, placements: Arrangement, area: Rect, shrink: bool, modal: bool): (after: Desk)
    requires area.width >= 0 && area.height >= 0
    ensures |after.stack| == |desk.stack|
  {
    if placements == [] then desk
    else PlacedOne(PlacedAll(desk, placements[..|placements| - 1], area, shrink, modal), placements[|placements| - 1], area, shrink, modal)
  }

  /** `std::stable_sort` by stack position: equal ones stay as they came. */
  function Inserted(sorted: Arrangement, placed: Placement): Arrangement {
    if sorted == [] || sorted[|sorted| - 1].zOrder <= placed.zOrder then sorted + [placed]
    else Inserted(sorted[..|sorted| - 1], placed) + [sorted[|sorted| - 1]]
  }

  function LowestFirst(arrangement: Arrangement): Arrangement {
    if arrangement == [] then []
    else Inserted(LowestFirst(arrangement[..|arrangement| - 1]), arrangement[|arrangement| - 1])
  }

  predicate Ascending(arrangement: Arrangement) {
    forall i, j :: 0 <= i <= j < |arrangement| ==> arrangement[i].zOrder <= arrangement[j].zOrder
  }

  lemma {:induction false} InsertedHolds(sorted: Arrangement, placed: Placement)
    ensures multiset(Inserted(sorted, placed)) == multiset(sorted) + multiset{placed}
  {
    if sorted != [] && sorted[|sorted| - 1].zOrder > placed.zOrder {
      var n := |sorted| - 1;
      InsertedHolds(sorted[..n], placed);
      assert sorted == sorted[..n] + [sorted[n]];
    }
  }

  lemma {:induction false} InsertedAscends(sorted: Arrangement, placed: Placement)
    requires Ascending(sorted)
    ensures Ascending(Inserted(sorted, placed))
    ensures forall i :: 0 <= i < |Inserted(sorted, placed)| ==>
      Inserted(sorted, placed)[i] == placed || Inserted(sorted, placed)[i] in sorted
  {
    if sorted != [] && sorted[|sorted| - 1].zOrder > placed.zOrder {
      var n := |sorted| - 1;
      InsertedAscends(sorted[..n], placed);
      var more := Inserted(sorted[..n], placed);
      forall i | 0 <= i < |more| ensures more[i].zOrder <= sorted[n].zOrder && (more[i] == placed || more[i] in sorted) {
        if more[i] != placed { var j :| 0 <= j < n && sorted[..n][j] == more[i]; }
      }
    }
  }

  /** Every placement once, in the order of the stack. */
  lemma {:induction false} LowestFirstSorts(arrangement: Arrangement)
    ensures Ascending(LowestFirst(arrangement)) && multiset(LowestFirst(arrangement)) == multiset(arrangement)
  {
    if arrangement != [] {
      var front, last := arrangement[..|arrangement| - 1], arrangement[|arrangement| - 1];
      LowestFirstSorts(front);
      InsertedAscends(LowestFirst(front), last);
      InsertedHolds(LowestFirst(front), last);
      FrontAndLast(arrangement);
      assert LowestFirst(arrangement) == Inserted(LowestFirst(front), last);
      hide *;
    }
  }

  lemma FrontAndLast(arrangement: Arrangement)
    requires arrangement != []
    ensures multiset(arrangement) == multiset(arrangement[..|arrangement| - 1]) + multiset{arrangement[|arrangement| - 1]}
  {
    assert arrangement == arrangement[..|arrangement| - 1] + [arrangement[|arrangement| - 1]];
  }

  /** The placements at one height, in the order they have. */
  function AtHeight(arrangement: Arrangement, z: nat): Arrangement {
    if arrangement == [] then []
    else
      var last := arrangement[|arrangement| - 1];
      AtHeight(arrangement[..|arrangement| - 1], z) + if last.zOrder == z then [last] else []
  }

  lemma OneMoreAtHeight(arrangement: Arrangement, placed: Placement, z: nat)
    ensures AtHeight(arrangement + [placed], z) == AtHeight(arrangement, z) + if placed.zOrder == z then [placed] else []
  {
    assert (arrangement + [placed])[..|arrangement|] == arrangement;
  }

  lemma {:induction false} InsertedBehindItsEquals(sorted: Arrangement, placed: Placement, z: nat)
    ensures AtHeight(Inserted(sorted, placed), z) == AtHeight(sorted, z) + if placed.zOrder == z then [placed] else []
  {
    OneMoreAtHeight(sorted, placed, z);
    hide AtHeight;
    if sorted != [] && sorted[|sorted| - 1].zOrder > placed.zOrder {
      var front, last := sorted[..|sorted| - 1], sorted[|sorted| - 1];
      assert front + [last] == sorted;
      OneMoreAtHeight(front, last, z);
      InsertedBehindItsEquals(front, placed, z);
      OneMoreAtHeight(Inserted(front, placed), last, z);
    }
  }

  /** And the ones that share a height stay in the order they came. */
  lemma {:induction false} LowestFirstIsStable(arrangement: Arrangement, z: nat)
    ensures AtHeight(LowestFirst(arrangement), z) == AtHeight(arrangement, z)
  {
    if arrangement != [] {
      var front, last := arrangement[..|arrangement| - 1], arrangement[|arrangement| - 1];
      LowestFirstIsStable(front, z);
      InsertedBehindItsEquals(LowestFirst(front), last, z);
    }
  }

  /** An arrangement already in order is left as it is. */
  lemma {:induction false} SortedStays(arrangement: Arrangement)
    requires Ascending(arrangement)
    ensures LowestFirst(arrangement) == arrangement
  {
    if arrangement != [] {
      SortedStays(arrangement[..|arrangement| - 1]);
      AppendsLast(arrangement);
      hide Ascending, Inserted;
    }
  }

  lemma AppendsLast(arrangement: Arrangement)
    requires arrangement != [] && Ascending(arrangement)
    ensures var n := |arrangement| - 1; Inserted(arrangement[..n], arrangement[n]) == arrangement
  {
    var n := |arrangement| - 1;
    assert arrangement == arrangement[..n] + [arrangement[n]];
  }

  // ------------------------------------------------------------- what stays

  /** The window of a terminal, wherever it stands. */
  predicate Shows(stack: seq<Window>, window: Window) {
    exists i :: 0 <= i < |stack| && stack[i] == window
  }

  lemma PlacedOneKeeps(desk: Desk, placed: Placement, area: Rect, shrink: bool, modal: bool)
    requires area.width >= 0 && area.height >= 0 && Apart(desk.stack)
    ensures var after := PlacedOne(desk, placed, area, shrink, modal);
      && Apart(after.stack) && desk.settled <= after.settled
      && (forall w :: Shows(desk.stack, w) && w.term != placed.term ==> Shows(after.stack, w))
      && (forall w :: Shows(desk.stack, w) && w.term in desk.settled ==> Shows(after.stack, w))
      && (Showing(desk.stack, placed.term).Some? ==> placed.term in after.settled)
  {
    hide Arranged, Showing;
    var at := Showing(desk.stack, placed.term);
    if at.Some? && placed.term !in desk.settled && placed.rect.width > 0 && placed.rect.height > 0 {
      var i := at.value;
      var window := Arranged(desk.stack[i], placed, area, shrink);
      ArrangedKeepsTerm(desk.stack[i], placed, area, shrink);
      var changed := desk.stack[i := window];
      RaisedKeeps(changed, i);
      forall w | Shows(desk.stack, w) && w.term != placed.term ensures Shows(changed, w) {
        var j :| 0 <= j < |desk.stack| && desk.stack[j] == w;
        assert changed[j] == w;
      }
    }
  }

  lemma ArrangedKeepsTerm(window: Window, placed: Placement, area: Rect, shrink: bool)
    requires area.width >= 0 && area.height >= 0
    ensures Arranged(window, placed, area, shrink).term == window.term
  {
  }

  lemma RaisedKeeps(stack: seq<Window>, i: nat)
    requires i < |stack| && Apart(stack)
    ensures Apart(Raised(stack, i)) && forall w :: Shows(stack, w) <==> Shows(Raised(stack, i), w)
  {
    var raised := Raised(stack, i);
    forall w | Shows(stack, w) ensures Shows(raised, w) {
      var j :| 0 <= j < |stack| && stack[j] == w;
      assert raised[if j < i then j else if j == i then |stack| - 1 else j - 1] == w;
    }
    forall w | Shows(raised, w) ensures Shows(stack, w) {
      var j :| 0 <= j < |raised| && raised[j] == w;
      assert stack[if j < i then j else if j == |stack| - 1 then i else j + 1] == w;
    }
  }

  /** A terminal that has been placed once is not moved again, whatever is laid down, until its desktop is forgotten. */
  lemma {:induction false} SettledStay(desk: Desk, placements: Arrangement, area: Rect, shrink: bool, modal: bool, window: Window)
    requires area.width >= 0 && area.height >= 0 && Apart(desk.stack)
    requires Shows(desk.stack, window) && window.term in desk.settled
    ensures var after := PlacedAll(desk, placements, area, shrink, modal);
      Apart(after.stack) && Shows(after.stack, window) && window.term in after.settled
  {
    hide PlacedOne, Apart, Shows;
    if placements != [] {
      var n := |placements| - 1;
      SettledStay(desk, placements[..n], area, shrink, modal, window);
      PlacedOneKeeps(PlacedAll(desk, placements[..n], area, shrink, modal), placements[n], area, shrink, modal);
    }
  }

  lemma PlacedNone(desk: Desk, placements: Arrangement, area: Rect, shrink: bool, modal: bool)
    requires area.width >= 0 && area.height >= 0 && placements == []
    ensures PlacedAll(desk, placements, area, shrink, modal) == desk
  {
  }

  lemma PlacedAllMore(desk: Desk, placements: Arrangement, i: nat, area: Rect, shrink: bool, modal: bool)
    requires area.width >= 0 && area.height >= 0 && i < |placements|
    ensures PlacedAll(desk, placements[..i + 1], area, shrink, modal) ==
      PlacedOne(PlacedAll(desk, placements[..i], area, shrink, modal), placements[i], area, shrink, modal)
  {
    hide PlacedOne;
    assert placements[..i + 1][..i] == placements[..i];
  }

  lemma AllSettledStay(desk: Desk, placements: Arrangement, area: Rect, shrink: bool, modal: bool)
    requires area.width >= 0 && area.height >= 0 && Apart(desk.stack)
    ensures forall w :: Shows(desk.stack, w) && w.term in desk.settled ==>
      Shows(PlacedAll(desk, placements, area, shrink, modal).stack, w)
  {
    forall w | Shows(desk.stack, w) && w.term in desk.settled
      ensures Shows(PlacedAll(desk, placements, area, shrink, modal).stack, w)
    {
      SettledStay(desk, placements, area, shrink, modal, w);
    }
  }

  // ------------------------------------------------------------- what an arrangement does, window by window

  /** The first placement that names a terminal, or -1. */
  function FirstFor(placements: Arrangement, term: TermId): (first: int)
    ensures -1 <= first < |placements|
    ensures first >= 0 ==> placements[first].term == term && forall i :: 0 <= i < first ==> placements[i].term != term
    ensures first < 0 ==> forall i :: 0 <= i < |placements| ==> placements[i].term != term
  {
    if placements == [] then -1
    else
      var n := |placements| - 1;
      var first := FirstFor(placements[..n], term);
      if first >= 0 then first else if placements[n].term == term then n else -1
  }

  /** What a placement that counts makes of its window. */
  function PlacedAs(window: Window, placed: Placement, area: Rect, shrink: bool): Window
    requires area.width >= 0 && area.height >= 0
  {
    if placed.rect.width <= 0 || placed.rect.height <= 0 then window else Arranged(window, placed, area, shrink)
  }

  /** Zoomed to the desktop, over the place it had; or not zoomed, where the arrangement has it on this desktop. */
  lemma ArrangedIs(window: Window, placed: Placement, area: Rect, shrink: bool)
    requires area.width >= 0 && area.height >= 0
    ensures var after := Arranged(window, placed, area, shrink);
      && after.term == window.term && (after.zoomed <==> placed.zoomed)
      && after.bounds == (if placed.zoomed then area else RestoredBounds(placed, area, shrink))
      && after.under == (if placed.zoomed && !window.zoomed then window.bounds else window.under)
  {
    hide RestoredBounds;
  }

  lemma OnePlaced(desk: Desk, placed: Placement, area: Rect, shrink: bool, modal: bool, w: Window)
    requires area.width >= 0 && area.height >= 0 && Apart(desk.stack) && Shows(desk.stack, w)
    ensures var after := PlacedOne(desk, placed, area, shrink, modal);
      && Apart(after.stack)
      && (w.term in after.settled <==> w.term in desk.settled || w.term == placed.term)
      && Shows(after.stack, if w.term == placed.term && w.term !in desk.settled then PlacedAs(w, placed, area, shrink) else w)
  {
    PlacedOneKeeps(desk, placed, area, shrink, modal);
    hide Apart, Arranged;
    if w.term == placed.term && w.term !in desk.settled {
      var i :| 0 <= i < |desk.stack| && desk.stack[i] == w;
      OnlyThere(desk.stack, i);
      hide Showing;
      ArrangedKeepsTerm(w, placed, area, shrink);
      PlacedThere(desk.stack, i, PlacedAs(w, placed, area, shrink));
    }
  }

  lemma PlacedThere(stack: seq<Window>, i: nat, now: Window)
    requires i < |stack| && Apart(stack) && now.term == stack[i].term
    ensures Shows(stack[i := now], now) && Shows(Raised(stack[i := now], i), now)
  {
    var changed := stack[i := now];
    assert changed[i] == now;
    RaisedKeeps(changed, i);
  }

  lemma OnlyThere(stack: seq<Window>, i: nat)
    requires i < |stack| && Apart(stack)
    ensures Showing(stack, stack[i].term) == Some(i)
  {
  }

  /**
   What becomes of each window, whatever is laid down and in whatever state the desktop was: the first placement that
   names its terminal places it, unless that had been placed before, and nothing else touches it. A terminal is
   settled afterwards exactly if it was, or has been named.
   */
  lemma {:induction false} EachIsPlaced(desk: Desk, placements: Arrangement, area: Rect, shrink: bool, modal: bool, w: Window)
    requires area.width >= 0 && area.height >= 0 && Apart(desk.stack) && Shows(desk.stack, w)
    ensures var after, first := PlacedAll(desk, placements, area, shrink, modal), FirstFor(placements, w.term);
      && Apart(after.stack)
      && (w.term in after.settled <==> w.term in desk.settled || first >= 0)
      && Shows(after.stack, if w.term in desk.settled || first < 0 then w else PlacedAs(w, placements[first], area, shrink))
  {
    hide PlacedOne, Apart, Shows, PlacedAs;
    if placements != [] {
      var n := |placements| - 1;
      EachIsPlaced(desk, placements[..n], area, shrink, modal, w);
      var first := FirstFor(placements[..n], w.term);
      var now := if w.term in desk.settled || first < 0 then w else PlacedAs(w, placements[first], area, shrink);
      assert now.term == w.term by { PlacedAsKeepsTerm(w, placements[if first < 0 then 0 else first], area, shrink); }
      OnePlaced(PlacedAll(desk, placements[..n], area, shrink, modal), placements[n], area, shrink, modal, now);
    }
  }

  lemma PlacedAsKeepsTerm(window: Window, placed: Placement, area: Rect, shrink: bool)
    requires area.width >= 0 && area.height >= 0
    ensures PlacedAs(window, placed, area, shrink).term == window.term
  {
    ArrangedKeepsTerm(window, placed, area, shrink);
  }

  /** The one terminal's window stands somewhere below the other's. */
  ghost predicate Below(stack: seq<Window>, lower: TermId, upper: TermId) {
    exists i, j :: 0 <= i < j < |stack| && stack[i].term == lower && stack[j].term == upper
  }

  ghost predicate Has(stack: seq<Window>, term: TermId) {
    exists i :: 0 <= i < |stack| && stack[i].term == term
  }

  /** The placement raises the window. */
  predicate Raises(desk: Desk, placed: Placement, modal: bool) {
    !modal && Showing(desk.stack, placed.term).Some? && placed.term !in desk.settled && placed.rect.width > 0 && placed.rect.height > 0
  }

  lemma OneOrder(desk: Desk, placed: Placement, area: Rect, shrink: bool, modal: bool, lower: TermId, upper: TermId)
    requires area.width >= 0 && area.height >= 0 && Apart(desk.stack)
    ensures var after := PlacedOne(desk, placed, area, shrink, modal);
      && (Has(after.stack, lower) <==> Has(desk.stack, lower))
      && (Below(after.stack, lower, upper) <==>
            if !Raises(desk, placed, modal) then Below(desk.stack, lower, upper)
            else if upper == placed.term then lower != upper && Has(desk.stack, lower)
            else lower != placed.term && Below(desk.stack, lower, upper))
  {
    hide Arranged, Showing, Has, Below, Raised, Apart;
    var at := Showing(desk.stack, placed.term);
    if at.Some? && placed.term !in desk.settled && placed.rect.width > 0 && placed.rect.height > 0 {
      ArrangedKeepsTerm(desk.stack[at.value], placed, area, shrink);
      var changed := desk.stack[at.value := Arranged(desk.stack[at.value], placed, area, shrink)];
      SameTerms(desk.stack, changed, lower, upper);
      assert Apart(changed) by { StayApart(desk.stack, changed); }
      RaisedOrder(changed, at.value, lower, upper);
    }
  }

  lemma SameTerms(stack: seq<Window>, changed: seq<Window>, lower: TermId, upper: TermId)
    requires |changed| == |stack| && forall i :: 0 <= i < |stack| ==> changed[i].term == stack[i].term
    ensures Below(changed, lower, upper) <==> Below(stack, lower, upper)
    ensures Has(changed, lower) <==> Has(stack, lower)
  {
    if Below(stack, lower, upper) {
      var i, j :| 0 <= i < j < |stack| && stack[i].term == lower && stack[j].term == upper;
      assert changed[i].term == lower && changed[j].term == upper;
    }
    if Has(stack, lower) {
      var i :| 0 <= i < |stack| && stack[i].term == lower;
      assert changed[i].term == lower;
    }
  }

  lemma StayApart(stack: seq<Window>, changed: seq<Window>)
    requires Apart(stack) && |changed| == |stack| && forall i :: 0 <= i < |stack| ==> changed[i].term == stack[i].term
    ensures Apart(changed)
  {
  }

  lemma RaisedOrder(stack: seq<Window>, at: nat, lower: TermId, upper: TermId)
    requires at < |stack| && Apart(stack)
    ensures Has(Raised(stack, at), lower) <==> Has(stack, lower)
    ensures var term := stack[at].term;
      Below(Raised(stack, at), lower, upper) <==>
        if upper == term then lower != upper && Has(stack, lower) else lower != term && Below(stack, lower, upper)
  {
    RaisedHas(stack, at, lower);
    StandsAt(stack, at);
    if upper == stack[at].term {
      TopIsOver(stack, at, lower);
    } else {
      OthersStand(stack, at, lower, upper);
    }
  }

  lemma StandsAt(stack: seq<Window>, at: nat)
    requires at < |stack| && Apart(stack)
    ensures forall i :: 0 <= i < |stack| ==> (stack[i].term == stack[at].term <==> i == at)
  {
  }

  lemma RaisedHas(stack: seq<Window>, at: nat, term: TermId)
    requires at < |stack|
    ensures Has(Raised(stack, at), term) <==> Has(stack, term)
  {
    var raised, top := Raised(stack, at), |stack| - 1;
    RaisedAt(stack, at);
    hide Raised;
    if Has(raised, term) {
      var i :| 0 <= i < |stack| && raised[i].term == term;
      assert stack[if i < at then i else if i < top then i + 1 else at].term == term;
    }
    if Has(stack, term) {
      var i :| 0 <= i < |stack| && stack[i].term == term;
      assert raised[if i < at then i else if i > at then i - 1 else top].term == term;
    }
  }

  /** What is raised is over all else. */
  lemma TopIsOver(stack: seq<Window>, at: nat, lower: TermId)
    requires at < |stack| && Apart(stack)
    ensures Below(Raised(stack, at), lower, stack[at].term) <==> lower != stack[at].term && Has(stack, lower)
  {
    var raised, top := Raised(stack, at), |stack| - 1;
    RaisedHas(stack, at, lower);
    RaisedAt(stack, at);
    RaisedKeeps(stack, at);
    StandsAt(raised, top);
    hide Raised, Apart;
    if Below(raised, lower, stack[at].term) {
      var i, j :| 0 <= i < j <= top && raised[i].term == lower && raised[j].term == stack[at].term;
    }
    if lower != stack[at].term && Has(raised, lower) {
      var i :| 0 <= i < |stack| && raised[i].term == lower;
      assert i < top && raised[top].term == stack[at].term;
    }
  }

  /** Where what stands there after a raise stood before it. */
  lemma CameFrom(stack: seq<Window>, at: nat, j: nat) returns (i: nat)
    requires at < |stack| && j < |stack|
    ensures i == if j < at then j else if j < |stack| - 1 then j + 1 else at
    ensures |Raised(stack, at)| == |stack| && i < |stack| && Raised(stack, at)[j] == stack[i]
  {
    i := if j < at then j else if j < |stack| - 1 then j + 1 else at;
  }

  /** And the others stand as they stood. */
  lemma OthersStand(stack: seq<Window>, at: nat, lower: TermId, upper: TermId)
    requires at < |stack| && Apart(stack) && upper != stack[at].term
    ensures Below(Raised(stack, at), lower, upper) <==> lower != stack[at].term && Below(stack, lower, upper)
  {
    hide Raised, Apart;
    if Below(Raised(stack, at), lower, upper) {
      var i, j :| 0 <= i < j < |Raised(stack, at)| && Raised(stack, at)[i].term == lower && Raised(stack, at)[j].term == upper;
      StoodBelow(stack, at, i, j);
    }
    if lower != stack[at].term && Below(stack, lower, upper) {
      var i, j :| 0 <= i < j < |stack| && stack[i].term == lower && stack[j].term == upper;
      StandsBelow(stack, at, i, j);
    }
  }

  lemma StoodBelow(stack: seq<Window>, at: nat, i: nat, j: nat)
    requires at < |stack| && Apart(stack) && i < j < |Raised(stack, at)| && Raised(stack, at)[j].term != stack[at].term
    ensures Raised(stack, at)[i].term != stack[at].term
    ensures Below(stack, Raised(stack, at)[i].term, Raised(stack, at)[j].term)
  {
    var _ := CameFrom(stack, at, 0);
    var k := CameFrom(stack, at, i);
    var l := CameFrom(stack, at, j);
    StandsAt(stack, at);
    hide Raised, Apart;
    assert 0 <= k < l < |stack|;
  }

  lemma StandsBelow(stack: seq<Window>, at: nat, i: nat, j: nat)
    requires at < |stack| && i < j < |stack| && i != at && j != at
    ensures Below(Raised(stack, at), stack[i].term, stack[j].term)
  {
    var k, l := if i < at then i else i - 1, if j < at then j else j - 1;
    var _ := CameFrom(stack, at, k);
    var _ := CameFrom(stack, at, l);
    hide Raised;
    assert 0 <= k < l < |Raised(stack, at)|;
  }

  /** The placement that raises a terminal's window, or -1: the first to name it, unless it says nobody ever placed it. */
  function RaisedBy(desk: Desk, placements: Arrangement, modal: bool, term: TermId): int {
    var first := FirstFor(placements, term);
    if modal || first < 0 || term in desk.settled || placements[first].rect.width <= 0 || placements[first].rect.height <= 0
    then -1 else first
  }

  /**
   The order of the stack afterwards: raised windows over those that are not, in the order of their placements, and
   the others as they stood. With something modal in front nothing is raised, and all stand as they stood.
   */
  lemma {:induction false} StackIsOrdered(desk: Desk, placements: Arrangement, area: Rect, shrink: bool, modal: bool,
                                          lower: TermId, upper: TermId)
    requires area.width >= 0 && area.height >= 0 && Apart(desk.stack)
    requires Has(desk.stack, lower) && Has(desk.stack, upper) && lower != upper
    ensures var after := PlacedAll(desk, placements, area, shrink, modal);
      var r, s := RaisedBy(desk, placements, modal, lower), RaisedBy(desk, placements, modal, upper);
      && Apart(after.stack) && Has(after.stack, lower) && Has(after.stack, upper)
      && (Below(after.stack, lower, upper) <==> r < s || (r == s == -1 && Below(desk.stack, lower, upper)))
      && (modal ==> (Below(after.stack, lower, upper) <==> Below(desk.stack, lower, upper)))
  {
    hide PlacedOne, Apart, Shows, Has, Below;
    if placements != [] {
      var n := |placements| - 1;
      StackIsOrdered(desk, placements[..n], area, shrink, modal, lower, upper);
      var mid, last := PlacedAll(desk, placements[..n], area, shrink, modal), placements[n];
      OneOrder(mid, last, area, shrink, modal, lower, upper);
      OneOrder(mid, last, area, shrink, modal, upper, lower);
      PlacedOneKeeps(mid, last, area, shrink, modal);
      SettledByName(desk, placements[..n], area, shrink, modal, lower);
      SettledByName(desk, placements[..n], area, shrink, modal, upper);
      HasShowing(mid.stack, lower);
      HasShowing(mid.stack, upper);
      hide PlacedAll, Showing;
      OneOrOther(mid.stack, lower, upper);
    }
  }

  lemma SettledByName(desk: Desk, placements: Arrangement, area: Rect, shrink: bool, modal: bool, term: TermId)
    requires area.width >= 0 && area.height >= 0 && Apart(desk.stack) && Has(desk.stack, term)
    ensures term in PlacedAll(desk, placements, area, shrink, modal).settled <==> term in desk.settled || FirstFor(placements, term) >= 0
  {
    var i :| 0 <= i < |desk.stack| && desk.stack[i].term == term;
    assert Shows(desk.stack, desk.stack[i]);
    EachIsPlaced(desk, placements, area, shrink, modal, desk.stack[i]);
  }

  lemma HasShowing(stack: seq<Window>, term: TermId)
    ensures Has(stack, term) <==> Showing(stack, term).Some?
  {
  }

  lemma OneOrOther(stack: seq<Window>, lower: TermId, upper: TermId)
    requires Apart(stack) && Has(stack, lower) && Has(stack, upper) && lower != upper
    ensures Below(stack, lower, upper) <==> !Below(stack, upper, lower)
  {
    var i :| 0 <= i < |stack| && stack[i].term == lower;
    var j :| 0 <= j < |stack| && stack[j].term == upper;
    assert i < j ==> Below(stack, lower, upper);
    assert j < i ==> Below(stack, upper, lower);
  }

  // ------------------------------------------------------------- there and back

  /** A place in the stack has sixteen bits. */
  const STACK_MAX := 0x10000

  /** `capture_layout`: the windows from the bottom of the stack up, each with the share of a tiling it has, if any. */
  function Captured(stack: seq<Window>, shares: seq<Share>): (arrangement: Arrangement)
    requires |shares| == |stack|
    ensures |arrangement| == |stack| && (|stack| <= STACK_MAX ==> Ascending(arrangement))
  {
    seq(|stack|, i requires 0 <= i < |stack| =>
      Placement(stack[i].term, stack[i].bounds, i % STACK_MAX, stack[i].zoomed, shares[i]))
  }

  /** A window inside the desktop or filling it, and a share that is its own if it has one. */
  predicate OwnShare(window: Window, share: Share, area: Rect) {
    && window.bounds.width > 0 && window.bounds.height > 0
    && (if window.zoomed then window.bounds == area
        else Within(window.bounds, area) && (share == NO_SHARE || share == ExactShare(window.bounds, area)))
  }

  /** The same terminal, in the same place, zoomed or not. */
  predicate Matches(window: Window, other: Window) {
    window.term == other.term && window.bounds == other.bounds && window.zoomed == other.zoomed
  }

  /** A placement that puts a window back where it was. */
  predicate PutsBack(placed: Placement, was: Window, area: Rect, shrink: bool)
    requires area.width >= 0 && area.height >= 0
  {
    && placed.term == was.term && placed.zoomed == was.zoomed && placed.rect.width > 0 && placed.rect.height > 0
    && (if was.zoomed then was.bounds == area else RestoredBounds(placed, area, shrink) == was.bounds)
  }

  lemma ArrangedMatches(window: Window, placed: Placement, was: Window, area: Rect, shrink: bool)
    requires area.width >= 0 && area.height >= 0 && PutsBack(placed, was, area, shrink) && window.term == was.term
    ensures Matches(Arranged(window, placed, area, shrink), was)
  {
    hide RestoredBounds;
  }

  /**
   After the first `k` placements the top `k` windows are those captured, in order and in place, and settled; and
   what lies under them has not been placed.
   */
  predicate Halfway(desk: Desk, was: seq<Window>, k: nat)
    requires k <= |was|
  {
    && |desk.stack| == |was| && Apart(desk.stack)
    && (forall j :: |was| - k <= j < |was| ==> Matches(desk.stack[j], was[j - (|was| - k)]))
    && (forall i :: 0 <= i < k ==> was[i].term in desk.settled)
    && (forall i :: k <= i < |was| ==> was[i].term !in desk.settled && Showing(desk.stack, was[i].term).Some?)
  }

  lemma NextIsBelow(desk: Desk, was: seq<Window>, k: nat)
    requires k < |was| && Apart(was) && Halfway(desk, was, k)
    ensures Showing(desk.stack, was[k].term).value < |was| - k
  {
    var at := Showing(desk.stack, was[k].term).value;
    assert at >= |was| - k ==> Matches(desk.stack[at], was[at - (|was| - k)]);
  }

  lemma HalfwayStep(desk: Desk, was: seq<Window>, all: Arrangement, k: nat, area: Rect, shrink: bool)
    requires area.width >= 0 && area.height >= 0 && k < |was| == |all|
    requires Apart(was) && Halfway(desk, was, k) && PutsBack(all[k], was[k], area, shrink)
    ensures Halfway(PlacedOne(desk, all[k], area, shrink, false), was, k + 1)
  {
    NextIsBelow(desk, was, k);
    var at := Showing(desk.stack, was[k].term).value;
    ArrangedMatches(desk.stack[at], all[k], was[k], area, shrink);
    PlacedOnTop(desk, all[k], at, area, shrink);
    var window := Arranged(desk.stack[at], all[k], area, shrink);
    hide Arranged, PutsBack, PlacedOne, Showing, Raised, Matches, Apart, Halfway;
    HalfwayRaised(desk, was, k, at, window);
  }

  lemma PlacedOnTop(desk: Desk, placed: Placement, at: nat, area: Rect, shrink: bool)
    requires area.width >= 0 && area.height >= 0 && Showing(desk.stack, placed.term) == Some(at) && placed.term !in desk.settled
    requires placed.rect.width > 0 && placed.rect.height > 0
    ensures PlacedOne(desk, placed, area, shrink, false) ==
      Desk(Raised(desk.stack[at := Arranged(desk.stack[at], placed, area, shrink)], at), desk.settled + {placed.term})
  {
    hide Arranged, Showing, Raised;
  }

  /** The next window put in its place and on top. */
  lemma HalfwayRaised(desk: Desk, was: seq<Window>, k: nat, at: nat, window: Window)
    requires k < |was| && Apart(was) && Halfway(desk, was, k) && at < |was| - k
    requires desk.stack[at].term == was[k].term && Matches(window, was[k])
    ensures Halfway(Desk(Raised(desk.stack[at := window], at), desk.settled + {was[k].term}), was, k + 1)
  {
    var changed, n := desk.stack[at := window], |was|;
    var raised := Raised(changed, at);
    RaisedKeeps(changed, at);
    hide Apart, Showing;
    RaisedAt(changed, at);
    hide Raised;
    forall j | n - k - 1 <= j < n ensures Matches(raised[j], was[j - (n - k - 1)]) {
      if j < n - 1 { assert Matches(desk.stack[j + 1], was[j + 1 - (n - k)]); }
    }
    forall i | k + 1 <= i < n ensures was[i].term !in desk.settled + {was[k].term} && Showing(raised, was[i].term).Some? {
      assert was[i].term != was[k].term by { OthersDiffer(was, k, i); }
      var j := Showing(desk.stack, was[i].term).value;
      assert Shows(changed, changed[j]);
      assert Shows(raised, changed[j]);
    }
  }

  lemma RaisedAt(stack: seq<Window>, at: nat)
    requires at < |stack|
    ensures |Raised(stack, at)| == |stack|
    ensures forall j :: 0 <= j < |stack| ==>
      Raised(stack, at)[j] == if j < at then stack[j] else if j < |stack| - 1 then stack[j + 1] else stack[at]
  {
  }

  lemma OthersDiffer(was: seq<Window>, k: nat, i: nat)
    requires Apart(was) && k < i < |was|
    ensures was[i].term != was[k].term
  {
  }

  lemma {:induction false} HalfwayThere(bare: Desk, was: seq<Window>, all: Arrangement, area: Rect, shrink: bool, k: nat)
    requires area.width >= 0 && area.height >= 0 && |all| == |was| && k <= |was|
    requires Apart(was) && forall i :: 0 <= i < |was| ==> PutsBack(all[i], was[i], area, shrink)
    requires Halfway(bare, was, 0)
    ensures Halfway(PlacedAll(bare, all[..k], area, shrink, false), was, k)
  {
    hide PlacedOne, PutsBack, Showing, Halfway;
    if k == 0 {
      assert all[..0] == [];
    } else {
      HalfwayThere(bare, was, all, area, shrink, k - 1);
      assert all[..k][..k - 1] == all[..k - 1];
      HalfwayStep(PlacedAll(bare, all[..k - 1], area, shrink, false), was, all, k - 1, area, shrink);
    }
  }

  /** Windows of the same terminals, standing anyhow, zoomed or not, and none of them placed yet. */
  predicate Unplaced(bare: Desk, was: seq<Window>) {
    && |bare.stack| == |was| && Apart(bare.stack)
    && forall i :: 0 <= i < |was| ==> was[i].term !in bare.settled && Showing(bare.stack, was[i].term).Some?
  }

  /** Every window in its place, zoomed or not, the stack in its order, and all of it settled. */
  predicate BackInPlace(after: Desk, was: seq<Window>) {
    && |after.stack| == |was| && Apart(after.stack)
    && forall i :: 0 <= i < |was| ==> Matches(after.stack[i], was[i]) && was[i].term in after.settled
  }

  lemma LaidBackDown(bare: Desk, was: seq<Window>, all: Arrangement, area: Rect, shrink: bool)
    requires area.width >= 0 && area.height >= 0 && |all| == |was| && Ascending(all)
    requires Apart(was) && Unplaced(bare, was) && forall i :: 0 <= i < |was| ==> PutsBack(all[i], was[i], area, shrink)
    ensures BackInPlace(PlacedAll(bare, LowestFirst(all), area, shrink, false), was)
  {
    hide Halfway, Unplaced, BackInPlace, PutsBack, PlacedAll, LowestFirst, Ascending, Apart;
    SortedStays(all);
    NothingPlaced(bare, was);
    HalfwayThere(bare, was, all, area, shrink, |was|);
    assert all[..|was|] == all;
    AllPlaced(PlacedAll(bare, all, area, shrink, false), was);
  }

  lemma NothingPlaced(bare: Desk, was: seq<Window>)
    requires Unplaced(bare, was)
    ensures Halfway(bare, was, 0)
  {
    hide Showing, Matches, Apart;
  }

  lemma AllPlaced(after: Desk, was: seq<Window>)
    requires Halfway(after, was, |was|)
    ensures BackInPlace(after, was)
  {
    hide Showing, Matches, Apart;
  }

  /**
   An arrangement captured and laid back down on a desktop of the same size, with nothing in front of it and the
   same terminals' windows standing on it anyhow, is as it was: every window in its place and zoomed or not, the
   stack in its order, and every terminal settled.
   */
  lemma CaptureThenRestore(bare: Desk, was: seq<Window>, shares: seq<Share>, area: Rect, shrink: bool)
    requires area.width >= 0 && area.height >= 0 && |shares| == |was| <= STACK_MAX && Apart(was) && Unplaced(bare, was)
    requires forall i :: 0 <= i < |was| ==> OwnShare(was[i], shares[i], area)
    ensures BackInPlace(PlacedAll(bare, LowestFirst(Captured(was, shares)), area, shrink, false), was)
  {
    var all := Captured(was, shares);
    hide OwnShare, PutsBack, Unplaced, BackInPlace, PlacedAll, LowestFirst, Ascending;
    forall i | 0 <= i < |was| ensures PutsBack(all[i], was[i], area, shrink) {
      OwnPutsBack(all[i], was[i], shares[i], area, shrink);
    }
    LaidBackDown(bare, was, all, area, shrink);
  }

  lemma OwnPutsBack(placed: Placement, was: Window, share: Share, area: Rect, shrink: bool)
    requires area.width >= 0 && area.height >= 0 && OwnShare(was, share, area)
    requires placed.term == was.term && placed.rect == was.bounds && placed.zoomed == was.zoomed && placed.tile == share
    ensures PutsBack(placed, was, area, shrink)
  {
    if !was.zoomed {
      if share == NO_SHARE {
        FloatingComesInside(placed, area, shrink);
        StaysExactlyIfInside(placed, area, shrink);
      } else {
        T.ExactEdges(was.bounds.x - area.x, was.bounds.width, area.width);
        T.ExactEdges(was.bounds.y - area.y, was.bounds.height, area.height);
        hide T.TileEdge;
      }
    }
  }

  /** An arrangement as it is told to the server and told back: each rectangle in sixteen bits, each share in ten-thousandths. */
  function OverTheWire(arrangement: Arrangement): (carried: Arrangement)
    ensures |carried| == |arrangement|
  {
    seq(|arrangement|, i requires 0 <= i < |arrangement| =>
      arrangement[i].(rect := Narrowed(arrangement[i].rect), tile := Carried(arrangement[i].tile)))
  }

  lemma WiredAt(arrangement: Arrangement, i: nat)
    requires i < |arrangement|
    ensures OverTheWire(arrangement)[i] ==
      arrangement[i].(rect := Narrowed(arrangement[i].rect), tile := Carried(arrangement[i].tile))
  {
    hide Narrowed, Carried;
  }

  lemma WiredAscends(arrangement: Arrangement)
    ensures Ascending(arrangement) ==> Ascending(OverTheWire(arrangement))
  {
    hide Narrowed, Carried;
  }

  lemma NoShareCarried()
    ensures Carried(NO_SHARE) == NO_SHARE
  {
  }

  /** A window that comes back from the wire: placed at all, and then where it was. */
  predicate ComesBack(window: Window, share: Share, area: Rect)
    requires OwnShare(window, share, area)
  {
    && NarrowSize(window.bounds.width) > 0 && NarrowSize(window.bounds.height) > 0
    && (window.zoomed || if share == NO_SHARE then FloatKept(window.bounds, area) else TileKept(window.bounds, area))
  }

  lemma CarriedPutsBack(placed: Placement, was: Window, share: Share, area: Rect, shrink: bool)
    requires area.width >= 0 && area.height >= 0 && OwnShare(was, share, area)
    requires placed.term == was.term && placed.rect == Narrowed(was.bounds) && placed.zoomed == was.zoomed
    requires placed.tile == Carried(share)
    ensures ComesBack(was, share, area) <==> PutsBack(placed, was, area, shrink)
  {
    NoShareCarried();
    assert !Filled(NO_SHARE);
    hide Carried, ExactShare, TileKept, FloatKept, RestoredBounds, NarrowSize, NarrowPlace, Filled;
    if !was.zoomed {
      if share == NO_SHARE {
        CarriedWindowComesBackExactly(was.bounds, placed, area, shrink);
      } else {
        CarriedTileComesBackExactly(was.bounds, placed, area, shrink);
      }
    }
  }

  /** The same of what `apply_layout` is really given: the arrangement has been to the server and back. */
  lemma CaptureCarryRestore(bare: Desk, was: seq<Window>, shares: seq<Share>, area: Rect, shrink: bool)
    requires area.width >= 0 && area.height >= 0 && |shares| == |was| <= STACK_MAX && Apart(was) && Unplaced(bare, was)
    requires forall i :: 0 <= i < |was| ==> OwnShare(was[i], shares[i], area) && ComesBack(was[i], shares[i], area)
    ensures BackInPlace(PlacedAll(bare, LowestFirst(OverTheWire(Captured(was, shares))), area, shrink, false), was)
  {
    var all := OverTheWire(Captured(was, shares));
    WiredAscends(Captured(was, shares));
    hide Carried, Narrowed, OwnShare, ComesBack, PutsBack, Unplaced, BackInPlace, PlacedAll, LowestFirst, Ascending, OverTheWire;
    forall i | 0 <= i < |was| ensures PutsBack(all[i], was[i], area, shrink) {
      WiredAt(Captured(was, shares), i);
      CarriedPutsBack(all[i], was[i], shares[i], area, shrink);
    }
    LaidBackDown(bare, was, all, area, shrink);
  }

  /** And then nothing that is laid down later, with whatever in front, moves any of it until the desktop is forgotten. */
  lemma BackForGood(after: Desk, was: seq<Window>, later: Arrangement, area: Rect, shrink: bool, modal: bool, i: nat)
    requires area.width >= 0 && area.height >= 0 && BackInPlace(after, was) && i < |was|
    ensures Shows(PlacedAll(after, later, area, shrink, modal).stack, after.stack[i]) && Matches(after.stack[i], was[i])
  {
    assert Shows(after.stack, after.stack[i]);
    SettledStay(after, later, area, shrink, modal, after.stack[i]);
  }

  // ------------------------------------------------------------- the desktop

  class ClientDesktop {
    var stack: seq<Window>
    var settled: set<TermId>
    var area: Rect
    var shrink: bool

    predicate Valid()
      reads this
    {
      Apart(stack) && area.width >= 0 && area.height >= 0
    }

    function Standing(): Desk
      reads this
    {
      Desk(stack, settled)
    }

    constructor (area: Rect, shrink: bool)
      requires area.width >= 0 && area.height >= 0
      ensures Valid() && Standing() == Desk([], {}) && this.area == area && this.shrink == shrink
    {
      stack, settled := [], {};
      this.area, this.shrink := area, shrink;
    }

    method CaptureLayout(shares: seq<Share>) returns (arrangement: Arrangement)
      requires |shares| == |stack|
      ensures arrangement == Captured(stack, shares)
    {
      arrangement := [];
      for i := 0 to |stack|
        invariant arrangement == Captured(stack, shares)[..i]
      {
        arrangement := arrangement + [Placement(stack[i].term, stack[i].bounds, |arrangement| % STACK_MAX, stack[i].zoomed, shares[i])];
      }
    }

    method ApplyLayout(arrangement: Arrangement, modal: bool)
      requires Valid()
      modifies this
      ensures Valid() && area == old(area) && shrink == old(shrink)
      ensures Standing() == PlacedAll(old(Standing()), LowestFirst(arrangement), area, shrink, modal)
      ensures forall w :: Shows(old(stack), w) && w.term in old(settled) ==> Shows(stack, w)
    {
      var ordered := LowestFirst(arrangement);
      AllSettledStay(Standing(), ordered, area, shrink, modal);
      PlacedNone(Standing(), ordered[..0], area, shrink, modal);
      ghost var start := Standing();
      hide PlacedOne, PlacedAll, LowestFirst, Shows, Apart, Arranged, Showing;
      for i := 0 to |ordered|
        invariant Valid() && area == old(area) && shrink == old(shrink)
        invariant Standing() == PlacedAll(start, ordered[..i], area, shrink, modal)
      {
        PlacedOneKeeps(Standing(), ordered[i], area, shrink, modal);
        PlacedAllMore(start, ordered, i, area, shrink, modal);
        Place(ordered[i], modal);
      }
      assert ordered[..|ordered|] == ordered;
    }

    method Place(placed: Placement, modal: bool)
      requires Valid()
      modifies this
      ensures area == old(area) && shrink == old(shrink)
      ensures Standing() == PlacedOne(old(Standing()), placed, area, shrink, modal)
    {
      var at := Showing(stack, placed.term);
      if at.None? { return; }
      if placed.term in settled { return; }
      settled := settled + {placed.term};
      if placed.rect.width <= 0 || placed.rect.height <= 0 { return; }
      var window := stack[at.value];
      if placed.zoomed {
        window := if window.zoomed then window.(bounds := area) else ToggledZoom(window, area);
      } else {
        if window.zoomed { window := ToggledZoom(window, area); }
        window := window.(bounds := RestoredBounds(placed, area, shrink));
      }
      stack := stack[at.value := window];
      if !modal { stack := Raised(stack, at.value); }
    }

    /** The windows taken down, and with them the memory of which had been placed. */
    method ForgetTerminals()
      requires Valid()
      modifies this
      ensures Valid() && Standing() == Desk([], {}) && area == old(area) && shrink == old(shrink)
    {
      stack, settled := [], {};
    }

    method Opened(window: Window)
      requires Valid() && Showing(stack, window.term).None?
      modifies this
      ensures Valid() && stack == old(stack) + [window] && settled == old(settled) - {window.term}
      ensures area == old(area) && shrink == old(shrink)
    {
      stack := stack + [window];
      settled := settled - {window.term};
    }
  }
}
