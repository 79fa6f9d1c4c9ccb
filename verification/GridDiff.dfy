/**
 The diff (src/common/grid_delta.cpp): two terminals in, the ops of a delta out. The one claim is that applying
 them to a holder of the first leaves a holder of the second, exactly; everything else in these loops, the
 scroll search by hashes and the partition of a row by cost, is about bytes, and no part of it is trusted.
 */
module GridDiff {
  import opened Wrappers
  import opened Grid
  import opened GridDelta

  // ------------------------------------------------------------- ops that only paint

  predicate Paints(op: GridOp, columns: nat, rows: nat) {
    (op.Cells? || op.Scroll?) && Fits(op, columns, rows)
  }

  predicate AllPaint(ops: seq<GridOp>, columns: nat, rows: nat) {
    forall i :: 0 <= i < |ops| ==> Paints(ops[i], columns, rows)
  }

  function PaintOne(op: GridOp, grid: seq<Row>, columns: nat): (out: seq<Row>)
    requires Rectangular(grid, columns, |grid|) && Paints(op, columns, |grid|)
    ensures Rectangular(out, columns, |grid|)
  {
    if op.Scroll? then
      ShiftKeepsRectangle(grid, columns, |grid|, op.top, op.bottom, op.lines);
      ShiftRows(grid, columns, op.top, op.bottom, op.lines)
    else
      grid[op.row := Overlay(grid[op.row], op.column, FromRuns(op.runs))]
  }

  function Paint(ops: seq<GridOp>, grid: seq<Row>, columns: nat): (out: seq<Row>)
    requires Rectangular(grid, columns, |grid|) && AllPaint(ops, columns, |grid|)
    ensures Rectangular(out, columns, |grid|)
  {
    if ops == [] then grid
    else PaintOne(ops[|ops| - 1], Paint(ops[..|ops| - 1], grid, columns), columns)
  }

  lemma {:induction false} PaintAppend(a: seq<GridOp>, b: seq<GridOp>, grid: seq<Row>, columns: nat)
    requires Rectangular(grid, columns, |grid|) && AllPaint(a, columns, |grid|) && AllPaint(b, columns, |grid|)
    ensures AllPaint(a + b, columns, |grid|)
    ensures Paint(a + b, grid, columns) == Paint(b, Paint(a, grid, columns), columns)
  {
    hide PaintOne, Paints, Rectangular;
    if b == [] {
      assert a + b == a;
    } else {
      PaintAppend(a, b[..|b| - 1], grid, columns);
      assert (a + b)[..|a + b| - 1] == a + b[..|b| - 1];
    }
  }

  lemma {:induction false} PaintFits(ops: seq<GridOp>, columns: nat, rows: nat)
    requires AllPaint(ops, columns, rows)
    ensures AllFit(ops, columns, rows) && SizeAfter(ops, columns, rows) == (columns, rows)
  {
    if ops != [] { PaintFits(ops[1..], columns, rows); }
  }

  /** On a state, painting changes the grid and nothing else. */
  lemma {:induction false} PaintPerforms(ops: seq<GridOp>, state: GridState)
    requires Coherent(state) && AllPaint(ops, state.columns, state.rows)
    ensures AllFit(ops, state.columns, state.rows)
    ensures PerformAll(ops, state) == state.(grid := Paint(ops, state.grid, state.columns))
  {
    hide PaintOne, Coherent, Fits, Perform;
    PaintFits(ops, state.columns, state.rows);
    CoherentIsRectangular(state);
    if ops != [] {
      var front, last := ops[..|ops| - 1], ops[|ops| - 1];
      PaintPerforms(front, state);
      var mid := PerformAll(front, state);
      PaintOnePerforms(last, mid);
      PerformOne(last, mid);
      PerformAllAppend(front, [last], state);
      assert front + [last] == ops;
    }
  }

  lemma PaintOnePerforms(op: GridOp, state: GridState)
    requires Coherent(state) && Paints(op, state.columns, state.rows)
    ensures Perform(op, state) == state.(grid := PaintOne(op, state.grid, state.columns))
  {
    hide ShiftRows, Overlay, FromRuns, HistoryCoherent;
  }

  // ------------------------------------------------------------- one changed row

  predicate RowOp(op: GridOp, row: nat, columns: nat) {
    op.Cells? && op.row == row && op.column + TotalLength(op.runs) <= columns <= SIZE_MAX
  }

  predicate RowOps(ops: seq<GridOp>, row: nat, columns: nat) {
    forall i :: 0 <= i < |ops| ==> RowOp(ops[i], row, columns)
  }

  function PaintRow(ops: seq<GridOp>, row: nat, cells: Row): (out: Row)
    requires RowOps(ops, row, |cells|)
    ensures |out| == |cells|
  {
    if ops == [] then cells
    else
      var last := ops[|ops| - 1];
      Overlay(PaintRow(ops[..|ops| - 1], row, cells), last.column, Expand(last.runs))
  }

  lemma {:induction false} PaintRowPaints(ops: seq<GridOp>, row: nat, grid: seq<Row>, columns: nat)
    requires Rectangular(grid, columns, |grid|) && row < |grid| && RowOps(ops, row, columns)
    ensures AllPaint(ops, columns, |grid|)
    ensures Paint(ops, grid, columns) == grid[row := PaintRow(ops, row, grid[row])]
  {
    if ops != [] {
      PaintRowPaints(ops[..|ops| - 1], row, grid, columns);
      assert RowOp(ops[|ops| - 1], row, columns);
    }
  }

  function RunBytes(cell: Cell): nat { 16 + |cell.grapheme| }

  const CELLS_OP_BYTES := 9

  /** The cell the mirror lacks at a column, if it lacks one. */
  function Lacking(mirror: Row, wanted: Row, c: int): Option<Cell> {
    if 0 <= c < |mirror| && c < |wanted| && mirror[c] != wanted[c] then Some(wanted[c]) else None
  }

  /** The cells of a stretch, if the mirror has them. */
  function Held(mirror: Row, wanted: Row, a: int, b: int): Option<Row> {
    if 0 <= a <= b <= |mirror| && b <= |wanted| && mirror[a..b] == wanted[a..b] then Some(wanted[a..b]) else None
  }

  /** Where the run of equal cells ends that a column lies in. */
  function RunEnd(wanted: Row, a: nat): (end: nat)
    requires a < |wanted|
    ensures a < end <= |wanted| && (forall c :: a <= c < end ==> wanted[c] == wanted[a])
    ensures end < |wanted| ==> wanted[end] != wanted[end - 1]
    decreases |wanted| - a
  {
    if a + 1 < |wanted| && wanted[a + 1] == wanted[a] then RunEnd(wanted, a + 1) else a + 1
  }

  lemma {:induction false} RunEndsThere(wanted: Row, a: nat, end: nat)
    requires a < end <= |wanted| && (forall c :: a <= c < end ==> wanted[c] == wanted[a])
    requires end < |wanted| ==> wanted[end] != wanted[a]
    ensures RunEnd(wanted, a) == end
    decreases end - a
  {
    if a + 1 < end {
      assert wanted[a + 1] == wanted[a];
      RunEndsThere(wanted, a + 1, end);
    }
  }

  lemma {:induction false} RunStops(wanted: Row, a: nat, m: nat)
    requires a < m < |wanted| && StartsRun(wanted, m)
    ensures RunEnd(wanted, a) <= m
    decreases m - a
  {
    if a + 1 < m && wanted[a + 1] == wanted[a] { RunStops(wanted, a + 1, m); }
  }

  predicate StartsRun(wanted: Row, a: nat) {
    a == 0 || a >= |wanted| || wanted[a] != wanted[a - 1]
  }

  /** What the cells of a gap cost to carry, by the runs that lie in it whole: sixteen bytes each and those of the character. */
  function GapCost(wanted: Row, a: nat, b: nat): nat
    requires a <= b <= |wanted|
    decreases b - a
  {
    if a == b then 0
    else
      var end := RunEnd(wanted, a);
      if end > b then 0
      else (if StartsRun(wanted, a) then 16 + |wanted[a].grapheme| else 0) + GapCost(wanted, end, b)
  }

  /** A run more, and a run not whole. */
  lemma {:induction false} GapGrows(wanted: Row, a: nat, m: nat, b: nat)
    requires a <= m < |wanted| && StartsRun(wanted, m) && m <= b < RunEnd(wanted, m)
    ensures GapCost(wanted, a, RunEnd(wanted, m)) == GapCost(wanted, a, m) + 16 + |wanted[m].grapheme|
    ensures GapCost(wanted, a, b) == GapCost(wanted, a, m)
    decreases m - a
  {
    if a < m {
      RunStops(wanted, a, m);
      GapGrows(wanted, RunEnd(wanted, a), m, b);
    }
  }

  lemma {:induction false} LongerCostsMore(wanted: Row, a: nat, b: nat, c: nat)
    requires a <= b <= c <= |wanted|
    ensures GapCost(wanted, a, b) <= GapCost(wanted, a, c)
    decreases b - a
  {
    if a < b {
      var end := RunEnd(wanted, a);
      if end <= b { LongerCostsMore(wanted, end, b, c); }
    }
  }

  lemma {:induction false} EarlierCostsMore(wanted: Row, a: nat, b: nat, c: nat)
    requires a <= b <= c <= |wanted|
    ensures GapCost(wanted, b, c) <= GapCost(wanted, a, c)
    decreases b - a
  {
    if a < b {
      var end := RunEnd(wanted, a);
      if end <= b {
        EarlierCostsMore(wanted, end, b, c);
      } else if b < c {
        InsideRun(wanted, a, b);
      }
    }
  }

  /** Further on in a run the same run ends there, and does not start there. */
  lemma InsideRun(wanted: Row, a: nat, b: nat)
    requires a < |wanted| && a < b < RunEnd(wanted, a)
    ensures RunEnd(wanted, b) == RunEnd(wanted, a) && !StartsRun(wanted, b)
  {
    var end := RunEnd(wanted, a);
    assert wanted[b] == wanted[a] && wanted[b - 1] == wanted[a];
    assert end < |wanted| ==> wanted[end] != wanted[end - 1] && wanted[end - 1] == wanted[a];
    RunEndsThere(wanted, b, end);
  }

  /** The span of one run of equal wanted cells, and what of it the mirror lacks. */
  method ChangedInRun(mirror: Row, wanted: Row, runFirst: nat)
    returns (runLast: nat, firstChanged: nat, lastChanged: nat)
    requires |mirror| == |wanted| && runFirst < |wanted|
    ensures runLast == RunEnd(wanted, runFirst)
    ensures firstChanged == runLast <==> Held(mirror, wanted, runFirst, runLast).Some?
    ensures firstChanged != runLast ==>
      && runFirst <= firstChanged < lastChanged <= runLast
      && Held(mirror, wanted, runFirst, firstChanged).Some? && Held(mirror, wanted, lastChanged, runLast).Some?
      && Lacking(mirror, wanted, firstChanged).Some? && Lacking(mirror, wanted, lastChanged - 1).Some?
  {
    runLast := runFirst + 1;
    while runLast < |wanted| && wanted[runFirst] == wanted[runLast]
      invariant runFirst < runLast <= |wanted| && forall c :: runFirst <= c < runLast ==> wanted[c] == wanted[runFirst]
    {
      runLast := runLast + 1;
    }
    RunEndsThere(wanted, runFirst, runLast);
    firstChanged, lastChanged := runLast, runFirst;
    for column := runFirst to runLast
      invariant firstChanged == runLast ==> forall c :: runFirst <= c < column ==> mirror[c] == wanted[c]
      invariant firstChanged != runLast ==>
        && runFirst <= firstChanged < lastChanged <= column
        && mirror[firstChanged] != wanted[firstChanged] && mirror[lastChanged - 1] != wanted[lastChanged - 1]
        && (forall c :: runFirst <= c < firstChanged || lastChanged <= c < column ==> mirror[c] == wanted[c])
    {
      if mirror[column] == wanted[column] { continue; }
      firstChanged := if firstChanged < column then firstChanged else column;
      lastChanged := column + 1;
    }
    if firstChanged != runLast {
      assert mirror[runFirst..runLast][firstChanged - runFirst] != wanted[runFirst..runLast][firstChanged - runFirst];
      assert mirror[runFirst..firstChanged] == wanted[runFirst..firstChanged];
      assert mirror[lastChanged..runLast] == wanted[lastChanged..runLast];
    } else {
      assert mirror[runFirst..runLast] == wanted[runFirst..runLast];
    }
  }

  /** `wanted` up to `n`, the mirror behind it. */
  function Blend(mirror: Row, wanted: Row, n: nat): (row: Row)
    requires n <= |mirror| == |wanted|
    ensures |row| == |mirror|
  {
    wanted[..n] + mirror[n..]
  }

  lemma BlendEnds(row: nat, mirror: Row, wanted: Row)
    requires |mirror| == |wanted|
    ensures Blend(mirror, wanted, 0) == mirror == PaintRow([], row, mirror) && Blend(mirror, wanted, |wanted|) == wanted
  {
  }

  lemma BlendSkips(mirror: Row, wanted: Row, a: nat, b: nat)
    requires a <= b <= |mirror| == |wanted| && Held(mirror, wanted, a, b).Some?
    ensures Blend(mirror, wanted, a) == Blend(mirror, wanted, b)
  {
    assert wanted[..b] == wanted[..a] + wanted[a..b];
    assert mirror[a..] == mirror[a..b] + mirror[b..];
  }

  /** No gap in the stretch costs more to carry than another op, which is nine bytes. */
  predicate Joined(mirror: Row, wanted: Row, first: int, last: int) {
    forall a: nat, b: nat :: first <= a <= b <= last && b <= |wanted| && Held(mirror, wanted, a, b).Some? ==> GapCost(wanted, a, b) <= 9
  }

  function EndOf(op: GridOp): nat
    requires op.Cells?
  {
    op.column + |Expand(op.runs)|
  }

  /** Cells that begin and end with one that the mirror has not, and carry no gap that is cheaper left out. */
  predicate Tight(op: GridOp, mirror: Row, wanted: Row) {
    && op.Cells? && Expand(op.runs) != []
    && Lacking(mirror, wanted, op.column).Some? && Lacking(mirror, wanted, EndOf(op) - 1).Some?
    && Joined(mirror, wanted, op.column, EndOf(op))
  }

  /** Ops in order, with a gap in between that costs more to carry than another op. */
  predicate Spaced(ops: seq<GridOp>, wanted: Row)
    requires forall i :: 0 <= i < |ops| ==> ops[i].Cells?
  {
    forall i :: 0 <= i < |ops| - 1 ==> SpacedFrom(ops[i], ops[i + 1].column, wanted)
  }

  predicate SpacedFrom(op: GridOp, next: nat, wanted: Row)
    requires op.Cells?
  {
    EndOf(op) <= next <= |wanted| && GapCost(wanted, EndOf(op), next) > 9
  }

  predicate AllTight(ops: seq<GridOp>, mirror: Row, wanted: Row) {
    forall i :: 0 <= i < |ops| ==> Tight(ops[i], mirror, wanted)
  }

  /** The ops of a row, if they are tight and spaced. */
  function TightOps(ops: seq<GridOp>, mirror: Row, wanted: Row): Option<seq<GridOp>> {
    if AllTight(ops, mirror, wanted) && Spaced(ops, wanted) then Some(ops) else None
  }

  /** Some span of a row begun, and the gap behind it as long as it is; the ops before it as they should be. */
  predicate Under(ops: seq<GridOp>, mirror: Row, wanted: Row, first: nat, last: nat, gap: nat, n: nat) {
    && first < last <= n <= |wanted| && Held(mirror, wanted, last, n).Some? && gap == GapCost(wanted, last, n)
    && Lacking(mirror, wanted, first).Some? && Lacking(mirror, wanted, last - 1).Some? && Joined(mirror, wanted, first, last)
    && AllTight(ops, mirror, wanted) && Spaced(ops, wanted)
    && (ops != [] ==> SpacedFrom(ops[|ops| - 1], first, wanted))
  }

  /** How far the row has been gone through, if all is as it should be: `span` says whether one is begun. */
  function Through(ops: seq<GridOp>, mirror: Row, wanted: Row, span: bool, first: nat, last: nat, gap: nat, n: nat): Option<nat> {
    if n <= |wanted| == |mirror| && StartsRun(wanted, n) && (if span then Under(ops, mirror, wanted, first, last, gap, n) else ops == [])
    then Some(n) else None
  }

  lemma RowStarts(mirror: Row, wanted: Row)
    requires |mirror| == |wanted|
    ensures Through([], mirror, wanted, false, 0, 0, 0, 0).Some?
  {
  }

  lemma SameRunFollows(ops: seq<GridOp>, mirror: Row, wanted: Row, span: bool, first: nat, last: nat, gap: nat, n: nat)
    requires Through(ops, mirror, wanted, span, first, last, gap, n).Some? && n < |wanted|
    requires Held(mirror, wanted, n, RunEnd(wanted, n)).Some?
    ensures Through(ops, mirror, wanted, span, first, last, if span then gap + RunBytes(wanted[n]) else gap, RunEnd(wanted, n)).Some?
  {
    if span {
      GapGrows(wanted, last, n, n);
      JoinEqual(mirror, wanted, last, n, RunEnd(wanted, n));
    }
    hide Held, Lacking, GapCost, Joined, AllTight, Spaced, SpacedFrom;
  }

  lemma SameThroughout(mirror: Row, wanted: Row, a: nat, b: nat)
    requires Held(mirror, wanted, a, b).Some?
    ensures b <= |mirror| && b <= |wanted| && forall c :: a <= c < b ==> mirror[c] == wanted[c]
  {
    forall c | a <= c < b ensures mirror[c] == wanted[c] { assert mirror[a..b][c - a] == mirror[c] && wanted[a..b][c - a] == wanted[c]; }
  }

  /** A stretch without a change in a span of changes is in one piece of it. */
  lemma HeldAvoids(mirror: Row, wanted: Row, a: nat, b: nat, c: nat)
    requires Held(mirror, wanted, a, b).Some? && Lacking(mirror, wanted, c).Some?
    ensures b <= c || c < a
  {
    SameThroughout(mirror, wanted, a, b);
  }

  /** In part of a run that does not begin it nothing lies whole; nor in any part that it goes on behind. */
  lemma PartOfRunIsFree(wanted: Row, n: nat, a: nat, b: nat)
    requires n < |wanted| && n <= a <= b < RunEnd(wanted, n)
    ensures GapCost(wanted, a, b) == 0
  {
    if n < a { InsideRun(wanted, n, a); }
  }

  lemma OneChangeIsJoined(mirror: Row, wanted: Row, n: nat, first: nat, last: nat)
    requires |mirror| == |wanted| && n < |wanted| && n <= first < last <= RunEnd(wanted, n)
    requires Lacking(mirror, wanted, first).Some? && Lacking(mirror, wanted, last - 1).Some?
    ensures Joined(mirror, wanted, first, last)
  {
    forall a: nat, b: nat | first <= a <= b <= last && b <= |wanted| && Held(mirror, wanted, a, b).Some?
      ensures GapCost(wanted, a, b) <= 9
    {
      if a < b {
        HeldAvoids(mirror, wanted, a, b, last - 1);
        PartOfRunIsFree(wanted, n, a, b);
      }
    }
  }

  lemma JoinedAcross(mirror: Row, wanted: Row, first: nat, last: nat, n: nat, next: nat, end: nat)
    requires |mirror| == |wanted| && first < last <= n < |wanted| && StartsRun(wanted, n)
    requires n <= next < end <= RunEnd(wanted, n) && GapCost(wanted, last, n) <= 9
    requires Lacking(mirror, wanted, last - 1).Some? && Lacking(mirror, wanted, next).Some? && Lacking(mirror, wanted, end - 1).Some?
    requires Joined(mirror, wanted, first, last)
    ensures Joined(mirror, wanted, first, end)
  {
    OneChangeIsJoined(mirror, wanted, n, next, end);
    GapGrows(wanted, last, n, next);
    forall a: nat, b: nat | first <= a <= b <= end && b <= |wanted| && Held(mirror, wanted, a, b).Some?
      ensures GapCost(wanted, a, b) <= 9
    {
      HeldAvoids(mirror, wanted, a, b, last - 1);
      HeldAvoids(mirror, wanted, a, b, next);
      if last <= a && b <= next {
        LongerCostsMore(wanted, a, b, next);
        EarlierCostsMore(wanted, last, a, next);
      }
    }
  }

  lemma SpanBegins(mirror: Row, wanted: Row, first: nat, last: nat, gap: nat, n: nat, next: nat, end: nat)
    requires Through([], mirror, wanted, false, first, last, gap, n).Some? && n < |wanted| && n <= next < end <= RunEnd(wanted, n)
    requires Lacking(mirror, wanted, next).Some? && Lacking(mirror, wanted, end - 1).Some?
    requires Held(mirror, wanted, end, RunEnd(wanted, n)).Some?
    ensures Through([], mirror, wanted, true, next, end, 0, RunEnd(wanted, n)).Some?
  {
    OneChangeIsJoined(mirror, wanted, n, next, end);
    RestOfRun(wanted, n, end);
    hide Held, Lacking, GapCost, Joined;
  }

  /** Behind a change in a run nothing is left of it that would cost anything. */
  lemma RestOfRun(wanted: Row, n: nat, end: nat)
    requires n < |wanted| && n < end <= RunEnd(wanted, n)
    ensures GapCost(wanted, end, RunEnd(wanted, n)) == 0 && StartsRun(wanted, RunEnd(wanted, n))
  {
    if end < RunEnd(wanted, n) { InsideRun(wanted, n, end); }
  }

  lemma SpanGoesOn(ops: seq<GridOp>, mirror: Row, wanted: Row, first: nat, last: nat, gap: nat, n: nat, next: nat, end: nat)
    requires Through(ops, mirror, wanted, true, first, last, gap, n).Some? && n < |wanted| && n <= next < end <= RunEnd(wanted, n)
    requires Lacking(mirror, wanted, next).Some? && Lacking(mirror, wanted, end - 1).Some?
    requires Held(mirror, wanted, end, RunEnd(wanted, n)).Some? && gap <= 9
    ensures Through(ops, mirror, wanted, true, first, end, 0, RunEnd(wanted, n)).Some?
  {
    JoinedAcross(mirror, wanted, first, last, n, next, end);
    RestOfRun(wanted, n, end);
    hide Held, Lacking, GapCost, Joined, AllTight, Spaced, SpacedFrom;
  }

  /** An op that carries a stretch of the row. */
  predicate Carries(op: GridOp, wanted: Row, first: nat, last: nat) {
    op.Cells? && op.column == first && first < last <= |wanted| && Expand(op.runs) == wanted[first..last]
  }

  lemma SpanIsTight(ops: seq<GridOp>, op: GridOp, mirror: Row, wanted: Row, first: nat, last: nat, gap: nat, n: nat)
    requires Through(ops, mirror, wanted, true, first, last, gap, n).Some? && Carries(op, wanted, first, last)
    ensures TightOps(ops + [op], mirror, wanted).Some? && EndOf(op) == last
  {
    hide Held, Lacking, GapCost, Joined, Expand;
  }

  lemma SpanIsSplit(ops: seq<GridOp>, op: GridOp, mirror: Row, wanted: Row, first: nat, last: nat, gap: nat, n: nat, next: nat, end: nat)
    requires Through(ops, mirror, wanted, true, first, last, gap, n).Some? && n < |wanted| && n <= next < end <= RunEnd(wanted, n)
    requires Carries(op, wanted, first, last) && gap > 9
    requires Lacking(mirror, wanted, next).Some? && Lacking(mirror, wanted, end - 1).Some?
    requires Held(mirror, wanted, end, RunEnd(wanted, n)).Some?
    ensures Through(ops + [op], mirror, wanted, true, next, end, 0, RunEnd(wanted, n)).Some?
  {
    SpanIsTight(ops, op, mirror, wanted, first, last, gap, n);
    OneChangeIsJoined(mirror, wanted, n, next, end);
    RestOfRun(wanted, n, end);
    GapGrows(wanted, last, n, next);
    hide Held, Lacking, GapCost, Joined, AllTight, Spaced, Expand;
  }

  lemma NothingToSend(mirror: Row, wanted: Row)
    ensures TightOps([], mirror, wanted).Some?
  {
  }

  method EmitSpan(ops: seq<GridOp>, row: nat, mirror: Row, wanted: Row, first: nat, last: nat) returns (out: seq<GridOp>)
    requires first < last <= |mirror| == |wanted| <= SIZE_MAX && RowOps(ops, row, |mirror|)
    requires PaintRow(ops, row, mirror) == Blend(mirror, wanted, first)
    ensures |out| == |ops| + 1 && out == ops + [out[|ops|]] && Carries(out[|ops|], wanted, first, last)
    ensures RowOps(out, row, |mirror|) && PaintRow(out, row, mirror) == Blend(mirror, wanted, last)
  {
    var runs := ToRuns(wanted[first..last]);
    out := ops + [Cells(row, first, runs)];
    assert out[..|ops|] == ops;
    assert Overlay(Blend(mirror, wanted, first), first, wanted[first..last]) == Blend(mirror, wanted, last) by {
      assert wanted[..last] == wanted[..first] + wanted[first..last];
    }
  }

  /**
   `emit_changed_row`: spans of wanted cells, split where carrying the unchanged cells between two changes
   costs more than another op. Laid over the mirror's row they give the wanted one; each begins and ends with a change,
   carries no gap that is cheaper left out, and leaves out none that is cheaper carried.
   */
  method EmitChangedRow(row: nat, mirror: Row, wanted: Row) returns (ops: seq<GridOp>)
    requires |mirror| == |wanted| <= SIZE_MAX
    ensures RowOps(ops, row, |mirror|) && PaintRow(ops, row, mirror) == wanted
    ensures TightOps(ops, mirror, wanted).Some?
  {
    hide PaintRow, Blend, RowOp, Lacking, Held, TightOps, Through, RunEnd, Carries;
    ops := [];
    var haveSpan := false;
    var spanFirst: nat, spanLast: nat, gapBytes: nat, runFirst: nat := 0, 0, 0, 0;
    BlendEnds(row, mirror, wanted);
    RowStarts(mirror, wanted);
    NothingToSend(mirror, wanted);
    while runFirst < |wanted|
      invariant runFirst <= |wanted| && RowOps(ops, row, |mirror|) && (!haveSpan ==> ops == [])
      invariant haveSpan ==> spanFirst < spanLast <= runFirst && Held(mirror, wanted, spanLast, runFirst).Some?
      invariant PaintRow(ops, row, mirror) == Blend(mirror, wanted, if haveSpan then spanFirst else runFirst)
      invariant Through(ops, mirror, wanted, haveSpan, spanFirst, spanLast, gapBytes, runFirst).Some?
    {
      var runLast, firstChanged, lastChanged := ChangedInRun(mirror, wanted, runFirst);
      if firstChanged == runLast {
        SameRunFollows(ops, mirror, wanted, haveSpan, spanFirst, spanLast, gapBytes, runFirst);
        if haveSpan {
          gapBytes := gapBytes + RunBytes(wanted[runFirst]);
          JoinEqual(mirror, wanted, spanLast, runFirst, runLast);
        } else {
          BlendSkips(mirror, wanted, runFirst, runLast);
        }
      } else {
        if !haveSpan {
          SpanBegins(mirror, wanted, spanFirst, spanLast, gapBytes, runFirst, firstChanged, lastChanged);
          BlendSkips(mirror, wanted, runFirst, firstChanged);
          haveSpan, spanFirst := true, firstChanged;
        } else if gapBytes > CELLS_OP_BYTES {
          ghost var before := ops;
          ops := EmitSpan(ops, row, mirror, wanted, spanFirst, spanLast);
          SpanIsSplit(before, ops[|before|], mirror, wanted, spanFirst, spanLast, gapBytes, runFirst, firstChanged, lastChanged);
          JoinEqual(mirror, wanted, spanLast, runFirst, firstChanged);
          BlendSkips(mirror, wanted, spanLast, firstChanged);
          spanFirst := firstChanged;
        } else {
          SpanGoesOn(ops, mirror, wanted, spanFirst, spanLast, gapBytes, runFirst, firstChanged, lastChanged);
        }
        spanLast := lastChanged;
        gapBytes := 0;
      }
      runFirst := runLast;
    }
    if haveSpan {
      ghost var before := ops;
      ops := EmitSpan(ops, row, mirror, wanted, spanFirst, spanLast);
      SpanIsTight(before, ops[|before|], mirror, wanted, spanFirst, spanLast, gapBytes, runFirst);
      BlendSkips(mirror, wanted, spanLast, |wanted|);
    }
  }

  lemma JoinEqual(a: Row, b: Row, x: nat, y: nat, z: nat)
    requires x <= y <= z <= |a| == |b| && Held(a, b, x, y).Some? && Held(a, b, y, z).Some?
    ensures Held(a, b, x, z).Some?
  {
    assert a[x..z] == a[x..y] + a[y..z] && b[x..z] == b[x..y] + b[y..z];
  }

  // ------------------------------------------------------------- the rows of a grid

  /** The rows of `wanted` up to `n`, those of `held` behind it. */
  function RowsTo(held: seq<Row>, wanted: seq<Row>, n: nat): (grid: seq<Row>)
    requires n <= |held| == |wanted|
    ensures |grid| == |held|
  {
    wanted[..n] + held[n..]
  }

  lemma RowsToStep(held: seq<Row>, wanted: seq<Row>, n: nat, columns: nat)
    requires n < |held| == |wanted| && Rectangular(held, columns, |held|) && Rectangular(wanted, columns, |wanted|)
    ensures var now := RowsTo(held, wanted, n);
      && Rectangular(now, columns, |held|) && now[n] == held[n]
      && RowsTo(held, wanted, n + 1) == now[n := wanted[n]]
      && (held[n] == wanted[n] ==> RowsTo(held, wanted, n + 1) == now)
  {
  }

  /** Every op lays cells on a row, and begins and ends with one that the row lacks. */
  predicate TightRows(ops: seq<GridOp>, held: seq<Row>, wanted: seq<Row>) {
    forall i :: 0 <= i < |ops| ==>
      ops[i].Cells? && ops[i].row < |held| && ops[i].row < |wanted| && Tight(ops[i], held[ops[i].row], wanted[ops[i].row])
  }

  /** The ops, if they do. */
  function TightGrid(ops: seq<GridOp>, held: seq<Row>, wanted: seq<Row>): Option<seq<GridOp>> {
    if TightRows(ops, held, wanted) then Some(ops) else None
  }

  lemma OneMoreRowTight(ops: seq<GridOp>, cells: seq<GridOp>, held: seq<Row>, wanted: seq<Row>, row: nat, columns: nat)
    requires row < |held| == |wanted| && TightGrid(ops, held, wanted).Some?
    requires RowOps(cells, row, columns) && TightOps(cells, held[row], wanted[row]).Some?
    ensures TightGrid(ops + cells, held, wanted).Some?
  {
    hide Tight;
    assert forall i :: 0 <= i < |cells| ==> RowOp(cells[i], row, columns) && Tight(cells[i], held[row], wanted[row]);
  }

  lemma TightMeansChanged(ops: seq<GridOp>, held: seq<Row>, wanted: seq<Row>)
    requires TightGrid(ops, held, wanted).Some? && ops != []
    ensures held != wanted
  {
    assert Tight(ops[0], held[ops[0].row], wanted[ops[0].row]);
  }

  /** Every row that differs among those examined is sent as cells. */
  method EmitRows(held: seq<Row>, wanted: seq<Row>, columns: nat, examined: seq<bool>) returns (ops: seq<GridOp>)
    requires columns <= SIZE_MAX && |examined| == |held| == |wanted|
    requires Rectangular(held, columns, |held|) && Rectangular(wanted, columns, |wanted|)
    requires forall r :: 0 <= r < |held| && !examined[r] ==> held[r] == wanted[r]
    ensures AllPaint(ops, columns, |held|) && Paint(ops, held, columns) == wanted
    ensures TightGrid(ops, held, wanted).Some?
  {
    ops := [];
    NoRows(held, wanted);
    NothingPainted(held, columns);
    assert TightGrid([], held, wanted).Some?;
    hide PaintOne, Paints, Paint, AllPaint, RowsTo, RowOp, RowOps, PaintRow, TightGrid, TightOps;
    for row := 0 to |held|
      invariant TightGrid(ops, held, wanted).Some?
      invariant AllPaint(ops, columns, |held|) && Paint(ops, held, columns) == RowsTo(held, wanted, row)
    {
      RowsToStep(held, wanted, row, columns);
      if examined[row] {
        var cells := EmitChangedRow(row, held[row], wanted[row]);
        PaintRowPaints(cells, row, RowsTo(held, wanted, row), columns);
        PaintAppend(ops, cells, held, columns);
        OneMoreRowTight(ops, cells, held, wanted, row, columns);
        ops := ops + cells;
      }
    }
  }

  lemma NothingPainted(grid: seq<Row>, columns: nat)
    requires Rectangular(grid, columns, |grid|)
    ensures AllPaint([], columns, |grid|) && Paint([], grid, columns) == grid
  {
  }

  /** Op `r` states row `r` whole. */
  predicate EveryRow(ops: seq<GridOp>, wanted: seq<Row>) {
    |ops| == |wanted| && forall r :: 0 <= r < |ops| ==>
      ops[r].Cells? && ops[r].row == r && ops[r].column == 0 && Expand(ops[r].runs) == wanted[r]
  }

  /** `emit_every_row`: every row whole. */
  method EmitEveryRow(wanted: seq<Row>) returns (ops: seq<GridOp>)
    ensures EveryRow(ops, wanted)
  {
    ops := [];
    for row := 0 to |wanted|
      invariant EveryRow(ops, wanted[..row])
    {
      var runs := ToRuns(wanted[row]);
      ops := ops + [Cells(row, 0, runs)];
    }
    assert wanted[..|wanted|] == wanted;
  }

  /** Whatever is held. */
  lemma {:induction false} EveryRowPaints(ops: seq<GridOp>, held: seq<Row>, wanted: seq<Row>, columns: nat, n: nat)
    requires EveryRow(ops, wanted) && |held| == |wanted| && columns <= SIZE_MAX && n <= |ops|
    requires Rectangular(held, columns, |held|) && Rectangular(wanted, columns, |wanted|)
    ensures AllPaint(ops[..n], columns, |held|) && Paint(ops[..n], held, columns) == RowsTo(held, wanted, n)
  {
    hide PaintOne, Paints, RowsTo, Expand;
    if n == 0 {
      NoRows(held, wanted);
    } else {
      var row := n - 1;
      EveryRowPaints(ops, held, wanted, columns, row);
      RowsToStep(held, wanted, row, columns);
      WholeRowPaints(row, ops[row].runs, RowsTo(held, wanted, row), wanted[row], columns);
      PaintAppend(ops[..row], [ops[row]], held, columns);
      assert ops[..n] == ops[..row] + [ops[row]];
    }
  }

  lemma NoRows(held: seq<Row>, wanted: seq<Row>)
    requires |held| == |wanted|
    ensures RowsTo(held, wanted, 0) == held && RowsTo(held, wanted, |held|) == wanted
  {
  }

  lemma WholeRowPaints(row: nat, runs: seq<CellRun>, grid: seq<Row>, wanted: Row, columns: nat)
    requires Rectangular(grid, columns, |grid|) && row < |grid| && columns <= SIZE_MAX
    requires Expand(runs) == wanted && |wanted| == columns
    ensures AllPaint([Cells(row, 0, runs)], columns, |grid|)
    ensures Paint([Cells(row, 0, runs)], grid, columns) == grid[row := wanted]
  {
    hide Expand;
    var op := Cells(row, 0, runs);
    assert [op][..0] == [];
    assert Overlay(grid[row], 0, wanted) == wanted;
  }

  // ------------------------------------------------------------- the scroll search

  datatype RowDamage = RowDamage(first: int, last: int)

  predicate Empty(damage: RowDamage) { damage.first >= damage.last }

  /** Rows a damage report says nothing of have not changed; no report at all says everything may have. */
  predicate Honest(damaged: seq<RowDamage>, held: seq<Row>, wanted: seq<Row>)
    requires |held| == |wanted|
  {
    damaged != [] ==>
      forall r :: 0 <= r < |held| && (r >= |damaged| || Empty(damaged[r])) ==> held[r] == wanted[r]
  }

  /** What a row of the band is predicted to hold after a shift, by its hash. */
  function MovedTo(before: seq<int>, blank: int, top: nat, bottom: nat, lines: int, row: nat): int
    requires top <= bottom <= |before|
  {
    if top <= row + lines < bottom then before[row + lines] else blank
  }

  /** How many rows from `top` up to `end` a shift of the band puts right, by their hashes. */
  function Matches(before: seq<int>, after: seq<int>, blank: int, top: nat, bottom: nat, lines: int, end: nat): nat
    requires top <= end <= bottom <= |before| == |after|
    decreases end
  {
    if end == top then 0
    else
      Matches(before, after, blank, top, bottom, lines, end - 1)
        + if MovedTo(before, blank, top, bottom, lines, end - 1) == after[end - 1] then 1 else 0
  }

  method Score(before: seq<int>, after: seq<int>, blank: int, top: nat, bottom: nat, lines: int) returns (matches: nat)
    requires top <= bottom <= |before| == |after|
    ensures matches == Matches(before, after, blank, top, bottom, lines, bottom)
  {
    matches := 0;
    for row := top to bottom
      invariant matches == Matches(before, after, blank, top, bottom, lines, row)
    {
      var source := row + lines;
      var moved := if top <= source < bottom then before[source] else blank;
      if moved == after[row] { matches := matches + 1; }
    }
  }

  /**
   The shift that puts most of a changed band right, by row hashes: none puts more rows right, and the first of
   those that put as many. There is none unless it puts two rows more right than standing still does.
   */
  method BestShift(before: seq<int>, after: seq<int>, blank: int, top: nat, bottom: nat) returns (lines: int)
    requires top <= bottom <= |before| == |after|
    ensures lines != 0 ==> Abs(lines) < bottom - top
    ensures var right := n => Matches(before, after, blank, top, bottom, n, bottom);
      && (lines != 0 ==> right(lines) >= right(0) + 2)
      && (lines != 0 ==> forall n :: Abs(n) < bottom - top ==> right(n) <= right(lines) && (n < lines ==> right(n) < right(lines)))
      && (lines == 0 && bottom - top >= 2 ==> forall n :: Abs(n) < bottom - top ==> right(n) < right(0) + 2)
  {
    if bottom - top < 2 { return 0; }
    hide Matches;
    ghost var right := n => Matches(before, after, blank, top, bottom, n, bottom);
    var band := bottom - top;
    var standing := Score(before, after, blank, top, bottom, 0);
    var bestLines, bestScore := 0, standing;
    for candidate := -(band - 1) to band
      invariant Abs(bestLines) < band && bestScore == right(bestLines) >= right(0) == standing
      invariant forall n :: -band < n < candidate ==> right(n) <= bestScore && (n < bestLines && bestLines != 0 ==> right(n) < bestScore)
      invariant bestLines != 0 ==> bestLines < candidate && bestScore > standing
    {
      if candidate != 0 {
        var score := Score(before, after, blank, top, bottom, candidate);
        if score > bestScore { bestScore, bestLines := score, candidate; }
      }
    }
    if bestLines != 0 && bestScore >= standing + 2 { return bestLines; }
    return 0;
  }

  /** How many rows from `top` up to `end` two grids agree on. */
  function RightRows(held: seq<Row>, wanted: seq<Row>, top: nat, end: nat): nat
    requires top <= end <= |held| == |wanted|
    decreases end
  {
    if end == top then 0 else RightRows(held, wanted, top, end - 1) + if held[end - 1] == wanted[end - 1] then 1 else 0
  }

  /** The hash of every row. */
  function Hashes(grid: seq<Row>, hash: Row -> int): (hashes: seq<int>)
    ensures |hashes| == |grid|
    ensures forall r :: 0 <= r < |grid| ==> hashes[r] == hash(grid[r])
  {
    seq(|grid|, r requires 0 <= r < |grid| => hash(grid[r]))
  }

  /** No two rows have one hash. */
  ghost predicate TellsApart(hash: Row -> int) {
    forall a, b :: hash(a) == hash(b) ==> a == b
  }

  /**
   What a score means: with a hash that tells rows apart, it is how many rows of the band the shift leaves nothing
   to send for.
   */
  lemma {:induction false} MatchesAreRightRows(held: seq<Row>, wanted: seq<Row>, columns: nat, hash: Row -> int,
                                               top: nat, bottom: nat, lines: int, end: nat)
    requires top <= end <= bottom <= |held| == |wanted| && TellsApart(hash)
    ensures Matches(Hashes(held, hash), Hashes(wanted, hash), hash(Blanks(columns)), top, bottom, lines, end)
         == RightRows(ShiftRows(held, columns, top, bottom, lines), wanted, top, end)
    decreases end
  {
    hide TellsApart, ShiftRows, Blanks;
    if end > top {
      MatchesAreRightRows(held, wanted, columns, hash, top, bottom, lines, end - 1);
      MatchIsRightRow(held, wanted, columns, hash, top, bottom, lines, end - 1);
    }
  }

  lemma MatchIsRightRow(held: seq<Row>, wanted: seq<Row>, columns: nat, hash: Row -> int,
                        top: nat, bottom: nat, lines: int, row: nat)
    requires top <= row < bottom <= |held| == |wanted| && TellsApart(hash)
    ensures MovedTo(Hashes(held, hash), hash(Blanks(columns)), top, bottom, lines, row) == Hashes(wanted, hash)[row] <==>
      ShiftRows(held, columns, top, bottom, lines)[row] == wanted[row]
  {
    hide ShiftRows, Blanks, TellsApart;
    ShiftRowsAt(held, columns, top, bottom, lines);
    assert ShiftRows(held, columns, top, bottom, lines)[row] == ShiftedRow(held, columns, top, bottom, lines, row);
    OneHash(ShiftedRow(held, columns, top, bottom, lines, row), wanted[row], hash);
  }

  lemma OneHash(a: Row, b: Row, hash: Row -> int)
    requires TellsApart(hash)
    ensures hash(a) == hash(b) <==> a == b
  {
  }

  /** The rows between the first and the last that differ, both included; none if none do. */
  predicate ChangedBand(held: seq<Row>, wanted: seq<Row>, top: nat, bottom: nat) {
    && top <= bottom <= |held| == |wanted|
    && (forall r :: 0 <= r < |held| && !(top <= r < bottom) ==> held[r] == wanted[r])
    && (top < bottom ==> held[top] != wanted[top] && held[bottom - 1] != wanted[bottom - 1])
  }

  /** How many rows of a band are right after a shift of it. */
  function RightAfter(held: seq<Row>, wanted: seq<Row>, columns: nat, top: nat, bottom: nat, lines: int): nat
    requires top <= bottom <= |held| == |wanted|
  {
    RightRows(ShiftRows(held, columns, top, bottom, lines), wanted, top, bottom)
  }

  /** The shift that a painting begins with, or none. */
  function ShiftIn(ops: seq<GridOp>): int {
    if ops != [] && ops[0].Scroll? then ops[0].lines else 0
  }

  /**
   The changed band is scrolled if that puts two rows more right than leaving it does, and then by the shift that puts most
   right; and if no shift does, it is left.
   */
  ghost predicate ScrolledBest(ops: seq<GridOp>, held: seq<Row>, wanted: seq<Row>, columns: nat) {
    exists top: nat, bottom: nat ::
      && ChangedBand(held, wanted, top, bottom)
      && (ops != [] && ops[0].Scroll? ==> ops[0].lines != 0 && ops[0].top == top && ops[0].bottom == bottom)
      && (ShiftIn(ops) != 0 ==>
            RightAfter(held, wanted, columns, top, bottom, ShiftIn(ops)) >= RightAfter(held, wanted, columns, top, bottom, 0) + 2)
      && forall n :: Abs(n) < bottom - top ==>
           RightAfter(held, wanted, columns, top, bottom, n) <=
             RightAfter(held, wanted, columns, top, bottom, ShiftIn(ops)) + if ShiftIn(ops) == 0 then 1 else 0
  }

  /** What of the held grid is sent for: cells that begin and end with one it lacks, after the scroll if there is one. */
  ghost predicate Sparing(ops: seq<GridOp>, held: seq<Row>, wanted: seq<Row>, columns: nat) {
    if ops != [] && ops[0].Scroll? then
      && ops[0].top <= ops[0].bottom <= |held|
      && TightGrid(ops[1..], ShiftRows(held, columns, ops[0].top, ops[0].bottom, ops[0].lines), wanted).Some?
    else TightGrid(ops, held, wanted).Some?
  }

  lemma BandIsBest(held: seq<Row>, wanted: seq<Row>, columns: nat, hash: Row -> int, top: nat, bottom: nat, ops: seq<GridOp>)
    requires TellsApart(hash) && ChangedBand(held, wanted, top, bottom)
    requires ops != [] && ops[0].Scroll? ==> ops[0].lines != 0 && ops[0].top == top && ops[0].bottom == bottom
    requires var right := n => Matches(Hashes(held, hash), Hashes(wanted, hash), hash(Blanks(columns)), top, bottom, n, bottom);
      var lines := ShiftIn(ops);
      && (lines != 0 ==> right(lines) >= right(0) + 2)
      && (lines != 0 ==> forall n :: Abs(n) < bottom - top ==> right(n) <= right(lines))
      && (lines == 0 && bottom - top >= 2 ==> forall n :: Abs(n) < bottom - top ==> right(n) < right(0) + 2)
    ensures ScrolledBest(ops, held, wanted, columns)
  {
    assert top <= bottom <= |held| == |wanted|;
    hide TellsApart, Matches, RightRows, ShiftRows, Blanks, ChangedBand, Hashes;
    forall n ensures Matches(Hashes(held, hash), Hashes(wanted, hash), hash(Blanks(columns)), top, bottom, n, bottom)
                     == RightAfter(held, wanted, columns, top, bottom, n)
    {
      MatchesAreRightRows(held, wanted, columns, hash, top, bottom, n, bottom);
    }
  }

  /** Whatever rows the two grids agree on by their hashes or were not examined, the band between lies where the changes do. */
  lemma BandHoldsChanges(held: seq<Row>, wanted: seq<Row>, hash: Row -> int, examined: seq<bool>, top: nat, bottom: nat)
    requires TellsApart(hash) && top <= bottom <= |held| == |wanted| == |examined|
    requires forall r :: 0 <= r < |held| && !examined[r] ==> held[r] == wanted[r]
    requires forall r :: 0 <= r < |held| && !(top <= r < bottom) ==> !examined[r] || hash(held[r]) == hash(wanted[r])
    requires top < bottom ==> hash(held[top]) != hash(wanted[top]) && hash(held[bottom - 1]) != hash(wanted[bottom - 1])
    ensures ChangedBand(held, wanted, top, bottom)
  {
  }

  /**
   The painting part of a diff between two grids of one size. The hash is a parameter: whatever it is, and
   however its values collide, the ops paint the one grid into the other.
   */
  method DiffGrid(held: seq<Row>, wanted: seq<Row>, columns: nat, damaged: seq<RowDamage>, hash: Row -> int)
    returns (ops: seq<GridOp>)
    requires columns <= SIZE_MAX && |held| == |wanted|
    requires Rectangular(held, columns, |held|) && Rectangular(wanted, columns, |wanted|)
    requires Honest(damaged, held, wanted)
    ensures AllPaint(ops, columns, |held|) && Paint(ops, held, columns) == wanted
    ensures Sparing(ops, held, wanted, columns) && (held == wanted ==> ops == [])
    ensures TellsApart(hash) ==> ScrolledBest(ops, held, wanted, columns)
  {
    hide PaintOne, Paints, ShiftRows, TightGrid, TellsApart, Matches, ScrolledBest, Paint, Blanks;
    var height := |held|;
    var examined := seq(height, r requires 0 <= r < height => damaged == [] || (r < |damaged| && !Empty(damaged[r])));
    var before, after := Hashes(held, hash), Hashes(wanted, hash);
    var top: nat := 0;
    while top < height && (!examined[top] || before[top] == after[top])
      invariant top <= height && forall r :: 0 <= r < top ==> !examined[r] || before[r] == after[r]
    {
      top := top + 1;
    }
    var bottom: nat := height;
    while bottom > top && (!examined[bottom - 1] || before[bottom - 1] == after[bottom - 1])
      invariant top <= bottom <= height && forall r :: bottom <= r < height ==> !examined[r] || before[r] == after[r]
    {
      bottom := bottom - 1;
    }
    var lines := BestShift(before, after, hash(Blanks(columns)), top, bottom);
    if lines != 0 {
      var shift := Scroll(top, bottom, lines);
      ShiftPaints(shift, held, columns);
      var shifted := ShiftRows(held, columns, top, bottom, lines);
      var inBand := seq(height, r requires 0 <= r < height => examined[r] || top <= r < bottom);
      var cells := EmitRows(shifted, wanted, columns, inBand);
      PaintAppend([shift], cells, held, columns);
      ops := [shift] + cells;
      assert ops[1..] == cells;
    } else {
      ops := EmitRows(held, wanted, columns, examined);
      if ops != [] { TightMeansChanged(ops, held, wanted); }
      NoScrollIn(ops, held, wanted);
    }
    if TellsApart(hash) {
      BandHoldsChanges(held, wanted, hash, examined, top, bottom);
      BandIsBest(held, wanted, columns, hash, top, bottom, ops);
    }
  }

  lemma NoScrollIn(ops: seq<GridOp>, held: seq<Row>, wanted: seq<Row>)
    requires TightGrid(ops, held, wanted).Some?
    ensures ops != [] ==> !ops[0].Scroll?
  {
    hide Tight;
  }

  lemma ShiftPaints(op: GridOp, grid: seq<Row>, columns: nat)
    requires Rectangular(grid, columns, |grid|) && op.Scroll? && Fits(op, columns, |grid|)
    ensures AllPaint([op], columns, |grid|)
    ensures var out := Paint([op], grid, columns);
      && out == ShiftRows(grid, columns, op.top, op.bottom, op.lines) && Rectangular(out, columns, |grid|)
      && forall r :: 0 <= r < |grid| && !(op.top <= r < op.bottom) ==> out[r] == grid[r]
  {
    assert [op][..0] == [];
    ShiftRowsAt(grid, columns, op.top, op.bottom, op.lines);
  }

  // ------------------------------------------------------------- the whole delta

  /** The size is said only when it changed. */
  predicate SameSize(previous: GridState, current: Screen) {
    previous.columns == current.columns && previous.rows == current.rows
  }

  /** One op that carries the pushed lines, or none when there are none. */
  predicate PushedAs(ops: seq<GridOp>, pushed: seq<Row>) {
    if pushed == [] then ops == []
    else
      && |ops| == 1 && ops[0].Push? && |ops[0].pushed| == |pushed|
      && forall i :: 0 <= i < |pushed| ==> Expand(ops[0].pushed[i]) == pushed[i]
  }

  method PushOps(pushed: seq<Row>) returns (ops: seq<GridOp>)
    ensures PushedAs(ops, pushed)
  {
    if pushed == [] { return []; }
    var lines: seq<seq<CellRun>> := [];
    for i := 0 to |pushed|
      invariant |lines| == i && forall j :: 0 <= j < i ==> Expand(lines[j]) == pushed[j]
    {
      var runs := ToRuns(pushed[i]);
      lines := lines + [runs];
    }
    return [Push(lines)];
  }

  /** A size the protocol allows, and history lines that fit it. */
  predicate SizeSendable(sizeOps: seq<GridOp>, columns: nat, rows: nat, pushed: seq<Row>) {
    && (sizeOps != [] ==> 0 < columns <= MAX_COLUMNS && 0 < rows <= MAX_ROWS)
    && (forall i :: 0 <= i < |pushed| ==> 0 < |pushed[i]| <= columns)
  }

  predicate CursorSendable(previous: GridState, current: Screen) {
    previous.cursor != current.cursor ==> current.cursor.row < current.rows && current.cursor.column <= current.columns
  }

  function SizeOps(previous: GridState, current: Screen): seq<GridOp> {
    if SameSize(previous, current) then [] else [Resize(current.columns, current.rows)]
  }

  /** What the protocol can carry: a size it allows, history lines of that width, a cursor inside the grid. */
  predicate Sendable(previous: GridState, current: Screen, pushed: seq<Row>) {
    SizeSendable(SizeOps(previous, current), current.columns, current.rows, pushed) && CursorSendable(previous, current)
  }

  /** A holder of the previous terminal, given the new size and the new history lines. */
  function Carried(previous: GridState, current: Screen, pushed: seq<Row>): GridState {
    PushLines(ResizeState(previous, current.columns, current.rows), pushed)
  }

  /** A state that shows a screen. */
  function Showing(state: GridState, screen: Screen): GridState {
    state.(columns := screen.columns, rows := screen.rows, grid := screen.grid, cursor := screen.cursor,
           modes := screen.modes, title := screen.title)
  }

  lemma {:induction false} PushLinesNoHistory(state: GridState, lines: seq<Row>)
    requires state.historyLimit == 0
    ensures PushLines(state, lines) == state
  {
    if lines != [] { PushLinesNoHistory(state, lines[..|lines| - 1]); }
  }

  lemma PushOpFits(ops: seq<GridOp>, pushed: seq<Row>, columns: nat, rows: nat)
    requires PushedAs(ops, pushed)
    ensures AllFit(ops, columns, rows) <==> forall i :: 0 <= i < |pushed| ==> 0 < |pushed[i]| <= columns
    ensures SizeAfter(ops, columns, rows) == (columns, rows)
    ensures columns <= SIZE_MAX && AllFit(ops, columns, rows) && pushed != [] ==> Lines(ops[0].pushed) == pushed
  {
    hide Expand;
    if pushed != [] {
      var op := ops[0];
      assert ops == [op];
      assert AllFit(ops, columns, rows) <==> Fits(op, columns, rows);
      assert forall i :: 0 <= i < |pushed| ==> TotalLength(op.pushed[i]) == |Expand(op.pushed[i])|;
    }
  }

  /** The last three ops of a delta fit exactly when the cursor does, and say what they are for. */
  lemma StatusPerforms(cursorOps: seq<GridOp>, modeOps: seq<GridOp>, titleOps: seq<GridOp>, state: GridState)
    requires Coherent(state)
    requires cursorOps == [] || (|cursorOps| == 1 && cursorOps[0].MoveCursor?)
    requires modeOps == [] || (|modeOps| == 1 && modeOps[0].Modes?)
    requires titleOps == [] || (|titleOps| == 1 && titleOps[0].Title?)
    ensures var ops := cursorOps + modeOps + titleOps;
      var fits := cursorOps != [] ==> Fits(cursorOps[0], state.columns, state.rows);
      && (AllFit(ops, state.columns, state.rows) <==> fits)
      && (fits ==> PerformAll(ops, state) == state.(
            cursor := if cursorOps == [] then state.cursor else cursorOps[0].cursor,
            modes := if modeOps == [] then state.modes else Masked(state.modes, modeOps[0].mask, modeOps[0].values),
            title := if titleOps == [] then state.title else titleOps[0].title))
  {
    hide Coherent, Fits, Masked, Perform;
    NoResizeFits(cursorOps, state.columns, state.rows);
    NoResizeFits(modeOps, state.columns, state.rows);
    NoResizeFits(titleOps, state.columns, state.rows);
    AllFitAppend(cursorOps, modeOps, state.columns, state.rows);
    AllFitAppend(cursorOps + modeOps, titleOps, state.columns, state.rows);
    ModesAndTitleFit(modeOps, titleOps, state.columns, state.rows);
    if cursorOps != [] ==> Fits(cursorOps[0], state.columns, state.rows) {
      var one := AtMostOne(cursorOps, state);
      var two := AtMostOne(modeOps, one);
      PerformAllAppend(cursorOps, modeOps, state);
      var three := AtMostOne(titleOps, two);
      PerformAllAppend(cursorOps + modeOps, titleOps, state);
      StatusPerform(cursorOps, modeOps, titleOps, state, one, two, three);
    }
  }

  lemma NoResizeFits(ops: seq<GridOp>, columns: nat, rows: nat)
    requires |ops| <= 1 && (ops != [] ==> !ops[0].Resize?)
    ensures AllFit(ops, columns, rows) <==> (ops != [] ==> Fits(ops[0], columns, rows))
    ensures SizeAfter(ops, columns, rows) == (columns, rows)
  {
    hide Fits;
  }

  lemma ModesAndTitleFit(modeOps: seq<GridOp>, titleOps: seq<GridOp>, columns: nat, rows: nat)
    requires modeOps != [] ==> modeOps[0].Modes?
    requires titleOps != [] ==> titleOps[0].Title?
    ensures modeOps != [] ==> Fits(modeOps[0], columns, rows)
    ensures titleOps != [] ==> Fits(titleOps[0], columns, rows)
  {
  }

  lemma AtMostOne(ops: seq<GridOp>, state: GridState) returns (after: GridState)
    requires Coherent(state) && |ops| <= 1
    requires ops != [] ==> !ops[0].Resize? && Fits(ops[0], state.columns, state.rows)
    ensures AllFit(ops, state.columns, state.rows) && after == PerformAll(ops, state)
    ensures after == if ops == [] then state else Perform(ops[0], state)
    ensures Coherent(after) && after.columns == state.columns && after.rows == state.rows
  {
    hide Coherent, Fits, Perform;
    if ops == [] {
      after := state;
    } else {
      assert ops == [ops[0]];
      PerformOne(ops[0], state);
      PerformKeepsCoherent(ops[0], state);
      after := Perform(ops[0], state);
    }
  }

  lemma StatusPerform(cursorOps: seq<GridOp>, modeOps: seq<GridOp>, titleOps: seq<GridOp>,
                      state: GridState, one: GridState, two: GridState, three: GridState)
    requires Coherent(state) && Coherent(one) && Coherent(two)
    requires cursorOps != [] ==> cursorOps[0].MoveCursor? && Fits(cursorOps[0], state.columns, state.rows)
    requires modeOps != [] ==> modeOps[0].Modes?
    requires titleOps != [] ==> titleOps[0].Title?
    requires one == if cursorOps == [] then state else Perform(cursorOps[0], state)
    requires two == if modeOps == [] then one else Perform(modeOps[0], one)
    requires three == if titleOps == [] then two else Perform(titleOps[0], two)
    ensures three == state.(
      cursor := if cursorOps == [] then state.cursor else cursorOps[0].cursor,
      modes := if modeOps == [] then state.modes else Masked(state.modes, modeOps[0].mask, modeOps[0].values),
      title := if titleOps == [] then state.title else titleOps[0].title)
  {
    hide Coherent, Masked;
  }

  /** The part of a delta in front of its painting: the size, then the history at that size. */
  lemma SizeAndPush(sizeOps: seq<GridOp>, pushOps: seq<GridOp>, state: GridState, columns: nat, rows: nat, pushed: seq<Row>)
    requires Coherent(state)
    requires sizeOps == [Resize(columns, rows)] || (sizeOps == [] && state.columns == columns && state.rows == rows)
    requires PushedAs(pushOps, pushed)
    ensures SizeAfter(sizeOps + pushOps, state.columns, state.rows) == (columns, rows)
    ensures var fits := SizeSendable(sizeOps, columns, rows, pushed);
      && (AllFit(sizeOps + pushOps, state.columns, state.rows) <==> fits)
      && (fits ==> PerformAll(sizeOps + pushOps, state) == PushLines(ResizeState(state, columns, rows), pushed))
  {
    hide Coherent, ResizeState, PushLines, Expand, Perform;
    AllFitAppend(sizeOps, pushOps, state.columns, state.rows);
    PushOpFits(pushOps, pushed, columns, rows);
    SizeOpFits(sizeOps, columns, rows, state);
    if AllFit(sizeOps, state.columns, state.rows) && AllFit(pushOps, columns, rows) {
      var base := ResizeState(state, columns, rows);
      PushPerforms(pushOps, pushed, base);
      PerformAllAppend(sizeOps, pushOps, state);
    }
  }

  lemma SizeOpFits(sizeOps: seq<GridOp>, columns: nat, rows: nat, state: GridState)
    requires Coherent(state)
    requires sizeOps == [Resize(columns, rows)] || (sizeOps == [] && state.columns == columns && state.rows == rows)
    ensures SizeAfter(sizeOps, state.columns, state.rows) == (columns, rows)
    ensures AllFit(sizeOps, state.columns, state.rows) <==> (sizeOps != [] ==> 0 < columns <= MAX_COLUMNS && 0 < rows <= MAX_ROWS)
    ensures AllFit(sizeOps, state.columns, state.rows) ==>
      var base := ResizeState(state, columns, rows);
      PerformAll(sizeOps, state) == base && Coherent(base) && base.columns == columns && base.rows == rows
  {
    hide Coherent;
    CoherentIsRectangular(state);
    CoherentParts(state);
    if sizeOps != [] && Fits(sizeOps[0], state.columns, state.rows) {
      PerformOne(sizeOps[0], state);
      PerformKeepsCoherent(sizeOps[0], state);
    } else {
      ResizeShape(state, columns, rows);
    }
  }

  lemma CoherentParts(state: GridState)
    requires Coherent(state)
    ensures HistoryCoherent(state) && state.columns <= SIZE_MAX
  {
  }

  lemma PushPerforms(pushOps: seq<GridOp>, pushed: seq<Row>, state: GridState)
    requires Coherent(state) && AllFit(pushOps, state.columns, state.rows)
    requires PushedAs(pushOps, pushed)
    ensures PerformAll(pushOps, state) == PushLines(state, pushed)
  {
    hide Coherent, Expand, Fits;
    CoherentParts(state);
    PushOpFits(pushOps, pushed, state.columns, state.rows);
    if pushed != [] {
      assert pushOps == [pushOps[0]];
      PerformOne(pushOps[0], state);
      if state.historyLimit == 0 { PushLinesNoHistory(state, pushed); }
    }
  }

  /** Painting and then the status, on a state of the right size. */
  lemma PaintAndStatus(front: seq<GridOp>, paint: seq<GridOp>, cursorOps: seq<GridOp>, modeOps: seq<GridOp>,
                       titleOps: seq<GridOp>, state: GridState, current: Screen, mid: GridState)
    requires Coherent(state) && AllFit(front, state.columns, state.rows) && mid == PerformAll(front, state)
    requires mid.columns == current.columns && mid.rows == current.rows
    requires AllPaint(paint, mid.columns, mid.rows) && Paint(paint, mid.grid, mid.columns) == current.grid
    requires cursorOps == [MoveCursor(current.cursor)] || (cursorOps == [] && mid.cursor == current.cursor)
    requires titleOps == [Title(current.title)] || (titleOps == [] && mid.title == current.title)
    requires (|modeOps| == 1 && modeOps[0].Modes? && Masked(mid.modes, modeOps[0].mask, modeOps[0].values) == current.modes)
      || (modeOps == [] && mid.modes == current.modes)
    ensures var ops := front + paint + (cursorOps + modeOps + titleOps);
      var fits := cursorOps != [] ==> current.cursor.row < current.rows && current.cursor.column <= current.columns;
      && (AllFit(ops, state.columns, state.rows) <==> fits)
      && (fits ==> PerformAll(ops, state) == Showing(mid, current))
  {
    hide Coherent, Paints, PaintOne, Masked, Perform;
    var status := cursorOps + modeOps + titleOps;
    PaintPerforms(paint, mid);
    PerformAllAppend(front, paint, state);
    var painted := PerformAll(front + paint, state);
    PerformAllSize(front + paint, state);
    StatusPerforms(cursorOps, modeOps, titleOps, painted);
    AllFitAppend(front + paint, status, state.columns, state.rows);
    if AllFit(status, painted.columns, painted.rows) {
      PerformAllAppend(front + paint, status, state);
    }
  }

  // ------------------------------------------------------------- the law

  /** A cursor no smaller grid would move. */
  predicate CursorInside(current: Screen) {
    ClampCursor(current.cursor, current.columns, current.rows) == current.cursor
  }

  /**
   What a holder of the old screen comes to hold: the new one, but for a cursor outside a new size that was not
   outside alone. It has not changed, so it is not sent; and the resize brings the holder's own inside.
   */
  function Reached(previous: GridState, current: Screen): Screen {
    if !SameSize(previous, current) && previous.cursor == current.cursor
    then current.(cursor := ClampCursor(current.cursor, current.columns, current.rows)) else current
  }

  lemma ReachedIsCurrent(previous: GridState, current: Screen)
    requires CursorSendable(previous, current)
    ensures Reached(previous, current) == current <==> SameSize(previous, current) || CursorInside(current)
  {
  }

  /** A cursor that did not change and is outside a new size: the delta is taken, and leaves it somewhere else. */
  lemma CursorLeftBehind()
    ensures var previous := BlankState(3, 3, 0).(cursor := Cursor(2, 2, 0, 1, 0));
      var current := Screen(1, 1, BlankGrid(1, 1), Cursor(2, 2, 0, 1, 0), 0, "");
      && Coherent(previous) && Rectangular(current.grid, 1, 1) && Sendable(previous, current, [])
      && Reached(previous, current).cursor == Cursor(1, 0, 0, 1, 0) != current.cursor
  {
  }

  lemma ResizedStatus(previous: GridState, current: Screen, pushed: seq<Row>)
    requires Coherent(previous)
    ensures var mid := Carried(previous, current, pushed);
      && mid.columns == current.columns && mid.rows == current.rows
      && mid.modes == previous.modes && mid.title == previous.title
      && mid.cursor == (if SameSize(previous, current) then previous.cursor
                        else ClampCursor(previous.cursor, current.columns, current.rows))
      && mid.grid == (if SameSize(previous, current) then previous.grid else BlankGrid(current.columns, current.rows))
  {
    hide PushLines, ResizeState, Rectangular, BlankGrid;
    ResizeShape(previous, current.columns, current.rows);
    PushesKeepNewest(ResizeState(previous, current.columns, current.rows), pushed);
  }

  /**
   `diff`, and its law. The delta is one the other end can take exactly when what it says is sendable. Applied to
   a holder of `previous` it leaves a holder of `Reached`, with the history and the pushed lines behind it; and that
   is `current`, every cell, the cursor, the modes and the title, exactly if the size is the same or the cursor
   inside it. It holds for every hash the scroll search may use, and of every holder of the same screen, whatever
   history that one keeps.
   */
  method Diff(previous: GridState, current: Screen, pushed: seq<Row>, damaged: seq<RowDamage>, hash: Row -> int)
    returns (ops: seq<GridOp>, ghost paint: seq<GridOp>)
    requires Coherent(previous) && Rectangular(current.grid, current.columns, current.rows)
    requires SameSize(previous, current) ==> Honest(damaged, previous.grid, current.grid)
    ensures forall i :: 0 <= i < |ops| ==> ops[i] in paint || Needed(ops[i], previous, current, pushed)
    ensures if SameSize(previous, current) then Sparing(paint, previous.grid, current.grid, current.columns)
            else EveryRow(paint, current.grid)
    ensures SameSize(previous, current) && TellsApart(hash) ==> ScrolledBest(paint, previous.grid, current.grid, current.columns)
    ensures ScreenOf(previous) == current && pushed == [] ==> ops == []
    ensures forall holder {:trigger Apply(ops, holder)} :: Coherent(holder) && ScreenOf(holder) == ScreenOf(previous) ==>
      (Apply(ops, holder).Some? <==> Sendable(previous, current, pushed))
    ensures forall holder {:trigger Apply(ops, holder)} :: Coherent(holder) && ScreenOf(holder) == ScreenOf(previous) && Sendable(previous, current, pushed) ==>
      Apply(ops, holder) == Some(Showing(Carried(holder, current, pushed), Reached(previous, current)))
    ensures Sendable(previous, current, pushed) ==>
      (Apply(ops, previous) == Some(Showing(Carried(previous, current, pushed), current))
       <==> SameSize(previous, current) || CursorInside(current))
  {
    CoherentIsRectangular(previous);
    CoherentParts(previous);
    hide Coherent, Paints, PaintOne, Paint, Honest, AllFit, Sendable, ChangedBits, CursorInside, Carried, EveryRow, PushedAs, Reached, CursorSendable, Apply;
    var sizeOps: seq<GridOp> := [];
    if !SameSize(previous, current) { sizeOps := [Resize(current.columns, current.rows)]; }
    var pushOps := PushOps(pushed);
    if SameSize(previous, current) {
      var cells := DiffGrid(previous.grid, current.grid, current.columns, damaged, hash);
      paint, ops := cells, cells;
    } else {
      var cells := EmitEveryRow(current.grid);
      paint, ops := cells, cells;
    }
    var cursorOps := if previous.cursor != current.cursor then [MoveCursor(current.cursor)] else [];
    var modeOps := if previous.modes != current.modes then [Modes(ChangedBits(previous.modes, current.modes), current.modes)] else [];
    var titleOps := if previous.title != current.title then [Title(current.title)] else [];
    ops := sizeOps + pushOps + ops + (cursorOps + modeOps + titleOps);
    PartsAreNeeded(previous, current, pushed, pushOps, paint);
    forall holder | Coherent(holder) && ScreenOf(holder) == ScreenOf(previous)
      ensures Apply(ops, holder).Some? <==> Sendable(previous, current, pushed)
      ensures Sendable(previous, current, pushed) ==>
        Apply(ops, holder) == Some(Showing(Carried(holder, current, pushed), Reached(previous, current)))
    {
      SameForHolder(previous, holder, current, pushed);
      DiffLaw(holder, current, pushed, pushOps, paint);
    }
    SendableCursor(previous, current, pushed);
    if CursorSendable(previous, current) { ReachedIsCurrent(previous, current); }
  }

  /** An op beside the painting that says something that changed. */
  predicate Needed(op: GridOp, previous: GridState, current: Screen, pushed: seq<Row>) {
    match op
    case Resize(_, _) => previous.columns != current.columns || previous.rows != current.rows
    case Push(_) => pushed != []
    case MoveCursor(_) => previous.cursor != current.cursor
    case Modes(mask, _) => previous.modes != current.modes && BitsApart(previous.modes, current.modes) == mask
    case Title(_) => previous.title != current.title
    case _ => false
  }

  /** The bits in which two words differ. */
  function BitsApart(before: bv32, after: bv32): bv32 {
    before ^ after
  }

  lemma ChangedBitsAreApart(before: bv32, after: bv32)
    ensures ChangedBits(before, after) == BitsApart(before, after)
  {
  }

  predicate AllNeeded(ops: seq<GridOp>, previous: GridState, current: Screen, pushed: seq<Row>) {
    forall i :: 0 <= i < |ops| ==> Needed(ops[i], previous, current, pushed)
  }

  lemma StatusIsNeeded(previous: GridState, current: Screen, pushed: seq<Row>)
    ensures AllNeeded(StatusOps(previous, current), previous, current, pushed)
    ensures ScreenOf(previous) == current ==> StatusOps(previous, current) == []
  {
    ChangedBitsAreApart(previous.modes, current.modes);
    hide ChangedBits, BitsApart;
  }

  lemma SizeAndPushAreNeeded(previous: GridState, current: Screen, pushed: seq<Row>, pushOps: seq<GridOp>)
    requires PushedAs(pushOps, pushed)
    ensures AllNeeded(SizeOps(previous, current), previous, current, pushed) && AllNeeded(pushOps, previous, current, pushed)
    ensures ScreenOf(previous) == current ==> SizeOps(previous, current) == []
    ensures pushed == [] ==> pushOps == []
  {
    hide Expand;
  }

  lemma PartsAreNeeded(previous: GridState, current: Screen, pushed: seq<Row>, pushOps: seq<GridOp>, paint: seq<GridOp>)
    requires PushedAs(pushOps, pushed)
    ensures var ops := SizeOps(previous, current) + pushOps + paint + StatusOps(previous, current);
      && (forall i :: 0 <= i < |ops| ==> ops[i] in paint || Needed(ops[i], previous, current, pushed))
      && (ScreenOf(previous) == current && pushed == [] && paint == [] ==> ops == [])
  {
    SizeAndPushAreNeeded(previous, current, pushed, pushOps);
    StatusIsNeeded(previous, current, pushed);
    hide SizeOps, StatusOps, Needed, PushedAs;
    var size, status := SizeOps(previous, current), StatusOps(previous, current);
    var ops := size + pushOps + paint + status;
    forall i | 0 <= i < |ops| ensures ops[i] in paint || Needed(ops[i], previous, current, pushed) {
      var a, b := |size| + |pushOps|, |size| + |pushOps| + |paint|;
      if i < |size| {
        assert ops[i] == size[i];
      } else if i < a {
        assert ops[i] == pushOps[i - |size|];
      } else if i < b {
        assert ops[i] == paint[i - a];
      } else {
        assert ops[i] == status[i - b];
      }
    }
  }

  /** A delta is computed from what a holder shows, and from nothing else of it. */
  lemma SameForHolder(previous: GridState, holder: GridState, current: Screen, pushed: seq<Row>)
    requires ScreenOf(holder) == ScreenOf(previous)
    ensures previous.columns == holder.columns && previous.rows == holder.rows && previous.grid == holder.grid
    ensures Sendable(holder, current, pushed) == Sendable(previous, current, pushed)
    ensures SizeOps(holder, current) == SizeOps(previous, current) && StatusOps(holder, current) == StatusOps(previous, current)
    ensures Reached(holder, current) == Reached(previous, current)
  {
  }

  lemma SendableCursor(previous: GridState, current: Screen, pushed: seq<Row>)
    ensures Sendable(previous, current, pushed) ==> CursorSendable(previous, current)
  {
  }

  function StatusOps(previous: GridState, current: Screen): seq<GridOp> {
    (if previous.cursor != current.cursor then [MoveCursor(current.cursor)] else [])
    + (if previous.modes != current.modes then [Modes(ChangedBits(previous.modes, current.modes), current.modes)] else [])
    + (if previous.title != current.title then [Title(current.title)] else [])
  }

  lemma DiffLaw(previous: GridState, current: Screen, pushed: seq<Row>, pushOps: seq<GridOp>, paint: seq<GridOp>)
    requires Coherent(previous) && Rectangular(current.grid, current.columns, current.rows)
    requires PushedAs(pushOps, pushed)
    requires if SameSize(previous, current) then
        && |previous.grid| == previous.rows && Rectangular(previous.grid, current.columns, |previous.grid|)
        && AllPaint(paint, current.columns, |previous.grid|)
        && Paint(paint, previous.grid, current.columns) == current.grid
      else EveryRow(paint, current.grid)
    ensures var ops := SizeOps(previous, current) + pushOps + paint + StatusOps(previous, current);
      && (Apply(ops, previous).Some? <==> Sendable(previous, current, pushed))
      && (Sendable(previous, current, pushed) ==>
            Apply(ops, previous) == Some(Showing(Carried(previous, current, pushed), Reached(previous, current))))
  {
    CoherentParts(previous);
    hide Coherent, Paints, PaintOne, Paint, PushLines, ResizeState, AllFit, EveryRow, PushedAs, SizeSendable,
         CursorSendable, Showing, Carried, StatusOps, Reached, Apply;
    var sizeOps, front := SizeOps(previous, current), SizeOps(previous, current) + pushOps;
    SizeAndPush(sizeOps, pushOps, previous, current.columns, current.rows, pushed);
    if SizeSendable(sizeOps, current.columns, current.rows, pushed) {
      PaintsCarried(previous, current, pushed, paint);
      Conclude(front, paint, previous, current, pushed);
    } else {
      NotAccepted(front, paint + StatusOps(previous, current), previous);
      assert front + paint + StatusOps(previous, current) == front + (paint + StatusOps(previous, current));
    }
  }

  lemma PaintsCarried(previous: GridState, current: Screen, pushed: seq<Row>, paint: seq<GridOp>)
    requires Coherent(previous) && Rectangular(current.grid, current.columns, current.rows)
    requires if SameSize(previous, current) then
        && |previous.grid| == previous.rows && Rectangular(previous.grid, current.columns, |previous.grid|)
        && AllPaint(paint, current.columns, |previous.grid|)
        && Paint(paint, previous.grid, current.columns) == current.grid
      else EveryRow(paint, current.grid)
    requires SizeSendable(SizeOps(previous, current), current.columns, current.rows, pushed)
    ensures var mid := Carried(previous, current, pushed);
      && AllPaint(paint, current.columns, current.rows) && Rectangular(mid.grid, current.columns, current.rows)
      && Paint(paint, mid.grid, current.columns) == current.grid
  {
    hide Coherent, Paints, PaintOne, Paint, Carried, EveryRow;
    ResizedStatus(previous, current, pushed);
    if !SameSize(previous, current) {
      EveryRowPaintsAll(paint, BlankGrid(current.columns, current.rows), current.grid, current.columns);
    }
  }

  lemma EveryRowPaintsAll(ops: seq<GridOp>, held: seq<Row>, wanted: seq<Row>, columns: nat)
    requires EveryRow(ops, wanted) && |held| == |wanted| && columns <= SIZE_MAX
    requires Rectangular(held, columns, |held|) && Rectangular(wanted, columns, |wanted|)
    ensures AllPaint(ops, columns, |held|) && Paint(ops, held, columns) == wanted
  {
    hide Paint, PaintOne, Paints, RowsTo;
    EveryRowPaints(ops, held, wanted, columns, |ops|);
    NoRows(held, wanted);
    assert ops[..|ops|] == ops;
  }

  lemma NotAccepted(front: seq<GridOp>, rest: seq<GridOp>, state: GridState)
    requires Coherent(state) && !AllFit(front, state.columns, state.rows)
    ensures Apply(front + rest, state) == None
  {
    hide Coherent;
    AllFitAppend(front, rest, state.columns, state.rows);
  }

  lemma Conclude(front: seq<GridOp>, paint: seq<GridOp>, previous: GridState, current: Screen, pushed: seq<Row>)
    requires Coherent(previous) && AllFit(front, previous.columns, previous.rows)
    requires PerformAll(front, previous) == PushLines(ResizeState(previous, current.columns, current.rows), pushed)
    requires AllPaint(paint, current.columns, current.rows)
    requires var mid := Carried(previous, current, pushed);
      Rectangular(mid.grid, current.columns, current.rows) && Paint(paint, mid.grid, current.columns) == current.grid
    ensures var ops := front + paint + StatusOps(previous, current);
      && (Apply(ops, previous).Some? <==> CursorSendable(previous, current))
      && (CursorSendable(previous, current) ==>
            Apply(ops, previous) == Some(Showing(Carried(previous, current, pushed), Reached(previous, current))))
  {
    hide Coherent, Paints, PaintOne, Masked, ChangedBits, ResizeState, PushLines, AllFit, Showing;
    ResizedStatus(previous, current, pushed);
    ChangedMask(previous.modes, current.modes);
    PaintAndStatusOrRefused(front, paint,
      if previous.cursor != current.cursor then [MoveCursor(current.cursor)] else [],
      if previous.modes != current.modes then [Modes(ChangedBits(previous.modes, current.modes), current.modes)] else [],
      if previous.title != current.title then [Title(current.title)] else [],
      previous, current, PerformAll(front, previous));
  }

  lemma PaintAndStatusOrRefused(front: seq<GridOp>, paint: seq<GridOp>, cursorOps: seq<GridOp>, modeOps: seq<GridOp>,
                                titleOps: seq<GridOp>, state: GridState, current: Screen, mid: GridState)
    requires Coherent(state) && AllFit(front, state.columns, state.rows) && mid == PerformAll(front, state)
    requires mid.columns == current.columns && mid.rows == current.rows
    requires AllPaint(paint, mid.columns, mid.rows) && Paint(paint, mid.grid, mid.columns) == current.grid
    requires cursorOps == [MoveCursor(current.cursor)] || cursorOps == []
    requires titleOps == [Title(current.title)] || (titleOps == [] && mid.title == current.title)
    requires (|modeOps| == 1 && modeOps[0].Modes? && Masked(mid.modes, modeOps[0].mask, modeOps[0].values) == current.modes)
      || (modeOps == [] && mid.modes == current.modes)
    ensures var ops := front + paint + (cursorOps + modeOps + titleOps);
      var fits := cursorOps != [] ==> current.cursor.row < current.rows && current.cursor.column <= current.columns;
      && (AllFit(ops, state.columns, state.rows) <==> fits)
      && (fits ==> PerformAll(ops, state) == Showing(mid, if cursorOps == [] then current.(cursor := mid.cursor) else current))
  {
    hide Coherent, Paints, PaintOne, Masked, Perform;
    PaintAndStatus(front, paint, cursorOps, modeOps, titleOps, state,
                   if cursorOps == [] then current.(cursor := mid.cursor) else current, mid);
  }

  // ------------------------------------------------------------- the delta that assumes nothing

  predicate Repaintable(current: Screen, pushed: seq<Row>) {
    && 0 < current.columns <= MAX_COLUMNS && 0 < current.rows <= MAX_ROWS
    && (forall i :: 0 <= i < |pushed| ==> 0 < |pushed[i]| <= current.columns)
    && current.cursor.row < current.rows && current.cursor.column <= current.columns
  }

  function RepaintStatus(current: Screen): seq<GridOp> {
    [MoveCursor(current.cursor)] + [Modes(EVERY_BIT, current.modes)] + [Title(current.title)]
  }

  /**
   `full_repaint`, and its law: it is taken by every holder or by none, and whoever takes it holds `current`,
   whatever it held before, its own size included.
   */
  method FullRepaint(current: Screen, pushed: seq<Row>) returns (ops: seq<GridOp>)
    requires Rectangular(current.grid, current.columns, current.rows)
    ensures forall holder {:trigger Apply(ops, holder)} :: Coherent(holder) ==>
      (Apply(ops, holder).Some? <==> Repaintable(current, pushed))
    ensures forall holder {:trigger Apply(ops, holder)} :: Coherent(holder) && Repaintable(current, pushed) ==>
      Apply(ops, holder) == Some(Showing(Carried(holder, current, pushed), current))
  {
    var sizeOps := [Resize(current.columns, current.rows)];
    var pushOps := PushOps(pushed);
    var paint := EmitEveryRow(current.grid);
    ops := sizeOps + pushOps + paint + RepaintStatus(current);
    forall holder | Coherent(holder)
      ensures Apply(ops, holder).Some? <==> Repaintable(current, pushed)
      ensures Repaintable(current, pushed) ==> Apply(ops, holder) == Some(Showing(Carried(holder, current, pushed), current))
    {
      hide *;
      RepaintLaw(holder, current, pushed, pushOps, paint);
    }
  }

  lemma RepaintLaw(holder: GridState, current: Screen, pushed: seq<Row>, pushOps: seq<GridOp>, paint: seq<GridOp>)
    requires Coherent(holder) && Rectangular(current.grid, current.columns, current.rows)
    requires PushedAs(pushOps, pushed) && EveryRow(paint, current.grid)
    ensures var ops := [Resize(current.columns, current.rows)] + pushOps + paint + RepaintStatus(current);
      && (Apply(ops, holder).Some? <==> Repaintable(current, pushed))
      && (Repaintable(current, pushed) ==> Apply(ops, holder) == Some(Showing(Carried(holder, current, pushed), current)))
  {
    CoherentParts(holder);
    hide Coherent, Paints, PaintOne, Paint, PushLines, ResizeState, AllFit, EveryRow, PushedAs, Showing, Masked;
    var sizeOps := [Resize(current.columns, current.rows)];
    var front := sizeOps + pushOps;
    SizeAndPush(sizeOps, pushOps, holder, current.columns, current.rows, pushed);
    if SizeSendable(sizeOps, current.columns, current.rows, pushed) {
      var mid := Carried(holder, current, pushed);
      RectangularCarried(holder, current, pushed);
      EveryRowPaintsAll(paint, mid.grid, current.grid, current.columns);
      ChangedMask(mid.modes, current.modes);
      PaintAndStatus(front, paint, [MoveCursor(current.cursor)], [Modes(EVERY_BIT, current.modes)], [Title(current.title)],
                     holder, current, mid);
    } else {
      NotAccepted(front, paint + RepaintStatus(current), holder);
      assert front + paint + RepaintStatus(current) == front + (paint + RepaintStatus(current));
    }
  }

  lemma RectangularCarried(holder: GridState, current: Screen, pushed: seq<Row>)
    requires Coherent(holder)
    ensures var mid := Carried(holder, current, pushed);
      mid.columns == current.columns && mid.rows == current.rows && Rectangular(mid.grid, current.columns, current.rows)
  {
    CoherentIsRectangular(holder);
    hide Coherent, Rectangular, PushLines, ResizeState;
    ResizedStatus(holder, current, pushed);
  }
}
