/**
 What a view has to repaint (src/client/mirror.cpp): the damage a mirror reads off the ops it takes, and why
 repainting only that is enough.
 */
module Damage {
  import opened Wrappers
  import opened Grid
  import opened GridDelta

  /** The changed columns of a row, `[first, last)`. */
  datatype Span = Span(first: int, last: int)

  const NONE := Span(0, 0)

  predicate SpanEmpty(span: Span) { span.first >= span.last }

  datatype Report = Report(full: bool, cursor: bool, modes: bool, title: bool, rasters: bool, pushed: nat, spans: seq<Span>)

  /** Everything dirty, at a size. */
  function Everything(columns: nat, rows: nat): Report {
    Report(true, true, true, true, true, 0, seq(rows, _ => Span(0, columns)))
  }

  /** Nothing dirty, at a size. */
  function Nothing(rows: nat): Report {
    Report(false, false, false, false, false, 0, seq(rows, _ => NONE))
  }

  function Clamp(n: int, limit: nat): int {
    if n < 0 then 0 else if n > limit then limit else n
  }

  function Widen(span: Span, first: int, last: int): Span {
    if SpanEmpty(span) then Span(first, last)
    else Span(if first < span.first then first else span.first, if last > span.last then last else span.last)
  }

  /** `std::vector::resize`: cut, or filled up with empty spans. */
  function Resized(spans: seq<Span>, rows: nat): (out: seq<Span>)
    ensures |out| == rows
  {
    if rows <= |spans| then spans[..rows] else spans + seq(rows - |spans|, _ => NONE)
  }

  /** `note_row`. */
  function NoteRow(report: Report, row: int, first: int, last: int, columns: nat, rows: nat): Report {
    if row < 0 || row >= rows then report
    else
      var spans := if |report.spans| != rows then Resized(report.spans, rows) else report.spans;
      report.(spans := spans[row := Widen(spans[row], Clamp(first, columns), Clamp(last, columns))])
  }

  /** Rows `[from, to)` noted whole. */
  function NoteRows(report: Report, start: nat, stop: nat, columns: nat, rows: nat): Report
    decreases stop
  {
    if start >= stop then report else NoteRow(NoteRows(report, start, stop - 1, columns, rows), stop - 1, 0, columns, columns, rows)
  }

  /** What one op adds, at the size the grid has when the whole delta is applied. */
  function NoteOp(report: Report, op: GridOp, columns: nat, rows: nat): Report {
    match op
    case Resize(_, _) => Everything(columns, rows).(pushed := report.pushed)
    case Cells(row, column, runs) => NoteRow(report, row, column, column + TotalLength(runs), columns, rows)
    case Scroll(top, bottom, _) => NoteRows(report, top, bottom, columns, rows)
    case Push(pushed) => report.(pushed := report.pushed + |pushed|)
    case MoveCursor(_) => report.(cursor := true)
    case Modes(_, _) => report.(modes := true)
    case Title(_) => report.(title := true)
  }

  function NoteOps(report: Report, ops: seq<GridOp>, columns: nat, rows: nat): Report {
    if ops == [] then report else NoteOp(NoteOps(report, ops[..|ops| - 1], columns, rows), ops[|ops| - 1], columns, rows)
  }

  // ------------------------------------------------------------- soundness

  predicate InSpan(span: Span, c: int) { span.first <= c < span.last }

  /** Every cell of a row that changed lies in the row's span. */
  predicate RowCovered(before: Row, after: Row, span: Span) {
    |before| == |after| && forall c :: 0 <= c < |after| && before[c] != after[c] ==> InSpan(span, c)
  }

  /** A span of a row: inside it, or empty. */
  predicate SpanInside(span: Span, columns: nat) {
    0 <= span.first <= columns && 0 <= span.last <= columns
  }

  predicate WellFormed(report: Report, columns: nat, rows: nat) {
    |report.spans| == rows && forall r :: 0 <= r < rows ==> SpanInside(report.spans[r], columns)
  }

  /** What differs between the shown screen and the held one is in the report, or the report is of everything. */
  predicate Covers(report: Report, shown: Screen, held: Screen) {
    && WellFormed(report, held.columns, held.rows)
    && Rectangular(held.grid, held.columns, held.rows)
    && (report.full || (
          && shown.columns == held.columns && shown.rows == held.rows && |shown.grid| == held.rows
          && (forall r :: 0 <= r < held.rows ==> RowCovered(shown.grid[r], held.grid[r], report.spans[r]))
          && (shown.cursor != held.cursor ==> report.cursor)
          && (shown.modes != held.modes ==> report.modes)
          && (shown.title != held.title ==> report.title)))
  }

  lemma EverythingCovers(shown: Screen, held: Screen)
    requires Rectangular(held.grid, held.columns, held.rows)
    ensures Covers(Everything(held.columns, held.rows), shown, held)
  {
  }

  lemma NothingCovers(shown: Screen)
    requires Rectangular(shown.grid, shown.columns, shown.rows)
    ensures Covers(Nothing(shown.rows), shown, shown)
  {
  }

  /** One row noted from `first` to `last`: that much of it, and all that was noted before, is covered. */
  lemma NoteRowCovers(report: Report, row: nat, first: nat, last: nat, shown: Screen, held: Screen, now: Row)
    requires Covers(report, shown, held) && row < held.rows && first <= last <= held.columns
    requires |now| == held.columns
    requires forall c :: (0 <= c < first || last <= c < held.columns) ==> now[c] == held.grid[row][c]
    ensures Covers(NoteRow(report, row, first, last, held.columns, held.rows), shown, held.(grid := held.grid[row := now]))
  {
    var noted := NoteRow(report, row, first, last, held.columns, held.rows);
    assert noted.spans == report.spans[row := Widen(report.spans[row], first, last)];
    var next := held.(grid := held.grid[row := now]);
    assert Rectangular(next.grid, next.columns, next.rows);
    if !report.full {
      assert RowCovered(shown.grid[row], held.grid[row], report.spans[row]);
      forall r | 0 <= r < held.rows ensures RowCovered(shown.grid[r], next.grid[r], noted.spans[r]) {
        if r == row {
          forall c | 0 <= c < held.columns && shown.grid[r][c] != now[c] ensures InSpan(noted.spans[r], c) {
            if !(first <= c < last) { assert InSpan(report.spans[row], c); }
          }
        } else {
          assert RowCovered(shown.grid[r], held.grid[r], report.spans[r]);
        }
      }
    }
  }

  /** Rows noted whole may hold anything. */
  lemma {:induction false} NoteRowsCover(report: Report, start: nat, stop: nat, shown: Screen, held: Screen, now: seq<Row>)
    requires Covers(report, shown, held) && start <= stop <= held.rows && Rectangular(now, held.columns, held.rows)
    requires forall r :: 0 <= r < held.rows && !(start <= r < stop) ==> now[r] == held.grid[r]
    ensures Covers(NoteRows(report, start, stop, held.columns, held.rows), shown, held.(grid := now))
    decreases stop
  {
    hide Covers, NoteRow;
    if start == stop {
      assert now == held.grid by { CoversRectangular(report, shown, held); }
      assert held.(grid := now) == held;
    } else {
      CoversRectangular(report, shown, held);
      var less := now[stop - 1 := held.grid[stop - 1]];
      NoteRowsCover(report, start, stop - 1, shown, held, less);
      NoteRowCovers(NoteRows(report, start, stop - 1, held.columns, held.rows), stop - 1, 0, held.columns, shown,
                    held.(grid := less), now[stop - 1]);
      assert less[stop - 1 := now[stop - 1]] == now;
    }
  }

  lemma CoversRectangular(report: Report, shown: Screen, held: Screen)
    requires Covers(report, shown, held)
    ensures Rectangular(held.grid, held.columns, held.rows)
  {
  }

  /** The overlaid row differs only where cells were laid. */
  lemma OverlayKeeps(row: Row, column: nat, cells: Row)
    requires column + |cells| <= |row|
    ensures forall c :: 0 <= c < column || column + |cells| <= c < |row| ==> Overlay(row, column, cells)[c] == row[c]
  {
  }

  lemma FullStaysFull(report: Report, op: GridOp, columns: nat, rows: nat)
    requires report.full && WellFormed(report, columns, rows)
    ensures NoteOp(report, op, columns, rows).full && WellFormed(NoteOp(report, op, columns, rows), columns, rows)
  {
    hide NoteRow;
    match op {
      case Scroll(top, bottom, _) => FullRows(report, top, bottom, columns, rows);
      case Cells(row, column, runs) => FullRow(report, row, column, column + TotalLength(runs), columns, rows);
      case _ =>
    }
  }

  lemma FullRow(report: Report, row: nat, first: nat, last: nat, columns: nat, rows: nat)
    requires report.full && WellFormed(report, columns, rows)
    ensures NoteRow(report, row, first, last, columns, rows).full
    ensures WellFormed(NoteRow(report, row, first, last, columns, rows), columns, rows)
  {
  }

  lemma {:induction false} FullRows(report: Report, start: nat, stop: nat, columns: nat, rows: nat)
    requires report.full && WellFormed(report, columns, rows)
    ensures NoteRows(report, start, stop, columns, rows).full
    ensures WellFormed(NoteRows(report, start, stop, columns, rows), columns, rows)
    decreases stop
  {
    hide NoteRow, WellFormed;
    if start < stop {
      FullRows(report, start, stop - 1, columns, rows);
      FullRow(NoteRows(report, start, stop - 1, columns, rows), stop - 1, 0, columns, columns, rows);
    }
  }

  /** One op at a size that does not change: what it changes is noted. */
  lemma NoteOpCovers(report: Report, op: GridOp, shown: Screen, held: Screen)
    requires Covers(report, shown, held) && !op.Resize? && Fits(op, held.columns, held.rows) && held.columns <= SIZE_MAX
    ensures Covers(NoteOp(report, op, held.columns, held.rows), shown, OnScreen(op, held))
  {
    hide NoteRow, NoteRows, ShiftRows, Overlay, Masked, RowCovered;
    CoversRectangular(report, shown, held);
    match op {
      case Cells(row, column, runs) =>
        OverlayKeeps(held.grid[row], column, FromRuns(runs));
        NoteRowCovers(report, row, column, column + TotalLength(runs), shown, held,
                      Overlay(held.grid[row], column, FromRuns(runs)));
      case Scroll(top, bottom, lines) =>
        ShiftKeepsRectangle(held.grid, held.columns, held.rows, top, bottom, lines);
        ShiftRowsAt(held.grid, held.columns, top, bottom, lines);
        NoteRowsCover(report, top, bottom, shown, held, ShiftRows(held.grid, held.columns, top, bottom, lines));
      case _ =>
    }
  }

  // ------------------------------------------------------------- a whole delta

  predicate Resizes(ops: seq<GridOp>) {
    exists i :: 0 <= i < |ops| && ops[i].Resize?
  }

  lemma {:induction false} ResizeIsFull(report: Report, ops: seq<GridOp>, columns: nat, rows: nat)
    requires Resizes(ops)
    ensures NoteOps(report, ops, columns, rows).full && WellFormed(NoteOps(report, ops, columns, rows), columns, rows)
  {
    hide NoteOp, WellFormed;
    var front := ops[..|ops| - 1];
    if ops[|ops| - 1].Resize? {
      ResizeOpIsFull(NoteOps(report, front, columns, rows), ops[|ops| - 1], columns, rows);
    } else {
      var i :| 0 <= i < |ops| && ops[i].Resize?;
      assert front[i].Resize?;
      ResizeIsFull(report, front, columns, rows);
      FullStaysFull(NoteOps(report, front, columns, rows), ops[|ops| - 1], columns, rows);
    }
  }

  lemma ResizeOpIsFull(report: Report, op: GridOp, columns: nat, rows: nat)
    requires op.Resize?
    ensures NoteOp(report, op, columns, rows).full && WellFormed(NoteOp(report, op, columns, rows), columns, rows)
  {
  }

  lemma {:induction false} SameSizeCovers(report: Report, ops: seq<GridOp>, shown: Screen, state: GridState)
    requires Coherent(state) && AllFit(ops, state.columns, state.rows) && !Resizes(ops)
    requires Covers(report, shown, ScreenOf(state))
    ensures var after := PerformAll(ops, state);
      && after.columns == state.columns && after.rows == state.rows
      && Covers(NoteOps(report, ops, state.columns, state.rows), shown, ScreenOf(after))
    decreases |ops|
  {
    hide Coherent, Fits, Perform, Covers, NoteOp, OnScreen;
    if ops != [] {
      var front, last := ops[..|ops| - 1], ops[|ops| - 1];
      FrontPerforms(ops, state);
      SameSizeCovers(report, front, shown, state);
      var mid := PerformAll(front, state);
      PerformScreen(last, mid);
      PerformKeepsCoherent(last, mid);
      CoherentWidth(mid);
      NoteOpCovers(NoteOps(report, front, state.columns, state.rows), last, shown, ScreenOf(mid));
    }
  }

  lemma CoherentWidth(state: GridState)
    requires Coherent(state)
    ensures state.columns <= SIZE_MAX && Rectangular(state.grid, state.columns, state.rows)
  {
  }

  /**
   Damage soundness: whatever mix of ops and sizes a taken delta holds, what then differs from the screen a
   view last showed is in the report the mirror read off the ops, or the report is of everything.
   */
  lemma DeltaCovers(report: Report, ops: seq<GridOp>, shown: Screen, state: GridState)
    requires Coherent(state) && Apply(ops, state).Some? && Covers(report, shown, ScreenOf(state))
    ensures var after := Apply(ops, state).value;
      Covers(NoteOps(report, ops, after.columns, after.rows), shown, ScreenOf(after))
  {
    hide Coherent, Fits, Perform, NoteOps, RowCovered;
    if Resizes(ops) {
      var after := Apply(ops, state).value;
      ResizeIsFull(report, ops, after.columns, after.rows);
      CoherentWidth(after);
    } else {
      SameSizeCovers(report, ops, shown, state);
    }
  }

  lemma {:induction false} RowsKeepTheRest(report: Report, start: nat, stop: nat, columns: nat, rows: nat)
    ensures var noted := NoteRows(report, start, stop, columns, rows);
      noted.rasters == report.rasters && noted.pushed == report.pushed && noted.full == report.full
    decreases stop
  {
    if start < stop { RowsKeepTheRest(report, start, stop - 1, columns, rows); }
  }

  /** Pictures once reported as changed stay so through any delta. */
  lemma {:induction false} RastersStayNoted(report: Report, ops: seq<GridOp>, columns: nat, rows: nat)
    ensures report.rasters ==> NoteOps(report, ops, columns, rows).rasters
  {
    if ops != [] {
      RastersStayNoted(report, ops[..|ops| - 1], columns, rows);
      var last := ops[|ops| - 1];
      if last.Scroll? { RowsKeepTheRest(NoteOps(report, ops[..|ops| - 1], columns, rows), last.top, last.bottom, columns, rows); }
    }
  }

  // ------------------------------------------------------------- the history

  /**
   All of the live history but the last `pushed` lines was shown: they are the newest of what was. So a view that keeps
   what it showed has only those lines to look at, unless everything is to be looked at.
   */
  predicate HistoryCovers(full: bool, pushed: nat, shown: seq<Row>, live: seq<Row>) {
    full || pushed >= |live| || live[..|live| - pushed] == LastLines(shown, |live| - pushed)
  }

  /** A report of everything misses nothing. */
  lemma FullCoversHistory(report: Report, shown: seq<Row>, live: seq<Row>)
    ensures report.full ==> HistoryCovers(report.full, report.pushed, shown, live)
  {
  }

  /** The lines a delta pushes, as a history of this width keeps them. */
  function PushedIn(ops: seq<GridOp>, width: nat): seq<Row> {
    if ops == [] then [] else PushedIn(ops[..|ops| - 1], width) + PushedBy(ops[|ops| - 1], width)
  }

  function PushedBy(op: GridOp, width: nat): seq<Row> {
    if op.Push? then FitAll(Lines(op.pushed), width) else []
  }

  lemma OpPushes(op: GridOp, state: GridState)
    requires Coherent(state) && Fits(op, state.columns, state.rows) && !op.Resize?
    ensures LiveHistory(Perform(op, state))
      == LastLines(LiveHistory(state) + PushedBy(op, HistoryWidth(state.columns)), state.historyLimit)
  {
    var width := HistoryWidth(state.columns);
    if op.Push? {
      PushesAre(state, Lines(op.pushed));
      if state.historyLimit == 0 { assert LiveHistory(state) == []; }
    } else {
      assert LiveHistory(state) + PushedBy(op, width) == LiveHistory(state);
    }
  }

  /**
   What `pushed` counts: a delta that does not resize leaves the newest lines allowed of what was live and the lines it
   pushes, and the report counts as many more.
   */
  lemma {:induction false} DeltaPushes(report: Report, ops: seq<GridOp>, state: GridState)
    requires Coherent(state) && AllFit(ops, state.columns, state.rows) && !Resizes(ops)
    ensures var pushed := PushedIn(ops, HistoryWidth(state.columns));
      && LiveHistory(PerformAll(ops, state)) == LastLines(LiveHistory(state) + pushed, state.historyLimit)
      && NoteOps(report, ops, state.columns, state.rows).pushed == report.pushed + |pushed|
  {
    if ops == [] {
      NewestOfNone(state);
    } else {
      var front, last, width := ops[..|ops| - 1], ops[|ops| - 1], HistoryWidth(state.columns);
      FrontPerforms(ops, state);
      DeltaPushes(report, front, state);
      var mid := PerformAll(front, state);
      OpPushes(last, mid);
      NotePushes(NoteOps(report, front, state.columns, state.rows), last, state.columns, state.rows);
      hide Coherent, LiveHistory, LastLines, PushedBy, NoteOp, Perform, PerformAll, Resizes, HistoryWidth;
      NewestOfAll(LiveHistory(state), PushedIn(front, width), PushedBy(last, width), state.historyLimit);
    }
  }

  lemma NotePushes(report: Report, op: GridOp, columns: nat, rows: nat)
    ensures NoteOp(report, op, columns, rows).pushed == report.pushed + |PushedBy(op, HistoryWidth(columns))|
  {
    if op.Scroll? { RowsKeepTheRest(report, op.top, op.bottom, columns, rows); }
  }

  /** The last op of a delta, and the state it meets. */
  lemma FrontPerforms(ops: seq<GridOp>, state: GridState)
    requires Coherent(state) && AllFit(ops, state.columns, state.rows) && !Resizes(ops) && ops != []
    ensures var front, last := ops[..|ops| - 1], ops[|ops| - 1];
      && AllFit(front, state.columns, state.rows) && !Resizes(front) && !last.Resize?
      && var mid := PerformAll(front, state);
      && mid.columns == state.columns && mid.rows == state.rows && mid.historyLimit == state.historyLimit
      && Fits(last, mid.columns, mid.rows) && PerformAll(ops, state) == Perform(last, mid)
  {
    hide Coherent, Fits, Perform;
    var front, last := ops[..|ops| - 1], ops[|ops| - 1];
    assert front + [last] == ops;
    AllFitAppend(front, [last], state.columns, state.rows);
    assert !Resizes(front) by { assert forall i :: 0 <= i < |front| ==> front[i] == ops[i]; }
    SameSizeAfter(front, state.columns, state.rows);
    PerformAllSize(front, state);
    var mid := PerformAll(front, state);
    PerformOne(last, mid);
    PerformAllAppend(front, [last], state);
  }

  lemma TailCovers(pushed: nat, shown: seq<Row>, live: seq<Row>, more: seq<Row>, limit: nat)
    requires HistoryCovers(false, pushed, shown, live)
    ensures HistoryCovers(false, pushed + |more|, shown, LastLines(live + more, limit))
  {
    var now := LastLines(live + more, limit);
    var kept := |now| - (pushed + |more|);
    if kept > 0 {
      var dropped := |live| + |more| - |now|;
      assert now == (live + more)[dropped..];
      assert now[..kept] == live[..|live| - pushed][dropped..];
      assert LastLines(shown, |live| - pushed)[dropped..] == LastLines(shown, kept);
    }
  }

  /** Any taken delta, of any ops and sizes, leaves the history covered by the report that notes it. */
  lemma DeltaCoversHistory(report: Report, ops: seq<GridOp>, shown: seq<Row>, state: GridState)
    requires Coherent(state) && Apply(ops, state).Some?
    requires HistoryCovers(report.full, report.pushed, shown, LiveHistory(state))
    ensures var after := Apply(ops, state).value;
      var noted := NoteOps(report, ops, after.columns, after.rows);
      HistoryCovers(noted.full, noted.pushed, shown, LiveHistory(after))
  {
    hide Coherent, AllFit, PerformAll, NoteOps, LiveHistory, LastLines, PushedIn, HistoryWidth;
    var after := Apply(ops, state).value;
    if Resizes(ops) {
      ResizeIsFull(report, ops, after.columns, after.rows);
    } else {
      PerformAllSize(ops, state);
      SameSizeAfter(ops, state.columns, state.rows);
      DeltaPushes(report, ops, state);
      FullStaysNoted(report, ops, state.columns, state.rows);
      if !report.full {
        TailCovers(report.pushed, shown, LiveHistory(state), PushedIn(ops, HistoryWidth(state.columns)), state.historyLimit);
      }
    }
  }

  lemma {:induction false} FullStaysNoted(report: Report, ops: seq<GridOp>, columns: nat, rows: nat)
    ensures report.full ==> NoteOps(report, ops, columns, rows).full
  {
    if ops != [] {
      FullStaysNoted(report, ops[..|ops| - 1], columns, rows);
      var last := ops[|ops| - 1];
      if last.Scroll? { RowsKeepTheRest(NoteOps(report, ops[..|ops| - 1], columns, rows), last.top, last.bottom, columns, rows); }
    }
  }

  // ------------------------------------------------------------- what repainting the damage gives

  /** The shown row with the held cells laid over its span. */
  function RepaintRow(shown: Row, held: Row, span: Span): (row: Row)
    requires |shown| == |held|
    ensures |row| == |held|
  {
    seq(|held|, c requires 0 <= c < |held| => if InSpan(span, c) then held[c] else shown[c])
  }

  /** What a view shows when it repaints only what the report names. */
  function Repaint(report: Report, shown: Screen, held: Screen): Screen
    requires Covers(report, shown, held)
  {
    if report.full then held
    else
      Screen(held.columns, held.rows,
             seq(held.rows, r requires 0 <= r < held.rows =>
               if SpanEmpty(report.spans[r]) then shown.grid[r]
               else (assert RowCovered(shown.grid[r], held.grid[r], report.spans[r]);
                     RepaintRow(shown.grid[r], held.grid[r], report.spans[r]))),
             if report.cursor then held.cursor else shown.cursor,
             if report.modes then held.modes else shown.modes,
             if report.title then held.title else shown.title)
  }

  /** It is the screen the mirror holds: repainting the damage alone misses nothing. */
  lemma RepaintIsHeld(report: Report, shown: Screen, held: Screen)
    requires Covers(report, shown, held)
    ensures Repaint(report, shown, held) == held
  {
    if !report.full {
      forall r | 0 <= r < held.rows ensures Repaint(report, shown, held).grid[r] == held.grid[r] {
        assert RowCovered(shown.grid[r], held.grid[r], report.spans[r]);
        assert forall c :: 0 <= c < held.columns && shown.grid[r][c] != held.grid[r][c] ==> InSpan(report.spans[r], c);
      }
    }
  }

  /** And what it showed of the history, with the lines that were pushed since, is the history the mirror holds. */
  lemma HistoryIsHeld(pushed: nat, shown: seq<Row>, live: seq<Row>)
    requires HistoryCovers(false, pushed, shown, live)
    ensures live == LastLines(shown + LastLines(live, pushed), |live|)
  {
    if pushed < |live| {
      assert live == live[..|live| - pushed] + live[|live| - pushed..];
    }
  }

  /** A cell of this size that the report names. */
  predicate Noted(report: Report, columns: nat, rows: nat, r: nat, c: nat) {
    |report.spans| == rows && r < rows && c < columns && InSpan(report.spans[r], c)
  }

  lemma NoteRowGrows(report: Report, row: int, first: int, last: int, columns: nat, rows: nat, r: nat, c: nat)
    requires Noted(report, columns, rows, r, c)
    ensures Noted(NoteRow(report, row, first, last, columns, rows), columns, rows, r, c)
  {
  }

  lemma {:induction false} NoteRowsGrow(report: Report, start: nat, stop: nat, columns: nat, rows: nat, r: nat, c: nat)
    requires Noted(report, columns, rows, r, c)
    ensures Noted(NoteRows(report, start, stop, columns, rows), columns, rows, r, c)
    decreases stop
  {
    hide Noted, NoteRow;
    if start < stop {
      NoteRowsGrow(report, start, stop - 1, columns, rows, r, c);
      NoteRowGrows(NoteRows(report, start, stop - 1, columns, rows), stop - 1, 0, columns, columns, rows, r, c);
    }
  }

  lemma NoteOpGrows(report: Report, op: GridOp, columns: nat, rows: nat, r: nat, c: nat)
    requires Noted(report, columns, rows, r, c)
    ensures Noted(NoteOp(report, op, columns, rows), columns, rows, r, c)
  {
    hide NoteRow, NoteRows;
    match op {
      case Cells(row, column, runs) => NoteRowGrows(report, row, column, column + TotalLength(runs), columns, rows, r, c);
      case Scroll(top, bottom, _) => NoteRowsGrow(report, top, bottom, columns, rows, r, c);
      case _ =>
    }
  }

  lemma {:induction false} SpansOnlyGrow(report: Report, ops: seq<GridOp>, columns: nat, rows: nat, r: nat, c: nat)
    requires Noted(report, columns, rows, r, c)
    ensures Noted(NoteOps(report, ops, columns, rows), columns, rows, r, c)
  {
    hide Noted, NoteOp;
    if ops != [] {
      SpansOnlyGrow(report, ops[..|ops| - 1], columns, rows, r, c);
      NoteOpGrows(NoteOps(report, ops[..|ops| - 1], columns, rows), ops[|ops| - 1], columns, rows, r, c);
    }
  }

  /** A delta that states a size notes every cell there is. */
  lemma {:induction false} ResizeNotesAll(report: Report, ops: seq<GridOp>, columns: nat, rows: nat, r: nat, c: nat)
    requires Resizes(ops) && r < rows && c < columns
    ensures Noted(NoteOps(report, ops, columns, rows), columns, rows, r, c)
  {
    hide Noted, NoteOp;
    var front, last := ops[..|ops| - 1], ops[|ops| - 1];
    if last.Resize? {
      ResizeOpNotesAll(NoteOps(report, front, columns, rows), last, columns, rows, r, c);
    } else {
      var i :| 0 <= i < |ops| && ops[i].Resize?;
      assert front[i].Resize?;
      ResizeNotesAll(report, front, columns, rows, r, c);
      NoteOpGrows(NoteOps(report, front, columns, rows), last, columns, rows, r, c);
    }
  }

  lemma ResizeOpNotesAll(report: Report, op: GridOp, columns: nat, rows: nat, r: nat, c: nat)
    requires op.Resize? && r < rows && c < columns
    ensures Noted(NoteOp(report, op, columns, rows), columns, rows, r, c)
  {
  }

  lemma {:induction false} SameSizeAfter(ops: seq<GridOp>, columns: nat, rows: nat)
    requires !Resizes(ops)
    ensures SizeAfter(ops, columns, rows) == (columns, rows)
    decreases |ops|
  {
    if ops != [] {
      assert !Resizes(ops[1..]) by { assert forall i :: 0 <= i < |ops| - 1 ==> ops[1..][i] == ops[i + 1]; }
      assert !ops[0].Resize?;
      SameSizeAfter(ops[1..], columns, rows);
    }
  }

  /**
   Spans only grow: through any delta that is taken, whatever ops and sizes are in it, a cell once noted stays
   noted, until the view says it has caught up or the grid has no such cell any more.
   */
  lemma DeltaKeepsNoted(report: Report, ops: seq<GridOp>, state: GridState, r: nat, c: nat)
    requires Coherent(state) && Apply(ops, state).Some? && Noted(report, state.columns, state.rows, r, c)
    ensures var after := Apply(ops, state).value;
      r < after.rows && c < after.columns ==>
        Noted(NoteOps(report, ops, after.columns, after.rows), after.columns, after.rows, r, c)
  {
    hide Coherent, AllFit, PerformAll, NoteOps, Noted;
    var after := Apply(ops, state).value;
    if Resizes(ops) {
      if r < after.rows && c < after.columns { ResizeNotesAll(report, ops, after.columns, after.rows, r, c); }
    } else {
      PerformAllSize(ops, state);
      SameSizeAfter(ops, state.columns, state.rows);
      SpansOnlyGrow(report, ops, state.columns, state.rows, r, c);
    }
  }

  // ------------------------------------------------------------- and nothing more

  /** The columns of a row that an op writes: those it lays cells on, or all if the row is in the band it scrolls. */
  function Written(op: GridOp, columns: nat, r: nat): (span: Option<Span>) {
    match op
    case Cells(row, column, runs) => if row == r then Some(Span(column, column + |Expand(runs)|)) else None
    case Scroll(top, bottom, _) => if top <= r < bottom then Some(Span(0, columns)) else None
    case _ => None
  }

  /** Something noted before, or written, in the row: no further right than the column, and no further left. */
  ghost predicate Between(report: Report, ops: seq<GridOp>, columns: nat, rows: nat, r: nat, c: nat) {
    && ((exists d: nat :: d <= c && Noted(report, columns, rows, r, d))
        || exists i :: 0 <= i < |ops| && Written(ops[i], columns, r).Some? && Written(ops[i], columns, r).value.first <= c)
    && ((exists d: nat :: c <= d && Noted(report, columns, rows, r, d))
        || exists i :: 0 <= i < |ops| && Written(ops[i], columns, r).Some? && c < Written(ops[i], columns, r).value.last)
  }

  lemma {:induction false} RowsSpan(report: Report, start: nat, stop: nat, columns: nat, rows: nat, r: nat)
    requires WellFormed(report, columns, rows) && r < rows && stop <= rows
    ensures WellFormed(NoteRows(report, start, stop, columns, rows), columns, rows)
    ensures NoteRows(report, start, stop, columns, rows).spans[r]
      == if start <= r < stop then Widen(report.spans[r], 0, columns) else report.spans[r]
    decreases stop
  {
    if start < stop { RowsSpan(report, start, stop - 1, columns, rows, r); }
  }

  /** A row's span after one op that fits. */
  lemma SpanAfter(report: Report, op: GridOp, columns: nat, rows: nat, r: nat)
    requires WellFormed(report, columns, rows) && r < rows && !op.Resize? && (op.Scroll? ==> op.bottom <= rows)
    ensures WellFormed(NoteOp(report, op, columns, rows), columns, rows)
    ensures NoteOp(report, op, columns, rows).spans[r] == match Written(op, columns, r)
      case Some(span) => Widen(report.spans[r], Clamp(span.first, columns), Clamp(span.last, columns))
      case None => report.spans[r]
  {
    hide NoteRows, NoteRow, Widen, WellFormed;
    match op {
      case Scroll(top, bottom, _) => RowsSpan(report, top, bottom, columns, rows, r);
      case Cells(row, column, runs) => RowSpan(report, row, column, column + TotalLength(runs), columns, rows, r);
      case _ => SameSpans(report, NoteOp(report, op, columns, rows), columns, rows);
    }
  }

  lemma RowSpan(report: Report, row: nat, first: nat, last: nat, columns: nat, rows: nat, r: nat)
    requires WellFormed(report, columns, rows) && r < rows
    ensures var noted := NoteRow(report, row, first, last, columns, rows);
      && WellFormed(noted, columns, rows)
      && noted.spans[r] == if row == r then Widen(report.spans[r], Clamp(first, columns), Clamp(last, columns)) else report.spans[r]
  {
  }

  lemma SameSpans(report: Report, noted: Report, columns: nat, rows: nat)
    requires WellFormed(report, columns, rows) && noted.spans == report.spans
    ensures WellFormed(noted, columns, rows)
  {
  }

  /** What one op adds to a span lies between what was noted in the row and what the op writes there. */
  lemma NotesOneMore(report: Report, op: GridOp, columns: nat, rows: nat, r: nat, c: nat)
    returns (low: Option<nat>, high: Option<nat>)
    requires WellFormed(report, columns, rows) && !op.Resize? && (op.Scroll? ==> op.bottom <= rows)
    requires Noted(NoteOp(report, op, columns, rows), columns, rows, r, c)
    ensures low.Some? ==> low.value <= c && Noted(report, columns, rows, r, low.value)
    ensures high.Some? ==> c <= high.value && Noted(report, columns, rows, r, high.value)
    ensures low.None? ==> Written(op, columns, r).Some? && Written(op, columns, r).value.first <= c
    ensures high.None? ==> Written(op, columns, r).Some? && c < Written(op, columns, r).value.last
  {
    SpanAfter(report, op, columns, rows, r);
    hide NoteOp, Written;
    var span := report.spans[r];
    assert SpanInside(span, columns);
    low := if SpanEmpty(span) || c < span.first then None else if InSpan(span, c) then Some(c) else Some(span.last - 1);
    high := if SpanEmpty(span) || c >= span.last then None else if InSpan(span, c) then Some(c) else Some(span.first);
  }

  lemma {:induction false} NotedIsWellFormed(report: Report, ops: seq<GridOp>, columns: nat, rows: nat)
    requires WellFormed(report, columns, rows) && !Resizes(ops) && AllFit(ops, columns, rows)
    ensures WellFormed(NoteOps(report, ops, columns, rows), columns, rows)
    decreases |ops|
  {
    hide NoteOp, WellFormed;
    if ops != [] {
      var front, last := ops[..|ops| - 1], ops[|ops| - 1];
      FrontFits(ops, columns, rows);
      NotedIsWellFormed(report, front, columns, rows);
      OpIsWellFormed(NoteOps(report, front, columns, rows), last, columns, rows);
    }
  }

  lemma OpIsWellFormed(report: Report, op: GridOp, columns: nat, rows: nat)
    requires WellFormed(report, columns, rows) && !op.Resize? && (op.Scroll? ==> op.bottom <= rows)
    ensures WellFormed(NoteOp(report, op, columns, rows), columns, rows)
  {
    if rows > 0 {
      SpanAfter(report, op, columns, rows, 0);
    } else if op.Scroll? {
      assert op.bottom == 0;
    }
  }

  lemma FrontFits(ops: seq<GridOp>, columns: nat, rows: nat)
    requires ops != [] && !Resizes(ops) && AllFit(ops, columns, rows)
    ensures var front, last := ops[..|ops| - 1], ops[|ops| - 1];
      !Resizes(front) && AllFit(front, columns, rows) && !last.Resize? && (last.Scroll? ==> last.bottom <= rows)
  {
    var front, last := ops[..|ops| - 1], ops[|ops| - 1];
    assert front + [last] == ops;
    AllFitAppend(front, [last], columns, rows);
    assert !Resizes(front) by { assert forall i :: 0 <= i < |front| ==> front[i] == ops[i]; }
    SameSizeAfter(front, columns, rows);
    OneFits(last, columns, rows);
  }

  lemma BetweenFront(report: Report, ops: seq<GridOp>, columns: nat, rows: nat, r: nat, c: nat, low: Option<nat>, high: Option<nat>)
    requires ops != []
    requires var last := Written(ops[|ops| - 1], columns, r);
      && (low.None? ==> last.Some? && last.value.first <= c) && (high.None? ==> last.Some? && c < last.value.last)
    requires low.Some? ==> low.value <= c && Between(report, ops[..|ops| - 1], columns, rows, r, low.value)
    requires high.Some? ==> c <= high.value && Between(report, ops[..|ops| - 1], columns, rows, r, high.value)
    ensures Between(report, ops, columns, rows, r, c)
  {
    hide Written, Noted;
    assert forall i :: 0 <= i < |ops| - 1 ==> ops[..|ops| - 1][i] == ops[i];
  }

  /**
   No more is noted than the spans need: a cell that a taken delta without a resize leaves noted lies between others in
   its row that were noted before, laid or scrolled.
   */
  lemma {:induction false} NotesNoMore(report: Report, ops: seq<GridOp>, columns: nat, rows: nat, r: nat, c: nat)
    requires WellFormed(report, columns, rows) && !Resizes(ops) && AllFit(ops, columns, rows)
    requires Noted(NoteOps(report, ops, columns, rows), columns, rows, r, c)
    ensures Between(report, ops, columns, rows, r, c)
    decreases |ops|
  {
    if ops != [] {
      var front, last := ops[..|ops| - 1], ops[|ops| - 1];
      FrontFits(ops, columns, rows);
      NotedIsWellFormed(report, front, columns, rows);
      hide NoteOp, Written, Noted, WellFormed, Between, AllFit, Resizes;
      var low, high := NotesOneMore(NoteOps(report, front, columns, rows), last, columns, rows, r, c);
      if low.Some? { NotesNoMore(report, front, columns, rows, r, low.value); }
      if high.Some? { NotesNoMore(report, front, columns, rows, r, high.value); }
      BetweenFront(report, ops, columns, rows, r, c, low, high);
    }
  }

  datatype Kind = OfSize | OfCursor | OfModes | OfTitle

  /** An op of the delta is of that kind, or states a size. */
  predicate Any(ops: seq<GridOp>, kind: Kind) {
    exists i :: 0 <= i < |ops| && Is(ops[i], kind)
  }

  predicate Is(op: GridOp, kind: Kind) {
    op.Resize? || (kind == OfCursor && op.MoveCursor?) || (kind == OfModes && op.Modes?) || (kind == OfTitle && op.Title?)
  }

  lemma AnyOneMore(ops: seq<GridOp>, kind: Kind)
    requires ops != []
    ensures Any(ops, kind) <==> Any(ops[..|ops| - 1], kind) || Is(ops[|ops| - 1], kind)
  {
    hide Is;
    var front := ops[..|ops| - 1];
    assert forall i :: 0 <= i < |front| ==> front[i] == ops[i];
    if Any(front, kind) {
      var i :| 0 <= i < |front| && Is(front[i], kind);
      assert Is(ops[i], kind);
    }
  }

  lemma FlagsOneMore(report: Report, op: GridOp, columns: nat, rows: nat)
    ensures var noted := NoteOp(report, op, columns, rows);
      && (noted.full <==> report.full || Is(op, OfSize)) && (noted.rasters <==> report.rasters || Is(op, OfSize))
      && (noted.cursor <==> report.cursor || Is(op, OfCursor)) && (noted.modes <==> report.modes || Is(op, OfModes))
      && (noted.title <==> report.title || Is(op, OfTitle))
  {
    hide NoteRows;
    if op.Scroll? { RowsKeepFlags(report, op.top, op.bottom, columns, rows); }
  }

  /** The other things a view looks at are noted exactly if an op of theirs, or a size, was in the delta. */
  lemma {:induction false} FlagsAreNoted(report: Report, ops: seq<GridOp>, columns: nat, rows: nat)
    ensures var noted := NoteOps(report, ops, columns, rows);
      && (noted.full <==> report.full || Any(ops, OfSize)) && (noted.rasters <==> report.rasters || Any(ops, OfSize))
      && (noted.cursor <==> report.cursor || Any(ops, OfCursor)) && (noted.modes <==> report.modes || Any(ops, OfModes))
      && (noted.title <==> report.title || Any(ops, OfTitle))
  {
    if ops != [] {
      FlagsAreNoted(report, ops[..|ops| - 1], columns, rows);
      FlagsOneMore(NoteOps(report, ops[..|ops| - 1], columns, rows), ops[|ops| - 1], columns, rows);
      AnyOneMore(ops, OfSize);
      AnyOneMore(ops, OfCursor);
      AnyOneMore(ops, OfModes);
      AnyOneMore(ops, OfTitle);
      hide NoteOp, Any, Is;
    }
  }

  lemma {:induction false} RowsKeepFlags(report: Report, start: nat, stop: nat, columns: nat, rows: nat)
    ensures var noted := NoteRows(report, start, stop, columns, rows); noted == report.(spans := noted.spans)
    decreases stop
  {
    if start < stop { RowsKeepFlags(report, start, stop - 1, columns, rows); }
  }
}
