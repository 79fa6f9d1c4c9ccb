/**
 Applying a delta (src/common/grid_delta.cpp): checked whole before any of it is performed, so that a mirror
 never holds half of one.
 */
module GridDelta {
  import opened Wrappers
  import opened Grid

  // ------------------------------------------------------------- what a delta does

  lemma ShiftKeepsRectangle(grid: seq<Row>, columns: nat, rows: nat, top: nat, bottom: nat, lines: int)
    requires Rectangular(grid, columns, rows) && top <= bottom <= rows
    ensures Rectangular(ShiftRows(grid, columns, top, bottom, lines), columns, rows)
  {
    hide ShiftRows;
    ShiftRowsAt(grid, columns, top, bottom, lines);
    forall r | 0 <= r < rows ensures |ShiftRows(grid, columns, top, bottom, lines)[r]| == columns {
      assert ShiftRows(grid, columns, top, bottom, lines)[r] == ShiftedRow(grid, columns, top, bottom, lines, r);
    }
  }

  lemma ResizeShape(state: GridState, columns: nat, rows: nat)
    requires Rectangular(state.grid, state.columns, state.rows) && HistoryCoherent(state)
    ensures var out := ResizeState(state, columns, rows);
      && out.columns == columns && out.rows == rows && Rectangular(out.grid, columns, rows) && HistoryCoherent(out)
      && out.modes == state.modes && out.title == state.title && out.historyLimit == state.historyLimit
      && (state.columns == columns && state.rows == rows ==> out == state)
      && (state.columns != columns || state.rows != rows ==>
            out.grid == BlankGrid(columns, rows) && out.cursor == ClampCursor(state.cursor, columns, rows))
  {
    hide EnforceCapacity, PushLines, LiveHistory;
    if state.columns != columns || state.rows != rows {
      var sized := state.(columns := columns, rows := rows, grid := BlankGrid(columns, rows),
                          cursor := ClampCursor(state.cursor, columns, rows));
      if state.columns == columns {
        SameHistory(state, sized);
        EnforceCoherent(sized);
      } else {
        var bare := sized.(history := [], historyStart := 0);
        BareCoherent(bare);
        PushesKeepNewest(bare, LiveHistory(state));
      }
    }
  }

  lemma SameHistory(a: GridState, b: GridState)
    requires HistoryCoherent(a) && a.history == b.history && a.historyStart == b.historyStart
    requires a.historyLimit == b.historyLimit && a.columns == b.columns
    ensures HistoryCoherent(b)
  {
  }

  lemma BareCoherent(state: GridState)
    requires state.history == [] && state.historyStart == 0
    ensures HistoryCoherent(state)
  {
  }

  /** Enforcing a capacity keeps the history coherent, and when the limit did not move, leaves what is live. */
  lemma EnforceCoherent(state: GridState)
    requires state.historyStart <= |state.history|
    requires state.historyStart == 0 || state.historyStart < |LiveHistory(state)|
    requires forall i :: 0 <= i < |state.history| ==> |state.history[i]| == HistoryWidth(state.columns)
    ensures HistoryCoherent(EnforceCapacity(state))
    ensures EnforceCapacity(state) == state.(history := EnforceCapacity(state).history, historyStart := EnforceCapacity(state).historyStart)
  {
    hide EnforceCapacity;
    EnforceKeepsNewest(state);
    var next := EnforceCapacity(state);
    forall i | 0 <= i < |next.history| ensures |next.history[i]| == HistoryWidth(state.columns) {
      assert next.history[i] in state.history;
    }
  }

  lemma PerformKeepsCoherent(op: GridOp, state: GridState)
    requires Coherent(state) && Fits(op, state.columns, state.rows)
    ensures Coherent(Perform(op, state))
    ensures var out := Perform(op, state);
      if op.Resize? then out.columns == op.columns && out.rows == op.rows
      else out.columns == state.columns && out.rows == state.rows
    ensures Perform(op, state).historyLimit == state.historyLimit
  {
    hide ShiftRows, ResizeState, PushLines, Fit, LiveHistory, Lines;
    match op {
      case Resize(columns, rows) => ResizeShape(state, columns, rows);
      case Push(pushed) => PushesKeepNewest(state, Lines(pushed));
      case Scroll(top, bottom, lines) =>
        ShiftKeepsRectangle(state.grid, state.columns, state.rows, top, bottom, lines);
        SameHistory(state, Perform(op, state));
      case Cells(row, column, runs) =>
        SameHistory(state, Perform(op, state));
      case _ =>
        SameHistory(state, Perform(op, state));
    }
  }

  function PerformAll(ops: seq<GridOp>, state: GridState): (out: GridState)
    requires Coherent(state) && AllFit(ops, state.columns, state.rows)
    ensures Coherent(out) && out.historyLimit == state.historyLimit
    decreases |ops|
  {
    if ops == [] then state
    else
      PerformKeepsCoherent(ops[0], state);
      PerformAll(ops[1..], Perform(ops[0], state))
  }

  /** `apply_delta`: the whole delta, or nothing. */
  function Apply(ops: seq<GridOp>, state: GridState): Option<GridState>
    requires Coherent(state)
  {
    if AllFit(ops, state.columns, state.rows) then Some(PerformAll(ops, state)) else None
  }

  /** The size a delta leaves the grid with. */
  function SizeAfter(ops: seq<GridOp>, columns: nat, rows: nat): (nat, nat)
    decreases |ops|
  {
    if ops == [] then (columns, rows)
    else if ops[0].Resize? then SizeAfter(ops[1..], ops[0].columns, ops[0].rows)
    else SizeAfter(ops[1..], columns, rows)
  }

  lemma {:induction false} PerformAllSize(ops: seq<GridOp>, state: GridState)
    requires Coherent(state) && AllFit(ops, state.columns, state.rows)
    ensures (PerformAll(ops, state).columns, PerformAll(ops, state).rows) == SizeAfter(ops, state.columns, state.rows)
    decreases |ops|
  {
    hide Coherent, Perform, Fits;
    if ops != [] {
      PerformKeepsCoherent(ops[0], state);
      PerformAllSize(ops[1..], Perform(ops[0], state));
    }
  }

  lemma {:induction false} AllFitAppend(a: seq<GridOp>, b: seq<GridOp>, columns: nat, rows: nat)
    ensures var size := SizeAfter(a, columns, rows);
      AllFit(a + b, columns, rows) <==> AllFit(a, columns, rows) && AllFit(b, size.0, size.1)
    ensures SizeAfter(a + b, columns, rows) == SizeAfter(b, SizeAfter(a, columns, rows).0, SizeAfter(a, columns, rows).1)
    decreases |a|
  {
    hide Fits;
    if a == [] {
      assert a + b == b;
    } else {
      assert (a + b)[0] == a[0] && (a + b)[1..] == a[1..] + b;
      if a[0].Resize? { AllFitAppend(a[1..], b, a[0].columns, a[0].rows); }
      else { AllFitAppend(a[1..], b, columns, rows); }
    }
  }

  /** A delta in two parts is the second applied to what the first left. */
  lemma {:induction false} PerformAllAppend(a: seq<GridOp>, b: seq<GridOp>, state: GridState)
    requires Coherent(state) && AllFit(a, state.columns, state.rows)
    requires AllFit(b, PerformAll(a, state).columns, PerformAll(a, state).rows)
    ensures AllFit(a + b, state.columns, state.rows)
    ensures PerformAll(a + b, state) == PerformAll(b, PerformAll(a, state))
    decreases |a|
  {
    hide Coherent, Perform, Fits;
    PerformAllSize(a, state);
    AllFitAppend(a, b, state.columns, state.rows);
    if a == [] {
      assert a + b == b;
    } else {
      assert (a + b)[0] == a[0] && (a + b)[1..] == a[1..] + b;
      PerformKeepsCoherent(a[0], state);
      PerformAllAppend(a[1..], b, Perform(a[0], state));
    }
  }

  lemma PerformOne(op: GridOp, state: GridState)
    requires Coherent(state) && Fits(op, state.columns, state.rows)
    ensures AllFit([op], state.columns, state.rows) && PerformAll([op], state) == Perform(op, state)
  {
    hide Coherent, Perform, Fits;
    PerformKeepsCoherent(op, state);
  }

  // ------------------------------------------------------------- the two loops

  /**
   `apply_delta`: one pass that checks every op against the size the grid will have when it is reached, then
   one that performs them. Refused means untouched; accepted means every op was performed, in order.
   */
  method ApplyDelta(ops: seq<GridOp>, mirror: GridState) returns (accepted: bool, after: GridState)
    requires Coherent(mirror)
    ensures accepted <==> Apply(ops, mirror).Some?
    ensures after == if accepted then Apply(ops, mirror).value else mirror
    ensures Coherent(after)
  {
    hide Coherent, Perform, Fits;
    after := mirror;
    var checkColumns, checkRows := mirror.columns, mirror.rows;
    for i := 0 to |ops|
      invariant AllFit(ops, mirror.columns, mirror.rows) <==> AllFit(ops[i..], checkColumns, checkRows)
    {
      assert ops[i..][1..] == ops[i + 1..];
      if !Fits(ops[i], checkColumns, checkRows) { return false, mirror; }
      if ops[i].Resize? { checkColumns, checkRows := ops[i].columns, ops[i].rows; }
    }
    for i := 0 to |ops|
      invariant Coherent(after) && AllFit(ops[i..], after.columns, after.rows)
      invariant PerformAll(ops[i..], after) == PerformAll(ops, mirror)
    {
      assert ops[i..][1..] == ops[i + 1..];
      PerformKeepsCoherent(ops[i], after);
      after := PerformOp(ops[i], after);
    }
    return true, after;
  }

  method PerformOp(op: GridOp, state: GridState) returns (after: GridState)
    requires Coherent(state) && Fits(op, state.columns, state.rows)
    ensures after == Perform(op, state)
  {
    after := Perform(op, state);
  }

  // ------------------------------------------------------------- what a delta leaves

  /**
   All or nothing, and coherent either way: whatever a peer sends, a delta that is taken leaves a state whose
   parts agree, and one is taken exactly when every op fits the size it will meet.
   */
  lemma DeltaKeepsCoherent(ops: seq<GridOp>, state: GridState)
    requires Coherent(state)
    ensures Apply(ops, state).Some? <==> AllFit(ops, state.columns, state.rows)
    ensures Apply(ops, state).Some? ==> Coherent(Apply(ops, state).value)
    ensures Apply(ops, state).Some? && WithinBound(state) ==> WithinBound(Apply(ops, state).value)
    ensures Apply(ops, state).Some? && CursorIn(state) ==> CursorIn(Apply(ops, state).value)
    ensures Apply(ops, state).Some? && state.columns > 0 && state.rows > 0 ==>
      Apply(ops, state).value.columns > 0 && Apply(ops, state).value.rows > 0
  {
    hide Coherent, Perform;
    if Apply(ops, state).Some? {
      PerformAllSize(ops, state);
      SizeStays(ops, state.columns, state.rows);
      if CursorIn(state) { CursorStaysIn(ops, state); }
    }
  }

  lemma {:induction false} CursorStaysIn(ops: seq<GridOp>, state: GridState)
    requires Coherent(state) && AllFit(ops, state.columns, state.rows) && CursorIn(state)
    ensures CursorIn(PerformAll(ops, state))
    decreases |ops|
  {
    hide Coherent, Perform;
    if ops != [] {
      PerformKeepsCoherent(ops[0], state);
      PerformCursor(ops[0], state);
      CursorStaysIn(ops[1..], Perform(ops[0], state));
    }
  }

  lemma PerformCursor(op: GridOp, state: GridState)
    requires Coherent(state) && Fits(op, state.columns, state.rows) && CursorIn(state)
    ensures CursorIn(Perform(op, state))
  {
    hide ShiftRows, ResizeState, PushLines, Overlay, Rectangular, HistoryCoherent, Masked, FromRuns;
    if op.Resize? {
      ResizeShape(state, op.columns, op.rows);
    } else if op.Push? {
      PushesKeepNewest(state, Lines(op.pushed));
    }
  }

  lemma {:induction false} SizeStays(ops: seq<GridOp>, columns: nat, rows: nat)
    requires AllFit(ops, columns, rows)
    ensures columns > 0 && rows > 0 ==> SizeAfter(ops, columns, rows).0 > 0 && SizeAfter(ops, columns, rows).1 > 0
    ensures columns <= MAX_COLUMNS && rows <= MAX_ROWS ==>
      SizeAfter(ops, columns, rows).0 <= MAX_COLUMNS && SizeAfter(ops, columns, rows).1 <= MAX_ROWS
    decreases |ops|
  {
    if ops != [] {
      if ops[0].Resize? { SizeStays(ops[1..], ops[0].columns, ops[0].rows); }
      else { SizeStays(ops[1..], columns, rows); }
    }
  }

  /** What a terminal shows: everything a delta says but the history, which each end keeps as it likes. */
  datatype Screen = Screen(columns: nat, rows: nat, grid: seq<Row>, cursor: Cursor, modes: bv32, title: string)

  function ScreenOf(state: GridState): Screen {
    Screen(state.columns, state.rows, state.grid, state.cursor, state.modes, state.title)
  }

  /** What one op does to a screen. */
  function OnScreen(op: GridOp, screen: Screen): Screen
    requires Rectangular(screen.grid, screen.columns, screen.rows) && Fits(op, screen.columns, screen.rows)
  {
    match op
    case Resize(columns, rows) =>
      if columns == screen.columns && rows == screen.rows then screen
      else screen.(columns := columns, rows := rows, grid := BlankGrid(columns, rows),
                   cursor := ClampCursor(screen.cursor, columns, rows))
    case Push(_) => screen
    case Scroll(top, bottom, lines) => screen.(grid := ShiftRows(screen.grid, screen.columns, top, bottom, lines))
    case Cells(row, column, runs) =>
      screen.(grid := screen.grid[row := Overlay(screen.grid[row], column, FromRuns(runs))])
    case MoveCursor(cursor) => screen.(cursor := cursor)
    case Modes(mask, values) => screen.(modes := Masked(screen.modes, mask, values))
    case Title(title) => screen.(title := title)
  }

  /** The screen a state shows changes by the op alone: the history has no part in it. */
  lemma PerformScreen(op: GridOp, state: GridState)
    requires Coherent(state) && Fits(op, state.columns, state.rows)
    ensures ScreenOf(Perform(op, state)) == OnScreen(op, ScreenOf(state))
  {
    hide ShiftRows, ResizeState, PushLines, Overlay, Fits, HistoryCoherent, Rectangular, Lines, BlankGrid, FromRuns, Masked;
    if op.Resize? {
      ResizeShape(state, op.columns, op.rows);
    } else if op.Push? {
      PushesKeepNewest(state, Lines(op.pushed));
    }
  }

  /** Two holders of one screen take the same deltas and stay holders of one screen, whatever histories they keep. */
  lemma {:induction false} DeltaActsOnScreens(ops: seq<GridOp>, a: GridState, b: GridState)
    requires Coherent(a) && Coherent(b) && ScreenOf(a) == ScreenOf(b)
    ensures Apply(ops, a).Some? <==> Apply(ops, b).Some?
    ensures Apply(ops, a).Some? ==> ScreenOf(Apply(ops, a).value) == ScreenOf(Apply(ops, b).value)
    decreases |ops|
  {
    hide Coherent, Perform, Fits, OnScreen;
    if ops != [] && AllFit(ops, a.columns, a.rows) {
      PerformKeepsCoherent(ops[0], a);
      PerformKeepsCoherent(ops[0], b);
      PerformScreen(ops[0], a);
      PerformScreen(ops[0], b);
      DeltaActsOnScreens(ops[1..], Perform(ops[0], a), Perform(ops[0], b));
    }
  }

  /** A screen but for its title, which no op looks at. */
  function Untitled(screen: Screen): Screen {
    screen.(title := "")
  }

  lemma UntitledOnScreen(op: GridOp, a: Screen, b: Screen)
    requires Rectangular(a.grid, a.columns, a.rows) && Rectangular(b.grid, b.columns, b.rows)
    requires Untitled(a) == Untitled(b) && Fits(op, a.columns, a.rows)
    ensures Untitled(OnScreen(op, a)) == Untitled(OnScreen(op, b))
  {
    hide ShiftRows, BlankGrid, Overlay, FromRuns, Masked, Fits;
    assert a == b.(title := a.title);
  }

  // ------------------------------------------------------------- what one op does, cell by cell

  /** A delta of one op is taken exactly if all that it names is there, and a size is one the protocol allows. */
  lemma OpTakenExactly(op: GridOp, state: GridState)
    requires Coherent(state)
    ensures Apply([op], state).Some? <==> InPlace(op, state.columns, state.rows)
  {
    hide Coherent;
    OneFits(op, state.columns, state.rows);
    if op.Push? {
      assert forall i :: 0 <= i < |op.pushed| ==> |Expand(op.pushed[i])| == TotalLength(op.pushed[i]);
    }
  }

  lemma OneFits(op: GridOp, columns: nat, rows: nat)
    ensures AllFit([op], columns, rows) <==> Fits(op, columns, rows)
  {
    hide Fits;
    assert [op][1..] == [];
  }

  /** Cells, rows and places that are there; history lines of some width that there is; a size of one to a thousand. */
  predicate InPlace(op: GridOp, columns: nat, rows: nat) {
    match op
    case Resize(c, r) => 1 <= c <= 1000 && 1 <= r <= 1000
    case Scroll(top, bottom, lines) => top <= bottom <= rows && top - bottom <= lines <= bottom - top
    case Cells(row, column, runs) => row < rows && column + |Expand(runs)| <= columns
    case MoveCursor(cursor) => cursor.row < rows && cursor.column <= columns
    case Push(pushed) => forall i :: 0 <= i < |pushed| ==> 1 <= |Expand(pushed[i])| <= columns
    case _ => true
  }

  /** Nothing of the state but its grid has changed. */
  predicate OnlyGrid(before: GridState, after: GridState) {
    after == before.(grid := after.grid)
  }

  /** Cells are laid where the op says, and every other cell stays. */
  lemma CellsAreLaid(row: nat, column: nat, runs: seq<CellRun>, state: GridState)
    requires Coherent(state) && Fits(Cells(row, column, runs), state.columns, state.rows)
    ensures var after := Perform(Cells(row, column, runs), state);
      && OnlyGrid(state, after) && |after.grid| == state.rows
      && (forall r :: 0 <= r < state.rows ==> |after.grid[r]| == state.columns)
      && forall r, c :: 0 <= r < state.rows && 0 <= c < state.columns ==>
           after.grid[r][c] == if r == row && column <= c < column + |Expand(runs)| then Expand(runs)[c - column] else state.grid[r][c]
  {
    hide HistoryCoherent;
  }

  predicate IsBlank(row: Row, columns: nat) {
    |row| == columns && forall c :: 0 <= c < columns ==> row[c] == BLANK
  }

  /** The rows of a band come from `lines` further down it, blanks from beyond it, and every other row stays. */
  lemma RowsAreScrolled(top: nat, bottom: nat, lines: int, state: GridState, r: nat)
    requires Coherent(state) && Fits(Scroll(top, bottom, lines), state.columns, state.rows) && r < state.rows
    ensures var after := Perform(Scroll(top, bottom, lines), state);
      && OnlyGrid(state, after) && |after.grid| == state.rows
      && (!(top <= r < bottom) ==> after.grid[r] == state.grid[r])
      && (top <= r < bottom && top <= r + lines < bottom ==> after.grid[r] == state.grid[r + lines])
      && (top <= r < bottom && !(top <= r + lines < bottom) ==> IsBlank(after.grid[r], state.columns))
  {
    ShiftRowsAt(state.grid, state.columns, top, bottom, lines);
    hide ShiftRows, HistoryCoherent;
  }

  /** Modes change in the bits the mask names, to what the values say of them, and in no others. */
  lemma BitsAreMasked(mask: bv32, values: bv32, word: bv32, state: GridState)
    requires Coherent(state)
    requires word & mask == values & mask
    requires word & !mask == state.modes & !mask
    ensures Perform(Modes(mask, values), state) == state.(modes := word)
  {
    MaskedIs(word, state.modes, mask, values);
    hide Coherent, Masked;
  }

  /** Lines as they came, and as a history of this width keeps them. */
  predicate AllKeptAs(pushed: seq<seq<CellRun>>, kept: seq<Row>, width: nat) {
    |kept| == |pushed| && forall i :: 0 <= i < |pushed| ==> KeptAs(Expand(pushed[i]), kept[i], width)
  }

  /** Pushed lines stand behind the history, each as its width keeps it, as far as the limit allows; nothing else changes. */
  lemma LinesArePushed(pushed: seq<seq<CellRun>>, kept: seq<Row>, state: GridState)
    requires Coherent(state) && Fits(Push(pushed), state.columns, state.rows)
    requires AllKeptAs(pushed, kept, HistoryWidth(state.columns))
    ensures var after := Perform(Push(pushed), state);
      && LiveHistory(after) == LastLines(LiveHistory(state) + kept, state.historyLimit)
      && ScreenOf(after) == ScreenOf(state) && after.historyLimit == state.historyLimit
  {
    var width := HistoryWidth(state.columns);
    forall i | 0 <= i < |pushed| ensures kept[i] == FitAll(Lines(pushed), width)[i] {
      FitKeeps(Expand(pushed[i]), width);
      assert KeptAs(Expand(pushed[i]), kept[i], width);
    }
    assert kept == FitAll(Lines(pushed), width);
    PushesAre(state, Lines(pushed));
    PushesKeepNewest(state, Lines(pushed));
    NoHistoryKept(state, kept);
    hide LiveHistory, PushLines, LastLines, HistoryCoherent, Fit, Rectangular;
  }

  lemma NoHistoryKept(state: GridState, kept: seq<Row>)
    requires HistoryCoherent(state)
    ensures state.historyLimit == 0 ==> LiveHistory(state) == LastLines(LiveHistory(state) + kept, 0) == []
  {
  }

  /** So it is with holders of screens that differ in their titles: they differ in no more than that afterwards. */
  lemma {:induction false} DeltaIgnoresTitles(ops: seq<GridOp>, a: GridState, b: GridState)
    requires Coherent(a) && Coherent(b) && Untitled(ScreenOf(a)) == Untitled(ScreenOf(b))
    ensures Apply(ops, a).Some? <==> Apply(ops, b).Some?
    ensures Apply(ops, a).Some? ==> Untitled(ScreenOf(Apply(ops, a).value)) == Untitled(ScreenOf(Apply(ops, b).value))
    decreases |ops|
  {
    CoherentIsRectangular(a);
    CoherentIsRectangular(b);
    hide Coherent, Perform, Fits, OnScreen, Rectangular;
    assert Untitled(ScreenOf(a)).columns == a.columns && Untitled(ScreenOf(b)).columns == b.columns;
    assert Untitled(ScreenOf(a)).rows == a.rows && Untitled(ScreenOf(b)).rows == b.rows;
    if ops != [] && AllFit(ops, a.columns, a.rows) {
      PerformKeepsCoherent(ops[0], a);
      PerformKeepsCoherent(ops[0], b);
      PerformScreen(ops[0], a);
      PerformScreen(ops[0], b);
      UntitledOnScreen(ops[0], ScreenOf(a), ScreenOf(b));
      DeltaIgnoresTitles(ops[1..], Perform(ops[0], a), Perform(ops[0], b));
    }
  }

  lemma CoherentIsRectangular(state: GridState)
    requires Coherent(state)
    ensures Rectangular(state.grid, state.columns, state.rows)
  {
  }

  // ------------------------------------------------------------- titles apart

  /** The same but for the title. */
  predicate Retitled(a: GridState, b: GridState) {
    a == b.(title := a.title)
  }

  lemma EnforceRetitled(a: GridState, b: GridState)
    requires Retitled(a, b)
    ensures Retitled(EnforceCapacity(a), EnforceCapacity(b))
  {
    var x, y := Advance(a), Advance(b);
    assert Retitled(x, y) by { LiveRetitled(a, b); }
    LiveRetitled(x, y);
    hide LiveHistory, Advance;
    assert Retitled(Reclaim(x), Reclaim(y));
  }

  lemma LiveRetitled(a: GridState, b: GridState)
    requires Retitled(a, b)
    ensures LiveHistory(a) == LiveHistory(b) && a.historyLimit == b.historyLimit && a.historyStart == b.historyStart
    ensures a.history == b.history && a.columns == b.columns
  {
  }

  lemma PushRetitled(a: GridState, b: GridState, line: Row)
    requires Retitled(a, b)
    ensures Retitled(PushLine(a, line), PushLine(b, line))
  {
    hide Fit, EnforceCapacity;
    var row := Fit(line, HistoryWidth(a.columns));
    EnforceRetitled(a.(history := a.history + [row]), b.(history := b.history + [row]));
  }

  lemma {:induction false} PushesRetitled(a: GridState, b: GridState, lines: seq<Row>)
    requires Retitled(a, b)
    ensures Retitled(PushLines(a, lines), PushLines(b, lines))
  {
    hide PushLine, Retitled;
    if lines != [] {
      PushesRetitled(a, b, lines[..|lines| - 1]);
      PushRetitled(PushLines(a, lines[..|lines| - 1]), PushLines(b, lines[..|lines| - 1]), lines[|lines| - 1]);
    }
  }

  lemma ResizeRetitled(a: GridState, b: GridState, columns: nat, rows: nat)
    requires Retitled(a, b)
    ensures Retitled(ResizeState(a, columns, rows), ResizeState(b, columns, rows))
  {
    LiveRetitled(a, b);
    hide PushLines, BlankGrid, ClampCursor, EnforceCapacity, LiveHistory;
    EnforceRetitled(a.(columns := columns, rows := rows, grid := BlankGrid(columns, rows), cursor := ClampCursor(a.cursor, columns, rows)),
                    b.(columns := columns, rows := rows, grid := BlankGrid(columns, rows), cursor := ClampCursor(b.cursor, columns, rows)));
    if a.columns != columns {
      var bareA := a.(columns := columns, rows := rows, grid := BlankGrid(columns, rows),
                      cursor := ClampCursor(a.cursor, columns, rows), history := [], historyStart := 0);
      PushesRetitled(bareA, bareA.(title := b.title), LiveHistory(a));
    }
  }

  /** No op reads the title: states that differ in it alone differ in no more afterwards, histories included. */
  lemma PerformRetitled(op: GridOp, a: GridState, b: GridState)
    requires Coherent(a) && Coherent(b) && Retitled(a, b) && Fits(op, a.columns, a.rows)
    ensures Fits(op, b.columns, b.rows) && Retitled(Perform(op, a), Perform(op, b))
  {
    hide ShiftRows, ResizeState, PushLines, Overlay, Masked, FromRuns, Fits, Coherent, Lines;
    if op.Resize? { ResizeRetitled(a, b, op.columns, op.rows); }
    if op.Push? { PushesRetitled(a, b, Lines(op.pushed)); }
  }

  lemma {:induction false} DeltaRetitled(ops: seq<GridOp>, a: GridState, b: GridState)
    requires Coherent(a) && Coherent(b) && Retitled(a, b)
    ensures Apply(ops, a).Some? <==> Apply(ops, b).Some?
    ensures Apply(ops, a).Some? ==> Retitled(Apply(ops, a).value, Apply(ops, b).value)
    decreases |ops|
  {
    hide Coherent, Perform, Fits;
    if ops != [] && AllFit(ops, a.columns, a.rows) {
      PerformKeepsCoherent(ops[0], a);
      PerformKeepsCoherent(ops[0], b);
      PerformRetitled(ops[0], a, b);
      DeltaRetitled(ops[1..], Perform(ops[0], a), Perform(ops[0], b));
    }
  }
}
