/**
 The terminal grid as a value, and the operations a delta is made of (src/common/grid_delta.cpp,
 src/common/proto.cpp). A grid is its rows; every row has as many cells as the grid has columns.
 */
module Grid {

  /** What the wire carries of a cell, and all that two cells are compared by. */
  datatype Cell = Cell(grapheme: string, width: nat, style: int)

  type Row = seq<Cell>

  const BLANK := Cell(" ", 1, 0)

  function Blanks(columns: nat): (row: Row)
    ensures |row| == columns
  {
    seq(columns, _ => BLANK)
  }

  const MAX_COLUMNS := 1000
  const MAX_ROWS := 1000
  const MAX_CELLS := MAX_COLUMNS * MAX_ROWS

  /** The largest number a size has on the wire. */
  const SIZE_MAX := 0xFFFF

  datatype Cursor = Cursor(column: nat, row: nat, style: nat, visible: nat, blink: nat)

  const HOME := Cursor(0, 0, 0, 1, 0)

  /**
   `history` holds whole lines, oldest first, and its live part starts `historyStart` lines in: the lines in
   front of that are storage waiting to be reclaimed.
   */
  datatype GridState = GridState(columns: nat, rows: nat, grid: seq<Row>, history: seq<Row>, historyStart: nat,
                                 historyLimit: nat, cursor: Cursor, modes: bv32, title: string)

  /** The grid holds exactly as many rows and cells as the size says. */
  predicate Rectangular(grid: seq<Row>, columns: nat, rows: nat) {
    |grid| == rows && forall r :: 0 <= r < |grid| ==> |grid[r]| == columns
  }

  function BlankGrid(columns: nat, rows: nat): (grid: seq<Row>)
    ensures Rectangular(grid, columns, rows)
  {
    seq(rows, _ => Blanks(columns))
  }

  function BlankState(columns: nat, rows: nat, historyLimit: nat): GridState {
    GridState(columns, rows, BlankGrid(columns, rows), [], 0, historyLimit, HOME, 0, "")
  }

  // ------------------------------------------------------------- runs of cells

  datatype CellRun = CellRun(length: nat, cell: Cell)

  /** A blank state: unstyled spaces one column wide, the cursor showing at the origin, no modes, no title, no history. */
  lemma BlankIs(columns: nat, rows: nat, historyLimit: nat)
    ensures var blank := BlankState(columns, rows, historyLimit);
      && (blank.columns, blank.rows, blank.historyLimit) == (columns, rows, historyLimit)
      && |blank.grid| == rows && (forall r :: 0 <= r < rows ==> |blank.grid[r]| == columns)
      && (forall r, c :: 0 <= r < rows && 0 <= c < columns ==> blank.grid[r][c] == Cell(" ", 1, 0))
      && blank.cursor == Cursor(0, 0, 0, 1, 0) && blank.modes == 0 && blank.title == ""
      && blank.history == [] && blank.historyStart == 0
  {
  }

  const RUN_MAX := 0xFFFF

  function TotalLength(runs: seq<CellRun>): nat {
    if runs == [] then 0 else TotalLength(runs[..|runs| - 1]) + runs[|runs| - 1].length
  }

  function Expand(runs: seq<CellRun>): (cells: Row)
    ensures |cells| == TotalLength(runs)
  {
    if runs == [] then [] else Expand(runs[..|runs| - 1]) + seq(runs[|runs| - 1].length, _ => runs[|runs| - 1].cell)
  }

  /** `from_runs`: nothing at all when the runs claim more cells than any grid may have. */
  function FromRuns(runs: seq<CellRun>): Row {
    if TotalLength(runs) > MAX_CELLS then [] else Expand(runs)
  }

  predicate RunsFit(runs: seq<CellRun>) {
    forall i :: 0 <= i < |runs| ==> 1 <= runs[i].length <= 0xFFFF
  }

  /** No run stops before its length is full or another cell comes: there is no encoding of fewer runs. */
  predicate NoneLonger(runs: seq<CellRun>) {
    forall i :: 0 <= i < |runs| - 1 ==> runs[i].length == 0xFFFF || runs[i].cell != runs[i + 1].cell
  }

  /** `to_runs`: a run-length encoding loses no cell, and no run outgrows the two bytes of its length or stops short. */
  method ToRuns(cells: Row) returns (runs: seq<CellRun>)
    ensures Expand(runs) == cells && RunsFit(runs) && NoneLonger(runs)
  {
    runs := [];
    NoRuns();
    PrefixEnds(cells);
    hide Expand, RunsFit, NoneLonger;
    for i := 0 to |cells|
      invariant Expand(runs) == cells[..i] && RunsFit(runs) && NoneLonger(runs)
    {
      PrefixGrows(cells, i);
      var n := |runs|;
      if n > 0 && runs[n - 1].length < RUN_MAX && runs[n - 1].cell == cells[i] {
        LongerRun(runs, cells[i]);
        runs := runs[n - 1 := CellRun(runs[n - 1].length + 1, cells[i])];
      } else {
        NewRun(runs, cells[i]);
        NewRunIsNeeded(runs, cells[i]);
        runs := runs + [CellRun(1, cells[i])];
      }
    }
  }

  lemma NoRuns()
    ensures Expand([]) == [] && RunsFit([]) && NoneLonger([])
  {
  }

  lemma PrefixGrows(cells: Row, i: nat)
    requires i < |cells|
    ensures cells[..i + 1] == cells[..i] + [cells[i]]
  {
  }

  lemma PrefixEnds(cells: Row)
    ensures cells[..0] == [] && cells[..|cells|] == cells
  {
  }

  lemma NewRun(before: seq<CellRun>, cell: Cell)
    ensures Expand(before + [CellRun(1, cell)]) == Expand(before) + [cell]
    ensures RunsFit(before) ==> RunsFit(before + [CellRun(1, cell)])
  {
    assert (before + [CellRun(1, cell)])[..|before|] == before;
    assert seq(1, _ => cell) == [cell];
  }

  lemma NewRunIsNeeded(before: seq<CellRun>, cell: Cell)
    requires NoneLonger(before) && RunsFit(before)
    requires before != [] ==> before[|before| - 1].length >= 0xFFFF || before[|before| - 1].cell != cell
    ensures NoneLonger(before + [CellRun(1, cell)])
  {
  }

  lemma LongerRun(before: seq<CellRun>, cell: Cell)
    requires before != [] && before[|before| - 1].cell == cell
    ensures var n := |before| - 1; var after := before[n := CellRun(before[n].length + 1, cell)];
      Expand(after) == Expand(before) + [cell] && (RunsFit(before) && before[n].length < RUN_MAX ==> RunsFit(after))
      && (NoneLonger(before) ==> NoneLonger(after))
  {
    var n := |before| - 1;
    var after := before[n := CellRun(before[n].length + 1, cell)];
    assert after[..n] == before[..n];
    assert seq(before[n].length + 1, _ => cell) == seq(before[n].length, _ => cell) + [cell];
  }

  // ------------------------------------------------------------- the history

  function HistoryWidth(columns: nat): nat {
    if columns == 0 then 1 else columns
  }

  function LiveHistory(state: GridState): seq<Row> {
    if state.historyStart < |state.history| then state.history[state.historyStart..] else []
  }

  /** Padded with blanks or cut: a history line is read at the width the grid has now. */
  function Fit(line: Row, width: nat): (row: Row)
    ensures |row| == width
  {
    seq(width, c requires 0 <= c < width => if c < |line| then line[c] else BLANK)
  }

  /** The live part starts later when there is more of it than the limit allows. */
  function Advance(state: GridState): GridState {
    var live := |LiveHistory(state)|;
    if live > state.historyLimit then state.(historyStart := state.historyStart + (live - state.historyLimit)) else state
  }

  /** What lies in front of the live part is given back once it outweighs it. */
  function Reclaim(state: GridState): GridState {
    if |LiveHistory(state)| <= state.historyStart <= |state.history| && state.historyStart > 0
    then state.(history := state.history[state.historyStart..], historyStart := 0)
    else state
  }

  function EnforceCapacity(state: GridState): GridState {
    if state.historyLimit == 0 then state.(history := [], historyStart := 0) else Reclaim(Advance(state))
  }

  function PushLine(state: GridState, line: Row): GridState {
    if state.historyLimit == 0 then state
    else EnforceCapacity(state.(history := state.history + [Fit(line, HistoryWidth(state.columns))]))
  }

  function PushLines(state: GridState, lines: seq<Row>): GridState {
    if lines == [] then state else PushLine(PushLines(state, lines[..|lines| - 1]), lines[|lines| - 1])
  }

  function LastLines(lines: seq<Row>, n: nat): seq<Row> {
    if |lines| <= n then lines else lines[|lines| - n..]
  }

  /**
   The history is held in rows of the current width, never more of them than its limit, and the storage in
   front of it never outweighs it.
   */
  predicate HistoryCoherent(state: GridState) {
    && state.historyStart <= |state.history|
    && (forall i :: 0 <= i < |state.history| ==> |state.history[i]| == HistoryWidth(state.columns))
    && |LiveHistory(state)| <= state.historyLimit
    && (state.historyStart == 0 || state.historyStart < |LiveHistory(state)|)
  }

  /** Enforcing the capacity forgets the oldest lines over the limit, and nothing else a reader can see. */
  lemma EnforceKeepsNewest(state: GridState)
    requires state.historyStart <= |state.history|
    requires state.historyStart == 0 || state.historyStart < |LiveHistory(state)|
    ensures var next := EnforceCapacity(state);
      && LiveHistory(next) == LastLines(LiveHistory(state), state.historyLimit)
      && next.historyStart <= |next.history|
      && (next.historyStart == 0 || next.historyStart < |LiveHistory(next)|)
      && (forall row :: row in next.history ==> row in state.history)
      && next == state.(history := next.history, historyStart := next.historyStart)
  {
    if state.historyLimit > 0 {
      AdvanceKeeps(state);
      ReclaimKeeps(Advance(state));
    }
  }

  lemma AdvanceKeeps(state: GridState)
    requires state.historyStart <= |state.history|
    ensures var next := Advance(state);
      && next.historyStart <= |next.history| && next == state.(historyStart := next.historyStart)
      && LiveHistory(next) == LastLines(LiveHistory(state), state.historyLimit)
  {
    TailOfTail(state.history, state.historyStart, |state.history| - state.historyStart - state.historyLimit);
  }

  lemma ReclaimKeeps(state: GridState)
    requires state.historyStart <= |state.history|
    ensures var next := Reclaim(state);
      && LiveHistory(next) == LiveHistory(state) && next.historyStart <= |next.history|
      && (next.historyStart == 0 || next.historyStart < |LiveHistory(next)|)
      && (forall row :: row in next.history ==> row in state.history)
      && next == state.(history := next.history, historyStart := next.historyStart)
  {
    assert state.history[0..] == state.history;
  }

  lemma TailOfTail(lines: seq<Row>, start: nat, drop: int)
    requires start <= |lines|
    ensures 0 <= drop <= |lines| - start ==> lines[start..][drop..] == lines[start + drop..]
  {
  }

  /** One line more: what a reader sees is the newest lines the limit allows, whatever the storage does. */
  lemma PushKeepsNewest(state: GridState, line: Row)
    requires HistoryCoherent(state)
    ensures var next := PushLine(state, line);
      && HistoryCoherent(next)
      && LiveHistory(next) == LastLines(LiveHistory(state) + [Fit(line, HistoryWidth(state.columns))], state.historyLimit)
      && next == state.(history := next.history, historyStart := next.historyStart)
  {
    hide EnforceCapacity, Fit;
    if state.historyLimit > 0 {
      var row := Fit(line, HistoryWidth(state.columns));
      var longer := state.(history := state.history + [row]);
      assert LiveHistory(longer) == LiveHistory(state) + [row];
      EnforceKeepsNewest(longer);
      forall i | 0 <= i < |PushLine(state, line).history|
        ensures |PushLine(state, line).history[i]| == HistoryWidth(state.columns)
      {
        assert PushLine(state, line).history[i] in longer.history;
      }
    }
  }

  lemma {:induction false} PushesKeepNewest(state: GridState, lines: seq<Row>)
    requires HistoryCoherent(state)
    ensures var next := PushLines(state, lines);
      HistoryCoherent(next) && next == state.(history := next.history, historyStart := next.historyStart)
  {
    if lines != [] {
      PushesKeepNewest(state, lines[..|lines| - 1]);
      PushKeepsNewest(PushLines(state, lines[..|lines| - 1]), lines[|lines| - 1]);
    }
  }

  /** Lines as a history of this width keeps them. */
  function FitAll(lines: seq<Row>, width: nat): (fit: seq<Row>)
    ensures |fit| == |lines|
  {
    seq(|lines|, i requires 0 <= i < |lines| => Fit(lines[i], width))
  }

  lemma FitAllMore(lines: seq<Row>, width: nat)
    requires lines != []
    ensures FitAll(lines, width) == FitAll(lines[..|lines| - 1], width) + [Fit(lines[|lines| - 1], width)]
  {
  }

  /** The newest of the newest and more of them are the newest of all. */
  lemma NewestOfAll(lines: seq<Row>, more: seq<Row>, last: seq<Row>, n: nat)
    ensures LastLines(LastLines(lines + more, n) + last, n) == LastLines(lines + (more + last), n)
  {
    hide LastLines;
    Regrouped(lines, more, last);
    NewestOfTwo(lines + more, last, n);
  }

  lemma Regrouped(lines: seq<Row>, more: seq<Row>, last: seq<Row>)
    ensures lines + (more + last) == lines + more + last
  {
  }

  lemma NewestOfTwo(lines: seq<Row>, last: seq<Row>, n: nat)
    ensures LastLines(LastLines(lines, n) + last, n) == LastLines(lines + last, n)
  {
    FewLines(lines, n);
    hide LastLines;
    if |lines| >= n {
      var all, start := lines + last, |lines| - n;
      EnoughLines(lines, n);
      TailThenMore(lines, last, start);
      EnoughLines(all[start..], n);
      EnoughLines(all, n);
      TailOfTail(all, start, |last|);
    }
  }

  lemma FewLines(lines: seq<Row>, n: nat)
    ensures |lines| <= n ==> LastLines(lines, n) == lines
  {
  }

  lemma EnoughLines(lines: seq<Row>, n: nat)
    requires n <= |lines|
    ensures LastLines(lines, n) == lines[|lines| - n..]
  {
  }

  lemma TailThenMore(lines: seq<Row>, last: seq<Row>, start: nat)
    requires start <= |lines|
    ensures lines[start..] + last == (lines + last)[start..]
  {
  }

  lemma NewestOfNone(state: GridState)
    requires HistoryCoherent(state)
    ensures LiveHistory(state) == LastLines(LiveHistory(state) + [], state.historyLimit)
  {
    assert LiveHistory(state) + [] == LiveHistory(state);
  }

  /** Lines pushed one after another leave the newest lines of what was there and them. */
  lemma {:induction false} PushesAre(state: GridState, lines: seq<Row>)
    requires HistoryCoherent(state)
    ensures LiveHistory(PushLines(state, lines))
      == LastLines(LiveHistory(state) + FitAll(lines, HistoryWidth(state.columns)), state.historyLimit)
  {
    NewestOfNone(state);
    hide LiveHistory, LastLines, PushLine, Fit, HistoryCoherent, HistoryWidth;
    if lines != [] {
      var front, last, width := lines[..|lines| - 1], lines[|lines| - 1], HistoryWidth(state.columns);
      PushesAre(state, front);
      PushesKeepNewest(state, front);
      PushKeepsNewest(PushLines(state, front), last);
      FitAllMore(lines, width);
      hide FitAll;
      NewestOfAll(LiveHistory(state), FitAll(front, width), [Fit(last, width)], state.historyLimit);
    }
  }

  /** A line as a history of this width keeps it: its own cells, as many as there is room for, and blanks behind them. */
  predicate KeptAs(line: Row, kept: Row, width: nat) {
    && |kept| == width
    && (forall c :: 0 <= c < width && c < |line| ==> kept[c] == line[c])
    && (forall c :: |line| <= c < width ==> kept[c] == BLANK)
  }

  /** So a line of the history's own width is kept as it is. */
  lemma WholeLineKept(line: Row, kept: Row)
    ensures KeptAs(line, kept, |line|) <==> kept == line
  {
  }

  lemma FitKeeps(line: Row, width: nat)
    ensures KeptAs(line, Fit(line, width), width)
  {
  }

  /** What a pushed line leaves: itself, last, as the width keeps it, and in front of it what there is room for. */
  lemma PushedLineStands(state: GridState, line: Row)
    requires HistoryCoherent(state) && state.historyLimit > 0
    ensures var live := LiveHistory(PushLine(state, line));
      && live != [] && KeptAs(line, live[|live| - 1], HistoryWidth(state.columns))
      && live[..|live| - 1] == LastLines(LiveHistory(state), state.historyLimit - 1)
  {
    PushKeepsNewest(state, line);
    FitKeeps(line, HistoryWidth(state.columns));
    hide Fit, PushLine, HistoryCoherent, LiveHistory, KeptAs;
    LastOfOneMore(LiveHistory(state), Fit(line, HistoryWidth(state.columns)), state.historyLimit);
  }

  lemma LastOfOneMore(lines: seq<Row>, line: Row, n: nat)
    requires n > 0
    ensures var last := LastLines(lines + [line], n);
      last != [] && last[|last| - 1] == line && last[..|last| - 1] == LastLines(lines, n - 1)
  {
  }

  /** Lines of the history's own width are kept as they are. */
  lemma WholeLinesPushed(state: GridState, lines: seq<Row>)
    requires HistoryCoherent(state) && forall i :: 0 <= i < |lines| ==> |lines[i]| == HistoryWidth(state.columns)
    ensures LiveHistory(PushLines(state, lines)) == LastLines(LiveHistory(state) + lines, state.historyLimit)
  {
    PushesAre(state, lines);
    forall i | 0 <= i < |lines| ensures FitAll(lines, HistoryWidth(state.columns))[i] == lines[i] {
      FitKeeps(lines[i], HistoryWidth(state.columns));
      WholeLineKept(lines[i], Fit(lines[i], HistoryWidth(state.columns)));
    }
    assert FitAll(lines, HistoryWidth(state.columns)) == lines;
  }

  // ------------------------------------------------------------- a new size

  function Min(a: nat, b: nat): nat { if a < b then a else b }

  /** The cursor brought inside the grid; one past the last column is where a filled row leaves it. */
  function ClampCursor(cursor: Cursor, columns: nat, rows: nat): Cursor {
    cursor.(column := Min(cursor.column, columns), row := Min(cursor.row, if rows == 0 then 0 else rows - 1))
  }

  /** `resize_state`: the grid becomes blanks, the history is re-laid at the new width, the cursor comes along. */
  function ResizeState(state: GridState, columns: nat, rows: nat): GridState {
    if state.columns == columns && state.rows == rows then state
    else
      var sized := state.(columns := columns, rows := rows, grid := BlankGrid(columns, rows),
                          cursor := ClampCursor(state.cursor, columns, rows));
      if state.columns == columns then EnforceCapacity(sized)
      else PushLines(sized.(history := [], historyStart := 0), LiveHistory(state))
  }

  /** A new size loses no line of the history: each is kept as the new width keeps it. */
  lemma RelaidHistory(state: GridState, columns: nat, rows: nat)
    requires HistoryCoherent(state)
    ensures var was, now := LiveHistory(state), LiveHistory(ResizeState(state, columns, rows));
      |now| == |was| && forall i :: 0 <= i < |was| ==> KeptAs(was[i], now[i], HistoryWidth(columns))
  {
    var was, width := LiveHistory(state), HistoryWidth(columns);
    if state.columns == columns {
      if state.rows != rows { SameWidthHistory(state, columns, rows); }
      forall i | 0 <= i < |was| ensures KeptAs(was[i], was[i], width) {
        assert was[i] == state.history[state.historyStart + i];
      }
    } else {
      var sized := state.(columns := columns, rows := rows, grid := BlankGrid(columns, rows),
                          cursor := ClampCursor(state.cursor, columns, rows));
      var bare := sized.(history := [], historyStart := 0);
      PushesAre(bare, was);
      assert LiveHistory(bare) + FitAll(was, width) == FitAll(was, width);
      forall i | 0 <= i < |was| ensures KeptAs(was[i], FitAll(was, width)[i], width) { FitKeeps(was[i], width); }
    }
  }

  lemma SameWidthHistory(state: GridState, columns: nat, rows: nat)
    requires HistoryCoherent(state) && state.columns == columns && state.rows != rows
    ensures LiveHistory(ResizeState(state, columns, rows)) == LiveHistory(state)
  {
    EnforceKeepsNewest(state.(columns := columns, rows := rows, grid := BlankGrid(columns, rows),
                              cursor := ClampCursor(state.cursor, columns, rows)));
  }

  // ------------------------------------------------------------- the operations of a delta

  datatype GridOp =
    | Scroll(top: nat, bottom: nat, lines: int)
    | Cells(row: nat, column: nat, runs: seq<CellRun>)
    | MoveCursor(cursor: Cursor)
    | Modes(mask: bv32, values: bv32)
    | Title(title: string)
    | Push(pushed: seq<seq<CellRun>>)
    | Resize(columns: nat, rows: nat)

  function Abs(n: int): nat { if n < 0 then -n else n }

  /** Whether an op fits a grid of this size. */
  predicate Fits(op: GridOp, columns: nat, rows: nat) {
    match op
    case Resize(c, r) => 0 < c <= MAX_COLUMNS && 0 < r <= MAX_ROWS
    case Scroll(top, bottom, lines) => top <= bottom <= rows && Abs(lines) <= bottom - top
    case Cells(row, column, runs) => row < rows && column <= columns && TotalLength(runs) <= columns - column
    case MoveCursor(cursor) => cursor.row < rows && cursor.column <= columns
    case Push(pushed) => forall i :: 0 <= i < |pushed| ==> 0 < TotalLength(pushed[i]) <= columns
    case _ => true
  }

  /** Each op fits the size the grid will have when it is reached. */
  predicate AllFit(ops: seq<GridOp>, columns: nat, rows: nat)
    decreases |ops|
  {
    if ops == [] then true
    else
      && Fits(ops[0], columns, rows)
      && if ops[0].Resize? then AllFit(ops[1..], ops[0].columns, ops[0].rows) else AllFit(ops[1..], columns, rows)
  }

  /** A band of rows moved up by `lines` (down when negative), blanks behind it. */
  function ShiftBand(band: seq<Row>, columns: nat, lines: int): (out: seq<Row>)
    ensures |out| == |band|
  {
    if band == [] || lines == 0 then band
    else if Abs(lines) >= |band| then BlankGrid(columns, |band|)
    else if lines > 0 then band[lines..] + BlankGrid(columns, lines)
    else BlankGrid(columns, -lines) + band[..|band| + lines]
  }

  /** `shift_rows`: the rows of `[top, bottom)` shifted, the others where they were. */
  function ShiftRows(grid: seq<Row>, columns: nat, top: nat, bottom: nat, lines: int): (out: seq<Row>)
    requires top <= bottom <= |grid|
    ensures |out| == |grid|
  {
    grid[..top] + ShiftBand(grid[top..bottom], columns, lines) + grid[bottom..]
  }

  /** Row `r` of a grid with a shifted band. */
  function ShiftedRow(grid: seq<Row>, columns: nat, top: nat, bottom: nat, lines: int, r: nat): Row
    requires top <= bottom <= |grid| && r < |grid|
  {
    if r < top || bottom <= r then grid[r]
    else if top <= r + lines < bottom then grid[r + lines]
    else Blanks(columns)
  }

  /** Where each row of a shifted band comes from. */
  lemma ShiftRowsAt(grid: seq<Row>, columns: nat, top: nat, bottom: nat, lines: int)
    requires top <= bottom <= |grid|
    ensures var out := ShiftRows(grid, columns, top, bottom, lines);
      forall r :: 0 <= r < |grid| ==> out[r] == ShiftedRow(grid, columns, top, bottom, lines, r)
  {
    hide ShiftRows, ShiftedRow;
    forall r | 0 <= r < |grid|
      ensures ShiftRows(grid, columns, top, bottom, lines)[r] == ShiftedRow(grid, columns, top, bottom, lines, r)
    {
      ShiftRowAt(grid, columns, top, bottom, lines, r);
    }
  }

  lemma ShiftRowAt(grid: seq<Row>, columns: nat, top: nat, bottom: nat, lines: int, r: nat)
    requires top <= bottom <= |grid| && r < |grid|
    ensures ShiftRows(grid, columns, top, bottom, lines)[r] == ShiftedRow(grid, columns, top, bottom, lines, r)
  {
    hide ShiftBand, Blanks;
    Pieces(grid[..top], ShiftBand(grid[top..bottom], columns, lines), grid[bottom..], r);
    if top <= r < bottom {
      ShiftBandAt(grid[top..bottom], columns, lines, r - top);
      if top <= r + lines < bottom { BandAt(grid, top, bottom, r + lines); }
    }
  }

  lemma ShiftBandAt(band: seq<Row>, columns: nat, lines: int, k: nat)
    requires k < |band|
    ensures ShiftBand(band, columns, lines)[k] == if 0 <= k + lines < |band| then band[k + lines] else Blanks(columns)
  {
  }

  lemma BandAt(grid: seq<Row>, top: nat, bottom: nat, r: nat)
    requires top <= r < bottom <= |grid|
    ensures grid[top..bottom][r - top] == grid[r]
  {
  }

  lemma Pieces(a: seq<Row>, b: seq<Row>, c: seq<Row>, r: nat)
    requires r < |a| + |b| + |c|
    ensures (a + b + c)[r] == if r < |a| then a[r] else if r < |a| + |b| then b[r - |a|] else c[r - |a| - |b|]
  {
  }

  /** Cells laid over a row from a column on. */
  function Overlay(row: Row, column: nat, cells: Row): (out: Row)
    requires column + |cells| <= |row|
    ensures |out| == |row|
  {
    row[..column] + cells + row[column + |cells|..]
  }

  /** The mask says which bits the op speaks for; the others stay as they are. */
  function Masked(modes: bv32, mask: bv32, values: bv32): bv32 {
    (modes & !mask) | (values & mask)
  }

  function ChangedBits(before: bv32, after: bv32): bv32 { before ^ after }

  const EVERY_BIT: bv32 := 0xFFFF_FFFF

  /** A mask of the bits that changed carries one word of modes over to another; so does a mask of every bit. */
  lemma ChangedMask(before: bv32, after: bv32)
    ensures Masked(before, ChangedBits(before, after), after) == after
    ensures Masked(before, EVERY_BIT, after) == after
  {
  }

  /** The one word that has the bits the mask names as the values say, and the others as they were. */
  lemma MaskedIs(word: bv32, modes: bv32, mask: bv32, values: bv32)
    requires word & mask == values & mask
    requires word & !mask == modes & !mask
    ensures Masked(modes, mask, values) == word
  {
    SplitWord(word, mask);
  }

  lemma SplitWord(word: bv32, mask: bv32)
    ensures (word & !mask) | (word & mask) == word
  {
  }

  /** The cursor is brought no further than it has to be. */
  lemma ClampIsNearest(cursor: Cursor, columns: nat, rows: nat)
    ensures var now := ClampCursor(cursor, columns, rows);
      && now.column <= columns && (now.column == cursor.column || (now.column == columns && columns < cursor.column))
      && now.row <= rows && (rows > 0 ==> now.row < rows) && (now.row == cursor.row || (now.row + 1 >= rows && rows <= cursor.row))
      && now.style == cursor.style && now.visible == cursor.visible && now.blink == cursor.blink
  {
  }

  function Lines(pushed: seq<seq<CellRun>>): (lines: seq<Row>)
    ensures |lines| == |pushed|
  {
    seq(|pushed|, i requires 0 <= i < |pushed| => FromRuns(pushed[i]))
  }

  /** A state whose parts agree: the invariant a mirror keeps whatever a peer sends. */
  predicate Coherent(state: GridState) {
    && Rectangular(state.grid, state.columns, state.rows) && HistoryCoherent(state)
    && state.columns <= SIZE_MAX && state.rows <= SIZE_MAX
  }

  /** The cursor stands inside the grid, or one past the last column of a row it has filled. */
  predicate CursorIn(state: GridState) {
    state.cursor.column <= state.columns && state.cursor.row <= (if state.rows == 0 then 0 else state.rows - 1)
  }

  /** The bound both ends refuse the same number at. */
  predicate WithinBound(state: GridState) {
    state.columns <= MAX_COLUMNS && state.rows <= MAX_ROWS
  }


  /** What one op does to a state it fits. */
  function Perform(op: GridOp, state: GridState): GridState
    requires Coherent(state) && Fits(op, state.columns, state.rows)
  {
    match op
    case Resize(columns, rows) => ResizeState(state, columns, rows)
    case Push(pushed) => if state.historyLimit == 0 then state else PushLines(state, Lines(pushed))
    case Scroll(top, bottom, lines) => state.(grid := ShiftRows(state.grid, state.columns, top, bottom, lines))
    case Cells(row, column, runs) =>
      state.(grid := state.grid[row := Overlay(state.grid[row], column, FromRuns(runs))])
    case MoveCursor(cursor) => state.(cursor := cursor)
    case Modes(mask, values) => state.(modes := Masked(state.modes, mask, values))
    case Title(title) => state.(title := title)
  }
}
