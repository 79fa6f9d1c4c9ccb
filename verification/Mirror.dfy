/** A client's mirror of one terminal (src/client/mirror.cpp). */
module Mirror {
  import opened Wrappers
  import opened Grid
  import opened GridDelta
  import opened Wire
  import D = Damage

  // ------------------------------------------------------------- a grid on the wire

  function Flatten(grid: seq<Row>): Row {
    if grid == [] then [] else Flatten(grid[..|grid| - 1]) + grid[|grid| - 1]
  }

  /** The cells as rows of `columns`. */
  function Unflatten(cells: Row, columns: nat, rows: nat): (grid: seq<Row>)
    requires |cells| == columns * rows
    ensures Rectangular(grid, columns, rows)
    decreases rows
  {
    if rows == 0 then []
    else
      assert columns * (rows - 1) == columns * rows - columns;
      var n := columns * (rows - 1);
      Unflatten(cells[..n], columns, rows - 1) + [cells[n..]]
  }

  lemma {:induction false} FlattenSize(grid: seq<Row>, columns: nat, rows: nat)
    requires Rectangular(grid, columns, rows)
    ensures |Flatten(grid)| == columns * rows
  {
    if grid != [] {
      FlattenSize(grid[..rows - 1], columns, rows - 1);
      assert columns * (rows - 1) == columns * rows - columns;
    }
  }

  lemma {:induction false} UnflattenOfFlatten(grid: seq<Row>, columns: nat, rows: nat)
    requires Rectangular(grid, columns, rows)
    ensures |Flatten(grid)| == columns * rows && Unflatten(Flatten(grid), columns, rows) == grid
  {
    FlattenSize(grid, columns, rows);
    if grid != [] {
      var front := grid[..rows - 1];
      UnflattenOfFlatten(front, columns, rows - 1);
      assert columns * (rows - 1) == columns * rows - columns;
      assert Flatten(grid)[..columns * (rows - 1)] == Flatten(front);
      assert Flatten(grid)[columns * (rows - 1)..] == grid[rows - 1];
    }
  }

  /** `decode_grid`: nothing when the runs are not exactly a grid of that size. */
  function DecodeGrid(runs: seq<CellRun>, columns: nat, rows: nat): Option<seq<Row>> {
    if columns > MAX_COLUMNS || rows > MAX_ROWS || TotalLength(runs) != columns * rows then None
    else
      assert columns * rows <= MAX_CELLS by { Product(columns, rows); }
      Some(Unflatten(FromRuns(runs), columns, rows))
  }

  /** Row `r` of a grid cut out of cells is the stretch of them that begins behind `r` rows. */
  lemma {:induction false} UnflattenAt(cells: Row, columns: nat, rows: nat, r: nat)
    requires |cells| == columns * rows && r < rows
    ensures columns * r + columns <= |cells| && Unflatten(cells, columns, rows)[r] == cells[columns * r..columns * r + columns]
    decreases rows
  {
    var n := FrontSize(columns, rows);
    RowIn(cells, columns, rows, n, r);
    hide *;
    if r < rows - 1 {
      UnflattenAt(cells[..n], columns, rows - 1, r);
      SliceOfFront(cells, n, columns * r, columns);
    }
  }

  lemma FrontSize(columns: nat, rows: nat) returns (n: nat)
    requires rows > 0
    ensures n == columns * (rows - 1) && n + columns == columns * rows
  {
    n := columns * (rows - 1);
  }

  lemma RowIn(cells: Row, columns: nat, rows: nat, n: nat, r: nat)
    requires |cells| == columns * rows && n == columns * (rows - 1) && n + columns == |cells| && r < rows
    ensures |cells[..n]| == n && Unflatten(cells, columns, rows)[r]
      == if r < rows - 1 then Unflatten(cells[..n], columns, rows - 1)[r] else cells[n..n + columns]
  {
    assert cells[n..] == cells[n..n + columns];
  }

  lemma SliceOfFront(cells: Row, n: nat, a: nat, count: nat)
    requires a + count <= n <= |cells|
    ensures cells[..n][a..a + count] == cells[a..a + count]
  {
  }

  /**
   Runs decode exactly if there are as many cells in them as the size says and the protocol allows it; and then, row by row,
   into those cells.
   */
  lemma DecodesExactly(runs: seq<CellRun>, columns: nat, rows: nat, r: nat)
    ensures DecodeGrid(runs, columns, rows).Some? <==> columns <= 1000 && rows <= 1000 && |Expand(runs)| == columns * rows
    ensures DecodeGrid(runs, columns, rows).Some? && r < rows ==>
      && |DecodeGrid(runs, columns, rows).value| == rows && columns * r + columns <= |Expand(runs)|
      && DecodeGrid(runs, columns, rows).value[r] == Expand(runs)[columns * r..columns * r + columns]
  {
    if columns <= MAX_COLUMNS && rows <= MAX_ROWS && TotalLength(runs) == columns * rows {
      Product(columns, rows);
      if r < rows { UnflattenAt(FromRuns(runs), columns, rows, r); }
      hide Unflatten, Expand;
    }
  }

  lemma Product(columns: nat, rows: nat)
    requires columns <= MAX_COLUMNS && rows <= MAX_ROWS
    ensures columns * rows <= MAX_CELLS
  {
    TimesKeepsOrder(columns, rows, MAX_ROWS);
  }

  lemma {:induction false} TimesKeepsOrder(n: nat, a: nat, b: nat)
    requires a <= b
    ensures n * a <= n * b
  {
    if n > 0 {
      TimesKeepsOrder(n - 1, a, b);
      assert n * a == (n - 1) * a + a && n * b == (n - 1) * b + b;
    }
  }

  /** `encode_grid`, and that what it writes decodes to the same grid, if it is of a size the protocol allows. */
  method EncodeGrid(grid: seq<Row>, columns: nat, rows: nat) returns (runs: seq<CellRun>)
    requires Rectangular(grid, columns, rows)
    ensures columns <= MAX_COLUMNS && rows <= MAX_ROWS ==> DecodeGrid(runs, columns, rows) == Some(grid)
    ensures Expand(runs) == Flatten(grid) && RunsFit(runs)
  {
    runs := ToRuns(Flatten(grid));
    UnflattenOfFlatten(grid, columns, rows);
    if columns <= MAX_COLUMNS && rows <= MAX_ROWS { Product(columns, rows); }
  }

  // ------------------------------------------------------------- what a mirror holds

  const SEQUENCES := 0x1_0000_0000

  /** The part of a mirror the delta stream writes. */
  datatype Held = Held(state: GridState, sequence: nat, needsSnapshot: bool)

  /** The state a snapshot is adopted as; a grid that does not decode leaves it blank. */
  function ScreenAdopted(snapshot: TerminalState, limit: nat): GridState {
    var blank := BlankState(snapshot.columns, snapshot.rows, limit);
    match DecodeGrid(snapshot.grid, snapshot.columns, snapshot.rows)
    case Some(grid) => blank.(grid := grid)
    case None => blank
  }

  /** The history lines a snapshot may bring: those no wider than the terminal, and not empty. */
  function UsableLines(lines: seq<seq<CellRun>>, columns: nat): seq<Row> {
    if lines == [] then []
    else
      var last := lines[|lines| - 1];
      var front := UsableLines(lines[..|lines| - 1], columns);
      if TotalLength(last) == 0 || TotalLength(last) > columns then front else front + [FromRuns(last)]
  }

  function Adopted(snapshot: TerminalState, limit: nat): GridState {
    PushLines(ScreenAdopted(snapshot, limit), UsableLines(snapshot.scrollback, snapshot.columns))
      .(cursor := snapshot.cursor, modes := snapshot.modes, title := snapshot.title)
  }

  /** `adopt`: refused past the protocol's bound, and then nothing but the need for another snapshot changes. */
  function AfterSnapshot(held: Held, snapshot: TerminalState): Held {
    if snapshot.columns > MAX_COLUMNS || snapshot.rows > MAX_ROWS then held.(needsSnapshot := true)
    else Held(Adopted(snapshot, held.state.historyLimit), 0, false)
  }

  /** `apply(GridDelta)`: the next one in sequence that fits, or a snapshot is needed. */
  function AfterDelta(held: Held, number: nat, ops: seq<GridOp>): Held
    requires Coherent(held.state)
  {
    if number != (held.sequence + 1) % SEQUENCES then held.(needsSnapshot := true)
    else
      match Apply(ops, held.state)
      case None => held.(needsSnapshot := true)
      case Some(after) => held.(state := after, sequence := number)
  }

  function AfterOpen(held: Held, columns: nat, rows: nat): Held {
    Held(BlankState(columns, rows, held.state.historyLimit), 0, false)
  }

  lemma AdoptedCoherent(snapshot: TerminalState, limit: nat)
    requires snapshot.columns <= MAX_COLUMNS && snapshot.rows <= MAX_ROWS
    ensures Coherent(Adopted(snapshot, limit)) && Adopted(snapshot, limit).historyLimit == limit
    ensures var grid := DecodeGrid(snapshot.grid, snapshot.columns, snapshot.rows);
      ScreenOf(Adopted(snapshot, limit)) == Screen(snapshot.columns, snapshot.rows,
        if grid.Some? then grid.value else BlankGrid(snapshot.columns, snapshot.rows),
        snapshot.cursor, snapshot.modes, snapshot.title)
  {
    hide PushLines, UsableLines, Unflatten, FromRuns;
    var screen := ScreenAdopted(snapshot, limit);
    BareCoherent(screen);
    PushesKeepNewest(screen, UsableLines(snapshot.scrollback, snapshot.columns));
    SameHistory(PushLines(screen, UsableLines(snapshot.scrollback, snapshot.columns)), Adopted(snapshot, limit));
  }

  /** Where in a snapshot's history the lines are that a terminal of this width can keep, in order. */
  predicate Picks(lines: seq<seq<CellRun>>, columns: nat, at: seq<nat>) {
    && (forall j, k :: 0 <= j < k < |at| ==> at[j] < at[k])
    && (forall j :: 0 <= j < |at| ==> at[j] < |lines|)
    && (forall i :: 0 <= i < |lines| ==> (i in at <==> 1 <= |Expand(lines[i])| <= columns))
  }

  /** The lines picked, whole. */
  predicate Picked(usable: seq<Row>, lines: seq<seq<CellRun>>, at: seq<nat>) {
    && |usable| == |at|
    && forall j :: 0 <= j < |at| ==> at[j] < |lines| && usable[j] == Expand(lines[at[j]])
  }

  lemma {:induction false} UsableLinesAre(lines: seq<seq<CellRun>>, columns: nat, at: seq<nat>)
    requires Picks(lines, columns, at) && columns <= MAX_COLUMNS
    ensures Picked(UsableLines(lines, columns), lines, at)
  {
    if lines == [] {
      NoneBelow(at, |lines|);
    } else {
      var n := |lines| - 1;
      var front := if n in at then at[..|at| - 1] else at;
      PicksFront(lines, columns, at, front);
      OneMoreUsable(lines, columns);
      hide UsableLines, Expand, Picks;
      UsableLinesAre(lines[..n], columns, front);
      PickedMore(UsableLines(lines[..n], columns), lines, front);
    }
  }

  lemma PickedMore(usable: seq<Row>, lines: seq<seq<CellRun>>, front: seq<nat>)
    requires lines != [] && Picked(usable, lines[..|lines| - 1], front)
    ensures Picked(usable, lines, front)
    ensures Picked(usable + [Expand(lines[|lines| - 1])], lines, front + [|lines| - 1])
  {
    hide Expand;
    forall j | 0 <= j < |front| ensures lines[..|lines| - 1][front[j]] == lines[front[j]] {}
  }

  lemma OneMoreUsable(lines: seq<seq<CellRun>>, columns: nat)
    requires lines != [] && columns <= MAX_COLUMNS
    ensures var front, last := UsableLines(lines[..|lines| - 1], columns), lines[|lines| - 1];
      UsableLines(lines, columns) == if 1 <= |Expand(last)| <= columns then front + [Expand(last)] else front
  {
    assert |Expand(lines[|lines| - 1])| == TotalLength(lines[|lines| - 1]);
  }

  lemma PicksFront(lines: seq<seq<CellRun>>, columns: nat, at: seq<nat>, front: seq<nat>)
    requires lines != [] && Picks(lines, columns, at)
    requires front == if |lines| - 1 in at then at[..|at| - 1] else at
    ensures Picks(lines[..|lines| - 1], columns, front) && (|lines| - 1 in at ==> at == front + [|lines| - 1])
    ensures |lines| - 1 in at <==> 1 <= |Expand(lines[|lines| - 1])| <= columns
  {
    hide Expand;
    if |lines| - 1 in at { LastPicked(at, |lines| - 1); }
  }

  lemma NoneBelow(at: seq<nat>, n: nat)
    requires forall j :: 0 <= j < |at| ==> at[j] < n
    ensures |at| > 0 ==> n > 0
  {
    if |at| > 0 { assert at[0] < n; }
  }

  lemma LastIsMore(at: seq<nat>, j: nat)
    requires j < |at| && forall j, k :: 0 <= j < k < |at| ==> at[j] < at[k]
    ensures j < |at| - 1 ==> at[j] < at[|at| - 1]
  {
  }

  /** The largest of increasing numbers is the last of them. */
  lemma LastPicked(at: seq<nat>, n: nat)
    requires (forall j, k :: 0 <= j < k < |at| ==> at[j] < at[k]) && (forall j :: 0 <= j < |at| ==> at[j] <= n) && n in at
    ensures at == at[..|at| - 1] + [n]
    ensures forall i: nat :: i in at[..|at| - 1] <==> i in at && i < n
  {
    var j :| 0 <= j < |at| && at[j] == n;
    LastIsMore(at, j);
    var front := at[..|at| - 1];
    forall i: nat | i in at && i < n ensures i in front {
      var k :| 0 <= k < |at| && at[k] == i;
      assert front[k] == i;
    }
    forall i: nat | i in front ensures i in at && i < n {
      var k :| 0 <= k < |front| && front[k] == i;
      assert at[k] == i;
    }
  }

  /**
   What a snapshot brings of history: every line of it that is not empty and no wider than the terminal, in order, each
   as its width keeps it, the newest of them the limit allows.
   */
  lemma AdoptedHistory(snapshot: TerminalState, limit: nat, at: seq<nat>, kept: seq<Row>)
    requires snapshot.columns <= MAX_COLUMNS && snapshot.rows <= MAX_ROWS && Picks(snapshot.scrollback, snapshot.columns, at)
    requires |kept| == |at|
    requires forall j :: 0 <= j < |at| ==> KeptAs(Expand(snapshot.scrollback[at[j]]), kept[j], HistoryWidth(snapshot.columns))
    ensures LiveHistory(Adopted(snapshot, limit)) == LastLines(kept, limit)
  {
    var width, lines := HistoryWidth(snapshot.columns), UsableLines(snapshot.scrollback, snapshot.columns);
    UsableLinesAre(snapshot.scrollback, snapshot.columns, at);
    var screen := ScreenAdopted(snapshot, limit);
    BareCoherent(screen);
    PushesAre(screen, lines);
    forall j | 0 <= j < |at| ensures kept[j] == FitAll(lines, width)[j] {
      FitKeeps(lines[j], width);
      assert KeptAs(lines[j], kept[j], width);
    }
    assert LiveHistory(screen) + FitAll(lines, width) == kept;
    hide PushLines, Unflatten, FromRuns, UsableLines, LastLines;
  }

  /** A snapshot keeps the pictures it names that are held, where they are, and no others. */
  lemma NamedStay(pictures: map<nat, Raster>, images: seq<nat>, id: nat)
    ensures id in Named(pictures, images) <==> id in pictures && id in images
    ensures id in Named(pictures, images) ==> Named(pictures, images)[id] == pictures[id]
  {
  }

  lemma BlankCoherent(columns: nat, rows: nat, limit: nat)
    requires columns <= SIZE_MAX && rows <= SIZE_MAX
    ensures Coherent(BlankState(columns, rows, limit))
  {
  }

  // ------------------------------------------------------------- pictures

  datatype Raster = Raster(image: Image, x: int, y: int, columns: int, rows: int)

  predicate Distinct(ids: seq<nat>) {
    forall i, j :: 0 <= i < j < |ids| ==> ids[i] != ids[j]
  }

  /** The placed pictures by wire id, read off two parallel vectors. */
  function PicturesOf(ids: seq<nat>, rasters: seq<Raster>): map<nat, Raster>
    requires |ids| == |rasters|
  {
    if ids == [] then map[]
    else PicturesOf(ids[..|ids| - 1], rasters[..|ids| - 1])[ids[|ids| - 1] := rasters[|ids| - 1]]
  }

  lemma {:induction false} PicturesAt(ids: seq<nat>, rasters: seq<Raster>)
    requires |ids| == |rasters| && Distinct(ids)
    ensures forall i :: 0 <= i < |ids| ==> ids[i] in PicturesOf(ids, rasters) && PicturesOf(ids, rasters)[ids[i]] == rasters[i]
    ensures forall id :: id in PicturesOf(ids, rasters) ==> id in ids
  {
    if ids != [] {
      var n := |ids| - 1;
      PicturesAt(ids[..n], rasters[..n]);
      forall i | 0 <= i < n ensures ids[i] in PicturesOf(ids, rasters) && PicturesOf(ids, rasters)[ids[i]] == rasters[i] {
        assert ids[..n][i] == ids[i] && rasters[..n][i] == rasters[i];
      }
    }
  }

  /** Two vectors that name the same pictures at the same places are the same map. */
  lemma PicturesAre(ids: seq<nat>, rasters: seq<Raster>, pictures: map<nat, Raster>)
    requires |ids| == |rasters| && Distinct(ids)
    requires forall i :: 0 <= i < |ids| ==> ids[i] in pictures && pictures[ids[i]] == rasters[i]
    requires forall id :: id in pictures ==> id in ids
    ensures PicturesOf(ids, rasters) == pictures
  {
    PicturesAt(ids, rasters);
    var made := PicturesOf(ids, rasters);
    forall id | id in pictures ensures id in made && made[id] == pictures[id] {
      var i :| 0 <= i < |ids| && ids[i] == id;
    }
    forall id | id in made ensures id in pictures {
      var i :| 0 <= i < |ids| && ids[i] == id;
    }
    assert made.Keys == pictures.Keys;
  }

  /** The pictures a snapshot names. */
  function Named(pictures: map<nat, Raster>, images: seq<nat>): map<nat, Raster> {
    map id | id in pictures && id in images :: pictures[id]
  }

  /** What a placement does to the pictures: pixels add or restate one, none moves one already held. */
  function Placed(pictures: map<nat, Raster>, id: nat, image: Option<Image>, x: int, y: int, columns: int, rows: int)
    : map<nat, Raster>
  {
    if id in pictures then
      pictures[id := Raster(if image.Some? then image.value else pictures[id].image, x, y, columns, rows)]
    else if image.Some? then pictures[id := Raster(image.value, x, y, columns, rows)]
    else pictures
  }

  // ------------------------------------------------------------- print jobs

  /** Print jobs arriving in chunks: what is being fetched, and what has been. */
  datatype Fetch = Fetch(fetching: map<nat, string>, fetched: map<nat, string>)

  datatype PrintChunk = PrintChunk(job: nat, bytes: string, last: bool)

  function AfterChunk(fetch: Fetch, chunk: PrintChunk): Fetch {
    var assembling := (if chunk.job in fetch.fetching then fetch.fetching[chunk.job] else "") + chunk.bytes;
    if chunk.last then Fetch(fetch.fetching - {chunk.job}, fetch.fetched[chunk.job := assembling])
    else fetch.(fetching := fetch.fetching[chunk.job := assembling])
  }

  function AfterChunks(fetch: Fetch, chunks: seq<PrintChunk>): Fetch {
    if chunks == [] then fetch else AfterChunk(AfterChunks(fetch, chunks[..|chunks| - 1]), chunks[|chunks| - 1])
  }

  function ChunksOf(chunks: seq<PrintChunk>, job: nat): seq<PrintChunk> {
    if chunks == [] then []
    else
      var front := ChunksOf(chunks[..|chunks| - 1], job);
      if chunks[|chunks| - 1].job == job then front + [chunks[|chunks| - 1]] else front
  }

  function JobOf(fetch: Fetch, job: nat): (Option<string>, Option<string>) {
    (if job in fetch.fetching then Some(fetch.fetching[job]) else None,
     if job in fetch.fetched then Some(fetch.fetched[job]) else None)
  }

  /** Chunks of several jobs may interleave as they like: each job is what its own chunks alone make it. */
  lemma {:induction false} JobsDoNotInterfere(fetch: Fetch, chunks: seq<PrintChunk>, job: nat)
    ensures JobOf(AfterChunks(fetch, chunks), job) == JobOf(AfterChunks(fetch, ChunksOf(chunks, job)), job)
  {
    if chunks != [] {
      var front, last := chunks[..|chunks| - 1], chunks[|chunks| - 1];
      JobsDoNotInterfere(fetch, front, job);
      if last.job == job {
        assert ChunksOf(chunks, job)[..|ChunksOf(chunks, job)| - 1] == ChunksOf(front, job);
      }
    }
  }

  // ------------------------------------------------------------- the mirror

  class TerminalMirror {
    var state: GridState
    var sequence: nat
    var gaps: nat
    var needsSnapshot: bool
    var damage: D.Report
    var rasters: seq<Raster>
    var rasterIds: seq<nat>
    var fetching: map<nat, string>
    var fetched: map<nat, string>
    var exited: bool
    var hold: bool
    var exitStatus: Option<int>
    /** What a view was showing when it last said it had caught up. */
    ghost var shown: Screen
    ghost var shownPictures: map<nat, Raster>
    ghost var shownHistory: seq<Row>

    ghost predicate Consistent()
      reads this
    {
      && Coherent(state) && sequence < SEQUENCES
      && |rasters| == |rasterIds| && Distinct(rasterIds)
      && D.Covers(damage, shown, ScreenOf(state))
      && D.HistoryCovers(damage.full, damage.pushed, shownHistory, LiveHistory(state))
    }

    /** Consistent, and pictures that are not the ones last shown are reported as changed. */
    ghost predicate Valid()
      reads this
    {
      Consistent() && (PicturesOf(rasterIds, rasters) == shownPictures || damage.rasters)
    }

    function StreamState(): Held
      reads this
    {
      Held(state, sequence, needsSnapshot)
    }

    function Pictures(): map<nat, Raster>
      reads this
      requires |rasters| == |rasterIds|
    {
      PicturesOf(rasterIds, rasters)
    }

    function Jobs(): Fetch
      reads this
    {
      Fetch(fetching, fetched)
    }

    constructor ()
      ensures Valid() && StreamState() == Held(BlankState(0, 0, 0), 0, false) && Pictures() == map[]
      ensures Jobs() == Fetch(map[], map[]) && !exited && !hold && exitStatus == None && gaps == 0
    {
      state := BlankState(0, 0, 0);
      sequence, gaps, needsSnapshot := 0, 0, false;
      damage := D.Nothing(0);
      rasters, rasterIds := [], [];
      fetching, fetched := map[], map[];
      exited, hold, exitStatus := false, false, None;
      shown, shownPictures, shownHistory := ScreenOf(BlankState(0, 0, 0)), map[], [];
    }

    /** The gap rule, the delta, and what a view has to repaint for it. */
    method ApplyDelta(number: nat, ops: seq<GridOp>) returns (taken: bool)
      requires Valid() && number < SEQUENCES
      modifies `state, `sequence, `gaps, `needsSnapshot, `damage
      ensures Valid()
      ensures StreamState() == AfterDelta(old(StreamState()), number, ops)
      ensures taken <==> number == (old(sequence) + 1) % SEQUENCES && Apply(ops, old(state)).Some?
      ensures gaps == old(gaps) + (if number != (old(sequence) + 1) % SEQUENCES then 1 else 0)
      ensures damage == if taken then D.NoteOps(old(damage), ops, state.columns, state.rows) else old(damage)
    {
      hide Coherent, Perform, Fits, D.Covers, D.NoteOp, D.HistoryCovers, LiveHistory;
      if number != (sequence + 1) % SEQUENCES {
        gaps := gaps + 1;
        needsSnapshot := true;
        return false;
      }
      var accepted, after := GridDelta.ApplyDelta(ops, state);
      if !accepted {
        needsSnapshot := true;
        return false;
      }
      D.DeltaCovers(damage, ops, shown, state);
      D.RastersStayNoted(damage, ops, after.columns, after.rows);
      D.DeltaCoversHistory(damage, ops, shownHistory, state);
      state := after;
      sequence := number;
      for i := 0 to |ops|
        invariant damage == D.NoteOps(old(damage), ops[..i], state.columns, state.rows)
        invariant state == after && sequence == number && needsSnapshot == old(needsSnapshot) && gaps == old(gaps)
      {
        assert ops[..i + 1][..i] == ops[..i];
        NoteOp(ops[i]);
      }
      assert ops[..|ops|] == ops;
      return true;
    }

    method NoteOp(op: GridOp)
      modifies `damage
      ensures damage == D.NoteOp(old(damage), op, state.columns, state.rows)
    {
      match op {
        case Resize(_, _) =>
          var whole := D.Span(0, state.columns);
          var all := seq(state.rows, _ => whole);
          assert all == D.Everything(state.columns, state.rows).spans;
          damage := damage.(full := true, cursor := true, modes := true, title := true, rasters := true, spans := all);
        case Cells(row, column, runs) =>
          NoteRow(row, column, column + TotalLength(runs));
        case Scroll(top, bottom, _) =>
          var row := top;
          while row < bottom
            invariant top <= row && (row <= bottom || row == top)
            invariant damage == D.NoteRows(old(damage), top, row, state.columns, state.rows)
          {
            NoteRow(row, 0, state.columns);
            row := row + 1;
          }
        case Push(pushed) => damage := damage.(pushed := damage.pushed + |pushed|);
        case MoveCursor(_) => damage := damage.(cursor := true);
        case Modes(_, _) => damage := damage.(modes := true);
        case Title(_) => damage := damage.(title := true);
      }
    }

    method NoteRow(row: int, first: int, last: int)
      modifies `damage
      ensures damage == D.NoteRow(old(damage), row, first, last, state.columns, state.rows)
    {
      if row < 0 || row >= state.rows { return; }
      if |damage.spans| != state.rows { damage := damage.(spans := D.Resized(damage.spans, state.rows)); }
      var span := damage.spans[row];
      var clampedFirst, clampedLast := D.Clamp(first, state.columns), D.Clamp(last, state.columns);
      if D.SpanEmpty(span) {
        damage := damage.(spans := damage.spans[row := D.Span(clampedFirst, clampedLast)]);
        return;
      }
      var widened := D.Span(if clampedFirst < span.first then clampedFirst else span.first,
                            if clampedLast > span.last then clampedLast else span.last);
      damage := damage.(spans := damage.spans[row := widened]);
    }

    /** A snapshot adopted whole, or refused with nothing touched but the need for another. */
    method Adopt(snapshot: TerminalState) returns (taken: bool)
      requires Valid()
      modifies `state, `sequence, `needsSnapshot, `damage, `rasters, `rasterIds, `fetching, `fetched, `exited, `hold, `exitStatus
      ensures Valid()
      ensures taken <==> snapshot.columns <= MAX_COLUMNS && snapshot.rows <= MAX_ROWS
      ensures StreamState() == AfterSnapshot(old(StreamState()), snapshot)
      ensures Pictures() == if taken then Named(old(Pictures()), snapshot.images) else old(Pictures())
      ensures Jobs() == if taken then Fetch(map[], map[]) else old(Jobs())
      ensures taken ==> damage == D.Everything(snapshot.columns, snapshot.rows)
      ensures (exited, hold, exitStatus) ==
        if taken && snapshot.exited then (true, snapshot.hold, Some(snapshot.exitStatus)) else old((exited, hold, exitStatus))
    {
      hide Coherent, D.Covers, Adopted, PicturesOf, Distinct, ScreenOf, D.Everything, Named, D.HistoryCovers, LiveHistory;
      if snapshot.columns > MAX_COLUMNS || snapshot.rows > MAX_ROWS {
        needsSnapshot := true;
        return false;
      }
      Take(snapshot);
      return true;
    }

    method Take(snapshot: TerminalState)
      requires Valid() && snapshot.columns <= MAX_COLUMNS && snapshot.rows <= MAX_ROWS
      modifies `state, `sequence, `needsSnapshot, `damage, `rasters, `rasterIds, `fetching, `fetched, `exited, `hold, `exitStatus
      ensures Valid() && StreamState() == AfterSnapshot(old(StreamState()), snapshot)
      ensures Pictures() == Named(old(Pictures()), snapshot.images) && Jobs() == Fetch(map[], map[])
      ensures damage == D.Everything(snapshot.columns, snapshot.rows)
      ensures (exited, hold, exitStatus) ==
        if snapshot.exited then (true, snapshot.hold, Some(snapshot.exitStatus)) else old((exited, hold, exitStatus))
    {
      hide Coherent, D.Covers, AfterSnapshot, PicturesOf, Distinct, ScreenOf, D.Everything, Named, D.HistoryCovers, LiveHistory;
      TakeScreen(snapshot);
      fetching, fetched := map[], map[];
      if snapshot.exited { exited, hold, exitStatus := true, snapshot.hold, Some(snapshot.exitStatus); }
      KeepNamed(snapshot.images);
    }

    /** The screen a snapshot brings: all of it to be drawn, and the sequence started over. */
    method TakeScreen(snapshot: TerminalState)
      requires snapshot.columns <= MAX_COLUMNS && snapshot.rows <= MAX_ROWS
      modifies `state, `sequence, `needsSnapshot, `damage
      ensures StreamState() == AfterSnapshot(old(StreamState()), snapshot) && Coherent(state) && sequence == 0
      ensures damage == D.Everything(snapshot.columns, snapshot.rows) && D.Covers(damage, shown, ScreenOf(state))
      ensures damage.rasters && D.HistoryCovers(damage.full, damage.pushed, shownHistory, LiveHistory(state))
    {
      assert D.Everything(snapshot.columns, snapshot.rows).rasters && D.Everything(snapshot.columns, snapshot.rows).full;
      AdoptedCoherent(snapshot, state.historyLimit);
      hide Coherent, D.Covers, Adopted, D.Everything, D.HistoryCovers, LiveHistory;
      state := AdoptState(snapshot, state.historyLimit);
      damage := D.Everything(state.columns, state.rows);
      EverythingCoversState(state, shown);
      D.FullCoversHistory(damage, shownHistory, LiveHistory(state));
      sequence, needsSnapshot := 0, false;
    }

    /** One picture erased, out of both vectors. */
    method EraseAt(index: nat)
      requires |rasters| == |rasterIds| && Distinct(rasterIds) && index < |rasterIds|
      modifies `rasters, `rasterIds
      ensures |rasters| == |rasterIds| && Distinct(rasterIds)
      ensures rasterIds == Without(old(rasterIds), index)
      ensures Pictures() == old(Pictures()) - {old(rasterIds)[index]}
    {
      ErasedPictures(rasterIds, rasters, index);
      rasters := Without(rasters, index);
      rasterIds := Without(rasterIds, index);
    }

    /** Pictures a snapshot does not name are dropped, from the back. */
    method KeepNamed(images: seq<nat>)
      requires |rasters| == |rasterIds| && Distinct(rasterIds)
      modifies `rasters, `rasterIds
      ensures |rasters| == |rasterIds| && Distinct(rasterIds)
      ensures Pictures() == Named(old(Pictures()), images)
    {
      ghost var was := Pictures();
      var index: nat := |rasterIds|;
      while index > 0
        invariant index <= |rasterIds| == |rasters| && Distinct(rasterIds)
        invariant forall i :: index <= i < |rasterIds| ==> rasterIds[i] in images
        invariant Pictures().Keys <= was.Keys && (forall id :: id in Pictures() ==> Pictures()[id] == was[id])
        invariant forall id :: id in was && id in images ==> id in Pictures()
      {
        index := index - 1;
        if rasterIds[index] !in images {
          EraseAt(index);
        }
      }
      PicturesAt(rasterIds, rasters);
      assert Pictures().Keys == Named(was, images).Keys;
    }

    method Open(columns: nat, rows: nat)
      requires Valid() && columns <= SIZE_MAX && rows <= SIZE_MAX
      modifies `state, `sequence, `needsSnapshot, `damage, `exited, `hold, `exitStatus
      ensures Valid() && StreamState() == AfterOpen(old(StreamState()), columns, rows)
      ensures !exited && !hold && exitStatus == None
    {
      BlankCoherent(columns, rows, state.historyLimit);
      assert D.Everything(columns, rows).rasters && D.Everything(columns, rows).full;
      hide Coherent, D.Covers, BlankState, PicturesOf, Distinct, D.HistoryCovers, LiveHistory, D.Everything;
      state := BlankState(columns, rows, state.historyLimit);
      damage := D.Everything(columns, rows);
      EverythingCoversState(state, shown);
      D.FullCoversHistory(damage, shownHistory, LiveHistory(state));
      sequence, needsSnapshot := 0, false;
      exited, hold, exitStatus := false, false, None;
    }

    /** The title half of `apply(TermMeta)`. */
    method ApplyTitle(title: string)
      requires Valid()
      modifies `state, `damage
      ensures Valid() && state == old(state).(title := title)
    {
      if title != state.title {
        state := state.(title := title);
        damage := damage.(title := true);
      }
    }

    /** A child that ended, or a terminal that left: the banner is part of the picture, so every row is noted. */
    method ApplyClosed(ended: bool, held: bool, status: int)
      requires Valid()
      modifies `exited, `hold, `exitStatus, `damage
      ensures Valid() && exited == ended && hold == held && exitStatus == if ended then Some(status) else None
      ensures damage == D.NoteRows(old(damage), 0, state.rows, state.columns, state.rows)
    {
      hide Coherent, D.Covers, D.NoteRow, D.HistoryCovers, LiveHistory;
      exited, hold := ended, held;
      exitStatus := if ended then Some(status) else None;
      NotedEveryRow(damage, shown, state);
      D.RowsKeepTheRest(damage, 0, state.rows, state.columns, state.rows);
      for row := 0 to state.rows
        invariant damage == D.NoteRows(old(damage), 0, row, state.columns, state.rows)
        invariant exited == ended && hold == held && exitStatus == if ended then Some(status) else None
      {
        NoteRow(row, 0, state.columns);
      }
    }

    method SetHistoryLimit(lines: nat)
      requires Valid()
      modifies `state
      ensures Valid() && ScreenOf(state) == old(ScreenOf(state)) && state.historyLimit == lines
      ensures LiveHistory(state) == LastLines(old(LiveHistory(state)), lines)
      ensures state == EnforceCapacity(old(state).(historyLimit := lines))
    {
      EnforceCoherent(state.(historyLimit := lines));
      EnforceKeepsNewest(state.(historyLimit := lines));
      ShorterHistory(damage, shownHistory, LiveHistory(state), lines);
      hide EnforceCapacity, HistoryCoherent, D.Covers, D.HistoryCovers, LiveHistory;
      state := EnforceCapacity(state.(historyLimit := lines));
    }

    /** The view has caught up: it shows what the mirror holds. */
    method ClearDamage()
      requires Valid()
      modifies `damage, `shown, `shownPictures, `shownHistory
      ensures Valid() && damage == D.Nothing(state.rows)
      ensures shown == ScreenOf(state) && shownPictures == Pictures() && shownHistory == LiveHistory(state)
    {
      damage := D.Nothing(state.rows);
      shown, shownPictures, shownHistory := ScreenOf(state), Pictures(), LiveHistory(state);
      D.NothingCovers(shown);
    }

    method PlaceImage(id: nat, image: Option<Image>, x: int, y: int, columns: int, rows: int)
      requires Valid()
      modifies `rasters, `rasterIds, `damage
      ensures Valid() && Pictures() == Placed(old(Pictures()), id, image, x, y, columns, rows)
    {
      hide Coherent, D.Covers, D.HistoryCovers, LiveHistory;
      PicturesAt(rasterIds, rasters);
      for index := 0 to |rasterIds|
        invariant id !in rasterIds[..index]
      {
        if rasterIds[index] == id {
          var kept := if image.Some? then image.value else rasters[index].image;
          RestatedPicture(rasterIds, rasters, index, Raster(kept, x, y, columns, rows));
          rasters := rasters[index := Raster(kept, x, y, columns, rows)];
          NoteRasters();
          return;
        }
      }
      if image.None? { return; }
      AddedPicture(rasterIds, rasters, id, Raster(image.value, x, y, columns, rows));
      rasters := rasters + [Raster(image.value, x, y, columns, rows)];
      rasterIds := rasterIds + [id];
      NoteRasters();
    }

    method NoteRasters()
      requires Consistent()
      modifies `damage
      ensures Valid()
    {
      damage := damage.(rasters := true);
    }

    method RemoveImage(id: nat)
      requires Valid()
      modifies `rasters, `rasterIds, `damage
      ensures Valid() && Pictures() == old(Pictures()) - {id}
    {
      hide Coherent, D.Covers, D.HistoryCovers, LiveHistory;
      PicturesAt(rasterIds, rasters);
      for index := 0 to |rasterIds|
        invariant id !in rasterIds[..index]
      {
        if rasterIds[index] == id {
          EraseAt(index);
          NoteRasters();
          return;
        }
      }
      assert Pictures() - {id} == Pictures();
    }

    /** One chunk of a print job; says whether it completed the job. */
    method ApplyPrintData(chunk: PrintChunk) returns (completed: bool)
      requires Valid()
      modifies `fetching, `fetched
      ensures Valid() && completed == chunk.last && Jobs() == AfterChunk(old(Jobs()), chunk)
    {
      var assembling := (if chunk.job in fetching then fetching[chunk.job] else "") + chunk.bytes;
      if !chunk.last {
        fetching := fetching[chunk.job := assembling];
        return false;
      }
      fetched := fetched[chunk.job := assembling];
      fetching := fetching - {chunk.job};
      return true;
    }
  }

  lemma ShorterHistory(report: D.Report, shown: seq<Row>, live: seq<Row>, limit: nat)
    requires D.HistoryCovers(report.full, report.pushed, shown, live)
    ensures D.HistoryCovers(report.full, report.pushed, shown, LastLines(live, limit))
  {
    if !report.full {
      assert live + [] == live;
      D.TailCovers(report.pushed, shown, live, [], limit);
    }
  }

  lemma ErasedPictures(ids: seq<nat>, rasters: seq<Raster>, index: nat)
    requires |ids| == |rasters| && Distinct(ids) && index < |ids|
    ensures var restIds, rest := Without(ids, index), Without(rasters, index);
      Distinct(restIds) && PicturesOf(restIds, rest) == PicturesOf(ids, rasters) - {ids[index]}
  {
    var restIds, rest := Without(ids, index), Without(rasters, index);
    var pictures := PicturesOf(ids, rasters);
    PicturesAt(ids, rasters);
    ErasedIds(ids, index);
    hide PicturesOf, Distinct, Without;
    forall i | 0 <= i < |restIds|
      ensures restIds[i] in pictures && restIds[i] != ids[index] && pictures[restIds[i]] == rest[i]
    {
      WithoutAt(ids, index, i);
      WithoutAt(rasters, index, i);
    }
    PicturesAre(restIds, rest, pictures - {ids[index]});
  }

  lemma ErasedIds(ids: seq<nat>, index: nat)
    requires Distinct(ids) && index < |ids|
    ensures Distinct(Without(ids, index))
    ensures forall id :: id in Without(ids, index) <==> id in ids && id != ids[index]
  {
    var rest := Without(ids, index);
    forall i | 0 <= i < |rest| ensures rest[i] == ids[if i < index then i else i + 1] { WithoutAt(ids, index, i); }
    hide Without;
    forall id | id in ids && id != ids[index] ensures id in rest {
      var i :| 0 <= i < |ids| && ids[i] == id;
      assert id == rest[if i < index then i else i - 1];
    }
  }

  /** A list with one entry erased. */
  function Without<T>(list: seq<T>, index: nat): (rest: seq<T>)
    requires index < |list|
    ensures |rest| == |list| - 1
  {
    list[..index] + list[index + 1..]
  }

  lemma WithoutAt<T>(list: seq<T>, index: nat, i: nat)
    requires index < |list| && i < |list| - 1
    ensures Without(list, index)[i] == list[if i < index then i else i + 1]
  {
  }

  lemma RestatedPicture(ids: seq<nat>, rasters: seq<Raster>, index: nat, raster: Raster)
    requires |ids| == |rasters| && Distinct(ids) && index < |ids|
    ensures PicturesOf(ids, rasters[index := raster]) == PicturesOf(ids, rasters)[ids[index] := raster]
    ensures ids[index] in PicturesOf(ids, rasters) && PicturesOf(ids, rasters)[ids[index]] == rasters[index]
  {
    PicturesAt(ids, rasters);
    PicturesAre(ids, rasters[index := raster], PicturesOf(ids, rasters)[ids[index] := raster]);
  }

  lemma AddedPicture(ids: seq<nat>, rasters: seq<Raster>, id: nat, raster: Raster)
    requires |ids| == |rasters| && Distinct(ids) && id !in ids
    ensures Distinct(ids + [id]) && PicturesOf(ids + [id], rasters + [raster]) == PicturesOf(ids, rasters)[id := raster]
  {
    assert (ids + [id])[..|ids|] == ids && (rasters + [raster])[..|rasters|] == rasters;
  }

  method AdoptState(snapshot: TerminalState, limit: nat) returns (state: GridState)
    requires snapshot.columns <= MAX_COLUMNS && snapshot.rows <= MAX_ROWS
    ensures state == Adopted(snapshot, limit)
  {
    hide Unflatten, FromRuns, PushLine;
    state := ScreenAdopted(snapshot, limit);
    ghost var screen := state;
    for i := 0 to |snapshot.scrollback|
      invariant state == PushLines(screen, UsableLines(snapshot.scrollback[..i], snapshot.columns))
    {
      var line := snapshot.scrollback[i];
      assert snapshot.scrollback[..i + 1][..i] == snapshot.scrollback[..i];
      if TotalLength(line) == 0 || TotalLength(line) > snapshot.columns { continue; }
      ghost var usable := UsableLines(snapshot.scrollback[..i], snapshot.columns);
      assert (usable + [FromRuns(line)])[..|usable|] == usable;
      state := PushLine(state, FromRuns(line));
    }
    assert snapshot.scrollback[..|snapshot.scrollback|] == snapshot.scrollback;
    state := state.(cursor := snapshot.cursor, modes := snapshot.modes, title := snapshot.title);
  }

  lemma EverythingCoversState(state: GridState, shown: Screen)
    requires Coherent(state)
    ensures D.Covers(D.Everything(state.columns, state.rows), shown, ScreenOf(state))
  {
    D.EverythingCovers(shown, ScreenOf(state));
  }

  lemma NotedEveryRow(report: D.Report, shown: Screen, state: GridState)
    requires Coherent(state) && D.Covers(report, shown, ScreenOf(state))
    ensures D.Covers(D.NoteRows(report, 0, state.rows, state.columns, state.rows), shown, ScreenOf(state))
  {
    D.NoteRowsCover(report, 0, state.rows, shown, ScreenOf(state), state.grid);
  }
}
