/**
 The server's side of a terminal's stream (src/server/diff_engine.cpp): a belief of what the client holds, and the
 delta or the snapshot that brings the client to the terminal as it is.
 */
module DiffEngine {
  import opened Wrappers
  import opened Grid
  import opened GridDelta
  import opened GridDiff
  import opened Mirror
  import opened Wire
  import R = MirrorRun

  /** The most history one delta may carry. */
  const MAX_HISTORY_LINES := 256

  /** A terminal as the engine reads it. */
  datatype Source = Source(screen: Screen, history: seq<Row>)

  /** What the terminal says has changed since its damage was last cleared. */
  datatype Changes = Changes(any: bool, full: bool, rows: seq<RowDamage>, pushed: nat)

  /** As many cells as its size says, and a size that has two bytes. */
  predicate InShape(screen: Screen) {
    Rectangular(screen.grid, screen.columns, screen.rows) && screen.columns <= SIZE_MAX && screen.rows <= SIZE_MAX
  }

  /** And of a size the protocol carries, its cursor in it, its history in lines of its width. */
  predicate Sound(source: Source) {
    && InShape(source.screen) && Repaintable(source.screen, source.history)
    && forall i :: 0 <= i < |source.history| ==> |source.history[i]| == source.screen.columns
  }

  /** The belief that a client holds a screen. The server keeps no history for it. */
  function BeliefOf(screen: Screen): GridState {
    GridState(screen.columns, screen.rows, screen.grid, [], 0, 0, screen.cursor, screen.modes, screen.title)
  }

  /** All a differ keeps. */
  datatype Differ = Differ(believed: GridState, sequence: nat, needsSnapshot: bool, diverged: bool)

  /** A terminal nobody has been told about: it is believed to be of no size. */
  const NEW_DIFFER := Differ(R.NO_BELIEF, 0, false, false)

  predicate Believing(differ: Differ) {
    && Coherent(differ.believed) && differ.sequence < SEQUENCES
    && differ.believed == BeliefOf(ScreenOf(differ.believed))
  }

  predicate Flooded(changes: Changes) { changes.pushed > MAX_HISTORY_LINES }

  /** A flood is over, and the history it left out has to be put back. */
  predicate Asks(differ: Differ, changes: Changes) { changes.any && !Flooded(changes) && differ.diverged }

  /** A delta is looked for. */
  predicate Looks(differ: Differ, changes: Changes) { changes.any && !Asks(differ, changes) }

  /** The lines that entered the history, as far as it still has them; none of a flood. */
  function PushedBy(source: Source, changes: Changes): seq<Row> {
    if Flooded(changes) then [] else LastLines(source.history, changes.pushed)
  }

  /** The rows to look at: none named says all of them. */
  function Hints(source: Source, changes: Changes): seq<RowDamage> {
    if changes.full then []
    else if |changes.rows| <= source.screen.rows then changes.rows else changes.rows[..source.screen.rows]
  }

  /** The rows that hints do not name are as they were believed. */
  predicate HonestHints(believed: GridState, source: Source, hints: seq<RowDamage>) {
    |believed.grid| == |source.screen.grid| && Honest(hints, believed.grid, source.screen.grid)
  }

  /** What the changes do not name is as it was believed. */
  predicate Truthful(differ: Differ, source: Source, changes: Changes) {
    Looks(differ, changes) && SameSize(differ.believed, source.screen) ==>
      HonestHints(differ.believed, source, Hints(source, changes))
  }

  /** What a flush makes of a differ: having looked, it believes the client holds the terminal as it is. */
  function AfterFlush(differ: Differ, source: Source, changes: Changes, said: bool): Differ {
    if !changes.any then differ
    else if Asks(differ, changes) then differ.(needsSnapshot := true)
    else
      Differ(BeliefOf(source.screen), if said then (differ.sequence + 1) % SEQUENCES else differ.sequence,
             differ.needsSnapshot, differ.diverged || Flooded(changes))
  }

  /**
   What a delta does: every holder of the old screen comes to hold the new one, the pushed lines behind it; and if the
   size changed, every holder of anything does.
   */
  ghost predicate Brings(ops: seq<GridOp>, believed: GridState, screen: Screen, pushed: seq<Row>) {
    forall holder {:trigger Apply(ops, holder)} :: Coherent(holder) && (ScreenOf(holder) == ScreenOf(believed) || !SameSize(believed, screen)) ==>
      Apply(ops, holder) == Some(Showing(Carried(holder, screen, pushed), screen))
  }

  /** What a flush says: nothing if it does not look, and else what brings the client to the terminal. */
  ghost predicate Says(differ: Differ, source: Source, changes: Changes, ops: seq<GridOp>) {
    if Looks(differ, changes) then Brings(ops, differ.believed, source.screen, PushedBy(source, changes)) else ops == []
  }

  /** Lines of a sound terminal, however many of them, can go in a delta. */
  lemma PushedFits(source: Source, changes: Changes)
    ensures Sound(source) ==> Repaintable(source.screen, PushedBy(source, changes))
  {
  }

  /** A belief keeps no history: carried to a new size and given lines, it only changes size. */
  lemma BeliefCarried(believed: GridState, screen: Screen, pushed: seq<Row>)
    requires Coherent(believed) && believed == BeliefOf(ScreenOf(believed))
    ensures Showing(Carried(believed, screen, pushed), screen) == BeliefOf(screen)
  {
    PushLinesNoHistory(ResizeState(believed, screen.columns, screen.rows), pushed);
    hide Coherent, BlankGrid, Fit;
  }

  lemma DiffBrings(ops: seq<GridOp>, believed: GridState, screen: Screen, pushed: seq<Row>)
    requires Coherent(believed) && SameSize(believed, screen)
    requires forall holder {:trigger Apply(ops, holder)} :: Coherent(holder) && ScreenOf(holder) == ScreenOf(believed) && Sendable(believed, screen, pushed) ==>
      Apply(ops, holder) == Some(Showing(Carried(holder, screen, pushed), Reached(believed, screen)))
    ensures Sendable(believed, screen, pushed) ==>
      Apply(ops, believed) == Some(Showing(Carried(believed, screen, pushed), screen)) && Brings(ops, believed, screen, pushed)
    ensures Repaintable(screen, pushed) ==> Sendable(believed, screen, pushed)
  {
    hide Coherent, Apply, Carried, Showing;
    assert Reached(believed, screen) == screen;
  }

  lemma RepaintBrings(ops: seq<GridOp>, believed: GridState, screen: Screen, pushed: seq<Row>)
    requires forall holder {:trigger Apply(ops, holder)} :: Coherent(holder) && Repaintable(screen, pushed) ==>
      Apply(ops, holder) == Some(Showing(Carried(holder, screen, pushed), screen))
    ensures Repaintable(screen, pushed) ==> Brings(ops, believed, screen, pushed)
  {
    hide Coherent, Apply, Carried, Showing;
  }

  /** Applied to the belief itself, a delta makes it the belief in the new screen. */
  lemma BeliefFollows(ops: seq<GridOp>, differ: Differ, screen: Screen, pushed: seq<Row>)
    requires Believing(differ) && Brings(ops, differ.believed, screen, pushed)
    ensures Apply(ops, differ.believed) == Some(BeliefOf(screen))
  {
    hide Coherent, Apply, Carried, Showing;
    BeliefCarried(differ.believed, screen, pushed);
  }

  /** And a client of the size that stays gets the lines too, behind what it kept: the newest of them its limit allows. */
  lemma HistoryFollows(ops: seq<GridOp>, believed: GridState, screen: Screen, pushed: seq<Row>, client: GridState)
    requires Brings(ops, believed, screen, pushed) && SameSize(believed, screen) && screen.columns > 0
    requires forall i :: 0 <= i < |pushed| ==> |pushed[i]| == screen.columns
    requires Coherent(client) && ScreenOf(client) == ScreenOf(believed)
    ensures Apply(ops, client).Some? && ScreenOf(Apply(ops, client).value) == screen
    ensures Apply(ops, client).value.historyLimit == client.historyLimit
    ensures LiveHistory(Apply(ops, client).value) == LastLines(LiveHistory(client) + pushed, client.historyLimit)
  {
    WholeLinesPushed(client, pushed);
    PushesKeepNewest(client, pushed);
    hide Coherent, PushLines, Apply, LastLines;
    assert Apply(ops, client) == Some(Showing(Carried(client, screen, pushed), screen));
  }

  /**
   A tick's history: with no flood, now or before, and no new size, every client of the old screen has the newest lines
   its limit allows of what it had and the last `changes.pushed` lines of the terminal's own.
   */
  lemma TickBringsHistory(differ: Differ, source: Source, changes: Changes, ops: seq<GridOp>, client: GridState)
    requires Believing(differ) && Sound(source) && Says(differ, source, changes, ops)
    requires changes.any && changes.pushed <= 256 && !differ.diverged && SameSize(differ.believed, source.screen)
    requires Coherent(client) && ScreenOf(client) == ScreenOf(differ.believed) && changes.pushed <= |source.history|
    ensures Apply(ops, client).Some? && ScreenOf(Apply(ops, client).value) == source.screen
    ensures Apply(ops, client).value.historyLimit == client.historyLimit
    ensures LiveHistory(Apply(ops, client).value)
      == LastLines(LiveHistory(client) + source.history[|source.history| - changes.pushed..], client.historyLimit)
  {
    hide Coherent, Brings, Apply, LiveHistory;
    HistoryFollows(ops, differ.believed, source.screen, PushedBy(source, changes), client);
    assert PushedBy(source, changes) == source.history[|source.history| - changes.pushed..];
  }

  /**
   A tick that brings a new size: every client of any screen has the new one, and of history what it had, as the new width
   keeps it, and those lines.
   */
  lemma NewSizeBringsHistory(differ: Differ, source: Source, changes: Changes, ops: seq<GridOp>, client: GridState, relaid: seq<Row>)
    requires Believing(differ) && Sound(source) && Says(differ, source, changes, ops)
    requires changes.any && changes.pushed <= 256 && !differ.diverged && !SameSize(differ.believed, source.screen)
    requires Coherent(client) && changes.pushed <= |source.history| && |relaid| == |LiveHistory(client)|
    requires forall i :: 0 <= i < |relaid| ==> KeptAs(LiveHistory(client)[i], relaid[i], source.screen.columns)
    ensures Apply(ops, client).Some? && ScreenOf(Apply(ops, client).value) == source.screen
    ensures LiveHistory(Apply(ops, client).value)
      == LastLines(relaid + source.history[|source.history| - changes.pushed..], client.historyLimit)
  {
    var screen, pushed := source.screen, PushedBy(source, changes);
    assert pushed == source.history[|source.history| - changes.pushed..];
    var sized := ResizeState(client, screen.columns, screen.rows);
    RelaidHistory(client, screen.columns, screen.rows);
    RelaidOnce(LiveHistory(client), relaid, LiveHistory(sized), screen.columns);
    ResizeShape(client, screen.columns, screen.rows);
    WholeLinesPushed(sized, pushed);
    PushesKeepNewest(sized, pushed);
    assert Apply(ops, client) == Some(Showing(Carried(client, screen, pushed), screen));
    hide Coherent, PushLines, Apply, LastLines, ResizeState, Brings;
  }

  lemma RelaidOnce(was: seq<Row>, one: seq<Row>, other: seq<Row>, width: nat)
    requires |one| == |other| == |was|
    requires forall i :: 0 <= i < |was| ==> KeptAs(was[i], one[i], width) && KeptAs(was[i], other[i], width)
    ensures one == other
  {
    forall i | 0 <= i < |was| ensures one[i] == other[i] {
      KeptOnce(was[i], one[i], other[i], width);
    }
  }

  lemma KeptOnce(line: Row, one: Row, other: Row, width: nat)
    requires KeptAs(line, one, width) && KeptAs(line, other, width)
    ensures one == other
  {
  }

  /** A flood's screen goes without its history; and the first tick without one after it asks, and says nothing else. */
  lemma FloodIsHealed(differ: Differ, source: Source, flood: Changes, said: bool, later: Source, calm: Changes, ops: seq<GridOp>)
    requires !differ.needsSnapshot && flood.any && flood.pushed > 256 && calm.any && calm.pushed <= 256
    requires Says(AfterFlush(differ, source, flood, said), later, calm, ops)
    ensures var after := AfterFlush(differ, source, flood, said);
      && after.believed == BeliefOf(source.screen) && !after.needsSnapshot
      && ops == [] && AfterFlush(after, later, calm, false).needsSnapshot
  {
    hide Brings;
  }

  lemma NoOpsAreTaken(state: GridState)
    requires Coherent(state)
    ensures Apply([], state) == Some(state)
  {
  }

  lemma NoneArePushed(source: Source, changes: Changes)
    ensures changes.pushed == 0 ==> PushedBy(source, changes) == []
  {
  }

  lemma BeliefIsCoherent(screen: Screen)
    requires InShape(screen)
    ensures Coherent(BeliefOf(screen)) && ScreenOf(BeliefOf(screen)) == screen
  {
  }

  /** No place yet. */
  const NOWHERE := LayoutEntry(0, Rect(0, 0, 0, 0), 0, false, TileFraction(0, 0, 0, 0))

  datatype Numbered = Numbered(number: nat, ops: seq<GridOp>)

  class TerminalDiffer {
    var believed: GridState
    var sequence: nat
    var needsSnapshot: bool
    var historyDiverged: bool

    function State(): Differ
      reads this
    {
      Differ(believed, sequence, needsSnapshot, historyDiverged)
    }

    ghost predicate Valid()
      reads this
    {
      Believing(State())
    }

    constructor ()
      ensures Valid() && State() == NEW_DIFFER
    {
      believed, sequence, needsSnapshot, historyDiverged := R.NO_BELIEF, 0, false, false;
    }

    /** The ops of a delta for the terminal as it is, and the belief that the client has them. */
    method Advance(source: Source, pushed: seq<Row>, hints: seq<RowDamage>, hash: Row -> int) returns (ops: seq<GridOp>)
      requires Valid() && InShape(source.screen)
      requires SameSize(believed, source.screen) ==> HonestHints(believed, source, hints)
      modifies `believed
      ensures believed == BeliefOf(source.screen)
      ensures Repaintable(source.screen, pushed) ==> Brings(ops, old(believed), source.screen, pushed)
      ensures ScreenOf(old(believed)) == source.screen && pushed == [] ==> ops == []
    {
      var was, screen := believed, source.screen;
      NoOpsAreTaken(was);
      BeliefCarried(was, screen, pushed);
      hide Apply, Carried, Showing, Honest, Coherent, Brings, Sendable, Repaintable, Reached;
      if was.columns != screen.columns || was.rows != screen.rows {
        ops := FullRepaint(screen, pushed);
        RepaintBrings(ops, was, screen, pushed);
        believed := BeliefOf(screen);
      } else {
        ghost var paint;
        ops, paint := Diff(was, screen, pushed, hints, hash);
        DiffBrings(ops, was, screen, pushed);
        var taken, after := ApplyDelta(ops, believed);
        believed := after;
        if !taken {
          ops := FullRepaint(screen, pushed);
          RepaintBrings(ops, was, screen, pushed);
          believed := BeliefOf(screen);
        }
      }
    }

    /** The delta of this tick, if there is anything to say. */
    method Flush(source: Source, changes: Changes, hash: Row -> int) returns (delta: Option<Numbered>)
      requires Valid() && InShape(source.screen) && Truthful(State(), source, changes)
      modifies this
      ensures Valid() && State() == AfterFlush(old(State()), source, changes, delta.Some?)
      ensures delta.Some? ==> delta.value.number == sequence && delta.value.ops != []
      ensures ScreenOf(old(believed)) == source.screen && changes.pushed == 0 ==> delta == None
      ensures Sound(source) ==> Says(old(State()), source, changes, if delta.Some? then delta.value.ops else [])
    {
      hide Brings, Honest, Coherent, Hints, PushedBy, Repaintable;
      if !changes.any { return None; }
      var flooded := Flooded(changes);
      if flooded { historyDiverged := true; }
      if !flooded && historyDiverged {
        needsSnapshot := true;
        return None;
      }
      PushedFits(source, changes);
      NoneArePushed(source, changes);
      BeliefIsCoherent(source.screen);
      var ops := Advance(source, PushedBy(source, changes), Hints(source, changes), hash);
      if ops == [] { return None; }
      sequence := (sequence + 1) % SEQUENCES;
      return Some(Numbered(sequence, ops));
    }

    /** A snapshot, without its history: the client will hold the terminal as it is, and the count starts over. */
    method Snapshot(term: TermId, source: Source, images: seq<nat>) returns (sent: TerminalState)
      requires InShape(source.screen)
      modifies this
      ensures Valid() && State() == Differ(BeliefOf(source.screen), 0, false, false)
      ensures source.screen.columns <= MAX_COLUMNS && source.screen.rows <= MAX_ROWS ==> R.Carries(sent, source.screen)
      ensures sent.term == term && sent.scrollback == [] && sent.images == images
    {
      var screen := source.screen;
      BeliefIsCoherent(screen);
      hide Coherent, DecodeGrid, Expand, Flatten, RunsFit;
      var runs := EncodeGrid(screen.grid, screen.columns, screen.rows);
      sent := TerminalState(term, screen.columns, screen.rows, runs, [], screen.cursor, screen.modes, screen.title,
                            false, false, 0, images, NOWHERE);
      believed, sequence, needsSnapshot, historyDiverged := BeliefOf(screen), 0, false, false;
    }
  }
}
