/**
 A terminal from its own changes to a mirror at the far end of a lossy connection: what the differ of
 `DiffEngine` says, turn after turn, is a stream of `MirrorRun`, and what is held at its ends are the terminal's
 own screens.
 */
module TerminalRun {
  import opened Wrappers
  import opened Grid
  import opened GridDelta
  import opened GridDiff
  import opened Wire
  import opened Mirror
  import opened DiffEngine
  import R = MirrorRun

  /**
   What happens to a terminal's stream. A snapshot is taken; the terminal is announced anew, and its differ forgotten; a
   tick is flushed, and its ops arrive or are lost; or the differ has asked for a snapshot, and whatever flushes make
   of it until then, the clients that wait for one are sent nothing of it.
   */
  datatype Turn =
    | Attach(source: Source, sent: TerminalState)
    | Reopen(columns: Short, rows: Short)
    | Tick(source: Source, changes: Changes, ops: seq<GridOp>, arrived: bool)
    | Unsent(becomes: Differ)

  /** A terminal's differ, and its screen as it was last read. */
  datatype Watched = Watched(differ: Differ, last: Screen)

  /** What a terminal's changes say nothing of has not changed since it was last read. */
  predicate Reported(changes: Changes, last: Screen, source: Source) {
    && (!changes.any ==> source.screen == last && changes.pushed == 0)
    && (last.columns == source.screen.columns && last.rows == source.screen.rows && |last.grid| == |source.screen.grid| ==>
          Honest(Hints(source, changes), last.grid, source.screen.grid))
  }

  /**
   What can happen: what the differ's own methods do, of terminals that report their changes. And the numbers since the
   stream started over have not run out.
   */
  ghost predicate CanTurn(watched: Watched, turn: Turn) {
    match turn
    case Attach(source, sent) => Sound(source) && R.Carries(sent, source.screen)
    case Reopen(_, _) => true
    case Tick(source, changes, ops, _) =>
      && Sound(source) && Says(watched.differ, source, changes, ops)
      && !watched.differ.needsSnapshot && watched.differ.sequence + 1 < SEQUENCES
      && Reported(changes, watched.last, source)
    case Unsent(becomes) => watched.differ.needsSnapshot && becomes.needsSnapshot
  }

  function Turned(watched: Watched, turn: Turn): Watched {
    match turn
    case Attach(source, _) => Watched(Differ(BeliefOf(source.screen), 0, false, false), source.screen)
    case Reopen(_, _) => Watched(NEW_DIFFER, ScreenOf(R.NO_BELIEF))
    case Tick(source, changes, ops, _) => Watched(AfterFlush(watched.differ, source, changes, ops != []), source.screen)
    case Unsent(becomes) => watched.(differ := becomes)
  }

  ghost predicate CanRun(watched: Watched, turns: seq<Turn>)
    decreases |turns|
  {
    turns != [] ==> CanTurn(watched, turns[0]) && CanRun(Turned(watched, turns[0]), turns[1..])
  }

  function AfterTurns(watched: Watched, turns: seq<Turn>): Watched
    decreases |turns|
  {
    if turns == [] then watched else AfterTurns(Turned(watched, turns[0]), turns[1..])
  }

  /** What a turn puts on the wire. */
  function EventOf(turn: Turn): seq<R.Event> {
    match turn
    case Attach(source, sent) => [R.Snapshot(sent, BeliefOf(source.screen))]
    case Reopen(columns, rows) => [R.Opened(columns, rows)]
    case Tick(_, _, ops, arrived) => if ops == [] then [] else [R.Delta(ops, arrived)]
    case Unsent(_) => []
  }

  function EventsOf(turns: seq<Turn>): seq<R.Event>
    decreases |turns|
  {
    if turns == [] then [] else EventOf(turns[0]) + EventsOf(turns[1..])
  }

  /** The screens of a terminal that the turns read or announce. */
  function ScreenIn(turn: Turn): seq<Screen> {
    match turn
    case Attach(source, _) => [source.screen]
    case Reopen(columns, rows) => [ScreenOf(BlankState(columns, rows, 0))]
    case Tick(source, _, _, _) => [source.screen]
    case Unsent(_) => []
  }

  function ScreensIn(turns: seq<Turn>): seq<Screen>
    decreases |turns|
  {
    if turns == [] then [] else ScreenIn(turns[0]) + ScreensIn(turns[1..])
  }

  predicate AllIn(held: seq<Screen>, seen: seq<Screen>) {
    forall i :: 0 <= i < |held| ==> held[i] in seen
  }

  /**
   What holds at every moment: the ends of the stream hold screens of the terminal; and until the differ asks, the
   server's end is what the differ believes, and that is the terminal as it was last read.
   */
  ghost predicate Tracks(watched: Watched, ends: R.Ends, seen: seq<Screen>) {
    && R.InStep(ends) && AllIn(ends.held, seen)
    && (!watched.differ.needsSnapshot ==>
          && Believing(watched.differ) && ends.belief == watched.differ.believed
          && |ends.held| == watched.differ.sequence + 1
          && ScreenOf(watched.differ.believed) == watched.last
          && (!ends.stated ==> watched.differ.believed == R.NO_BELIEF))
  }

  /** So at every moment a flush may be called: the report is true of what the differ believes as well. */
  lemma FlushMayBeCalled(watched: Watched, ends: R.Ends, seen: seq<Screen>, source: Source, changes: Changes)
    requires Tracks(watched, ends, seen) && !watched.differ.needsSnapshot
    requires Sound(source) && Reported(changes, watched.last, source)
    ensures Believing(watched.differ) && InShape(source.screen) && Truthful(watched.differ, source, changes)
  {
    CoherentIsRectangular(watched.differ.believed);
    hide R.InStep, Honest, Hints;
  }

  lemma AttachTracks(ends: R.Ends, source: Source, sent: TerminalState, watched: Watched)
    requires Coherent(ends.belief) && Coherent(ends.mirror.state) && CanTurn(watched, Attach(source, sent))
    ensures var event := R.Snapshot(sent, BeliefOf(source.screen));
      R.CanDo(ends, event) && Tracks(Turned(watched, Attach(source, sent)), R.Step(ends, event), [source.screen])
  {
    BeliefIsCoherent(source.screen);
    hide Coherent, R.InStep, R.Carries, Sound, AfterSnapshot;
    assert source.screen.columns <= MAX_COLUMNS && source.screen.rows <= MAX_ROWS by { SoundSize(source); }
    CarriedSize(sent, source.screen);
    R.SnapshotBringsInStep(ends, sent, BeliefOf(source.screen));
  }

  lemma SoundSize(source: Source)
    requires Sound(source)
    ensures 0 < source.screen.columns <= MAX_COLUMNS && 0 < source.screen.rows <= MAX_ROWS && InShape(source.screen)
  {
  }

  lemma CarriedSize(sent: TerminalState, screen: Screen)
    requires R.Carries(sent, screen)
    ensures sent.columns == screen.columns && sent.rows == screen.rows
  {
  }

  lemma ReopenTracks(ends: R.Ends, columns: Short, rows: Short, watched: Watched)
    requires Coherent(ends.belief) && Coherent(ends.mirror.state)
    ensures var event := R.Opened(columns, rows);
      R.CanDo(ends, event) && Tracks(Turned(watched, Reopen(columns, rows)), R.Step(ends, event), [ScreenOf(BlankState(columns, rows, 0))])
  {
    BlankCoherent(0, 0, 0);
    hide Coherent, R.InStep, BlankGrid;
    R.OpeningBringsInStep(ends, columns, rows);
  }

  /** What a differ that speaks believes afterwards, and what its ops do to what it believed. */
  lemma Spoken(differ: Differ, source: Source, changes: Changes, ops: seq<GridOp>)
    requires Believing(differ) && Sound(source) && Says(differ, source, changes, ops) && ops != []
    requires !differ.needsSnapshot && differ.sequence + 1 < SEQUENCES
    ensures Brings(ops, differ.believed, source.screen, PushedBy(source, changes))
    ensures Apply(ops, differ.believed) == Some(BeliefOf(source.screen))
    ensures var now := AfterFlush(differ, source, changes, true);
      Believing(now) && now.believed == BeliefOf(source.screen) && now.sequence == differ.sequence + 1
    ensures ScreenOf(BeliefOf(source.screen)) == source.screen
  {
    SoundSize(source);
    BeliefIsCoherent(source.screen);
    hide Coherent, Brings, Apply, Sound, PushedBy;
    BeliefFollows(ops, differ, source.screen, PushedBy(source, changes));
  }

  lemma TickTracks(watched: Watched, ends: R.Ends, seen: seq<Screen>, source: Source, changes: Changes, ops: seq<GridOp>, arrived: bool)
    requires Tracks(watched, ends, seen) && CanTurn(watched, Tick(source, changes, ops, arrived)) && ops != []
    ensures R.CanDo(ends, R.Delta(ops, arrived))
    ensures Tracks(Turned(watched, Tick(source, changes, ops, arrived)), R.Step(ends, R.Delta(ops, arrived)), seen + [source.screen])
  {
    var differ := watched.differ;
    hide Coherent, Brings, Apply, Sound, R.Restates, PushedBy, Says, AfterFlush, Believing, BeliefOf, ScreenOf, AfterDelta, R.InStep, Looks;
    Spoken(differ, source, changes, ops);
    R.InStepIsCoherent(ends);
    if !ends.stated {
      SoundSize(source);
      BringsRestates(ops, differ.believed, source.screen, PushedBy(source, changes));
    }
    R.DeltaKeepsInStep(ends, ops, arrived);
    OneMoreIn(ends.held, seen, source.screen);
  }

  lemma OneMoreIn(held: seq<Screen>, seen: seq<Screen>, screen: Screen)
    requires AllIn(held, seen)
    ensures AllIn(held + [screen], seen + [screen])
  {
    assert screen in seen + [screen] by { assert (seen + [screen])[|seen|] == screen; }
  }

  /** A delta against nothing restates the terminal. */
  lemma BringsRestates(ops: seq<GridOp>, believed: GridState, screen: Screen, pushed: seq<Row>)
    requires Brings(ops, believed, screen, pushed) && !SameSize(believed, screen)
    ensures R.Restates(ops, screen)
  {
    hide Coherent, Carried, Apply;
  }

  lemma QuietTracks(watched: Watched, ends: R.Ends, seen: seq<Screen>, source: Source, changes: Changes, arrived: bool)
    requires Tracks(watched, ends, seen) && CanTurn(watched, Tick(source, changes, [], arrived))
    ensures Tracks(Turned(watched, Tick(source, changes, [], arrived)), ends, seen + [source.screen])
  {
    var differ, pushed := watched.differ, PushedBy(source, changes);
    SoundSize(source);
    BeliefIsCoherent(source.screen);
    if Looks(differ, changes) {
      BeliefFollows([], differ, source.screen, pushed);
      R.InStepIsCoherent(ends);
    }
    hide Coherent, R.InStep, Brings, Sound, PushedBy;
  }

  lemma UnsentTracks(watched: Watched, ends: R.Ends, seen: seq<Screen>, becomes: Differ)
    requires Tracks(watched, ends, seen) && CanTurn(watched, Unsent(becomes))
    ensures Tracks(Turned(watched, Unsent(becomes)), ends, seen + [])
  {
    hide Coherent, R.InStep, Believing;
    assert seen + [] == seen;
  }

  /** A turn that puts nothing on the wire. */
  lemma SilentTracks(watched: Watched, ends: R.Ends, seen: seq<Screen>, turn: Turn)
    requires Tracks(watched, ends, seen) && CanTurn(watched, turn) && EventOf(turn) == []
    ensures Tracks(Turned(watched, turn), ends, seen + ScreenIn(turn))
  {
    hide Tracks, CanTurn, Turned;
    match turn {
      case Tick(source, changes, _, arrived) => QuietTracks(watched, ends, seen, source, changes, arrived);
      case Unsent(becomes) => UnsentTracks(watched, ends, seen, becomes);
    }
  }

  /** And one that does. */
  lemma HeardTracks(watched: Watched, ends: R.Ends, seen: seq<Screen>, turn: Turn, event: R.Event)
    requires Tracks(watched, ends, seen) && CanTurn(watched, turn) && EventOf(turn) == [event]
    ensures Coherent(ends.belief) && Coherent(ends.mirror.state) && R.CanDo(ends, event)
    ensures Tracks(Turned(watched, turn), R.Step(ends, event), seen + ScreenIn(turn))
  {
    TracksCoherent(watched, ends, seen);
    if turn.Tick? {
      hide Tracks, CanTurn, Turned, R.Step, R.CanDo, Coherent;
      TickTracks(watched, ends, seen, turn.source, turn.changes, turn.ops, turn.arrived);
    } else {
      StartTracks(watched, ends, turn, event);
      hide CanTurn, Turned, R.Step, R.CanDo, Coherent, R.InStep, Believing, ScreenIn;
      MoreSeen(R.Step(ends, event).held, seen, ScreenIn(turn));
    }
  }

  lemma TracksCoherent(watched: Watched, ends: R.Ends, seen: seq<Screen>)
    requires Tracks(watched, ends, seen)
    ensures Coherent(ends.belief) && Coherent(ends.mirror.state)
  {
    hide Coherent;
  }

  lemma MoreSeen(held: seq<Screen>, before: seq<Screen>, seen: seq<Screen>)
    requires AllIn(held, seen)
    ensures AllIn(held, before + seen)
  {
  }

  predicate StartsOver(turn: Turn) { turn.Attach? || turn.Reopen? }

  /** A turn that starts the stream over, whatever the two ends were. */
  lemma StartTracks(watched: Watched, ends: R.Ends, turn: Turn, event: R.Event)
    requires Coherent(ends.belief) && Coherent(ends.mirror.state)
    requires StartsOver(turn) && CanTurn(watched, turn) && EventOf(turn) == [event]
    ensures R.CanDo(ends, event) && Tracks(Turned(watched, turn), R.Step(ends, event), ScreenIn(turn))
  {
    hide Tracks, CanTurn, Turned, R.Step, R.CanDo, Coherent, BeliefOf, BlankState;
    match turn {
      case Attach(source, sent) => AttachTracks(ends, source, sent, watched);
      case Reopen(columns, rows) => ReopenTracks(ends, columns, rows, watched);
    }
  }

  lemma {:induction false} RunTracks(watched: Watched, ends: R.Ends, seen: seq<Screen>, turns: seq<Turn>)
    requires Tracks(watched, ends, seen) && CanRun(watched, turns)
    ensures Coherent(ends.belief) && Coherent(ends.mirror.state) && R.Possible(ends, EventsOf(turns))
    ensures Tracks(AfterTurns(watched, turns), R.Run(ends, EventsOf(turns)), seen + ScreensIn(turns))
    decreases |turns|
  {
    hide Tracks, CanTurn, Turned, R.Step, R.CanDo, Coherent, EventOf, ScreenIn;
    TracksCoherent(watched, ends, seen);
    if turns == [] {
      assert seen + [] == seen;
    } else {
      var turn, rest := turns[0], turns[1..];
      var next := Turned(watched, turn);
      var event := EventOf(turn);
      AtMostOne(turn);
      assert seen + ScreensIn(turns) == seen + ScreenIn(turn) + ScreensIn(rest);
      if event == [] {
        SilentTracks(watched, ends, seen, turn);
        RunTracks(next, ends, seen + ScreenIn(turn), rest);
        assert EventsOf(turns) == EventsOf(rest);
      } else {
        HeardTracks(watched, ends, seen, turn, event[0]);
        RunTracks(next, R.Step(ends, event[0]), seen + ScreenIn(turn), rest);
        assert EventsOf(turns)[0] == event[0] && EventsOf(turns)[1..] == EventsOf(rest);
      }
    }
  }

  lemma AtMostOne(turn: Turn)
    ensures EventOf(turn) == [] || EventOf(turn) == [EventOf(turn)[0]]
  {
  }

  /**
   From the terminal to the far end of the connection. Over any run that starts the stream over, whatever the two ends
   were before, with more starts in it, terminals that change size or flood, and any deltas lost: the mirror shows a
   screen the terminal really had when it was read (or the blank one that was announced). With nothing lost, the
   terminal stated, and its differ not asking for a snapshot, it shows the terminal as it was last read.
   */
  lemma MirrorShowsTheTerminal(watched: Watched, ends: R.Ends, turns: seq<Turn>)
    requires Coherent(ends.belief) && Coherent(ends.mirror.state)
    requires turns != [] && StartsOver(turns[0]) && CanRun(watched, turns)
    ensures R.Possible(ends, EventsOf(turns))
    ensures var now, at := R.Run(ends, EventsOf(turns)), AfterTurns(watched, turns);
      && ScreenOf(now.mirror.state) in ScreensIn(turns)
      && (!now.missed && now.stated && !at.differ.needsSnapshot ==> ScreenOf(now.mirror.state) == at.last)
      && AllIn(now.held, ScreensIn(turns)) && R.InStep(now)
  {
    var first, event := turns[0], EventOf(turns[0])[0];
    StartFirst(turns);
    StartTracks(watched, ends, first, event);
    hide CanTurn, Turned, R.Step, R.CanDo, Coherent, ScreenIn, Tracks, EventOf, StartsOver;
    RunTracks(Turned(watched, first), R.Step(ends, event), ScreenIn(first), turns[1..]);
    TracksShows(AfterTurns(watched, turns), R.Run(ends, EventsOf(turns)), ScreensIn(turns));
  }

  /** The stream of turns that start it over begins with that start. */
  lemma StartFirst(turns: seq<Turn>)
    requires turns != [] && StartsOver(turns[0])
    ensures var event := EventOf(turns[0])[0];
      && EventOf(turns[0]) == [event] && !event.Delta?
      && EventsOf(turns) != [] && EventsOf(turns)[0] == event && EventsOf(turns)[1..] == EventsOf(turns[1..])
  {
  }

  lemma TracksShows(watched: Watched, ends: R.Ends, seen: seq<Screen>)
    requires Tracks(watched, ends, seen)
    ensures ScreenOf(ends.mirror.state) in seen && R.InStep(ends) && AllIn(ends.held, seen)
    ensures !ends.missed && ends.stated && !watched.differ.needsSnapshot ==> ScreenOf(ends.mirror.state) == watched.last
  {
    hide Coherent, Believing, ScreenOf;
  }

  // ------------------------------------------------------------- the history

  /** A tick that arrives if it says anything, of the size the terminal had, the lines it counts all still there. */
  predicate Counted(watched: Watched, turn: Turn) {
    && turn.Tick? && turn.arrived && turn.changes.pushed <= |turn.source.history|
    && turn.source.screen.columns == watched.last.columns && turn.source.screen.rows == watched.last.rows
  }

  predicate AllCounted(watched: Watched, turns: seq<Turn>)
    decreases |turns|
  {
    turns != [] ==> Counted(watched, turns[0]) && AllCounted(Turned(watched, turns[0]), turns[1..])
  }

  /** The lines the terminal has gained since it was last read. */
  function GainedIn(turn: Turn): seq<Row> {
    if turn.Tick? && turn.changes.pushed <= |turn.source.history|
    then turn.source.history[|turn.source.history| - turn.changes.pushed..] else []
  }

  function Gained(turns: seq<Turn>): seq<Row>
    decreases |turns|
  {
    if turns == [] then [] else GainedIn(turns[0]) + Gained(turns[1..])
  }

  /** Once a flood has cut the history, no tick mends it. */
  lemma {:induction false} DivergedStays(watched: Watched, turns: seq<Turn>)
    requires watched.differ.diverged && AllCounted(watched, turns)
    ensures AfterTurns(watched, turns).differ.diverged
    decreases |turns|
  {
    if turns != [] { DivergedStays(Turned(watched, turns[0]), turns[1..]); }
  }

  /** Nothing lost, stated, and no flood since: the mirror shows what the differ believes. */
  ghost predicate Whole(watched: Watched, ends: R.Ends, seen: seq<Screen>) {
    && Tracks(watched, ends, seen) && !watched.differ.needsSnapshot && !watched.differ.diverged
    && !ends.missed && ends.stated
  }

  lemma WholeShows(watched: Watched, ends: R.Ends, seen: seq<Screen>)
    requires Whole(watched, ends, seen)
    ensures Believing(watched.differ) && Coherent(ends.belief) && Coherent(ends.mirror.state)
    ensures ScreenOf(ends.mirror.state) == ScreenOf(watched.differ.believed) == watched.last
    ensures ends.belief == watched.differ.believed && ends.mirror.sequence + 1 == |ends.held| && |ends.held| == watched.differ.sequence + 1
  {
    hide Coherent;
  }

  /** What a tick of such a run does to a client of the screen that was read last. */
  lemma CountedTick(watched: Watched, turn: Turn, client: GridState)
    requires CanTurn(watched, turn) && Counted(watched, turn) && Believing(watched.differ)
    requires !watched.differ.diverged && ScreenOf(watched.differ.believed) == watched.last
    requires !Turned(watched, turn).differ.diverged && !Turned(watched, turn).differ.needsSnapshot
    requires Coherent(client) && ScreenOf(client) == watched.last
    ensures Apply(turn.ops, client).Some? && Apply(turn.ops, client).value.historyLimit == client.historyLimit
    ensures LiveHistory(Apply(turn.ops, client).value) == LastLines(LiveHistory(client) + GainedIn(turn), client.historyLimit)
  {
    hide Coherent, Brings, Apply, LiveHistory, Sound, LastLines, Believing, Hints, Honest;
    CountedIs(watched, turn);
    if turn.changes.any {
      TickBringsHistory(watched.differ, turn.source, turn.changes, turn.ops, client);
    } else {
      LiveIsNewest(client);
      NothingApplied(client);
    }
  }

  lemma CountedIs(watched: Watched, turn: Turn)
    requires CanTurn(watched, turn) && Counted(watched, turn)
    requires !watched.differ.diverged && ScreenOf(watched.differ.believed) == watched.last
    requires !Turned(watched, turn).differ.diverged && !Turned(watched, turn).differ.needsSnapshot
    ensures turn.changes.pushed <= |turn.source.history|
    ensures GainedIn(turn) == turn.source.history[|turn.source.history| - turn.changes.pushed..]
    ensures SameSize(watched.differ.believed, turn.source.screen)
    ensures turn.changes.any ==> turn.changes.pushed <= 256
    ensures !turn.changes.any ==> turn.ops == [] && GainedIn(turn) == []
  {
    hide Coherent, Brings, Sound, Hints, Honest;
  }

  lemma LiveIsNewest(client: GridState)
    requires Coherent(client)
    ensures LiveHistory(client) == LastLines(LiveHistory(client) + [], client.historyLimit)
  {
    NewestOfNone(client);
  }

  lemma NothingApplied(client: GridState)
    requires Coherent(client)
    ensures Apply([], client) == Some(client)
  {
    hide Coherent;
  }

  /** One tick: the mirror's history is the newest of what it was and what the terminal has gained. */
  lemma TickGains(watched: Watched, ends: R.Ends, seen: seq<Screen>, turn: Turn)
    requires Whole(watched, ends, seen) && CanTurn(watched, turn) && Counted(watched, turn)
    requires !Turned(watched, turn).differ.diverged && !Turned(watched, turn).differ.needsSnapshot
    ensures Coherent(ends.belief) && Coherent(ends.mirror.state) && R.Possible(ends, EventOf(turn))
    ensures var now := R.Run(ends, EventOf(turn));
      && Whole(Turned(watched, turn), now, seen + ScreenIn(turn))
      && now.mirror.state.historyLimit == ends.mirror.state.historyLimit
      && LiveHistory(now.mirror.state) == LastLines(LiveHistory(ends.mirror.state) + GainedIn(turn), ends.mirror.state.historyLimit)
  {
    WholeShows(watched, ends, seen);
    CountedTick(watched, turn, ends.mirror.state);
    NothingApplied(ends.mirror.state);
    hide Coherent, Apply, LiveHistory, LastLines, Believing, CanTurn, Counted, GainedIn, Turned, Tracks, ScreenOf, R.CanDo;
    if turn.ops == [] {
      SilentTracks(watched, ends, seen, turn);
    } else {
      var event := R.Delta(turn.ops, turn.arrived);
      HeardTracks(watched, ends, seen, turn, event);
      CountedArrives(watched, turn);
    }
  }

  lemma CountedArrives(watched: Watched, turn: Turn)
    requires Counted(watched, turn)
    ensures turn.Tick? && turn.arrived
  {
  }

  /**
   Over any run of such ticks after which the differ does not know of a flood, the mirror's live history is the newest its
   limit allows of what it was and all the lines the terminal has gained since.
   */
  lemma {:induction false} HistoryGains(watched: Watched, ends: R.Ends, seen: seq<Screen>, turns: seq<Turn>)
    requires Whole(watched, ends, seen) && CanRun(watched, turns) && AllCounted(watched, turns)
    requires var at := AfterTurns(watched, turns).differ; !at.diverged && !at.needsSnapshot
    ensures Coherent(ends.belief) && Coherent(ends.mirror.state) && R.Possible(ends, EventsOf(turns))
    ensures var now := R.Run(ends, EventsOf(turns));
      && Whole(AfterTurns(watched, turns), now, seen + ScreensIn(turns))
      && LiveHistory(now.mirror.state) == LastLines(LiveHistory(ends.mirror.state) + Gained(turns), ends.mirror.state.historyLimit)
    decreases |turns|, 0
  {
    hide Coherent, LiveHistory, LastLines, CanTurn, Counted, GainedIn, Turned, Whole, R.CanDo, R.Step, EventOf, ScreenIn;
    WholeShows(watched, ends, seen);
    LiveIsNewest(ends.mirror.state);
    SeenMore(seen, turns);
    if turns != [] {
      var turn, rest := turns[0], turns[1..];
      StaysSound(watched, turns);
      TickGains(watched, ends, seen, turn);
      OneMoreGains(Turned(watched, turn), ends, R.Run(ends, EventOf(turn)), seen + ScreenIn(turn), turn, rest);
    }
  }

  lemma SeenMore(seen: seq<Screen>, turns: seq<Turn>)
    ensures turns == [] ==> seen + ScreensIn(turns) == seen
    ensures turns != [] ==> seen + ScreensIn(turns) == seen + ScreenIn(turns[0]) + ScreensIn(turns[1..])
  {
  }

  lemma OneMoreGains(watched: Watched, ends: R.Ends, next: R.Ends, seen: seq<Screen>, turn: Turn, rest: seq<Turn>)
    requires Coherent(ends.belief) && Coherent(ends.mirror.state) && R.Possible(ends, EventOf(turn))
    requires next == R.Run(ends, EventOf(turn)) && next.mirror.state.historyLimit == ends.mirror.state.historyLimit
    requires Whole(watched, next, seen) && CanRun(watched, rest) && AllCounted(watched, rest)
    requires var at := AfterTurns(watched, rest).differ; !at.diverged && !at.needsSnapshot
    requires LiveHistory(next.mirror.state) == LastLines(LiveHistory(ends.mirror.state) + GainedIn(turn), ends.mirror.state.historyLimit)
    ensures R.Possible(ends, EventOf(turn) + EventsOf(rest))
    ensures var now := R.Run(ends, EventOf(turn) + EventsOf(rest));
      && Whole(AfterTurns(watched, rest), now, seen + ScreensIn(rest))
      && LiveHistory(now.mirror.state)
        == LastLines(LiveHistory(ends.mirror.state) + (GainedIn(turn) + Gained(rest)), ends.mirror.state.historyLimit)
    decreases |rest|, 1
  {
    hide Coherent, LiveHistory, LastLines, CanTurn, Counted, GainedIn, Turned, Whole, R.CanDo, R.Step, EventOf, ScreenIn;
    HistoryGains(watched, next, seen, rest);
    OneThenRest(ends, turn, rest);
    NewestOfAll(LiveHistory(ends.mirror.state), GainedIn(turn), Gained(rest), ends.mirror.state.historyLimit);
  }

  /** A differ that at the end neither asks nor knows of a flood never did. */
  lemma StaysSound(watched: Watched, turns: seq<Turn>)
    requires turns != [] && AllCounted(watched, turns)
    requires var at := AfterTurns(watched, turns).differ; !at.diverged && !at.needsSnapshot
    ensures !Turned(watched, turns[0]).differ.diverged && !Turned(watched, turns[0]).differ.needsSnapshot
  {
    if Turned(watched, turns[0]).differ.diverged { DivergedStays(Turned(watched, turns[0]), turns[1..]); }
    if Turned(watched, turns[0]).differ.needsSnapshot { NeedStays(Turned(watched, turns[0]), turns[1..]); }
  }

  lemma {:induction false} NeedStays(watched: Watched, turns: seq<Turn>)
    requires watched.differ.needsSnapshot && AllCounted(watched, turns)
    ensures AfterTurns(watched, turns).differ.needsSnapshot
    decreases |turns|
  {
    if turns != [] { NeedStays(Turned(watched, turns[0]), turns[1..]); }
  }

  /** The stream of a turn and of those after it, one after the other. */
  lemma OneThenRest(ends: R.Ends, turn: Turn, rest: seq<Turn>)
    requires Coherent(ends.belief) && Coherent(ends.mirror.state) && R.Possible(ends, EventOf(turn))
    requires var next := R.Run(ends, EventOf(turn));
      Coherent(next.belief) && Coherent(next.mirror.state) && R.Possible(next, EventsOf(rest))
    ensures R.Possible(ends, EventOf(turn) + EventsOf(rest))
    ensures R.Run(ends, EventOf(turn) + EventsOf(rest)) == R.Run(R.Run(ends, EventOf(turn)), EventsOf(rest))
  {
    AtMostOne(turn);
    hide Coherent, R.CanDo, R.Step;
    var event := EventOf(turn);
    if event == [] {
      assert event + EventsOf(rest) == EventsOf(rest);
    } else {
      hide EventOf;
      R.StepCoherent(ends, event[0]);
      assert event[1..] == [];
      assert (event + EventsOf(rest))[0] == event[0] && (event + EventsOf(rest))[1..] == EventsOf(rest);
    }
  }

  /**
   Since a snapshot: what the snapshot brought and all the lines the terminal has gained since, the newest of them.
   */
  lemma HistorySinceSnapshot(watched: Watched, ends: R.Ends, turns: seq<Turn>)
    requires Coherent(ends.belief) && Coherent(ends.mirror.state) && turns != [] && turns[0].Attach? && CanRun(watched, turns)
    requires AllCounted(Turned(watched, turns[0]), turns[1..])
    requires var at := AfterTurns(watched, turns).differ; !at.diverged && !at.needsSnapshot
    ensures R.Possible(ends, EventsOf(turns))
    ensures var mirror, limit := R.Run(ends, EventsOf(turns)).mirror, ends.mirror.state.historyLimit;
      LiveHistory(mirror.state) == LastLines(LiveHistory(Adopted(turns[0].sent, limit)) + Gained(turns[1..]), limit)
  {
    var first, event := turns[0], EventOf(turns[0])[0];
    AttachIsWhole(watched, ends, first, event);
    hide Coherent, LiveHistory, LastLines, CanTurn, Counted, Turned, Whole, R.CanDo, R.Step, Adopted;
    HistoryGains(Turned(watched, first), R.Step(ends, event), ScreenIn(first), turns[1..]);
    StartFirst(turns);
  }

  lemma AttachIsWhole(watched: Watched, ends: R.Ends, first: Turn, event: R.Event)
    requires Coherent(ends.belief) && Coherent(ends.mirror.state)
    requires first.Attach? && CanTurn(watched, first) && EventOf(first) == [event]
    ensures R.CanDo(ends, event) && Whole(Turned(watched, first), R.Step(ends, event), ScreenIn(first))
    ensures R.Step(ends, event).mirror.state == Adopted(first.sent, ends.mirror.state.historyLimit)
    ensures R.Step(ends, event).mirror.state.historyLimit == ends.mirror.state.historyLimit
  {
    SoundSize(first.source);
    CarriedSize(first.sent, first.source.screen);
    AdoptedCoherent(first.sent, ends.mirror.state.historyLimit);
    hide Tracks, Coherent, Adopted, R.Carries, Sound, ScreenIn, BeliefOf;
    StartTracks(watched, ends, first, event);
  }
}
