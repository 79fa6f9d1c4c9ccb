/**
 A mirror at the far end of a lossy stream (src/client/mirror.cpp, src/server/diff_engine.cpp): a server that
 announces terminals and sends snapshots and numbered deltas in order, a connection that may lose deltas but
 nothing else, and what the mirror then shows.
 */
module MirrorRun {
  import opened Wrappers
  import opened Grid
  import opened GridDelta
  import opened Wire
  import opened Mirror

  /**
   What the server does, and whether what it sent arrived. A snapshot is of the terminal as it is `now`; a terminal
   opened, or running again, is announced with nothing but its size.
   */
  datatype Event =
    | Snapshot(sent: TerminalState, now: GridState)
    | Opened(columns: Short, rows: Short)
    | Delta(ops: seq<GridOp>, arrived: bool)

  /**
   Both ends. `held` are the screens the server has held since it last started the stream over, by the number of
   the delta that made each: a snapshot's, or a blank one of the size announced, comes first. `stated` says that the
   server has stated the terminal since; `missed` that a delta was lost, and `behind` that another one arrived after.
   */
  datatype Ends = Ends(belief: GridState, held: seq<Screen>, mirror: Held, stated: bool, missed: bool, behind: bool)

  /** A picture of a terminal as a snapshot carries it. */
  predicate Carries(sent: TerminalState, screen: Screen) {
    && sent.columns == screen.columns && sent.rows == screen.rows && sent.cursor == screen.cursor
    && sent.modes == screen.modes && sent.title == screen.title
    && DecodeGrid(sent.grid, sent.columns, sent.rows) == Some(screen.grid)
  }

  /** Ops that every holder takes, and that leave every holder with one screen. */
  ghost predicate Restates(ops: seq<GridOp>, screen: Screen) {
    forall holder {:trigger Apply(ops, holder)} :: Coherent(holder) ==> Apply(ops, holder).Some? && ScreenOf(Apply(ops, holder).value) == screen
  }

  /**
   What a server can do: a snapshot of a terminal of a size the protocol allows, however far that has moved on from
   what was last sent of it; the announcement of a terminal; or a delta it has itself applied to its belief, as long
   as the numbers since the stream started over have not run out. The first delta of a terminal only announced is
   computed against nothing, so it is one that restates the terminal whole.
   */
  ghost predicate CanDo(ends: Ends, event: Event)
    requires Coherent(ends.belief)
  {
    match event
    case Snapshot(sent, now) => Coherent(now) && Carries(sent, ScreenOf(now)) && sent.columns <= MAX_COLUMNS && sent.rows <= MAX_ROWS
    case Opened(_, _) => true
    case Delta(ops, _) =>
      && Apply(ops, ends.belief).Some? && |ends.held| < SEQUENCES
      && (!ends.stated ==> Restates(ops, ScreenOf(Apply(ops, ends.belief).value)))
  }

  /** Nothing believed of a terminal: it is of no size. */
  const NO_BELIEF := BlankState(0, 0, 0)

  ghost function Step(ends: Ends, event: Event): Ends
    requires Coherent(ends.belief) && Coherent(ends.mirror.state) && CanDo(ends, event)
  {
    match event
    case Snapshot(sent, now) => Ends(now, [ScreenOf(now)], AfterSnapshot(ends.mirror, sent), true, false, false)
    case Opened(columns, rows) =>
      Ends(NO_BELIEF, [ScreenOf(BlankState(columns, rows, 0))], AfterOpen(ends.mirror, columns, rows), false, false, false)
    case Delta(ops, arrived) =>
      var after := Apply(ops, ends.belief).value;
      var mirror := if arrived then AfterDelta(ends.mirror, |ends.held|, ops) else ends.mirror;
      Ends(after, ends.held + [ScreenOf(after)], mirror, true,
           ends.missed || !arrived, ends.missed && (ends.behind || arrived))
  }

  /** What holds at every moment of every run. */
  predicate InStep(ends: Ends) {
    && Coherent(ends.belief) && Coherent(ends.mirror.state)
    && 0 < |ends.held| <= SEQUENCES && (ends.stated ==> ends.held[|ends.held| - 1] == ScreenOf(ends.belief))
    && (!ends.stated ==> |ends.held| == 1 && !ends.missed)
    // The mirror shows a screen the server really held, or announced: the one its sequence names.
    && ends.mirror.sequence < |ends.held| && ScreenOf(ends.mirror.state) == ends.held[ends.mirror.sequence]
    // With nothing lost it is the last one, and nothing is asked for.
    && (!ends.missed ==> ends.mirror.sequence == |ends.held| - 1 && !ends.mirror.needsSnapshot)
    // With something lost it stands still, and the first delta to arrive after makes it ask.
    && (ends.missed ==> ends.mirror.sequence < |ends.held| - 1)
    && (ends.behind ==> ends.mirror.needsSnapshot) && (ends.behind ==> ends.missed)
  }

  lemma SnapshotBringsInStep(ends: Ends, sent: TerminalState, now: GridState)
    requires Coherent(ends.belief) && Coherent(ends.mirror.state) && CanDo(ends, Snapshot(sent, now))
    ensures InStep(Step(ends, Snapshot(sent, now)))
  {
    hide Coherent, DecodeGrid, Adopted;
    AdoptedCoherent(sent, ends.mirror.state.historyLimit);
  }

  lemma OpeningBringsInStep(ends: Ends, columns: Short, rows: Short)
    requires Coherent(ends.belief) && Coherent(ends.mirror.state)
    ensures InStep(Step(ends, Opened(columns, rows)))
  {
    BlankCoherent(0, 0, 0);
    BlankCoherent(columns, rows, ends.mirror.state.historyLimit);
    hide Coherent, BlankGrid;
  }

  lemma DeltaKeepsInStep(ends: Ends, ops: seq<GridOp>, arrived: bool)
    requires InStep(ends) && CanDo(ends, Delta(ops, arrived))
    ensures InStep(Step(ends, Delta(ops, arrived)))
  {
    hide Coherent, AllFit, PerformAll;
    DeltaKeepsCoherent(ops, ends.belief);
    DeltaKeepsCoherent(ops, ends.mirror.state);
    if arrived && !ends.missed && ends.stated {
      DeltaActsOnScreens(ops, ends.belief, ends.mirror.state);
    }
  }

  /** A run: every event one the server could do at that point. */
  ghost predicate Possible(ends: Ends, events: seq<Event>)
    requires Coherent(ends.belief) && Coherent(ends.mirror.state)
    decreases |events|
  {
    events != [] ==>
      && CanDo(ends, events[0])
      && (StepCoherent(ends, events[0]); Possible(Step(ends, events[0]), events[1..]))
  }

  lemma StepCoherent(ends: Ends, event: Event)
    requires Coherent(ends.belief) && Coherent(ends.mirror.state) && CanDo(ends, event)
    ensures Coherent(Step(ends, event).belief) && Coherent(Step(ends, event).mirror.state)
  {
    hide Coherent, AllFit, PerformAll, Adopted, DecodeGrid, Restates, BlankGrid;
    match event {
      case Snapshot(sent, _) => AdoptedCoherent(sent, ends.mirror.state.historyLimit);
      case Opened(columns, rows) =>
        BlankCoherent(0, 0, 0);
        BlankCoherent(columns, rows, ends.mirror.state.historyLimit);
      case Delta(ops, _) =>
        DeltaKeepsCoherent(ops, ends.belief);
        DeltaKeepsCoherent(ops, ends.mirror.state);
    }
  }

  ghost function Run(ends: Ends, events: seq<Event>): (after: Ends)
    requires Coherent(ends.belief) && Coherent(ends.mirror.state) && Possible(ends, events)
    decreases |events|
  {
    if events == [] then ends
    else
      StepCoherent(ends, events[0]);
      Run(Step(ends, events[0]), events[1..])
  }

  lemma StepKeepsInStep(ends: Ends, event: Event)
    requires InStep(ends) && CanDo(ends, event)
    ensures InStep(Step(ends, event))
  {
    hide InStep, Step, CanDo, Coherent;
    InStepIsCoherent(ends);
    match event {
      case Snapshot(sent, now) => SnapshotBringsInStep(ends, sent, now);
      case Opened(columns, rows) => OpeningBringsInStep(ends, columns, rows);
      case Delta(ops, arrived) => DeltaKeepsInStep(ends, ops, arrived);
    }
  }

  lemma {:induction false} RunKeepsInStep(ends: Ends, events: seq<Event>)
    requires InStep(ends) && Possible(ends, events)
    ensures InStep(Run(ends, events))
    decreases |events|
  {
    hide InStep, Step, CanDo, Coherent;
    if events != [] {
      InStepIsCoherent(ends);
      StepKeepsInStep(ends, events[0]);
      RunKeepsInStep(Step(ends, events[0]), events[1..]);
    }
  }

  lemma InStepIsCoherent(ends: Ends)
    requires InStep(ends)
    ensures Coherent(ends.belief) && Coherent(ends.mirror.state)
  {
  }

  /**
   Over any run that starts with a snapshot or an announcement, whatever the two ends held before it, and with more
   of either in it, and whichever deltas are lost: the mirror shows a screen the server really held since the stream
   last started over (or the blank one it announced), the one its sequence names; with nothing lost, and the terminal
   stated, it shows the present one; and once a delta arrives after a lost one, it asks.
   */
  lemma MirrorShowsAServerScreen(ends: Ends, events: seq<Event>)
    requires Coherent(ends.belief) && Coherent(ends.mirror.state) && Possible(ends, events)
    requires events != [] && !events[0].Delta?
    ensures var now := Run(ends, events);
      && now.mirror.sequence < |now.held| && ScreenOf(now.mirror.state) == now.held[now.mirror.sequence]
      && (!now.missed && now.stated ==> ScreenOf(now.mirror.state) == ScreenOf(now.belief))
      && (!now.missed ==> !now.mirror.needsSnapshot)
      && (now.missed ==> now.mirror.sequence < |now.held| - 1)
      && (now.behind ==> now.mirror.needsSnapshot)
  {
    hide Coherent, Step, CanDo;
    match events[0] {
      case Snapshot(sent, now) => SnapshotBringsInStep(ends, sent, now);
      case Opened(columns, rows) => OpeningBringsInStep(ends, columns, rows);
    }
    RunKeepsInStep(Step(ends, events[0]), events[1..]);
  }

  /** And one more snapshot cures it, however far both ends had drifted: what the mirror shows is the terminal as it is. */
  lemma SnapshotCures(ends: Ends, sent: TerminalState, now: GridState)
    requires InStep(ends) && CanDo(ends, Snapshot(sent, now))
    ensures var after := Step(ends, Snapshot(sent, now));
      && InStep(after) && ScreenOf(after.mirror.state) == ScreenOf(after.belief) == ScreenOf(now)
      && !after.mirror.needsSnapshot
  {
    hide Coherent, DecodeGrid, Adopted;
    AdoptedCoherent(sent, ends.mirror.state.historyLimit);
  }
}
