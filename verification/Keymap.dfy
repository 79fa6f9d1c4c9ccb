/**
 The prefix keys (src/client/commands.cpp): a table of commands whose chords a reader's directives rewrite in
 place. A row is a command that exists; a chord is only how it is reached.
 */
module Keymap {
  import opened Wrappers

  datatype Action =
    | NewTerminal | CloseTerminal | KillTerminal | MoveTerminal | RenameTerminal | PrintOutput | PrinterSettings
    | NextTerminal | PreviousTerminal | WindowList | Zoom | Minimize | MoveResize | TileHorizontally | TileVertically
    | TileGrid | Cascade | MenuBar | CopyMode | Paste | SendPrefix | Detach | Sessions | NewSession | RenameSession
    | KillSession | KeyReference | Quit | Settings | ToggleStatusBar | FitDesktop | ShowCpuUsage | ShowMemoryRss
    | ShowMemoryReal | ShowClock | ShowDate | ShowDateTime | About

  datatype Context = Terminal | Desktop | CopyModeContext | Picker | MoveResizeContext

  /** A chord bound to an action, or with none, unbound. */
  datatype Directive = Directive(context: Context, chord: string, action: Option<Action>)

  datatype Row = Row(chord: string, usual: string, action: Option<Action>)

  datatype Problem = NoKeysThere(directive: Directive) | DigitsAreFixed(directive: Directive) | NoSuchCommand(directive: Directive)

  function Usually(chord: string, action: Option<Action>): Row { Row(chord, chord, action) }

  const COMMANDS := 39

  /** The table, in the order the help lists it. */
  function Default(i: nat): Row {
    match i
    case 0 => Usually("c", Some(NewTerminal))
    case 1 => Usually("x", Some(CloseTerminal))
    case 2 => Usually("", Some(KillTerminal))
    case 3 => Usually(".", Some(MoveTerminal))
    case 4 => Usually(",", Some(RenameTerminal))
    case 5 => Usually("P", Some(PrintOutput))
    case 6 => Usually("", Some(PrinterSettings))
    case 7 => Usually("n", Some(NextTerminal))
    case 8 => Usually("p", Some(PreviousTerminal))
    case 9 => Usually("1-9", None)
    case 10 => Usually("w", Some(WindowList))
    case 11 => Usually("z", Some(Zoom))
    case 12 => Usually("_", Some(Minimize))
    case 13 => Usually("M", Some(MoveResize))
    case 14 => Usually("h", Some(TileHorizontally))
    case 15 => Usually("v", Some(TileVertically))
    case 16 => Usually("g", Some(TileGrid))
    case 17 => Usually("T", Some(Cascade))
    case 18 => Usually("m", Some(MenuBar))
    case 19 => Usually("[", Some(CopyMode))
    case 20 => Usually("]", Some(Paste))
    case 21 => Usually("", Some(SendPrefix))
    case 22 => Usually("d", Some(Detach))
    case 23 => Usually("s", Some(Sessions))
    case 24 => Usually("S", Some(NewSession))
    case 25 => Usually("R", Some(RenameSession))
    case 26 => Usually("K", Some(KillSession))
    case 27 => Usually("?", Some(KeyReference))
    case 28 => Usually("q", Some(Quit))
    case 29 => Usually("", Some(Settings))
    case 30 => Usually("b", Some(ToggleStatusBar))
    case 31 => Usually("", Some(FitDesktop))
    case 32 => Usually("", Some(ShowCpuUsage))
    case 33 => Usually("", Some(ShowMemoryRss))
    case 34 => Usually("", Some(ShowMemoryReal))
    case 35 => Usually("t", Some(ShowClock))
    case 36 => Usually("", Some(ShowDate))
    case 37 => Usually("", Some(ShowDateTime))
    case _ => Usually("", Some(About))
  }

  const DEFAULTS: seq<Row> := seq(COMMANDS, i requires 0 <= i => Default(i))

  /** 1 to 9 for a chord that is that digit, and 0 for any other. */
  function DigitChord(chord: string): int {
    if |chord| != 1 || chord[0] < '1' || chord[0] > '9' then 0 else chord[0] as int - '0' as int
  }

  // ------------------------------------------------------------- the table

  /** No two rows have the same chord, or the same action. */
  predicate Apart(rows: seq<Row>) {
    forall i, j :: 0 <= i < j < |rows| ==>
      && (rows[i].chord != "" ==> rows[i].chord != rows[j].chord)
      && (rows[i].action.Some? ==> rows[i].action != rows[j].action)
  }

  /** The same commands in the same order, whatever they are reached by. */
  predicate SameCommands(rows: seq<Row>, others: seq<Row>) {
    |rows| == |others| && forall i :: 0 <= i < |rows| ==> rows[i].action == others[i].action
  }

  function Unchorded(rows: seq<Row>, chord: string): (cleared: seq<Row>)
    ensures |cleared| == |rows|
    ensures forall i :: 0 <= i < |rows| ==> cleared[i] == if rows[i].chord == chord then rows[i].(chord := "") else rows[i]
  {
    seq(|rows|, i requires 0 <= i < |rows| => if rows[i].chord == chord then rows[i].(chord := "") else rows[i])
  }

  /** The first row of an action. */
  function RowOf(rows: seq<Row>, action: Action): (row: Option<nat>)
    ensures row.Some? ==> row.value < |rows| && rows[row.value].action == Some(action)
    ensures row.Some? ==> forall i :: 0 <= i < row.value ==> rows[i].action != Some(action)
    ensures row.None? ==> forall i :: 0 <= i < |rows| ==> rows[i].action != Some(action)
  {
    if rows == [] then None
    else
      match RowOf(rows[..|rows| - 1], action)
      case Some(i) => Some(i)
      case None => if rows[|rows| - 1].action == Some(action) then Some(|rows| - 1) else None
  }

  predicate Honoured(directive: Directive) {
    directive.context == Terminal && DigitChord(directive.chord) == 0
  }

  function AfterOne(rows: seq<Row>, directive: Directive): (after: seq<Row>)
    ensures |after| == |rows|
  {
    if !Honoured(directive) then rows
    else
      var cleared := Unchorded(rows, directive.chord);
      if directive.action.None? then cleared
      else
        match RowOf(cleared, directive.action.value)
        case None => cleared
        case Some(i) => cleared[i := cleared[i].(chord := directive.chord)]
  }

  function AfterAll(rows: seq<Row>, directives: seq<Directive>): (after: seq<Row>)
    ensures |after| == |rows|
  {
    if directives == [] then rows
    else AfterOne(AfterAll(rows, directives[..|directives| - 1]), directives[|directives| - 1])
  }

  function ProblemOf(rows: seq<Row>, directive: Directive): seq<Problem> {
    if directive.context != Terminal then [NoKeysThere(directive)]
    else if DigitChord(directive.chord) != 0 then [DigitsAreFixed(directive)]
    else if directive.action.Some? && RowOf(rows, directive.action.value).None? then [NoSuchCommand(directive)]
    else []
  }

  function ProblemsOf(rows: seq<Row>, directives: seq<Directive>): seq<Problem> {
    if directives == [] then []
    else
      var front := directives[..|directives| - 1];
      ProblemsOf(rows, front) + ProblemOf(AfterAll(rows, front), directives[|directives| - 1])
  }

  // ------------------------------------------------------------- what it means

  /** What the keys do: the action that each chord reaches. */
  function Reach(rows: seq<Row>): map<string, Option<Action>> {
    if rows == [] then map[]
    else
      var n := |rows| - 1;
      if rows[n].chord == "" then Reach(rows[..n]) else Reach(rows[..n])[rows[n].chord := rows[n].action]
  }

  lemma {:induction false} ReachIs(rows: seq<Row>)
    requires Apart(rows)
    ensures forall i :: 0 <= i < |rows| && rows[i].chord != "" ==> rows[i].chord in Reach(rows) && Reach(rows)[rows[i].chord] == rows[i].action
    ensures forall c :: c in Reach(rows) ==> c != "" && exists i :: 0 <= i < |rows| && rows[i].chord == c
  {
    if rows != [] {
      var n := |rows| - 1;
      ReachIs(rows[..n]);
      var front := Reach(rows[..n]);
      assert Reach(rows) == if rows[n].chord == "" then front else front[rows[n].chord := rows[n].action];
      hide Reach;
      forall i | 0 <= i < n && rows[i].chord != ""
        ensures rows[i].chord in Reach(rows) && Reach(rows)[rows[i].chord] == rows[i].action
      {
        assert rows[..n][i] == rows[i];
      }
      forall c | c in Reach(rows) ensures c != "" && exists i :: 0 <= i < |rows| && rows[i].chord == c {
        if c in Reach(rows[..n]) {
          var i :| 0 <= i < n && rows[..n][i].chord == c;
          assert rows[i].chord == c;
        } else {
          assert rows[n].chord == c;
        }
      }
    }
  }

  /** No action is reached by two chords: with the map, a partial injection both ways. */
  predicate Injective(keys: map<string, Option<Action>>) {
    forall c, d :: c in keys && d in keys && c != d && keys[c].Some? ==> keys[c] != keys[d]
  }

  lemma ReachIsInjective(rows: seq<Row>)
    requires Apart(rows)
    ensures Injective(Reach(rows))
  {
    ReachIs(rows);
    var keys := Reach(rows);
    forall c, d | c in keys && d in keys && c != d && keys[c].Some? ensures keys[c] != keys[d] {
      var i :| 0 <= i < |rows| && rows[i].chord == c;
      var j :| 0 <= j < |rows| && rows[j].chord == d;
      assert i < j || j < i;
    }
  }

  /** A bind takes away whatever had that chord or that action, and adds the pair. */
  function Bound(keys: map<string, Option<Action>>, chord: string, action: Action): map<string, Option<Action>> {
    var rest := map c | c in keys && c != chord && keys[c] != Some(action) :: keys[c];
    if chord == "" then rest else rest[chord := Some(action)]
  }

  /** What a directive means, in a table that has a row for `commands`. */
  function Meaning(keys: map<string, Option<Action>>, directive: Directive, commands: set<Action>): map<string, Option<Action>> {
    if !Honoured(directive) then keys
    else if directive.action.Some? && directive.action.value in commands
      then Bound(keys, directive.chord, directive.action.value)
    else keys - {directive.chord}
  }

  function MeaningOfAll(keys: map<string, Option<Action>>, directives: seq<Directive>, commands: set<Action>): map<string, Option<Action>> {
    if directives == [] then keys
    else Meaning(MeaningOfAll(keys, directives[..|directives| - 1], commands), directives[|directives| - 1], commands)
  }

  function Commands(rows: seq<Row>): set<Action> {
    set i | 0 <= i < |rows| && rows[i].action.Some? :: rows[i].action.value
  }

  lemma AfterOneKeepsTheTable(rows: seq<Row>, directive: Directive)
    requires Apart(rows)
    ensures Apart(AfterOne(rows, directive)) && SameCommands(AfterOne(rows, directive), rows)
    ensures forall i :: 0 <= i < |rows| ==> AfterOne(rows, directive)[i].usual == rows[i].usual
  {
    hide RowOf;
  }

  lemma CommandsStay(rows: seq<Row>, others: seq<Row>)
    requires SameCommands(rows, others)
    ensures Commands(rows) == Commands(others)
  {
    forall a | a in Commands(rows) ensures a in Commands(others) {
      var i :| 0 <= i < |rows| && rows[i].action == Some(a);
      assert others[i].action == Some(a);
    }
    forall a | a in Commands(others) ensures a in Commands(rows) {
      var i :| 0 <= i < |others| && others[i].action == Some(a);
      assert rows[i].action == Some(a);
    }
  }

  /** What one row of the table says of one chord, before a directive and after. */
  lemma RowsAfterOne(rows: seq<Row>, directive: Directive, i: nat)
    requires Apart(rows) && i < |rows| && Honoured(directive)
    ensures var bound := directive.action.Some? && rows[i].action == directive.action;
      AfterOne(rows, directive)[i].chord ==
        if bound then directive.chord else if rows[i].chord == directive.chord then "" else rows[i].chord
  {
  }

  /** The keys are those of the rows, no more and no fewer. */
  predicate Denotes(rows: seq<Row>, keys: map<string, Option<Action>>) {
    && (forall i :: 0 <= i < |rows| && rows[i].chord != "" ==> rows[i].chord in keys && keys[rows[i].chord] == rows[i].action)
    && (forall c :: c in keys ==> c != "" && exists i :: 0 <= i < |rows| && rows[i].chord == c)
  }

  lemma DenotesOne(rows: seq<Row>, keys: map<string, Option<Action>>, others: map<string, Option<Action>>)
    requires Denotes(rows, keys) && Denotes(rows, others)
    ensures keys == others
  {
    forall c | c in keys ensures c in others && others[c] == keys[c] {
      var i :| 0 <= i < |rows| && rows[i].chord == c;
    }
    forall c | c in others ensures c in keys {
      var i :| 0 <= i < |rows| && rows[i].chord == c;
    }
    assert keys.Keys == others.Keys;
  }

  /** What a directive does to each row, read off the table. */
  predicate Rewritten(rows: seq<Row>, after: seq<Row>, directive: Directive) {
    && SameCommands(after, rows)
    && forall i :: 0 <= i < |rows| ==>
         after[i].chord == (if directive.action.Some? && rows[i].action == directive.action then directive.chord
                            else if rows[i].chord == directive.chord then "" else rows[i].chord)
  }

  lemma RowsAreMeant(rows: seq<Row>, after: seq<Row>, directive: Directive, keys: map<string, Option<Action>>, i: nat)
    requires Honoured(directive) && Denotes(rows, keys) && Rewritten(rows, after, directive) && i < |rows|
    ensures var meant := Meaning(keys, directive, Commands(rows));
      after[i].chord != "" ==> after[i].chord in meant && meant[after[i].chord] == after[i].action
  {
    assert rows[i].action.Some? ==> rows[i].action.value in Commands(rows);
    hide Commands, Honoured;
  }

  lemma MeantAreRows(rows: seq<Row>, after: seq<Row>, directive: Directive, keys: map<string, Option<Action>>, c: string)
    requires Honoured(directive) && Denotes(rows, keys) && Rewritten(rows, after, directive)
    requires c in Meaning(keys, directive, Commands(rows))
    ensures c != "" && exists i :: 0 <= i < |after| && after[i].chord == c
  {
    if c == directive.chord {
      assert directive.action.Some? && directive.action.value in Commands(rows);
      var i :| 0 <= i < |rows| && rows[i].action.Some? && rows[i].action.value == directive.action.value;
      hide Denotes, Commands, Honoured;
      assert after[i].chord == c;
    } else {
      assert c in keys;
      var i :| 0 <= i < |rows| && rows[i].chord == c;
      assert keys[c] == rows[i].action;
      assert rows[i].action.Some? ==> rows[i].action.value in Commands(rows);
      hide Denotes, Commands, Honoured;
      assert after[i].chord == c;
    }
  }

  lemma AfterOneRewrites(rows: seq<Row>, directive: Directive)
    requires Apart(rows) && Honoured(directive)
    ensures Rewritten(rows, AfterOne(rows, directive), directive)
  {
    AfterOneKeepsTheTable(rows, directive);
    forall i | 0 <= i < |rows|
      ensures AfterOne(rows, directive)[i].chord ==
        (if directive.action.Some? && rows[i].action == directive.action then directive.chord
         else if rows[i].chord == directive.chord then "" else rows[i].chord)
    {
      RowsAfterOne(rows, directive, i);
    }
    hide AfterOne, Apart;
  }

  lemma BindDenotes(rows: seq<Row>, directive: Directive, keys: map<string, Option<Action>>)
    requires Apart(rows) && Honoured(directive) && Denotes(rows, keys)
    ensures Denotes(AfterOne(rows, directive), Meaning(keys, directive, Commands(rows)))
  {
    AfterOneRewrites(rows, directive);
    var after := AfterOne(rows, directive);
    hide AfterOne, Meaning, Honoured, Apart, Rewritten, Commands;
    forall i | 0 <= i < |after| && after[i].chord != ""
      ensures var meant := Meaning(keys, directive, Commands(rows)); after[i].chord in meant && meant[after[i].chord] == after[i].action
    {
      RowsAreMeant(rows, after, directive, keys, i);
    }
    forall c | c in Meaning(keys, directive, Commands(rows)) ensures c != "" && exists i :: 0 <= i < |after| && after[i].chord == c {
      MeantAreRows(rows, after, directive, keys, c);
    }
  }

  lemma BindReaches(rows: seq<Row>, directive: Directive)
    requires Apart(rows) && Honoured(directive)
    ensures Reach(AfterOne(rows, directive)) == Meaning(Reach(rows), directive, Commands(rows))
  {
    AfterOneKeepsTheTable(rows, directive);
    ReachIs(rows);
    ReachIs(AfterOne(rows, directive));
    BindDenotes(rows, directive, Reach(rows));
    hide AfterOne, Reach, Meaning, Apart;
    DenotesOne(AfterOne(rows, directive), Reach(AfterOne(rows, directive)), Meaning(Reach(rows), directive, Commands(rows)));
  }

  /**
   For every list of directives the table stays one of the same commands in the same order, no two with one
   chord, and its keys are the ones the directives mean, each in turn.
   */
  lemma {:induction false} DirectivesMean(rows: seq<Row>, directives: seq<Directive>)
    requires Apart(rows)
    ensures var after := AfterAll(rows, directives);
      && Apart(after) && SameCommands(after, rows) && Injective(Reach(after))
      && Reach(after) == MeaningOfAll(Reach(rows), directives, Commands(rows))
  {
    hide AfterOne, Reach, Meaning, Honoured, Apart, Injective;
    if directives != [] {
      var front, last := directives[..|directives| - 1], directives[|directives| - 1];
      DirectivesMean(rows, front);
      var before := AfterAll(rows, front);
      AfterOneKeepsTheTable(before, last);
      CommandsStay(before, rows);
      if Honoured(last) { BindReaches(before, last); } else { RefusedMeansNothing(before, last); }
    }
    ReachIsInjective(AfterAll(rows, directives));
  }

  lemma RefusedMeansNothing(rows: seq<Row>, directive: Directive)
    requires !Honoured(directive)
    ensures AfterOne(rows, directive) == rows
    ensures Meaning(Reach(rows), directive, Commands(rows)) == Reach(rows)
  {
  }

  /** One of the chords that stand for themselves. */
  predicate Digit(chord: string) {
    |chord| == 1 && '1' <= chord[0] <= '9'
  }

  /** A directive that a table with those commands refuses. */
  predicate Refused(directive: Directive, commands: set<Action>) {
    directive.context != Terminal || Digit(directive.chord) || (directive.action.Some? && directive.action.value !in commands)
  }

  /** A directive that is obeyed as far as the table can. */
  predicate Heeded(directive: Directive) {
    directive.context == Terminal && !Digit(directive.chord)
  }

  predicate Binds(directive: Directive, action: Option<Action>) {
    Heeded(directive) && directive.action.Some? && directive.action == action
  }

  /**
   What a directive does to the keys. One of another context or of a digit does nothing. A bind of a command that the table
   has makes the chord reach it, and no other chord, and leaves all else; any other takes the chord away and leaves all else.
   */
  lemma DirectiveMeans(rows: seq<Row>, directive: Directive)
    requires Apart(rows)
    ensures var before, after, chord := Reach(rows), Reach(AfterOne(rows, directive)), directive.chord;
      && (!Heeded(directive) ==> AfterOne(rows, directive) == rows)
      && (Heeded(directive) && directive.action.Some? && directive.action.value in Commands(rows) ==>
            && (chord != "" ==> chord in after && after[chord] == directive.action)
            && (forall c :: c != chord ==> (c in after <==> c in before && before[c] != directive.action)))
      && (Heeded(directive) && (directive.action.None? || directive.action.value !in Commands(rows)) ==>
            chord !in after && forall c :: c != chord ==> (c in after <==> c in before))
      && (forall c :: c in after && c != chord ==> c in before && after[c] == before[c])
  {
    if Heeded(directive) {
      BindReaches(rows, directive);
    }
    hide Reach, AfterOne, Commands, Apart;
  }

  /** Which commands there are never changes. */
  lemma CommandsAfter(rows: seq<Row>, directives: seq<Directive>)
    requires Apart(rows)
    ensures Apart(AfterAll(rows, directives)) && Commands(AfterAll(rows, directives)) == Commands(rows)
  {
    DirectivesMean(rows, directives);
    CommandsStay(AfterAll(rows, directives), rows);
  }

  /** A directive that neither is of a chord nor binds its command leaves it what it reaches. */
  lemma ReachedStays(rows: seq<Row>, directive: Directive, chord: string)
    requires Apart(rows) && chord in Reach(rows)
    requires Heeded(directive) ==> directive.chord != chord && !Binds(directive, Reach(rows)[chord])
    ensures var after := Reach(AfterOne(rows, directive)); chord in after && after[chord] == Reach(rows)[chord]
  {
    DirectiveMeans(rows, directive);
    hide Reach, AfterOne, Commands, Apart;
  }

  lemma UnreachedStays(rows: seq<Row>, directive: Directive, chord: string)
    requires Apart(rows) && chord !in Reach(rows) && (Heeded(directive) ==> directive.chord != chord)
    ensures chord !in Reach(AfterOne(rows, directive))
  {
    DirectiveMeans(rows, directive);
    hide Reach, AfterOne, Commands, Apart;
  }

  lemma BoundReaches(rows: seq<Row>, directive: Directive)
    requires Apart(rows) && directive.chord != "" && Binds(directive, directive.action) && directive.action.value in Commands(rows)
    ensures var after := Reach(AfterOne(rows, directive)); directive.chord in after && after[directive.chord] == directive.action
  {
    DirectiveMeans(rows, directive);
    hide Reach, AfterOne, Commands, Apart;
  }

  lemma UnboundReachesNothing(rows: seq<Row>, directive: Directive)
    requires Apart(rows) && Heeded(directive) && directive.action.None?
    ensures directive.chord !in Reach(AfterOne(rows, directive))
  {
    DirectiveMeans(rows, directive);
    hide Reach, AfterOne, Commands, Apart;
  }

  /** The last to bind a chord or its command has it, whatever came before and whatever else comes after. */
  lemma {:induction false} LastBindWins(rows: seq<Row>, directives: seq<Directive>, i: nat)
    requires Apart(rows) && i < |directives| && directives[i].chord != ""
    requires Binds(directives[i], directives[i].action) && directives[i].action.value in Commands(rows)
    requires forall j :: i < j < |directives| && Heeded(directives[j]) ==>
      directives[j].chord != directives[i].chord && !Binds(directives[j], directives[i].action)
    ensures var after := Reach(AfterAll(rows, directives));
      directives[i].chord in after && after[directives[i].chord] == directives[i].action
    decreases |directives|
  {
    var n := |directives| - 1;
    var front := directives[..n];
    CommandsAfter(rows, front);
    assert directives[i].action.Some?;
    hide Apart, AfterOne, Reach, Commands, Heeded, Binds;
    if i < n {
      LastBindWins(rows, front, i);
      ReachedStays(AfterAll(rows, front), directives[n], directives[i].chord);
    } else {
      BoundReaches(AfterAll(rows, front), directives[n]);
    }
  }

  /** A chord that no directive touches, and whose command none binds elsewhere, reaches what it did. */
  lemma {:induction false} UntouchedStays(rows: seq<Row>, directives: seq<Directive>, chord: string)
    requires Apart(rows) && chord in Reach(rows)
    requires forall j :: 0 <= j < |directives| && Heeded(directives[j]) ==>
      directives[j].chord != chord && !Binds(directives[j], Reach(rows)[chord])
    ensures var after := Reach(AfterAll(rows, directives)); chord in after && after[chord] == Reach(rows)[chord]
    decreases |directives|
  {
    if directives != [] {
      var n := |directives| - 1;
      CommandsAfter(rows, directives[..n]);
      hide Apart, AfterOne, Reach, Commands, Heeded, Binds;
      UntouchedStays(rows, directives[..n], chord);
      ReachedStays(AfterAll(rows, directives[..n]), directives[n], chord);
    }
  }

  /** And a chord taken away reaches nothing until it is bound again. */
  lemma {:induction false} UnboundStays(rows: seq<Row>, directives: seq<Directive>, i: nat)
    requires Apart(rows) && i < |directives| && Heeded(directives[i]) && directives[i].action.None?
    requires forall j :: i < j < |directives| && Heeded(directives[j]) ==> directives[j].chord != directives[i].chord
    ensures directives[i].chord !in Reach(AfterAll(rows, directives))
    decreases |directives|
  {
    var n := |directives| - 1;
    CommandsAfter(rows, directives[..n]);
    hide Apart, AfterOne, Reach, Commands, Heeded;
    if i < n {
      UnboundStays(rows, directives[..n], i);
      UnreachedStays(AfterAll(rows, directives[..n]), directives[n], directives[i].chord);
    } else {
      UnboundReachesNothing(AfterAll(rows, directives[..n]), directives[n]);
    }
  }

  // ------------------------------------------------------------- what is said of it

  /** Where the directives stand that are refused, in order. */
  predicate Refusals(directives: seq<Directive>, commands: set<Action>, at: seq<nat>) {
    && (forall j, k :: 0 <= j < k < |at| ==> at[j] < at[k])
    && (forall j :: 0 <= j < |at| ==> at[j] < |directives|)
    && (forall i :: 0 <= i < |directives| ==> (i in at <==> Refused(directives[i], commands)))
  }

  /** The right thing said of a refused directive. */
  predicate SaidOf(problem: Problem, directive: Directive) {
    && problem.directive == directive
    && (problem.NoKeysThere? <==> directive.context != Terminal)
    && (problem.DigitsAreFixed? <==> directive.context == Terminal && Digit(directive.chord))
  }

  lemma OneProblem(rows: seq<Row>, directive: Directive)
    ensures var said := ProblemOf(rows, directive);
      |said| == (if Refused(directive, Commands(rows)) then 1 else 0) && (said != [] ==> SaidOf(said[0], directive))
  {
    if directive.action.Some? {
      RowOfCommand(rows, directive.action.value);
      hide RowOf, Commands;
    }
  }

  lemma RowOfCommand(rows: seq<Row>, action: Action)
    ensures RowOf(rows, action).Some? <==> action in Commands(rows)
  {
    var row := RowOf(rows, action);
    hide RowOf;
    if row.Some? { assert rows[row.value].action == Some(action); }
    if action in Commands(rows) {
      var i :| 0 <= i < |rows| && rows[i].action.Some? && rows[i].action.value == action;
    }
  }

  /** Each refused directive is named once, in the order they came, and with why; and nothing is said of any other. */
  lemma {:induction false} RefusedAreNamed(rows: seq<Row>, directives: seq<Directive>, at: seq<nat>)
    requires Apart(rows) && Refusals(directives, Commands(rows), at)
    ensures var said := ProblemsOf(rows, directives);
      |said| == |at| && forall j :: 0 <= j < |at| ==> at[j] < |directives| && SaidOf(said[j], directives[at[j]])
    decreases |directives|
  {
    if directives == [] {
      NoneBelow(at, |directives|);
    } else {
      var n := |directives| - 1;
      var front := if Refused(directives[n], Commands(rows)) then at[..|at| - 1] else at;
      RefusalsFront(directives, Commands(rows), at, front);
      CommandsAfter(rows, directives[..n]);
      OneProblem(AfterAll(rows, directives[..n]), directives[n]);
      hide Refused, SaidOf, ProblemOf, Commands, Apart, AfterAll, Refusals;
      RefusedAreNamed(rows, directives[..n], front);
      SaidInOrder(ProblemsOf(rows, directives[..n]), ProblemOf(AfterAll(rows, directives[..n]), directives[n]), directives, at, front);
    }
  }

  lemma SaidInOrder(said: seq<Problem>, more: seq<Problem>, directives: seq<Directive>, at: seq<nat>, front: seq<nat>)
    requires directives != [] && |said| == |front| && |more| <= 1
    requires forall j :: 0 <= j < |front| ==> front[j] < |directives| - 1 && SaidOf(said[j], directives[..|directives| - 1][front[j]])
    requires more == [] ==> at == front
    requires more != [] ==> at == front + [|directives| - 1] && SaidOf(more[0], directives[|directives| - 1])
    ensures |said + more| == |at|
    ensures forall j :: 0 <= j < |at| ==> at[j] < |directives| && SaidOf((said + more)[j], directives[at[j]])
  {
    hide SaidOf;
  }

  lemma NoneBelow(at: seq<nat>, n: nat)
    requires forall j :: 0 <= j < |at| ==> at[j] < n
    ensures |at| > 0 ==> n > 0
  {
    if |at| > 0 { assert at[0] < n; }
  }

  lemma RefusalsFront(directives: seq<Directive>, commands: set<Action>, at: seq<nat>, front: seq<nat>)
    requires directives != [] && Refusals(directives, commands, at)
    requires front == if Refused(directives[|directives| - 1], commands) then at[..|at| - 1] else at
    ensures Refusals(directives[..|directives| - 1], commands, front)
    ensures Refused(directives[|directives| - 1], commands) ==> at == front + [|directives| - 1]
  {
    hide Refused;
    var n := |directives| - 1;
    if n in at {
      var j :| 0 <= j < |at| && at[j] == n;
      LastOne(at, j);
      FrontOnly(at, n);
    }
  }

  lemma LastOne(at: seq<nat>, j: nat)
    requires j < |at| && forall j, k :: 0 <= j < k < |at| ==> at[j] < at[k]
    ensures j < |at| - 1 ==> at[j] < at[|at| - 1]
  {
  }

  /** In front of the last of increasing numbers are the smaller ones. */
  lemma FrontOnly(at: seq<nat>, n: nat)
    requires at != [] && at[|at| - 1] == n && forall j, k :: 0 <= j < k < |at| ==> at[j] < at[k]
    ensures forall i: nat :: i in at[..|at| - 1] <==> i in at && i < n
  {
    var front := at[..|at| - 1];
    forall i: nat | i in at && i < n ensures i in front {
      var k :| 0 <= k < |at| && at[k] == i;
      assert front[k] == i;
    }
    forall i: nat | i in front ensures i in at && i < n {
      var k :| 0 <= k < |front| && front[k] == i;
      assert at[k] == i;
    }
  }

  /** The row of each action, and of each chord, in the table the source starts from. */
  function ActionNumber(action: Action): nat {
    match action
    case NewTerminal => 0
    case CloseTerminal => 1
    case KillTerminal => 2
    case MoveTerminal => 3
    case RenameTerminal => 4
    case PrintOutput => 5
    case PrinterSettings => 6
    case NextTerminal => 7
    case PreviousTerminal => 8
    case WindowList => 10
    case Zoom => 11
    case Minimize => 12
    case MoveResize => 13
    case TileHorizontally => 14
    case TileVertically => 15
    case TileGrid => 16
    case Cascade => 17
    case MenuBar => 18
    case CopyMode => 19
    case Paste => 20
    case SendPrefix => 21
    case Detach => 22
    case Sessions => 23
    case NewSession => 24
    case RenameSession => 25
    case KillSession => 26
    case KeyReference => 27
    case Quit => 28
    case Settings => 29
    case ToggleStatusBar => 30
    case FitDesktop => 31
    case ShowCpuUsage => 32
    case ShowMemoryRss => 33
    case ShowMemoryReal => 34
    case ShowClock => 35
    case ShowDate => 36
    case ShowDateTime => 37
    case About => 38
  }

  function ChordNumber(chord: string): nat {
    if |chord| == 1 then LetterNumber(chord[0]) else 9
  }

  function LetterNumber(letter: char): nat {
    match letter
    case 'c' => 0
    case 'x' => 1
    case '.' => 3
    case ',' => 4
    case 'P' => 5
    case 'n' => 7
    case 'p' => 8
    case 'w' => 10
    case 'z' => 11
    case '_' => 12
    case 'M' => 13
    case 'h' => 14
    case 'v' => 15
    case 'g' => 16
    case 'T' => 17
    case 'm' => 18
    case '[' => 19
    case ']' => 20
    case 'd' => 22
    case 's' => 23
    case 'S' => 24
    case 'R' => 25
    case 'K' => 26
    case '?' => 27
    case 'q' => 28
    case 'b' => 30
    case 't' => 35
    case _ => COMMANDS
  }

  predicate Numbered(i: nat) {
    && (Default(i).action.Some? ==> ActionNumber(Default(i).action.value) == i)
    && (Default(i).chord != "" ==> ChordNumber(Default(i).chord) == i)
  }

  lemma DefaultsAreNumbered(i: nat)
    requires i < COMMANDS
    ensures Numbered(i)
  {
    hide Numbered;
    if i < 10 { NumberedTo10(i); }
    else if i < 17 { NumberedTo17(i); }
    else if i < 22 { NumberedTo22(i); }
    else if i < 27 { NumberedTo27(i); }
    else if i < 31 { NumberedTo31(i); }
    else if i < 35 { NumberedTo35(i); }
    else { NumberedTo39(i); }
  }

  lemma NumberedTo10(i: nat)
    requires 0 <= i < 10
    ensures Numbered(i)
  {
  }

  lemma NumberedTo17(i: nat)
    requires 10 <= i < 17
    ensures Numbered(i)
  {
  }

  lemma NumberedTo22(i: nat)
    requires 17 <= i < 22
    ensures Numbered(i)
  {
  }

  lemma NumberedTo27(i: nat)
    requires 22 <= i < 27
    ensures Numbered(i)
  {
  }

  lemma NumberedTo31(i: nat)
    requires 27 <= i < 31
    ensures Numbered(i)
  {
  }

  lemma NumberedTo35(i: nat)
    requires 31 <= i < 35
    ensures Numbered(i)
  {
  }

  lemma NumberedTo39(i: nat)
    requires 35 <= i < 39
    ensures Numbered(i)
  {
  }

  /** The table the source starts from is one of commands and chords all apart. */
  lemma DefaultsAreApart()
    ensures Apart(DEFAULTS) && |DEFAULTS| == COMMANDS
  {
    hide Default, ChordNumber, ActionNumber;
    forall i | 0 <= i < COMMANDS
      ensures Default(i).chord != "" ==> ChordNumber(Default(i).chord) == i
      ensures Default(i).action.Some? ==> ActionNumber(Default(i).action.value) == i
    {
      DefaultsAreNumbered(i);
    }
    assert forall i :: 0 <= i < COMMANDS ==> DEFAULTS[i] == Default(i);
  }

  /** The default key appendix of the documentation: the letters behind the prefix, and what they are for. */
  function Documented(letter: char): Option<Action> {
    match letter
    case 'c' => Some(NewTerminal)
    case 'x' => Some(CloseTerminal)
    case '.' => Some(MoveTerminal)
    case ',' => Some(RenameTerminal)
    case 'P' => Some(PrintOutput)
    case 'n' => Some(NextTerminal)
    case 'p' => Some(PreviousTerminal)
    case 'w' => Some(WindowList)
    case 'z' => Some(Zoom)
    case '_' => Some(Minimize)
    case 'M' => Some(MoveResize)
    case 'h' => Some(TileHorizontally)
    case 'v' => Some(TileVertically)
    case 'g' => Some(TileGrid)
    case 'T' => Some(Cascade)
    case 'm' => Some(MenuBar)
    case '[' => Some(CopyMode)
    case ']' => Some(Paste)
    case 'd' => Some(Detach)
    case 's' => Some(Sessions)
    case 'S' => Some(NewSession)
    case 'R' => Some(RenameSession)
    case 'K' => Some(KillSession)
    case '?' => Some(KeyReference)
    case 'q' => Some(Quit)
    case 'b' => Some(ToggleStatusBar)
    case 't' => Some(ShowClock)
    case _ => None
  }

  /** A row is one that the documentation lists: of a letter, of the digits, or of the menus only. */
  predicate Listed(row: Row) {
    && row.usual == row.chord
    && (row.chord == "" || (row.chord == "1-9" && row.action == None)
        || (|row.chord| == 1 && row.action.Some? && Documented(row.chord[0]) == row.action))
  }

  lemma DefaultsAreListed(i: nat)
    requires i < COMMANDS
    ensures Listed(Default(i))
  {
    hide Listed;
    if i < 10 { ListedTo10(i); }
    else if i < 17 { ListedTo17(i); }
    else if i < 24 { ListedTo24(i); }
    else if i < 31 { ListedTo31(i); }
    else { ListedTo39(i); }
  }

  lemma ListedTo10(i: nat)
    requires i < 10
    ensures Listed(Default(i))
  {
  }

  lemma ListedTo17(i: nat)
    requires 10 <= i < 17
    ensures Listed(Default(i))
  {
  }

  lemma ListedTo24(i: nat)
    requires 17 <= i < 24
    ensures Listed(Default(i))
  {
  }

  lemma ListedTo31(i: nat)
    requires 24 <= i < 31
    ensures Listed(Default(i))
  {
  }

  lemma ListedTo39(i: nat)
    requires 31 <= i < 39
    ensures Listed(Default(i))
  {
  }

  /** Every letter that is listed is in the table. */
  lemma ListedAreDefaults(letter: char)
    requires Documented(letter).Some?
    ensures LetterNumber(letter) < COMMANDS && Default(LetterNumber(letter)).chord == [letter]
  {
  }

  /** The keys a program starts with are those of the documentation: each letter reaches its command, and no other chord any. */
  lemma DefaultKeysAreDocumented(chord: string)
    ensures var keys := Reach(DEFAULTS);
      && (|chord| == 1 && Documented(chord[0]).Some? ==> chord in keys && keys[chord] == Documented(chord[0]))
      && (chord in keys && chord != "1-9" ==>
            |chord| == 1 && Documented(chord[0]).Some? && keys[chord] == Documented(chord[0]))
      && ("1-9" in keys ==> keys["1-9"] == None)
  {
    DefaultsAreApart();
    ReachIs(DEFAULTS);
    assert |DEFAULTS| == COMMANDS && forall i :: 0 <= i < COMMANDS ==> DEFAULTS[i] == Default(i);
    hide Reach, Apart, Default, LetterNumber, Documented, DEFAULTS;
    if |chord| == 1 && Documented(chord[0]).Some? {
      ListedAreDefaults(chord[0]);
      assert [chord[0]] == chord;
      DefaultsAreListed(LetterNumber(chord[0]));
      assert DEFAULTS[LetterNumber(chord[0])].chord == chord;
    }
    if chord in Reach(DEFAULTS) {
      var i :| 0 <= i < |DEFAULTS| && DEFAULTS[i].chord == chord;
      DefaultsAreListed(i);
    }
    if "1-9" in Reach(DEFAULTS) {
      var i :| 0 <= i < |DEFAULTS| && DEFAULTS[i].chord == "1-9";
      DefaultsAreListed(i);
    }
  }

  // ------------------------------------------------------------- the keymap

  class KeymapTable {
    var rows: seq<Row>

    constructor ()
      ensures rows == DEFAULTS && Apart(rows)
    {
      DefaultsAreApart();
      rows := DEFAULTS;
    }

    /** The rows with a chord lose it. */
    method ClearChord(chord: string)
      modifies this
      ensures rows == Unchorded(old(rows), chord)
    {
      ghost var was := rows;
      for i := 0 to |rows|
        invariant |rows| == |was|
        invariant forall j :: 0 <= j < i ==> rows[j] == Unchorded(was, chord)[j]
        invariant forall j :: i <= j < |was| ==> rows[j] == was[j]
      {
        if rows[i].chord == chord { rows := rows[i := rows[i].(chord := "")]; }
      }
    }

    method RowFor(action: Action) returns (row: Option<nat>)
      ensures row == RowOf(rows, action)
    {
      hide RowOf;
      for i := 0 to |rows|
        invariant forall j :: 0 <= j < i ==> rows[j].action != Some(action)
      {
        if rows[i].action == Some(action) {
          RowOfIs(rows, action, i);
          return Some(i);
        }
      }
      NoRowOf(rows, action);
      return None;
    }

    /** The directives in file order; what cannot be honoured is said. */
    method Apply(directives: seq<Directive>) returns (problems: seq<Problem>)
      requires Apart(rows)
      modifies this
      ensures rows == AfterAll(old(rows), directives) && problems == ProblemsOf(old(rows), directives)
      ensures Apart(rows) && SameCommands(rows, old(rows))
      ensures Reach(rows) == MeaningOfAll(Reach(old(rows)), directives, Commands(old(rows))) && Injective(Reach(rows))
    {
      ghost var was := rows;
      problems := [];
      DirectivesMean(rows, directives);
      hide AfterOne, Reach, Apart, Injective, MeaningOfAll, RowOf;
      for i := 0 to |directives|
        invariant rows == AfterAll(was, directives[..i]) && problems == ProblemsOf(was, directives[..i])
      {
        var directive := directives[i];
        assert directives[..i + 1][..i] == directives[..i];
        var more := ApplyOne(directive);
        problems := problems + more;
      }
      assert directives[..|directives|] == directives;
    }

    method ApplyOne(directive: Directive) returns (problems: seq<Problem>)
      modifies this
      ensures rows == AfterOne(old(rows), directive) && problems == ProblemOf(old(rows), directive)
    {
      if directive.context != Terminal { return [NoKeysThere(directive)]; }
      if DigitChord(directive.chord) != 0 { return [DigitsAreFixed(directive)]; }
      ghost var was := rows;
      ClearChord(directive.chord);
      if directive.action.None? { return []; }
      SameRowOf(was, rows, directive.action.value);
      var row := RowFor(directive.action.value);
      if row.None? { return [NoSuchCommand(directive)]; }
      rows := rows[row.value := rows[row.value].(chord := directive.chord)];
      return [];
    }

    /** A chord that is only known when the program starts; it becomes the row's usual one. */
    method SetDefaultChord(action: Action, chord: string)
      requires Apart(rows)
      modifies this
      ensures Apart(rows) && SameCommands(rows, old(rows))
      ensures chord == "" || RowOf(old(rows), action).None? ==> rows == old(rows)
      ensures chord != "" && RowOf(old(rows), action).Some? ==>
        && rows[RowOf(old(rows), action).value] == Row(chord, chord, Some(action))
        && forall i :: 0 <= i < |rows| && i != RowOf(old(rows), action).value ==> rows[i] == Unchorded(old(rows), chord)[i]
    {
      var row := RowFor(action);
      if row.None? || chord == "" { return; }
      hide RowOf;
      ClearChord(chord);
      rows := rows[row.value := Row(chord, chord, rows[row.value].action)];
    }

    /** The row a chord reaches, the only one; the digits are none of this table's. */
    method Find(chord: string) returns (row: Option<nat>)
      requires Apart(rows)
      ensures row.Some? <==> chord in Reach(rows) && DigitChord(chord) == 0
      ensures row.Some? ==> row.value < |rows| && rows[row.value].chord == chord && Reach(rows)[chord] == rows[row.value].action
      ensures row.Some? ==> forall i :: 0 <= i < |rows| && rows[i].chord == chord ==> i == row.value
    {
      ReachIs(rows);
      if chord == "" || DigitChord(chord) != 0 { return None; }
      for i := 0 to |rows|
        invariant forall j :: 0 <= j < i ==> rows[j].chord != chord
      {
        if rows[i].chord == chord { return Some(i); }
      }
      return None;
    }
  }

  lemma RowOfIs(rows: seq<Row>, action: Action, i: nat)
    requires i < |rows| && rows[i].action == Some(action) && forall j :: 0 <= j < i ==> rows[j].action != Some(action)
    ensures RowOf(rows, action) == Some(i)
  {
    hide RowOf;
    var row := RowOf(rows, action);
    assert row.Some? ==> !(i < row.value) && !(row.value < i);
  }

  lemma NoRowOf(rows: seq<Row>, action: Action)
    requires forall j :: 0 <= j < |rows| ==> rows[j].action != Some(action)
    ensures RowOf(rows, action) == None
  {
    hide RowOf;
  }

  lemma {:induction false} SameRowOf(rows: seq<Row>, others: seq<Row>, action: Action)
    requires SameCommands(others, rows)
    ensures RowOf(others, action) == RowOf(rows, action)
  {
    hide RowOf;
  }
}
