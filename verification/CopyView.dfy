/** The copy-mode view (src/client/copy_mode.cpp): a cursor in a frozen history, driven by keys. */
module CopyView {
  import opened Wrappers
  import opened CopySearch
  import opened CopyMode
  import CopyLaps

  datatype Key =
    | Released | Escape | Enter | Backspace | Up | Down | Left | Right | PageUp | PageDown | Home | End
    | Char(text: string, ctrl: bool)
    | AnyOther

  /** What a key asks for while no search is being typed. */
  datatype Command =
    | Leave
    | Yank
    | Move(rows: int, columns: int)
    | Page(down: bool)
    | LineStart
    | LineEnd
    | Oldest
    | Newest
    | Select(mode: SelectionMode)
    | Prompt(forwards: bool)
    | Again(sameWay: bool)
    | Nought

  /** The keys of the arrows' row, and the vi keys that do the same things. */
  function CommandOf(key: Key): Command {
    match key
    case Escape => Leave
    case Enter => Yank
    case Up => Move(-1, 0)
    case Down => Move(1, 0)
    case Left => Move(0, -1)
    case Right => Move(0, 1)
    case PageUp => Page(false)
    case PageDown => Page(true)
    case Home => LineStart
    case End => LineEnd
    case Char(text, ctrl) => if ctrl then ControlCommand(text) else LetterCommand(text)
    case _ => Nought
  }

  function ControlCommand(text: string): Command {
    if text == "v" then Select(Rectangular)
    else if text == "b" then Page(false)
    else if text == "f" then Page(true)
    else Nought
  }

  function LetterCommand(text: string): Command {
    if text == "h" then Move(0, -1)
    else if text == "l" then Move(0, 1)
    else if text == "k" then Move(-1, 0)
    else if text == "j" then Move(1, 0)
    else if text == "0" then LineStart
    else if text == "$" then LineEnd
    else if text == "g" then Oldest
    else if text == "G" then Newest
    else if text == "v" then Select(Character)
    else if text == "V" then Select(Line)
    else if text == "y" then Yank
    else if text == "q" then Leave
    else if text == "/" then Prompt(true)
    else if text == "?" then Prompt(false)
    else if text == "n" then Again(true)
    else if text == "N" then Again(false)
    else Nought
  }

  /** A place a cursor may stand: on a character, or at the start of an empty line. */
  predicate Standing(lines: Document, p: Point) {
    0 <= p.y < |lines| && 0 <= p.x <= Max(0, |lines[p.y]| - 1)
  }

  function Moved(lines: Document, p: Point, rows: int, columns: int): Point
    requires lines != []
  {
    var y := Clamp(p.y + rows, 0, |lines| - 1);
    Point(Clamp(p.x + columns, 0, Max(0, |lines[y]| - 1)), y)
  }

  /** Where a command that does not search leaves the cursor. */
  function Destination(command: Command, lines: Document, p: Point, visible: int): Point
    requires Standing(lines, p)
  {
    match command
    case Move(rows, columns) => Moved(lines, p, rows, columns)
    case Page(down) => Moved(lines, p, if down then visible else -visible, 0)
    case LineStart => Point(0, p.y)
    case LineEnd => Point(Max(0, |lines[p.y]| - 1), p.y)
    case Oldest => Point(0, 0)
    case Newest => Point(0, |lines| - 1)
    case _ => p
  }

  /** The key leaves the cursor there. */
  predicate Leads(key: Key, lines: Document, p: Point, visible: int, x: int, y: int)
    requires Standing(lines, p)
  {
    Destination(CommandOf(key), lines, p, visible) == Point(x, y)
  }

  /** The column nearest to `x` on which a cursor may stand in a line. */
  function Nearest(x: int, line: CopyLine): int {
    if x <= 0 || |line| <= 1 then 0 else if x >= |line| then |line| - 1 else x
  }

  /** The keys that change the line lead to the nearest place in it where a cursor may stand. */
  lemma BetweenLines(lines: Document, p: Point, visible: nat)
    requires Standing(lines, p)
    ensures var up := if p.y >= 1 then p.y - 1 else 0; Leads(Up, lines, p, visible, Nearest(p.x, lines[up]), up)
    ensures var down := if p.y + 1 < |lines| then p.y + 1 else |lines| - 1;
      Leads(Down, lines, p, visible, Nearest(p.x, lines[down]), down)
    ensures var above := if p.y >= visible then p.y - visible else 0;
      Leads(PageUp, lines, p, visible, Nearest(p.x, lines[above]), above)
    ensures var below := if p.y + visible < |lines| then p.y + visible else |lines| - 1;
      Leads(PageDown, lines, p, visible, Nearest(p.x, lines[below]), below)
  {
  }

  /** And so do those that stay in the line. */
  lemma WithinTheLine(lines: Document, p: Point, visible: nat)
    requires Standing(lines, p)
    ensures Leads(Left, lines, p, visible, Nearest(p.x - 1, lines[p.y]), p.y)
    ensures Leads(Right, lines, p, visible, Nearest(p.x + 1, lines[p.y]), p.y)
    ensures Leads(Home, lines, p, visible, 0, p.y)
    ensures Leads(End, lines, p, visible, Nearest(|lines[p.y]|, lines[p.y]), p.y)
  {
  }

  /** The first and the last line of the history. */
  lemma WhereTheEndsAre(lines: Document, p: Point, visible: nat)
    requires Standing(lines, p)
    ensures Leads(Char("g", false), lines, p, visible, 0, 0) && Leads(Char("G", false), lines, p, visible, 0, |lines| - 1)
  {
    LetterAsks('g');
    LetterAsks('G');
    hide LetterCommand;
  }

  /** The letters that do what an arrow, Home, End, Enter or Escape does, and those with a meaning of their own. */
  lemma LetterAsks(c: char)
    ensures LetterCommand([c]) == match c
      case 'h' => CommandOf(Left)
      case 'j' => CommandOf(Down)
      case 'k' => CommandOf(Up)
      case 'l' => CommandOf(Right)
      case '0' => CommandOf(Home)
      case '$' => CommandOf(End)
      case 'y' => CommandOf(Enter)
      case 'q' => CommandOf(Escape)
      case 'g' => Oldest
      case 'G' => Newest
      case 'v' => Select(Character)
      case 'V' => Select(Line)
      case '/' => Prompt(true)
      case '?' => Prompt(false)
      case 'n' => Again(true)
      case 'N' => Again(false)
      case _ => Nought
  {
  }

  /** The same for a letter typed with Ctrl. */
  lemma ControlAsks(c: char)
    ensures ControlCommand([c]) == match c
      case 'b' => CommandOf(PageUp)
      case 'f' => CommandOf(PageDown)
      case 'v' => Select(Rectangular)
      case _ => Nought
  {
  }

  /** Nothing else asks for anything: not a text of more than one byte, and no other key. */
  lemma OthersAskNothing(key: Key)
    requires key.Released? || key.Backspace? || key.AnyOther? || (key.Char? && |key.text| != 1)
    ensures CommandOf(key) == Nought
  {
  }

  /** What a key that is the prompt's leaves in it; nothing closes it. */
  function Typed(prompt: string, key: Key): Option<string> {
    match key
    case Escape => None
    case Enter => None
    case Backspace => Some(if prompt == "" then "" else prompt[..|prompt| - 1])
    case Char(text, ctrl) => Some(if ctrl then prompt else prompt + text)
    case _ => Some(prompt)
  }

  lemma StandingIsAStart(lines: Document, p: Point)
    requires lines != [] && Standing(lines, p)
    ensures Start(lines, p) == p
  {
  }

  lemma MatchesStand(lines: Document, query: string, p: Point)
    requires IsMatch(lines, query, p)
    ensures Standing(lines, p)
  {
    MatchLiesInLine(lines[p.y], query, p.x);
  }

  lemma NothingIsNothing(lines: Document, anchor: Point, cursor: Point)
    ensures CopiedText(lines, Nothing, anchor, cursor) == ""
  {
  }

  predicate Goes(command: Command) {
    command.Move? || command.Page? || command.LineStart? || command.LineEnd? || command.Oldest? || command.Newest?
  }

  lemma StaysUnlessGoing(command: Command, lines: Document, p: Point, visible: int)
    requires Standing(lines, p)
    ensures !Goes(command) ==> Destination(command, lines, p, visible) == p
  {
  }

  class CopyModeView {
    const lines: Document
    var cursor: Point
    var anchor: Point
    var mode: SelectionMode
    var top: int
    var height: int
    var searchPrompt: Option<string>
    var searchForwards: bool
    var query: string
    var notice: string
    var finished: bool
    /** What has been handed to the clipboard, and how often copy mode has been left. */
    ghost var copied: seq<string>
    ghost var exits: nat

    function VisibleRows(): int
      reads `height
    {
      Max(1, height - 1)
    }

    /** The cursor and the anchor stand in the history, the cursor is on screen, and nothing is copied or left twice. */
    ghost predicate Valid()
      reads this
    {
      && lines != [] && Standing(lines, cursor) && Standing(lines, anchor)
      && 0 <= top <= cursor.y < top + VisibleRows()
      && exits == (if finished then 1 else 0) && |copied| <= exits
    }

    /** What a reader sees marked; with nothing marked, the line the cursor is on. */
    function Highlighted(): string
      reads `mode, `anchor, `cursor
    {
      if mode == Nothing then MarkedText(lines, Line, cursor, cursor) else MarkedText(lines, mode, anchor, cursor)
    }

    constructor (history: Document, cursorRow: int)
      ensures Valid() && mode == Nothing && searchPrompt == None && query == "" && !finished && copied == []
      ensures lines == if history == [] then [[]] else history
      ensures cursor == Point(0, Clamp(cursorRow, 0, |lines| - 1)) == anchor
    {
      lines := if history == [] then [[]] else history;
      var row := Clamp(cursorRow, 0, |if history == [] then [[]] else history| - 1);
      cursor := Point(0, row);
      anchor := Point(0, row);
      mode, top, height := Nothing, row, 0;
      searchPrompt, searchForwards, query, notice, finished := None, true, "", "", false;
      copied, exits := [], 0;
    }

    /** The least scrolling that brings the cursor on screen. */
    method ScrollIntoView()
      requires lines != [] && Standing(lines, cursor)
      modifies `top
      ensures 0 <= top <= cursor.y < top + VisibleRows()
      ensures 0 <= old(top) <= cursor.y < old(top) + VisibleRows() ==> top == old(top)
    {
      var rows := VisibleRows();
      top := Clamp(top, 0, Max(0, |lines| - 1));
      if cursor.y < top { top := cursor.y; }
      if cursor.y >= top + rows { top := cursor.y - rows + 1; }
      top := Max(0, top);
    }

    method Resized(newHeight: int)
      requires Valid()
      modifies `height, `top
      ensures Valid() && height == newHeight
    {
      height := newHeight;
      ScrollIntoView();
    }

    method MoveCursor(rows: int, columns: int)
      requires Valid()
      modifies `cursor, `top
      ensures Valid() && cursor == Moved(lines, old(cursor), rows, columns)
    {
      var y := Clamp(cursor.y + rows, 0, |lines| - 1);
      cursor := Point(cursor.x, y);
      var width := |lines[cursor.y]|;
      cursor := Point(Clamp(cursor.x + columns, 0, Max(0, width - 1)), cursor.y);
      ScrollIntoView();
    }

    method MoveTo(p: Point)
      requires Valid() && Standing(lines, p)
      modifies `cursor, `top
      ensures Valid() && cursor == p
    {
      cursor := p;
      ScrollIntoView();
    }

    /** The same key again takes a selection back. */
    method BeginSelection(wanted: SelectionMode)
      requires Valid()
      modifies `mode, `anchor
      ensures Valid() && mode == if old(mode) == wanted then Nothing else wanted
      ensures anchor == if old(mode) == wanted then old(anchor) else cursor
    {
      if mode == wanted {
        mode := Nothing;
      } else {
        mode := wanted;
        anchor := cursor;
      }
    }

    /** A search has gone to the next match or the previous one; or there is none, and nothing has moved. */
    ghost predicate Searched(forwards: bool, start: Point, startTop: int)
      reads `query, `cursor, `top
    {
      || (query != "" && if forwards then IsNext(lines, query, start, cursor) else IsPrevious(lines, query, start, cursor))
      || ((query == "" || forall m :: !IsMatch(lines, query, m)) && cursor == start && top == startTop)
    }

    /** From the cursor to the next match or the previous one; a search that fails moves nothing. */
    method Search(forwards: bool) returns (found: bool)
      requires Valid()
      modifies `cursor, `top, `notice
      ensures Valid()
      ensures !found ==> cursor == old(cursor) && top == old(top) && (query == "" || forall m :: !IsMatch(lines, query, m))
      ensures found && forwards ==> IsNext(lines, query, old(cursor), cursor)
      ensures found && !forwards ==> IsPrevious(lines, query, old(cursor), cursor)
      ensures found ==> query != ""
      ensures Searched(forwards, old(cursor), old(top))
    {
      StandingIsAStart(lines, cursor);
      hide IsMatch;
      notice := "";
      var hit := FindMatch(lines, query, cursor, forwards);
      if hit.None? {
        notice := "not found";
        return false;
      }
      MatchesStand(lines, query, hit.value);
      MoveTo(hit.value);
      return true;
    }

    /** A search the other way from a match goes back to where the last one came from. */
    method SearchThereAndBack(forwards: bool) returns (found: bool)
      requires Valid() && IsMatch(lines, query, cursor) && query != ""
      modifies `cursor, `top, `notice
      ensures Valid() && found && cursor == old(cursor)
    {
      ghost var start := cursor;
      found := Search(forwards);
      ghost var there := cursor;
      found := Search(!forwards);
      CopyLaps.PreviousUndoesNext(lines, query, start, there);
      CopyLaps.PreviousUndoesNext(lines, query, there, start);
      CopyLaps.OneNext(lines, query, there, start, cursor);
    }

    /** What is highlighted goes to the clipboard, once, and copy mode is over. */
    method YankAndExit()
      requires Valid()
      modifies `finished, `copied, `exits
      ensures Valid() && finished
      ensures copied == if old(finished) then old(copied) else old(copied) + [Highlighted()]
    {
      if finished { return; }
      hide Highlighted;
      var text := Selected();
      finished := true;
      copied := copied + [text];
      exits := exits + 1;
    }

    method Selected() returns (text: string)
      requires Standing(lines, cursor) && Standing(lines, anchor)
      ensures text == Highlighted()
    {
      CopiesWhatIsMarked(lines, mode, anchor, cursor);
      CopiesWhatIsMarked(lines, Line, cursor, cursor);
      text := SelectedText(lines, mode, anchor, cursor);
      NothingIsNothing(lines, anchor, cursor);
      hide CopiedText, MarkedText;
      if text == "" && mode == Nothing {
        text := SelectedText(lines, Line, cursor, cursor);
      }
    }

    method Finish()
      requires Valid()
      modifies `finished, `exits
      ensures Valid() && finished
    {
      if finished { return; }
      finished := true;
      exits := exits + 1;
    }

    /** While the prompt is open every key belongs to it, and until Enter nothing else changes. */
    method OnPromptKey(key: Key)
      requires Valid() && searchPrompt.Some? && key != Released
      modifies `searchPrompt, `query, `cursor, `top, `notice
      ensures Valid()
      ensures key != Enter ==> cursor == old(cursor) && query == old(query) && top == old(top)
      ensures searchPrompt == Typed(old(searchPrompt.value), key)
      ensures key == Enter ==> query == old(searchPrompt.value)
      ensures key == Enter ==> Searched(searchForwards, old(cursor), old(top))
    {
      match key {
        case Escape => searchPrompt := None;
        case Enter =>
          query := searchPrompt.value;
          searchPrompt := None;
          var _ := Search(searchForwards);
        case Backspace =>
          var typed := searchPrompt.value;
          if typed != "" { searchPrompt := Some(typed[..|typed| - 1]); }
        case Char(text, ctrl) =>
          assert searchPrompt.value + "" == searchPrompt.value;
          if text != "" && !ctrl { searchPrompt := Some(searchPrompt.value + text); }
        case _ =>
      }
    }

    /** A key; only a release is left for somebody else. */
    method OnKey(key: Key) returns (taken: bool)
      requires Valid()
      modifies `searchPrompt, `searchForwards, `query, `cursor, `anchor, `mode, `top, `notice, `finished, `copied, `exits
      ensures Valid() && (taken <==> key != Released)
      ensures old(searchPrompt).Some? || !taken ==>
        && copied == old(copied) && anchor == old(anchor) && mode == old(mode) && finished == old(finished)
        && searchForwards == old(searchForwards)
      ensures !taken ==> cursor == old(cursor) && query == old(query) && top == old(top) && searchPrompt == old(searchPrompt)
      ensures taken && old(searchPrompt).Some? ==> searchPrompt == Typed(old(searchPrompt.value), key)
      ensures old(searchPrompt).Some? && key != Enter ==> cursor == old(cursor) && query == old(query)
      ensures old(searchPrompt).Some? && key == Enter ==>
        query == old(searchPrompt.value) && Searched(searchForwards, old(cursor), old(top))
      ensures taken && old(searchPrompt).None? && CommandOf(key).Again? ==>
        Searched(CommandOf(key).sameWay == searchForwards, old(cursor), old(top))
      ensures taken && old(searchPrompt).None? ==>
        && query == old(query)
        && searchPrompt == (if CommandOf(key).Prompt? then Some("") else None)
        && searchForwards == (if CommandOf(key).Prompt? then CommandOf(key).forwards else old(searchForwards))
        && copied == (if CommandOf(key) == Yank && !old(finished) then old(copied) + [old(Highlighted())] else old(copied))
        && finished == (old(finished) || CommandOf(key) == Yank || CommandOf(key) == Leave)
        && mode == (if CommandOf(key).Select? then (if old(mode) == CommandOf(key).mode then Nothing else CommandOf(key).mode)
                    else old(mode))
        && anchor == (if CommandOf(key).Select? && old(mode) != CommandOf(key).mode then old(cursor) else old(anchor))
        && (!CommandOf(key).Again? ==> cursor == Destination(CommandOf(key), lines, old(cursor), VisibleRows()))
    {
      if key == Released { return false; }
      hide Valid, Highlighted, CommandOf, Destination, Searched, Typed;
      if searchPrompt.Some? {
        OnPromptKey(key);
      } else {
        notice := "";
        Perform(CommandOf(key));
      }
      return true;
    }

    method Perform(command: Command)
      requires Valid() && searchPrompt.None?
      modifies `searchPrompt, `searchForwards, `cursor, `anchor, `mode, `top, `notice, `finished, `copied, `exits
      ensures Valid()
      ensures copied == if command == Yank && !old(finished) then old(copied) + [old(Highlighted())] else old(copied)
      ensures finished == (old(finished) || command == Yank || command == Leave)
      ensures mode == (if command.Select? then (if old(mode) == command.mode then Nothing else command.mode) else old(mode))
      ensures anchor == (if command.Select? && old(mode) != command.mode then old(cursor) else old(anchor))
      ensures searchPrompt == (if command.Prompt? then Some("") else None)
      ensures searchForwards == if command.Prompt? then command.forwards else old(searchForwards)
      ensures !command.Again? ==> cursor == Destination(command, lines, old(cursor), VisibleRows())
      ensures command.Again? ==> Searched(command.sameWay == searchForwards, old(cursor), old(top))
    {
      StaysUnlessGoing(command, lines, cursor, VisibleRows());
      hide Highlighted, Searched, Destination, Valid;
      match command {
        case Leave => Finish();
        case Yank => YankAndExit();
        case Select(wanted) => BeginSelection(wanted);
        case Prompt(forwards) => OpenPrompt(forwards);
        case Again(sameWay) => var _ := Search(if sameWay then searchForwards else !searchForwards);
        case _ => Go(command);
      }
    }

    method OpenPrompt(forwards: bool)
      requires Valid()
      modifies `searchPrompt, `searchForwards
      ensures Valid() && searchForwards == forwards && searchPrompt == Some("")
    {
      searchForwards := forwards;
      searchPrompt := Some("");
    }

    /** A command that only moves the cursor, or does nothing. */
    method Go(command: Command)
      requires Valid()
      modifies `cursor, `top
      ensures Valid() && cursor == Destination(command, lines, old(cursor), VisibleRows())
    {
      hide Moved;
      match command {
        case Move(rows, columns) => MoveCursor(rows, columns);
        case Page(down) => MoveCursor(if down then VisibleRows() else -VisibleRows(), 0);
        case LineStart => MoveTo(Point(0, cursor.y));
        case LineEnd => MoveTo(Point(Max(0, |lines[cursor.y]| - 1), cursor.y));
        case Oldest => MoveTo(Point(0, 0));
        case Newest => MoveTo(Point(0, |lines| - 1));
        case _ =>
      }
    }
  }
}
