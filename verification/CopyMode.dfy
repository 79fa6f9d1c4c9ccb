/** Copy mode (src/client/copy_mode.cpp): what is selected, what is highlighted, and the view over a frozen history. */
module CopyMode {
  import opened CopySearch

  datatype SelectionMode = Nothing | Character | Line | Rectangular

  function Min(a: int, b: int): int { if a < b then a else b }

  function Max(a: int, b: int): int { if a > b then a else b }

  /** Top-left and bottom-right, whichever way the reader dragged. */
  function First(a: Point, b: Point): Point {
    if Before(b, a) then b else a
  }

  function Last(a: Point, b: Point): Point {
    if Before(b, a) then a else b
  }

  // ------------------------------------------------------------- what is highlighted

  /** The test that drawing makes for one cell. */
  predicate Inside(mode: SelectionMode, anchor: Point, cursor: Point, row: int, column: int) {
    var first, last := First(anchor, cursor), Last(anchor, cursor);
    && mode != Nothing && first.y <= row <= last.y
    && match mode
       case Line => true
       case Rectangular => Min(anchor.x, cursor.x) <= column <= Max(anchor.x, cursor.x)
       case _ => (row > first.y || column >= first.x) && (row < last.y || column <= last.x)
  }

  /** The highlighted cells of one line, one after another. */
  function MarkedCells(line: CopyLine, mode: SelectionMode, anchor: Point, cursor: Point, row: int, columns: nat): string
    requires columns <= |line|
  {
    if columns == 0 then ""
    else
      MarkedCells(line, mode, anchor, cursor, row, columns - 1)
      + if Inside(mode, anchor, cursor, row, columns - 1) then line[columns - 1] else ""
  }

  function Joined(texts: seq<string>): string {
    if texts == [] then ""
    else if |texts| == 1 then texts[0]
    else Joined(texts[..|texts| - 1]) + "\n" + texts[|texts| - 1]
  }

  /** The rows of a document that a selection reaches. */
  function RowsMarked(lines: Document, anchor: Point, cursor: Point): seq<int> {
    var top, bottom := Max(0, First(anchor, cursor).y), Min(|lines| - 1, Last(anchor, cursor).y);
    if top <= bottom then seq(bottom - top + 1, i => top + i) else []
  }

  /** What a reader sees highlighted: each row's cells without the padding, a newline between rows. */
  function MarkedText(lines: Document, mode: SelectionMode, anchor: Point, cursor: Point): string {
    if mode == Nothing then ""
    else
      var rows := RowsMarked(lines, anchor, cursor);
      Joined(seq(|rows|, i requires 0 <= i < |rows| =>
        TrimEnd(MarkedCells(lines[rows[i]], mode, anchor, cursor, rows[i], |lines[rows[i]]|))))
  }

  // ------------------------------------------------------------- what is copied

  function Cells(line: CopyLine, start: int, end: int): string {
    var low, high := Max(0, start), Min(end, |line|);
    if low <= high then Flat(line[low..high]) else ""
  }

  function LineText(line: CopyLine, start: int, end: int): string {
    TrimEnd(Cells(line, start, end))
  }

  /** The columns of one row that a selection takes. */
  function Stretch(mode: SelectionMode, anchor: Point, cursor: Point, row: int, width: nat): (int, int) {
    var first, last := First(anchor, cursor), Last(anchor, cursor);
    match mode
    case Character => (if row == first.y then first.x else 0, if row == last.y then Min(width, last.x + 1) else width)
    case Rectangular => (Min(anchor.x, cursor.x), Min(width, Max(anchor.x, cursor.x) + 1))
    case _ => (0, width)
  }

  function CopiedRow(lines: Document, mode: SelectionMode, anchor: Point, cursor: Point, row: int): string
    requires 0 <= row < |lines|
  {
    var (start, end) := Stretch(mode, anchor, cursor, row, |lines[row]|);
    LineText(lines[row], start, end)
  }

  predicate InDocument(lines: Document, rows: seq<int>) {
    forall i :: 0 <= i < |rows| ==> 0 <= rows[i] < |lines|
  }

  function CopiedRows(lines: Document, mode: SelectionMode, anchor: Point, cursor: Point, rows: seq<int>): (texts: seq<string>)
    requires InDocument(lines, rows)
    ensures |texts| == |rows|
    ensures forall i :: 0 <= i < |rows| ==> texts[i] == CopiedRow(lines, mode, anchor, cursor, rows[i])
  {
    seq(|rows|, i requires 0 <= i < |rows| => CopiedRow(lines, mode, anchor, cursor, rows[i]))
  }

  function RowsCopied(lines: Document, anchor: Point, cursor: Point): (rows: seq<int>)
    requires lines != []
    ensures InDocument(lines, rows)
  {
    var top := Clamp(First(anchor, cursor).y, 0, |lines| - 1);
    var bottom := Clamp(Last(anchor, cursor).y, 0, |lines| - 1);
    seq(bottom - top + 1, i => top + i)
  }

  function CopiedText(lines: Document, mode: SelectionMode, anchor: Point, cursor: Point): string {
    if lines == [] || mode == Nothing then ""
    else
      Joined(CopiedRows(lines, mode, anchor, cursor, RowsCopied(lines, anchor, cursor)))
  }

  method ReadLine(line: CopyLine, start: int, end: int) returns (text: string)
    ensures text == LineText(line, start, end)
  {
    text := ReadCells(line, start, end);
    ghost var whole := text;
    while text != "" && text[|text| - 1] == ' '
      invariant TrimEnd(text) == TrimEnd(whole)
      decreases |text|
    {
      text := text[..|text| - 1];
    }
  }

  method ReadCells(line: CopyLine, start: int, end: int) returns (text: string)
    ensures text == Cells(line, start, end)
  {
    text := "";
    var column := Max(0, start);
    var stop := Min(end, |line|);
    ghost var low := column;
    if low <= stop { NoneBetween(line, low); }
    hide Flat;
    while column < stop
      invariant low <= column && (column <= stop || column == low)
      invariant text == if low <= stop then Flat(line[low..column]) else ""
      decreases stop - column
    {
      OneMoreCell(line, low, column);
      text := text + line[column];
      column := column + 1;
    }
  }

  lemma NoneBetween(line: CopyLine, low: nat)
    requires low <= |line|
    ensures Flat(line[low..low]) == ""
  {
  }

  lemma OneMoreCell(line: CopyLine, low: nat, column: nat)
    requires low <= column < |line|
    ensures Flat(line[low..column + 1]) == Flat(line[low..column]) + line[column]
  {
    assert line[low..column + 1][..column - low] == line[low..column];
  }

  lemma JoinedMore(texts: seq<string>, text: string)
    ensures Joined(texts + [text]) == if texts == [] then text else Joined(texts) + "\n" + text
  {
    assert (texts + [text])[..|texts|] == texts;
  }

  /** One row's share of a selection. */
  method ReadRow(lines: Document, mode: SelectionMode, anchor: Point, cursor: Point, row: int) returns (text: string)
    requires 0 <= row < |lines| && mode != Nothing
    ensures text == CopiedRow(lines, mode, anchor, cursor, row)
  {
    var line, first, last := lines[row], First(anchor, cursor), Last(anchor, cursor);
    var start, end := 0, |line|;
    if mode == Character {
      if row == first.y { start := first.x; }
      if row == last.y { end := Min(|line|, last.x + 1); }
    } else if mode == Rectangular {
      start := Min(anchor.x, cursor.x);
      end := Min(|line|, Max(anchor.x, cursor.x) + 1);
    }
    hide LineText;
    text := ReadLine(line, start, end);
  }

  /** `selected_text`. */
  method SelectedText(lines: Document, mode: SelectionMode, anchor: Point, cursor: Point) returns (text: string)
    ensures text == CopiedText(lines, mode, anchor, cursor)
  {
    hide *;
    NothingCopied(lines, mode, anchor, cursor);
    if lines == [] || mode == Nothing { return ""; }
    SelectionIs(lines, mode, anchor, cursor);
    text := ReadRows(lines, mode, anchor, cursor, TopRow(lines, anchor, cursor), BottomRow(lines, anchor, cursor),
      CopiedRows(lines, mode, anchor, cursor, RowsCopied(lines, anchor, cursor)));
  }

  /** The first and the last row copied. */
  function TopRow(lines: Document, anchor: Point, cursor: Point): int
    requires lines != []
  {
    Clamp(First(anchor, cursor).y, 0, |lines| - 1)
  }

  function BottomRow(lines: Document, anchor: Point, cursor: Point): int
    requires lines != []
  {
    Clamp(Last(anchor, cursor).y, 0, |lines| - 1)
  }

  lemma NothingCopied(lines: Document, mode: SelectionMode, anchor: Point, cursor: Point)
    ensures lines == [] || mode == Nothing ==> CopiedText(lines, mode, anchor, cursor) == ""
  {
  }

  lemma SelectionIs(lines: Document, mode: SelectionMode, anchor: Point, cursor: Point)
    requires lines != [] && mode != Nothing
    ensures var texts := CopiedRows(lines, mode, anchor, cursor, RowsCopied(lines, anchor, cursor));
      var top, bottom := TopRow(lines, anchor, cursor), BottomRow(lines, anchor, cursor);
      && CopiedText(lines, mode, anchor, cursor) == Joined(texts)
      && 0 <= top <= bottom < |lines| && |texts| == bottom - top + 1
      && forall i :: 0 <= i < |texts| ==> texts[i] == CopiedRow(lines, mode, anchor, cursor, top + i)
  {
    RowsAre(lines, anchor, cursor);
    hide CopiedRow, CopiedRows, Joined, First, Last, RowsCopied, Clamp;
  }

  method ReadRows(lines: Document, mode: SelectionMode, anchor: Point, cursor: Point, top: int, bottom: int, ghost texts: seq<string>)
    returns (text: string)
    requires mode != Nothing && 0 <= top <= bottom < |lines| && |texts| == bottom - top + 1
    requires forall i :: 0 <= i < |texts| ==> texts[i] == CopiedRow(lines, mode, anchor, cursor, top + i)
    ensures text == Joined(texts)
  {
    JoinedNone();
    hide *;
    text := "";
    assert texts[..0] == [];
    for row := top to bottom + 1
      invariant text == Joined(texts[..row - top])
    {
      var more := ReadRow(lines, mode, anchor, cursor, row);
      JoinedMore(texts[..row - top], more);
      assert texts[..row + 1 - top] == texts[..row - top] + [texts[row - top]];
      if row > top { text := text + "\n"; }
      text := text + more;
    }
    assert texts[..bottom + 1 - top] == texts;
  }

  lemma RowsAre(lines: Document, anchor: Point, cursor: Point)
    requires lines != []
    ensures var top, bottom := Clamp(First(anchor, cursor).y, 0, |lines| - 1), Clamp(Last(anchor, cursor).y, 0, |lines| - 1);
      && 0 <= top <= bottom < |lines| && |RowsCopied(lines, anchor, cursor)| == bottom - top + 1
      && forall i :: 0 <= i <= bottom - top ==> RowsCopied(lines, anchor, cursor)[i] == top + i
  {
  }

  lemma JoinedNone()
    ensures Joined([]) == ""
  {
  }

  // ------------------------------------------------------------- the two agree

  /** In a row the selection reaches, the cells highlighted are those of one stretch. */
  lemma InsideIsAStretch(mode: SelectionMode, anchor: Point, cursor: Point, row: int, width: nat, column: int)
    requires mode != Nothing && First(anchor, cursor).y <= row <= Last(anchor, cursor).y && 0 <= column < width
    ensures var (start, end) := Stretch(mode, anchor, cursor, row, width);
      Inside(mode, anchor, cursor, row, column) <==> start <= column < end
  {
    hide First, Last;
  }

  lemma {:induction false} MarkedRun(line: CopyLine, mode: SelectionMode, anchor: Point, cursor: Point, row: int,
                                     start: int, end: int, columns: nat)
    requires columns <= |line|
    requires forall c :: 0 <= c < |line| ==> (Inside(mode, anchor, cursor, row, c) <==> start <= c < end)
    ensures MarkedCells(line, mode, anchor, cursor, row, columns) == Cells(line[..columns], start, end)
  {
    hide Inside;
    if columns > 0 {
      MarkedRun(line, mode, anchor, cursor, row, start, end, columns - 1);
      CellsMore(line[..columns], start, end);
      assert line[..columns][..columns - 1] == line[..columns - 1];
    }
  }

  lemma CellsMore(line: CopyLine, start: int, end: int)
    requires line != []
    ensures var n := |line| - 1;
      Cells(line, start, end) == Cells(line[..n], start, end) + if start <= n < end then line[n] else ""
  {
    var n := |line| - 1;
    var low := Max(0, start);
    if start <= n < end {
      assert line[low..n + 1][..n - low] == line[..n][low..n];
    } else if low <= Min(end, n) {
      assert line[low..Min(end, n)] == line[..n][low..Min(end, n)];
    }
  }

  lemma MarkedIsCopied(line: CopyLine, mode: SelectionMode, anchor: Point, cursor: Point, row: int)
    requires mode != Nothing && First(anchor, cursor).y <= row <= Last(anchor, cursor).y
    ensures var (start, end) := Stretch(mode, anchor, cursor, row, |line|);
      MarkedCells(line, mode, anchor, cursor, row, |line|) == Cells(line, start, end)
  {
    var (start, end) := Stretch(mode, anchor, cursor, row, |line|);
    hide Inside, Stretch;
    forall c | 0 <= c < |line| ensures Inside(mode, anchor, cursor, row, c) <==> start <= c < end {
      InsideIsAStretch(mode, anchor, cursor, row, |line|, c);
    }
    MarkedRun(line, mode, anchor, cursor, row, start, end, |line|);
    assert line[..|line|] == line;
  }

  /** A selection reaches the same rows when it is drawn and when it is copied, exactly when some of it is in the document. */
  lemma SameRows(lines: Document, anchor: Point, cursor: Point)
    requires lines != []
    ensures RowsCopied(lines, anchor, cursor) == RowsMarked(lines, anchor, cursor) <==>
      First(anchor, cursor).y < |lines| && Last(anchor, cursor).y >= 0
  {
    if First(anchor, cursor).y < |lines| && Last(anchor, cursor).y >= 0 {
    } else {
      assert RowsMarked(lines, anchor, cursor) == [] && |RowsCopied(lines, anchor, cursor)| == 1;
    }
  }

  /** What is highlighted is exactly what is copied. */
  lemma CopiesWhatIsMarked(lines: Document, mode: SelectionMode, anchor: Point, cursor: Point)
    requires First(anchor, cursor).y < |lines| && Last(anchor, cursor).y >= 0
    ensures CopiedText(lines, mode, anchor, cursor) == MarkedText(lines, mode, anchor, cursor)
  {
    if lines != [] && mode != Nothing {
      SameRows(lines, anchor, cursor);
      var rows := RowsCopied(lines, anchor, cursor);
      hide Joined, TrimEnd;
      forall i | 0 <= i < |rows|
        ensures CopiedRow(lines, mode, anchor, cursor, rows[i]) ==
          TrimEnd(MarkedCells(lines[rows[i]], mode, anchor, cursor, rows[i], |lines[rows[i]]|))
      {
        MarkedIsCopied(lines[rows[i]], mode, anchor, cursor, rows[i]);
      }
      assert CopiedRows(lines, mode, anchor, cursor, rows) ==
        seq(|rows|, i requires 0 <= i < |rows| =>
          TrimEnd(MarkedCells(lines[rows[i]], mode, anchor, cursor, rows[i], |lines[rows[i]]|)));
    }
  }

  predicate BlankText(text: string) {
    forall i :: 0 <= i < |text| ==> text[i] == ' '
  }

  /** No cell of the stretch holds anything but blanks. */
  predicate BlankStretch(line: CopyLine, start: int, end: int) {
    forall c :: 0 <= c < |line| && start <= c < end ==> BlankText(line[c])
  }

  lemma {:induction false} TrimsToNothing(text: string)
    ensures TrimEnd(text) == "" <==> BlankText(text)
  {
    if text != "" && text[|text| - 1] == ' ' { TrimsToNothing(text[..|text| - 1]); }
  }

  lemma BlankJoin(a: string, b: string)
    ensures BlankText(a + b) <==> BlankText(a) && BlankText(b)
  {
    if BlankText(a + b) {
      assert forall i :: 0 <= i < |a| ==> a[i] == (a + b)[i];
      assert forall i :: 0 <= i < |b| ==> b[i] == (a + b)[|a| + i];
    }
  }

  lemma {:induction false} BlankCells(line: CopyLine, start: int, end: int)
    ensures BlankText(Cells(line, start, end)) <==> BlankStretch(line, start, end)
  {
    if line == [] {
      NoCells(line, start, end);
    } else {
      var n := |line| - 1;
      BlankCells(line[..n], start, end);
      CellsMore(line, start, end);
      BlankJoin(Cells(line[..n], start, end), if start <= n < end then line[n] else "");
      hide Cells, BlankText;
      assert BlankStretch(line, start, end) <==> BlankStretch(line[..n], start, end) && (start <= n < end ==> BlankText(line[n])) by {
        assert forall c :: 0 <= c < n ==> line[..n][c] == line[c];
      }
      NothingIsBlank();
    }
  }

  lemma NoCells(line: CopyLine, start: int, end: int)
    requires line == []
    ensures Cells(line, start, end) == ""
  {
  }

  lemma NothingIsBlank()
    ensures BlankText("")
  {
  }

  /** The line that a selection outside the document is nearest to. */
  function NearestRow(lines: Document, anchor: Point, cursor: Point): (row: int)
    requires lines != []
    ensures 0 <= row < |lines|
  {
    if Last(anchor, cursor).y < 0 then 0 else |lines| - 1
  }

  /** All the cells that a selection outside the document would copy are blank. */
  predicate NearestIsBlank(lines: Document, mode: SelectionMode, anchor: Point, cursor: Point)
    requires lines != []
  {
    var row := NearestRow(lines, anchor, cursor);
    var (start, end) := Stretch(mode, anchor, cursor, row, |lines[row]|);
    BlankStretch(lines[row], start, end)
  }

  lemma OutsideTheDocument(lines: Document, mode: SelectionMode, anchor: Point, cursor: Point)
    requires lines != [] && mode != Nothing && !(First(anchor, cursor).y < |lines| && Last(anchor, cursor).y >= 0)
    ensures MarkedText(lines, mode, anchor, cursor) == ""
    ensures CopiedText(lines, mode, anchor, cursor) == CopiedRow(lines, mode, anchor, cursor, NearestRow(lines, anchor, cursor))
  {
    hide CopiedRow;
    var row := NearestRow(lines, anchor, cursor);
    assert RowsMarked(lines, anchor, cursor) == [];
    assert RowsCopied(lines, anchor, cursor) == [row];
    assert CopiedRows(lines, mode, anchor, cursor, [row]) == [CopiedRow(lines, mode, anchor, cursor, row)];
  }

  /**
   What is highlighted is what is copied exactly if there is a selection with some of it in the document, or else
   there is nothing to copy: no selection, no document, or only blanks in the line that would be copied instead.
   */
  lemma CopiesExactlyWhatIsMarked(lines: Document, mode: SelectionMode, anchor: Point, cursor: Point)
    ensures CopiedText(lines, mode, anchor, cursor) == MarkedText(lines, mode, anchor, cursor) <==>
      || mode == Nothing || lines == []
      || (First(anchor, cursor).y < |lines| && Last(anchor, cursor).y >= 0)
      || NearestIsBlank(lines, mode, anchor, cursor)
  {
    if mode == Nothing || lines == [] || (First(anchor, cursor).y < |lines| && Last(anchor, cursor).y >= 0) {
      SelectedOrNothing(lines, mode, anchor, cursor);
    } else {
      OutsideTheDocument(lines, mode, anchor, cursor);
      var row := NearestRow(lines, anchor, cursor);
      var (start, end) := Stretch(mode, anchor, cursor, row, |lines[row]|);
      hide CopiedText, MarkedText, Stretch, First, Last, BlankStretch, BlankText, TrimEnd, Cells;
      TrimsToNothing(Cells(lines[row], start, end));
      BlankCells(lines[row], start, end);
    }
  }

  lemma SelectedOrNothing(lines: Document, mode: SelectionMode, anchor: Point, cursor: Point)
    requires mode == Nothing || lines == [] || (First(anchor, cursor).y < |lines| && Last(anchor, cursor).y >= 0)
    ensures CopiedText(lines, mode, anchor, cursor) == MarkedText(lines, mode, anchor, cursor)
  {
    if mode != Nothing && lines != [] {
      CopiesWhatIsMarked(lines, mode, anchor, cursor);
    } else if mode != Nothing {
      assert RowsMarked(lines, anchor, cursor) == [];
    }
  }

  /** Corners past the end of the document highlight nothing, and yet copy its last line. */
  lemma CopiesMoreThanIsMarked()
    ensures MarkedText([["a"]], Line, Point(0, 7), Point(0, 9)) == ""
    ensures CopiedText([["a"]], Line, Point(0, 7), Point(0, 9)) == "a"
  {
    var lines := [["a"]];
    assert RowsMarked(lines, Point(0, 7), Point(0, 9)) == [];
    assert RowsCopied(lines, Point(0, 7), Point(0, 9)) == [0];
    assert lines[0][0..1] == ["a"] && ["a"][..0] == [];
    assert CopiedRow(lines, Line, Point(0, 7), Point(0, 9), 0) == "a";
  }

  /** Which corner is the anchor makes no difference, to the text or to what is highlighted. */
  lemma CornersMayBeSwapped(lines: Document, mode: SelectionMode, anchor: Point, cursor: Point)
    ensures CopiedText(lines, mode, anchor, cursor) == CopiedText(lines, mode, cursor, anchor)
    ensures forall row, column :: Inside(mode, anchor, cursor, row, column) <==> Inside(mode, cursor, anchor, row, column)
  {
    SameCorners(anchor, cursor);
    if lines != [] && mode != Nothing {
      var rows := RowsCopied(lines, anchor, cursor);
      assert RowsCopied(lines, cursor, anchor) == rows;
      forall row | 0 <= row < |lines|
        ensures CopiedRow(lines, mode, anchor, cursor, row) == CopiedRow(lines, mode, cursor, anchor, row)
      {
        SameStretch(mode, anchor, cursor, row, |lines[row]|);
        hide LineText, Stretch;
      }
      hide CopiedRow, Joined, First, Last, Inside, RowsCopied;
      assert CopiedRows(lines, mode, anchor, cursor, rows) == CopiedRows(lines, mode, cursor, anchor, rows);
    }
  }

  lemma SameStretch(mode: SelectionMode, anchor: Point, cursor: Point, row: int, width: nat)
    ensures Stretch(mode, anchor, cursor, row, width) == Stretch(mode, cursor, anchor, row, width)
  {
    SameCorners(anchor, cursor);
    hide First, Last;
  }

  lemma SameCorners(anchor: Point, cursor: Point)
    ensures First(anchor, cursor) == First(cursor, anchor) && Last(anchor, cursor) == Last(cursor, anchor)
  {
  }
}
