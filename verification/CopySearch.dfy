/**
 Searching a terminal's history in copy mode (src/client/copy_mode.cpp). A document is lines of columns; a column
 holds the bytes of one character, none for the far half of a wide one.
 */
module CopySearch {
  import opened Wrappers

  type CopyLine = seq<string>

  type Document = seq<CopyLine>

  datatype Point = Point(x: int, y: int)

  // ------------------------------------------------------------- text

  function Folded(c: char): char {
    if 'A' <= c <= 'Z' then (c as int - 'A' as int + 'a' as int) as char else c
  }

  function FoldedText(text: string): (folded: string)
    ensures |folded| == |text|
  {
    seq(|text|, i requires 0 <= i < |text| => Folded(text[i]))
  }

  predicate HasUpper(text: string) {
    exists i :: 0 <= i < |text| && 'A' <= text[i] <= 'Z'
  }

  function TrimEnd(text: string): (trimmed: string)
    ensures trimmed <= text
  {
    if text != "" && text[|text| - 1] == ' ' then TrimEnd(text[..|text| - 1]) else text
  }

  /** The bytes of some columns, one after another. */
  function Flat(line: CopyLine): string {
    if line == [] then "" else Flat(line[..|line| - 1]) + line[|line| - 1]
  }

  // ------------------------------------------------------------- a line as searchable text

  /** What is searched for, and what it is searched in: case counts only if the query has a capital in it. */
  function Needle(query: string): string {
    if HasUpper(query) then query else FoldedText(query)
  }

  function Cased(text: string, fold: bool): (cased: string)
    ensures |cased| == |text|
  {
    if fold then FoldedText(text) else text
  }

  function SearchText(line: CopyLine, fold: bool): string {
    TrimEnd(Cased(Flat(line), fold))
  }

  lemma CasedJoin(a: string, b: string, fold: bool)
    ensures Cased(a + b, fold) == Cased(a, fold) + Cased(b, fold)
  {
  }

  lemma CasedMore(text: string, i: nat, fold: bool)
    requires i < |text|
    ensures Cased(text[..i + 1], fold) == Cased(text[..i], fold) + [if fold then Folded(text[i]) else text[i]]
  {
  }

  /** The column each byte came from. */
  function ColumnsOf(line: CopyLine): (columns: seq<nat>)
    ensures |columns| == |Flat(line)|
  {
    if line == [] then []
    else ColumnsOf(line[..|line| - 1]) + seq(|line[|line| - 1]|, _ => |line| - 1)
  }

  predicate Climbing(columns: seq<nat>) {
    forall i, j :: 0 <= i <= j < |columns| ==> columns[i] <= columns[j]
  }

  /** A byte comes from the column whose own bytes it lies among, and columns only grow along a line. */
  lemma {:induction false} ColumnsAreWhereBytesLie(line: CopyLine)
    ensures Climbing(ColumnsOf(line))
    ensures forall i :: 0 <= i < |Flat(line)| ==>
      && ColumnsOf(line)[i] < |line|
      && |Flat(line[..ColumnsOf(line)[i]])| <= i < |Flat(line[..ColumnsOf(line)[i] + 1])|
  {
    if line != [] {
      var n := |line| - 1;
      var front := line[..n];
      ColumnsAreWhereBytesLie(front);
      assert Flat(line) == Flat(front) + line[n];
      assert ColumnsOf(line) == ColumnsOf(front) + seq(|line[n]|, _ => n);
      assert line[..n + 1] == line;
      ClimbsOn(ColumnsOf(front), n, |line[n]|);
      hide Flat, ColumnsOf, Climbing;
      forall i | 0 <= i < |Flat(line)|
        ensures ColumnsOf(line)[i] < |line|
        ensures |Flat(line[..ColumnsOf(line)[i]])| <= i < |Flat(line[..ColumnsOf(line)[i] + 1])|
      {
        if i < |Flat(front)| {
          var c := ColumnsOf(front)[i];
          FrontPrefix(line, c);
          FrontPrefix(line, c + 1);
        }
      }
    }
  }

  lemma FrontPrefix(line: CopyLine, c: nat)
    requires c < |line|
    ensures line[..|line| - 1][..c] == line[..c]
  {
  }

  lemma ClimbsOn(columns: seq<nat>, n: nat, count: nat)
    requires Climbing(columns) && forall i :: 0 <= i < |columns| ==> columns[i] < n
    ensures Climbing(columns + seq(count, _ => n))
  {
  }

  method Searchable(line: CopyLine, fold: bool) returns (text: string, columns: seq<nat>)
    ensures text == SearchText(line, fold) && columns == ColumnsOf(line)[..|text|]
  {
    text, columns := "", [];
    assert line[..0] == [];
    hide Cased, TrimEnd;
    for column := 0 to |line|
      invariant text == Cased(Flat(line[..column]), fold) && columns == ColumnsOf(line[..column])
    {
      ghost var was, had := text, columns;
      for i := 0 to |line[column]|
        invariant text == was + Cased(line[column][..i], fold)
        invariant columns == had + seq(i, _ => column)
      {
        CasedMore(line[column], i, fold);
        text := text + [if fold then Folded(line[column][i]) else line[column][i]];
        columns := columns + [column];
      }
      MoreColumns(line, column);
      CasedJoin(Flat(line[..column]), line[column], fold);
      assert line[column][..|line[column]|] == line[column];
    }
    assert line[..|line|] == line;
    text, columns := WithoutPadding(text, columns);
  }

  lemma MoreColumns(line: CopyLine, column: nat)
    requires column < |line|
    ensures Flat(line[..column + 1]) == Flat(line[..column]) + line[column]
    ensures ColumnsOf(line[..column + 1]) == ColumnsOf(line[..column]) + seq(|line[column]|, _ => column)
  {
    assert line[..column + 1][..column] == line[..column];
  }

  /** The blanks a terminal pads its rows with were never typed. */
  method WithoutPadding(whole: string, all: seq<nat>) returns (text: string, columns: seq<nat>)
    requires |whole| == |all|
    ensures text == TrimEnd(whole) && columns == all[..|text|]
  {
    text, columns := whole, all;
    while text != "" && text[|text| - 1] == ' '
      invariant TrimEnd(text) == TrimEnd(whole) && |text| <= |whole| && columns == all[..|text|]
      decreases |text|
    {
      text := text[..|text| - 1];
      columns := columns[..|columns| - 1];
    }
  }

  // ------------------------------------------------------------- matches

  predicate Occurs(text: string, needle: string, at: int) {
    0 <= at <= |text| - |needle| && text[at..at + |needle|] == needle
  }

  /** The needle occurs, and its first byte is of that column. */
  predicate MatchesAt(text: string, columns: seq<nat>, needle: string, column: int)
    requires |text| == |columns|
  {
    exists at :: 0 <= at < |text| && Occurs(text, needle, at) && columns[at] == column
  }

  /** `std::string::find`: the first occurrence at `start` or later. */
  function Find(text: string, needle: string, start: nat): (at: Option<nat>)
    ensures at.Some? ==> start <= at.value && Occurs(text, needle, at.value)
    ensures at.Some? ==> forall i :: start <= i < at.value ==> !Occurs(text, needle, i)
    ensures at.None? ==> forall i :: start <= i ==> !Occurs(text, needle, i)
    decreases |text| - start
  {
    if start + |needle| > |text| then None
    else if Occurs(text, needle, start) then Some(start)
    else if start < |text| then Find(text, needle, start + 1)
    else None
  }

  /** `std::string::rfind`: the last occurrence at `start` or earlier. */
  function FindLast(text: string, needle: string, start: nat): (at: Option<nat>)
    ensures at.Some? ==> at.value <= start && Occurs(text, needle, at.value)
    ensures at.Some? ==> forall i :: at.value < i <= start ==> !Occurs(text, needle, i)
    ensures at.None? ==> forall i :: 0 <= i <= start ==> !Occurs(text, needle, i)
  {
    if Occurs(text, needle, start) then Some(start)
    else if start == 0 then None
    else FindLast(text, needle, start - 1)
  }

  /** The first match in a stretch of columns, searching forwards; the last one, searching backwards. */
  method MatchIn(text: string, columns: seq<nat>, needle: string, forwards: bool, lowest: int, highest: int)
    returns (column: Option<int>)
    requires |text| == |columns| && Climbing(columns) && needle != ""
    ensures column.Some? ==> lowest <= column.value <= highest && MatchesAt(text, columns, needle, column.value)
    ensures column.Some? && forwards ==> forall c :: lowest <= c < column.value ==> !MatchesAt(text, columns, needle, c)
    ensures column.Some? && !forwards ==> forall c :: column.value < c <= highest ==> !MatchesAt(text, columns, needle, c)
    ensures column.None? ==> forall c :: lowest <= c <= highest ==> !MatchesAt(text, columns, needle, c)
  {
    if highest < lowest || |needle| > |text| { return None; }
    if forwards {
      var at := Find(text, needle, 0);
      while at.Some?
        invariant at.Some? ==> Occurs(text, needle, at.value)
        invariant forall i :: 0 <= i < |text| && (at.Some? ==> i < at.value) && Occurs(text, needle, i) ==> columns[i] < lowest
        decreases if at.Some? then |text| - at.value else -1
      {
        var c := columns[at.value];
        if c > highest { return None; }
        if c >= lowest { return Some(c); }
        at := Find(text, needle, at.value + 1);
      }
      return None;
    }
    var at := FindLast(text, needle, |text|);
    while at.Some?
      invariant at.Some? ==> Occurs(text, needle, at.value)
      invariant forall i :: 0 <= i < |text| && (at.Some? ==> i > at.value) && Occurs(text, needle, i) ==> columns[i] > highest
      decreases if at.Some? then at.value else -1
    {
      var c := columns[at.value];
      if c < lowest { return None; }
      if c <= highest { return Some(c); }
      if at.value == 0 { return None; }
      at := FindLast(text, needle, at.value - 1);
    }
    return None;
  }

  /** A match in a document: where it is, by column and row. */
  ghost predicate IsMatch(lines: Document, query: string, p: Point) {
    && 0 <= p.y < |lines|
    && RowMatches(lines[p.y], query, p.x)
  }

  ghost predicate RowMatches(line: CopyLine, query: string, column: int) {
    var text := SearchText(line, !HasUpper(query));
    MatchesAt(text, ColumnsOf(line)[..|text|], Needle(query), column)
  }

  // ------------------------------------------------------------- what a match is, in the line itself

  /** The same letter in either case, or the same byte. */
  predicate SameButCase(a: char, b: char) {
    || a == b
    || ('A' <= a <= 'Z' && b as int == a as int + 32)
    || ('A' <= b <= 'Z' && a as int == b as int + 32)
  }

  lemma FoldedExactly(a: char, b: char)
    ensures Folded(a) == Folded(b) <==> SameButCase(a, b)
  {
  }

  /** A query with a capital in it is looked for as it stands, and any other in either case. */
  predicate Agrees(query: string, typed: char, wanted: char) {
    if exists i :: 0 <= i < |query| && 'A' <= query[i] <= 'Z' then typed == wanted else SameButCase(typed, wanted)
  }

  /** From that byte on the line reads as the query, and what it reads as was typed: something not blank ends it or follows. */
  predicate Reads(line: CopyLine, query: string, at: nat) {
    var text := Flat(line);
    && at + |query| <= |text| && (forall i :: 0 <= i < |query| ==> Agrees(query, text[at + i], query[i]))
    && exists j :: 0 <= j < |text| && at + |query| - 1 <= j && text[j] != ' '
  }

  /** The byte is one of the column's. */
  predicate LiesIn(line: CopyLine, at: nat, column: int) {
    0 <= column < |line| && |Flat(line[..column])| <= at < |Flat(line[..column + 1])|
  }

  /** A match is a column in which a byte lies from where on the line reads as the query, and there is no other kind. */
  lemma MatchesExactly(line: CopyLine, query: string, column: int)
    requires query != ""
    ensures RowMatches(line, query, column) <==> exists at: nat :: Reads(line, query, at) && LiesIn(line, at, column)
  {
    var text := SearchText(line, !HasUpper(query));
    ColumnsAreWhereBytesLie(line);
    forall at: nat ensures (at < |text| && Occurs(text, Needle(query), at)) <==> Reads(line, query, at) {
      ReadsExactly(line, query, at);
    }
    forall at: nat | at < |text| ensures ColumnsOf(line)[..|text|][at] == column <==> LiesIn(line, at, column) {
      OneColumn(line, at, column);
    }
    hide SearchText, Needle, Reads, LiesIn, Occurs, ColumnsOf, Climbing;
    if RowMatches(line, query, column) {
      var at :| 0 <= at < |text| && Occurs(text, Needle(query), at) && ColumnsOf(line)[..|text|][at] == column;
      assert Reads(line, query, at) && LiesIn(line, at, column);
    }
    if at: nat :| Reads(line, query, at) && LiesIn(line, at, column) {
      assert at < |text| && Occurs(text, Needle(query), at) && ColumnsOf(line)[..|text|][at] == column;
    }
  }

  /** The text without its padding ends in the last byte that is not blank. */
  lemma {:induction false} TrimEndExactly(text: string, n: nat)
    ensures n < |TrimEnd(text)| <==> exists j :: n <= j < |text| && text[j] != ' '
  {
    if text != "" {
      var last := |text| - 1;
      if text[last] == ' ' {
        TrimEndExactly(text[..last], n);
        assert forall j :: 0 <= j < last ==> text[..last][j] == text[j];
      } else {
        assert n <= last ==> text[last] != ' ';
      }
    }
  }

  /** What is searched is as long as it needs to be if something not blank ends it or follows. */
  lemma LongEnough(flat: string, fold: bool, at: nat, count: nat)
    requires count > 0
    ensures at + count <= |TrimEnd(Cased(flat, fold))| <==> exists j :: 0 <= j < |flat| && at + count - 1 <= j && flat[j] != ' '
  {
    var cased := Cased(flat, fold);
    TrimEndExactly(cased, at + count - 1);
    assert forall j :: 0 <= j < |flat| ==> (cased[j] == ' ' <==> flat[j] == ' ');
    hide TrimEnd, Cased;
    if at + count <= |TrimEnd(cased)| {
      var j :| at + count - 1 <= j < |cased| && cased[j] != ' ';
      assert flat[j] != ' ';
    }
    if j :| 0 <= j < |flat| && at + count - 1 <= j && flat[j] != ' ' {
      assert cased[j] != ' ';
    }
  }

  /** One byte of what is searched for. */
  lemma OneByte(flat: string, query: string, at: nat, i: nat)
    requires at + i < |flat| && i < |query|
    ensures |Needle(query)| == |query|
    ensures Cased(flat, !HasUpper(query))[at + i] == Needle(query)[i] <==> Agrees(query, flat[at + i], query[i])
  {
    FoldedExactly(flat[at + i], query[i]);
  }

  lemma ReadsExactly(line: CopyLine, query: string, at: nat)
    requires query != ""
    ensures var text := SearchText(line, !HasUpper(query)); (at < |text| && Occurs(text, Needle(query), at)) <==> Reads(line, query, at)
  {
    var flat, needle := Flat(line), Needle(query);
    var cased, text := Cased(flat, !HasUpper(query)), SearchText(line, !HasUpper(query));
    assert text <= cased && |needle| == |query|;
    LongEnough(flat, !HasUpper(query), at, |query|);
    hide Cased, TrimEnd, Flat, Needle, SearchText, HasUpper, Agrees;
    if at + |query| <= |text| {
      SameBytes(text, needle, at);
      forall i | 0 <= i < |query| ensures text[at + i] == needle[i] <==> Agrees(query, flat[at + i], query[i]) {
        OneByte(flat, query, at, i);
        InFront(text, cased, at + i);
      }
      hide *;
      SameThroughout(text, flat, needle, query, at);
    }
  }

  lemma InFront(text: string, whole: string, i: nat)
    requires text <= whole && i < |text|
    ensures text[i] == whole[i]
  {
  }

  lemma SameThroughout(text: string, flat: string, needle: string, query: string, at: nat)
    requires |needle| == |query| && at + |query| <= |text| <= |flat|
    requires forall i :: 0 <= i < |query| ==> (text[at + i] == needle[i] <==> Agrees(query, flat[at + i], query[i]))
    ensures (forall i :: 0 <= i < |query| ==> text[at + i] == needle[i])
      <==> (forall i :: 0 <= i < |query| ==> Agrees(query, flat[at + i], query[i]))
  {
    hide Agrees;
  }

  /** The bytes of a column are in the text where the columns before it end. */
  lemma {:induction false} FlatAt(line: CopyLine, column: nat, i: nat)
    requires column < |line| && i < |line[column]|
    ensures |Flat(line[..column])| + i < |Flat(line)|
    ensures Flat(line)[|Flat(line[..column])| + i] == line[column][i]
    ensures |Flat(line[..column + 1])| == |Flat(line[..column])| + |line[column]|
    decreases |line|
  {
    var front := line[..|line| - 1];
    if column < |line| - 1 {
      FlatAt(front, column, i);
      FrontPrefix(line, column);
      FrontPrefix(line, column + 1);
    } else {
      assert line[..column + 1] == line && line[..column] == front;
    }
  }

  lemma SameBytes(text: string, needle: string, at: nat)
    requires at + |needle| <= |text|
    ensures text[at..at + |needle|] == needle <==> forall i :: 0 <= i < |needle| ==> text[at + i] == needle[i]
  {
    if text[at..at + |needle|] == needle {
      forall i | 0 <= i < |needle| ensures text[at + i] == needle[i] { assert text[at..at + |needle|][i] == text[at + i]; }
    }
  }

  lemma OneColumn(line: CopyLine, at: nat, column: int)
    requires at < |Flat(line)|
    ensures ColumnsOf(line)[at] == column <==> LiesIn(line, at, column)
  {
    ColumnsAreWhereBytesLie(line);
    var c := ColumnsOf(line)[at];
    hide Climbing, ColumnsOf;
    if LiesIn(line, at, column) {
      if c < column { FlatGrows(line, c + 1, column); }
      if column < c { FlatGrows(line, column + 1, c); }
    }
  }

  lemma {:induction false} FlatGrows(line: CopyLine, c: nat, d: nat)
    requires c <= d <= |line|
    ensures |Flat(line[..c])| <= |Flat(line[..d])|
    decreases d
  {
    if c < d {
      FlatGrows(line, c, d - 1);
      assert line[..d][..d - 1] == line[..d - 1];
    }
  }

  /** Reading order. */
  predicate Before(p: Point, q: Point) {
    p.y < q.y || (p.y == q.y && p.x < q.x)
  }

  /** The next match round the document: the first one after `p`, or from the top, the first of all. */
  ghost predicate IsNext(lines: Document, query: string, p: Point, hit: Point) {
    && IsMatch(lines, query, hit)
    && (if Before(p, hit) then forall m :: IsMatch(lines, query, m) && Before(p, m) ==> !Before(m, hit)
        else forall m :: IsMatch(lines, query, m) ==> !Before(p, m) && !Before(m, hit))
  }

  /** The previous one: the last before `p`, or from the bottom, the last of all. */
  ghost predicate IsPrevious(lines: Document, query: string, p: Point, hit: Point) {
    && IsMatch(lines, query, hit)
    && (if Before(hit, p) then forall m :: IsMatch(lines, query, m) && Before(m, p) ==> !Before(hit, m)
        else forall m :: IsMatch(lines, query, m) ==> !Before(m, p) && !Before(hit, m))
  }

  function Clamp(value: int, low: int, high: int): int
    requires low <= high
  {
    if value < low then low else if value > high then high else value
  }

  /** Where a search starts: inside the document, whatever it is given. */
  function Start(lines: Document, p: Point): Point
    requires lines != []
  {
    var row := Clamp(p.y, 0, |lines| - 1);
    Point(Clamp(p.x, 0, |lines[row]|), row)
  }

  /** Inside, it starts where it is given; else at the nearest row there is, and in it at the nearest column. */
  lemma StartIsNearest(lines: Document, p: Point, x: int, y: int)
    requires lines != [] && 0 <= y < |lines|
    ensures var start := Start(lines, p);
      && 0 <= start.y < |lines| && 0 <= start.x <= |lines[start.y]|
      && (if start.y >= p.y then start.y - p.y else p.y - start.y) <= (if y >= p.y then y - p.y else p.y - y)
      && (0 <= x <= |lines[start.y]| ==>
            (if start.x >= p.x then start.x - p.x else p.x - start.x) <= (if x >= p.x then x - p.x else p.x - x))
  {
  }

  /** The remainder of C++, which has the sign of the dividend. */
  function Remainder(a: int, b: int): int
    requires b > 0
  {
    if a >= 0 then a % b else -((-a) % b)
  }

  /** The rows in the order a search goes through them. */
  function RowAt(row: int, step: int, count: int, forwards: bool): int
    requires count > 0
  {
    if forwards then Remainder(row + step, count) else Remainder(Remainder(row - step, count) + count, count)
  }

  lemma OnceRound(a: int, b: int)
    requires 0 <= a < 2 * b
    ensures Remainder(a, b) == if a < b then a else a - b
  {
    var q, r := a / b, a % b;
    assert a == q * b + r;
    assert (q >= 2 ==> q * b >= 2 * b) && (q < 0 ==> q * b <= -b);
  }

  lemma RowAtIs(row: int, step: int, count: int)
    requires 0 <= row < count && 0 < step < count
    ensures RowAt(row, step, count, true) == if row + step < count then row + step else row + step - count
    ensures RowAt(row, step, count, false) == if row - step >= 0 then row - step else row - step + count
  {
    OnceRound(row + step, count);
    if row - step >= 0 { OnceRound(row - step, count); } else { OnceRound(step - row, count); }
    OnceRound(row - step + count, count);
  }

  /** In how many steps a search from `row` comes to another row. */
  function StepsTo(row: int, other: int, count: int, forwards: bool): int {
    if forwards then (if other > row then other - row else other - row + count)
    else (if other < row then row - other else row - other + count)
  }

  lemma RowsComeInOrder(row: int, other: int, count: int, forwards: bool)
    requires 0 <= row < count && 0 <= other < count && other != row
    ensures 0 < StepsTo(row, other, count, forwards) < count
    ensures RowAt(row, StepsTo(row, other, count, forwards), count, forwards) == other
  {
    RowAtIs(row, StepsTo(row, other, count, forwards), count);
  }

  ghost predicate RowEmpty(lines: Document, query: string, row: int)
    requires 0 <= row < |lines|
  {
    forall column :: !RowMatches(lines[row], query, column)
  }

  /** The rows a search has been through hold no match. */
  ghost predicate SearchedPast(lines: Document, query: string, row: int, step: int, forwards: bool)
    requires 0 <= row < |lines|
  {
    forall other :: 0 <= other < |lines| && other != row && StepsTo(row, other, |lines|, forwards) < step
      ==> RowEmpty(lines, query, other)
  }

  lemma MatchLiesInLine(line: CopyLine, query: string, column: int)
    requires RowMatches(line, query, column)
    ensures 0 <= column < |line|
  {
    ColumnsAreWhereBytesLie(line);
  }

  /** A stretch of one line searched. */
  method SearchLine(line: CopyLine, query: string, forwards: bool, lowest: int, highest: int) returns (column: Option<int>)
    requires query != ""
    ensures column.Some? ==> lowest <= column.value <= highest && RowMatches(line, query, column.value)
    ensures column.Some? && forwards ==> forall c :: lowest <= c < column.value ==> !RowMatches(line, query, c)
    ensures column.Some? && !forwards ==> forall c :: column.value < c <= highest ==> !RowMatches(line, query, c)
    ensures column.None? ==> forall c :: lowest <= c <= highest ==> !RowMatches(line, query, c)
  {
    var text, columns := Searchable(line, !HasUpper(query));
    ColumnsAreWhereBytesLie(line);
    assert |text| == |columns| && Climbing(columns) && Needle(query) != "";
    hide SearchText, MatchesAt, ColumnsOf, Needle, Climbing;
    column := MatchIn(text, columns, Needle(query), forwards, lowest, highest);
  }

  /**
   The next match after `from`, or the previous one before it: round the document, and round to `from` itself
   last of all. Nothing only if nothing matches.
   */
  method FindMatch(lines: Document, query: string, p: Point, forwards: bool) returns (hit: Option<Point>)
    ensures query == "" || lines == [] ==> hit == None
    ensures query != "" && lines != [] && hit.None? ==> forall m :: !IsMatch(lines, query, m)
    ensures query != "" && lines != [] && hit.Some? ==>
      if forwards then IsNext(lines, query, Start(lines, p), hit.value) else IsPrevious(lines, query, Start(lines, p), hit.value)
  {
    if query == "" || lines == [] { return None; }
    var count := |lines|;
    var row, column := Start(lines, p).y, Start(lines, p).x;
    var line := lines[row];
    LinesBound(lines, query);
    SearchStarts(lines, query, row, forwards);
    hide RowMatches, IsMatch, IsNext, IsPrevious, SearchedPast, RowEmpty, RowAt;
    var found := SearchLine(line, query, forwards, if forwards then column + 1 else 0, if forwards then |line| else column - 1);
    if found.Some? {
      NearHit(lines, query, Point(column, row), found.value, forwards);
      return Some(Point(found.value, row));
    }
    for step := 1 to count
      invariant SearchedPast(lines, query, row, step, forwards)
    {
      var at := RowAt(row, step, count, forwards);
      RowAtIs(row, step, count);
      found := SearchLine(lines[at], query, forwards, 0, |lines[at]|);
      if found.Some? {
        FarHit(lines, query, Point(column, row), Point(found.value, at), step, forwards);
        return Some(Point(found.value, at));
      }
      NothingInRow(lines, query, at);
      PastOneMore(lines, query, row, step, forwards);
    }
    found := SearchLine(line, query, forwards, if forwards then 0 else column, if forwards then column else |line|);
    AllPast(lines, query, row, forwards);
    if found.Some? {
      LastHit(lines, query, Point(column, row), found.value, forwards);
      return Some(Point(found.value, row));
    }
    NothingAnywhere(lines, query, row);
    return None;
  }

  lemma SearchStarts(lines: Document, query: string, row: int, forwards: bool)
    requires 0 <= row < |lines|
    ensures SearchedPast(lines, query, row, 1, forwards)
  {
    forall other | 0 <= other < |lines| && other != row ensures StepsTo(row, other, |lines|, forwards) >= 1 {}
  }

  lemma NothingInRow(lines: Document, query: string, row: int)
    requires 0 <= row < |lines| && forall c :: 0 <= c <= |lines[row]| ==> !RowMatches(lines[row], query, c)
    ensures RowEmpty(lines, query, row)
  {
    LinesBound(lines, query);
    hide RowMatches;
  }

  lemma NothingAnywhere(lines: Document, query: string, row: int)
    requires 0 <= row < |lines| && forall c :: 0 <= c <= |lines[row]| ==> !RowMatches(lines[row], query, c)
    requires forall r :: 0 <= r < |lines| && r != row ==> RowEmpty(lines, query, r)
    ensures forall m :: !IsMatch(lines, query, m)
  {
    NothingInRow(lines, query, row);
    hide RowMatches;
    forall m: Point | 0 <= m.y < |lines| ensures !IsMatch(lines, query, m) {
      assert RowEmpty(lines, query, m.y);
    }
  }

  lemma LinesBound(lines: Document, query: string)
    ensures forall r, c :: 0 <= r < |lines| && RowMatches(lines[r], query, c) ==> 0 <= c < |lines[r]|
  {
    forall r, c | 0 <= r < |lines| && RowMatches(lines[r], query, c) ensures 0 <= c < |lines[r]| {
      MatchLiesInLine(lines[r], query, c);
    }
  }

  lemma NearHit(lines: Document, query: string, p: Point, column: int, forwards: bool)
    requires 0 <= p.y < |lines| && RowMatches(lines[p.y], query, column)
    requires forwards ==> p.x < column && forall c :: p.x < c < column ==> !RowMatches(lines[p.y], query, c)
    requires !forwards ==> column < p.x && forall c :: column < c < p.x ==> !RowMatches(lines[p.y], query, c)
    ensures if forwards then IsNext(lines, query, p, Point(column, p.y)) else IsPrevious(lines, query, p, Point(column, p.y))
  {
    hide RowMatches;
  }

  lemma FarHit(lines: Document, query: string, p: Point, hit: Point, step: int, forwards: bool)
    requires 0 <= p.y < |lines| && 0 < step < |lines| && hit.y == RowAt(p.y, step, |lines|, forwards)
    requires SearchedPast(lines, query, p.y, step, forwards) && IsMatch(lines, query, hit)
    requires forwards ==> forall c :: RowMatches(lines[p.y], query, c) ==> c <= p.x
    requires !forwards ==> forall c :: RowMatches(lines[p.y], query, c) ==> p.x <= c
    requires forwards ==> forall c :: RowMatches(lines[hit.y], query, c) ==> hit.x <= c
    requires !forwards ==> forall c :: RowMatches(lines[hit.y], query, c) ==> c <= hit.x
    ensures if forwards then IsNext(lines, query, p, hit) else IsPrevious(lines, query, p, hit)
  {
    RowAtIs(p.y, step, |lines|);
    hide RowMatches, RowAt;
    forall m | IsMatch(lines, query, m)
      ensures m.y == p.y || StepsTo(p.y, m.y, |lines|, forwards) >= step
      ensures m.y == hit.y ==> if forwards then hit.x <= m.x else m.x <= hit.x
      ensures m.y == p.y ==> if forwards then m.x <= p.x else p.x <= m.x
    {
    }
    hide IsMatch, SearchedPast;
    if forwards { FarNext(lines, query, p, hit, step); } else { FarPrevious(lines, query, p, hit, step); }
  }

  lemma FarNext(lines: Document, query: string, p: Point, hit: Point, step: int)
    requires 0 <= p.y < |lines| && 0 < step < |lines| && IsMatch(lines, query, hit)
    requires hit.y == if p.y + step < |lines| then p.y + step else p.y + step - |lines|
    requires forall m :: IsMatch(lines, query, m) ==> m.y == p.y || StepsTo(p.y, m.y, |lines|, true) >= step
    requires forall m :: IsMatch(lines, query, m) ==> (m.y == hit.y ==> hit.x <= m.x) && (m.y == p.y ==> m.x <= p.x)
    ensures IsNext(lines, query, p, hit)
  {
    InLines(lines, query);
    hide IsMatch;
  }

  lemma FarPrevious(lines: Document, query: string, p: Point, hit: Point, step: int)
    requires 0 <= p.y < |lines| && 0 < step < |lines| && IsMatch(lines, query, hit)
    requires hit.y == if p.y - step >= 0 then p.y - step else p.y - step + |lines|
    requires forall m :: IsMatch(lines, query, m) ==> m.y == p.y || StepsTo(p.y, m.y, |lines|, false) >= step
    requires forall m :: IsMatch(lines, query, m) ==> (m.y == hit.y ==> m.x <= hit.x) && (m.y == p.y ==> p.x <= m.x)
    ensures IsPrevious(lines, query, p, hit)
  {
    InLines(lines, query);
    hide IsMatch;
  }

  lemma InLines(lines: Document, query: string)
    ensures forall m :: IsMatch(lines, query, m) ==> 0 <= m.y < |lines|
  {
  }

  lemma LastHit(lines: Document, query: string, p: Point, column: int, forwards: bool)
    requires 0 <= p.y < |lines| && RowMatches(lines[p.y], query, column)
    requires forall r :: 0 <= r < |lines| && r != p.y ==> RowEmpty(lines, query, r)
    requires forwards ==> column <= p.x && forall c :: RowMatches(lines[p.y], query, c) ==> column <= c <= p.x
    requires !forwards ==> p.x <= column && forall c :: RowMatches(lines[p.y], query, c) ==> p.x <= c <= column
    ensures if forwards then IsNext(lines, query, p, Point(column, p.y)) else IsPrevious(lines, query, p, Point(column, p.y))
  {
    hide RowMatches;
    forall m | IsMatch(lines, query, m) ensures m.y == p.y {
      assert m.y != p.y ==> RowEmpty(lines, query, m.y);
    }
  }

  lemma PastOneMore(lines: Document, query: string, row: int, step: int, forwards: bool)
    requires 0 <= row < |lines| && 0 < step < |lines| && SearchedPast(lines, query, row, step, forwards)
    requires 0 <= RowAt(row, step, |lines|, forwards) < |lines|
    requires RowEmpty(lines, query, RowAt(row, step, |lines|, forwards))
    ensures SearchedPast(lines, query, row, step + 1, forwards)
  {
    hide RowMatches, RowEmpty, RowAt;
    forall other | 0 <= other < |lines| && other != row && StepsTo(row, other, |lines|, forwards) == step
      ensures RowEmpty(lines, query, other)
    {
      RowsComeInOrder(row, other, |lines|, forwards);
    }
  }

  lemma AllPast(lines: Document, query: string, row: int, forwards: bool)
    requires 0 <= row < |lines| && SearchedPast(lines, query, row, |lines|, forwards)
    ensures forall r :: 0 <= r < |lines| && r != row ==> RowEmpty(lines, query, r)
  {
    hide RowMatches, RowEmpty, RowAt;
    forall r | 0 <= r < |lines| && r != row ensures RowEmpty(lines, query, r) {
      RowsComeInOrder(row, r, |lines|, forwards);
    }
  }
}
