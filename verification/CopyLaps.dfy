/** Going round the matches of a document: the two directions of a search, and repeating one. */
module CopyLaps {
  import opened CopySearch

  /** There is only one next match, and only one previous one. */
  lemma OneNext(lines: Document, query: string, p: Point, a: Point, b: Point)
    ensures IsNext(lines, query, p, a) && IsNext(lines, query, p, b) ==> a == b
    ensures IsPrevious(lines, query, p, a) && IsPrevious(lines, query, p, b) ==> a == b
  {
    hide RowMatches;
    assert Before(a, b) || Before(b, a) || a == b;
  }

  /** From one match the next is `hit` exactly when from `hit` the previous is the first: each direction undoes the other. */
  lemma PreviousUndoesNext(lines: Document, query: string, p: Point, hit: Point)
    requires IsMatch(lines, query, p) && IsMatch(lines, query, hit)
    ensures IsNext(lines, query, p, hit) <==> IsPrevious(lines, query, hit, p)
  {
    hide IsMatch;
    assert Before(p, hit) || Before(hit, p) || p == hit;
  }

  // ------------------------------------------------------------- all the matches

  ghost function LineHits(line: CopyLine, query: string, row: nat, columns: nat): seq<Point> {
    if columns == 0 then []
    else
      LineHits(line, query, row, columns - 1) + if RowMatches(line, query, columns - 1) then [Point(columns - 1, row)] else []
  }

  ghost function HitsAbove(lines: Document, query: string, rows: nat): seq<Point>
    requires rows <= |lines|
  {
    if rows == 0 then []
    else HitsAbove(lines, query, rows - 1) + LineHits(lines[rows - 1], query, rows - 1, |lines[rows - 1]|)
  }

  /** Every match of a document, in reading order. */
  ghost function Hits(lines: Document, query: string): seq<Point> {
    HitsAbove(lines, query, |lines|)
  }

  predicate InOrder(points: seq<Point>) {
    forall i, j :: 0 <= i < j < |points| ==> Before(points[i], points[j])
  }

  lemma {:induction false} LineHitsAre(line: CopyLine, query: string, row: nat, columns: nat)
    ensures InOrder(LineHits(line, query, row, columns))
    ensures forall m :: m in LineHits(line, query, row, columns) <==>
      m.y == row && 0 <= m.x < columns && RowMatches(line, query, m.x)
  {
    hide RowMatches;
    if columns > 0 { LineHitsAre(line, query, row, columns - 1); }
  }

  lemma {:induction false} HitsAboveAre(lines: Document, query: string, rows: nat)
    requires rows <= |lines|
    ensures InOrder(HitsAbove(lines, query, rows))
    ensures forall m :: m in HitsAbove(lines, query, rows) <==> m.y < rows && IsMatch(lines, query, m)
  {
    LinesBound(lines, query);
    hide RowMatches;
    if rows > 0 {
      HitsAboveAre(lines, query, rows - 1);
      LineHitsAre(lines[rows - 1], query, rows - 1, |lines[rows - 1]|);
      var above, here := HitsAbove(lines, query, rows - 1), LineHits(lines[rows - 1], query, rows - 1, |lines[rows - 1]|);
      forall i | 0 <= i < |above| ensures above[i].y < rows - 1 { assert above[i] in above; }
      forall i | 0 <= i < |here| ensures here[i].y == rows - 1 { assert here[i] in here; }
    }
  }

  lemma HitsAreTheMatches(lines: Document, query: string)
    ensures InOrder(Hits(lines, query))
    ensures forall m :: m in Hits(lines, query) <==> IsMatch(lines, query, m)
  {
    HitsAboveAre(lines, query, |lines|);
  }

  /** In the list of matches, the next one is the next in the list, and the first follows the last. */
  lemma NextInList(lines: Document, query: string, hits: seq<Point>, i: nat, hit: Point)
    requires InOrder(hits) && (forall m :: m in hits <==> IsMatch(lines, query, m))
    requires i < |hits| && IsNext(lines, query, hits[i], hit)
    ensures hit == hits[if i + 1 < |hits| then i + 1 else 0]
  {
    hide IsMatch;
    var next := hits[if i + 1 < |hits| then i + 1 else 0];
    assert next in hits;
    forall m | IsMatch(lines, query, m)
      ensures Before(hits[i], next) && Before(hits[i], m) ==> !Before(m, next)
      ensures !Before(hits[i], next) ==> !Before(hits[i], m) && !Before(m, next)
    {
      var j :| 0 <= j < |hits| && hits[j] == m;
    }
    assert IsNext(lines, query, hits[i], next);
    OneNext(lines, query, hits[i], hit, next);
  }

  /** What repeating a search from a match visits. */
  ghost predicate Walk(lines: Document, query: string, visited: seq<Point>) {
    && visited != [] && IsMatch(lines, query, visited[0])
    && forall i :: 0 <= i < |visited| - 1 ==> IsNext(lines, query, visited[i], visited[i + 1])
  }

  lemma {:induction false} WalkIsRoundTheList(lines: Document, query: string, hits: seq<Point>, visited: seq<Point>, k: nat, i: nat)
    requires InOrder(hits) && (forall m :: m in hits <==> IsMatch(lines, query, m)) && Walk(lines, query, visited)
    requires k < |hits| && hits[k] == visited[0] && i < |visited| && i <= |hits|
    ensures visited[i] == hits[if k + i < |hits| then k + i else k + i - |hits|]
  {
    hide IsMatch, IsNext, InOrder;
    if i > 0 {
      WalkIsRoundTheList(lines, query, hits, visited, k, i - 1);
      assert IsNext(lines, query, visited[i - 1], visited[i - 1 + 1]);
      NextInList(lines, query, hits, if k + (i - 1) < |hits| then k + (i - 1) else k + (i - 1) - |hits|, visited[i]);
    }
  }

  /** Repeating a search from a match visits every match of the document exactly once, and then is back where it began. */
  lemma OneLap(lines: Document, query: string, visited: seq<Point>)
    requires Walk(lines, query, visited) && |visited| == |Hits(lines, query)| + 1
    ensures visited[|visited| - 1] == visited[0]
    ensures forall i, j :: 0 <= i < j < |visited| - 1 ==> visited[i] != visited[j]
    ensures forall m :: IsMatch(lines, query, m) <==> m in visited[..|visited| - 1]
  {
    HitsAreTheMatches(lines, query);
    var hits := Hits(lines, query);
    hide IsMatch, Hits, IsNext;
    assert visited[0] in hits;
    var k :| 0 <= k < |hits| && hits[k] == visited[0];
    var n := |hits|;
    forall i | 0 <= i <= n ensures visited[i] == hits[if k + i < n then k + i else k + i - n] {
      WalkIsRoundTheList(lines, query, hits, visited, k, i);
    }
    forall m | m in hits ensures m in visited[..n] {
      var j :| 0 <= j < n && hits[j] == m;
      var i := if j >= k then j - k else j - k + n;
      assert visited[..n][i] == m;
    }
  }
}
