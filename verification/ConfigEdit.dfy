/**
 `save_setting` on the text of a file (src/common/config.cpp), and the law that reading it back gives the old
 meaning with one key updated. What an edit does to lines already read is in `ConfigMeaning`.
 */
module ConfigEdit {
  import opened Wrappers
  import opened ConfigLine
  import opened ConfigMeaning

  // ------------------------------------------------------------- lines of text

  /** Reading lines off a stream: each up to its newline, and a last one without only when it is not empty. */
  function SplitLines(text: string): seq<string> {
    if text == "" then []
    else
      var n := Find(text, '\n');
      if n == |text| then [text] else [text[..n]] + SplitLines(text[n + 1..])
  }

  function JoinLines(lines: seq<string>): string {
    if lines == [] then "" else lines[0] + "\n" + JoinLines(lines[1..])
  }

  predicate OneLine(text: string) { '\n' !in text }

  lemma SplitTakesALine(first: string, rest: string)
    requires OneLine(first)
    ensures SplitLines(first + "\n" + rest) == [first] + SplitLines(rest)
  {
    var text := first + "\n" + rest;
    assert forall i :: 0 <= i < |first| ==> text[i] == first[i];
    FindUnique(text, '\n', |first|);
    assert text[..|first|] == first && text[|first| + 1..] == rest;
  }

  lemma {:induction false} SplitOfJoin(lines: seq<string>)
    requires forall line :: line in lines ==> OneLine(line)
    ensures SplitLines(JoinLines(lines)) == lines
  {
    if lines != [] {
      SplitOfJoin(lines[1..]);
      assert lines[0] in lines;
      SplitTakesALine(lines[0], JoinLines(lines[1..]));
    }
  }

  lemma JoinFirst(first: string, lines: seq<string>)
    ensures JoinLines([first] + lines) == first + "\n" + JoinLines(lines) && JoinLines([]) == "" && [first] + [] == [first]
  {
    assert ([first] + lines)[1..] == lines;
  }

  /** A text ended with a newline if it was not. */
  function Ended(text: string): string {
    if text == "" || text[|text| - 1] == '\n' then text else text + "\n"
  }

  lemma EndedBehind(first: string, rest: string)
    ensures Ended(first + "\n" + rest) == first + "\n" + Ended(rest)
  {
    var text := first + "\n" + rest;
    assert text[|text| - 1] == if rest == "" then '\n' else rest[|rest| - 1];
    assert text + "\n" == first + "\n" + (rest + "\n");
    assert rest == "" ==> text == first + "\n" + "";
  }

  lemma Halves(text: string, n: nat)
    requires n < |text| && text[n] == '\n'
    ensures text == text[..n] + "\n" + text[n + 1..]
  {
  }

  lemma FirstLine(text: string, n: nat)
    requires n == Find(text, '\n') && n < |text|
    ensures text == text[..n] + "\n" + text[n + 1..] && SplitLines(text) == [text[..n]] + SplitLines(text[n + 1..])
  {
    Halves(text, n);
    hide Find;
    var rest := text[n + 1..];
    assert SplitLines(text) == [text[..n]] + SplitLines(rest);
  }

  lemma OnlyLine(text: string)
    requires text != "" && '\n' !in text
    ensures SplitLines(text) == [text] && Ended(text) == text + "\n"
  {
  }

  /** And reading loses nothing: lines read and written again are the text, its last line ended if it was not. */
  lemma {:induction false} JoinOfSplit(text: string)
    ensures JoinLines(SplitLines(text)) == Ended(text)
    decreases |text|
  {
    if text != "" {
      var n := Find(text, '\n');
      if n < |text| {
        var rest := text[n + 1..];
        JoinOfSplit(rest);
        FirstLine(text, n);
        hide *;
        JoinFirst(text[..n], SplitLines(rest));
        EndedBehind(text[..n], rest);
      } else {
        hide *;
        OnlyLine(text);
        JoinFirst(text, []);
      }
    }
  }

  lemma {:induction false} SplitGivesOneLine(text: string)
    ensures forall line :: line in SplitLines(text) ==> OneLine(line)
  {
    if text != "" {
      var n := Find(text, '\n');
      if n < |text| { SplitGivesOneLine(text[n + 1..]); }
      forall line | line in SplitLines(text) ensures OneLine(line) {
        if line != text[..n] { assert line in SplitLines(text[n + 1..]); }
      }
    }
  }

  function ReadFile(lines: seq<string>): (file: File)
    ensures |file| == |lines|
  {
    seq(|lines|, i requires 0 <= i < |lines| => ParseLine(lines[i]))
  }

  lemma ReadAt(lines: seq<string>, i: nat)
    requires i < |lines|
    ensures ReadFile(lines)[i] == ParseLine(lines[i])
  {
  }

  lemma ReadOne(line: string)
    ensures ReadFile([line]) == [ParseLine(line)] && ReadFile([]) == []
  {
    hide ParseLine;
  }

  lemma ReadFileTakes(lines: seq<string>, at: nat)
    requires at <= |lines|
    ensures ReadFile(lines[..at]) == ReadFile(lines)[..at] && ReadFile(lines[at..]) == ReadFile(lines)[at..]
  {
    hide ParseLine;
  }

  lemma ReadFileAppends(a: seq<string>, b: seq<string>, c: seq<string>)
    ensures ReadFile(a + b + c) == ReadFile(a) + ReadFile(b) + ReadFile(c)
  {
    hide ParseLine;
    ReadFileJoins(a + b, c);
    ReadFileJoins(a, b);
  }

  lemma ReadFileJoins(a: seq<string>, b: seq<string>)
    ensures ReadFile(a + b) == ReadFile(a) + ReadFile(b)
  {
    hide ParseLine;
  }

  // ------------------------------------------------------------- what a save writes

  function TrailingComment(line: ParsedLine): string {
    if line.Assignment? then line.trailingComment else ""
  }

  function Replacement(line: string, key: string, value: string): string {
    AssignmentLine(key, value) + CommentTail(TrailingComment(ParseLine(line)))
  }

  function SavedInPlace(lines: seq<string>, section: string, key: string, value: string): (out: seq<string>)
    ensures |out| == |lines|
  {
    seq(|lines|, i requires 0 <= i < |lines| =>
      if Hits(ReadFile(lines), i, section, key) then Replacement(lines[i], key, value) else lines[i])
  }

  function TextSeparator(lines: seq<string>): seq<string> {
    if lines != [] && Trim(lines[|lines| - 1]) != "" then [""] else []
  }

  function FrontLines(lines: seq<string>, section: string): seq<string> {
    var at := PlaceIn(ReadFile(lines), section);
    if at > 0 then lines[..at] else lines + TextSeparator(lines) + [HeaderLine(section)]
  }

  function BackLines(lines: seq<string>, section: string): seq<string> {
    var at := PlaceIn(ReadFile(lines), section);
    if at > 0 then lines[at..] else []
  }

  function Saved(lines: seq<string>, section: string, key: string, value: string): seq<string> {
    if AnyHit(ReadFile(lines), section, key) then SavedInPlace(lines, section, key, value)
    else FrontLines(lines, section) + [AssignmentLine(key, value)] + BackLines(lines, section)
  }

  // ------------------------------------------------------------- what is written reads back

  lemma ReplacementReadsBack(line: string, key: string, value: string)
    requires LegalKey(key) && Trimmed(value)
    ensures ParseLine(Replacement(line, key, value)) == Assignment(key, Escape(value), TrailingComment(ParseLine(line)))
  {
    if ParseLine(line).Assignment? { ParsedAssignmentShape(line); }
    WrittenAssignmentReadsBack(key, value, TrailingComment(ParseLine(line)));
  }

  lemma SeparatorReads(lines: seq<string>)
    ensures ReadFile(TextSeparator(lines)) == Separator(ReadFile(lines))
  {
    BlankExactly("");
    ReadOne("");
    hide ParseLine, ReadFile, Trim;
    if lines != [] {
      ReadAt(lines, |lines| - 1);
      BlankExactly(lines[|lines| - 1]);
      EmptyTrims();
    }
  }

  lemma EmptyTrims()
    ensures Trim("") == ""
  {
  }

  lemma BlankExactly(line: string)
    ensures ParseLine(line) == Blank <==> Trim(line) == ""
  {
    hide Trim, FindComment;
  }

  lemma FrontLinesRead(lines: seq<string>, section: string)
    requires LegalSection(section)
    ensures ReadFile(FrontLines(lines, section)) == FrontPart(ReadFile(lines), section)
    ensures ReadFile(BackLines(lines, section)) == BackPart(ReadFile(lines), section)
  {
    ReadOne("");
    hide ParseLine, ReadFile, PlaceIn, TextSeparator, Separator, HeaderLine, LegalSection;
    var at := PlaceIn(ReadFile(lines), section);
    if at == 0 {
      HeaderReadsBack(section);
      AppendedReads(lines, HeaderLine(section));
    } else {
      ReadFileTakes(lines, at);
    }
  }

  lemma AppendedReads(lines: seq<string>, header: string)
    ensures ReadFile(lines + TextSeparator(lines) + [header]) == ReadFile(lines) + Separator(ReadFile(lines)) + [ParseLine(header)]
  {
    hide ParseBody, TextSeparator, Separator;
    SeparatorReads(lines);
    ReadFileAppends(lines, TextSeparator(lines), [header]);
    assert ReadFile([header]) == [ParseLine(header)];
  }

  /** The text a legal save writes is read as the edit of what was read before. */
  lemma SavedReads(lines: seq<string>, section: string, key: string, value: string)
    requires LegalSection(section) && LegalKey(key) && Trimmed(value)
    ensures ReadFile(Saved(lines, section, key, value)) == Edited(ReadFile(lines), section, key, value)
  {
    hide ParseBody;
    var file := ReadFile(lines);
    if AnyHit(file, section, key) {
      forall i | 0 <= i < |lines|
        ensures ParseLine(Saved(lines, section, key, value)[i]) == Edited(file, section, key, value)[i]
      {
        if Hits(file, i, section, key) { ReplacementReadsBack(lines[i], key, value); }
      }
    } else {
      FrontLinesRead(lines, section);
      AssignmentReadsBack(key, value);
      ReadFileAppends(FrontLines(lines, section), [AssignmentLine(key, value)], BackLines(lines, section));
      assert ReadFile([AssignmentLine(key, value)]) == [Assignment(key, Escape(value), "")];
    }
  }

  // ------------------------------------------------------------- the file is the reader's

  /** A second save of a key overrides the first one textually: the file is the one the second alone would write. */
  lemma SaveOverridesSave(lines: seq<string>, section: string, key: string, first: string, second: string)
    requires LegalSection(section) && LegalKey(key) && Trimmed(first)
    ensures Saved(Saved(lines, section, key, first), section, key, second) == Saved(lines, section, key, second)
  {
    hide ParseBody;
    FrontLinesRead(lines, section);
    SavedReads(lines, section, key, first);
    EditedHits(ReadFile(lines), section, key, first);
    if AnyHit(ReadFile(lines), section, key) {
      InPlaceOverrides(lines, section, key, first, second);
    } else {
      PutInOverrides(lines, section, key, first, second);
    }
  }

  lemma InPlaceOverrides(lines: seq<string>, section: string, key: string, first: string, second: string)
    requires LegalKey(key) && Trimmed(first) && AnyHit(ReadFile(lines), section, key)
    requires forall i :: 0 <= i < |lines| ==>
      Hits(ReadFile(SavedInPlace(lines, section, key, first)), i, section, key) == Hits(ReadFile(lines), i, section, key)
    ensures Saved(SavedInPlace(lines, section, key, first), section, key, second) == SavedInPlace(lines, section, key, second)
  {
    hide ParseLine, LegalKey, Trimmed, Replacement, Hits, ReadFile;
    var file, once := ReadFile(lines), SavedInPlace(lines, section, key, first);
    var at :| 0 <= at < |file| && Hits(file, at, section, key);
    assert Hits(ReadFile(once), at, section, key);
    forall i | 0 <= i < |lines|
      ensures SavedInPlace(once, section, key, second)[i] == SavedInPlace(lines, section, key, second)[i]
    {
      if Hits(file, i, section, key) { ReplacedTwice(lines[i], key, first, second); }
    }
  }

  /** What replaces a replacement is what would have replaced the line itself. */
  lemma ReplacedTwice(line: string, key: string, first: string, second: string)
    requires LegalKey(key) && Trimmed(first)
    ensures Replacement(Replacement(line, key, first), key, second) == Replacement(line, key, second)
  {
    ReplacementReadsBack(line, key, first);
    hide ParseLine;
  }

  lemma PutInOverrides(lines: seq<string>, section: string, key: string, first: string, second: string)
    requires LegalKey(key) && Trimmed(first) && !AnyHit(ReadFile(lines), section, key)
    requires var once, at := Saved(lines, section, key, first), |FrontPart(ReadFile(lines), section)|;
      && |FrontLines(lines, section)| == at
      && forall i :: 0 <= i < |once| ==> (Hits(ReadFile(once), i, section, key) <==> i == at)
    ensures Saved(Saved(lines, section, key, first), section, key, second) == Saved(lines, section, key, second)
  {
    hide ParseBody, AssignmentLine, AnyHit, Hits, ReadFile, FrontLines, BackLines, FrontPart, SavedInPlace;
    var once, at := Saved(lines, section, key, first), |FrontLines(lines, section)|;
    AssignmentReadsBack(key, first);
    OneHitRewritten(once, at, section, key, second);
    ReplaceMiddle(FrontLines(lines, section), AssignmentLine(key, first), AssignmentLine(key, second), BackLines(lines, section));
  }

  lemma ReplaceMiddle(front: seq<string>, first: string, second: string, back: seq<string>)
    ensures (front + [first] + back)[|front| := second] == front + [second] + back
  {
  }

  lemma OneHitRewritten(lines: seq<string>, at: nat, section: string, key: string, value: string)
    requires at < |lines| && TrailingComment(ParseLine(lines[at])) == ""
    requires forall i :: 0 <= i < |lines| ==> (Hits(ReadFile(lines), i, section, key) <==> i == at)
    ensures Saved(lines, section, key, value) == lines[at := AssignmentLine(key, value)]
  {
    hide ParseBody, AssignmentLine;
    assert Hits(ReadFile(lines), at, section, key);
    assert AssignmentLine(key, value) + CommentTail("") == AssignmentLine(key, value);
    assert SavedInPlace(lines, section, key, value) == lines[at := AssignmentLine(key, value)];
  }

  /** `n` lines put in at `at`, and nothing else changed. */
  predicate PutIn(lines: seq<string>, out: seq<string>, at: nat, n: nat) {
    at <= |lines| && |out| == |lines| + n && out[..at] == lines[..at] && out[at + n..] == lines[at..]
  }

  /**
   Everything else in the file survives, byte for byte and in order. Where the key was there, each other line
   stands where it stood and each rewritten one keeps its comment; where it was not, the file is the old one
   with one line put in, or with two or three put behind it.
   */
  lemma SavePreservesTheRest(lines: seq<string>, section: string, key: string, value: string)
    requires LegalKey(key) && Trimmed(value)
    ensures var file, out := ReadFile(lines), Saved(lines, section, key, value);
      if AnyHit(file, section, key) then
        && |out| == |lines|
        && (forall i :: 0 <= i < |lines| && !Hits(file, i, section, key) ==> out[i] == lines[i])
        && (forall i :: 0 <= i < |lines| && Hits(file, i, section, key) ==>
              ParseLine(out[i]) == Assignment(key, Escape(value), file[i].trailingComment))
      else
        || PutIn(lines, out, PlaceIn(file, section), 1)
        || PutIn(lines, out, |lines|, 2) || PutIn(lines, out, |lines|, 3)
  {
    hide ParseBody, AssignmentLine, HeaderLine, SavedInPlace;
    var file := ReadFile(lines);
    if AnyHit(file, section, key) {
      InPlacePreserves(lines, section, key, value);
    } else {
      PutInPreserves(lines, FrontLines(lines, section), BackLines(lines, section), AssignmentLine(key, value));
      if PlaceIn(file, section) == 0 { AppendPreserves(lines, TextSeparator(lines), HeaderLine(section), AssignmentLine(key, value)); }
    }
  }

  /** The text of a line written for a setting: two blanks in front of a comment that it had. */
  predicate WrittenFor(out: string, key: string, value: string, comment: string) {
    out == key + " = " + Escape(value) + (if comment == "" then "" else "  " + comment)
  }

  /** Each of the key's lines written anew with the comment it had, and every other one as it was. */
  predicate WrittenInPlace(lines: seq<string>, out: seq<string>, section: string, key: string, value: string) {
    && |out| == |lines|
    && (forall i :: 0 <= i < |lines| && !Hits(ReadFile(lines), i, section, key) ==> out[i] == lines[i])
    && (forall i :: 0 <= i < |lines| && Hits(ReadFile(lines), i, section, key) ==>
          WrittenFor(out[i], key, value, TrailingComment(ParseLine(lines[i]))))
  }

  /** One line put in behind the last in the section that is not blank. */
  predicate WrittenBehind(lines: seq<string>, out: seq<string>, at: nat, section: string, key: string, value: string) {
    && at < |lines| && Inhabits(ReadFile(lines), at, section)
    && (forall i :: at < i < |lines| ==> !Inhabits(ReadFile(lines), i, section))
    && |out| == |lines| + 1 && out[..at + 1] == lines[..at + 1] && out[at + 2..] == lines[at + 1..]
    && WrittenFor(out[at + 1], key, value, "")
  }

  /** A header and the line put behind the file, after a blank line unless the file is empty or ends in one. */
  predicate WrittenAtTheEnd(lines: seq<string>, out: seq<string>, section: string, key: string, value: string) {
    out == lines + (if lines == [] || Trim(lines[|lines| - 1]) == "" then [] else [""])
           + ["[" + section + "]", key + " = " + Escape(value)]
  }

  /** Some line stands in the section. */
  predicate Inhabited(file: File, section: string) {
    exists i :: 0 <= i < |file| && Inhabits(file, i, section)
  }

  /** What a save writes, line for line: in place where the key was there, and if not, in its section or behind the file. */
  lemma SavedExactly(lines: seq<string>, section: string, key: string, value: string)
    ensures var file, out := ReadFile(lines), Saved(lines, section, key, value);
      if AnyHit(file, section, key) then WrittenInPlace(lines, out, section, key, value)
      else if Inhabited(file, section) then exists at :: WrittenBehind(lines, out, at, section, key, value)
      else WrittenAtTheEnd(lines, out, section, key, value)
  {
    var file := ReadFile(lines);
    PlaceIsLast(file, section);
    hide ParseLine, PlaceIn, Inhabits, Hits, AnyHit, AssignmentLine, SavedInPlace, ReadFile, TextSeparator, HeaderLine,
      WrittenInPlace, WrittenBehind, WrittenAtTheEnd;
    if AnyHit(file, section, key) {
      InPlaceExactly(lines, section, key, value);
    } else if PlaceIn(file, section) > 0 {
      var at := PlaceIn(file, section);
      assert Inhabits(file, at - 1, section);
      BehindExactly(lines, at, section, key, value);
      assert WrittenBehind(lines, Saved(lines, section, key, value), at - 1, section, key, value);
    } else {
      AtTheEndExactly(lines, section, key, value);
    }
  }

  lemma BehindExactly(lines: seq<string>, at: nat, section: string, key: string, value: string)
    requires 0 < at <= |lines| && Inhabits(ReadFile(lines), at - 1, section)
    requires forall i :: at <= i < |lines| ==> !Inhabits(ReadFile(lines), i, section)
    ensures WrittenBehind(lines, lines[..at] + [AssignmentLine(key, value)] + lines[at..], at - 1, section, key, value)
  {
    hide ReadFile, Inhabits, Escape;
    PutInExactly(lines, at, AssignmentLine(key, value));
  }

  lemma AtTheEndExactly(lines: seq<string>, section: string, key: string, value: string)
    ensures WrittenAtTheEnd(lines, lines + TextSeparator(lines) + [HeaderLine(section)] + [AssignmentLine(key, value)] + [],
                            section, key, value)
  {
    hide Trim, Escape;
  }

  lemma InPlaceExactly(lines: seq<string>, section: string, key: string, value: string)
    ensures WrittenInPlace(lines, SavedInPlace(lines, section, key, value), section, key, value)
  {
    hide ParseLine, Hits, ReadFile, Escape;
  }

  lemma PutInExactly(lines: seq<string>, at: nat, line: string)
    requires at <= |lines|
    ensures var out := lines[..at] + [line] + lines[at..];
      |out| == |lines| + 1 && out[..at] == lines[..at] && out[at] == line && out[at + 1..] == lines[at..]
  {
  }

  lemma InPlacePreserves(lines: seq<string>, section: string, key: string, value: string)
    requires LegalKey(key) && Trimmed(value)
    ensures var file, out := ReadFile(lines), SavedInPlace(lines, section, key, value);
      forall i :: 0 <= i < |lines| ==>
        if Hits(file, i, section, key) then ParseLine(out[i]) == Assignment(key, Escape(value), file[i].trailingComment)
        else out[i] == lines[i]
  {
    hide ParseBody;
    forall i | 0 <= i < |lines| && Hits(ReadFile(lines), i, section, key)
      ensures ParseLine(SavedInPlace(lines, section, key, value)[i])
           == Assignment(key, Escape(value), ReadFile(lines)[i].trailingComment)
    {
      ReplacementReadsBack(lines[i], key, value);
    }
  }

  lemma PutInPreserves(lines: seq<string>, front: seq<string>, back: seq<string>, line: string)
    ensures front + back == lines ==> PutIn(lines, front + [line] + back, |front|, 1)
  {
  }

  lemma AppendPreserves(lines: seq<string>, separator: seq<string>, header: string, line: string)
    requires |separator| <= 1
    ensures PutIn(lines, lines + separator + [header] + [line] + [], |lines|, |separator| + 2)
  {
  }

  // ------------------------------------------------------------- the law, on the file's text

  /** What a caller can check before a save: every line written for it is read as it was meant. */
  predicate LegalEdit(section: string, key: string, value: string) {
    && LegalSection(section) && LegalKey(key) && Trimmed(value)
    && OneLine(section) && OneLine(key) && OneLine(value)
  }

  function SavedText(text: string, section: string, key: string, value: string): string {
    JoinLines(Saved(SplitLines(text), section, key, value))
  }

  function Meaning<T>(text: string, reader: Reader<T>): map<Place, T> {
    Settle(ReadFile(SplitLines(text)), reader)
  }

  function BindLines(text: string): seq<(Option<string>, string)> {
    Directives(ReadFile(SplitLines(text)))
  }

  /** The reader that takes everything: the file's values before any key is judged. */
  function TakeAny(section: Option<string>, key: string, value: string): Option<string> {
    Some(value)
  }

  lemma EscapeOneLine(key: string, value: string, comment: string)
    requires OneLine(key) && OneLine(value) && OneLine(comment)
    ensures OneLine(AssignmentLine(key, value) + CommentTail(comment))
  {
    EscapeKeepsEnds(value);
  }

  lemma PieceIsOneLine(text: string, a: nat, b: nat)
    requires OneLine(text) && a <= b <= |text|
    ensures OneLine(text[a..b]) && OneLine(Trim(text[a..b]))
    ensures a == 0 ==> text[..b] == text[a..b]
    ensures b == |text| ==> text[a..] == text[a..b]
    ensures a == 0 && b == |text| ==> text == text[a..b]
  {
    TrimIsTrimmed(text[a..b]);
  }

  lemma AssignmentIsOneLine(line: string)
    requires OneLine(line) && ParseLine(line).Assignment?
    ensures var p := ParseLine(line); OneLine(p.key) && OneLine(p.value) && OneLine(p.trailingComment)
  {
    hide Trim, FindComment;
    var body := Trim(line);
    PieceIsOneLine(line, 0, |line|);
    var equals := Find(body, '=');
    PieceIsOneLine(body, 0, equals);
    PieceIsOneLine(body, equals + 1, |body|);
    var rest := body[equals + 1..];
    var hash := FindComment(rest);
    PieceIsOneLine(rest, 0, hash);
    PieceIsOneLine(rest, hash, |rest|);
  }

  lemma CommentIsOneLine(line: string)
    requires OneLine(line)
    ensures OneLine(TrailingComment(ParseLine(line)))
  {
    hide Trim, Trimmed, FindComment;
    if ParseLine(line).Assignment? { AssignmentIsOneLine(line); }
  }

  lemma ReplacementIsOneLine(line: string, key: string, value: string)
    requires OneLine(line) && OneLine(key) && OneLine(value)
    ensures OneLine(Replacement(line, key, value))
  {
    hide ParseBody;
    CommentIsOneLine(line);
    EscapeOneLine(key, value, TrailingComment(ParseLine(line)));
  }

  lemma PiecesAreOneLineEach(lines: seq<string>, section: string)
    requires OneLine(section) && (forall line :: line in lines ==> OneLine(line))
    ensures forall line :: line in FrontLines(lines, section) || line in BackLines(lines, section) ==> OneLine(line)
  {
    hide ParseBody, PlaceIn, ReadFile;
  }

  lemma SavedIsOneLineEach(lines: seq<string>, section: string, key: string, value: string)
    requires OneLine(section) && OneLine(key) && OneLine(value) && (forall line :: line in lines ==> OneLine(line))
    ensures forall line :: line in Saved(lines, section, key, value) ==> OneLine(line)
  {
    EscapeOneLine(key, value, "");
    assert AssignmentLine(key, value) + CommentTail("") == AssignmentLine(key, value);
    hide ParseBody, AssignmentLine, OneLine, Replacement, FrontLines, BackLines, Hits, AnyHit;
    PiecesAreOneLineEach(lines, section);
    var out := Saved(lines, section, key, value);
    forall i | 0 <= i < |out| ensures OneLine(out[i]) {
      if AnyHit(ReadFile(lines), section, key) {
        assert lines[i] in lines;
        ReplacementIsOneLine(lines[i], key, value);
      } else {
        assert out[i] in FrontLines(lines, section) || out[i] == AssignmentLine(key, value) || out[i] in BackLines(lines, section);
      }
    }
  }

  lemma SavedTextSplits(text: string, section: string, key: string, value: string)
    requires OneLine(section) && OneLine(key) && OneLine(value)
    ensures SplitLines(SavedText(text, section, key, value)) == Saved(SplitLines(text), section, key, value)
  {
    SplitGivesOneLine(text);
    SavedIsOneLineEach(SplitLines(text), section, key, value);
    SplitOfJoin(Saved(SplitLines(text), section, key, value));
  }

  /**
   The law: for every text, every legal (section, key, value) and whatever judges the values, reading back
   what was saved gives the old last-one-wins meaning with that one place updated, and the same directives.
   */
  lemma SaveThenRead<T>(text: string, section: string, key: string, value: string, reader: Reader<T>)
    requires LegalEdit(section, key, value)
    ensures Meaning(SavedText(text, section, key, value), reader)
         == Put(Meaning(text, reader), section, key, value, reader)
    ensures BindLines(SavedText(text, section, key, value)) == BindLines(text)
  {
    var lines := SplitLines(text);
    SavedTextSplits(text, section, key, value);
    SavedReads(lines, section, key, value);
    EditedSettles(ReadFile(lines), section, key, value, reader);
    EditedKeepsDirectives(ReadFile(lines), section, key, value);
  }

  // ------------------------------------------------------------- the law holds only then

  /** What any place a file gives a value is made of. */
  predicate Storable(place: Place, value: string) {
    && Trimmed(value) && OneLine(value) && OneLine(place.1)
    && (place.1 == "bind" || place.1 == "unbind" || LegalKey(place.1))
    && (place.0.Some? ==> LegalSection(place.0.value) && OneLine(place.0.value))
  }

  lemma SectionIsOneLine(line: string)
    requires OneLine(line) && ParseLine(line).Section?
    ensures OneLine(ParseLine(line).name)
  {
    hide Trim;
    var body := Trim(line);
    PieceIsOneLine(line, 0, |line|);
    PieceIsOneLine(body, 1, Find(body, ']'));
  }

  lemma {:induction false} InForceIsStorable(lines: seq<string>)
    requires forall line :: line in lines ==> OneLine(line)
    ensures var s := InForce(ReadFile(lines)); s.Some? ==> LegalSection(s.value) && OneLine(s.value)
  {
    hide ParseBody;
    if lines != [] {
      var line := lines[|lines| - 1];
      assert ReadFile(lines)[..|lines| - 1] == ReadFile(lines[..|lines| - 1]);
      InForceIsStorable(lines[..|lines| - 1]);
      if ParseLine(line).Section? {
        ParsedSectionShape(line);
        SectionIsOneLine(line);
      }
    }
  }

  predicate AllStorable(settled: map<Place, string>) {
    forall place :: place in settled ==> Storable(place, settled[place])
  }

  lemma OneMoreStorable(settled: map<Place, string>, section: Option<string>, line: ParsedLine)
    requires AllStorable(settled)
    requires line.Assignment? ==> Storable((section, line.key), Unescape(line.value))
    ensures AllStorable(Assign(settled, section, line, TakeAny))
  {
    hide Storable, Unescape;
  }

  lemma LineIsStorable(line: string, section: Option<string>)
    requires OneLine(line) && (section.Some? ==> LegalSection(section.value) && OneLine(section.value))
    ensures var parsed := ParseLine(line); parsed.Assignment? ==> Storable((section, parsed.key), Unescape(parsed.value))
  {
    hide ParseLine, LegalKey, LegalSection, Trimmed;
    if ParseLine(line).Assignment? {
      ParsedAssignmentShape(line);
      AssignmentIsOneLine(line);
      UnescapeKeepsTrimmed(ParseLine(line).value);
    }
  }

  lemma {:induction false} ValuesAreStorable(lines: seq<string>)
    requires forall line :: line in lines ==> OneLine(line)
    ensures AllStorable(Settle(ReadFile(lines), TakeAny))
  {
    if lines != [] {
      var n := |lines| - 1;
      assert forall line :: line in lines[..n] ==> line in lines;
      assert lines[n] in lines;
      hide ParseLine, ReadFile, AllStorable, OneLine, LegalSection, Assign;
      ReadFileTakes(lines, n);
      ReadAt(lines, n);
      ValuesAreStorable(lines[..n]);
      InForceIsStorable(lines[..n]);
      LineIsStorable(lines[n], InForce(ReadFile(lines[..n])));
      OneMoreStorable(Settle(ReadFile(lines[..n]), TakeAny), InForce(ReadFile(lines[..n])), ParseLine(lines[n]));
    }
  }

  /** A rewritten `bind` or `unbind` key is a directive, so no line assigns it any more. */
  lemma DirectiveWordNotStored(lines: seq<string>, section: string, key: string, value: string)
    requires (key == "bind" || key == "unbind") && LegalSection(section)
    ensures !AnyHit(ReadFile(Saved(lines, section, key, value)), section, key)
  {
    hide ParseBody;
    var file, out := ReadFile(lines), Saved(lines, section, key, value);
    if AnyHit(file, section, key) {
      forall i | 0 <= i < |out| ensures !Hits(ReadFile(out), i, section, key) {
        if Hits(file, i, section, key) {
          DirectiveWordIsNotAKey(key, value, CommentTail(TrailingComment(ParseLine(lines[i]))));
        } else {
          DirectivesKeepSections(lines, section, key, value, i);
        }
      }
    } else {
      var front, back := FrontLines(lines, section), BackLines(lines, section);
      DirectiveWordIsNotAKey(key, value, "");
      assert AssignmentLine(key, value) + "" == AssignmentLine(key, value);
      FrontLinesRead(lines, section);
      PartsFacts(file, section, key);
      ReadFileAppends(front, [AssignmentLine(key, value)], back);
      var line := ParseLine(AssignmentLine(key, value));
      assert ReadFile([AssignmentLine(key, value)]) == [line];
      InsertedDirectiveHitsNothing(ReadFile(front), line, ReadFile(back), section, key);
    }
  }

  lemma DirectivesKeepSections(lines: seq<string>, section: string, key: string, value: string, n: nat)
    requires (key == "bind" || key == "unbind") && n <= |lines|
    ensures InForce(ReadFile(SavedInPlace(lines, section, key, value))[..n]) == InForce(ReadFile(lines)[..n])
  {
    hide ParseBody;
    var file, out := ReadFile(lines), ReadFile(SavedInPlace(lines, section, key, value));
    forall i | 0 <= i < n ensures out[i] == file[i] || (!out[i].Section? && !file[i].Section?) {
      if Hits(file, i, section, key) {
        DirectiveWordIsNotAKey(key, value, CommentTail(TrailingComment(ParseLine(lines[i]))));
      }
    }
    SameHeaders(file[..n], out[..n]);
  }

  lemma {:induction false} SameHeaders(a: File, b: File)
    requires |a| == |b| && forall i :: 0 <= i < |a| ==> a[i] == b[i] || (!a[i].Section? && !b[i].Section?)
    ensures InForce(a) == InForce(b)
  {
    if a != [] { SameHeaders(a[..|a| - 1], b[..|b| - 1]); }
  }

  lemma {:induction false} InsertedDirectiveHitsNothing(front: File, line: ParsedLine, back: File, section: string, key: string)
    requires line.Directive? && !AnyHit(front, section, key)
    requires forall i :: |front| <= i < |front + back| ==> !Hits(front + back, i, section, key)
    ensures !AnyHit(front + [line] + back, section, key)
  {
    var out := front + [line] + back;
    forall i | 0 <= i < |out| ensures !Hits(out, i, section, key) {
      if i < |front| {
        assert out[..i] == front[..i];
        assert !Hits(front, i, section, key);
      } else if i > |front| {
        DirectiveKeepsSection(front, line, back[..i - |front| - 1]);
        assert out[..i] == front + [line] + back[..i - |front| - 1];
        assert (front + back)[..i - 1] == front + back[..i - |front| - 1];
        assert !Hits(front + back, i - 1, section, key);
      }
    }
  }

  lemma {:induction false} DirectiveKeepsSection(front: File, line: ParsedLine, back: File)
    requires line.Directive?
    ensures InForce(front + [line] + back) == InForce(front + back)
    decreases |back|
  {
    if back == [] {
      assert front + back == front && (front + [line] + back)[..|front|] == front;
    } else {
      var less := back[..|back| - 1];
      DirectiveKeepsSection(front, line, less);
      assert (front + [line] + back)[..|front| + |back|] == front + [line] + less;
      assert (front + back)[..|front| + |back| - 1] == front + less;
    }
  }

  /**
   And exactly then: a save reads back as its own value, in any file at all, if and only if the section, the
   key and the value pass `LegalEdit`. The two words `bind` and `unbind`, a key with an `=` in it, a value
   with blanks at its ends: each is written, and read as something else.
   */
  lemma SaveReadsBackExactly(text: string, section: string, key: string, value: string)
    ensures LegalEdit(section, key, value) <==>
      var after := Meaning(SavedText(text, section, key, value), TakeAny);
      (Some(section), key) in after && after[(Some(section), key)] == value
  {
    hide ParseBody;
    if LegalEdit(section, key, value) {
      SaveThenRead(text, section, key, value, TakeAny);
    }
    var place := (Some(section), key);
    var out := SavedText(text, section, key, value);
    if place in Meaning(out, TakeAny) && Meaning(out, TakeAny)[place] == value {
      SplitGivesOneLine(out);
      ValuesAreStorable(SplitLines(out));
      assert Storable(place, value);
      if key == "bind" || key == "unbind" {
        SavedTextSplits(text, section, key, value);
        DirectiveWordNotStored(SplitLines(text), section, key, value);
        NoHitNoPlace(ReadFile(SplitLines(out)), section, key, TakeAny);
      }
    }
  }

  // ------------------------------------------------------------- the edit loop

  method WithComment(assignment: string, comment: string) returns (replacement: string)
    ensures replacement == assignment + CommentTail(comment)
  {
    replacement := assignment;
    if comment != "" { replacement := replacement + ("  " + comment); }
  }

  method AssignmentFor(key: string, value: string) returns (assignment: string)
    ensures assignment == AssignmentLine(key, value)
  {
    var escaped := EscapeText(value);
    assignment := key + " = " + escaped;
  }

  /** What a pass knows of the lines before `i`: the section in force, where a line would be put in, and any hit. */
  datatype Seen = Seen(section: Option<string>, place: nat, hit: bool)

  ghost function SeenTo(lines: seq<string>, i: nat, section: string, key: string): Seen
    requires i <= |lines|
  {
    var front := ReadFile(lines)[..i];
    Seen(InForce(front), PlaceIn(front, section), AnyHit(front, section, key))
  }

  lemma NothingSeen(lines: seq<string>, section: string, key: string)
    ensures SeenTo(lines, 0, section, key) == Seen(None, 0, false)
  {
  }

  lemma AllSeen(lines: seq<string>, section: string, key: string)
    ensures var file := ReadFile(lines);
      SeenTo(lines, |lines|, section, key) == Seen(InForce(file), PlaceIn(file, section), AnyHit(file, section, key))
  {
    hide ParseLine, InForce, PlaceIn, AnyHit;
    assert ReadFile(lines)[..|lines|] == ReadFile(lines);
  }

  /** The one pass over the file: rewrites what it finds, and notes where a new line would go. */
  method RewriteAll(original: seq<string>, section: string, key: string, value: string)
    returns (lines: seq<string>, rewrites: nat, sectionSeen: bool, insertAt: nat)
    ensures lines == SavedInPlace(original, section, key, value)
    ensures rewrites > 0 <==> AnyHit(ReadFile(original), section, key)
    ensures sectionSeen <==> PlaceIn(ReadFile(original), section) > 0
    ensures insertAt == if sectionSeen then PlaceIn(ReadFile(original), section) else |original| + 1
  {
    NothingSeen(original, section, key);
    AllSeen(original, section, key);
    hide ParseLine, AssignmentLine, CommentTail, InForce, PlaceIn, AnyHit, SavedInPlace, ReadFile, Halfway, SeenTo;
    var assignment := AssignmentFor(key, value);
    lines := original;
    rewrites := 0;
    insertAt := |lines| + 1;
    var inSection := false;
    sectionSeen := false;
    ghost var out := SavedInPlace(original, section, key, value);
    for i := 0 to |original|
      invariant lines == Halfway(out, original, i)
      invariant inSection <==> SeenTo(original, i, section, key).section == Some(section)
      invariant sectionSeen <==> SeenTo(original, i, section, key).place > 0
      invariant insertAt == if sectionSeen then SeenTo(original, i, section, key).place else |original| + 1
      invariant rewrites > 0 <==> SeenTo(original, i, section, key).hit
    {
      Step(original, i, section, key, value);
      HalfwayStep(out, original, i);
      var parsed := ParseLine(lines[i]);
      if parsed.Section? {
        inSection := parsed.name == section;
        if inSection {
          sectionSeen := true;
          insertAt := i + 1;
        }
      } else if inSection {
        if !parsed.Blank? { insertAt := i + 1; }
        if parsed.Assignment? && parsed.key == key {
          rewrites := rewrites + 1;
          var replacement := WithComment(assignment, parsed.trailingComment);
          lines := lines[i := replacement];
        }
      }
    }
  }

  /** A list rewritten up to `i`. */
  ghost function Halfway(out: seq<string>, original: seq<string>, i: nat): (lines: seq<string>)
    requires i <= |out| == |original|
    ensures |lines| == |original|
    ensures i == 0 ==> lines == original
    ensures i == |original| ==> lines == out
  {
    out[..i] + original[i..]
  }

  lemma HalfwayStep(out: seq<string>, original: seq<string>, i: nat)
    requires i < |out| == |original|
    ensures var now := Halfway(out, original, i);
      && now[i] == original[i] && Halfway(out, original, i + 1) == now[i := out[i]]
      && (out[i] == original[i] ==> Halfway(out, original, i + 1) == now)
  {
  }

  lemma Step(lines: seq<string>, i: nat, section: string, key: string, value: string)
    requires i < |lines|
    ensures var before, after, line := SeenTo(lines, i, section, key), SeenTo(lines, i + 1, section, key), ParseLine(lines[i]);
      var hit := line.Assignment? && line.key == key && before.section == Some(section);
      && after.section == (if line.Section? then Some(line.name) else before.section)
      && (before.section == Some(section) ==> before.place > 0)
      && after.place == (if after.section == Some(section) && !line.Blank? then i + 1 else before.place)
      && (after.hit <==> before.hit || hit)
      && SavedInPlace(lines, section, key, value)[i]
           == if hit then AssignmentLine(key, value) + CommentTail(line.trailingComment) else lines[i]
  {
    var file := ReadFile(lines);
    SavedAt(lines, i, section, key, value);
    ReadAt(lines, i);
    hide ParseLine, ReadFile, SavedInPlace, InForce, PlaceIn, AnyHit, AssignmentLine, CommentTail;
    OneMoreLine(file, i, section);
    AnyHitSplits(file, i, section, key);
  }

  lemma SavedAt(lines: seq<string>, i: nat, section: string, key: string, value: string)
    requires i < |lines|
    ensures SavedInPlace(lines, section, key, value)[i] ==
      if Hits(ReadFile(lines), i, section, key)
      then AssignmentLine(key, value) + CommentTail(TrailingComment(ParseLine(lines[i]))) else lines[i]
  {
    hide ParseLine, ReadFile, Hits, AssignmentLine, CommentTail;
  }

  method SaveLines(original: seq<string>, section: string, key: string, value: string) returns (lines: seq<string>)
    ensures lines == Saved(original, section, key, value)
  {
    hide ParseBody;
    var rewrites, sectionSeen, insertAt;
    lines, rewrites, sectionSeen, insertAt := RewriteAll(original, section, key, value);
    NoHitKeeps(original, section, key, value);
    if rewrites == 0 {
      var assignment := AssignmentFor(key, value);
      if sectionSeen && insertAt <= |lines| {
        lines := lines[..insertAt] + [assignment] + lines[insertAt..];
      } else {
        if lines != [] {
          var last := TrimText(lines[|lines| - 1]);
          if last != "" { lines := lines + [""]; }
        }
        lines := lines + ["[" + section + "]"];
        lines := lines + [assignment];
        assert lines == FrontLines(original, section) + [assignment] + [];
      }
    }
  }

  lemma NoHitKeeps(lines: seq<string>, section: string, key: string, value: string)
    ensures !AnyHit(ReadFile(lines), section, key) ==> SavedInPlace(lines, section, key, value) == lines
  {
    if !AnyHit(ReadFile(lines), section, key) {
      forall i | 0 <= i < |lines| ensures SavedInPlace(lines, section, key, value)[i] == lines[i] {
        assert !Hits(ReadFile(lines), i, section, key);
      }
    }
  }

  /**
   `save_setting` with the file system taken out: `original` is what was read, if anything was. A file that is
   there and cannot be read is not an empty one, and nothing is written over it.
   */
  method SaveSetting(original: Option<string>, present: bool, section: string, key: string, value: string)
    returns (contents: Option<string>)
    ensures contents == match original
      case Some(text) => Some(SavedText(text, section, key, value))
      case None => if present then None else Some(SavedText("", section, key, value))
  {
    hide ParseBody;
    if original.None? && present { return None; }
    var lines := SaveLines(if original.Some? then SplitLines(original.value) else [], section, key, value);
    var text := Joined(lines);
    return Some(text);
  }

  method Joined(lines: seq<string>) returns (text: string)
    ensures text == JoinLines(lines)
  {
    text := "";
    for i := 0 to |lines|
      invariant text + JoinLines(lines[i..]) == JoinLines(lines)
    {
      assert lines[i..][1..] == lines[i + 1..];
      Regroup(text, lines[i], JoinLines(lines[i + 1..]));
      text := text + lines[i];
      text := text + ['\n'];
    }
  }

  lemma Regroup(text: string, line: string, rest: string)
    ensures text + (line + "\n" + rest) == text + line + ['\n'] + rest
  {
  }
}
