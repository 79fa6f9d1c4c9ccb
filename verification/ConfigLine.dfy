/**
 The line grammar of the configuration file (src/common/config.cpp).

 A string is the file's bytes, one `char` a byte. Each loop of the source is a method proved against a
 recursive function; the laws at the end are about those functions.
 */
module ConfigLine {

  // ---------------------------------------------------------------- trimming

  predicate IsSpace(c: char) {
    c == ' ' || c == '\t' || c == '\r'
  }

  /** How many blanks lead the text. */
  function Lead(text: string): (n: nat)
    ensures n <= |text| && (forall i :: 0 <= i < n ==> IsSpace(text[i]))
    ensures n < |text| ==> !IsSpace(text[n])
  {
    if text == "" || !IsSpace(text[0]) then 0 else 1 + Lead(text[1..])
  }

  /** How much of the text is left when the blanks at its end are gone. */
  function Stay(text: string): (n: nat)
    ensures n <= |text| && (forall i :: n <= i < |text| ==> IsSpace(text[i]))
    ensures n > 0 ==> !IsSpace(text[n - 1])
  {
    if text == "" || !IsSpace(text[|text| - 1]) then |text| else Stay(text[..|text| - 1])
  }

  function Trim(text: string): string {
    if Stay(text) <= Lead(text) then "" else text[Lead(text)..Stay(text)]
  }

  /** What trimming leaves alone: no blank at either end. */
  predicate Trimmed(text: string) {
    text == "" || (!IsSpace(text[0]) && !IsSpace(text[|text| - 1]))
  }

  /**
   Trimming is the one way to take blanks off both ends until none is left: whatever window of the text has
   only blanks outside it and none at its own ends is the result.
   */
  lemma TrimIs(text: string, a: nat, b: nat)
    requires a <= b <= |text| && (a < b ==> text[a] !in " \t\r" && text[b - 1] !in " \t\r")
    requires forall i :: 0 <= i < a || b <= i < |text| ==> text[i] in " \t\r"
    ensures Trim(text) == text[a..b]
  {
    if a < b {
      assert text[a..b][0] == text[a] && text[a..b][b - a - 1] == text[b - 1];
      assert Lead(text) == a;
      assert Stay(text) == b;
    } else {
      assert text[a..b] == "";
      assert forall i :: 0 <= i < |text| ==> IsSpace(text[i]);
    }
  }

  lemma TrimIsTrimmed(text: string)
    ensures Trimmed(Trim(text))
    ensures Trim(text) == text <==> Trimmed(text)
    ensures forall c :: c in Trim(text) ==> c in text
  {
    if Lead(text) < Stay(text) { assert Trim(text)[0] == text[Lead(text)]; }
    if Trimmed(text) { assert text[0..|text|] == text; TrimIs(text, 0, |text|); }
  }

  /** Blanks around a trimmed text are exactly what trimming removes. */
  lemma TrimOfPadded(before: string, text: string, after: string)
    requires Trimmed(text) && (forall i :: 0 <= i < |before| ==> IsSpace(before[i]))
    requires forall i :: 0 <= i < |after| ==> IsSpace(after[i])
    ensures Trim(before + text + after) == text
  {
    var whole := before + text + after;
    assert whole[|before|..|before| + |text|] == text;
    TrimIs(whole, |before|, |before| + |text|);
  }

  method TrimText(text: string) returns (body: string)
    ensures body == Trim(text)
  {
    body := text;
    ghost var a := 0;
    while body != "" && IsSpace(body[0])
      invariant a <= |text| && body == text[a..] && forall i :: 0 <= i < a ==> IsSpace(text[i])
      decreases |body|
    {
      body := body[1..];
      a := a + 1;
    }
    ghost var b := |text|;
    while body != "" && IsSpace(body[|body| - 1])
      invariant a <= b <= |text| && body == text[a..b] && forall i :: b <= i < |text| ==> IsSpace(text[i])
      invariant a < b ==> !IsSpace(text[a])
      decreases |body|
    {
      body := body[..|body| - 1];
      b := b - 1;
    }
    TrimIs(text, a, b);
  }

  // ------------------------------------------------ the one escape, and comments

  /**
   A '#' starts a comment unless a backslash stands right in front of it. (A backslash is never itself
   spoken for: the one escape pairs it with a '#'.)
   */
  predicate CommentAt(text: string, i: nat)
    requires i < |text|
  {
    text[i] == '#' && (i == 0 || text[i - 1] != '\\')
  }

  function CommentFrom(text: string, i: nat): (at: nat)
    requires i <= |text|
    ensures i <= at <= |text| && (forall j :: i <= j < at ==> !CommentAt(text, j))
    ensures at < |text| ==> CommentAt(text, at)
    decreases |text| - i
  {
    if i == |text| || CommentAt(text, i) then i else CommentFrom(text, i + 1)
  }

  /** Where the first comment starts, or `|text|` for none. */
  function FindComment(text: string): (at: nat)
    ensures at <= |text| && (forall j :: 0 <= j < at ==> !CommentAt(text, j))
    ensures at < |text| ==> CommentAt(text, at)
  {
    CommentFrom(text, 0)
  }

  function Unescape(text: string): string {
    if text == "" then ""
    else if text[0] == '\\' && 1 < |text| && text[1] == '#' then "#" + Unescape(text[2..])
    else [text[0]] + Unescape(text[1..])
  }

  function Escape(value: string): string {
    if value == "" then ""
    else (if value[0] == '#' then "\\#" else [value[0]]) + Escape(value[1..])
  }

  /** `find_comment`: one pass that steps over an escaped '#'. */
  method FindCommentIn(text: string) returns (at: nat)
    ensures at == FindComment(text)
  {
    var i := 0;
    while i < |text|
      invariant 0 <= i <= |text|
      invariant forall j :: 0 <= j < i ==> !CommentAt(text, j)
      invariant 0 < i < |text| && text[i] == '#' ==> text[i - 1] != '\\'
    {
      if text[i] == '\\' && i + 1 < |text| && text[i + 1] == '#' {
        i := i + 2;
        continue;
      }
      if text[i] == '#' {
        assert CommentAt(text, i);
        return i;
      }
      i := i + 1;
    }
    return |text|;
  }

  /** An escaped '#' stands at `i`. */
  predicate EscapedAt(text: string, i: nat)
    requires i < |text|
  {
    text[i] == '\\' && i + 1 < |text| && text[i + 1] == '#'
  }

  lemma UnescapeFrom(text: string, i: nat)
    requires i < |text|
    ensures Unescape(text[i..]) ==
      if EscapedAt(text, i) then "#" + Unescape(text[i + 2..]) else [text[i]] + Unescape(text[i + 1..])
  {
    var rest := text[i..];
    assert rest[1..] == text[i + 1..];
    if EscapedAt(text, i) { assert rest[2..] == text[i + 2..]; }
  }

  lemma UnescapeEnds(text: string)
    ensures text[0..] == text && Unescape(text[|text|..]) == ""
  {
  }

  method UnescapeText(text: string) returns (out: string)
    ensures out == Unescape(text)
  {
    UnescapeEnds(text);
    hide Unescape;
    out := "";
    var i := 0;
    while i < |text|
      invariant 0 <= i <= |text|
      invariant out + Unescape(text[i..]) == Unescape(text)
    {
      UnescapeFrom(text, i);
      if text[i] == '\\' && i + 1 < |text| && text[i + 1] == '#' {
        Regrouped(out, "#", Unescape(text[i + 2..]));
        out := out + "#";
        i := i + 2;
        continue;
      }
      Regrouped(out, [text[i]], Unescape(text[i + 1..]));
      out := out + [text[i]];
      i := i + 1;
    }
  }

  lemma Regrouped(a: string, b: string, c: string)
    ensures a + (b + c) == a + b + c
  {
  }

  lemma EscapeFrom(value: string, i: nat)
    requires i < |value|
    ensures Escape(value[i..]) == (if value[i] == '#' then "\\" else "") + [value[i]] + Escape(value[i + 1..])
  {
    var rest := value[i..];
    assert rest[1..] == value[i + 1..];
    assert "\\" + ['#'] == "\\#" && "" + [value[i]] == [value[i]];
  }

  lemma EscapeEnds(value: string)
    ensures value[0..] == value && Escape(value[|value|..]) == ""
  {
  }

  method EscapeText(value: string) returns (out: string)
    ensures out == Escape(value)
  {
    EscapeEnds(value);
    hide Escape;
    out := "";
    for i := 0 to |value|
      invariant out + Escape(value[i..]) == Escape(value)
    {
      EscapeFrom(value, i);
      ghost var mark := if value[i] == '#' then "\\" else "";
      Regrouped(out, mark + [value[i]], Escape(value[i + 1..]));
      Regrouped(out, mark, [value[i]]);
      assert out + "" == out;
      if value[i] == '#' { out := out + "\\"; }
      out := out + [value[i]];
    }
  }

  lemma EscapeNeverStartsWithHash(value: string)
    ensures Escape(value) == "" <==> value == ""
    ensures value != "" ==> Escape(value)[0] == (if value[0] == '#' then '\\' else value[0])
  {
  }

  /** What the writer escapes, the reader reads back. */
  lemma {:induction false} UnescapeOfEscape(value: string)
    ensures Unescape(Escape(value)) == value
  {
    if value != "" {
      var rest := Escape(value[1..]);
      UnescapeOfEscape(value[1..]);
      EscapeNeverStartsWithHash(value[1..]);
      if value[0] == '#' {
        assert Escape(value)[2..] == rest;
      } else {
        assert Escape(value)[1..] == rest;
        assert |Escape(value)| > 1 ==> Escape(value)[1] == rest[0];
      }
    }
  }

  /** In an escaped value every '#' has its backslash, so none of them starts a comment. */
  lemma {:induction false} EscapeHidesComments(value: string)
    ensures FindComment(Escape(value)) == |Escape(value)|
    ensures forall i :: 0 <= i < |Escape(value)| && Escape(value)[i] == '#' ==> i > 0 && Escape(value)[i - 1] == '\\'
  {
    if value != "" {
      EscapeHidesComments(value[1..]);
      var head, rest := if value[0] == '#' then "\\#" else [value[0]], Escape(value[1..]);
      assert Escape(value) == head + rest;
      forall i | 0 <= i < |Escape(value)| && Escape(value)[i] == '#'
        ensures i > 0 && Escape(value)[i - 1] == '\\'
      {
        if i >= |head| { assert rest[i - |head|] == '#'; }
      }
    }
  }

  lemma {:induction false} EscapeKeepsEnds(value: string)
    ensures Trimmed(Escape(value)) <==> Trimmed(value)
    ensures forall c :: c in Escape(value) ==> c in value || c == '\\'
    ensures forall c :: c in value ==> c in Escape(value)
  {
    if value != "" {
      EscapeKeepsEnds(value[1..]);
      EscapeNeverStartsWithHash(value);
      EscapeNeverStartsWithHash(value[1..]);
      EscapeLast(value);
      var head := if value[0] == '#' then "\\#" else [value[0]];
      forall c | c in Escape(value) ensures c in value || c == '\\' {
        if c in head {} else { assert c in Escape(value[1..]); }
      }
      forall c | c in value ensures c in Escape(value) {
        if c == value[0] { assert c in head; } else { assert c in value[1..]; }
      }
    }
  }

  lemma {:induction false} EscapeLast(value: string)
    requires value != ""
    ensures Escape(value) != "" && Escape(value)[|Escape(value)| - 1] == value[|value| - 1]
  {
    if |value| > 1 { EscapeLast(value[1..]); }
  }

  lemma {:induction false} UnescapeKeepsTrimmed(text: string)
    ensures Trimmed(text) ==> Trimmed(Unescape(text))
    ensures text != "" ==> Unescape(text) != ""
    ensures text != "" && IsSpace(Unescape(text)[0]) ==> IsSpace(text[0])
    ensures text != "" && IsSpace(Unescape(text)[|Unescape(text)| - 1]) ==> IsSpace(text[|text| - 1])
    ensures forall c :: c in Unescape(text) ==> c in text
  {
    if text != "" {
      var n := if text[0] == '\\' && 1 < |text| && text[1] == '#' then 2 else 1;
      UnescapeKeepsTrimmed(text[n..]);
      assert Unescape(text) == [text[n - 1]] + Unescape(text[n..]);
      assert text[n - 1] == (if n == 2 then '#' else text[0]);
    }
  }

  // ------------------------------------------------------------- words of a directive

  predicate IsGap(c: char) { c == ' ' || c == '\t' }

  /** How far the word (`gap` false) or the gap (`gap` true) at the front of `text` reaches. */
  function Span(text: string, gap: bool): (n: nat)
    ensures n <= |text| && (forall i :: 0 <= i < n ==> IsGap(text[i]) == gap)
    ensures n < |text| ==> IsGap(text[n]) != gap
  {
    if text == "" || IsGap(text[0]) != gap then 0 else 1 + Span(text[1..], gap)
  }

  /** The words between gaps, each unescaped on its own. */
  function Words(text: string): seq<string>
    decreases |text|
  {
    if text == "" then []
    else if IsGap(text[0]) then Words(text[1..])
    else var n := Span(text, false); [Unescape(text[..n])] + Words(text[n..])
  }

  lemma {:induction false} WordsSkipGap(text: string)
    ensures Words(text) == Words(text[Span(text, true)..])
  {
    if text == "" || !IsGap(text[0]) {
      assert text[0..] == text;
    } else {
      WordsSkipGap(text[1..]);
      assert text[1..][Span(text[1..], true)..] == text[Span(text, true)..];
    }
  }

  method SpanFrom(text: string, start: nat, gap: bool) returns (position: nat)
    requires start <= |text|
    ensures position == start + Span(text[start..], gap)
  {
    position := start;
    while position < |text| && IsGap(text[position]) == gap
      invariant start <= position <= |text|
      invariant Span(text[start..], gap) == position - start + Span(text[position..], gap)
    {
      assert text[position..][1..] == text[position + 1..];
      position := position + 1;
    }
  }

  /** `split_words`: a run of gap, a run of word, over and over. */
  method SplitWords(text: string) returns (words: seq<string>)
    ensures words == Words(text)
  {
    words := [];
    var position := 0;
    while position < |text|
      invariant 0 <= position <= |text|
      invariant words + Words(text[position..]) == Words(text)
    {
      var start := SpanFrom(text, position, true);
      WordsSkip(text, position, start);
      var end := SpanFrom(text, start, false);
      if end > start {
        WordsTake(text, start, end);
        var plain := UnescapeText(text[start..end]);
        AppendMoves(words, plain, Words(text[end..]));
        words := words + [plain];
      }
      position := end;
    }
  }

  lemma AppendMoves(words: seq<string>, word: string, rest: seq<string>)
    ensures words + [word] + rest == words + ([word] + rest)
  {
  }

  lemma WordsSkip(text: string, position: nat, start: nat)
    requires position <= |text| && start == position + Span(text[position..], true)
    ensures Words(text[position..]) == Words(text[start..])
  {
    WordsSkipGap(text[position..]);
    assert text[position..][start - position..] == text[start..];
  }

  lemma WordsTake(text: string, start: nat, end: nat)
    requires start < end <= |text| && end == start + Span(text[start..], false)
    ensures Words(text[start..]) == [Unescape(text[start..end])] + Words(text[end..])
  {
    assert text[start..][..end - start] == text[start..end];
    assert text[start..][end - start..] == text[end..];
  }

  // ------------------------------------------------------------- a line of words, written and read

  /** A word that a directive can carry: not empty, and no blank in it. */
  predicate PlainWord(word: string) {
    word != "" && forall i :: 0 <= i < |word| ==> word[i] !in " \t\r"
  }

  /** Words as a line holds them, each with its '#'s escaped, one blank between two. */
  function WordsLine(words: seq<string>): string {
    if words == [] then "" else if |words| == 1 then Escape(words[0]) else Escape(words[0]) + " " + WordsLine(words[1..])
  }

  lemma SpanOfWord(word: string, rest: string)
    requires forall i :: 0 <= i < |word| ==> !IsGap(word[i])
    requires rest != "" ==> IsGap(rest[0])
    ensures Span(word + rest, false) == |word|
  {
    var text := word + rest;
    assert forall i :: 0 <= i < |word| ==> text[i] == word[i];
    assert rest != "" ==> text[|word|] == rest[0];
  }

  lemma FirstWord(word: string, rest: string)
    requires word != "" && forall i :: 0 <= i < |word| ==> !IsGap(word[i])
    requires rest != "" ==> IsGap(rest[0])
    ensures Words(word + rest) == [Unescape(word)] + Words(rest)
  {
    SpanOfWord(word, rest);
    var text := word + rest;
    assert text[..|word|] == word && text[|word|..] == rest && text[0] == word[0];
  }

  /** An escaped word is still one word, that starts and ends as it did but for the mark in front of a '#'. */
  lemma EscapedWord(word: string)
    requires PlainWord(word)
    ensures var text := Escape(word);
      && text != "" && (forall i :: 0 <= i < |text| ==> text[i] !in " \t\r") && Unescape(text) == word
      && text[0] == (if word[0] == '#' then '\\' else word[0])
      && forall i :: 0 <= i < |text| && text[i] == '#' ==> i > 0 && text[i - 1] == '\\'
  {
    EscapeKeepsEnds(word);
    UnescapeOfEscape(word);
    EscapeNeverStartsWithHash(word);
    EscapeHidesComments(word);
    hide Escape, Unescape, FindComment;
    forall i | 0 <= i < |Escape(word)| ensures Escape(word)[i] !in " \t\r" {
      assert Escape(word)[i] in Escape(word);
    }
  }

  /** Words written on a line are the words read from it. */
  lemma {:induction false} WordsReadBack(words: seq<string>)
    requires forall k :: 0 <= k < |words| ==> PlainWord(words[k])
    ensures Words(WordsLine(words)) == words
  {
    if words != [] {
      assert PlainWord(words[0]);
      EscapedWord(words[0]);
      hide PlainWord, Escape, Unescape;
      if |words| == 1 {
        FirstWord(Escape(words[0]), "");
        assert Escape(words[0]) + "" == Escape(words[0]);
      } else {
        WordsReadBack(words[1..]);
        NextWords(Escape(words[0]), WordsLine(words[1..]));
      }
    }
  }

  lemma NextWords(word: string, rest: string)
    requires word != "" && forall i :: 0 <= i < |word| ==> !IsGap(word[i])
    ensures Words(word + " " + rest) == [Unescape(word)] + Words(rest)
  {
    FirstWord(word, " " + rest);
    assert word + " " + rest == word + (" " + rest);
    assert (" " + rest)[1..] == rest;
  }

  /** A gap is a run of blanks and tabs, of any length, and anything of them in front of or behind the words is nothing. */
  lemma {:induction false} GapsDoNotMatter(gap: string, text: string)
    requires forall i :: 0 <= i < |gap| ==> gap[i] in " \t"
    ensures Words(gap + text) == Words(text)
  {
    if gap == "" {
      assert gap + text == text;
    } else {
      assert (gap + text)[1..] == gap[1..] + text;
      GapsDoNotMatter(gap[1..], text);
    }
  }

  // ------------------------------------------------------------- what a line is

  datatype ParsedLine =
    | Blank
    | Comment
    | Section(name: string)
    | Assignment(key: string, value: string, trailingComment: string)
    | Directive(text: string)
    | Malformed

  /** The first `c` in `text`, or `|text|`. */
  function Find(text: string, c: char): (at: nat)
    ensures at <= |text| && (forall i :: 0 <= i < at ==> text[i] != c)
    ensures at < |text| ==> text[at] == c
  {
    if text == "" || text[0] == c then 0 else 1 + Find(text[1..], c)
  }

  lemma FindUnique(text: string, c: char, at: nat)
    requires at <= |text| && (forall i :: 0 <= i < at ==> text[i] != c) && (at < |text| ==> text[at] == c)
    ensures Find(text, c) == at
  {
  }

  predicate StartsWithWord(body: string, word: string) {
    |body| > |word| && body[..|word|] == word && IsGap(body[|word|])
  }

  function ParseLine(line: string): ParsedLine {
    ParseBody(Trim(line))
  }

  function ParseBody(body: string): ParsedLine {
    if body == "" then Blank
    else if body[0] == '#' then Comment
    else if StartsWithWord(body, "bind") || StartsWithWord(body, "unbind") then
      Directive(Trim(body[..FindComment(body)]))
    else if body[0] == '[' then
      var close := Find(body, ']');
      if close == |body| then Malformed else Section(Trim(body[1..close]))
    else
      var equals := Find(body, '=');
      if equals == |body| then Malformed
      else
        var value := body[equals + 1..];
        var hash := FindComment(value);
        Assignment(Trim(body[..equals]), Trim(value[..hash]), if hash < |value| then Trim(value[hash..]) else "")
  }

  // ------------------------------------------------------------- what is writable

  /** A key that a written `key = value` line reads back as. */
  predicate LegalKey(key: string) {
    && Trimmed(key) && '=' !in key
    && (key != "" ==> key[0] != '#' && key[0] != '[')
    && key != "bind" && key != "unbind"
    && !StartsWithWord(key, "bind") && !StartsWithWord(key, "unbind")
  }

  /** A section name that a written `[name]` line reads back as. */
  predicate LegalSection(name: string) {
    Trimmed(name) && ']' !in name
  }

  function AssignmentLine(key: string, value: string): string {
    key + " = " + Escape(value)
  }

  function HeaderLine(name: string): string {
    "[" + name + "]"
  }

  /** Every key a line can be read as assigning is legal, but for the two directive words. */
  lemma ParsedAssignmentShape(line: string)
    requires ParseLine(line).Assignment?
    ensures var p := ParseLine(line);
      && (p.key == "bind" || p.key == "unbind" || LegalKey(p.key)) && Trimmed(p.value)
      && (p.trailingComment != "" ==> Trimmed(p.trailingComment) && p.trailingComment[0] == '#')
  {
    hide Trim, FindComment, LegalKey, StartsWithWord;
    var body := Trim(line);
    TrimIsTrimmed(line);
    var equals := Find(body, '=');
    var rest := body[equals + 1..];
    var hash := FindComment(rest);
    TrimIsTrimmed(rest[..hash]);
    ParsedKeyShape(body, equals);
    if hash < |rest| {
      CommentKeepsHash(rest[hash..]);
    }
  }

  lemma ParsedSectionShape(line: string)
    requires ParseLine(line).Section?
    ensures LegalSection(ParseLine(line).name)
  {
    var body := Trim(line);
    var inner := body[1..Find(body, ']')];
    TrimIsTrimmed(inner);
  }

  lemma ParsedKeyShape(body: string, equals: nat)
    requires Trimmed(body) && equals < |body| && body[equals] == '=' && (forall i :: 0 <= i < equals ==> body[i] != '=')
    requires body[0] != '#' && body[0] != '['
    requires !StartsWithWord(body, "bind") && !StartsWithWord(body, "unbind")
    ensures var key := Trim(body[..equals]); key == "bind" || key == "unbind" || LegalKey(key)
  {
    var front := body[..equals];
    var key := Trim(front);
    TrimIsTrimmed(front);
    if key != "" {
      assert Lead(front) == 0 by { assert front[0] == body[0]; }
      assert key == body[..|key|];
      WordIsFront(body, key, "bind");
      WordIsFront(body, key, "unbind");
    }
  }

  lemma WordIsFront(body: string, key: string, word: string)
    requires key <= body
    ensures StartsWithWord(key, word) ==> StartsWithWord(body, word)
  {
    if StartsWithWord(key, word) {
      assert body[..|word|] == key[..|word|];
    }
  }

  lemma CommentKeepsHash(text: string)
    requires text != "" && text[0] == '#'
    ensures Trimmed(Trim(text)) && Trim(text) != "" && Trim(text)[0] == '#'
  {
    TrimIsTrimmed(text);
    assert Lead(text) == 0;
    assert Stay(text) > 0;
  }

  /** What is kept behind a rewritten value. */
  function CommentTail(comment: string): string {
    if comment == "" then "" else "  " + comment
  }

  /** What a line written for a legal key and a trimmed value is read as, with or without a kept comment. */
  lemma WrittenAssignmentReadsBack(key: string, value: string, comment: string)
    requires LegalKey(key) && Trimmed(value)
    requires comment != "" ==> Trimmed(comment) && comment[0] == '#'
    ensures ParseLine(AssignmentLine(key, value) + CommentTail(comment)) == Assignment(key, Escape(value), comment)
  {
    // Trimming takes at most the blank in front of "=" when the key is empty, and the one behind it when the rest is.
    var esc := Escape(value);
    var head := if key == "" then "" else key + " ";
    var rest := if esc == "" && comment == "" then "" else " " + esc + CommentTail(comment);
    var body := head + "=" + rest;
    var front, back := if key == "" then " " else "", if rest == "" then " " else "";
    assert front + head == key + " ";
    assert rest + back == " " + esc + CommentTail(comment);
    WrittenLineShape(key, esc, CommentTail(comment), front, head, rest, back);
    EscapeKeepsEnds(value);
    BodyIsTrimmed(key, esc, comment, head, rest);
    TrimOfPadded(front, body, back);
    BodyReadsBack(key, value, comment, head, rest, body);
  }

  lemma WrittenLineShape(key: string, esc: string, tail: string,
                         front: string, head: string, rest: string, back: string)
    requires front + head == key + " " && rest + back == " " + esc + tail
    ensures key + " = " + esc + tail == front + (head + "=" + rest) + back
  {
    assert key + " = " + esc + tail == (key + " ") + "=" + (" " + esc + tail);
    assert (front + head) + "=" + (rest + back) == front + (head + "=" + rest) + back;
  }

  lemma BodyIsTrimmed(key: string, esc: string, comment: string, head: string, rest: string)
    requires Trimmed(key) && Trimmed(esc) && (comment != "" ==> Trimmed(comment))
    requires head == if key == "" then "" else key + " "
    requires rest == if esc == "" && comment == "" then "" else " " + esc + CommentTail(comment)
    ensures Trimmed(head + "=" + rest)
  {
    var front := head + "=";
    FrontStarts(key, head);
    hide Trimmed, IsSpace;
    if comment != "" {
      TrimmedHasEnds(comment);
      Regrouped(" " + esc, "  ", comment);
      TrimmedBetween(front, " " + esc + "  ", comment);
    } else if esc != "" {
      TrimmedHasEnds(esc);
      assert rest == " " + esc;
      TrimmedBetween(front, " ", esc);
    } else {
      assert front + "" == front;
    }
  }

  /** A line starts with its key, or with its equals sign. */
  lemma FrontStarts(key: string, head: string)
    requires Trimmed(key) && head == if key == "" then "" else key + " "
    ensures var front := head + "="; front != "" && !IsSpace(front[0]) && Trimmed(front)
  {
  }

  lemma TrimmedHasEnds(text: string)
    requires Trimmed(text) && text != ""
    ensures !IsSpace(text[|text| - 1])
  {
  }

  lemma TrimmedBetween(front: string, gap: string, last: string)
    requires front != "" && !IsSpace(front[0]) && last != "" && !IsSpace(last[|last| - 1])
    ensures Trimmed(front + (gap + last))
  {
  }

  lemma BodyReadsBack(key: string, value: string, comment: string, head: string, rest: string, body: string)
    requires LegalKey(key) && Trimmed(value)
    requires comment != "" ==> Trimmed(comment) && comment[0] == '#'
    requires head == (if key == "" then "" else key + " ") && body == head + "=" + rest
    requires rest == if Escape(value) == "" && comment == "" then "" else " " + Escape(value) + CommentTail(comment)
    ensures ParseBody(body) == Assignment(key, Escape(value), comment)
  {
    BodySplits(key, head, rest, body);
    RestReadsBack(value, comment, rest);
  }

  lemma BodySplits(key: string, head: string, rest: string, body: string)
    requires LegalKey(key)
    requires head == (if key == "" then "" else key + " ") && body == head + "=" + rest
    ensures body != "" && body[0] != '#' && body[0] != '[' && Find(body, '=') == |head| < |body|
    ensures !StartsWithWord(body, "bind") && !StartsWithWord(body, "unbind")
    ensures Trim(body[..|head|]) == key && body[|head| + 1..] == rest
  {
    DirectiveWordIsKey(key, head, rest, body, "bind");
    DirectiveWordIsKey(key, head, rest, body, "unbind");
    HeadReadsBack(key, head);
    hide Trim, StartsWithWord, Trimmed;
    assert body[0] == (if key == "" then '=' else key[0]);
    assert forall i :: 0 <= i < |head| ==> body[i] == head[i];
    assert body[|head|] == '=';
    FindUnique(body, '=', |head|);
    assert body[..|head|] == head;
  }

  lemma HeadReadsBack(key: string, head: string)
    requires Trimmed(key) && head == if key == "" then "" else key + " "
    ensures Trim(head) == key
  {
    assert head[..|key|] == key;
    TrimIs(head, 0, |key|);
  }

  /** A written line opens with a directive word only if its key does. */
  lemma DirectiveWordIsKey(key: string, head: string, rest: string, body: string, word: string)
    requires head == (if key == "" then "" else key + " ") && body == head + "=" + rest
    requires word == "bind" || word == "unbind"
    ensures StartsWithWord(body, word) ==> key == word || StartsWithWord(key, word)
  {
    if StartsWithWord(body, word) {
      assert body[|head|] == '=';
      assert |head| > |word| by {
        assert '=' != 'b' && '=' != 'i' && '=' != 'n' && '=' != 'd' && '=' != 'u';
        assert forall i :: 0 <= i < |word| ==> body[i] == word[i];
      }
      assert body[|word|] == head[|word|];
      assert key[..|word|] == body[..|word|];
      if |key| == |word| { assert key[..|word|] == key; }
    }
  }

  lemma RestReadsBack(value: string, comment: string, rest: string)
    requires Trimmed(value) && (comment != "" ==> Trimmed(comment) && comment[0] == '#')
    requires rest == if Escape(value) == "" && comment == "" then "" else " " + Escape(value) + CommentTail(comment)
    ensures var hash := FindComment(rest);
      Trim(rest[..hash]) == Escape(value) && (if hash < |rest| then Trim(rest[hash..]) else "") == comment
  {
    EscapeHidesComments(value);
    EscapeKeepsEnds(value);
    hide Escape, Trim, Trimmed, FindComment, CommentTail;
    if comment != "" {
      CommentedReadsBack(Escape(value), comment, rest);
    } else if Escape(value) != "" {
      NoTail();
      assert " " + Escape(value) + "" == " " + Escape(value);
      SplitWithoutComment(Escape(value), rest);
    } else {
      NothingToRead();
    }
  }

  lemma NoTail()
    ensures CommentTail("") == ""
  {
  }

  lemma CommentedReadsBack(esc: string, comment: string, rest: string)
    requires comment != "" && comment[0] == '#' && Trimmed(comment) && Trimmed(esc) && rest == " " + esc + CommentTail(comment)
    requires forall i :: 0 <= i < |esc| && esc[i] == '#' ==> i > 0 && esc[i - 1] == '\\'
    ensures var hash := FindComment(rest); hash < |rest| && Trim(rest[..hash]) == esc && Trim(rest[hash..]) == comment
  {
    hide Trim, Trimmed, FindComment;
    TrimIsTrimmed(comment);
    Shape(esc, "  ", comment);
    SplitAtComment(esc, comment, rest);
  }

  lemma NothingToRead()
    ensures FindComment("") == 0 && Trim("") == "" && Trim(""[..0]) == ""
  {
  }

  lemma Shape(esc: string, gap: string, comment: string)
    ensures var rest := " " + esc + (gap + comment); var n := 1 + |esc|;
      |rest| == n + |gap| + |comment| && rest[1..n] == esc && rest[n..n + |gap|] == gap && rest[n + |gap|..] == comment
  {
  }

  lemma SplitWithoutComment(esc: string, rest: string)
    requires Trimmed(esc) && rest == " " + esc
    requires forall i :: 0 <= i < |esc| && esc[i] == '#' ==> i > 0 && esc[i - 1] == '\\'
    ensures FindComment(rest) == |rest| && Trim(rest[..|rest|]) == esc
  {
    assert forall i :: 0 < i < |rest| ==> rest[i] == esc[i - 1];
    assert forall i :: 0 <= i < |rest| ==> !CommentAt(rest, i);
    assert rest[..|rest|] == rest && rest[1..|rest|] == esc;
    TrimIs(rest, 1, |rest|);
  }

  lemma SplitAtComment(esc: string, comment: string, rest: string)
    requires Trimmed(esc) && comment != "" && comment[0] == '#'
    requires var n := 1 + |esc|;
      |rest| == n + 2 + |comment| && rest[0] == ' ' && rest[1..n] == esc && rest[n..n + 2] == "  " && rest[n + 2..] == comment
    requires forall i :: 0 <= i < |esc| && esc[i] == '#' ==> i > 0 && esc[i - 1] == '\\'
    ensures FindComment(rest) == 3 + |esc| && Trim(rest[..3 + |esc|]) == esc
  {
    var n := 1 + |esc|;
    assert forall i :: 0 < i < n ==> rest[i] == esc[i - 1];
    assert rest[n] == rest[n..n + 2][0] && rest[n + 1] == rest[n..n + 2][1] && rest[n + 2] == rest[n + 2..][0];
    assert CommentAt(rest, n + 2);
    assert forall i :: 0 <= i < n + 2 ==> !CommentAt(rest, i);
    assert rest[..n + 2][1..n] == esc;
    TrimIs(rest[..n + 2], 1, n);
  }

  lemma LegalHeaderReadsBack(name: string)
    requires LegalSection(name)
    ensures ParseLine(HeaderLine(name)) == Section(name)
  {
    var line := HeaderLine(name);
    assert line[0] == '[' && line[|name| + 1] == ']';
    assert forall i :: 0 <= i < |name| ==> line[i + 1] == name[i];
    assert Trim(line) == line by { TrimIsTrimmed(line); }
    FindUnique(line, ']', |name| + 1);
    NotAWord(line, "bind");
    NotAWord(line, "unbind");
    assert line[1..|name| + 1] == name;
    TrimIsTrimmed(name);
  }

  lemma NotAWord(body: string, word: string)
    requires body != "" && word != "" && body[0] != word[0]
    ensures !StartsWithWord(body, word)
  {
    if |body| > |word| { assert body[..|word|][0] == body[0]; }
  }

  /** A written header line is read as its section exactly when the name is legal. */
  lemma HeaderReadsBack(name: string)
    ensures ParseLine(HeaderLine(name)) == Section(name) <==> LegalSection(name)
  {
    if ParseLine(HeaderLine(name)) == Section(name) {
      ParsedSectionShape(HeaderLine(name));
    }
    if LegalSection(name) {
      LegalHeaderReadsBack(name);
    }
  }

  /** A written assignment is read back as itself exactly when the key is legal and the value trimmed. */
  lemma AssignmentReadsBack(key: string, value: string)
    ensures ParseLine(AssignmentLine(key, value)) == Assignment(key, Escape(value), "")
       <==> LegalKey(key) && Trimmed(value)
  {
    if LegalKey(key) && Trimmed(value) {
      WrittenAssignmentReadsBack(key, value, "");
      assert AssignmentLine(key, value) + CommentTail("") == AssignmentLine(key, value);
    }
    if ParseLine(AssignmentLine(key, value)) == Assignment(key, Escape(value), "") {
      ParsedAssignmentShape(AssignmentLine(key, value));
      EscapeKeepsEnds(value);
      assert AssignmentLine(key, value) + "" == AssignmentLine(key, value);
      if key == "bind" || key == "unbind" { DirectiveWordIsNotAKey(key, value, ""); }
    }
  }

  /** The two keys `save_setting` cannot store: what it writes for them is a directive. */
  lemma DirectiveWordIsNotAKey(word: string, value: string, tail: string)
    requires word == "bind" || word == "unbind"
    ensures ParseLine(AssignmentLine(word, value) + tail).Directive?
  {
    var line := AssignmentLine(word, value) + tail;
    assert forall i :: 0 <= i < |word| ==> line[i] == word[i];
    assert line[|word|] == ' ' && line[|word| + 1] == '=' && Lead(line) == 0;
    assert Stay(line) > |word| + 1;
    assert Trim(line)[..|word|] == word && Trim(line)[|word|] == ' ';
  }

  // ------------------------------------------------------------- a directive, written and read

  /** No '#' of such a line is bare, and it starts and ends in a word. */
  predicate Clean(line: string) {
    && line != "" && line[0] !in " \t\r#" && line[|line| - 1] !in " \t\r"
    && forall i :: 0 <= i < |line| && line[i] == '#' ==> i > 0 && line[i - 1] == '\\'
  }

  lemma CleanJoins(front: string, rest: string)
    requires Clean(front) && Clean(rest)
    ensures Clean(front + " " + rest)
  {
    var line := front + " " + rest;
    forall i | 0 <= i < |line| && line[i] == '#' ensures i > 0 && line[i - 1] == '\\' {
      if i > |front| { assert rest[i - |front| - 1] == '#'; }
    }
  }

  lemma {:induction false} WordsLineIsClean(words: seq<string>)
    requires words != [] && forall k :: 0 <= k < |words| ==> PlainWord(words[k])
    ensures Clean(WordsLine(words))
  {
    assert PlainWord(words[0]);
    EscapedWord(words[0]);
    hide PlainWord, Escape;
    assert Clean(Escape(words[0]));
    if |words| > 1 {
      WordsLineIsClean(words[1..]);
      CleanJoins(Escape(words[0]), WordsLine(words[1..]));
    }
  }

  lemma EscapeOfPlain(word: string)
    requires '#' !in word
    ensures Escape(word) == word
  {
    if word != "" { EscapeOfPlain(word[1..]); }
  }

  /** A line with no bare '#' that starts with the word is a directive, whole. */
  lemma CleanDirective(line: string, word: string, rest: string)
    requires Clean(line) && line == word + " " + rest && (word == "bind" || word == "unbind")
    ensures ParseLine(line) == Directive(line)
  {
    assert line[0..|line|] == line;
    TrimIs(line, 0, |line|);
    assert FindComment(line) == |line| && line[..|line|] == line;
    assert line[..|word|] == word && line[|word|] == ' ';
    hide Trim, FindComment;
    assert StartsWithWord(line, word);
  }

  /** A written `bind` or `unbind` line is read as a directive of just those words. */
  lemma DirectiveReadsBack(words: seq<string>)
    requires |words| >= 2 && (words[0] == "bind" || words[0] == "unbind")
    requires forall k :: 0 <= k < |words| ==> PlainWord(words[k])
    ensures ParseLine(WordsLine(words)) == Directive(WordsLine(words)) && Words(WordsLine(words)) == words
  {
    hide *;
    WordsReadBack(words);
    WordsLineIsClean(words);
    DirectiveWordStays(words[0]);
    LineStarts(words);
    CleanDirective(WordsLine(words), words[0], WordsLine(words[1..]));
  }

  lemma LineStarts(words: seq<string>)
    requires |words| >= 2
    ensures WordsLine(words) == Escape(words[0]) + " " + WordsLine(words[1..])
  {
  }

  lemma DirectiveWordStays(word: string)
    requires word == "bind" || word == "unbind"
    ensures Escape(word) == word
  {
    assert forall i :: 0 <= i < |word| ==> word[i] != '#';
    EscapeOfPlain(word);
  }

  // ------------------------------------------------------------- what a line is, piece by piece

  /** The body of a line begins with the word and a blank. */
  predicate Begins(body: string, word: string) {
    |word| < |body| && (forall i :: 0 <= i < |word| ==> body[i] == word[i]) && (body[|word|] == ' ' || body[|word|] == '\t')
  }

  predicate IsDirective(body: string) {
    body != "" && body[0] != '#' && (Begins(body, "bind") || Begins(body, "unbind"))
  }

  lemma BeginsIs(body: string, word: string)
    ensures Begins(body, word) <==> StartsWithWord(body, word)
  {
    if Begins(body, word) { assert body[..|word|] == word; }
  }

  /** Which lines are which: nothing, a comment, a directive, or what could not be read. */
  lemma KindsOfLines(line: string)
    ensures var body := Trim(line);
      && (ParseLine(line).Blank? <==> body == "")
      && (ParseLine(line).Comment? <==> body != "" && body[0] == '#')
      && (ParseLine(line).Directive? <==> IsDirective(body))
      && (ParseLine(line).Malformed? <==>
            && body != "" && body[0] != '#' && !IsDirective(body)
            && if body[0] == '[' then ']' !in body else '=' !in body)
  {
    var body := Trim(line);
    BeginsIs(body, "bind");
    BeginsIs(body, "unbind");
    hide Trim, Begins, StartsWithWord, FindComment;
    if body != "" { InIsFound(body, if body[0] == '[' then ']' else '='); }
  }

  lemma InIsFound(text: string, c: char)
    ensures Find(text, c) == |text| <==> c !in text
  {
    var at := Find(text, c);
    hide Find;
  }

  /** A header is read as what stands in front of its first `]`, whatever stands behind it. */
  lemma HeaderIs(line: string, name: string, rest: string)
    requires Trim(line) == "[" + name + "]" + rest && ']' !in name
    ensures ParseLine(line) == Section(Trim(name))
  {
    var body := Trim(line);
    assert body[0] == '[' && body[|name| + 1] == ']' && forall i :: 0 < i < |name| + 1 ==> body[i] == name[i - 1];
    FindUnique(body, ']', |name| + 1);
    assert body[1..|name| + 1] == name;
    NotAWordThere(body);
    hide Trim, FindComment, Find;
  }

  lemma NotAWordThere(body: string)
    requires body != "" && body[0] == '['
    ensures !StartsWithWord(body, "bind") && !StartsWithWord(body, "unbind")
  {
    assert |body| > 4 ==> body[..4][0] == '[';
    assert |body| > 6 ==> body[..6][0] == '[';
  }

  /** A text in two: what stands in front of its first `#` without a backslash, and the rest. */
  predicate CommentParts(text: string, front: string, comment: string) {
    && text == front + comment
    && (forall i :: 0 <= i < |front| ==> !CommentAt(text, i)) && (comment != "" ==> CommentAt(text, |front|))
  }

  lemma CommentFound(text: string, front: string, comment: string)
    requires CommentParts(text, front, comment)
    ensures FindComment(text) == |front| && text[..|front|] == front && text[|front|..] == comment
  {
    var at := FindComment(text);
    hide FindComment;
    assert at == |front|;
  }

  lemma KeyFound(body: string, key: string, rest: string)
    requires body == key + "=" + rest && '=' !in key
    ensures Find(body, '=') == |key| && body[..|key|] == key && body[|key| + 1..] == rest
  {
    assert body == key + ("=" + rest);
    assert body[|key|] == '=' && forall i :: 0 <= i < |key| ==> body[i] == key[i];
    FindUnique(body, '=', |key|);
  }

  /**
   An assignment is read as what stands in front of its first `=`, and what stands between that and its first comment,
   blanks around them apart; the comment is kept.
   */
  lemma AssignmentIs(line: string, key: string, rest: string, value: string, comment: string)
    requires Trim(line) == key + "=" + rest && '=' !in key && !IsDirective(Trim(line))
    requires key != "" ==> key[0] != '#' && key[0] != '['
    requires CommentParts(rest, value, comment)
    ensures ParseLine(line) == Assignment(Trim(key), Trim(value), if comment == "" then "" else Trim(comment))
  {
    var body := Trim(line);
    assert body[0] == if key == "" then '=' else key[0];
    KeyFound(body, key, rest);
    BeginsIs(body, "bind");
    BeginsIs(body, "unbind");
    CommentFound(rest, value, comment);
    hide Trim, FindComment, Find, CommentParts, Begins, StartsWithWord;
  }

  /** A directive is all of its line that stands in front of its first comment. */
  lemma DirectiveIs(line: string, text: string, comment: string)
    requires CommentParts(Trim(line), text, comment) && IsDirective(Trim(line))
    ensures ParseLine(line) == Directive(Trim(text))
  {
    var body := Trim(line);
    BeginsIs(body, "bind");
    BeginsIs(body, "unbind");
    CommentFound(body, text, comment);
    hide Trim, FindComment, CommentParts, Begins, StartsWithWord;
  }
}
