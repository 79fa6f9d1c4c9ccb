/**
 Reading a captured print job as text (src/client/printer_output.cpp): the control functions go, what a person
 would read stays. A scanner that jumps from sequence to sequence, and the byte-fed automaton it amounts to.
 */
module Printer {
  const ESC := 0x1B as char
  const BEL := 0x07 as char
  const FORM_FEED := 0x0C as char
  const DEL := 0x7F as char

  // ------------------------------------------------------------- the automaton

  /** Between sequences; after an escape; in a control sequence; in a string, and after an escape in one. */
  datatype State =
    | Ground
    | Escaped
    | Control
    | String(belEnds: bool)
    | StringEscaped(belEnds: bool)

  predicate IsFinal(byte: char) {
    0x40 as char <= byte <= 0x7E as char
  }

  predicate OpensString(byte: char) {
    byte == ']' || byte == 'P' || byte == 'X' || byte == '^' || byte == '_'
  }

  function Next(state: State, byte: char): State {
    match state
    case Ground => if byte == ESC then Escaped else Ground
    case Escaped => if byte == '[' then Control else if OpensString(byte) then String(byte == ']') else Ground
    case Control => if IsFinal(byte) then Ground else Control
    case String(belEnds) => InString(belEnds, byte)
    case StringEscaped(belEnds) => if byte == '\\' then Ground else InString(belEnds, byte)
  }

  function InString(belEnds: bool, byte: char): State {
    if belEnds && byte == BEL then Ground else if byte == ESC then StringEscaped(belEnds) else String(belEnds)
  }

  /** What is kept of a byte: only bytes between sequences, no control bytes but line breaks and tabs. */
  function Kept(state: State, byte: char): string {
    if state != Ground then ""
    else if byte == FORM_FEED then "\n"
    else if Readable(byte) then [byte]
    else ""
  }

  predicate Readable(byte: char) {
    byte == '\n' || byte == '\t' || (byte >= ' ' && byte != DEL)
  }

  function Run(state: State, bytes: string): State
    decreases |bytes|
  {
    if bytes == "" then state else Run(Next(state, bytes[0]), bytes[1..])
  }

  function Output(state: State, bytes: string): string
    decreases |bytes|
  {
    if bytes == "" then "" else Kept(state, bytes[0]) + Output(Next(state, bytes[0]), bytes[1..])
  }

  function Text(job: string): string {
    Output(Ground, job)
  }

  // ------------------------------------------------------------- the scanner

  lemma OneByte(state: State, job: string, at: nat)
    requires at < |job|
    ensures Output(state, job[at..]) == Kept(state, job[at]) + Output(Next(state, job[at]), job[at + 1..])
  {
    assert job[at..][1..] == job[at + 1..];
  }

  lemma NoBytes(state: State, job: string)
    ensures Output(state, job[|job|..]) == ""
  {
  }

  /** One past the end of a string sequence, or the end of the job for one that was never closed. */
  method EndOfString(job: string, start: nat, belEnds: bool) returns (end: nat)
    requires start <= |job|
    ensures start <= end <= |job| && Output(String(belEnds), job[start..]) == Output(Ground, job[end..])
  {
    end := start;
    ghost var state := String(belEnds);
    NoBytes(Ground, job);
    NoBytes(String(belEnds), job);
    NoBytes(StringEscaped(belEnds), job);
    hide Output;
    while end < |job|
      invariant start <= end <= |job|
      invariant state == String(belEnds) || (state == StringEscaped(belEnds) && end < |job| ==> job[end] != '\\')
      invariant state == String(belEnds) || state == StringEscaped(belEnds)
      invariant Output(String(belEnds), job[start..]) == Output(state, job[end..])
    {
      OneByte(state, job, end);
      if belEnds && job[end] == BEL { return end + 1; }
      if job[end] == ESC && end + 1 < |job| && job[end + 1] == '\\' {
        OneByte(StringEscaped(belEnds), job, end + 1);
        return end + 2;
      }
      state := if job[end] == ESC then StringEscaped(belEnds) else String(belEnds);
      end := end + 1;
    }
  }

  /** One past the end of a control sequence. */
  method EndOfControl(job: string, start: nat) returns (end: nat)
    requires start <= |job|
    ensures start <= end <= |job| && Output(Control, job[start..]) == Output(Ground, job[end..])
  {
    end := start;
    NoBytes(Ground, job);
    NoBytes(Control, job);
    hide Output;
    while end < |job| && !IsFinal(job[end])
      invariant start <= end <= |job| && Output(Control, job[start..]) == Output(Control, job[end..])
    {
      OneByte(Control, job, end);
      end := end + 1;
    }
    if end < |job| {
      OneByte(Control, job, end);
      end := end + 1;
    }
  }

  /** What the automaton does with the next byte between sequences. */
  lemma FromGround(job: string, at: nat)
    requires at < |job|
    ensures var byte, rest := job[at], Output(Ground, job[at..]);
      && (byte == ESC && at + 1 == |job| ==> rest == "")
      && (byte == ESC && at + 1 < |job| ==> rest == Output(Next(Escaped, job[at + 1]), job[at + 2..]))
      && (byte == ESC && at + 1 < |job| && job[at + 1] == '[' ==> rest == Output(Control, job[at + 2..]))
      && (byte == ESC && at + 1 < |job| && OpensString(job[at + 1]) ==>
            rest == Output(String(job[at + 1] == ']'), job[at + 2..]))
      && (byte == ESC && at + 1 < |job| && job[at + 1] != '[' && !OpensString(job[at + 1]) ==>
            rest == Output(Ground, job[at + 2..]))
      && (byte == FORM_FEED ==> rest == "\n" + Output(Ground, job[at + 1..]))
      && (byte != ESC && byte != FORM_FEED && Readable(byte) ==> rest == [byte] + Output(Ground, job[at + 1..]))
      && (byte != ESC && byte != FORM_FEED && !Readable(byte) ==> rest == Output(Ground, job[at + 1..]))
  {
    OneByte(Ground, job, at);
    NoBytes(Escaped, job);
    if at + 1 < |job| { OneByte(Escaped, job, at + 1); }
    hide Output;
  }

  /** One past the sequence that an escape opens. */
  method EndOfEscape(job: string, at: nat) returns (end: nat)
    requires at + 1 < |job| && job[at] == ESC
    ensures at < end <= |job| && Output(Ground, job[at..]) == Output(Ground, job[end..])
  {
    FromGround(job, at);
    hide Output, Next;
    var kind := job[at + 1];
    if kind == '[' {
      end := EndOfControl(job, at + 2);
    } else if kind == ']' {
      end := EndOfString(job, at + 2, true);
    } else if kind == 'P' || kind == 'X' || kind == '^' || kind == '_' {
      end := EndOfString(job, at + 2, false);
    } else {
      end := at + 2;
    }
  }

  lemma Joins(a: string, b: string, c: string)
    ensures a + (b + c) == a + b + c
  {
  }

  /** `print_job_as_text`: the scanner reads every job as the automaton does. */
  method PrintJobAsText(job: string) returns (plain: string)
    ensures plain == Text(job)
  {
    plain := "";
    var at := 0;
    NoBytes(Ground, job);
    assert job[0..] == job;
    hide Output, Next, Kept;
    while at < |job|
      invariant at <= |job| && Text(job) == plain + Output(Ground, job[at..])
      decreases |job| - at
    {
      var byte := job[at];
      FromGround(job, at);
      Joins(plain, [byte], Output(Ground, job[at + 1..]));
      Joins(plain, "\n", Output(Ground, job[at + 1..]));
      if byte == ESC {
        if at + 1 >= |job| { break; }
        at := EndOfEscape(job, at);
        continue;
      }
      if byte == '\n' || byte == '\t' {
        plain := plain + [byte];
        at := at + 1;
        continue;
      }
      if byte == FORM_FEED {
        plain := plain + "\n";
        at := at + 1;
        continue;
      }
      if byte == '\r' {
        at := at + 1;
        continue;
      }
      if byte < ' ' || byte == DEL {
        at := at + 1;
        continue;
      }
      plain := plain + [byte];
      at := at + 1;
    }
  }

  // ------------------------------------------------------------- what it keeps

  /** Jobs read one after another read as one, from whatever state the first leaves. */
  lemma {:induction false} OutputJoins(state: State, first: string, second: string)
    ensures Output(state, first + second) == Output(state, first) + Output(Run(state, first), second)
    ensures Run(state, first + second) == Run(Run(state, first), second)
    decreases |first|
  {
    hide Kept, Next;
    if first == "" {
      assert first + second == second;
    } else {
      OutputJoins(Next(state, first[0]), first[1..], second);
      assert (first + second)[1..] == first[1..] + second;
    }
  }

  /** A job may be cut wherever no sequence is under way. */
  lemma GroundSplits(first: string, second: string)
    requires Run(Ground, first) == Ground
    ensures Text(first + second) == Text(first) + Text(second)
  {
    OutputJoins(Ground, first, second);
  }

  predicate Clean(text: string) {
    forall i :: 0 <= i < |text| ==> Readable(text[i])
  }

  lemma {:induction false} OutputIsClean(state: State, bytes: string)
    ensures Clean(Output(state, bytes))
    decreases |bytes|
  {
    if bytes != "" { OutputIsClean(Next(state, bytes[0]), bytes[1..]); }
  }

  lemma {:induction false} CleanTextStays(text: string)
    requires Clean(text)
    ensures Text(text) == text && Run(Ground, text) == Ground
  {
    if text != "" { CleanTextStays(text[1..]); }
  }

  /** A job is its own text exactly if there is nothing in it to remove. */
  lemma OwnText(job: string)
    ensures Text(job) == job <==> Clean(job)
  {
    OutputIsClean(Ground, job);
    if Clean(job) { CleanTextStays(job); }
  }

  /** Reading the text again changes nothing. */
  lemma TextOfText(job: string)
    ensures Text(Text(job)) == Text(job)
  {
    OutputIsClean(Ground, job);
    CleanTextStays(Text(job));
  }

  /**
   A control sequence goes whole: the introducer, any parameters and intermediates, and its final byte, which is
   one from 4/0 to 7/14 (section 5.4 of ECMA-48).
   */
  lemma ControlSequenceGoes(before: string, parameters: string, final: char, after: string)
    requires Run(Ground, before) == Ground && 0x40 as char <= final <= 0x7E as char
    requires forall i :: 0 <= i < |parameters| ==> !(0x40 as char <= parameters[i] <= 0x7E as char)
    ensures Text(before + ([0x1B as char, '['] + parameters + [final]) + after) == Text(before) + Text(after)
  {
    InControl(parameters, final);
    FromBracket(parameters + [final]);
    hide Output, Run;
    assert [ESC, '['] + parameters + [final] == [ESC, '['] + (parameters + [final]);
    Vanishes(before, [ESC, '['] + parameters + [final], after);
  }

  lemma FromBracket(rest: string)
    ensures Output(Ground, [ESC, '['] + rest) == Output(Control, rest) && Run(Ground, [ESC, '['] + rest) == Run(Control, rest)
  {
    var sequence := [ESC, '['] + rest;
    assert sequence[1..] == ['['] + rest && (['['] + rest)[1..] == rest;
  }

  /** A sequence that says nothing and ends where it began might as well not be there. */
  lemma Vanishes(before: string, sequence: string, after: string)
    requires Run(Ground, before) == Ground && Output(Ground, sequence) == "" && Run(Ground, sequence) == Ground
    ensures Text(before + sequence + after) == Text(before) + Text(after)
  {
    hide Output, Run;
    OutputJoins(Ground, before + sequence, after);
    OutputJoins(Ground, before, sequence);
    assert Output(Ground, before) + "" == Output(Ground, before);
  }

  lemma {:induction false} InControl(parameters: string, final: char)
    requires IsFinal(final) && forall i :: 0 <= i < |parameters| ==> !IsFinal(parameters[i])
    ensures Output(Control, parameters + [final]) == "" && Run(Control, parameters + [final]) == Ground
  {
    var all := parameters + [final];
    if parameters == "" {
      assert all[1..] == "";
    } else {
      assert all[1..] == parameters[1..] + [final];
      InControl(parameters[1..], final);
    }
  }

  /** Content that does not end its string: no ST in it, and no BEL where that ends one too. */
  predicate Unended(belEnds: bool, content: string) {
    forall i :: 0 <= i < |content| ==>
      && !(belEnds && content[i] == BEL)
      && !(content[i] == ESC && i + 1 < |content| && content[i + 1] == '\\')
  }

  /**
   A string goes whole: from its opener (DCS, SOS, OSC, PM or APC, section 5.6 of ECMA-48) to ST, or for an
   operating system command to BEL as well.
   */
  lemma StringGoes(before: string, opener: char, content: string, bel: bool, after: string)
    requires Run(Ground, before) == Ground && (bel ==> opener == ']')
    requires opener == 'P' || opener == 'X' || opener == ']' || opener == '^' || opener == '_'
    requires Unended(opener == ']', content)
    ensures Text(before + ([0x1B as char, opener] + content + if bel then [0x07 as char] else [0x1B as char, '\\']) + after)
      == Text(before) + Text(after)
  {
    var end := if bel then [BEL] else [ESC, '\\'];
    var sequence := [ESC, opener] + content + end;
    InStringContent(opener == ']', false, content, bel);
    FromEscape(opener, content + end);
    assert sequence == [ESC, opener] + (content + end);
    Vanishes(before, sequence, after);
  }

  lemma FromEscape(opener: char, rest: string)
    requires OpensString(opener)
    ensures Output(Ground, [ESC, opener] + rest) == Output(String(opener == ']'), rest)
    ensures Run(Ground, [ESC, opener] + rest) == Run(String(opener == ']'), rest)
  {
    var sequence := [ESC, opener] + rest;
    assert sequence[1..] == [opener] + rest && ([opener] + rest)[1..] == rest;
  }

  /** The string's end, whether or not an escape stands in front of it. */
  lemma StringEnds(state: State, bel: bool)
    requires (state.String? || state.StringEscaped?) && (bel ==> state.belEnds)
    ensures var end := if bel then [BEL] else [ESC, '\\']; Output(state, end) == "" && Run(state, end) == Ground
  {
    if bel {
      assert [BEL][1..] == "";
    } else {
      assert [ESC, '\\'][1..] == ['\\'] && ['\\'][1..] == "";
      assert Output(StringEscaped(state.belEnds), ['\\']) == "" && Run(StringEscaped(state.belEnds), ['\\']) == Ground;
    }
  }

  lemma {:induction false} InStringContent(belEnds: bool, escaped: bool, content: string, bel: bool)
    requires (bel ==> belEnds) && Unended(belEnds, content) && (escaped && content != "" ==> content[0] != '\\')
    ensures var all := content + if bel then [BEL] else [ESC, '\\'];
      var state := if escaped then StringEscaped(belEnds) else String(belEnds);
      Output(state, all) == "" && Run(state, all) == Ground
    decreases |content|
  {
    var end := if bel then [BEL] else [ESC, '\\'];
    var all := content + end;
    if content == "" {
      assert all == end;
      StringEnds(if escaped then StringEscaped(belEnds) else String(belEnds), bel);
    } else {
      assert all[1..] == content[1..] + end;
      InStringContent(belEnds, content[0] == ESC, content[1..], bel);
    }
  }

  // ------------------------------------------------------------- what a job is made of

  /** The parts of a job, as a printer would take them. */
  datatype Item =
    | Character(byte: char)
    | PageBreak
    | Ignored(byte: char)
    | Escape(byte: char)
    | Sequence(parameters: string, final: char)
    | Command(opener: char, content: string, bel: bool)

  predicate Legal(item: Item) {
    match item
    case Character(byte) => byte == '\n' || byte == '\t' || (byte >= ' ' && byte != 0x7F as char)
    case PageBreak => true
    case Ignored(byte) => byte == 0x7F as char || (byte < ' ' && byte !in ['\n', '\t', 0x0C as char, 0x1B as char])
    case Escape(byte) => byte !in ['[', 'P', 'X', ']', '^', '_']
    case Sequence(parameters, final) => 0x40 as char <= final <= 0x7E as char && NoFinal(parameters)
    case Command(opener, content, bel) => opener in ['P', 'X', ']', '^', '_'] && Unended(opener == ']', content) && (bel ==> opener == ']')
  }

  predicate NoFinal(parameters: string) {
    forall i :: 0 <= i < |parameters| ==> !(0x40 as char <= parameters[i] <= 0x7E as char)
  }

  /** How a part is written in the job. */
  function Written(item: Item): (bytes: string)
    ensures bytes != ""
  {
    match item
    case Character(byte) => [byte]
    case PageBreak => [0x0C as char]
    case Ignored(byte) => [byte]
    case Escape(byte) => [0x1B as char, byte]
    case Sequence(parameters, final) => [0x1B as char, '['] + (parameters + [final])
    case Command(opener, content, bel) =>
      [0x1B as char, opener] + (content + if bel then [0x07 as char] else [0x1B as char, '\\'])
  }

  /** What a person reads of it. */
  function Says(item: Item): string {
    match item
    case Character(byte) => [byte]
    case PageBreak => "\n"
    case _ => ""
  }

  function AllWritten(items: seq<Item>): string {
    if items == [] then "" else Written(items[0]) + AllWritten(items[1..])
  }

  function AllSay(items: seq<Item>): string {
    if items == [] then "" else Says(items[0]) + AllSay(items[1..])
  }

  predicate AllLegal(items: seq<Item>) {
    forall i :: 0 <= i < |items| ==> Legal(items[i])
  }

  /** Where a job may be cut off: in the middle of a part, or after one. */
  predicate Unfinished(tail: string) {
    || tail == ""
    || tail == [0x1B as char]
    || ([0x1B as char, '['] <= tail && NoFinal(tail[2..]))
    || (|tail| >= 2 && tail[0] == 0x1B as char && tail[1] in ['P', 'X', ']', '^', '_'] && Unended(tail[1] == ']', tail[2..]))
  }

  lemma ItemReads(item: Item)
    requires Legal(item)
    ensures Output(Ground, Written(item)) == Says(item) && Run(Ground, Written(item)) == Ground
  {
    match item
    case Sequence(parameters, final) =>
      InControl(parameters, final);
      FromBracket(parameters + [final]);
    case Command(opener, content, bel) =>
      InStringContent(opener == ']', false, content, bel);
      FromEscape(opener, content + if bel then [BEL] else [ESC, '\\']);
    case Escape(byte) =>
      assert [ESC, byte][1..] == [byte] && [byte][1..] == "";
      assert Output(Escaped, [byte]) == "" && Run(Escaped, [byte]) == Ground;
    case Character(byte) =>
      assert [byte][1..] == "";
    case Ignored(byte) =>
      assert [byte][1..] == "";
    case PageBreak =>
      assert [FORM_FEED][1..] == "";
  }

  lemma {:induction false} StillInControl(parameters: string)
    requires NoFinal(parameters)
    ensures Output(Control, parameters) == ""
  {
    if parameters != "" { StillInControl(parameters[1..]); }
  }

  lemma {:induction false} StillInString(belEnds: bool, escaped: bool, content: string)
    requires Unended(belEnds, content) && (escaped && content != "" ==> content[0] != '\\')
    ensures Output(if escaped then StringEscaped(belEnds) else String(belEnds), content) == ""
    decreases |content|
  {
    if content != "" { StillInString(belEnds, content[0] == ESC, content[1..]); }
  }

  lemma UnfinishedSaysNothing(tail: string)
    requires Unfinished(tail)
    ensures Output(Ground, tail) == ""
  {
    if tail == [ESC] {
      assert [ESC][1..] == "";
    } else if tail != "" {
      assert tail == [ESC, tail[1]] + tail[2..];
      if tail[1] == '[' {
        StillInControl(tail[2..]);
        FromBracket(tail[2..]);
      } else {
        StillInString(tail[1] == ']', false, tail[2..]);
        FromEscape(tail[1], tail[2..]);
      }
    }
  }

  /** A job made of such parts, wherever it is cut off, reads as its parts do. */
  lemma {:induction false} ReadsAsItsItems(items: seq<Item>, tail: string)
    requires AllLegal(items) && Unfinished(tail)
    ensures Text(AllWritten(items) + tail) == AllSay(items)
  {
    if items == [] {
      UnfinishedSaysNothing(tail);
      assert "" + tail == tail;
    } else {
      ItemReads(items[0]);
      ReadsAsItsItems(items[1..], tail);
      hide Output, Run, Legal, Unfinished, Written, Says;
      OutputJoins(Ground, Written(items[0]), AllWritten(items[1..]) + tail);
      Joins(Written(items[0]), AllWritten(items[1..]), tail);
    }
  }

  /** Every job is made of such parts. */
  lemma {:induction false} EveryJobHasItems(job: string) returns (items: seq<Item>, tail: string)
    ensures AllLegal(items) && Unfinished(tail) && job == AllWritten(items) + tail
    decreases |job|
  {
    if Unfinished(job) {
      items, tail := [], job;
    } else {
      var item, rest := FirstItem(job);
      hide Legal, Unfinished, Written;
      items, tail := EveryJobHasItems(rest);
      Joins(Written(item), AllWritten(items), tail);
      items := [item] + items;
      assert items[1..] == items[1..];
    }
  }

  lemma FirstItem(job: string) returns (item: Item, rest: string)
    requires !Unfinished(job)
    ensures Legal(item) && job == Written(item) + rest && |rest| < |job|
  {
    var byte := job[0];
    if byte == ESC {
      var kind, inside := job[1], job[2..];
      assert job == [ESC, kind] + inside;
      if kind == '[' {
        item, rest := FirstSequence(inside);
      } else if kind in ['P', 'X', ']', '^', '_'] {
        item, rest := FirstCommand(kind, inside);
      } else {
        item, rest := Escape(kind), inside;
      }
    } else {
      rest := job[1..];
      item := if byte == FORM_FEED then PageBreak else if Readable(byte) then Character(byte) else Ignored(byte);
    }
  }

  lemma FirstSequence(inside: string) returns (item: Item, rest: string)
    requires !NoFinal(inside)
    ensures Legal(item) && [ESC, '['] + inside == Written(item) + rest && |rest| < |inside|
  {
    var n := ToFinal(inside);
    assert inside[..n] == inside || n < |inside|;
    item, rest := Sequence(inside[..n], inside[n]), inside[n + 1..];
    assert inside == (inside[..n] + [inside[n]]) + rest;
    Joins([ESC, '['], inside[..n] + [inside[n]], rest);
  }

  lemma FirstCommand(kind: char, inside: string) returns (item: Item, rest: string)
    requires kind in ['P', 'X', ']', '^', '_'] && !Unended(kind == ']', inside)
    ensures Legal(item) && [ESC, kind] + inside == Written(item) + rest && |rest| < |inside|
  {
    var n := ToEnd(kind == ']', inside);
    assert inside[..n] == inside || n < |inside|;
    var bel := kind == ']' && inside[n] == BEL;
    var end := if bel then [BEL] else [ESC, '\\'];
    item, rest := Command(kind, inside[..n], bel), inside[n + |end|..];
    hide Unended;
    assert inside == (inside[..n] + end) + rest;
    Joins([ESC, kind], inside[..n] + end, rest);
  }

  /** How much there is in front of a final byte. */
  lemma ToFinal(text: string) returns (n: nat)
    ensures n <= |text| && NoFinal(text[..n]) && (n < |text| ==> 0x40 as char <= text[n] <= 0x7E as char)
  {
    n := 0;
    while n < |text| && !(0x40 as char <= text[n] <= 0x7E as char)
      invariant n <= |text| && NoFinal(text[..n])
    {
      n := n + 1;
    }
  }

  predicate EndsAt(belEnds: bool, text: string, i: nat) {
    && i < |text|
    && ((belEnds && text[i] == BEL) || (text[i] == ESC && i + 1 < |text| && text[i + 1] == '\\'))
  }

  /** How much there is in front of a string's end. */
  lemma ToEnd(belEnds: bool, text: string) returns (n: nat)
    ensures n <= |text| && Unended(belEnds, text[..n]) && (n < |text| ==> EndsAt(belEnds, text, n))
  {
    n := 0;
    while n < |text| && !EndsAt(belEnds, text, n)
      invariant n <= |text| && forall i: nat :: i < n ==> !EndsAt(belEnds, text, i)
    {
      n := n + 1;
    }
    forall i: nat | i < n
      ensures !(belEnds && text[..n][i] == BEL) && !(text[..n][i] == ESC && i + 1 < n && text[..n][i + 1] == '\\')
    {
      assert !EndsAt(belEnds, text, i);
    }
  }
}
