/**
 What a configuration file means and what one edit does to that meaning, on lines already read
 (src/common/config.cpp). `ConfigEdit` connects this to the text.

 The reader folds the lines under the section in force, last one wins; the editor rewrites every occurrence
 of a key, or puts one line into its section, or appends a section. They are separate loops, and must agree.
 */
module ConfigMeaning {
  import opened Wrappers
  import opened ConfigLine

  /** A file, line by line as the grammar reads it. */
  type File = seq<ParsedLine>

  /** A section in force (none before the first header) and a key. */
  type Place = (Option<string>, string)

  /** What a reader makes of one assignment: nothing when it refuses the value or does not know the key. */
  type Reader<!T> = (Option<string>, string, string) -> Option<T>

  // ------------------------------------------------------------- the reader

  /** The section in force behind the lines. */
  function InForce(file: File): Option<string> {
    if file == [] then None
    else if file[|file| - 1].Section? then Some(file[|file| - 1].name)
    else InForce(file[..|file| - 1])
  }

  function Assign<T>(settled: map<Place, T>, section: Option<string>, line: ParsedLine, reader: Reader<T>): map<Place, T> {
    if !line.Assignment? then settled
    else
      match reader(section, line.key, Unescape(line.value))
      case Some(value) => settled[(section, line.key) := value]
      case None => settled
  }

  /** The last accepted value of every place. */
  function Settle<T>(file: File, reader: Reader<T>): map<Place, T> {
    if file == [] then map[]
    else
      var front := file[..|file| - 1];
      Assign(Settle(front, reader), InForce(front), file[|file| - 1], reader)
  }

  /** The `bind` and `unbind` lines, in order, each with its section. */
  function Directives(file: File): seq<(Option<string>, string)> {
    if file == [] then []
    else
      var front := file[..|file| - 1];
      Directives(front) + (if file[|file| - 1].Directive? then [(InForce(front), file[|file| - 1].text)] else [])
  }

  /** One place given what the reader makes of `value`, or left without a value when it refuses it. */
  function Put<T>(settled: map<Place, T>, section: string, key: string, value: string, reader: Reader<T>): map<Place, T> {
    match reader(Some(section), key, value)
    case Some(taken) => settled[(Some(section), key) := taken]
    case None => settled - {(Some(section), key)}
  }

  // ------------------------------------------------------------- what the folds come to, line by line

  /** The section in force is that of the last header, and none in front of the first. */
  lemma {:induction false} LastHeaderIsInForce(file: File, i: nat)
    requires i < |file| && file[i].Section? && forall j :: i < j < |file| ==> !file[j].Section?
    ensures InForce(file) == Some(file[i].name)
  {
    if i < |file| - 1 { LastHeaderIsInForce(file[..|file| - 1], i); }
  }

  lemma {:induction false} NoHeaderNoSection(file: File)
    requires forall j :: 0 <= j < |file| ==> !file[j].Section?
    ensures InForce(file) == None
  {
    if file != [] { NoHeaderNoSection(file[..|file| - 1]); }
  }

  /** Line `i` assigns something to the place that the reader takes. */
  predicate Accepted<T>(file: File, i: nat, place: Place, reader: Reader<T>)
    requires i < |file|
  {
    file[i].Assignment? && (InForce(file[..i]), file[i].key) == place && reader(place.0, place.1, Unescape(file[i].value)).Some?
  }

  lemma AcceptedPrefix<T>(file: File, i: nat, n: nat, place: Place, reader: Reader<T>)
    requires i < n <= |file|
    ensures Accepted(file[..n], i, place, reader) == Accepted(file, i, place, reader)
  {
    assert file[..n][..i] == file[..i];
  }

  /** The last line that the reader takes has the last word on its place, whatever earlier lines said. */
  lemma {:induction false} LastAcceptedWins<T>(file: File, i: nat, place: Place, reader: Reader<T>)
    requires i < |file| && Accepted(file, i, place, reader)
    requires forall j :: i < j < |file| ==> !Accepted(file, j, place, reader)
    ensures place in Settle(file, reader) && Settle(file, reader)[place] == reader(place.0, place.1, Unescape(file[i].value)).value
  {
    var n := |file| - 1;
    hide InForce, Unescape;
    if i < n {
      assert !Accepted(file, n, place, reader);
      forall j | i <= j < n ensures Accepted(file[..n], j, place, reader) == Accepted(file, j, place, reader) {
        AcceptedPrefix(file, j, n, place, reader);
      }
      LastAcceptedWins(file[..n], i, place, reader);
    }
  }

  /** And a place no line of the file settles has no value. */
  lemma {:induction false} NoneAcceptedNoValue<T>(file: File, place: Place, reader: Reader<T>)
    requires forall j :: 0 <= j < |file| ==> !Accepted(file, j, place, reader)
    ensures place !in Settle(file, reader)
  {
    hide InForce, Unescape;
    if file != [] {
      var n := |file| - 1;
      assert !Accepted(file, n, place, reader);
      forall j | 0 <= j < n ensures !Accepted(file[..n], j, place, reader) {
        AcceptedPrefix(file, j, n, place, reader);
      }
      NoneAcceptedNoValue(file[..n], place, reader);
    }
  }

  /** Each directive comes behind those in front of it, with its own section, and nothing else is one. */
  lemma {:induction false} DirectiveAt(file: File, i: nat)
    requires i < |file|
    ensures Directives(file[..i + 1]) <= Directives(file)
    ensures Directives(file[..i + 1]) == Directives(file[..i]) + if file[i].Directive? then [(InForce(file[..i]), file[i].text)] else []
  {
    assert file[..i + 1][..i] == file[..i];
    hide InForce;
    if i == |file| - 1 {
      assert file[..i + 1] == file;
    } else {
      DirectiveAt(file[..|file| - 1], i);
      assert file[..|file| - 1][..i + 1] == file[..i + 1];
    }
  }

  // ------------------------------------------------------------- the editor

  /** Line `i` assigns `key` in `section`. */
  predicate Hits(file: File, i: nat, section: string, key: string)
    requires i < |file|
  {
    file[i].Assignment? && file[i].key == key && InForce(file[..i]) == Some(section)
  }

  predicate AnyHit(file: File, section: string, key: string) {
    exists i :: 0 <= i < |file| && Hits(file, i, section, key)
  }

  /** Just behind the section's last line that is not blank, its header counted; 0 when there is no such section. */
  function PlaceIn(file: File, section: string): (at: nat)
    ensures at <= |file| && (at > 0 ==> InForce(file[..at]) == Some(section))
  {
    if file == [] then 0
    else if InForce(file) == Some(section) && !file[|file| - 1].Blank? then
      assert file[..|file|] == file;
      |file|
    else
      var front := file[..|file| - 1];
      var at := PlaceIn(front, section);
      assert front[..at] == file[..at];
      at
  }

  /** The line stands in the section, its header included, and is not blank. */
  predicate Inhabits(file: File, i: nat, section: string)
    requires i < |file|
  {
    InForce(file[..i + 1]) == Some(section) && !file[i].Blank?
  }

  lemma InhabitsPrefix(file: File, i: nat, n: nat, section: string)
    requires i < n <= |file|
    ensures Inhabits(file[..n], i, section) == Inhabits(file, i, section)
  {
    assert file[..n][..i + 1] == file[..i + 1];
  }

  /** The place for a new line is behind the last line that stands in the section; and only a section with none has no place. */
  lemma {:induction false} PlaceIsLast(file: File, section: string)
    ensures var at := PlaceIn(file, section);
      && (at > 0 ==> Inhabits(file, at - 1, section))
      && forall i :: at <= i < |file| ==> !Inhabits(file, i, section)
  {
    if file != [] {
      var n := |file| - 1;
      assert file[..n + 1] == file;
      if !Inhabits(file, n, section) {
        PlaceIsLast(file[..n], section);
        var at := PlaceIn(file[..n], section);
        hide InForce, PlaceIn, Inhabits;
        if at > 0 { InhabitsPrefix(file, at - 1, n, section); }
        forall i | at <= i < n ensures !Inhabits(file, i, section) { InhabitsPrefix(file, i, n, section); }
      }
    }
  }

  /** Every occurrence of the key given the value, each keeping its comment. */
  function Rewritten(file: File, section: string, key: string, value: string): (out: File)
    ensures |out| == |file|
  {
    seq(|file|, i requires 0 <= i < |file| =>
      if Hits(file, i, section, key) then Assignment(key, Escape(value), file[i].trailingComment) else file[i])
  }

  function Separator(file: File): File {
    if file != [] && !file[|file| - 1].Blank? then [Blank] else []
  }

  /** The lines in front of a new assignment, and those behind it. */
  function FrontPart(file: File, section: string): File {
    var at := PlaceIn(file, section);
    if at > 0 then file[..at] else file + Separator(file) + [Section(section)]
  }

  function BackPart(file: File, section: string): File {
    var at := PlaceIn(file, section);
    if at > 0 then file[at..] else []
  }

  function Edited(file: File, section: string, key: string, value: string): File {
    if AnyHit(file, section, key) then Rewritten(file, section, key, value)
    else FrontPart(file, section) + [Assignment(key, Escape(value), "")] + BackPart(file, section)
  }

  // ------------------------------------------------------------- prefixes

  lemma HitsPrefix(file: File, i: nat, n: nat, section: string, key: string)
    requires i < n <= |file|
    ensures Hits(file[..n], i, section, key) == Hits(file, i, section, key)
  {
    assert file[..n][..i] == file[..i];
  }

  lemma {:induction false} PlaceKnown(file: File, section: string)
    ensures InForce(file) == Some(section) ==> PlaceIn(file, section) > 0
  {
    if file != [] { PlaceKnown(file[..|file| - 1], section); }
  }

  /** What one line more does to the section in force, and to the place for a new line. */
  lemma OneMoreLine(file: File, i: nat, section: string)
    requires i < |file|
    ensures var before, after := InForce(file[..i]), InForce(file[..i + 1]);
      && after == (if file[i].Section? then Some(file[i].name) else before)
      && (before == Some(section) ==> PlaceIn(file[..i], section) > 0)
      && PlaceIn(file[..i + 1], section)
           == (if after == Some(section) && !file[i].Blank? then i + 1 else PlaceIn(file[..i], section))
  {
    assert file[..i + 1][..i] == file[..i] && file[..i + 1][i] == file[i];
    PlaceKnown(file[..i], section);
  }

  lemma AnyHitSplits(file: File, n: nat, section: string, key: string)
    requires n < |file|
    ensures AnyHit(file[..n + 1], section, key) <==> AnyHit(file[..n], section, key) || Hits(file, n, section, key)
  {
    forall i | 0 <= i < n ensures Hits(file[..n], i, section, key) == Hits(file, i, section, key) {
      HitsPrefix(file, i, n, section, key);
    }
    forall i | 0 <= i <= n ensures Hits(file[..n + 1], i, section, key) == Hits(file, i, section, key) {
      HitsPrefix(file, i, n + 1, section, key);
    }
    if AnyHit(file[..n], section, key) {
      var i :| 0 <= i < n && Hits(file[..n], i, section, key);
      assert Hits(file[..n + 1], i, section, key);
    }
    if Hits(file, n, section, key) { assert Hits(file[..n + 1], n, section, key); }
    if AnyHit(file[..n + 1], section, key) {
      var i :| 0 <= i < n + 1 && Hits(file[..n + 1], i, section, key);
      if i < n { assert Hits(file[..n], i, section, key); }
    }
  }

  lemma RewrittenPrefix(file: File, n: nat, section: string, key: string, value: string)
    requires n <= |file|
    ensures Rewritten(file, section, key, value)[..n] == Rewritten(file[..n], section, key, value)
  {
    forall i | 0 <= i < n
      ensures Rewritten(file, section, key, value)[..n][i] == Rewritten(file[..n], section, key, value)[i]
    {
      HitsPrefix(file, i, n, section, key);
    }
  }

  lemma {:induction false} NoHitNoPlace<T>(file: File, section: string, key: string, reader: Reader<T>)
    requires !AnyHit(file, section, key)
    ensures (Some(section), key) !in Settle(file, reader)
  {
    if file != [] {
      var n := |file| - 1;
      assert file[..n + 1] == file;
      AnyHitSplits(file, n, section, key);
      NoHitNoPlace(file[..n], section, key, reader);
    }
  }

  // ------------------------------------------------------------- rewriting every occurrence

  lemma {:induction false} RewrittenKeepsSections(file: File, section: string, key: string, value: string)
    ensures InForce(Rewritten(file, section, key, value)) == InForce(file)
    ensures Directives(Rewritten(file, section, key, value)) == Directives(file)
  {
    if file != [] {
      RewrittenKeepsSections(file[..|file| - 1], section, key, value);
      RewrittenPrefix(file, |file| - 1, section, key, value);
    }
  }

  lemma {:induction false} RewrittenSettles<T>(file: File, section: string, key: string, value: string, reader: Reader<T>)
    ensures Settle(Rewritten(file, section, key, value), reader) ==
      if AnyHit(file, section, key) then Put(Settle(file, reader), section, key, value, reader) else Settle(file, reader)
  {
    if file != [] {
      var n := |file| - 1;
      var front := file[..n];
      assert file[..n + 1] == file;
      RewrittenSettles(front, section, key, value, reader);
      RewrittenPrefix(file, n, section, key, value);
      RewrittenKeepsSections(front, section, key, value);
      AnyHitSplits(file, n, section, key);
      UnescapeOfEscape(value);
      var line := Rewritten(file, section, key, value)[n];
      AssignCommutes(Settle(front, reader), InForce(front), file[n], section, key, value, reader);
      assert Settle(Rewritten(file, section, key, value), reader)
          == Assign(Settle(Rewritten(front, section, key, value), reader), InForce(front), line, reader);
      if !AnyHit(front, section, key) && Hits(file, n, section, key) {
        NoHitNoPlace(front, section, key, reader);
      }
    }
  }

  /** An assignment anywhere else commutes with the update; one at the same place is overridden by it. */
  lemma AssignCommutes<T>(settled: map<Place, T>, at: Option<string>, line: ParsedLine,
                          section: string, key: string, value: string, reader: Reader<T>)
    ensures (line.Assignment? ==> at != Some(section) || line.key != key) ==>
      Assign(Put(settled, section, key, value, reader), at, line, reader)
      == Put(Assign(settled, at, line, reader), section, key, value, reader)
    ensures line.Assignment? && line.key == key && at == Some(section) ==>
      Put(Assign(settled, at, line, reader), section, key, value, reader) == Put(settled, section, key, value, reader)
  {
  }

  // ------------------------------------------------------------- putting one line in

  lemma {:induction false} InsertedKeepsSections(front: File, line: ParsedLine, back: File)
    requires line.Assignment?
    ensures InForce(front + [line] + back) == InForce(front + back)
    ensures Directives(front + [line] + back) == Directives(front + back)
    decreases |back|
  {
    if back == [] {
      assert front + back == front && (front + [line] + back)[..|front|] == front;
    } else {
      var less := back[..|back| - 1];
      InsertedKeepsSections(front, line, less);
      assert (front + [line] + back)[..|front| + |back|] == front + [line] + less;
      assert (front + back)[..|front| + |back| - 1] == front + less;
    }
  }

  lemma {:induction false} InsertedSettles<T>(front: File, back: File, section: string, key: string, value: string,
                                              reader: Reader<T>)
    requires InForce(front) == Some(section)
    requires forall i :: |front| <= i < |front + back| ==> !Hits(front + back, i, section, key)
    requires !AnyHit(front, section, key)
    ensures Settle(front + [Assignment(key, Escape(value), "")] + back, reader)
         == Put(Settle(front + back, reader), section, key, value, reader)
    decreases |back|
  {
    var line := Assignment(key, Escape(value), "");
    if back == [] {
      assert front + back == front && (front + [line] + back)[..|front|] == front;
      UnescapeOfEscape(value);
      NoHitNoPlace(front, section, key, reader);
    } else {
      var less := back[..|back| - 1];
      var n := |front| + |less|;
      assert (front + [line] + back)[..n + 1] == front + [line] + less;
      assert (front + back)[..n] == front + less;
      forall i | |front| <= i < n ensures !Hits(front + less, i, section, key) {
        HitsPrefix(front + back, i, n, section, key);
      }
      InsertedSettles(front, less, section, key, value, reader);
      InsertedKeepsSections(front, line, less);
      assert !Hits(front + back, n, section, key);
      AssignCommutes(Settle(front + less, reader), InForce(front + less), back[|less|], section, key, value, reader);
    }
  }

  lemma InsertedHits(front: File, line: ParsedLine, back: File, section: string, key: string)
    requires line.Assignment? && line.key == key && InForce(front) == Some(section)
    requires !AnyHit(front, section, key)
    requires forall i :: |front| <= i < |front + back| ==> !Hits(front + back, i, section, key)
    ensures var out := front + [line] + back;
      forall i :: 0 <= i < |out| ==> (Hits(out, i, section, key) <==> i == |front|)
  {
    var out := front + [line] + back;
    forall i | 0 <= i < |out| ensures Hits(out, i, section, key) <==> i == |front| {
      if i <= |front| {
        assert out[..i] == front[..i];
        if i < |front| { assert !Hits(front, i, section, key); } else { assert front[..i] == front; }
      } else {
        var less := back[..i - |front| - 1];
        InsertedKeepsSections(front, line, less);
        assert out[..i] == front + [line] + less && (front + back)[..i - 1] == front + less;
        assert !Hits(front + back, i - 1, section, key);
      }
    }
  }

  // ------------------------------------------------------------- a key that is not there yet

  /** What is true of the two parts a new line is put between. */
  lemma PartsFacts(file: File, section: string, key: string)
    requires !AnyHit(file, section, key)
    ensures var front, back := FrontPart(file, section), BackPart(file, section);
      && InForce(front) == Some(section) && !AnyHit(front, section, key)
      && (forall i :: |front| <= i < |front + back| ==> !Hits(front + back, i, section, key))
      && Directives(front + back) == Directives(file)
  {
    var at := PlaceIn(file, section);
    var front, back := FrontPart(file, section), BackPart(file, section);
    if at > 0 {
      assert front + back == file;
      forall i | 0 <= i < at ensures !Hits(front, i, section, key) { HitsPrefix(file, i, at, section, key); }
    } else {
      assert front + back == front;
      AppendedHeader(file, section);
      forall i | 0 <= i < |front| ensures !Hits(front, i, section, key) {
        if i < |file| { assert front[..i] == file[..i]; assert !Hits(file, i, section, key); }
      }
    }
  }

  lemma AppendedHeader(file: File, section: string)
    ensures var out := file + Separator(file) + [Section(section)];
      InForce(out) == Some(section) && Directives(out) == Directives(file)
  {
    var mid := file + Separator(file);
    var out := mid + [Section(section)];
    assert out[..|out| - 1] == mid;
    if Separator(file) == [Blank] { assert mid[..|mid| - 1] == file; } else { assert mid == file; }
  }

  lemma PartsSettle<T>(file: File, section: string, reader: Reader<T>)
    ensures Settle(FrontPart(file, section) + BackPart(file, section), reader) == Settle(file, reader)
  {
    PartsAre(file, section);
    hide Settle, PlaceIn, FrontPart, BackPart;
    if PlaceIn(file, section) == 0 {
      if Separator(file) == [Blank] { SettlesThrough(file, Blank, reader); } else { assert file + Separator(file) == file; }
      SettlesThrough(file + Separator(file), Section(section), reader);
    }
  }

  lemma PartsAre(file: File, section: string)
    ensures FrontPart(file, section) + BackPart(file, section) ==
      if PlaceIn(file, section) > 0 then file else file + Separator(file) + [Section(section)]
  {
    var at := PlaceIn(file, section);
    hide PlaceIn, Separator;
    if at > 0 { assert file[..at] + file[at..] == file; }
  }

  /** A line that assigns nothing settles nothing. */
  lemma SettlesThrough<T>(file: File, line: ParsedLine, reader: Reader<T>)
    requires !line.Assignment?
    ensures Settle(file + [line], reader) == Settle(file, reader)
  {
    assert (file + [line])[..|file|] == file;
  }

  // ------------------------------------------------------------- the law of one edit

  /** Whatever judges the values, an edit gives the old meaning with one place updated. */
  lemma EditedSettles<T>(file: File, section: string, key: string, value: string, reader: Reader<T>)
    ensures Settle(Edited(file, section, key, value), reader) == Put(Settle(file, reader), section, key, value, reader)
  {
    if AnyHit(file, section, key) {
      RewrittenSettles(file, section, key, value, reader);
    } else {
      PartsFacts(file, section, key);
      PartsSettle(file, section, reader);
      InsertedSettles(FrontPart(file, section), BackPart(file, section), section, key, value, reader);
    }
  }

  /** And leaves every directive as it was, in order and in its section. */
  lemma EditedKeepsDirectives(file: File, section: string, key: string, value: string)
    ensures Directives(Edited(file, section, key, value)) == Directives(file)
  {
    if AnyHit(file, section, key) {
      RewrittenKeepsSections(file, section, key, value);
    } else {
      PartsFacts(file, section, key);
      InsertedKeepsSections(FrontPart(file, section), Assignment(key, Escape(value), ""), BackPart(file, section));
    }
  }

  /** Where an edit is found again: at the lines it found before, or at the one line it put in. */
  lemma EditedHits(file: File, section: string, key: string, value: string)
    ensures var out := Edited(file, section, key, value);
      if AnyHit(file, section, key) then
        forall i :: 0 <= i < |file| ==> Hits(out, i, section, key) == Hits(file, i, section, key)
      else
        forall i :: 0 <= i < |out| ==> (Hits(out, i, section, key) <==> i == |FrontPart(file, section)|)
  {
    if AnyHit(file, section, key) {
      var out := Edited(file, section, key, value);
      forall i | 0 <= i < |file| ensures Hits(out, i, section, key) == Hits(file, i, section, key) {
        RewrittenPrefix(file, i, section, key, value);
        RewrittenKeepsSections(file[..i], section, key, value);
      }
    } else {
      PartsFacts(file, section, key);
      InsertedHits(FrontPart(file, section), Assignment(key, Escape(value), ""), BackPart(file, section), section, key);
    }
  }
}
