/**
 `load_settings` (src/common/config.cpp): what the file's keys may hold, how the file is folded into settings,
 and what a reader is told about it.
 */
module ConfigLoad {
  import opened Wrappers
  import opened ConfigLine
  import opened ConfigMeaning
  import opened ConfigEdit

  // ------------------------------------------------------------- numbers

  predicate IsDigit(c: char) { '0' <= c <= '9' }

  predicate Digits(text: string) {
    text != "" && forall i :: 0 <= i < |text| ==> IsDigit(text[i])
  }

  function DigitsValue(text: string): nat
    requires forall i :: 0 <= i < |text| ==> IsDigit(text[i])
  {
    if text == "" then 0
    else
      assert IsDigit(text[|text| - 1]);
      10 * DigitsValue(text[..|text| - 1]) + (text[|text| - 1] as int - '0' as int)
  }

  const INT_MIN := -0x8000_0000
  const INT_MAX := 0x7FFF_FFFF
  const ULLONG_MAX := 0xFFFF_FFFF_FFFF_FFFF
  const BYTE_SIZE_MAX := 1024 * 1024 * 1024

  /** A whole field read as an `int`: a minus sign if any, digits, and nothing the width cannot hold. */
  function IntField(text: string): Option<int> {
    var negative := text != "" && text[0] == '-';
    var body := if negative then text[1..] else text;
    if !Digits(body) then None
    else
      var value: int := if negative then 0 - DigitsValue(body) else DigitsValue(body);
      if INT_MIN <= value <= INT_MAX then Some(value) else None
  }

  /** A whole field read as an `unsigned long long`. */
  function UnsignedField(text: string): Option<nat> {
    if !Digits(text) || DigitsValue(text) > ULLONG_MAX then None else Some(DigitsValue(text))
  }

  function ParseIntInRange(text: string, minimum: int, maximum: int): (r: Option<int>)
    ensures r.Some? ==> minimum <= r.value <= maximum
  {
    var body := Trim(text);
    match IntField(body)
    case None => None
    case Some(value) => if value < minimum || value > maximum then None else Some(value)
  }

  function Multiplier(text: string): nat {
    if text == "" then 1
    else match text[|text| - 1]
      case 'K' => 1024
      case 'M' => 1024 * 1024
      case 'G' => 1024 * 1024 * 1024
      case _ => 1
  }

  function ParseByteSize(text: string): Option<nat> {
    var body := Trim(text);
    if body == "" then None
    else
      var multiplier := Multiplier(body);
      var number := if multiplier != 1 then body[..|body| - 1] else body;
      if number == "" then None
      else
        match UnsignedField(number)
        case None => None
        case Some(value) => if value > BYTE_SIZE_MAX / multiplier then None else Some(value * multiplier)
  }

  /**
   The bound asked before the multiplication is the bound on the product: a size is accepted exactly when the
   product stays within the cap, so the product that is formed never leaves the machine's width.
   */
  lemma ByteSizeExactly(text: string)
    ensures var body := Trim(text);
      var multiplier := Multiplier(body);
      var number := if body != "" && multiplier != 1 then body[..|body| - 1] else body;
      ParseByteSize(text) ==
        if Digits(number) && DigitsValue(number) * multiplier <= BYTE_SIZE_MAX then Some(DigitsValue(number) * multiplier)
        else None
  {
    var body := Trim(text);
    var multiplier := Multiplier(body);
    var number := if body != "" && multiplier != 1 then body[..|body| - 1] else body;
    if Digits(number) {
      var value := DigitsValue(number);
      assert multiplier == 1 || multiplier == 1024 || multiplier == 1024 * 1024 || multiplier == 1024 * 1024 * 1024;
      assert value > BYTE_SIZE_MAX / multiplier <==> value * multiplier > BYTE_SIZE_MAX;
    }
  }

  /** How a dialog writes a number. */
  function Decimal(n: nat): (text: string)
    ensures Digits(text)
  {
    if n < 10 then [('0' as int + n) as char]
    else Decimal(n / 10) + [('0' as int + n % 10) as char]
  }

  lemma {:induction false} DecimalValue(n: nat)
    ensures DigitsValue(Decimal(n)) == n
  {
    if n >= 10 {
      DecimalValue(n / 10);
      assert Decimal(n)[..|Decimal(n)| - 1] == Decimal(n / 10);
    } else {
      assert Decimal(n)[..0] == "";
    }
  }

  /** The number a dialog writes is the number the file is read to hold, exactly when it is in the range. */
  lemma WrittenNumberReadsBack(n: nat, minimum: int, maximum: int)
    requires maximum <= INT_MAX
    ensures ParseIntInRange(Decimal(n), minimum, maximum) == if minimum <= n <= maximum then Some(n) else None
  {
    DecimalValue(n);
    var text := Decimal(n);
    assert IsDigit(text[0]) && IsDigit(text[|text| - 1]);
    TrimIsTrimmed(text);
  }

  // ------------------------------------------------------------- the keys

  /** What a key takes; a number's range and every default with it. */
  datatype Kind =
    | Flag(whenAbsent: bool)
    | Number(minimum: int, maximum: int, usual: int)
    | ByteSize(usualBytes: nat)
    | OneOf(names: seq<string>)
    | Chord
    | Shell
    | TermName
    | Clipboard
    | Folder

  datatype Value = FlagValue(on: bool) | NumberValue(n: int) | BytesValue(bytes: nat) | TextValue(text: string)

  /** What other files decide: chord and clipboard spellings, key contexts and actions. */
  datatype Vocabulary = Vocabulary(chord: string -> Option<string>, clipboard: string -> Option<string>,
                                   context: string -> Option<string>, action: string -> Option<string>)

  function GeneralKey(key: string): (kind: Option<Kind>)
    ensures kind.Some? ==> DefaultInRange(kind.value)
  {
    if key == "prefix" then Some(Chord)
    else if key == "shell" then Some(Shell)
    else if key == "login-shell" then Some(Flag(true))
    else if key == "scrollback" then Some(Number(0, 1_000_000, 10_000))
    else if key == "max-terminals" then Some(Number(1, 4_096, 64))
    else if key == "theme" then Some(OneOf(["dark", "light", "mono"]))
    else if key == "on-exit" then Some(OneOf(["hold-on-error", "close", "hold"]))
    else if key == "audible-bell" then Some(Flag(false))
    else if key == "confirm-kill" then Some(Flag(true))
    else if key == "kill-empty-session" then Some(Flag(true))
    else if key == "kill-grace-seconds" then Some(Number(0, 600, 5))
    else if key == "clock" then Some(OneOf(["seconds", "minutes", "off"]))
    else if key == "resize-windows-to-fit" then Some(Flag(false))
    else if key == "desktop-size" then Some(OneOf(["fixed", "fit-smallest", "fit-latest"]))
    else if key == "show-cpu" || key == "show-memory-rss" || key == "show-memory-real" then Some(Flag(false))
    else None
  }

  function TerminalKey(key: string): (kind: Option<Kind>)
    ensures kind.Some? ==> DefaultInRange(kind.value)
  {
    if key == "term" then Some(TermName)
    else if key == "mouse" || key == "alternate-scroll" || key == "osc52" then Some(Flag(true))
    else if key == "sixel" then Some(OneOf(["auto", "off"]))
    else if key == "sixel-max-megapixels" then Some(Number(1, 4096, 64))
    else if key == "clipboard" then Some(Clipboard)
    else None
  }

  function PrinterKey(key: string): (kind: Option<Kind>)
    ensures kind.Some? ==> DefaultInRange(kind.value)
  {
    if key == "mode" then Some(OneOf(["ask", "capture", "off"]))
    else if key == "ask-cache" then Some(ByteSize(256 * 1024))
    else if key == "spool-limit" then Some(ByteSize(1024 * 1024))
    else if key == "save-format" then Some(OneOf(["txt", "ansi"]))
    else if key == "save-folder" then Some(Folder)
    else if key == "save-ask-name" then Some(Flag(true))
    else None
  }

  const SECTIONS := ["general", "terminal", "printer", "render", "keys"]

  /** Which key of which section: the one table. */
  function KindOf(section: string, key: string): (kind: Option<Kind>)
    ensures kind.Some? ==> DefaultInRange(kind.value)
  {
    if section == "general" then GeneralKey(key)
    else if section == "terminal" then TerminalKey(key)
    else if section == "printer" then PrinterKey(key)
    else if section == "render" && key == "max-fps" then Some(Number(1, 240, 30))
    else None
  }

  predicate DefaultInRange(kind: Kind) {
    match kind
    case Number(minimum, maximum, usual) => minimum <= usual <= maximum
    case ByteSize(usualBytes) => usualBytes <= BYTE_SIZE_MAX
    case _ => true
  }

  datatype Outcome = Applied(value: Value) | Refused | Unknown

  function Accept<T>(parsed: Option<T>, wrap: T -> Value): Outcome {
    if parsed.Some? then Applied(wrap(parsed.value)) else Refused
  }

  /** `parse_bool`: the two spellings, and blanks around them. */
  function ParseBool(text: string): Option<bool> {
    var body := Trim(text);
    if body == "true" then Some(true) else if body == "false" then Some(false) else None
  }

  function ReadKind(kind: Kind, value: string, words: Vocabulary): Outcome {
    match kind
    case Flag(_) => Accept(ParseBool(value), b => FlagValue(b))
    case Number(minimum, maximum, _) => Accept(ParseIntInRange(value, minimum, maximum), n => NumberValue(n))
    case ByteSize(_) => Accept(ParseByteSize(value), n => BytesValue(n))
    case OneOf(names) => if value in names then Applied(TextValue(value)) else Refused
    case Chord => Accept(words.chord(value), t => TextValue(t))
    case Shell => Applied(TextValue(if value == "$SHELL" then "" else value))
    case TermName => Applied(TextValue(if value == "" then "auto" else value))
    case Clipboard => Accept(words.clipboard(value), t => TextValue(t))
    case Folder => Applied(TextValue(value))
  }

  /** `apply_assignment`, on the value with its escapes resolved. */
  function ApplyAssignment(section: string, key: string, value: string, words: Vocabulary): Outcome {
    match KindOf(section, key)
    case None => Unknown
    case Some(kind) => ReadKind(kind, value, words)
  }

  /** The reader the whole file is folded with: `apply_assignment` where there is a section to apply it in. */
  function Judge(words: Vocabulary): Reader<Value> {
    (section: Option<string>, key: string, value: string) =>
      if section.None? then None
      else match ApplyAssignment(section.value, key, value, words)
        case Applied(v) => Some(v)
        case _ => None
  }

  /** What a setting is after a load: what the file settled, or the built-in default (`None`: one spelled elsewhere). */
  function Setting(settled: map<Place, Value>, section: string, key: string): Option<Value> {
    if (Some(section), key) in settled then Some(settled[(Some(section), key)])
    else
      match KindOf(section, key)
      case Some(Flag(b)) => Some(FlagValue(b))
      case Some(Number(_, _, n)) => Some(NumberValue(n))
      case Some(ByteSize(n)) => Some(BytesValue(n))
      case Some(OneOf(names)) => if names == [] then None else Some(TextValue(names[0]))
      case _ => None
  }

  // ------------------------------------------------------------- directives

  datatype Bind = Bind(context: string, chord: string, action: Option<string>)

  /** `apply_directive`: the words in order, each one known, and as many as the first of them wants. */
  function BindOf(text: string, words: Vocabulary): Option<Bind> {
    var parts := Words(text);
    if parts == [] then None
    else
      var unbinding := parts[0] == "unbind";
      if |parts| != (if unbinding then 3 else 4) then None
      else if words.context(parts[1]).None? || words.chord(parts[2]).None? then None
      else if unbinding then Some(Bind(words.context(parts[1]).value, words.chord(parts[2]).value, None))
      else if words.action(parts[3]).None? then None
      else Some(Bind(words.context(parts[1]).value, words.chord(parts[2]).value, words.action(parts[3])))
  }

  predicate SectionKnown(section: Option<string>) {
    section.None? || section.value in SECTIONS
  }

  /** The binds a list of directives gives, those under an unknown header and those that are no bind left out. */
  function BindsOf(directives: seq<(Option<string>, string)>, words: Vocabulary): seq<Bind> {
    if directives == [] then []
    else
      var last := directives[|directives| - 1];
      var front := BindsOf(directives[..|directives| - 1], words);
      if SectionKnown(last.0) && BindOf(last.1, words).Some? then front + [BindOf(last.1, words).value] else front
  }

  // ------------------------------------------------------------- what the reader is told

  datatype Problem = NoSuchSection | NotALine | SetAgain | ValueRefused | BelongsIn(owner: string) | NoSuchKey | BadDirective

  datatype Warning = Warning(line: nat, problem: Problem)

  /** The first other section that knows the key. */
  function OwnerFrom(key: string, writtenIn: string, sections: seq<string>): Option<string> {
    if sections == [] then None
    else if sections[0] != writtenIn && KindOf(sections[0], key).Some? then Some(sections[0])
    else OwnerFrom(key, writtenIn, sections[1..])
  }

  /** What is wrong with a line, given the lines in front of it. */
  function ProblemWith(front: File, line: ParsedLine, words: Vocabulary): Option<Problem> {
    var section := InForce(front);
    match line
    case Blank => None
    case Comment => None
    case Section(name) => if name in SECTIONS then None else Some(NoSuchSection)
    case Malformed => Some(NotALine)
    case Directive(text) => if SectionKnown(section) && BindOf(text, words).None? then Some(BadDirective) else None
    case Assignment(key, value, _) =>
      if !SectionKnown(section) then None
      else
        var name := if section.Some? then section.value else "";
        match ApplyAssignment(name, key, Unescape(value), words)
        case Applied(_) => if (section, key) in Settle(front, Judge(words)) then Some(SetAgain) else None
        case Refused => Some(ValueRefused)
        case Unknown =>
          match OwnerFrom(key, name, SECTIONS)
          case Some(owner) => Some(BelongsIn(owner))
          case None => Some(NoSuchKey)
  }

  function Warnings(file: File, words: Vocabulary): seq<Warning> {
    if file == [] then []
    else
      var front := file[..|file| - 1];
      match ProblemWith(front, file[|file| - 1], words)
      case Some(problem) => Warnings(front, words) + [Warning(|file|, problem)]
      case None => Warnings(front, words)
  }

  // ------------------------------------------------------------- the load loop

  lemma NoSectionKnowsNothing(key: string, value: string, words: Vocabulary)
    ensures ApplyAssignment("", key, value, words) == Unknown
  {
  }

  method SectionThatKnows(key: string, writtenIn: string) returns (owner: Option<string>)
    ensures owner == OwnerFrom(key, writtenIn, SECTIONS)
  {
    for i := 0 to |SECTIONS|
      invariant OwnerFrom(key, writtenIn, SECTIONS) == OwnerFrom(key, writtenIn, SECTIONS[i..])
    {
      if SECTIONS[i] != writtenIn && KindOf(SECTIONS[i], key).Some? { return Some(SECTIONS[i]); }
      assert SECTIONS[i..][1..] == SECTIONS[i + 1..];
    }
    return None;
  }

  method LoadLines(lines: seq<string>, words: Vocabulary)
    returns (settings: map<Place, Value>, binds: seq<Bind>, warnings: seq<Warning>)
    ensures settings == Settle(ReadFile(lines), Judge(words))
    ensures binds == BindsOf(Directives(ReadFile(lines)), words)
    ensures warnings == Warnings(ReadFile(lines), words)
  {
    hide ParseBody, KindOf, ReadKind, BindOf, Words, InForce, Settle, Warnings, BindsOf, Directives, ApplyAssignment, Unescape,
      OwnerFrom;
    settings, binds, warnings := map[], [], [];
    var section, sectionKnown := "", true;
    var applied: set<(string, string)> := {};
    ghost var file := ReadFile(lines);
    Nothing(file[..0], words);
    for i := 0 to |lines|
      invariant settings == Settle(file[..i], Judge(words))
      invariant binds == BindsOf(Directives(file[..i]), words)
      invariant warnings == Warnings(file[..i], words)
      invariant sectionKnown == SectionKnown(InForce(file[..i]))
      invariant section == if InForce(file[..i]).Some? then InForce(file[..i]).value else ""
      invariant forall s, k :: (s, k) in applied <==> (Some(s), k) in settings
      invariant forall k :: (None, k) !in settings
    {
      ghost var front := file[..i];
      LineStep(file, i, words);
      var parsed := ParseLine(lines[i]);
      match parsed {
        case Blank =>
        case Comment =>
        case Section(name) =>
          section := name;
          sectionKnown := section in SECTIONS;
          if !sectionKnown { warnings := warnings + [Warning(i + 1, NoSuchSection)]; }
        case Malformed =>
          warnings := warnings + [Warning(i + 1, NotALine)];
        case Assignment(key, value, _) =>
          if sectionKnown {
            NoSectionKnowsNothing(key, Unescape(value), words);
            var plain := UnescapeText(value);
            match ApplyAssignment(section, key, plain, words) {
              case Applied(v) =>
                if (section, key) in applied { warnings := warnings + [Warning(i + 1, SetAgain)]; }
                applied := applied + {(section, key)};
                settings := settings[(Some(section), key) := v];
              case Refused =>
                warnings := warnings + [Warning(i + 1, ValueRefused)];
              case Unknown =>
                var owner := SectionThatKnows(key, section);
                warnings := warnings + [Warning(i + 1, if owner.Some? then BelongsIn(owner.value) else NoSuchKey)];
            }
          } else {
            UnknownHeaderTeachesNothing(InForce(front), key, Unescape(value), words);
          }
        case Directive(text) =>
          if sectionKnown {
            match BindOf(text, words) {
              case Some(bind) => binds := binds + [bind];
              case None => warnings := warnings + [Warning(i + 1, BadDirective)];
            }
          }
      }
    }
    assert file[..|lines|] == file;
  }

  lemma Nothing(file: File, words: Vocabulary)
    requires file == []
    ensures InForce(file) == None && Settle(file, Judge(words)) == map[] && Warnings(file, words) == []
      && BindsOf(Directives(file), words) == []
  {
  }

  /** How each of the folds takes one more line. */
  lemma LineStep(file: File, i: nat, words: Vocabulary)
    requires i < |file|
    ensures var front, next, line := file[..i], file[..i + 1], file[i];
      && InForce(next) == (if line.Section? then Some(line.name) else InForce(front))
      && Settle(next, Judge(words)) == Assign(Settle(front, Judge(words)), InForce(front), line, Judge(words))
      && Warnings(next, words) == Warnings(front, words)
           + (match ProblemWith(front, line, words) case Some(p) => [Warning(i + 1, p)] case None => [])
      && BindsOf(Directives(next), words) == BindsOf(Directives(front), words)
           + (if line.Directive? && SectionKnown(InForce(front)) && BindOf(line.text, words).Some?
              then [BindOf(line.text, words).value] else [])
  {
    hide ProblemWith, BindOf, Assign, Judge;
    var front, next := file[..i], file[..i + 1];
    assert next[..i] == front && next[i] == file[i];
    if file[i].Directive? {
      var one := [(InForce(front), file[i].text)];
      assert (Directives(front) + one)[..|Directives(front)|] == Directives(front);
    } else {
      assert Directives(next) == Directives(front);
      assert BindsOf(Directives(front), words) + [] == BindsOf(Directives(front), words);
    }
    assert Warnings(front, words) + [] == Warnings(front, words);
  }

  lemma UnknownHeaderTeachesNothing(section: Option<string>, key: string, value: string, words: Vocabulary)
    requires !SectionKnown(section)
    ensures Judge(words)(section, key, value) == None
  {
    assert SECTIONS[0] == "general" && SECTIONS[1] == "terminal" && SECTIONS[2] == "printer" && SECTIONS[3] == "render";
  }

  // ------------------------------------------------------------- what every file loads to

  /** A setting's value, within what its key documents. */
  predicate InRange(kind: Kind, value: Value) {
    match kind
    case Number(minimum, maximum, _) => value.NumberValue? && minimum <= value.n <= maximum
    case ByteSize(_) => value.BytesValue? && value.bytes <= BYTE_SIZE_MAX
    case Flag(_) => value.FlagValue?
    case OneOf(names) => value.TextValue? && value.text in names
    case _ => value.TextValue?
  }

  lemma AcceptedInRange(kind: Kind, value: string, words: Vocabulary)
    ensures ReadKind(kind, value, words).Applied? ==> InRange(kind, ReadKind(kind, value, words).value)
  {
    if kind.ByteSize? { ByteSizeExactly(value); }
  }

  /** Whatever the file says, every setting it loads lies in its documented range. */
  lemma {:induction false} SettledInRange(file: File, words: Vocabulary)
    ensures forall place :: place in Settle(file, Judge(words)) ==>
      && place.0.Some? && KindOf(place.0.value, place.1).Some?
      && InRange(KindOf(place.0.value, place.1).value, Settle(file, Judge(words))[place])
  {
    hide KindOf, ReadKind, InRange;
    if file != [] {
      var front, line := file[..|file| - 1], file[|file| - 1];
      SettledInRange(front, words);
      if line.Assignment? && InForce(front).Some? {
        var kind := KindOf(InForce(front).value, line.key);
        if kind.Some? { AcceptedInRange(kind.value, Unescape(line.value), words); }
      }
    }
  }

  /** So does every setting after a load, the ones the file does not mention with them. */
  lemma LoadedNumbersInRange(text: string, section: string, key: string, words: Vocabulary)
    requires KindOf(section, key).Some? && (KindOf(section, key).value.Number? || KindOf(section, key).value.ByteSize?)
    ensures var setting := Setting(Meaning(text, Judge(words)), section, key);
      setting.Some? && InRange(KindOf(section, key).value, setting.value)
  {
    hide GeneralKey, TerminalKey, PrinterKey;
    SettledInRange(ReadFile(SplitLines(text)), words);
  }

  // ------------------------------------------------------------- a dialog's save, read back

  /**
   Saving a value its key accepts and loading the file again gives that value there, every other setting as it
   was, and the same binds: whatever the file held before, duplicates and malformed lines included.
   */
  lemma LoadAfterSave(text: string, section: string, key: string, value: string, words: Vocabulary)
    requires LegalEdit(section, key, value) && ApplyAssignment(section, key, value, words).Applied?
    ensures var before := Meaning(text, Judge(words));
      var after := Meaning(SavedText(text, section, key, value), Judge(words));
      && Setting(after, section, key) == Some(ApplyAssignment(section, key, value, words).value)
      && (forall s, k :: (s, k) != (section, key) ==> Setting(after, s, k) == Setting(before, s, k))
    ensures BindsOf(BindLines(SavedText(text, section, key, value)), words) == BindsOf(BindLines(text), words)
  {
    hide KindOf, ReadKind, LegalEdit, SavedText;
    SaveThenRead(text, section, key, value, Judge(words));
  }

  /** Every number a dialog stores under one of the numeric keys is the number the next load has. */
  lemma SavedNumberLoads(text: string, section: string, key: string, n: nat, words: Vocabulary)
    requires LegalSection(section) && OneLine(section) && LegalKey(key) && OneLine(key)
    requires KindOf(section, key).Some? && KindOf(section, key).value.Number?
    requires var kind := KindOf(section, key).value; kind.minimum <= n <= kind.maximum <= INT_MAX
    ensures Setting(Meaning(SavedText(text, section, key, Decimal(n)), Judge(words)), section, key) == Some(NumberValue(n))
  {
    hide GeneralKey, TerminalKey, PrinterKey;
    var kind, written := KindOf(section, key).value, Decimal(n);
    assert IsDigit(written[0]) && IsDigit(written[|written| - 1]);
    WrittenNumberReadsBack(n, kind.minimum, kind.maximum);
    LoadAfterSave(text, section, key, written, words);
  }

  /** How a dialog writes a switch. */
  function Spelled(on: bool): string {
    if on then "true" else "false"
  }

  /** A switch is read from exactly its two words, blanks around them apart. */
  lemma FlagExactly(text: string, on: bool)
    ensures ParseBool(text) == Some(on) <==> Trim(text) == Spelled(on)
  {
    assert "true"[0] != "false"[0];
  }

  /** Every switch a dialog stores is the one the next load has. */
  lemma SavedFlagLoads(text: string, section: string, key: string, on: bool, words: Vocabulary)
    requires LegalSection(section) && OneLine(section) && LegalKey(key) && OneLine(key)
    requires KindOf(section, key).Some? && KindOf(section, key).value.Flag?
    ensures Setting(Meaning(SavedText(text, section, key, Spelled(on)), Judge(words)), section, key) == Some(FlagValue(on))
  {
    hide GeneralKey, TerminalKey, PrinterKey;
    var written := Spelled(on);
    assert written[0] != ' ' && written[|written| - 1] == 'e';
    TrimIsTrimmed(written);
    FlagExactly(written, on);
    LoadAfterSave(text, section, key, written, words);
  }

  /** A size in bytes, or in units of 1024 bytes and its powers. */
  datatype Unit = Bytes | Kilo | Mega | Giga

  function UnitSize(unit: Unit): nat {
    match unit
    case Bytes => 1
    case Kilo => 0x400
    case Mega => 0x10_0000
    case Giga => 0x4000_0000
  }

  function Suffix(unit: Unit): string {
    match unit
    case Bytes => ""
    case Kilo => "K"
    case Mega => "M"
    case Giga => "G"
  }

  /** A size written with its unit is read as that many bytes, up to a gigabyte, and beyond is refused. */
  lemma WrittenSizeReadsBack(n: nat, unit: Unit)
    ensures ParseByteSize(Decimal(n) + Suffix(unit))
      == if n * UnitSize(unit) <= 0x4000_0000 then Some(n * UnitSize(unit)) else None
  {
    var digits, text := Decimal(n), Decimal(n) + Suffix(unit);
    DecimalValue(n);
    WrittenSizeShape(n, unit);
    ByteSizeExactly(text);
    hide DigitsValue, Decimal, Trim, ParseByteSize, Digits;
    if unit.Bytes? {
      assert text == digits;
    } else {
      assert text[..|text| - 1] == digits;
    }
  }

  lemma WrittenSizeShape(n: nat, unit: Unit)
    ensures var text := Decimal(n) + Suffix(unit);
      && Trimmed(text) && Trim(text) == text && text != "" && Multiplier(text) == UnitSize(unit) && OneLine(text)
  {
    var digits := Decimal(n);
    hide Decimal;
    SizeEnds(digits, unit);
    SizeIsOneLine(digits, unit);
    TrimIsTrimmed(digits + Suffix(unit));
  }

  lemma SizeEnds(digits: string, unit: Unit)
    requires Digits(digits)
    ensures var text := digits + Suffix(unit); Trimmed(text) && text != "" && Multiplier(text) == UnitSize(unit)
  {
    var text := digits + Suffix(unit);
    assert IsDigit(digits[0]) && IsDigit(digits[|digits| - 1]) && text[0] == digits[0];
    if unit.Bytes? { assert text == digits; } else { assert text[|text| - 1] == Suffix(unit)[0]; }
  }

  lemma SizeIsOneLine(digits: string, unit: Unit)
    requires Digits(digits)
    ensures OneLine(digits + Suffix(unit))
  {
    assert forall i :: 0 <= i < |digits| ==> IsDigit(digits[i]);
  }

  /** So every size a dialog stores in bytes or in a unit is the one the next load has. */
  lemma SavedSizeLoads(text: string, section: string, key: string, n: nat, unit: Unit, words: Vocabulary)
    requires LegalSection(section) && OneLine(section) && LegalKey(key) && OneLine(key)
    requires KindOf(section, key).Some? && KindOf(section, key).value.ByteSize? && n * UnitSize(unit) <= 0x4000_0000
    ensures Setting(Meaning(SavedText(text, section, key, Decimal(n) + Suffix(unit)), Judge(words)), section, key)
      == Some(BytesValue(n * UnitSize(unit)))
  {
    hide GeneralKey, TerminalKey, PrinterKey, Decimal, Suffix, UnitSize, ParseByteSize;
    var written := Decimal(n) + Suffix(unit);
    WrittenSizeShape(n, unit);
    WrittenSizeReadsBack(n, unit);
    LoadAfterSave(text, section, key, written, words);
  }

  /** A minus sign makes the number negative, and nothing else of it changes. */
  lemma NegativeReadsBack(n: nat, minimum: int, maximum: int)
    requires INT_MIN <= minimum && maximum <= INT_MAX
    ensures ParseIntInRange("-" + Decimal(n), minimum, maximum) == if minimum <= 0 - n <= maximum then Some(0 - n) else None
  {
    DecimalValue(n);
    var digits, text := Decimal(n), "-" + Decimal(n);
    assert IsDigit(digits[|digits| - 1]);
    TrimIsTrimmed(text);
    assert text[1..] == digits;
    hide DigitsValue, Decimal, Trim;
  }

  /** Every choice a dialog stores is the one the next load has. */
  lemma SavedChoiceLoads(text: string, section: string, key: string, choice: string, words: Vocabulary)
    requires LegalEdit(section, key, choice)
    requires KindOf(section, key).Some? && KindOf(section, key).value.OneOf? && choice in KindOf(section, key).value.names
    ensures Setting(Meaning(SavedText(text, section, key, choice), Judge(words)), section, key) == Some(TextValue(choice))
  {
    hide KindOf, LegalEdit, SavedText, Meaning, Judge, Setting;
    LoadAfterSave(text, section, key, choice, words);
  }

  /** The shell is as it is written, and `$SHELL` the usual one. */
  lemma SavedShellLoads(text: string, value: string, words: Vocabulary)
    requires Trimmed(value) && OneLine(value)
    ensures Setting(Meaning(SavedText(text, "general", "shell", value), Judge(words)), "general", "shell")
      == Some(TextValue(if value == "$SHELL" then "" else value))
  {
    var section, key := "general", "shell";
    assert KindOf(section, key) == Some(Shell) && LegalEdit(section, key, value);
    hide KindOf, LegalEdit, SavedText, Meaning, Judge, Setting;
    LoadAfterSave(text, section, key, value, words);
  }

  /** So is the terminal name, and none at all is the usual one. */
  lemma SavedTermLoads(text: string, value: string, words: Vocabulary)
    requires Trimmed(value) && OneLine(value)
    ensures Setting(Meaning(SavedText(text, "terminal", "term", value), Judge(words)), "terminal", "term")
      == Some(TextValue(if value == "" then "auto" else value))
  {
    var section, key := "terminal", "term";
    assert KindOf(section, key) == Some(TermName) && LegalEdit(section, key, value);
    hide KindOf, LegalEdit, SavedText, Meaning, Judge, Setting;
    LoadAfterSave(text, section, key, value, words);
  }

  lemma SavedFolderLoads(text: string, value: string, words: Vocabulary)
    requires Trimmed(value) && OneLine(value)
    ensures Setting(Meaning(SavedText(text, "printer", "save-folder", value), Judge(words)), "printer", "save-folder")
      == Some(TextValue(value))
  {
    var section, key := "printer", "save-folder";
    assert KindOf(section, key) == Some(Folder) && LegalEdit(section, key, value);
    hide KindOf, LegalEdit, SavedText, Meaning, Judge, Setting;
    LoadAfterSave(text, section, key, value, words);
  }

  /** The prefix is the chord that was spelled. */
  lemma SavedPrefixLoads(text: string, value: string, words: Vocabulary)
    requires Trimmed(value) && OneLine(value) && words.chord(value).Some?
    ensures Setting(Meaning(SavedText(text, "general", "prefix", value), Judge(words)), "general", "prefix")
      == Some(TextValue(words.chord(value).value))
  {
    var section, key := "general", "prefix";
    assert KindOf(section, key) == Some(Chord) && LegalEdit(section, key, value);
    hide KindOf, LegalEdit, SavedText, Meaning, Judge, Setting;
    LoadAfterSave(text, section, key, value, words);
  }

  lemma SavedClipboardLoads(text: string, value: string, words: Vocabulary)
    requires Trimmed(value) && OneLine(value) && words.clipboard(value).Some?
    ensures Setting(Meaning(SavedText(text, "terminal", "clipboard", value), Judge(words)), "terminal", "clipboard")
      == Some(TextValue(words.clipboard(value).value))
  {
    var section, key := "terminal", "clipboard";
    assert KindOf(section, key) == Some(Clipboard) && LegalEdit(section, key, value);
    hide KindOf, LegalEdit, SavedText, Meaning, Judge, Setting;
    LoadAfterSave(text, section, key, value, words);
  }

  // ------------------------------------------------------------- the documented table

  /** What a reader is told of a key: its default, and what it takes. */
  datatype Told = Switch(usual: bool) | Between(least: int, usualNumber: int, most: int) | Size(usualSize: nat)
    | Choice(usualWord: string, others: set<string>) | Spelling

  function ToldOfGeneral(key: string): Option<Told> {
    if key in ["login-shell", "confirm-kill", "kill-empty-session"] then Some(Switch(true))
    else if key in ["audible-bell", "resize-windows-to-fit", "show-cpu", "show-memory-rss", "show-memory-real"] then Some(Switch(false))
    else if key == "scrollback" then Some(Between(0, 10000, 1000000))
    else if key == "max-terminals" then Some(Between(1, 64, 4096))
    else if key == "kill-grace-seconds" then Some(Between(0, 5, 600))
    else if key == "theme" then Some(Choice("dark", {"light", "mono"}))
    else if key == "on-exit" then Some(Choice("hold-on-error", {"close", "hold"}))
    else if key == "clock" then Some(Choice("seconds", {"minutes", "off"}))
    else if key == "desktop-size" then Some(Choice("fixed", {"fit-smallest", "fit-latest"}))
    else if key in ["prefix", "shell"] then Some(Spelling)
    else None
  }

  function ToldOfTerminal(key: string): Option<Told> {
    if key in ["mouse", "alternate-scroll", "osc52"] then Some(Switch(true))
    else if key == "sixel" then Some(Choice("auto", {"off"}))
    else if key == "sixel-max-megapixels" then Some(Between(1, 64, 4096))
    else if key in ["term", "clipboard"] then Some(Spelling)
    else None
  }

  function ToldOfPrinter(key: string): Option<Told> {
    if key == "mode" then Some(Choice("ask", {"capture", "off"}))
    else if key == "ask-cache" then Some(Size(262144))
    else if key == "spool-limit" then Some(Size(1048576))
    else if key == "save-format" then Some(Choice("txt", {"ansi"}))
    else if key == "save-ask-name" then Some(Switch(true))
    else if key == "save-folder" then Some(Spelling)
    else None
  }

  function ToldOf(section: string, key: string): Option<Told> {
    match section
    case "general" => ToldOfGeneral(key)
    case "terminal" => ToldOfTerminal(key)
    case "printer" => ToldOfPrinter(key)
    case "render" => if key == "max-fps" then Some(Between(1, 30, 240)) else None
    case _ => None
  }

  /** A kind of key takes what is told of it, and its default is the one told. */
  ghost predicate Takes(kind: Kind, told: Told) {
    match told
    case Switch(usual) => kind == Flag(usual)
    case Between(least, usual, most) => kind == Number(least, most, usual)
    case Size(usual) => kind == ByteSize(usual)
    case Choice(usual, others) =>
      kind.OneOf? && kind.names != [] && kind.names[0] == usual && forall name :: name in kind.names <==> name == usual || name in others
    case Spelling => kind.Chord? || kind.Shell? || kind.TermName? || kind.Clipboard? || kind.Folder?
  }

  ghost predicate Agree(kind: Option<Kind>, told: Option<Told>) {
    (kind.Some? <==> told.Some?) && (kind.Some? ==> Takes(kind.value, told.value))
  }

  lemma GeneralAgrees(key: string)
    ensures Agree(GeneralKey(key), ToldOfGeneral(key))
  {
    if |key| < 9 {
      assert Agree(GeneralKey(key), ToldOfGeneral(key));
    } else if |key| < 13 {
      assert Agree(GeneralKey(key), ToldOfGeneral(key));
    }
  }

  lemma TerminalAgrees(key: string)
    ensures Agree(TerminalKey(key), ToldOfTerminal(key))
  {
  }

  lemma PrinterAgrees(key: string)
    ensures Agree(PrinterKey(key), ToldOfPrinter(key))
  {
  }

  /** What a key is at when no file says anything of it; of a spelling that is for others to say. */
  function Usual(told: Told): Option<Value> {
    match told
    case Switch(usual) => Some(FlagValue(usual))
    case Between(_, usual, _) => Some(NumberValue(usual))
    case Size(usual) => Some(BytesValue(usual))
    case Choice(usual, _) => Some(TextValue(usual))
    case Spelling => None
  }

  /** The keys there are, their defaults and what they take are those documented, and with no file each is at its default. */
  lemma KeysAreDocumented(section: string, key: string)
    ensures Agree(KindOf(section, key), ToldOf(section, key))
    ensures ToldOf(section, key).Some? ==> Setting(map[], section, key) == Usual(ToldOf(section, key).value)
  {
    GeneralAgrees(key);
    TerminalAgrees(key);
    PrinterAgrees(key);
    hide GeneralKey, TerminalKey, PrinterKey, ToldOfGeneral, ToldOfTerminal, ToldOfPrinter;
  }

  // ------------------------------------------------------------- nothing is ignored in silence

  /** The line is obeyed: it says nothing, or what it says is in force in the loaded settings. */
  predicate Obeyed(file: File, i: nat, words: Vocabulary)
    requires i < |file|
  {
    var section := InForce(file[..i]);
    match file[i]
    case Blank => true
    case Comment => true
    case Section(name) => name in SECTIONS
    case Malformed => false
    case Directive(text) => BindOf(text, words).Some?
    case Assignment(key, value, _) =>
      var taken := Judge(words)(section, key, Unescape(value));
      taken.Some? && (section, key) in Settle(file, Judge(words)) && Settle(file, Judge(words))[(section, key)] == taken.value
  }

  /** A file that loads without a warning is obeyed in every line, the earlier of two lines never excepted. */
  lemma {:induction false} NoWarningMeansObeyed(file: File, words: Vocabulary)
    requires Warnings(file, words) == []
    ensures SectionKnown(InForce(file))
    ensures forall i :: 0 <= i < |file| ==> Obeyed(file, i, words)
  {
    hide KindOf, ReadKind, BindOf;
    if file != [] {
      var n := |file| - 1;
      var front, line := file[..n], file[n];
      NoWarningMeansObeyed(front, words);
      forall i | 0 <= i < |file| ensures Obeyed(file, i, words) {
        if i < n {
          assert Obeyed(front, i, words);
          assert front[..i] == file[..i] && front[i] == file[i];
        } else if line.Assignment? {
          NoSectionKnowsNothing(line.key, Unescape(line.value), words);
        }
      }
    }
  }

  // ------------------------------------------------------------- which lines are warned of

  /** An earlier line settled the place. */
  ghost predicate SettledBefore(file: File, i: nat, place: Place, words: Vocabulary)
    requires i <= |file|
  {
    exists j :: 0 <= j < i && Accepted(file, j, place, Judge(words))
  }

  lemma SettledExactly(file: File, i: nat, place: Place, words: Vocabulary)
    requires i <= |file|
    ensures place in Settle(file[..i], Judge(words)) <==> SettledBefore(file, i, place, words)
  {
    hide Settle, Accepted, Judge;
    forall j | 0 <= j < i ensures Accepted(file[..i], j, place, Judge(words)) == Accepted(file, j, place, Judge(words)) {
      AcceptedPrefix(file, j, i, place, Judge(words));
    }
    if SettledBefore(file, i, place, words) {
      var j :| 0 <= j < i && Accepted(file, j, place, Judge(words));
      var last := LastAccepted(file[..i], j, place, words);
      LastAcceptedWins(file[..i], last, place, Judge(words));
    } else {
      NoneAcceptedNoValue(file[..i], place, Judge(words));
    }
  }

  lemma {:induction false} LastAccepted(file: File, j: nat, place: Place, words: Vocabulary) returns (last: nat)
    requires j < |file| && Accepted(file, j, place, Judge(words))
    ensures last < |file| && Accepted(file, last, place, Judge(words))
    ensures forall k :: last < k < |file| ==> !Accepted(file, k, place, Judge(words))
    decreases |file| - j
  {
    hide Accepted, Judge;
    if k :| j < k < |file| && Accepted(file, k, place, Judge(words)) {
      last := LastAccepted(file, k, place, words);
    } else {
      last := j;
    }
  }

  /**
   A line the loader has nothing against: no assignment or directive under a header it knows that does not take, none
   that says again what an earlier line has settled, no header it does not know, nothing it cannot read.
   */
  ghost predicate Fine(file: File, i: nat, words: Vocabulary)
    requires i < |file|
  {
    var section := InForce(file[..i]);
    var ignored := section.Some? && section.value !in ["general", "terminal", "printer", "render", "keys"];
    match file[i]
    case Blank => true
    case Comment => true
    case Malformed => false
    case Section(name) => name in ["general", "terminal", "printer", "render", "keys"]
    case Directive(text) => ignored || BindOf(text, words).Some?
    case Assignment(key, value, _) =>
      ignored || (Accepted(file, i, (section, key), Judge(words)) && !SettledBefore(file, i, (section, key), words))
  }

  /** One of the warnings is of the line. */
  ghost predicate LineNamed(warnings: seq<Warning>, line: nat) {
    exists w :: 0 <= w < |warnings| && warnings[w].line == line
  }

  lemma LineNamedMore(warnings: seq<Warning>, warning: Warning, line: nat)
    ensures LineNamed(warnings + [warning], line) <==> LineNamed(warnings, line) || line == warning.line
  {
    var more := warnings + [warning];
    assert more[|warnings|] == warning;
    assert forall w :: 0 <= w < |warnings| ==> more[w] == warnings[w];
  }

  lemma NotYetNamed(warnings: seq<Warning>, n: nat)
    requires LinesInOrder(warnings, n)
    ensures !LineNamed(warnings, n + 1)
  {
  }

  /** A line is warned of exactly if it is not fine. */
  lemma WarnedExactly(file: File, i: nat, words: Vocabulary)
    requires i < |file|
    ensures ProblemWith(file[..i], file[i], words).Some? <==> !Fine(file, i, words)
    ensures LineNamed(Warnings(file, words), i + 1) <==> !Fine(file, i, words)
  {
    ProblemExactly(file, i, words);
    WarnedWhere(file, i, words);
    hide ProblemWith, Fine, Warnings;
  }

  lemma ProblemExactly(file: File, i: nat, words: Vocabulary)
    requires i < |file|
    ensures ProblemWith(file[..i], file[i], words).Some? <==> !Fine(file, i, words)
  {
    if file[i].Assignment? {
      SettledExactly(file, i, (InForce(file[..i]), file[i].key), words);
      NoSectionKnowsNothing(file[i].key, Unescape(file[i].value), words);
    }
    hide Settle, SettledBefore, KindOf, ReadKind, BindOf, OwnerFrom, InForce, Unescape;
  }

  lemma {:induction false} WarnedWhere(file: File, i: nat, words: Vocabulary)
    requires i < |file|
    ensures LineNamed(Warnings(file, words), i + 1) <==> ProblemWith(file[..i], file[i], words).Some?
  {
    hide ProblemWith, LineNamed, LinesInOrder;
    var n := |file| - 1;
    var front, problem := Warnings(file[..n], words), ProblemWith(file[..n], file[n], words);
    WarningsNameLines(file[..n], words);
    NotYetNamed(front, n);
    if problem.Some? { LineNamedMore(front, Warning(|file|, problem.value), i + 1); }
    if i < n {
      WarnedWhere(file[..n], i, words);
      assert file[..n][..i] == file[..i];
    }
  }

  lemma {:induction false} OwnerIsFirst(key: string, writtenIn: string, sections: seq<string>)
    ensures match OwnerFrom(key, writtenIn, sections)
      case Some(owner) =>
        exists i :: 0 <= i < |sections| && sections[i] == owner && owner != writtenIn && KindOf(owner, key).Some?
          && forall j :: 0 <= j < i ==> sections[j] == writtenIn || KindOf(sections[j], key).None?
      case None => forall j :: 0 <= j < |sections| ==> sections[j] == writtenIn || KindOf(sections[j], key).None?
  {
    hide KindOf;
    if sections != [] && !(sections[0] != writtenIn && KindOf(sections[0], key).Some?) {
      var rest := sections[1..];
      OwnerIsFirst(key, writtenIn, rest);
      var owner := OwnerFrom(key, writtenIn, rest);
      assert forall j :: 0 <= j < |rest| ==> rest[j] == sections[j + 1];
      if owner.Some? {
        var i :| 0 <= i < |rest| && rest[i] == owner.value && owner.value != writtenIn && KindOf(owner.value, key).Some?
          && forall j :: 0 <= j < i ==> rest[j] == writtenIn || KindOf(rest[j], key).None?;
        assert sections[i + 1] == owner.value;
        forall j | 0 <= j < i + 1 ensures sections[j] == writtenIn || KindOf(sections[j], key).None? {
          if j > 0 { assert rest[j - 1] == sections[j]; }
        }
      } else {
        forall j | 0 <= j < |sections| ensures sections[j] == writtenIn || KindOf(sections[j], key).None? {
          if j > 0 { assert rest[j - 1] == sections[j]; }
        }
      }
    }
  }

  /** The section a misplaced key is said to belong in is the first other that has the key, and there is none if none is named. */
  lemma OwnerKnows(key: string, writtenIn: string)
    ensures var owner := OwnerFrom(key, writtenIn, SECTIONS);
      && (owner.Some? ==> owner.value != writtenIn && ToldOf(owner.value, key).Some?)
      && (owner.None? ==> forall section :: section in SECTIONS && section != writtenIn ==> ToldOf(section, key).None?)
  {
    OwnerIsFirst(key, writtenIn, SECTIONS);
    forall section ensures KindOf(section, key).Some? <==> ToldOf(section, key).Some? {
      KeysAreDocumented(section, key);
    }
    hide KindOf, ToldOf, OwnerFrom;
  }

  /** A key of that section, by the documentation. */
  predicate Documented(section: Option<string>, key: string) {
    section.Some? && ToldOf(section.value, key).Some?
  }

  /** A fault said of a line is the one it has. */
  ghost predicate FaultOf(file: File, i: nat, words: Vocabulary, problem: Problem)
    requires i < |file|
  {
    var section, line := InForce(file[..i]), file[i];
    match problem
    case NoSuchSection => line.Section?
    case NotALine => line.Malformed?
    case BadDirective => line.Directive?
    case SetAgain => line.Assignment? && Documented(section, line.key) && Accepted(file, i, (section, line.key), Judge(words))
    case ValueRefused => line.Assignment? && Documented(section, line.key) && !Accepted(file, i, (section, line.key), Judge(words))
    case BelongsIn(owner) => line.Assignment? && !Documented(section, line.key) && Documented(Some(owner), line.key)
    case NoSuchKey =>
      line.Assignment? && forall other :: other in SECTIONS ==> !Documented(Some(other), line.key)
  }

  /** A warning says what is wrong: of a key, whether it is of another section, of none, refused, or set before. */
  lemma FaultIsNamed(file: File, i: nat, words: Vocabulary)
    requires i < |file| && ProblemWith(file[..i], file[i], words).Some?
    ensures FaultOf(file, i, words, ProblemWith(file[..i], file[i], words).value)
  {
    var section, line := InForce(file[..i]), file[i];
    if line.Assignment? {
      var name := if section.Some? then section.value else "";
      KeysAreDocumented(name, line.key);
      OwnerKnows(line.key, name);
      NoSectionKnowsNothing(line.key, Unescape(line.value), words);
      OutcomeIs(name, line.key, Unescape(line.value), words);
      NoSectionHasNone(line.key);
      AcceptedIs(file, i, words);
      hide Settle, KindOf, ReadKind, OwnerFrom, InForce, Unescape, ToldOf, ApplyAssignment, Accepted, Judge, Agree, Setting;
    }
  }

  lemma AcceptedIs(file: File, i: nat, words: Vocabulary)
    requires i < |file| && file[i].Assignment?
    ensures var section, line := InForce(file[..i]), file[i];
      Accepted(file, i, (section, line.key), Judge(words)) <==>
        section.Some? && ApplyAssignment(section.value, line.key, Unescape(line.value), words).Applied?
  {
    hide ApplyAssignment, InForce, Unescape;
  }

  lemma NoSectionHasNone(key: string)
    ensures ToldOf("", key).None?
  {
  }

  lemma OutcomeIs(section: string, key: string, value: string, words: Vocabulary)
    ensures ApplyAssignment(section, key, value, words).Unknown? <==> KindOf(section, key).None?
  {
  }

  // ------------------------------------------------------------- a bind, written and read

  /** A `bind` line says its context, chord and action, in that order, and is one exactly if all three are known. */
  lemma BindReads(context: string, chord: string, action: string, words: Vocabulary)
    requires PlainWord(context) && PlainWord(chord) && PlainWord(action)
    ensures BindOf(WordsLine(["bind", context, chord, action]), words) ==
      if words.context(context).Some? && words.chord(chord).Some? && words.action(action).Some?
      then Some(Bind(words.context(context).value, words.chord(chord).value, Some(words.action(action).value))) else None
  {
    var parts := ["bind", context, chord, action];
    assert forall k :: 0 <= k < 4 ==> PlainWord(parts[k]);
    WordsReadBack(parts);
    hide WordsLine, PlainWord, Words;
  }

  lemma UnbindReads(context: string, chord: string, words: Vocabulary)
    requires PlainWord(context) && PlainWord(chord)
    ensures BindOf(WordsLine(["unbind", context, chord]), words) ==
      if words.context(context).Some? && words.chord(chord).Some?
      then Some(Bind(words.context(context).value, words.chord(chord).value, None)) else None
  {
    var parts := ["unbind", context, chord];
    assert forall k :: 0 <= k < 3 ==> PlainWord(parts[k]);
    WordsReadBack(parts);
    hide WordsLine, PlainWord, Words;
  }

  /** Any other number of words is no bind. */
  lemma BindCounts(text: string, words: Vocabulary)
    ensures BindOf(text, words).Some? ==> |Words(text)| == if Words(text)[0] == "unbind" then 3 else 4
  {
  }

  /** A `bind` line added to a file, in the keys section, adds its bind behind those the file has. */
  lemma BindLineLoads(lines: seq<string>, context: string, chord: string, action: string, words: Vocabulary)
    requires PlainWord(context) && PlainWord(chord) && PlainWord(action) && SectionKnown(InForce(ReadFile(lines)))
    requires words.context(context).Some? && words.chord(chord).Some? && words.action(action).Some?
    ensures BindsOf(Directives(ReadFile(lines + [WordsLine(["bind", context, chord, action])])), words)
      == BindsOf(Directives(ReadFile(lines)), words)
         + [Bind(words.context(context).value, words.chord(chord).value, Some(words.action(action).value))]
  {
    var parts := ["bind", context, chord, action];
    assert parts[0] == "bind" && |parts| == 4;
    assert forall k :: 0 <= k < 4 ==> PlainWord(parts[k]);
    hide *;
    BindReads(context, chord, action, words);
    DirectiveReadsBack(parts);
    DirectiveAdds(lines, WordsLine(parts), words);
  }

  lemma DirectiveAdds(lines: seq<string>, line: string, words: Vocabulary)
    requires ParseLine(line) == Directive(line) && SectionKnown(InForce(ReadFile(lines))) && BindOf(line, words).Some?
    ensures BindsOf(Directives(ReadFile(lines + [line])), words) == BindsOf(Directives(ReadFile(lines)), words) + [BindOf(line, words).value]
  {
    hide BindOf, ParseLine, InForce, Directives, BindsOf, SectionKnown;
    var file := ReadFile(lines + [line]);
    assert file[..|lines|] == ReadFile(lines) && file[..|lines| + 1] == file && file[|lines|] == ParseLine(line);
    LineStep(file, |lines|, words);
  }

  /** Line numbers of a file of `n` lines, each once and in order. */
  predicate LinesInOrder(warnings: seq<Warning>, n: nat) {
    && (forall i :: 0 <= i < |warnings| ==> 1 <= warnings[i].line <= n)
    && (forall i, j :: 0 <= i < j < |warnings| ==> warnings[i].line < warnings[j].line)
  }

  /** One warning a line at most, in the order of the lines, each naming a line of the file. */
  lemma {:induction false} WarningsNameLines(file: File, words: Vocabulary)
    ensures LinesInOrder(Warnings(file, words), |file|)
  {
    if file != [] {
      var front := file[..|file| - 1];
      WarningsNameLines(front, words);
      if ProblemWith(front, file[|file| - 1], words).Some? {
        AppendInOrder(Warnings(front, words), |front|, ProblemWith(front, file[|file| - 1], words).value);
      }
    }
  }

  lemma AppendInOrder(warnings: seq<Warning>, n: nat, problem: Problem)
    requires LinesInOrder(warnings, n)
    ensures LinesInOrder(warnings + [Warning(n + 1, problem)], n + 1)
  {
  }
}
