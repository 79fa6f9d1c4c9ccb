/**
 What a client's side of an attachment says and hears (src/client/server_session.cpp), as one record of events
 in order, and what that order promises to the window layer and to the server.
 */
module SessionTrace {
  import opened Wire

  datatype Event =
    | Opened(term: TermId)                               // the window layer is told of a terminal
    | Closed(term: TermId)                               // ... and that one has gone
    | LayoutStated(terms: seq<TermId>, snapshot: bool)   // ... and where windows belong
    | Forgotten                                          // the window layer has taken its windows down
    | Lost                                               // the connection has gone
    | Asked(session: nat)                                // an attach is sent on the client's own account
    | Healed(session: nat)                               // an attach is sent because a mirror is out of step
    | Granted(session: nat)                              // an attachment arrives, with a snapshot
    | Ended                                              // a detach arrives
    | Reported(layout: seq<LayoutEntry>)                 // an arrangement is sent

  /** What a record leaves true. */
  datatype Told = Told(held: set<TermId>, shown: set<TermId>, session: nat, attached: bool, healing: bool,
                       reported: seq<LayoutEntry>)

  const UNTOLD := Told({}, {}, 0, false, false, [])

  function After(told: Told, event: Event): Told {
    match event
    case Opened(term) => told.(held := told.held + {term}, shown := told.shown + {term})
    case Closed(term) => told.(held := told.held - {term}, shown := told.shown - {term})
    case LayoutStated(_, _) => told
    case Forgotten => told.(shown := {})
    case Lost => UNTOLD
    case Asked(session) =>
      told.(session := session, healing := false, reported := if session != told.session then [] else told.reported)
    case Healed(_) => told.(healing := true)
    case Granted(session) => told.(session := session, attached := true, healing := false)
    case Ended => told.(attached := false, reported := [])
    case Reported(layout) => told.(reported := layout)
  }

  function Tell(record: seq<Event>): Told {
    if record == [] then UNTOLD else After(Tell(record[..|record| - 1]), record[|record| - 1])
  }

  /** The rules a session keeps, one event at a time. */
  predicate Allowed(told: Told, event: Event) {
    match event
    case Opened(term) => term !in told.shown
    case Closed(term) => term in told.held
    case LayoutStated(terms, snapshot) => snapshot ==> forall i :: 0 <= i < |terms| ==> terms[i] in told.shown
    case Healed(session) => !told.healing && session == told.session
    case Reported(layout) => told.attached && layout != [] && layout != told.reported
    case _ => true
  }

  predicate Lawful(record: seq<Event>) {
    record != [] ==>
      var front, last := record[..|record| - 1], record[|record| - 1];
      Lawful(front) && Allowed(Tell(front), last)
  }

  lemma LawfulAppend(record: seq<Event>, event: Event)
    requires Lawful(record) && Allowed(Tell(record), event)
    ensures Lawful(record + [event]) && Tell(record + [event]) == After(Tell(record), event)
    ensures Heals(record + [event]) == Heals(record) + if event.Healed? then 1 else 0
    ensures Grants(record + [event]) == Grants(record) + if event.Granted? then 1 else 0
  {
    hide Allowed, After;
    assert (record + [event])[..|record|] == record;
  }

  lemma {:induction false} LawfulAt(record: seq<Event>, i: nat)
    requires Lawful(record) && i < |record|
    ensures Lawful(record[..i]) && Allowed(Tell(record[..i]), record[i])
  {
    hide Allowed, Tell;
    var n := |record| - 1;
    if i < n {
      LawfulAt(record[..n], i);
      assert record[..n][..i] == record[..i];
    }
  }

  /** What an event adds to a record, read as one step. */
  lemma TellStep(record: seq<Event>, i: nat)
    requires i < |record|
    ensures Tell(record[..i + 1]) == After(Tell(record[..i]), record[i])
  {
    hide After;
    assert record[..i + 1][..i] == record[..i];
  }

  function Heals(record: seq<Event>): nat {
    if record == [] then 0 else Heals(record[..|record| - 1]) + if record[|record| - 1].Healed? then 1 else 0
  }

  function Grants(record: seq<Event>): nat {
    if record == [] then 0 else Grants(record[..|record| - 1]) + if record[|record| - 1].Granted? then 1 else 0
  }

  /** The terminals an interval announces, and those it closes. */
  function OpenedIn(events: seq<Event>): set<TermId> {
    if events == [] then {}
    else
      OpenedIn(events[..|events| - 1]) + match events[|events| - 1] { case Opened(term) => {term} case _ => {} }
  }

  function ClosedIn(events: seq<Event>): set<TermId> {
    if events == [] then {}
    else
      ClosedIn(events[..|events| - 1]) + match events[|events| - 1] { case Closed(term) => {term} case _ => {} }
  }

  predicate OnlyWindows(events: seq<Event>) {
    forall i :: 0 <= i < |events| ==> events[i].Opened? || events[i].Closed?
  }

  /** Since an earlier record nothing was said but that these windows appeared and those went. */
  predicate Windows(before: seq<Event>, now: seq<Event>, shown: set<TermId>, gone: set<TermId>) {
    && before <= now && OnlyWindows(now[|before|..])
    && OpenedIn(now[|before|..]) == shown && ClosedIn(now[|before|..]) == gone
  }

  lemma NoWindows(record: seq<Event>)
    ensures Windows(record, record, {}, {})
  {
  }

  lemma OneMoreWindow(before: seq<Event>, now: seq<Event>, shown: set<TermId>, gone: set<TermId>, event: Event)
    requires Windows(before, now, shown, gone)
    ensures event.Opened? ==> Windows(before, now + [event], shown + {event.term}, gone)
    ensures event.Closed? ==> Windows(before, now + [event], shown, gone + {event.term})
  {
    var windows := now[|before|..];
    assert (now + [event])[|before|..] == windows + [event];
    assert (windows + [event])[..|windows|] == windows;
  }

  lemma {:induction false} WindowsJoin(a: seq<Event>, b: seq<Event>)
    requires OnlyWindows(a) && OnlyWindows(b)
    ensures OnlyWindows(a + b)
    ensures OpenedIn(a + b) == OpenedIn(a) + OpenedIn(b) && ClosedIn(a + b) == ClosedIn(a) + ClosedIn(b)
  {
    if b == [] {
      assert a + b == a;
    } else {
      var front := b[..|b| - 1];
      WindowsJoin(a, front);
      assert (a + b)[..|a + b| - 1] == a + front;
    }
  }

  lemma WindowsFollow(first: seq<Event>, middle: seq<Event>, last: seq<Event>,
                      shownA: set<TermId>, shownB: set<TermId>, goneA: set<TermId>, goneB: set<TermId>)
    requires Windows(first, middle, shownA, goneA) && Windows(middle, last, shownB, goneB)
    ensures Windows(first, last, shownA + shownB, goneA + goneB)
  {
    var a, b := middle[|first|..], last[|middle|..];
    WindowsJoin(a, b);
    assert last[|first|..] == a + b;
  }

  // ------------------------------------------------------------- windows

  /** Events after which a terminal may be announced again. */
  predicate TakesDown(event: Event, term: TermId) {
    event == Closed(term) || event.Forgotten? || event.Lost?
  }

  /** Some event from `start` up to `end` takes the window down. */
  predicate TakenDown(record: seq<Event>, start: nat, end: nat, term: TermId)
    requires end <= |record|
  {
    exists k :: start <= k < end && TakesDown(record[k], term)
  }

  /** A window once shown stays shown until something takes it down. */
  lemma {:induction false} ShownUntilTakenDown(record: seq<Event>, start: nat, end: nat, term: TermId)
    requires start <= end <= |record| && term in Tell(record[..start]).shown
    requires !TakenDown(record, start, end, term)
    ensures term in Tell(record[..end]).shown
    decreases end
  {
    hide Tell;
    if start < end {
      ShownUntilTakenDown(record, start, end - 1, term);
      TellStep(record, end - 1);
      assert !TakesDown(record[end - 1], term);
    }
  }

  /** A terminal is never announced twice without a close, windows forgotten or a connection lost in between. */
  lemma NeverOpenedTwice(record: seq<Event>, i: nat, j: nat, term: TermId)
    requires Lawful(record) && i < j < |record| && record[i] == Opened(term) && record[j] == Opened(term)
    ensures TakenDown(record, i + 1, j, term)
  {
    hide Tell, Lawful, TakenDown;
    LawfulAt(record, j);
    TellStep(record, i);
    if !TakenDown(record, i + 1, j, term) { ShownUntilTakenDown(record, i + 1, j, term); }
  }

  /** What is shown was announced, and nothing has taken it down since. */
  predicate OpenedSince(record: seq<Event>, i: nat, end: nat, term: TermId)
    requires end <= |record|
  {
    i < end && record[i] == Opened(term) && !TakenDown(record, i, end, term)
  }

  lemma {:induction false} ShownWasOpened(record: seq<Event>, end: nat, term: TermId) returns (i: nat)
    requires end <= |record| && term in Tell(record[..end]).shown
    ensures OpenedSince(record, i, end, term)
  {
    hide Tell;
    if end == 0 {
      i := 0;
      NothingShown(record[..0]);
      assert false;
    } else {
      TellStep(record, end - 1);
      if record[end - 1] == Opened(term) {
        i := end - 1;
      } else {
        i := ShownWasOpened(record, end - 1, term);
      }
    }
  }

  lemma NothingShown(record: seq<Event>)
    requires record == []
    ensures Tell(record).shown == {}
  {
  }

  /** A snapshot's arrangement names only windows that have been announced and are still up. */
  lemma LayoutAfterItsWindows(record: seq<Event>, j: nat, n: nat)
    requires Lawful(record) && j < |record| && record[j].LayoutStated? && record[j].snapshot && n < |record[j].terms|
    ensures exists i :: OpenedSince(record, i, j, record[j].terms[n])
  {
    hide Tell, Lawful, OpenedSince;
    LawfulAt(record, j);
    var i := ShownWasOpened(record, j, record[j].terms[n]);
  }

  /** What the window layer shows, the session holds a mirror of. */
  lemma {:induction false} ShownIsHeld(record: seq<Event>)
    ensures Tell(record).shown <= Tell(record).held
  {
    if record != [] { ShownIsHeld(record[..|record| - 1]); }
  }

  // ------------------------------------------------------------- healing

  /** Events after which a session may ask again. */
  predicate Answers(event: Event) {
    event.Granted? || event.Asked? || event.Lost?
  }

  predicate Answered(record: seq<Event>, start: nat, end: nat)
    requires end <= |record|
  {
    exists k :: start <= k < end && Answers(record[k])
  }

  lemma {:induction false} HealingUntilAnswered(record: seq<Event>, start: nat, end: nat)
    requires start <= end <= |record| && Tell(record[..start]).healing && !Answered(record, start, end)
    ensures Tell(record[..end]).healing
    decreases end
  {
    hide Tell;
    if start < end {
      HealingUntilAnswered(record, start, end - 1);
      TellStep(record, end - 1);
      assert !Answers(record[end - 1]);
    }
  }

  /** Between two requests to be healed there is an attachment, an attach of the client's own, or a connection lost. */
  lemma OneHealAtATime(record: seq<Event>, i: nat, j: nat)
    requires Lawful(record) && i < j < |record| && record[i].Healed? && record[j].Healed?
    ensures Answered(record, i + 1, j)
  {
    hide Tell, Lawful, Answered;
    LawfulAt(record, j);
    TellStep(record, i);
    if !Answered(record, i + 1, j) { HealingUntilAnswered(record, i + 1, j); }
  }

  // ------------------------------------------------------------- reports

  /** Events that make what was reported no answer any more. */
  predicate Resets(event: Event, session: nat) {
    event.Ended? || event.Lost? || (event.Asked? && event.session != session) || (event.Granted? && event.session != session)
  }

  predicate Reset(record: seq<Event>, start: nat, end: nat, session: nat)
    requires end <= |record|
  {
    exists k :: start <= k < end && Resets(record[k], session)
  }

  predicate NoReport(record: seq<Event>, start: nat, end: nat)
    requires end <= |record|
  {
    forall k :: start <= k < end ==> !record[k].Reported?
  }

  lemma {:induction false} ReportStands(record: seq<Event>, start: nat, end: nat)
    requires start <= end <= |record| && NoReport(record, start, end)
    requires !Reset(record, start, end, Tell(record[..start]).session)
    ensures Tell(record[..end]).reported == Tell(record[..start]).reported
    ensures Tell(record[..end]).session == Tell(record[..start]).session
    decreases end
  {
    hide Tell;
    if start < end {
      ReportStands(record, start, end - 1);
      TellStep(record, end - 1);
      assert !Resets(record[end - 1], Tell(record[..start]).session);
    }
  }

  /** While one session is watched, an arrangement is never reported twice in a row. */
  lemma ReportsDiffer(record: seq<Event>, i: nat, j: nat)
    requires Lawful(record) && i < j < |record| && record[i].Reported? && record[j].Reported?
    requires NoReport(record, i + 1, j) && !Reset(record, i + 1, j, Tell(record[..i]).session)
    ensures record[i].layout != record[j].layout
  {
    hide Tell, Lawful, Reset, NoReport;
    LawfulAt(record, j);
    TellStep(record, i);
    ReportStands(record, i + 1, j);
  }

  predicate LetGo(event: Event) {
    event.Ended? || event.Lost?
  }

  /** An attachment at `i` that nothing has ended before `end`. */
  predicate AttachedSince(record: seq<Event>, i: nat, end: nat)
    requires end <= |record|
  {
    i < end && record[i].Granted? && forall k :: i < k < end ==> !LetGo(record[k])
  }

  lemma {:induction false} AttachedWasGranted(record: seq<Event>, end: nat) returns (i: nat)
    requires end <= |record| && Tell(record[..end]).attached
    ensures AttachedSince(record, i, end)
  {
    hide Tell;
    if end == 0 {
      i := 0;
      NotAttached(record[..0]);
      assert false;
    } else {
      TellStep(record, end - 1);
      if record[end - 1].Granted? {
        i := end - 1;
      } else {
        i := AttachedWasGranted(record, end - 1);
      }
    }
  }

  lemma NotAttached(record: seq<Event>)
    requires record == []
    ensures !Tell(record).attached
  {
  }

  /** An arrangement is sent only during an attachment, and never an empty one. */
  lemma ReportedWhileAttached(record: seq<Event>, j: nat)
    requires Lawful(record) && j < |record| && record[j].Reported?
    ensures record[j].layout != [] && exists i :: AttachedSince(record, i, j)
  {
    hide Tell, Lawful, AttachedSince;
    LawfulAt(record, j);
    var i := AttachedWasGranted(record, j);
  }

  // ------------------------------------------------------------- what a record leaves true, exactly

  ghost predicate IsShown(record: seq<Event>, term: TermId) {
    exists i :: OpenedSince(record, i, |record|, term)
  }

  /** A window is shown exactly if it was announced and nothing has taken it down since. */
  lemma ShownExactly(record: seq<Event>, term: TermId)
    ensures term in Tell(record).shown <==> IsShown(record, term)
  {
    hide Tell, OpenedSince, TakenDown;
    assert record[..|record|] == record;
    if term in Tell(record).shown { var i := ShownWasOpened(record, |record|, term); }
    if i: nat :| OpenedSince(record, i, |record|, term) { OpenedStaysShown(record, i, term); }
  }

  lemma OpenedStaysShown(record: seq<Event>, i: nat, term: TermId)
    requires OpenedSince(record, i, |record|, term)
    ensures term in Tell(record).shown
  {
    hide Tell;
    TellStep(record, i);
    ShownUntilTakenDown(record, i + 1, |record|, term);
    assert record[..|record|] == record;
  }

  /** A terminal announced at `i` of which nothing has said that it is gone before `end`. */
  predicate HeldSince(record: seq<Event>, i: nat, end: nat, term: TermId)
    requires end <= |record|
  {
    i < end && record[i] == Opened(term) && forall k :: i < k < end ==> record[k] != Closed(term) && record[k] != Lost
  }

  lemma {:induction false} HeldUpTo(record: seq<Event>, end: nat, term: TermId)
    requires end <= |record|
    ensures term in Tell(record[..end]).held <==> exists i :: HeldSince(record, i, end, term)
    decreases end
  {
    hide Tell;
    if end == 0 {
      NothingTold(record[..0]);
    } else {
      HeldUpTo(record, end - 1, term);
      TellStep(record, end - 1);
      if term in Tell(record[..end]).held {
        if record[end - 1] == Opened(term) {
          assert HeldSince(record, end - 1, end, term);
        } else {
          var i :| HeldSince(record, i, end - 1, term);
          assert HeldSince(record, i, end, term);
        }
      }
      if i: nat :| HeldSince(record, i, end, term) {
        if i < end - 1 { assert HeldSince(record, i, end - 1, term); }
      }
    }
  }

  lemma NothingTold(record: seq<Event>)
    requires record == []
    ensures Tell(record) == Told({}, {}, 0, false, false, [])
  {
  }

  ghost predicate IsHeld(record: seq<Event>, term: TermId) {
    exists i :: HeldSince(record, i, |record|, term)
  }

  /** A terminal has a mirror exactly if it was announced and neither closed since nor the connection lost. */
  lemma HeldExactly(record: seq<Event>, term: TermId)
    ensures term in Tell(record).held <==> IsHeld(record, term)
  {
    HeldUpTo(record, |record|, term);
    assert record[..|record|] == record;
  }

  lemma {:induction false} AttachedUpTo(record: seq<Event>, end: nat)
    requires end <= |record|
    ensures Tell(record[..end]).attached <==> exists i :: AttachedSince(record, i, end)
    decreases end
  {
    hide Tell;
    if end == 0 {
      NothingTold(record[..0]);
    } else {
      AttachedUpTo(record, end - 1);
      TellStep(record, end - 1);
      if Tell(record[..end]).attached { var i := AttachedWasGranted(record, end); }
      if i: nat :| AttachedSince(record, i, end) {
        if i < end - 1 { assert AttachedSince(record, i, end - 1); }
      }
    }
  }

  ghost predicate IsAttached(record: seq<Event>) {
    exists i :: AttachedSince(record, i, |record|)
  }

  /** A session is watched exactly if its attachment was granted and nothing has ended it since. */
  lemma AttachedExactly(record: seq<Event>)
    ensures Tell(record).attached <==> IsAttached(record)
  {
    AttachedUpTo(record, |record|);
    assert record[..|record|] == record;
  }

  /** A request to be healed at `i` that nothing has answered before `end`. */
  predicate HealingSince(record: seq<Event>, i: nat, end: nat)
    requires end <= |record|
  {
    i < end && record[i].Healed? && forall k :: i < k < end ==> !Answers(record[k])
  }

  lemma {:induction false} HealingUpTo(record: seq<Event>, end: nat)
    requires end <= |record|
    ensures Tell(record[..end]).healing <==> exists i :: HealingSince(record, i, end)
    decreases end
  {
    hide Tell;
    if end == 0 {
      NothingTold(record[..0]);
    } else {
      HealingUpTo(record, end - 1);
      TellStep(record, end - 1);
      if Tell(record[..end]).healing {
        if record[end - 1].Healed? {
          assert HealingSince(record, end - 1, end);
        } else {
          var i :| HealingSince(record, i, end - 1);
          assert HealingSince(record, i, end);
        }
      }
      if i: nat :| HealingSince(record, i, end) {
        if i < end - 1 { assert HealingSince(record, i, end - 1); }
      }
    }
  }

  ghost predicate IsHealing(record: seq<Event>) {
    exists i :: HealingSince(record, i, |record|)
  }

  /** A request is outstanding exactly if it was sent and nothing has answered it since. */
  lemma HealingExactly(record: seq<Event>)
    ensures Tell(record).healing <==> IsHealing(record)
  {
    HealingUpTo(record, |record|);
    assert record[..|record|] == record;
  }

  /** The session named last, by the client or by the server, on this connection. */
  predicate NamedSince(record: seq<Event>, i: nat, end: nat, session: nat)
    requires end <= |record|
  {
    && i < end && (record[i] == Asked(session) || record[i] == Granted(session))
    && forall k :: i < k < end ==> !record[k].Asked? && !record[k].Granted? && !record[k].Lost?
  }

  lemma {:induction false} SessionUpTo(record: seq<Event>, end: nat, session: nat)
    requires end <= |record| && session != 0
    ensures Tell(record[..end]).session == session <==> exists i :: NamedSince(record, i, end, session)
    decreases end
  {
    hide Tell;
    if end == 0 {
      NothingTold(record[..0]);
    } else {
      SessionUpTo(record, end - 1, session);
      TellStep(record, end - 1);
      if Tell(record[..end]).session == session {
        if record[end - 1].Asked? || record[end - 1].Granted? {
          assert NamedSince(record, end - 1, end, session);
        } else {
          var i :| NamedSince(record, i, end - 1, session);
          assert NamedSince(record, i, end, session);
        }
      }
      if i: nat :| NamedSince(record, i, end, session) {
        if i < end - 1 { assert NamedSince(record, i, end - 1, session); }
      }
    }
  }

  ghost predicate IsWatched(record: seq<Event>, session: nat) {
    exists i :: NamedSince(record, i, |record|, session)
  }

  /** The session watched, or waited for, is the one named last. */
  lemma SessionExactly(record: seq<Event>, session: nat)
    requires session != 0
    ensures Tell(record).session == session <==> IsWatched(record, session)
  {
    SessionUpTo(record, |record|, session);
    assert record[..|record|] == record;
  }

  /** What makes an arrangement sent before no answer: the attachment over, the connection lost, another session asked for. */
  predicate Clears(record: seq<Event>, k: nat)
    requires k < |record|
  {
    record[k].Ended? || record[k].Lost? || (record[k].Asked? && record[k].session != Tell(record[..k]).session)
  }

  /** The arrangement sent last, at `i`, and good still. */
  predicate ReportedSince(record: seq<Event>, i: nat, end: nat, layout: seq<LayoutEntry>)
    requires end <= |record|
  {
    i < end && record[i] == Reported(layout) && forall k :: i < k < end ==> !record[k].Reported? && !Clears(record, k)
  }

  lemma {:induction false} ReportedUpTo(record: seq<Event>, end: nat, layout: seq<LayoutEntry>)
    requires end <= |record| && layout != []
    ensures Tell(record[..end]).reported == layout <==> exists i :: ReportedSince(record, i, end, layout)
    decreases end
  {
    hide Tell;
    if end == 0 {
      NothingTold(record[..0]);
    } else {
      ReportedUpTo(record, end - 1, layout);
      TellStep(record, end - 1);
      if Tell(record[..end]).reported == layout {
        if record[end - 1].Reported? {
          assert ReportedSince(record, end - 1, end, layout);
        } else {
          var i :| ReportedSince(record, i, end - 1, layout);
          assert ReportedSince(record, i, end, layout);
        }
      }
      if i: nat :| ReportedSince(record, i, end, layout) {
        if i < end - 1 { assert ReportedSince(record, i, end - 1, layout); }
      }
    }
  }

  ghost predicate Stands(record: seq<Event>, layout: seq<LayoutEntry>) {
    exists i :: ReportedSince(record, i, |record|, layout)
  }

  /** What the server was told last and still goes by. */
  lemma ReportedExactly(record: seq<Event>, layout: seq<LayoutEntry>)
    requires layout != []
    ensures Tell(record).reported == layout <==> Stands(record, layout)
  {
    ReportedUpTo(record, |record|, layout);
    assert record[..|record|] == record;
  }
}
