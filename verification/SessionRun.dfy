/**
 A terminal as a client watches it, from one start of its stream to the next (src/client/server_session.cpp,
 src/client/mirror.cpp): whatever else arrives in between, its mirror is the one its own news makes, and so the
 far end of the lossy stream of `MirrorRun`.
 */
module SessionRun {
  import opened Grid
  import opened GridDelta
  import opened Wire
  import opened Mirror
  import opened Session
  import I = Pictures
  import R = MirrorRun
  import T = TerminalRun

  // ------------------------------------------------------------- the news of one terminal

  /** What the stream of a terminal is made of: the terminal whole, or opened at a size, or changed. */
  datatype News =
    | Whole(state: TerminalState)
    | Opening(columns: Short, rows: Short)
    | Change(number: nat, ops: seq<GridOp>)

  /** The news of one terminal in something a session hears. Of a terminal stated twice in one snapshot, the last counts. */
  function NewsIn(input: Input, term: TermId): seq<News> {
    if !input.Hear? then []
    else
      match input.message
      case Attached(_, states) => if term in TermsOf(states) then [Whole(LastOf(states, term))] else []
      case TermOpened(id, columns, rows) => if id == term then [Opening(columns, rows)] else []
      case GridDelta(id, number, ops) => if id == term then [Change(number, ops)] else []
      case _ => []
  }

  function NewsOf(inputs: seq<Input>, term: TermId): seq<News> {
    if inputs == [] then [] else NewsOf(inputs[..|inputs| - 1], term) + NewsIn(inputs[|inputs| - 1], term)
  }

  /** The news of one thing a server did, if it arrived; its next delta is numbered `next`. */
  function ArrivedIn(event: R.Event, next: nat): seq<News> {
    match event
    case Snapshot(sent, _) => [Whole(sent)]
    case Opened(columns, rows) => [Opening(columns, rows)]
    case Delta(ops, arrived) => if arrived then [Change(next, ops)] else []
  }

  function Arrived(events: seq<R.Event>, next: nat): seq<News> {
    if events == [] then []
    else ArrivedIn(events[0], next) + Arrived(events[1..], if events[0].Delta? then next + 1 else 1)
  }

  function AfterNews(held: Held, news: News): Held {
    match news
    case Whole(state) => AfterSnapshot(held, state)
    case Opening(columns, rows) => AfterOpen(held, columns, rows)
    case Change(number, ops) => if Coherent(held.state) then AfterDelta(held, number, ops) else held
  }

  function AfterAllNews(held: Held, news: seq<News>): Held
    decreases |news|
  {
    if news == [] then held else AfterAllNews(AfterNews(held, news[0]), news[1..])
  }

  lemma {:induction false} NewsJoin(held: Held, first: seq<News>, second: seq<News>)
    ensures AfterAllNews(held, first + second) == AfterAllNews(AfterAllNews(held, first), second)
    decreases |first|
  {
    hide AfterNews;
    if first == [] {
      assert first + second == second;
    } else {
      NewsJoin(AfterNews(held, first[0]), first[1..], second);
      assert (first + second)[1..] == first[1..] + second;
    }
  }

  lemma OneNews(held: Held, news: News)
    ensures AfterAllNews(held, [news]) == AfterNews(held, news)
  {
    hide AfterNews;
    assert [news][1..] == [];
  }

  lemma NoNews(held: Held)
    ensures AfterAllNews(held, []) == held
  {
  }

  lemma StepIsNews(ends: R.Ends, event: R.Event)
    requires Coherent(ends.belief) && Coherent(ends.mirror.state) && R.CanDo(ends, event)
    ensures R.Step(ends, event).mirror == AfterAllNews(ends.mirror, ArrivedIn(event, |ends.held|))
    ensures |R.Step(ends, event).held| == if event.Delta? then |ends.held| + 1 else 1
  {
    hide Coherent, Apply, AfterAllNews, AfterDelta, AfterSnapshot, R.Restates, R.Carries;
    NoNews(ends.mirror);
    match event {
      case Snapshot(sent, _) => OneNews(ends.mirror, Whole(sent));
      case Opened(columns, rows) => OneNews(ends.mirror, Opening(columns, rows));
      case Delta(ops, _) => OneNews(ends.mirror, Change(|ends.held|, ops));
    }
  }

  /** The mirror of a lossy run is the one the news that arrived makes. */
  lemma {:induction false} RunIsNews(ends: R.Ends, events: seq<R.Event>)
    requires Coherent(ends.belief) && Coherent(ends.mirror.state) && R.Possible(ends, events)
    ensures R.Run(ends, events).mirror == AfterAllNews(ends.mirror, Arrived(events, |ends.held|))
    decreases |events|
  {
    hide Coherent, AfterNews, R.Step, R.CanDo;
    if events == [] {
      NoNews(ends.mirror);
    } else {
      var next := R.Step(ends, events[0]);
      R.StepCoherent(ends, events[0]);
      RunIsNews(next, events[1..]);
      StepIsNews(ends, events[0]);
      NewsJoin(ends.mirror, ArrivedIn(events[0], |ends.held|), Arrived(events[1..], |next.held|));
    }
  }

  // ------------------------------------------------------------- mirrors that cannot be told apart

  /** A screen with its title or without. */
  function Face(screen: Screen, titled: bool): Screen {
    if titled then screen else Untitled(screen)
  }

  /**
   Two mirrors that show the same and stand at the same place of the stream, whatever histories they keep; or `deep`
   down, the same histories too.
   */
  predicate Alike(a: Held, b: Held, titled: bool, deep: bool) {
    && Coherent(a.state) && Coherent(b.state) && Face(ScreenOf(a.state), titled) == Face(ScreenOf(b.state), titled)
    && a.sequence == b.sequence && a.needsSnapshot == b.needsSnapshot && (deep ==> Retitled(a.state, b.state))
  }

  /** News that starts a stream over. A snapshot past the protocol's bound does not. */
  predicate Starts(news: News) {
    match news
    case Whole(state) => !TooLarge(state)
    case Opening(_, _) => true
    case Change(_, _) => false
  }

  /** A start makes mirrors alike, whatever they were but for how much history they keep. */
  lemma StartsAlike(a: Held, b: Held, news: News, titled: bool, deep: bool)
    requires Starts(news) && (deep ==> a.state.historyLimit == b.state.historyLimit)
    ensures Alike(AfterNews(a, news), AfterNews(b, news), titled, deep)
  {
    hide Adopted, BlankGrid;
    match news {
      case Whole(state) =>
        AdoptedCoherent(state, a.state.historyLimit);
        AdoptedCoherent(state, b.state.historyLimit);
      case Opening(columns, rows) =>
        BlankCoherent(columns, rows, a.state.historyLimit);
        BlankCoherent(columns, rows, b.state.historyLimit);
    }
  }

  /** And a change keeps them so. */
  lemma ChangeKeepsAlike(a: Held, b: Held, number: nat, ops: seq<GridOp>, titled: bool, deep: bool)
    requires Alike(a, b, titled, deep)
    ensures Alike(AfterNews(a, Change(number, ops)), AfterNews(b, Change(number, ops)), titled, deep)
  {
    hide Coherent, Apply, ScreenOf, Untitled, Retitled;
    DeltaKeepsCoherent(ops, a.state);
    DeltaKeepsCoherent(ops, b.state);
    if deep { DeltaRetitled(ops, a.state, b.state); }
    if titled { DeltaActsOnScreens(ops, a.state, b.state); } else { DeltaIgnoresTitles(ops, a.state, b.state); }
  }

  // ------------------------------------------------------------- a terminal in a session

  /** What leaves a session with a mirror of the terminal, and with its stream whole. */
  predicate KeepsTerm(input: Input, term: TermId) {
    match input
    case LoseConnection => false
    case Hear(message) =>
      if message.Attached? then term in TermsOf(message.states) && !TooLarge(LastOf(message.states, term))
      else !(message.TermClosed? && message.term == term && !message.held)
    case _ => true
  }

  /** A title stated apart from the terminal's stream, as it is with a bell or a new caption. */
  predicate Retitles(input: Input, term: TermId) {
    input.Hear? && input.message.TermMeta? && input.message.term == term
  }

  /** A terminal's stream as it is before an input: its mirror's, or that of a mirror about to be made. */
  function StreamBefore(kept: Kept, term: TermId): Held {
    if term in kept.views then kept.views[term].stream else NewView(kept.limit).stream
  }

  /** A start heard of a terminal leaves the session with a mirror of it as the start says, whatever it held. */
  lemma InputStarts(kept: Kept, input: Input, term: TermId, news: News)
    requires KeepsTerm(input, term) && NewsIn(input, term) == [news] && !news.Change?
    ensures var now := AfterOne(kept, input).views;
      term in now && now[term].stream == AfterNews(StreamBefore(kept, term), news) && Starts(news)
    ensures StreamBefore(kept, term).state.historyLimit == LimitFor(kept.views, kept.limit, term)
  {
    hide Adopted, AdoptAll, LastOf, TermsOf, AfterPictures, BlankGrid;
    if input.message.Attached? { AdoptedLast(kept.views, kept.limit, input.message.states, term); }
  }

  /** What is not a start keeps the mirror alike to the one the news alone makes. */
  lemma InputKeepsAlike(kept: Kept, input: Input, term: TermId, held: Held, titled: bool, deep: bool)
    requires term in kept.views && Alike(kept.views[term].stream, held, titled, deep)
    requires KeepsTerm(input, term) && (titled ==> !Retitles(input, term))
    requires input.Hear? ==> !input.message.Attached? && !(input.message.TermOpened? && input.message.term == term)
    ensures var now := AfterOne(kept, input).views;
      term in now && Alike(now[term].stream, AfterAllNews(held, NewsIn(input, term)), titled, deep)
  {
    hide AfterAllNews, AfterDelta, Apply, AfterPictures, NewView, AfterChunk, Placed, Rectangular, HistoryCoherent, Alike;
    NoNews(held);
    if input.Hear? && NamesTerminal(input.message) && input.message.term == term {
      var stream := kept.views[term].stream;
      match input.message {
        case GridDelta(_, number, ops) =>
          OneNews(held, Change(number, ops));
          ChangeKeepsAlike(stream, held, number, ops, titled, deep);
          AlikeIsCoherent(stream, held, titled, deep);
        case TermMeta(_, title) => RetitledAlike(stream, held, title, deep);
        case _ =>
      }
    }
  }

  lemma AlikeIsCoherent(a: Held, b: Held, titled: bool, deep: bool)
    requires Alike(a, b, titled, deep)
    ensures Coherent(a.state) && Coherent(b.state) && (deep ==> a.state.historyLimit == b.state.historyLimit)
  {
  }

  lemma RetitledAlike(a: Held, b: Held, title: string, deep: bool)
    requires Alike(a, b, false, deep)
    ensures Alike(a.(state := a.state.(title := title)), b, false, deep)
  {
    SameHistory(a.state, a.state.(title := title));
    assert Untitled(ScreenOf(a.state.(title := title))) == Untitled(ScreenOf(a.state));
  }

  lemma InputFollows(kept: Kept, input: Input, term: TermId, held: Held, titled: bool, deep: bool)
    requires term in kept.views && Alike(kept.views[term].stream, held, titled, deep)
    requires KeepsTerm(input, term) && (titled ==> !Retitles(input, term))
    ensures var now := AfterOne(kept, input).views;
      term in now && Alike(now[term].stream, AfterAllNews(held, NewsIn(input, term)), titled, deep)
  {
    AlikeIsCoherent(kept.views[term].stream, held, titled, deep);
    hide Alike, AfterAllNews, AfterNews, AfterOne, LastOf, TermsOf;
    if input.Hear? && (input.message.Attached? || (input.message.TermOpened? && input.message.term == term)) {
      var news := NewsIn(input, term)[0];
      assert NewsIn(input, term) == [news];
      OneNews(held, news);
      InputStarts(kept, input, term, news);
      StartsAlike(kept.views[term].stream, held, news, titled, deep);
    } else {
      InputKeepsAlike(kept, input, term, held, titled, deep);
    }
  }

  /**
   As long as a session has a mirror of a terminal, that mirror is the one the terminal's own news makes, whatever
   the news is mixed with: but for the title, and the title too if it is nowhere stated apart; and `deep` down, its
   history with it.
   */
  lemma {:induction false} MirrorFollowsNews(kept: Kept, inputs: seq<Input>, term: TermId, held: Held, titled: bool, deep: bool)
    requires term in kept.views && Alike(kept.views[term].stream, held, titled, deep)
    requires forall i :: 0 <= i < |inputs| ==> KeepsTerm(inputs[i], term) && (titled ==> !Retitles(inputs[i], term))
    ensures var now := AfterInputs(kept, inputs).views;
      term in now && Alike(now[term].stream, AfterAllNews(held, NewsOf(inputs, term)), titled, deep)
  {
    hide AfterOne, AfterAllNews, KeepsTerm, Retitles, NewsIn, Alike;
    if inputs == [] {
      NoNews(held);
    } else {
      var front, last := inputs[..|inputs| - 1], inputs[|inputs| - 1];
      MirrorFollowsNews(kept, front, term, held, titled, deep);
      InputFollows(AfterInputs(kept, front), last, term, AfterAllNews(held, NewsOf(front, term)), titled, deep);
      NewsJoin(held, NewsOf(front, term), NewsIn(last, term));
    }
  }

  // ------------------------------------------------------------- end to end

  /**
   A run of a server from a snapshot or the announcement of a terminal on, and what a session hears meanwhile: the
   same start, and the rest of the server's news but for the deltas that were lost, in order among anything else.
   */
  ghost predicate Serves(ends: R.Ends, events: seq<R.Event>, first: Input, inputs: seq<Input>, term: TermId) {
    && Coherent(ends.belief) && Coherent(ends.mirror.state) && R.Possible(ends, events)
    && events != [] && !events[0].Delta? && KeepsTerm(first, term) && NewsIn(first, term) == ArrivedIn(events[0], 0)
    && (forall i :: 0 <= i < |inputs| ==> KeepsTerm(inputs[i], term)) && NewsOf(inputs, term) == Arrived(events[1..], 1)
  }

  /** The server at the end of such a run. */
  ghost function Served(ends: R.Ends, events: seq<R.Event>, first: Input, inputs: seq<Input>, term: TermId): R.Ends
    requires Serves(ends, events, first, inputs, term)
  {
    R.Run(ends, events)
  }

  /** Some of what a session heard stated the terminal's title apart. */
  predicate TitledApart(inputs: seq<Input>, term: TermId) {
    exists i :: 0 <= i < |inputs| && Retitles(inputs[i], term)
  }

  /** The mirror of such a session and the far end of such a run are alike. */
  lemma SessionIsTheFarEnd(kept: Kept, ends: R.Ends, events: seq<R.Event>, first: Input, inputs: seq<Input>, term: TermId,
                           titled: bool, deep: bool)
    requires Serves(ends, events, first, inputs, term) && (titled ==> !TitledApart(inputs, term))
    requires deep ==> ends.mirror.state.historyLimit == LimitFor(kept.views, kept.limit, term)
    ensures var views := AfterInputs(AfterOne(kept, first), inputs).views;
      term in views && Alike(views[term].stream, Served(ends, events, first, inputs, term).mirror, titled, deep)
  {
    var start := events[0];
    var news := ArrivedIn(start, 0)[0];
    assert NewsIn(first, term) == [news];
    R.StepCoherent(ends, start);
    StepIsNews(ends, start);
    hide AfterOne, AfterInputs, NewsIn, NewsOf, Arrived, AfterAllNews, AfterNews, KeepsTerm, Retitles, Coherent, Alike, R.Step, R.CanDo;
    InputStarts(kept, first, term, news);
    StartsAlike(StreamBefore(kept, term), ends.mirror, news, titled, deep);
    OneNews(ends.mirror, news);
    MirrorFollowsNews(AfterOne(kept, first), inputs, term, R.Step(ends, start).mirror, titled, deep);
    RunIsNews(R.Step(ends, start), events[1..]);
  }

  /**
   What a mirror shows at the end of a server's run: a screen the server really held since it last started the stream
   over, or announced, the one its sequence names; the present one, if none was lost and the terminal is stated. And
   it asks, once a delta has come after a lost one.
   */
  ghost predicate ShowsServer(mirror: Held, server: R.Ends, titled: bool) {
    && mirror.sequence < |server.held|
    && Face(ScreenOf(mirror.state), titled) == Face(server.held[mirror.sequence], titled)
    && (!server.missed && server.stated ==> Face(ScreenOf(mirror.state), titled) == Face(ScreenOf(server.belief), titled))
    && (!server.missed ==> !mirror.needsSnapshot) && (server.missed ==> mirror.sequence < |server.held| - 1)
    && (server.behind ==> mirror.needsSnapshot)
  }

  /**
   End to end. A server starts a terminal's stream, by a snapshot or by announcing it, and then sends its deltas, with
   more snapshots and announcements among them; some deltas are lost, and what arrives does so in order, among whatever
   else the session hears and is told to do. Then the session's own mirror of that terminal, whatever the session was
   before, shows the server's screens: but for the title, and the title too if none was stated apart. If a delta arrived
   after another was lost, the session's next look for mirrors out of step finds this one.
   */
  lemma SessionShowsAServerScreen(kept: Kept, ends: R.Ends, events: seq<R.Event>, first: Input, inputs: seq<Input>, term: TermId)
    requires Serves(ends, events, first, inputs, term)
    ensures var server := Served(ends, events, first, inputs, term);
      var views := AfterInputs(AfterOne(kept, first), inputs).views;
      && term in views && ShowsServer(views[term].stream, server, false)
      && (!TitledApart(inputs, term) ==> ShowsServer(views[term].stream, server, true))
      && (server.behind ==> SomeNeeds(views))
  {
    hide AfterOne, AfterInputs, TitledApart, Coherent, R.Possible, R.Run, NewsIn, NewsOf, Arrived, KeepsTerm, ScreenOf;
    R.MirrorShowsAServerScreen(ends, events);
    SessionIsTheFarEnd(kept, ends, events, first, inputs, term, false, false);
    if !TitledApart(inputs, term) { SessionIsTheFarEnd(kept, ends, events, first, inputs, term, true, false); }
  }

  /** So any start heard by any session, whatever came earlier, begins a stretch that shows the server's screens. */
  lemma EverySessionShowsAServerScreen(earlier: seq<Input>, ends: R.Ends, events: seq<R.Event>, first: Input,
                                       inputs: seq<Input>, term: TermId)
    requires Serves(ends, events, first, inputs, term)
    ensures var server := Served(ends, events, first, inputs, term);
      var views := AfterInputs(NOTHING, earlier + [first] + inputs).views;
      && term in views && ShowsServer(views[term].stream, server, false)
      && (!TitledApart(inputs, term) ==> ShowsServer(views[term].stream, server, true))
      && (server.behind ==> SomeNeeds(views))
  {
    hide AfterOne, AfterInputs, TitledApart, ShowsServer, Serves, Served, SomeNeeds;
    InputsJoin(NOTHING, earlier, [first]);
    InputsJoin(NOTHING, earlier + [first], inputs);
    OneInput(AfterInputs(NOTHING, earlier), first);
    SessionShowsAServerScreen(AfterInputs(NOTHING, earlier), ends, events, first, inputs, term);
  }

  // ------------------------------------------------------------- from the first moment on

  predicate ViewsCoherent(views: Views) {
    forall term :: term in views ==> Coherent(views[term].stream.state)
  }

  lemma OneMessageKeepsCoherent(view: View, store: I.Store, message: Message)
    requires Coherent(view.stream.state)
    ensures Coherent(AfterForOne(view, store, message).stream.state)
  {
    hide AfterChunk, Placed, BlankGrid, Apply;
    match message {
      case GridDelta(_, number, ops) => DeltaKeepsCoherent(ops, view.stream.state);
      case TermOpened(_, columns, rows) => BlankCoherent(columns, rows, view.stream.state.historyLimit);
      case TermMeta(_, title) => SameHistory(view.stream.state, view.stream.state.(title := title));
      case _ =>
    }
  }

  lemma NewIsCoherent(limit: nat)
    ensures Coherent(NewView(limit).stream.state)
  {
    BlankCoherent(0, 0, limit);
  }

  lemma AdoptingOneKeepsCoherent(view: View, snapshot: TerminalState)
    requires Coherent(view.stream.state)
    ensures Coherent(AdoptView(view, snapshot).stream.state)
  {
    hide Coherent, Adopted;
    if !TooLarge(snapshot) { AdoptedCoherent(snapshot, view.stream.state.historyLimit); }
  }

  lemma {:induction false} AdoptingKeepsCoherent(views: Views, limit: nat, states: seq<TerminalState>)
    requires ViewsCoherent(views)
    ensures ViewsCoherent(AdoptAll(views, limit, states))
  {
    hide Coherent, AdoptView, NewView;
    if states != [] {
      var front, last := states[..|states| - 1], states[|states| - 1];
      AdoptingKeepsCoherent(views, limit, front);
      NewIsCoherent(limit);
      AdoptingOneKeepsCoherent(Ensured(AdoptAll(views, limit, front), limit, last.term)[last.term], last);
    }
  }

  lemma InputKeepsCoherent(kept: Kept, input: Input)
    requires ViewsCoherent(kept.views)
    ensures ViewsCoherent(AfterOne(kept, input).views)
  {
    hide Coherent, AdoptAll, AfterForOne, NewView, AfterPictures;
    if input.Hear? {
      var message := input.message;
      NewIsCoherent(kept.limit);
      if message.Attached? {
        AdoptingKeepsCoherent(kept.views, kept.limit, message.states);
      } else if NamesTerminal(message) {
        var views := if message.TermOpened? then Ensured(kept.views, kept.limit, message.term) else kept.views;
        if message.term in views { OneMessageKeepsCoherent(views[message.term], kept.store, message); }
      }
    }
  }

  /** Whatever happens to a session, none of its mirrors ever holds an incoherent state. */
  lemma {:induction false} EveryMirrorIsCoherent(inputs: seq<Input>)
    ensures ViewsCoherent(AfterInputs(NOTHING, inputs).views)
  {
    hide AfterOne, Coherent;
    if inputs != [] {
      EveryMirrorIsCoherent(inputs[..|inputs| - 1]);
      InputKeepsCoherent(AfterInputs(NOTHING, inputs[..|inputs| - 1]), inputs[|inputs| - 1]);
    }
  }

  // ------------------------------------------------------------- how much history

  /** How much history the reader asked for last. */
  function AskedFor(inputs: seq<Input>): nat {
    if inputs == [] then 0
    else if inputs[|inputs| - 1].KeepHistory? then inputs[|inputs| - 1].lines
    else AskedFor(inputs[..|inputs| - 1])
  }

  lemma {:induction false} LimitIsAsked(inputs: seq<Input>)
    ensures AfterInputs(NOTHING, inputs).limit == AskedFor(inputs)
  {
    hide AfterInput, AfterPictures;
    if inputs != [] { LimitIsAsked(inputs[..|inputs| - 1]); }
  }

  /** No delta, title, snapshot or opening changes how much history a mirror keeps. */
  lemma LimitStays(kept: Kept, input: Input, term: TermId)
    ensures var now := AfterOne(kept, input).views;
      term in now ==> now[term].stream.state.historyLimit == LimitFor(kept.views, kept.limit, term)
  {
    hide AdoptAll, AfterPictures, PerformAll, AllFit, Placed, AfterChunk, BlankGrid;
    if input.Hear? && input.message.Attached? { AdoptingKeepsLimits(kept.views, kept.limit, input.message.states, term); }
  }

  /** The mirror of a terminal has been there since this input, which made it. */
  ghost predicate MadeBy(inputs: seq<Input>, term: TermId, i: nat) {
    && i < |inputs| && term !in AfterInputs(NOTHING, inputs[..i]).views
    && forall j :: i < j <= |inputs| ==> term in AfterInputs(NOTHING, inputs[..j]).views
  }

  /**
   Over every run from a session's first moment, a mirror keeps as much history as the reader had asked for last when it
   was made, and none if nothing had been asked for, whatever the reader has asked for and the server stated since.
   */
  lemma {:induction false} MirrorKeepsWhatWasAsked(inputs: seq<Input>, term: TermId) returns (i: nat)
    requires term in AfterInputs(NOTHING, inputs).views
    ensures MadeBy(inputs, term, i)
    ensures AfterInputs(NOTHING, inputs).views[term].stream.state.historyLimit == AskedFor(inputs[..i])
  {
    hide AfterOne;
    var n := |inputs| - 1;
    var front := inputs[..n];
    LimitStays(AfterInputs(NOTHING, front), inputs[n], term);
    if term in AfterInputs(NOTHING, front).views {
      i := MirrorKeepsWhatWasAsked(front, term);
      assert forall j :: 0 <= j <= n ==> front[..j] == inputs[..j];
      assert inputs[..|inputs|] == inputs;
    } else {
      i := n;
      LimitIsAsked(front);
      assert inputs[..|inputs|] == inputs;
    }
  }

  // ------------------------------------------------------------- from the terminal itself

  /** The turns of a terminal from a start of its stream on, and what a session hears meanwhile. */
  ghost predicate Watches(watched: T.Watched, ends: R.Ends, turns: seq<T.Turn>, first: Input, inputs: seq<Input>, term: TermId) {
    && Coherent(ends.belief) && Coherent(ends.mirror.state) && T.CanRun(watched, turns)
    && turns != [] && T.StartsOver(turns[0])
    && KeepsTerm(first, term) && NewsIn(first, term) == ArrivedIn(T.EventOf(turns[0])[0], 0)
    && (forall i :: 0 <= i < |inputs| ==> KeepsTerm(inputs[i], term))
    && NewsOf(inputs, term) == Arrived(T.EventsOf(turns[1..]), 1)
  }

  /**
   What a mirror shows of a terminal: a screen the terminal really had when it was read (or the blank one it was
   announced with), the one its sequence names; and with nothing lost, the terminal stated and its differ not asking for
   a snapshot, the terminal as it was last read.
   */
  ghost predicate ShowsTerminal(mirror: Held, server: R.Ends, at: T.Watched, read: seq<Screen>, titled: bool) {
    && mirror.sequence < |server.held| && server.held[mirror.sequence] in read
    && Face(ScreenOf(mirror.state), titled) == Face(server.held[mirror.sequence], titled)
    && (!server.missed && server.stated && !at.differ.needsSnapshot ==>
          Face(ScreenOf(mirror.state), titled) == Face(at.last, titled))
  }

  lemma ServerShowsTerminal(mirror: Held, server: R.Ends, at: T.Watched, read: seq<Screen>, titled: bool)
    requires ShowsServer(mirror, server, titled) && R.InStep(server) && T.AllIn(server.held, read)
    requires !server.missed && server.stated && !at.differ.needsSnapshot ==> ScreenOf(server.mirror.state) == at.last
    ensures ShowsTerminal(mirror, server, at, read, titled)
  {
    hide Coherent, Untitled, ScreenOf;
  }

  /**
   From the terminal in the server to the mirror in the client. A session that hears what a differ says of a terminal,
   some of it lost and among anything else, shows the terminal: but for the title, and the title too if none was stated
   apart.
   */
  lemma SessionShowsTheTerminal(earlier: seq<Input>, watched: T.Watched, ends: R.Ends, turns: seq<T.Turn>,
                                first: Input, inputs: seq<Input>, term: TermId)
    requires Watches(watched, ends, turns, first, inputs, term)
    ensures R.Possible(ends, T.EventsOf(turns))
    ensures var server, at := R.Run(ends, T.EventsOf(turns)), T.AfterTurns(watched, turns);
      var read, views := T.ScreensIn(turns), AfterInputs(NOTHING, earlier + [first] + inputs).views;
      && term in views && ShowsTerminal(views[term].stream, server, at, read, false)
      && (!TitledApart(inputs, term) ==> ShowsTerminal(views[term].stream, server, at, read, true))
  {
    T.MirrorShowsTheTerminal(watched, ends, turns);
    WatchedServes(watched, ends, turns, first, inputs, term);
    hide *;
    EverySessionShowsAServerScreen(earlier, ends, T.EventsOf(turns), first, inputs, term);
    var server, at := R.Run(ends, T.EventsOf(turns)), T.AfterTurns(watched, turns);
    var read, mirror := T.ScreensIn(turns), AfterInputs(NOTHING, earlier + [first] + inputs).views[term].stream;
    ServerShowsTerminal(mirror, server, at, read, false);
    if !TitledApart(inputs, term) { ServerShowsTerminal(mirror, server, at, read, true); }
  }

  /** What a session hears of such turns is what it hears of the server they make. */
  lemma WatchedServes(watched: T.Watched, ends: R.Ends, turns: seq<T.Turn>, first: Input, inputs: seq<Input>, term: TermId)
    requires Watches(watched, ends, turns, first, inputs, term)
    ensures Serves(ends, T.EventsOf(turns), first, inputs, term)
    ensures R.Possible(ends, T.EventsOf(turns))
    ensures Served(ends, T.EventsOf(turns), first, inputs, term) == R.Run(ends, T.EventsOf(turns))
  {
    hide R.Possible, R.Run, NewsIn, NewsOf, Arrived, ArrivedIn, KeepsTerm, Coherent, T.CanRun, T.EventsOf, T.EventOf, R.InStep;
    T.MirrorShowsTheTerminal(watched, ends, turns);
    T.StartFirst(turns);
  }

  /** A server and a far end of which nothing is known but how much history it keeps. */
  function Anyone(limit: nat): R.Ends {
    R.Ends(R.NO_BELIEF, [], Held(BlankState(0, 0, limit), 0, false), true, false, false)
  }

  lemma AnyoneIsCoherent(limit: nat)
    ensures Coherent(Anyone(limit).belief) && Coherent(Anyone(limit).mirror.state) && Anyone(limit).mirror.state.historyLimit == limit
  {
    BlankCoherent(0, 0, 0);
    BlankCoherent(0, 0, limit);
  }

  /**
   The history, from the terminal in the server to the mirror in the client. A session that hears a snapshot of a terminal
   and then every tick of it, with no new size and no flood, has the newest lines that its mirror keeps of what the
   snapshot brought and all the lines the terminal has gained since.
   */
  lemma SessionKeepsHistory(earlier: seq<Input>, watched: T.Watched, turns: seq<T.Turn>, first: Input, inputs: seq<Input>, term: TermId)
    requires var before := AfterInputs(NOTHING, earlier);
      Watches(watched, Anyone(LimitFor(before.views, before.limit, term)), turns, first, inputs, term)
    requires turns[0].Attach? && T.AllCounted(T.Turned(watched, turns[0]), turns[1..])
    requires var at := T.AfterTurns(watched, turns).differ; !at.diverged && !at.needsSnapshot
    ensures var before, views := AfterInputs(NOTHING, earlier), AfterInputs(NOTHING, earlier + [first] + inputs).views;
      var limit := LimitFor(before.views, before.limit, term);
      && term in views
      && LiveHistory(views[term].stream.state) == LastLines(LiveHistory(Adopted(turns[0].sent, limit)) + T.Gained(turns[1..]), limit)
  {
    var before := AfterInputs(NOTHING, earlier);
    var limit := LimitFor(before.views, before.limit, term);
    var ends := Anyone(limit);
    AnyoneIsCoherent(limit);
    T.HistorySinceSnapshot(watched, ends, turns);
    WatchedServes(watched, ends, turns, first, inputs, term);
    hide *;
    InputsJoin(NOTHING, earlier, [first]);
    InputsJoin(NOTHING, earlier + [first], inputs);
    OneInput(before, first);
    SessionIsTheFarEnd(before, ends, T.EventsOf(turns), first, inputs, term, false, true);
    var mirror := AfterInputs(NOTHING, earlier + [first] + inputs).views[term].stream;
    DeepIsHistory(mirror, R.Run(ends, T.EventsOf(turns)).mirror);
  }

  lemma DeepIsHistory(a: Held, b: Held)
    requires Alike(a, b, false, true)
    ensures LiveHistory(a.state) == LiveHistory(b.state)
  {
    LiveRetitled(a.state, b.state);
  }

  lemma {:induction false} InputsJoin(kept: Kept, first: seq<Input>, second: seq<Input>)
    ensures AfterInputs(kept, first + second) == AfterInputs(AfterInputs(kept, first), second)
  {
    hide AfterOne;
    if second == [] {
      assert first + second == first;
    } else {
      InputsJoin(kept, first, second[..|second| - 1]);
      assert (first + second)[..|first| + |second| - 1] == first + second[..|second| - 1];
    }
  }

  lemma OneInput(kept: Kept, input: Input)
    ensures AfterInputs(kept, [input]) == AfterOne(kept, input)
  {
    hide AfterOne;
    assert [input][..0] == [];
  }
}
