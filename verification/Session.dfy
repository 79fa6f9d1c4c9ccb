/**
 A client's side of one attachment (src/client/server_session.cpp): the mirrors, what the window layer and the
 server have been told, the paste queue, and the pictures on their way.
 */
module Session {
  import opened Wrappers
  import opened Grid
  import opened GridDelta
  import opened Wire
  import opened Mirror
  import opened SessionTrace
  import P = Paste
  import I = Pictures
  import D = Damage

  /** What a server may send, as far as a session acts on it. */
  datatype Message =
    | Attached(session: nat, states: seq<TerminalState>)
    | LayoutDelta(session: nat, entries: seq<LayoutEntry>)
    | PasteAck
    | Detached
    | GridDelta(term: TermId, number: Number, ops: seq<GridOp>)
    | TermOpened(term: TermId, columns: Short, rows: Short)
    | TermClosed(term: TermId, ended: bool, held: bool, status: int)
    | TermMeta(term: TermId, title: string)
    | PrintJobData(term: TermId, chunk: PrintChunk)
    | ImageAddBegin(id: nat, width: Short, height: Short)
    | ImageChunk(id: nat, number: Number, bytes: string)
    | ImageEnd(id: nat)
    | ImagePlace(term: TermId, id: nat, cells: Rect)
    | ImageRemove(term: TermId, id: nat)
    | Aside     // understood, and nothing here changes: errors, lists, statistics, a pong
    | Unknown   // not for a client at all

  // ------------------------------------------------------------- what the mirrors hold

  /** How a terminal's child ended, if it has. */
  datatype Ending = Ending(exited: bool, hold: bool, status: Option<int>)

  const RUNNING := Ending(false, false, None)

  /** All a mirror holds. */
  datatype View = View(stream: Held, pictures: map<nat, Raster>, jobs: Fetch, ending: Ending)

  type Views = map<TermId, View>

  function NewView(limit: nat): View {
    View(Held(BlankState(0, 0, limit), 0, false), map[], Fetch(map[], map[]), RUNNING)
  }

  function Ensured(views: Views, limit: nat, term: TermId): Views {
    if term in views then views else views[term := NewView(limit)]
  }

  function AdoptView(view: View, snapshot: TerminalState): View {
    var stream := AfterSnapshot(view.stream, snapshot);
    if snapshot.columns > MAX_COLUMNS || snapshot.rows > MAX_ROWS then view.(stream := stream)
    else
      View(stream, Named(view.pictures, snapshot.images), Fetch(map[], map[]),
           if snapshot.exited then Ending(true, snapshot.hold, Some(snapshot.exitStatus)) else view.ending)
  }

  function AdoptNext(views: Views, limit: nat, snapshot: TerminalState): Views {
    var before := Ensured(views, limit, snapshot.term);
    before[snapshot.term := AdoptView(before[snapshot.term], snapshot)]
  }

  /** A snapshot's terminals taken one after another, each into a mirror of its own. */
  function AdoptAll(views: Views, limit: nat, states: seq<TerminalState>): Views {
    if states == [] then views
    else AdoptNext(AdoptAll(views, limit, states[..|states| - 1]), limit, states[|states| - 1])
  }

  /** The first so many terminals of a snapshot. */
  ghost function Front(states: seq<TerminalState>, i: nat): seq<TerminalState>
    requires i <= |states|
  {
    states[..i]
  }

  lemma FrontStarts(views: Views, limit: nat, states: seq<TerminalState>)
    ensures AdoptAll(views, limit, Front(states, 0)) == views && TermsOf(Front(states, 0)) == {}
  {
    NothingAdopted(views, limit, states[..0]);
    NoTerms(states[..0]);
  }

  lemma FrontMore(views: Views, limit: nat, states: seq<TerminalState>, i: nat)
    requires i < |states|
    ensures AdoptAll(views, limit, Front(states, i + 1)) == AdoptNext(AdoptAll(views, limit, Front(states, i)), limit, states[i])
    ensures TermsOf(Front(states, i + 1)) == TermsOf(Front(states, i)) + {states[i].term}
  {
    hide AdoptNext, TermsOf;
    AdoptAllMore(views, limit, states, i);
    TermsOfMore(states[..i + 1]);
    assert states[..i + 1][..i] == states[..i];
  }

  lemma FrontEnds(states: seq<TerminalState>)
    ensures Front(states, |states|) == states
  {
  }

  lemma AdoptAllMore(views: Views, limit: nat, states: seq<TerminalState>, i: nat)
    requires i < |states|
    ensures AdoptAll(views, limit, states[..i + 1]) == AdoptNext(AdoptAll(views, limit, states[..i]), limit, states[i])
  {
    hide AdoptNext;
    assert states[..i + 1][..i] == states[..i];
  }

  lemma NothingAdopted(views: Views, limit: nat, states: seq<TerminalState>)
    requires states == []
    ensures AdoptAll(views, limit, states) == views
  {
  }

  function TermsOf(states: seq<TerminalState>): set<TermId> {
    set i | 0 <= i < |states| :: states[i].term
  }

  lemma NoTerms(states: seq<TerminalState>)
    requires states == []
    ensures TermsOf(states) == {}
  {
  }

  lemma TermsOfMore(states: seq<TerminalState>)
    requires states != []
    ensures TermsOf(states) == TermsOf(states[..|states| - 1]) + {states[|states| - 1].term}
  {
    var front := states[..|states| - 1];
    forall term | term in TermsOf(states) ensures term in TermsOf(front) + {states[|states| - 1].term} {
      var i :| 0 <= i < |states| && states[i].term == term;
      assert i < |front| ==> front[i].term == term;
    }
    forall term | term in TermsOf(front) ensures term in TermsOf(states) {
      var i :| 0 <= i < |front| && front[i].term == term;
      assert states[i].term == term;
    }
  }

  lemma {:induction false} AdoptAllTerms(views: Views, limit: nat, states: seq<TerminalState>)
    ensures AdoptAll(views, limit, states).Keys == views.Keys + TermsOf(states)
  {
    hide AdoptView, NewView;
    if states != [] {
      AdoptAllTerms(views, limit, states[..|states| - 1]);
      TermsOfMore(states);
    }
  }

  function Only(views: Views, terms: set<TermId>): Views {
    map term | term in views && term in terms :: views[term]
  }

  /** A delta in a mirror. No mirror holds an incoherent state. */
  function DeltaOn(view: View, number: nat, ops: seq<GridOp>): View {
    if Coherent(view.stream.state) then view.(stream := AfterDelta(view.stream, number, ops)) else view
  }

  function OpenOn(view: View, columns: nat, rows: nat): View {
    view.(stream := AfterOpen(view.stream, columns, rows), ending := RUNNING)
  }

  function ClosedOn(view: View, ended: bool, held: bool, status: int): View {
    view.(ending := Ending(ended, held, if ended then Some(status) else None))
  }

  function TitleOn(view: View, title: string): View {
    view.(stream := view.stream.(state := view.stream.state.(title := title)))
  }

  function PlaceOn(view: View, store: I.Store, id: nat, cells: Rect): View {
    var image := if id in store.completed then Some(store.completed[id]) else None;
    view.(pictures := Placed(view.pictures, id, image, cells.x, cells.y, cells.width, cells.height))
  }

  /** What a message does to the mirror it names. */
  function AfterForOne(view: View, store: I.Store, message: Message): View {
    match message
    case GridDelta(_, number, ops) => DeltaOn(view, number, ops)
    case TermOpened(_, columns, rows) => OpenOn(view, columns, rows)
    case TermClosed(_, ended, held, status) => ClosedOn(view, ended, held, status)
    case TermMeta(_, title) => TitleOn(view, title)
    case PrintJobData(_, chunk) => view.(jobs := AfterChunk(view.jobs, chunk))
    case ImagePlace(_, id, cells) => PlaceOn(view, store, id, cells)
    case ImageRemove(_, id) => view.(pictures := view.pictures - {id})
    case _ => view
  }

  predicate NamesTerminal(message: Message) {
    || message.GridDelta? || message.TermOpened? || message.TermClosed? || message.TermMeta? || message.PrintJobData?
    || message.ImagePlace? || message.ImageRemove?
  }

  /** A message that names a terminal changes that terminal's mirror, if there is one, and no other. */
  function Changed(views: Views, store: I.Store, message: Message): Views
    requires NamesTerminal(message)
  {
    if message.term in views then views[message.term := AfterForOne(views[message.term], store, message)] else views
  }

  /** What a message makes of all the mirrors. Only a snapshot and a terminal opening make new ones. */
  function AfterMessage(views: Views, limit: nat, store: I.Store, message: Message): Views {
    if message.Attached? then Only(AdoptAll(views, limit, message.states), TermsOf(message.states))
    else if !NamesTerminal(message) then views
    else if message.TermOpened? then Changed(Ensured(views, limit, message.term), store, message)
    else if message.TermClosed? && !message.held then views - {message.term}
    else Changed(views, store, message)
  }

  lemma ChangedThenGone(views: Views, store: I.Store, message: Message)
    requires NamesTerminal(message)
    ensures Changed(views, store, message) - {message.term} == views - {message.term}
    ensures message.term !in views ==> Changed(views, store, message) == views == views - {message.term}
  {
  }

  /** The picture store's part in a message. */
  function PictureMessageOf(message: Message): Option<I.PictureMessage> {
    match message
    case ImageAddBegin(id, width, height) => Some(I.Begin(id, width, height))
    case ImageChunk(id, number, bytes) => Some(I.Chunk(id, number, bytes))
    case ImageEnd(id) => Some(I.End(id))
    case ImagePlace(_, id, _) => Some(I.Take(id))
    case ImageRemove(_, id) => Some(I.Drop(id))
    case _ => None
  }

  function AfterPictures(store: I.Store, message: Message): I.Store {
    match PictureMessageOf(message)
    case Some(picture) => I.AfterPicture(store, picture)
    case None => store
  }

  /** Some mirror has lost track of its stream. */
  ghost predicate SomeNeeds(views: Views) {
    exists term :: term in views && views[term].stream.needsSnapshot
  }

  /** The last that a snapshot says of a terminal. */
  function LastOf(states: seq<TerminalState>, term: TermId): (state: TerminalState)
    requires term in TermsOf(states)
    ensures state in states && state.term == term
  {
    var n := |states| - 1;
    TermsOfMore(states);
    if states[n].term == term then states[n] else LastOf(states[..n], term)
  }

  predicate TooLarge(state: TerminalState) {
    state.columns > MAX_COLUMNS || state.rows > MAX_ROWS
  }

  /** How much history a terminal's mirror keeps: what it kept before, or a new one's limit. */
  function LimitFor(views: Views, limit: nat, term: TermId): nat {
    if term in views then views[term].stream.state.historyLimit else limit
  }

  /** No snapshot changes how much history a mirror keeps; one made for it keeps what the reader asked for last. */
  lemma {:induction false} AdoptingKeepsLimits(views: Views, limit: nat, states: seq<TerminalState>, term: TermId)
    ensures term in AdoptAll(views, limit, states) ==>
      AdoptAll(views, limit, states)[term].stream.state.historyLimit == LimitFor(views, limit, term)
  {
    hide Adopted, BlankGrid;
    if states != [] {
      var last := states[|states| - 1];
      AdoptAllTerms(views, limit, states[..|states| - 1]);
      AdoptingKeepsLimits(views, limit, states[..|states| - 1], term);
      if !TooLarge(last) { AdoptedCoherent(last, LimitFor(views, limit, term)); }
    }
  }

  lemma {:induction false} AdoptedLast(views: Views, limit: nat, states: seq<TerminalState>, term: TermId)
    requires term in TermsOf(states)
    ensures term in AdoptAll(views, limit, states)
    ensures var view, last := AdoptAll(views, limit, states)[term], LastOf(states, term);
      if TooLarge(last) then view.stream.needsSnapshot
      else view.stream == Held(Adopted(last, LimitFor(views, limit, term)), 0, false)
  {
    hide Adopted, NewView;
    var n := |states| - 1;
    TermsOfMore(states);
    AdoptAllTerms(views, limit, states);
    AdoptAllTerms(views, limit, states[..n]);
    if states[n].term == term {
      AdoptingKeepsLimits(views, limit, states[..n], term);
      NewKeeps(limit);
    } else {
      AdoptedLast(views, limit, states[..n], term);
    }
  }

  lemma NewKeeps(limit: nat)
    ensures NewView(limit).stream.state.historyLimit == limit
  {
  }

  /**
   A snapshot answers every need: afterwards the mirrors are those of its terminals, each as it was last stated and with
   as much history as it kept, or the reader wants kept of a new one; and one asks again exactly when a terminal was
   stated larger than the protocol allows.
   */
  lemma SnapshotAnswers(views: Views, limit: nat, store: I.Store, session: nat, states: seq<TerminalState>)
    ensures var after := AfterMessage(views, limit, store, Attached(session, states));
      && after.Keys == TermsOf(states)
      && (forall term :: term in after && !TooLarge(LastOf(states, term)) ==>
            after[term].stream == Held(Adopted(LastOf(states, term), LimitFor(views, limit, term)), 0, false))
      && (SomeNeeds(after) <==> exists term :: term in TermsOf(states) && TooLarge(LastOf(states, term)))
  {
    hide AdoptAll, LastOf, TooLarge, Adopted, TermsOf, LimitFor;
    AdoptAllTerms(views, limit, states);
    var after := AfterMessage(views, limit, store, Attached(session, states));
    forall term | term in TermsOf(states)
      ensures after[term].stream.needsSnapshot == TooLarge(LastOf(states, term))
      ensures !TooLarge(LastOf(states, term)) ==>
        after[term].stream == Held(Adopted(LastOf(states, term), LimitFor(views, limit, term)), 0, false)
    {
      AdoptedLast(views, limit, states, term);
    }
  }

  /** Whatever a message is about, it leaves every other terminal's mirror alone. */
  lemma OthersUntouched(views: Views, limit: nat, store: I.Store, message: Message, other: TermId)
    requires !message.Attached? && (NamesTerminal(message) ==> message.term != other)
    ensures var after := AfterMessage(views, limit, store, message);
      (other in after <==> other in views) && (other in views ==> after[other] == views[other])
  {
    hide AfterForOne, NewView;
  }

  // ------------------------------------------------------------- what is said

  function Names(entries: seq<LayoutEntry>): seq<TermId> {
    seq(|entries|, i requires 0 <= i < |entries| => entries[i].term)
  }

  function TermNames(states: seq<TerminalState>): seq<TermId> {
    seq(|states|, i requires 0 <= i < |states| => states[i].term)
  }

  /** What is said on a message other than an attachment. */
  function Saying(told: Told, message: Message): seq<Event> {
    match message
    case LayoutDelta(session, entries) => if session == told.session then [LayoutStated(Names(entries), false)] else []
    case Detached => [Ended]
    case GridDelta(term, _, _) => if term !in told.held && !told.healing then [Healed(told.session)] else []
    case TermOpened(term, _, _) => if term !in told.held then [Opened(term)] else []
    case TermClosed(term, _, held, _) => if term in told.held && !held then [Closed(term)] else []
    case _ => []
  }

  /** Everything that can happen to a session: what a client does with it, and what it hears from the server. */
  datatype Input =
    | AskFor(session: nat)
    | Report(entries: seq<LayoutEntry>)
    | Type(term: TermId, bytes: string)
    | Hear(message: Message)
    | Heal
    | ForgetWindows
    | LoseConnection
    | KeepHistory(lines: nat)

  /** What is said on an input other than an attachment arriving. */
  ghost function Said(told: Told, views: Views, input: Input): seq<Event> {
    match input
    case AskFor(session) => [Asked(session)]
    case Report(entries) => if entries != [] && told.attached && entries != told.reported then [Reported(entries)] else []
    case Hear(message) => Saying(told, message)
    case Heal => if SomeNeeds(views) && !told.healing then [Healed(told.session)] else []
    case ForgetWindows => [Forgotten]
    case LoseConnection => [Lost]
    case _ => []
  }

  predicate Attaches(input: Input) {
    input.Hear? && input.message.Attached?
  }

  /** What an input makes of the mirrors. */
  function AfterInput(views: Views, limit: nat, store: I.Store, input: Input): Views {
    match input
    case Hear(message) => AfterMessage(views, limit, store, message)
    case LoseConnection => map[]
    case _ => views
  }

  /** What a session holds: its mirrors, the history new ones will keep, and the pictures on their way. */
  datatype Kept = Kept(views: Views, limit: nat, store: I.Store)

  const NOTHING := Kept(map[], 0, I.EMPTY)

  function AfterOne(kept: Kept, input: Input): Kept {
    Kept(AfterInput(kept.views, kept.limit, kept.store, input),
         if input.KeepHistory? then input.lines else kept.limit,
         if input.Hear? then AfterPictures(kept.store, input.message) else kept.store)
  }

  /** What a run of inputs makes of what is held. */
  function AfterInputs(kept: Kept, inputs: seq<Input>): Kept {
    if inputs == [] then kept else AfterOne(AfterInputs(kept, inputs[..|inputs| - 1]), inputs[|inputs| - 1])
  }

  lemma NoInputs(kept: Kept, inputs: seq<Input>)
    requires inputs == []
    ensures AfterInputs(kept, inputs) == kept
  {
  }

  lemma InputsMore(kept: Kept, inputs: seq<Input>, i: nat)
    requires i < |inputs|
    ensures AfterInputs(kept, inputs[..i + 1]) == AfterOne(AfterInputs(kept, inputs[..i]), inputs[i])
  {
    hide AfterOne;
    assert inputs[..i + 1][..i] == inputs[..i];
  }

  /** What an input means for pasting. */
  function PastingIn(input: Input): seq<P.PasteEvent> {
    match input
    case Type(term, bytes) => [P.Pasted(term, bytes)]
    case Hear(message) => if message.PasteAck? then [P.Acked] else []
    case ForgetWindows => [P.Abandoned(false)]
    case LoseConnection => [P.Abandoned(true)]
    case _ => []
  }

  function AllPasting(inputs: seq<Input>): seq<P.PasteEvent> {
    if inputs == [] then [] else AllPasting(inputs[..|inputs| - 1]) + PastingIn(inputs[|inputs| - 1])
  }

  lemma NoPasting(inputs: seq<Input>)
    requires inputs == []
    ensures AllPasting(inputs) == []
  {
  }

  lemma PastingMore(inputs: seq<Input>, i: nat)
    requires i < |inputs|
    ensures AllPasting(inputs[..i + 1]) == AllPasting(inputs[..i]) + PastingIn(inputs[i])
  {
    assert inputs[..i + 1][..i] == inputs[..i];
  }

  lemma PasteRuns(books: P.Books, input: Input)
    ensures var events := PastingIn(input);
      |events| <= 1 && (events != [] ==> P.RunFrom(books, events) == P.Step(books, events[0]))
      && (input.ForgetWindows? ==> P.Step(books, events[0]) == P.Left(books, false))
      && (input.LoseConnection? ==> P.Step(books, events[0]) == P.Left(books, true))
      && P.SentBy(books, events) == (if events != [] then P.Sending(books.pacing, events[0]) else [])
      && (events != [] && events[0].Abandoned? ==> P.Sending(books.pacing, events[0]) == [])
  {
    var events := PastingIn(input);
    P.SentNothing(books);
    if events != [] && events[0].Abandoned? { assert P.Sending(books.pacing, events[0]) == []; }
    hide P.RunFrom, P.Sending, P.Due, P.Pumped, P.Cut, P.SentBy;
    if events != [] {
      assert events == [events[0]];
      P.RunOne(books, events[0]);
      P.SentOne(books, events[0]);
    }
  }

  // ------------------------------------------------------------- the session

  lemma NewLimit(limit: nat)
    ensures EnforceCapacity(BlankState(0, 0, 0).(historyLimit := limit)) == BlankState(0, 0, limit)
  {
  }

  /** What a mirror holds, if it is in order. */
  ghost function ViewOf(mirror: TerminalMirror): Option<View>
    reads mirror
  {
    if mirror.Valid() then
      Some(View(mirror.StreamState(), mirror.Pictures(), mirror.Jobs(), Ending(mirror.exited, mirror.hold, mirror.exitStatus)))
    else None
  }

  /** A mirror that has not been told anything, and keeps as much history as the reader's settings say. */
  method NewMirror(limit: nat) returns (mirror: TerminalMirror)
    ensures fresh(mirror) && ViewOf(mirror) == Some(NewView(limit))
  {
    NewLimit(limit);
    hide TerminalMirror.Valid, EnforceCapacity, BlankState, ScreenOf, LiveHistory, LastLines;
    mirror := new TerminalMirror();
    mirror.SetHistoryLimit(limit);
  }

  class ServerSession {
    var session: nat
    var attached: bool
    var snapshotRequested: bool
    var resnapshots: nat
    var attachments: nat
    var terminals: map<TermId, TerminalMirror>
    var announced: set<TermId>
    var layoutSent: seq<LayoutEntry>
    var historyLimit: nat
    var pasteQueue: seq<P.PasteChunk>
    var pasteInFlight: nat
    var nextPasteSeq: nat
    var pendingImages: map<nat, I.Pending>
    var completedImages: map<nat, Image>
    /** All that was said and heard, in order; the paste chunks sent; and what those came of. */
    ghost var record: seq<Event>
    ghost var chunksSent: seq<P.PasteChunk>
    ghost var books: P.Books
    ghost var picturing: seq<I.PictureMessage>

    /** Every terminal has a mirror of its own, and all are in order. */
    ghost predicate InOrder()
      reads this`terminals, terminals.Values
    {
      && (forall id :: id in terminals ==> ViewOf(terminals[id]).Some?)
      && (forall a, b :: a in terminals && b in terminals && a != b ==> terminals[a] != terminals[b])
    }

    ghost function AllViews(): Views
      reads this`terminals, terminals.Values
      requires InOrder()
    {
      map id | id in terminals :: ViewOf(terminals[id]).value
    }

    /** What the mirrors hold, if they are in order. */
    ghost function Holding(): Option<Views>
      reads this`terminals, terminals.Values
    {
      if InOrder() then Some(AllViews()) else None
    }

    function Telling(): Told
      reads this`terminals, this`announced, this`session, this`attached, this`snapshotRequested, this`layoutSent
    {
      Told(terminals.Keys, announced, session, attached, snapshotRequested, layoutSent)
    }

    /** What the fields say is what the record leaves true, and no rule was broken in making it. */
    ghost predicate Truthful()
      reads this`terminals, this`announced, this`session, this`attached, this`snapshotRequested, this`layoutSent
      reads this`record, this`resnapshots, this`attachments
    {
      && Lawful(record) && Tell(record) == Telling()
      && resnapshots == Heals(record) && attachments == Grants(record)
    }

    /** The record, if it can be believed. */
    ghost function Recorded(): Option<seq<Event>>
      reads this`terminals, this`announced, this`session, this`attached, this`snapshotRequested, this`layoutSent
      reads this`record, this`resnapshots, this`attachments
    {
      if Truthful() then Some(record) else None
    }

    function Pacing(): P.Pacing
      reads this`pasteQueue, this`pasteInFlight, this`nextPasteSeq
    {
      P.Pacing(pasteQueue, pasteInFlight, nextPasteSeq)
    }

    /** The queue is what the books say, and the books are in order. */
    ghost predicate Pasting()
      reads this`pasteQueue, this`pasteInFlight, this`nextPasteSeq, this`books
    {
      Pacing() == books.pacing && P.Paced(books) && nextPasteSeq < P.SEQUENCES
    }

    function Store(): I.Store
      reads this`pendingImages, this`completedImages
    {
      I.Store(pendingImages, completedImages)
    }

    /** The pictures held are those that all the picture messages there have been leave. */
    ghost predicate StoreAgrees()
      reads this`pendingImages, this`completedImages, this`picturing
    {
      Store() == I.AfterAll(I.EMPTY, picturing)
    }

    ghost function Pictured(): Option<seq<I.PictureMessage>>
      reads this`pendingImages, this`completedImages, this`picturing
    {
      if StoreAgrees() then Some(picturing) else None
    }

    ghost function Keeping(): Option<Kept>
      reads this`terminals, this`historyLimit, this`pendingImages, this`completedImages, terminals.Values
    {
      if Holding().Some? then Some(Kept(Holding().value, historyLimit, Store())) else None
    }

    ghost predicate Valid()
      reads this, terminals.Values
      ensures Valid() ==> Keeping().Some?
    {
      Holding().Some? && Recorded().Some? && Pasting() && Pictured().Some?
    }

    lemma HeldAre()
      requires Holding().Some?
      ensures Holding().value.Keys == terminals.Keys
      ensures forall id :: id in terminals ==> ViewOf(terminals[id]) == Some(Holding().value[id])
      ensures forall a, b :: a in terminals && b in terminals && a != b ==> terminals[a] != terminals[b]
    {
      hide ViewOf;
    }

    /** One mirror changed or was added; the rest are as they were. */
    twostate lemma OneMirror(id: TermId)
      requires old(Holding()).Some? && id in terminals && terminals == old(terminals)[id := terminals[id]]
      requires id in old(terminals) || terminals[id] !in old(terminals).Values
      requires id in old(terminals) ==> terminals[id] == old(terminals)[id]
      requires ViewOf(terminals[id]).Some?
      requires forall k :: k in old(terminals) && k != id ==> unchanged(old(terminals)[k])
      ensures Holding() == Some(old(Holding()).value[id := ViewOf(terminals[id]).value])
    {
      hide ViewOf;
      forall k | k in terminals && k != id ensures ViewOf(terminals[k]) == old(ViewOf(terminals[k])) {}
      var now, expected := Holding().value, old(Holding()).value[id := ViewOf(terminals[id]).value];
      assert now.Keys == expected.Keys;
      assert now == expected;
    }

    /** Fewer mirrors, or as many: those that stay are as they were. */
    twostate lemma FewerMirrors(gone: set<TermId>)
      requires old(Holding()).Some? && terminals == old(terminals) - gone
      requires forall k :: k in terminals ==> unchanged(terminals[k])
      ensures Holding() == Some(old(Holding()).value - gone)
    {
      hide ViewOf;
      forall k | k in terminals ensures ViewOf(terminals[k]) == old(ViewOf(terminals[k])) {}
      var now, expected := Holding().value, old(Holding()).value - gone;
      assert now.Keys == expected.Keys;
      assert now == expected;
    }

    twostate lemma MirrorsStay()
      requires old(Holding()).Some? && terminals == old(terminals)
      requires forall k :: k in terminals ==> unchanged(terminals[k])
      ensures Holding() == old(Holding())
    {
      hide ViewOf;
      forall k | k in terminals ensures ViewOf(terminals[k]) == old(ViewOf(terminals[k])) {}
      var now, expected := Holding().value, old(Holding()).value;
      assert now.Keys == expected.Keys;
      assert now == expected;
    }

    constructor ()
      ensures Valid() && Holding() == Some(map[]) && Telling() == UNTOLD && record == []
      ensures Keeping() == Some(NOTHING) && Pacing() == P.IDLE && Store() == I.EMPTY && chunksSent == [] && books == P.OPENED && picturing == []
    {
      session, attached, snapshotRequested, resnapshots, attachments := 0, false, false, 0, 0;
      terminals, announced, layoutSent, historyLimit := map[], {}, [], 0;
      pasteQueue, pasteInFlight, nextPasteSeq := [], 0, 1;
      pendingImages, completedImages := map[], map[];
      record, chunksSent, books, picturing := [], [], P.OPENED, [];
      P.OpenedIsPaced();
    }

    // ----------------------------------------------------------- attaching

    /** Asks to attach. A healing attach is the same message; its caller enters it in the record. */
    method Attach(wanted: nat, ghost healing: bool)
      requires healing ==> wanted == session
      requires !healing ==> Recorded().Some?
      modifies this`session, this`snapshotRequested, this`layoutSent, this`record
      ensures session == wanted && !snapshotRequested
      ensures !healing ==> Recorded().Some? && record == old(record) + [Asked(wanted)]
      ensures healing ==> layoutSent == old(layoutSent) && record == old(record)
    {
      hide Lawful, Tell, Heals, Grants;
      if wanted != session { layoutSent := []; }
      session := wanted;
      snapshotRequested := false;
      if !healing {
        LawfulAppend(record, Asked(wanted));
        record := record + [Asked(wanted)];
      }
    }

    /** One request at a time: nothing is asked while an answer is outstanding. */
    method RequestSnapshot()
      requires Recorded().Some?
      modifies this`session, this`snapshotRequested, this`layoutSent, this`record, this`resnapshots
      ensures Recorded().Some? && snapshotRequested
      ensures session == old(session) && layoutSent == old(layoutSent)
      ensures record == old(record) + if old(snapshotRequested) then [] else [Healed(session)]
    {
      hide Lawful, Tell, Heals, Grants;
      if snapshotRequested { return; }
      resnapshots := resnapshots + 1;
      LawfulAppend(record, Healed(session));
      Attach(session, true);
      snapshotRequested := true;
      record := record + [Healed(session)];
    }

    method ReportLayout(entries: seq<LayoutEntry>)
      requires Recorded().Some?
      modifies this`layoutSent, this`record
      ensures Recorded().Some?
      ensures record == old(record) +
        if entries != [] && attached && entries != old(layoutSent) then [Reported(entries)] else []
      ensures layoutSent == if entries != [] && attached then entries else old(layoutSent)
    {
      hide Lawful, Tell, Heals, Grants;
      if entries == [] { return; }
      if !attached { return; }
      if entries == layoutSent { return; }
      LawfulAppend(record, Reported(entries));
      layoutSent := entries;
      record := record + [Reported(entries)];
    }

    /** The mirror of a terminal, made and announced if there is none. */
    method EnsureTerminal(id: TermId) returns (mirror: TerminalMirror)
      requires Holding().Some? && Recorded().Some?
      modifies this`terminals, this`announced, this`record
      ensures Holding() == Some(Ensured(old(Holding()).value, historyLimit, id))
      ensures Recorded().Some? && id in terminals && mirror == terminals[id]
      ensures id in old(terminals) ==> terminals == old(terminals)
      ensures id !in old(terminals) ==> fresh(mirror) && terminals == old(terminals)[id := mirror]
      ensures announced == old(announced) + if id in old(terminals) then {} else {id}
      ensures record == old(record) + if id in old(terminals) then [] else [Opened(id)]
    {
      HeldAre();
      hide Recorded, NewView, ViewOf, Holding;
      if id in terminals { return terminals[id]; }
      label Before:
      mirror := NewMirror(historyLimit);
      MirrorsStay@Before();
      AddTerminal(id, mirror);
    }

    method AddTerminal(id: TermId, mirror: TerminalMirror)
      requires Holding().Some? && Recorded().Some? && id !in terminals
      requires mirror !in terminals.Values && ViewOf(mirror) == Some(NewView(historyLimit))
      modifies this`terminals, this`announced, this`record
      ensures Holding() == Some(old(Holding()).value[id := NewView(historyLimit)])
      ensures Recorded().Some? && terminals == old(terminals)[id := mirror] && announced == old(announced) + {id}
      ensures record == old(record) + [Opened(id)]
    {
      hide Holding, ViewOf, NewView, Recorded;
      Announce(id, mirror);
      OneMirror(id);
    }

    method Announce(id: TermId, mirror: TerminalMirror)
      requires Recorded().Some? && id !in terminals
      modifies this`terminals, this`announced, this`record
      ensures Recorded().Some? && terminals == old(terminals)[id := mirror] && announced == old(announced) + {id}
      ensures record == old(record) + [Opened(id)]
    {
      ShownIsHeld(record);
      LawfulAppend(record, Opened(id));
      hide Lawful, Tell, Heals, Grants;
      terminals := terminals[id := mirror];
      announced := announced + {id};
      record := record + [Opened(id)];
    }

    // ----------------------------------------------------------- pasting

    /** Sends whatever the credit allows. */
    method PumpPaste()
      modifies this`pasteQueue, this`pasteInFlight, this`chunksSent
      ensures Pacing() == P.Pumped(old(Pacing()))
      ensures chunksSent == old(chunksSent) + old(pasteQueue)[..P.Going(old(Pacing()))]
    {
      ghost var going := P.Going(Pacing());
      var sent := 0;
      while pasteInFlight < P.CREDIT && pasteQueue != []
        invariant sent <= |old(pasteQueue)| && pasteQueue == old(pasteQueue)[sent..]
        invariant pasteInFlight == old(pasteInFlight) + sent && sent <= going
        invariant chunksSent == old(chunksSent) + old(pasteQueue)[..sent]
        decreases |pasteQueue|
      {
        var waiting := pasteQueue[0];
        pasteQueue := pasteQueue[1..];
        chunksSent := chunksSent + [waiting];
        assert old(pasteQueue)[..sent + 1] == old(pasteQueue)[..sent] + [waiting];
        pasteInFlight := pasteInFlight + 1;
        sent := sent + 1;
      }
    }

    method Paste(term: TermId, bytes: string)
      requires Pasting()
      modifies this`pasteQueue, this`pasteInFlight, this`nextPasteSeq, this`chunksSent, this`books
      ensures Pasting() && books == P.Step(old(books), P.Pasted(term, bytes))
      ensures chunksSent == old(chunksSent) + P.Sending(old(Pacing()), P.Pasted(term, bytes))
    {
      P.StepKeepsPaced(books, P.Pasted(term, bytes));
      P.NothingToPaste(books, term);
      if bytes == "" { return; }
      hide P.Cut, P.NumberIn, P.Paced, P.Pumped, P.Going;
      books := P.Step(books, P.Pasted(term, bytes));
      var chunks, next := P.CutPaste(term, nextPasteSeq, bytes);
      pasteQueue, nextPasteSeq := pasteQueue + chunks, next;
      PumpPaste();
    }

    method AbandonPaste(ghost connectionGone: bool)
      requires Pasting()
      modifies this`pasteQueue, this`pasteInFlight, this`books
      ensures Pasting() && pasteQueue == [] && pasteInFlight == 0
      ensures books == P.Left(old(books), connectionGone)
    {
      P.StepKeepsPaced(books, P.Abandoned(connectionGone));
      hide P.Paced;
      pasteQueue, pasteInFlight := [], 0;
      books := P.Left(books, connectionGone);
    }

    /** An acknowledgement: what it names is not looked at. */
    method HandleAck()
      requires Pasting()
      modifies this`pasteQueue, this`pasteInFlight, this`chunksSent, this`books
      ensures Pasting() && books == P.Step(old(books), P.Acked)
      ensures chunksSent == old(chunksSent) + P.Sending(old(Pacing()), P.Acked)
    {
      P.StepKeepsPaced(books, P.Acked);
      hide P.Paced, P.Pumped, P.Going;
      if pasteInFlight > 0 { pasteInFlight := pasteInFlight - 1; }
      PumpPaste();
      books := P.Step(books, P.Acked);
    }

    // ----------------------------------------------------------- leaving

    method ConnectionLost()
      requires Recorded().Some? && Pasting()
      modifies this`attached, this`session, this`snapshotRequested, this`terminals, this`announced, this`layoutSent
      modifies this`record, this`pasteQueue, this`pasteInFlight, this`books
      ensures Recorded().Some? && Pasting() && Holding() == Some(map[]) && Telling() == UNTOLD
      ensures record == old(record) + [Lost] && books == P.Left(old(books), true)
      ensures pasteQueue == [] && pasteInFlight == 0
    {
      hide *;
      LoseServer();
      NoMirrors();
      AbandonPaste(true);
    }

    method LoseServer()
      requires Recorded().Some?
      modifies this`attached, this`session, this`snapshotRequested, this`terminals, this`announced, this`layoutSent
      modifies this`record
      ensures Recorded().Some? && terminals == map[] && Telling() == UNTOLD && record == old(record) + [Lost]
    {
      ghost var said := record + [Lost];
      LawfulAppend(record, Lost);
      hide Lawful, Tell, Heals, Grants, Recorded, Truthful;
      LetGo();
      Believed(said);
    }

    lemma Believed(said: seq<Event>)
      requires record == said && Lawful(said) && Tell(said) == Telling()
      requires resnapshots == Heals(said) && attachments == Grants(said)
      ensures Recorded().Some?
    {
    }

    /** Everything held described a server that no longer exists. */
    method LetGo()
      modifies this`attached, this`session, this`snapshotRequested, this`terminals, this`announced, this`layoutSent
      modifies this`record
      ensures terminals == map[] && Telling() == UNTOLD && record == old(record) + [Lost]
    {
      attached, session, snapshotRequested := false, 0, false;
      terminals, announced, layoutSent := map[], {}, [];
      record := record + [Lost];
    }

    lemma NoMirrors()
      requires terminals == map[]
      ensures Holding() == Some(map[])
    {
      assert AllViews() == map[];
    }

    /** The windows went; the attachment and its mirrors did not. */
    method WindowsForgotten()
      requires Recorded().Some? && Pasting()
      modifies this`announced, this`record, this`pasteQueue, this`pasteInFlight, this`books
      ensures Recorded().Some? && Pasting() && announced == {}
      ensures record == old(record) + [Forgotten] && books == P.Left(old(books), false)
      ensures pasteQueue == [] && pasteInFlight == 0
    {
      hide Lawful, Tell, Heals, Grants, P.Step, P.Paced;
      LawfulAppend(record, Forgotten);
      AbandonPaste(false);
      announced := {};
      record := record + [Forgotten];
    }

    // ----------------------------------------------------------- an attachment arrives

    /** One terminal of a snapshot, whole, into a mirror of its own. */
    method AdoptOne(snapshot: TerminalState)
      requires Holding().Some? && Recorded().Some?
      modifies this`terminals, this`announced, this`record, terminals.Values
      ensures Holding() == Some(AdoptNext(old(Holding()).value, historyLimit, snapshot)) && Recorded().Some?
      ensures forall id :: id in terminals ==> (id in old(terminals) && terminals[id] == old(terminals)[id]) || fresh(terminals[id])
      ensures terminals.Keys == old(terminals).Keys + {snapshot.term}
      ensures announced == old(announced) + if snapshot.term in old(terminals) then {} else {snapshot.term}
      ensures record == old(record) + if snapshot.term in old(terminals) then [] else [Opened(snapshot.term)]
    {
      hide ViewOf, Holding, NewView, Recorded, AdoptView;
      var mirror := EnsureTerminal(snapshot.term);
      HeldAre();
      label Ensured:
      AdoptInto(mirror, snapshot);
      OneMirror@Ensured(snapshot.term);
    }

    /** The snapshot's terminals, one after another. */
    method AdoptSnapshot(states: seq<TerminalState>)
      requires Holding().Some? && Recorded().Some?
      modifies this`terminals, this`announced, this`record, terminals.Values
      ensures Holding() == Some(AdoptAll(old(Holding()).value, historyLimit, states))
      ensures Recorded().Some? && terminals.Keys == old(terminals).Keys + TermsOf(states)
      ensures forall id :: id in terminals ==> terminals[id] in old(terminals.Values) || fresh(terminals[id])
      ensures announced == old(announced) + (TermsOf(states) - old(terminals).Keys)
      ensures Windows(old(record), record, TermsOf(states) - old(terminals).Keys, {})
    {
      hide Holding, Recorded, AdoptAll, AdoptNext, TermsOf, Windows, Front;
      NoWindows(record);
      FrontStarts(Holding().value, historyLimit, states);
      ghost var views, keys, was := Holding().value, terminals.Keys, announced;
      NoneYet(keys, was);
      for i := 0 to |states|
        invariant Holding() == Some(AdoptAll(views, historyLimit, Front(states, i))) && Recorded().Some?
        invariant forall id :: id in terminals ==> terminals[id] in old(terminals.Values) || fresh(terminals[id])
        invariant terminals.Keys == keys + TermsOf(Front(states, i))
        invariant announced == was + (TermsOf(Front(states, i)) - keys)
        invariant Windows(old(record), record, TermsOf(Front(states, i)) - keys, {})
      {
        OneMoreWindow(old(record), record, TermsOf(Front(states, i)) - keys, {}, Opened(states[i].term));
        OneMoreTerm(keys, was, TermsOf(Front(states, i)), states[i].term);
        NothingSaid(record);
        FrontMore(views, historyLimit, states, i);
        AdoptOne(states[i]);
      }
      FrontEnds(states);
    }

    /** What was held and is not named any more has gone while nobody was listening. */
    method CloseVanished(terms: set<TermId>)
      requires Holding().Some? && Recorded().Some?
      modifies this`terminals, this`announced, this`record
      ensures Holding() == Some(old(Holding()).value - (old(terminals).Keys - terms)) && Recorded().Some?
      ensures terminals.Keys == old(terminals).Keys - (old(terminals).Keys - terms)
      ensures forall id :: id in terminals ==> terminals[id] == old(terminals)[id]
      ensures announced == old(announced) - (old(terminals).Keys - terms)
      ensures Windows(old(record), record, {}, old(terminals).Keys - terms)
    {
      hide Holding, Recorded, Windows;
      NoWindows(record);
      var vanished := terminals.Keys - terms;
      ghost var doomed, views := vanished, Holding().value;
      assert doomed - doomed == {} && views - {} == views;
      while vanished != {}
        invariant Recorded().Some? && vanished <= doomed && Holding() == Some(views - (doomed - vanished))
        invariant terminals == old(terminals) - (doomed - vanished) && announced == old(announced) - (doomed - vanished)
        invariant Windows(old(record), record, {}, doomed - vanished)
        decreases |vanished|
      {
        var id :| id in vanished;
        OneMoreWindow(old(record), record, {}, doomed - vanished, Closed(id));
        OneMoreGone(old(terminals), views, old(announced), doomed, vanished, id);
        CloseTerminal(id);
        vanished := vanished - {id};
      }
      assert doomed - {} == doomed;
    }

    /** The window layer is told, and the mirror goes. */
    method CloseTerminal(id: TermId)
      requires Holding().Some? && Recorded().Some? && id in terminals
      modifies this`terminals, this`announced, this`record
      ensures Holding() == Some(old(Holding()).value - {id}) && Recorded().Some?
      ensures terminals == old(terminals) - {id} && announced == old(announced) - {id}
      ensures record == old(record) + [Closed(id)]
    {
      hide Holding, Lawful, Tell, Heals, Grants;
      LawfulAppend(record, Closed(id));
      record := record + [Closed(id)];
      terminals := terminals - {id};
      announced := announced - {id};
      FewerMirrors({id});
    }

    method AnnounceTerminal(id: TermId)
      requires Recorded().Some? && id in terminals && id !in announced
      modifies this`announced, this`record
      ensures Recorded().Some? && announced == old(announced) + {id} && record == old(record) + [Opened(id)]
    {
      hide Lawful, Tell, Heals, Grants;
      LawfulAppend(record, Opened(id));
      announced := announced + {id};
      record := record + [Opened(id)];
      assert terminals.Keys + {id} == terminals.Keys;
    }

    /** Every terminal held and not shown is announced. */
    method AnnounceHeld()
      requires Recorded().Some?
      modifies this`announced, this`record
      ensures Recorded().Some? && announced == terminals.Keys
      ensures Windows(old(record), record, terminals.Keys - old(announced), {})
    {
      AnnouncedIsHeld();
      hide Recorded, Windows;
      NoWindows(record);
      var unannounced := terminals.Keys - announced;
      ghost var was, keys := announced, terminals.Keys;
      NoneLeft(keys, was);
      while unannounced != {}
        invariant Recorded().Some? && unannounced <= keys - was && announced == keys - unannounced
        invariant Windows(old(record), record, keys - was - unannounced, {})
        decreases |unannounced|
      {
        var id :| id in unannounced;
        OneMoreWindow(old(record), record, keys - was - unannounced, {}, Opened(id));
        OneFewer(keys, was, unannounced, id);
        AnnounceTerminal(id);
        unannounced := unannounced - {id};
      }
    }

    lemma AnnouncedIsHeld()
      requires Recorded().Some?
      ensures announced <= terminals.Keys
    {
      ShownIsHeld(record);
    }

    /**
     An attachment and the snapshot it brings, first or healing alike: afterwards the terminals held, the windows
     shown and the snapshot's terminals are the same; each window not shown yet is announced once and each one
     gone is closed once; and only then is it said where windows belong.
     */
    method HandleAttached(granted: nat, states: seq<TerminalState>)
      requires Holding().Some? && Recorded().Some?
      modifies this`attached, this`attachments, this`snapshotRequested, this`session
      modifies this`terminals, this`announced, this`record, terminals.Values
      ensures Holding() == Some(Only(AdoptAll(old(Holding()).value, historyLimit, states), TermsOf(states)))
      ensures Recorded().Some? && terminals.Keys == announced == TermsOf(states)
      ensures attached && session == granted && !snapshotRequested
      ensures forall id :: id in terminals ==> terminals[id] in old(terminals.Values) || fresh(terminals[id])
      ensures Reconciled(old(record), record, granted, states, old(announced), old(terminals).Keys)
    {
      hide Holding, Recorded, Windows, TermsOf, AdoptAll, Only;
      Grant(granted);
      Reconcile(states);
      NamesAreTerms(states);
      ghost var said := record;
      GrownBy(old(record) + [Granted(granted)], said, TermsOf(states) - old(announced), old(terminals).Keys - TermsOf(states));
      StateLayout(TermNames(states), true);
      assert record[..|record| - 1] == said;
    }

    /** Every terminal of the snapshot adopted, those not in it closed, and those not shown announced. */
    method Reconcile(states: seq<TerminalState>)
      requires Holding().Some? && Recorded().Some?
      modifies this`terminals, this`announced, this`record, terminals.Values
      ensures Holding() == Some(Only(AdoptAll(old(Holding()).value, historyLimit, states), TermsOf(states)))
      ensures Recorded().Some? && terminals.Keys == announced == TermsOf(states)
      ensures forall id :: id in terminals ==> terminals[id] in old(terminals.Values) || fresh(terminals[id])
      ensures Windows(old(record), record, TermsOf(states) - old(announced), old(terminals).Keys - TermsOf(states))
    {
      AnnouncedIsHeld();
      hide Holding, Recorded, Windows, TermsOf, AdoptAll, Only;
      ghost var start, keys, was := record, terminals.Keys, announced;
      AdoptSnapshot(states);
      ghost var adopted := record;
      ReconcileSets(keys, was, TermsOf(states));
      Settle(TermsOf(states));
      WindowsFollow(start, adopted, record, TermsOf(states) - keys, ShownLater(keys, was, TermsOf(states)), {}, keys - TermsOf(states));
    }

    /** The windows brought in line with the terminals named: some closed, then the rest all shown. */
    method Settle(terms: set<TermId>)
      requires Holding().Some? && Recorded().Some?
      modifies this`terminals, this`announced, this`record
      ensures Holding() == Some(Only(old(Holding()).value, terms))
      ensures Recorded().Some? && terminals.Keys == announced == old(terminals).Keys * terms
      ensures forall id :: id in terminals ==> terminals[id] == old(terminals)[id]
      ensures Windows(old(record), record, old(terminals).Keys * terms - old(announced), old(terminals).Keys - terms)
    {
      AnnouncedIsHeld();
      HeldAre();
      SettleSets(terminals.Keys, announced, terms);
      OnlyIsWithout(Holding().value, terms);
      hide Holding, Recorded, Windows, Only;
      ghost var start, keys, was := record, terminals.Keys, announced;
      CloseVanished(terms);
      ghost var closed := record;
      AnnounceHeld();
      WindowsFollow(start, closed, record, {}, keys * terms - was, keys - terms, {});
    }

    method StateLayout(terms: seq<TermId>, snapshot: bool)
      requires Recorded().Some? && (snapshot ==> forall i :: 0 <= i < |terms| ==> terms[i] in announced)
      modifies this`record
      ensures Recorded().Some? && record == old(record) + [LayoutStated(terms, snapshot)]
    {
      hide Lawful, Tell, Heals, Grants;
      LawfulAppend(record, LayoutStated(terms, snapshot));
      record := record + [LayoutStated(terms, snapshot)];
    }

    method Grant(granted: nat)
      requires Recorded().Some?
      modifies this`attached, this`attachments, this`snapshotRequested, this`session, this`record
      ensures Recorded().Some? && attached && session == granted && !snapshotRequested
      ensures record == old(record) + [Granted(granted)]
    {
      hide Lawful, Tell, Heals, Grants;
      LawfulAppend(record, Granted(granted));
      record := record + [Granted(granted)];
      attached := true;
      attachments := attachments + 1;
      snapshotRequested := false;
      session := granted;
    }

    // ----------------------------------------------------------- other messages

    method HandleDetached()
      requires Recorded().Some?
      modifies this`attached, this`layoutSent, this`record
      ensures Recorded().Some? && record == old(record) + [Ended]
    {
      hide Lawful, Tell, Heals, Grants;
      LawfulAppend(record, Ended);
      attached, layoutSent := false, [];
      record := record + [Ended];
    }

    /** News of an arrangement, passed on only when it is about the session watched. */
    method HandleLayout(about: nat, entries: seq<LayoutEntry>)
      requires Recorded().Some?
      modifies this`record
      ensures Recorded().Some?
      ensures record == old(record) + if about == session then [LayoutStated(Names(entries), false)] else []
    {
      if about == session { StateLayout(Names(entries), false); }
    }

    /** A message for one terminal, passed to its mirror. The others are not touched. */
    method ToMirror(store: I.Store, message: Message)
      requires Holding().Some? && NamesTerminal(message) && message.term in terminals
      modifies terminals.Values
      ensures Holding() == Some(Changed(old(Holding()).value, store, message))
    {
      HeldAre();
      hide Holding, ViewOf, AfterForOne;
      TellMirror(terminals[message.term], store, message);
      OneMirror(message.term);
    }

    /** A message for one terminal, if it is held. */
    method ToMirrorIfHeld(store: I.Store, message: Message)
      requires Holding().Some? && NamesTerminal(message)
      modifies terminals.Values
      ensures Holding() == Some(Changed(old(Holding()).value, store, message))
    {
      HeldAre();
      hide Holding, AfterForOne;
      if message.term in terminals { ToMirror(store, message); }
    }

    /** A delta for a terminal this client has never heard of asks for a snapshot; it invents nothing. */
    method HandleDelta(store: I.Store, message: Message)
      requires Holding().Some? && Recorded().Some? && message.GridDelta?
      modifies this`session, this`snapshotRequested, this`layoutSent, this`record, this`resnapshots, terminals.Values
      ensures Recorded().Some?
      ensures Holding() == Some(Changed(old(Holding()).value, store, message))
      ensures record == old(record) + if message.term !in terminals && !old(snapshotRequested) then [Healed(old(session))] else []
    {
      hide Holding, Recorded, AfterForOne;
      if message.term !in terminals {
        HeldAre();
        RequestSnapshot();
        FewerMirrors({});
      } else {
        ToMirror(store, message);
      }
    }

    method HandleOpened(store: I.Store, message: Message)
      requires Holding().Some? && Recorded().Some? && message.TermOpened?
      modifies this`terminals, this`announced, this`record, terminals.Values
      ensures Recorded().Some?
      ensures forall id :: id in terminals ==> terminals[id] in old(terminals.Values) || fresh(terminals[id])
      ensures Holding() == Some(Changed(Ensured(old(Holding()).value, historyLimit, message.term), store, message))
      ensures record == old(record) + if message.term !in old(terminals) then [Opened(message.term)] else []
    {
      hide Holding, Recorded, NewView, AfterForOne, Ensured;
      var _ := EnsureTerminal(message.term);
      ToMirror(store, message);
    }

    /** A terminal that ended keeps its window while it is held; one that is not held goes, mirror and all. */
    method HandleClosed(store: I.Store, message: Message)
      requires Holding().Some? && Recorded().Some? && message.TermClosed?
      modifies this`terminals, this`announced, this`record, terminals.Values
      ensures Recorded().Some?
      ensures forall id :: id in terminals ==> id in old(terminals) && terminals[id] == old(terminals)[id]
      ensures Holding() == Some(if message.held then Changed(old(Holding()).value, store, message)
                                else old(Holding()).value - {message.term})
      ensures record == old(record) + if message.term in old(terminals) && !message.held then [Closed(message.term)] else []
    {
      hide Holding, Recorded, AfterForOne, Changed;
      ChangedThenGone(Holding().value, store, message);
      if message.term in terminals {
        ToMirror(store, message);
        if !message.held { CloseTerminal(message.term); }
      } else {
        HeldAre();
      }
    }

    /** The picture store's part in a message. */
    method StorePicture(message: Message)
      requires Pictured().Some?
      modifies this`pendingImages, this`completedImages, this`picturing
      ensures Pictured().Some? && Store() == AfterPictures(old(Store()), message)
    {
      if PictureMessageOf(message).None? { return; }
      I.AfterAllStep(I.EMPTY, picturing, PictureMessageOf(message).value);
      hide I.AfterAll, I.AfterPicture;
      picturing := picturing + [PictureMessageOf(message).value];
      TakePicture(message);
    }

    method TakePicture(message: Message)
      modifies this`pendingImages, this`completedImages
      ensures Store() == AfterPictures(old(Store()), message)
    {
      hide I.TotalBytes, I.NumberAfter;
      match message {
        case ImageAddBegin(id, width, height) =>
          pendingImages := pendingImages[id := I.Pending(width, height, 0, "")];
        case ImageChunk(id, number, bytes) =>
          if id !in pendingImages { return; }
          var pending := pendingImages[id];
          if number != pending.nextSeq || |pending.bytes| + |bytes| > I.TotalBytes(pending.width, pending.height) {
            pendingImages := pendingImages - {id};
            return;
          }
          pendingImages := pendingImages[id :=
            pending.(bytes := pending.bytes + bytes, nextSeq := I.NumberAfter(pending.nextSeq))];
        case ImageEnd(id) =>
          if id !in pendingImages { return; }
          var pending := pendingImages[id];
          var total := I.TotalBytes(pending.width, pending.height);
          if total != 0 && |pending.bytes| == total {
            completedImages := completedImages[id := Image(pending.width, pending.height, pending.bytes)];
          }
          pendingImages := pendingImages - {id};
        case ImagePlace(_, id, _) =>
          completedImages := completedImages - {id};
        case ImageRemove(_, id) =>
          pendingImages := pendingImages - {id};
          completedImages := completedImages - {id};
        case _ =>
      }
    }

    // ----------------------------------------------------------- everything that can happen

    /** One message from the server; says whether it is one a client understands. */
    method Handle(message: Message) returns (understood: bool)
      requires Valid()
      modifies this, terminals.Values
      ensures Valid() && understood == !message.Unknown? && historyLimit == old(historyLimit)
      ensures forall id :: id in terminals ==> terminals[id] in old(terminals.Values) || fresh(terminals[id])
      ensures Holding() == Some(AfterMessage(old(Holding()).value, historyLimit, old(Store()), message))
      ensures Store() == AfterPictures(old(Store()), message)
      ensures books == if message.PasteAck? then P.Step(old(books), P.Acked) else old(books)
      ensures chunksSent == old(chunksSent) + if message.PasteAck? then P.Sending(old(Pacing()), P.Acked) else []
      ensures !message.Attached? ==> record == old(record) + Saying(old(Telling()), message)
      ensures message.Attached? ==>
        Reconciled(old(record), record, message.session, message.states, old(announced), old(terminals).Keys)
    {
      hide Holding, Recorded, Pasting, Pictured, Store, Reconciled, AfterMessage, Saying, AfterPictures;
      hide P.Step, P.Paced, I.AfterPicture, I.AfterAll;
      var store := Store();
      StorePicture(message);
      if NamesTerminal(message) { HandleNamed(store, message); } else { HandleRest(store, message); }
      return !message.Unknown?;
    }

    /** A message about the attachment as a whole. */
    method HandleRest(ghost store: I.Store, message: Message)
      requires Holding().Some? && Recorded().Some? && Pasting() && !NamesTerminal(message)
      modifies this`session, this`attached, this`snapshotRequested, this`attachments, this`terminals, this`announced
      modifies this`layoutSent, this`pasteQueue, this`pasteInFlight, this`record, this`chunksSent, this`books, terminals.Values
      ensures Recorded().Some? && Pasting()
      ensures forall id :: id in terminals ==> terminals[id] in old(terminals.Values) || fresh(terminals[id])
      ensures Holding() == Some(AfterMessage(old(Holding()).value, historyLimit, store, message))
      ensures books == if message.PasteAck? then P.Step(old(books), P.Acked) else old(books)
      ensures chunksSent == old(chunksSent) + if message.PasteAck? then P.Sending(old(Pacing()), P.Acked) else []
      ensures !message.Attached? ==> record == old(record) + Saying(old(Telling()), message)
      ensures message.Attached? ==>
        Reconciled(old(record), record, message.session, message.states, old(announced), old(terminals).Keys)
    {
      hide Holding, Recorded, Pasting, Reconciled, Only, AdoptAll, P.Step, P.Paced;
      NothingSaid(record);
      match message {
        case Attached(granted, states) => HandleAttached(granted, states);
        case LayoutDelta(about, entries) => HandleLayout(about, entries);
        case PasteAck => HandleAck();
        case Detached => HandleDetached();
        case _ =>
      }
    }

    /** A message about one terminal. */
    method HandleNamed(store: I.Store, message: Message)
      requires Holding().Some? && Recorded().Some? && NamesTerminal(message)
      modifies this`session, this`snapshotRequested, this`layoutSent, this`record, this`resnapshots
      modifies this`terminals, this`announced, terminals.Values
      ensures Recorded().Some?
      ensures forall id :: id in terminals ==> terminals[id] in old(terminals.Values) || fresh(terminals[id])
      ensures Holding() == Some(AfterMessage(old(Holding()).value, historyLimit, store, message))
      ensures record == old(record) + Saying(old(Telling()), message)
    {
      hide Holding, Recorded, Changed, Ensured;
      assert record + [] == record;
      if message.GridDelta? {
        HandleDelta(store, message);
      } else if message.TermOpened? {
        HandleOpened(store, message);
      } else if message.TermClosed? {
        HandleClosed(store, message);
      } else {
        ToMirrorIfHeld(store, message);
      }
    }

    /** After a batch of messages: one request for the whole attachment if any mirror has lost track. */
    method HealIfNeeded()
      requires Holding().Some? && Recorded().Some?
      modifies this`session, this`snapshotRequested, this`layoutSent, this`record, this`resnapshots
      ensures Recorded().Some? && Holding() == old(Holding())
      ensures record == old(record) +
        if SomeNeeds(old(Holding()).value) && !old(snapshotRequested) then [Healed(old(session))] else []
    {
      hide Holding, Recorded, SomeNeeds;
      var needed := MirrorNeeds();
      if !needed { return; }
      RequestSnapshot();
    }

    method MirrorNeeds() returns (needed: bool)
      requires Holding().Some?
      ensures needed == SomeNeeds(Holding().value)
    {
      NeedsShow();
      hide Holding, SomeNeeds;
      needed := false;
      var rest := terminals.Keys;
      while rest != {}
        invariant rest <= terminals.Keys
        invariant needed <==> exists id :: id in terminals && id !in rest && terminals[id].needsSnapshot
        decreases |rest|
      {
        var id :| id in rest;
        if terminals[id].needsSnapshot { needed := true; }
        rest := rest - {id};
      }
    }

    lemma NeedsShow()
      requires Holding().Some?
      ensures SomeNeeds(Holding().value) <==> exists id :: id in terminals && terminals[id].needsSnapshot
    {
      HeldAre();
      forall id | id in terminals
        ensures Holding().value[id].stream.needsSnapshot == terminals[id].needsSnapshot
      {
        assert ViewOf(terminals[id]) == Some(Holding().value[id]);
      }
    }

    lemma PacingIsInTheBooks()
      requires Pasting()
      ensures Pacing() == books.pacing
    {
    }

    /** One thing that happens. */
    method Do(input: Input)
      requires Valid()
      modifies this, terminals.Values
      ensures Valid() && (forall id :: id in terminals ==> terminals[id] in old(terminals.Values) || fresh(terminals[id]))
      ensures old(record) <= record && books == P.RunFrom(old(books), PastingIn(input))
      ensures chunksSent == old(chunksSent) + P.SentBy(old(books), PastingIn(input))
      ensures Holding() == Some(AfterInput(old(Holding()).value, old(historyLimit), old(Store()), input))
      ensures Store() == if input.Hear? then AfterPictures(old(Store()), input.message) else old(Store())
      ensures historyLimit == if input.KeepHistory? then input.lines else old(historyLimit)
      ensures !Attaches(input) ==> record == old(record) + Said(old(Telling()), old(Holding()).value, input)
      ensures Attaches(input) ==> var message := input.message;
        Reconciled(old(record), record, message.session, message.states, old(announced), old(terminals).Keys)
    {
      hide Holding, Recorded, Pasting, Pictured, Store, AfterMessage, AfterPictures, Reconciled, P.RunFrom, PastingIn;
      hide Saying, SomeNeeds, P.SentBy;
      match input {
        case Type(_, _) => DoType(input);
        case Hear(message) => HearOne(message);
        case ForgetWindows => DoLeave(input);
        case LoseConnection => DoLeave(input);
        case _ => DoAside(input);
      }
    }

    method DoType(input: Input)
      requires Pasting() && input.Type?
      modifies this`pasteQueue, this`pasteInFlight, this`nextPasteSeq, this`chunksSent, this`books
      ensures Pasting() && books == P.RunFrom(old(books), PastingIn(input))
      ensures chunksSent == old(chunksSent) + P.SentBy(old(books), PastingIn(input))
      ensures record == old(record) + []
    {
      PacingIsInTheBooks();
      PasteRuns(books, input);
      NothingSaid(record);
      hide Pasting, P.RunFrom, P.SentBy, P.Sending, P.Step;
      Paste(input.term, input.bytes);
    }

    /** The windows or the connection gone. */
    method DoLeave(input: Input)
      requires Recorded().Some? && Pasting() && Holding().Some? && (input.ForgetWindows? || input.LoseConnection?)
      modifies this`attached, this`session, this`snapshotRequested, this`terminals, this`announced, this`layoutSent
      modifies this`record, this`pasteQueue, this`pasteInFlight, this`books
      ensures Recorded().Some? && Pasting() && books == P.RunFrom(old(books), PastingIn(input))
      ensures forall id :: id in terminals ==> terminals[id] in old(terminals.Values)
      ensures chunksSent == old(chunksSent) + P.SentBy(old(books), PastingIn(input))
      ensures Holding() == (if input.LoseConnection? then Some(map[]) else old(Holding()))
      ensures record == old(record) + (if input.LoseConnection? then [Lost] else [Forgotten])
    {
      PasteRuns(books, input);
      NothingSent(chunksSent);
      hide Holding, Recorded, Pasting, P.RunFrom, P.SentBy, P.Sending, P.Step;
      if input.LoseConnection? {
        ConnectionLost();
        assert terminals.Keys == Telling().held;
      } else {
        WindowsForgotten();
      }
    }

    /** One of the things that no paste and no mirror is touched by. */
    method DoAside(input: Input)
      requires Holding().Some? && Recorded().Some? && (input.AskFor? || input.Report? || input.Heal? || input.KeepHistory?)
      modifies this`session, this`snapshotRequested, this`layoutSent, this`record, this`resnapshots, this`historyLimit
      ensures Recorded().Some? && Holding() == old(Holding())
      ensures historyLimit == if input.KeepHistory? then input.lines else old(historyLimit)
      ensures record == old(record) + Said(old(Telling()), old(Holding()).value, input)
      ensures books == P.RunFrom(books, PastingIn(input)) && chunksSent == chunksSent + P.SentBy(books, PastingIn(input))
    {
      P.NoRun(books);
      PasteRuns(books, input);
      NothingSent(chunksSent);
      hide Holding, Recorded, SomeNeeds, P.RunFrom, P.SentBy;
      NothingSaid(record);
      match input {
        case AskFor(wanted) => Attach(wanted, false);
        case Report(entries) => ReportLayout(entries);
        case Heal => HealIfNeeded();
        case KeepHistory(lines) => historyLimit := lines;
      }
    }

    method HearOne(message: Message)
      requires Valid()
      modifies this, terminals.Values
      ensures Valid() && (forall id :: id in terminals ==> terminals[id] in old(terminals.Values) || fresh(terminals[id]))
      ensures old(record) <= record && books == P.RunFrom(old(books), PastingIn(Hear(message)))
      ensures chunksSent == old(chunksSent) + P.SentBy(old(books), PastingIn(Hear(message)))
      ensures Holding() == Some(AfterMessage(old(Holding()).value, historyLimit, old(Store()), message))
      ensures Store() == AfterPictures(old(Store()), message) && historyLimit == old(historyLimit)
      ensures !message.Attached? ==> record == old(record) + Saying(old(Telling()), message)
      ensures message.Attached? ==>
        Reconciled(old(record), record, message.session, message.states, old(announced), old(terminals).Keys)
    {
      PacingIsInTheBooks();
      P.NoRun(books);
      PasteRuns(books, Hear(message));
      hide Valid, AfterMessage, Reconciled, AfterPictures, Saying, P.Step, P.RunFrom, P.SentBy, P.Sending;
      ghost var was, shown, held := record, announced, terminals.Keys;
      var _ := Handle(message);
      if message.Attached? { ReconciledGrows(was, record, message.session, message.states, shown, held); }
    }

    /** The same, of all that is held at once. */
    method DoKept(input: Input)
      requires Valid()
      modifies this, terminals.Values
      ensures Valid() && (forall id :: id in terminals ==> terminals[id] in old(terminals.Values) || fresh(terminals[id]))
      ensures old(record) <= record && books == P.RunFrom(old(books), PastingIn(input))
      ensures chunksSent == old(chunksSent) + P.SentBy(old(books), PastingIn(input))
      ensures Keeping() == Some(AfterOne(old(Keeping()).value, input))
      ensures Adding(old(record), old(Keeping()).value.views, input, record).Some?
    {
      RecordTells();
      hide Holding, Recorded, Pasting, Pictured, AfterInput, AfterPictures, Said, Reconciled, Tell, P.RunFrom, PastingIn;
      Do(input);
    }

    lemma RecordTells()
      requires Recorded().Some?
      ensures Tell(record) == Telling()
    {
    }

    /** Anything at all that can happen to a session, in any order; and the record as each left it. */
    method Live(inputs: seq<Input>) returns (ghost cuts: seq<seq<Event>>)
      requires Valid()
      modifies this, terminals.Values
      ensures Recounting(old(record), old(Keeping()).value, inputs, |inputs|, cuts) == Some(record)
      ensures Valid() && old(record) <= record && books == P.RunFrom(old(books), AllPasting(inputs))
      ensures chunksSent == old(chunksSent) + P.SentBy(old(books), AllPasting(inputs))
      ensures Keeping() == Some(AfterInputs(old(Keeping()).value, inputs))
    {
      hide *;
      ghost var start, kept := books, Keeping().value;
      NothingDone(start, kept, inputs);
      NothingSent(chunksSent);
      cuts := [record];
      NothingToRecount(record, kept, inputs);
      for i := 0 to |inputs|
        invariant Recounting(old(record), kept, inputs, i, cuts) == Some(record)
        invariant Valid() && old(record) <= record && Keeping() == Some(KeptTo(kept, inputs, i))
        invariant books == PastedTo(start, inputs, i).0 && chunksSent == old(chunksSent) + PastedTo(start, inputs, i).1
        invariant forall id :: id in terminals ==> terminals[id] in old(terminals.Values) || fresh(terminals[id])
      {
        OneMoreDone(start, kept, inputs, i);
        Follows(old(chunksSent), PastedTo(start, inputs, i).1, P.SentBy(books, PastingIn(inputs[i])));
        ghost var was := record;
        DoKept(inputs[i]);
        OneMoreRecounted(old(record), kept, inputs, i, cuts, was, record);
        cuts := cuts + [record];
      }
      AllDone(start, kept, inputs);
    }
  }

  /** A record and what one input may make of it, given what the mirrors held. */
  ghost function Adding(before: seq<Event>, views: Views, input: Input, now: seq<Event>): Option<seq<Event>> {
    if Adds(before, views, input, now) then Some(now) else None
  }

  /** What an input adds to a record: what is said on it, or on an attachment, its windows and where they belong. */
  ghost predicate Adds(before: seq<Event>, views: Views, input: Input, now: seq<Event>) {
    var told := Tell(before);
    if Attaches(input) then Reconciled(before, now, input.message.session, input.message.states, told.shown, told.held)
    else now == before + Said(told, views, input)
  }

  /** The record a run of inputs leaves, if the cuts are the record before it and as each of the inputs left it. */
  ghost function Recounting(record: seq<Event>, kept: Kept, inputs: seq<Input>, n: nat, cuts: seq<seq<Event>>): Option<seq<Event>>
    requires n <= |inputs|
  {
    if && |cuts| == n + 1 && cuts[0] == record
       && forall i :: 0 <= i < n ==> Adds(cuts[i], KeptTo(kept, inputs, i).views, inputs[i], cuts[i + 1])
    then Some(cuts[n]) else None
  }

  lemma NothingToRecount(record: seq<Event>, kept: Kept, inputs: seq<Input>)
    ensures Recounting(record, kept, inputs, 0, [record]) == Some(record)
  {
  }

  lemma OneMoreRecounted(record: seq<Event>, kept: Kept, inputs: seq<Input>, i: nat, cuts: seq<seq<Event>>,
                         was: seq<Event>, now: seq<Event>)
    requires i < |inputs| && Recounting(record, kept, inputs, i, cuts) == Some(was)
    requires Adding(was, KeptTo(kept, inputs, i).views, inputs[i], now).Some?
    ensures Recounting(record, kept, inputs, i + 1, cuts + [now]) == Some(now)
  {
    hide Adds, KeptTo;
    var more := cuts + [now];
    forall k | 0 <= k < i + 1 ensures Adds(more[k], KeptTo(kept, inputs, k).views, inputs[k], more[k + 1]) {
      assert more[k] == cuts[k] && (k < i ==> more[k + 1] == cuts[k + 1]);
    }
  }

  lemma NothingSent(chunks: seq<P.PasteChunk>)
    ensures chunks + [] == chunks
  {
  }

  lemma Follows(first: seq<P.PasteChunk>, second: seq<P.PasteChunk>, third: seq<P.PasteChunk>)
    ensures first + (second + third) == first + second + third
  {
  }

  /** What the first so many inputs make of pasting: the books, and the chunks sent. */
  ghost function PastedTo(books: P.Books, inputs: seq<Input>, i: nat): (P.Books, seq<P.PasteChunk>)
    requires i <= |inputs|
  {
    var events := AllPasting(inputs[..i]);
    (P.RunFrom(books, events), P.SentBy(books, events))
  }

  ghost function KeptTo(kept: Kept, inputs: seq<Input>, i: nat): Kept
    requires i <= |inputs|
  {
    AfterInputs(kept, inputs[..i])
  }

  lemma NothingDone(books: P.Books, kept: Kept, inputs: seq<Input>)
    ensures PastedTo(books, inputs, 0) == (books, []) && KeptTo(kept, inputs, 0) == kept
  {
    NoPasting(inputs[..0]);
    NoInputs(kept, inputs[..0]);
    P.NoRun(books);
    P.SentNothing(books);
    hide P.RunFrom, P.SentBy, AfterInputs, AllPasting;
  }

  lemma OneMoreDone(books: P.Books, kept: Kept, inputs: seq<Input>, i: nat)
    requires i < |inputs|
    ensures var before, event := PastedTo(books, inputs, i), PastingIn(inputs[i]);
      PastedTo(books, inputs, i + 1) == (P.RunFrom(before.0, event), before.1 + P.SentBy(before.0, event))
    ensures KeptTo(kept, inputs, i + 1) == AfterOne(KeptTo(kept, inputs, i), inputs[i])
  {
    hide P.RunFrom, P.SentBy, AfterInputs, AfterOne, AllPasting, PastingIn;
    P.RunOn(books, AllPasting(inputs[..i]), PastingIn(inputs[i]));
    P.SentOn(books, AllPasting(inputs[..i]), PastingIn(inputs[i]));
    PastingMore(inputs, i);
    InputsMore(kept, inputs, i);
  }

  lemma AllDone(books: P.Books, kept: Kept, inputs: seq<Input>)
    ensures PastedTo(books, inputs, |inputs|) == (P.RunFrom(books, AllPasting(inputs)), P.SentBy(books, AllPasting(inputs)))
    ensures KeptTo(kept, inputs, |inputs|) == AfterInputs(kept, inputs)
  {
    hide P.RunFrom, P.SentBy, AfterInputs, AllPasting;
    assert inputs[..|inputs|] == inputs;
  }

  /** Whatever happens to a session, from its first moment, every rule of the record and of pasting is kept. */
  method EverySession(inputs: seq<Input>) returns (it: ServerSession, ghost cuts: seq<seq<Event>>)
    ensures fresh(it) && it.Valid()
    ensures Recounting([], NOTHING, inputs, |inputs|, cuts) == Some(it.record)
    ensures Lawful(it.record) && Tell(it.record) == it.Telling()
    ensures P.Paced(P.Run(AllPasting(inputs))) && it.Pacing() == P.Run(AllPasting(inputs)).pacing
    ensures it.chunksSent == P.SentBy(P.OPENED, AllPasting(inputs))
    ensures P.EndsWith(it.chunksSent, P.Run(AllPasting(inputs)).sent)
    ensures it.Keeping() == Some(AfterInputs(NOTHING, inputs))
  {
    hide AfterInputs, ServerSession.Keeping, ServerSession.Holding, Recounting;
    it := new ServerSession();
    cuts := it.Live(inputs);
    P.SentIsTheEnd(AllPasting(inputs));
  }

  lemma NamesAreTerms(states: seq<TerminalState>)
    ensures forall i :: 0 <= i < |TermNames(states)| ==> TermNames(states)[i] in TermsOf(states)
  {
  }

  lemma ReconciledGrows(before: seq<Event>, now: seq<Event>, granted: nat, states: seq<TerminalState>,
                        announced: set<TermId>, held: set<TermId>)
    requires Reconciled(before, now, granted, states, announced, held)
    ensures before <= now
  {
    var said := now[..|now| - 1];
    GrownBy(before + [Granted(granted)], said, TermsOf(states) - announced, held - TermsOf(states));
    assert now[..|before|] == said[..|before|] == before;
  }

  lemma GrownBy(before: seq<Event>, now: seq<Event>, shown: set<TermId>, gone: set<TermId>)
    requires Windows(before, now, shown, gone)
    ensures before <= now
  {
  }

  /** What an attachment says: that it was granted; windows announced and closed, each once; then where they belong. */
  predicate Reconciled(before: seq<Event>, now: seq<Event>, granted: nat, states: seq<TerminalState>,
                       announced: set<TermId>, held: set<TermId>)
  {
    && |now| >= |before| + 2 && now[|now| - 1] == LayoutStated(TermNames(states), true)
    && Windows(before + [Granted(granted)], now[..|now| - 1], TermsOf(states) - announced, held - TermsOf(states))
  }

  lemma OnlyIsWithout(views: Views, terms: set<TermId>)
    ensures views - (views.Keys - terms) == Only(views, terms)
  {
  }

  lemma SettleSets(keys: set<TermId>, was: set<TermId>, terms: set<TermId>)
    requires was <= keys
    ensures keys - (keys - terms) == keys * terms
    ensures keys * terms - (was - (keys - terms)) == keys * terms - was == {} + (keys * terms - was)
    ensures keys - terms + {} == keys - terms
  {
  }

  /** What is announced once the snapshot's new terminals have been: those whose mirrors were held, but not shown. */
  function ShownLater(keys: set<TermId>, was: set<TermId>, terms: set<TermId>): set<TermId> {
    (keys + terms) * terms - (was + (terms - keys))
  }

  lemma ReconcileSets(keys: set<TermId>, was: set<TermId>, terms: set<TermId>)
    requires was <= keys
    ensures (keys + terms) * terms == terms && keys + terms - terms == keys - terms == {} + (keys - terms)
    ensures terms - keys + ShownLater(keys, was, terms) == terms - was
  {
  }

  lemma NoneLeft(keys: set<TermId>, was: set<TermId>)
    requires was <= keys
    ensures keys - (keys - was) == was && keys - was - (keys - was) == {}
    ensures keys - {} == keys && keys - was - {} == keys - was
  {
  }

  lemma OneFewer(keys: set<TermId>, was: set<TermId>, left: set<TermId>, id: TermId)
    requires left <= keys - was && id in left
    ensures keys - left + {id} == keys - (left - {id}) && keys - was - left + {id} == keys - was - (left - {id})
    ensures |left - {id}| < |left|
  {
  }

  lemma OneMoreGone<V, W>(m: map<TermId, V>, n: map<TermId, W>, announced: set<TermId>, doomed: set<TermId>, left: set<TermId>, id: TermId)
    requires left <= doomed && id in left
    ensures doomed - left + {id} == doomed - (left - {id}) && |left - {id}| < |left|
    ensures (m - (doomed - left)) - {id} == m - (doomed - (left - {id}))
    ensures (n - (doomed - left)) - {id} == n - (doomed - (left - {id}))
    ensures (announced - (doomed - left)) - {id} == announced - (doomed - (left - {id}))
  {
  }

  lemma NoneYet(keys: set<TermId>, was: set<TermId>)
    ensures keys + {} == keys && {} - keys == {} && was + {} == was
  {
  }

  lemma NothingSaid(record: seq<Event>)
    ensures record + [] == record
  {
  }

  lemma OneMoreTerm(keys: set<TermId>, was: set<TermId>, terms: set<TermId>, id: TermId)
    ensures keys + terms + {id} == keys + (terms + {id})
    ensures id in keys + terms ==> terms + {id} - keys == terms - keys
    ensures id !in keys + terms ==>
      terms - keys + {id} == terms + {id} - keys && was + (terms - keys) + {id} == was + (terms + {id} - keys)
  {
  }

  /** A message applied to the mirror it names. */
  method TellMirror(mirror: TerminalMirror, store: I.Store, message: Message)
    requires ViewOf(mirror).Some?
    modifies mirror
    ensures ViewOf(mirror) == Some(AfterForOne(old(ViewOf(mirror)).value, store, message))
  {
    hide ViewOf, DeltaOn, OpenOn, ClosedOn, TitleOn, PlaceOn, AfterChunk;
    if message.ImagePlace? {
      TellPlacement(mirror, store, message);
    } else if message.ImageRemove? {
      TellRemoval(mirror, message.id);
    } else {
      TellStream(mirror, message);
    }
  }

  /** What a message that leaves the pictures alone leaves of a mirror. */
  lemma SoundMirror(mirror: TerminalMirror)
    requires mirror.Valid()
    ensures Coherent(mirror.state) && |mirror.rasters| == |mirror.rasterIds|
  {
  }

  method TellStream(mirror: TerminalMirror, message: Message)
    requires ViewOf(mirror).Some? && !message.ImagePlace? && !message.ImageRemove?
    modifies mirror
    ensures ViewOf(mirror) == Some(AfterForOne(old(ViewOf(mirror)).value, I.EMPTY, message))
  {
    hide ViewOf, DeltaOn, OpenOn, ClosedOn, TitleOn, AfterChunk;
    match message {
      case GridDelta(_, number, ops) => TellDelta(mirror, number, ops);
      case TermOpened(_, columns, rows) => TellOpened(mirror, columns, rows);
      case TermClosed(_, ended, held, status) => TellClosed(mirror, ended, held, status);
      case TermMeta(_, title) => TellTitle(mirror, title);
      case PrintJobData(_, chunk) => TellPrint(mirror, chunk);
      case _ =>
    }
  }

  method TellDelta(mirror: TerminalMirror, number: Number, ops: seq<GridOp>)
    requires ViewOf(mirror).Some?
    modifies mirror
    ensures ViewOf(mirror) == Some(DeltaOn(old(ViewOf(mirror)).value, number, ops))
  {
    SoundMirror(mirror);
    hide TerminalMirror.Valid, Coherent, AfterDelta, PicturesOf;
    var _ := mirror.ApplyDelta(number, ops);
  }

  method TellOpened(mirror: TerminalMirror, columns: Short, rows: Short)
    requires ViewOf(mirror).Some?
    modifies mirror
    ensures ViewOf(mirror) == Some(OpenOn(old(ViewOf(mirror)).value, columns, rows))
  {
    SoundMirror(mirror);
    hide TerminalMirror.Valid, AfterOpen, PicturesOf;
    mirror.Open(columns, rows);
  }

  method TellClosed(mirror: TerminalMirror, ended: bool, held: bool, status: int)
    requires ViewOf(mirror).Some?
    modifies mirror
    ensures ViewOf(mirror) == Some(ClosedOn(old(ViewOf(mirror)).value, ended, held, status))
  {
    SoundMirror(mirror);
    hide TerminalMirror.Valid, PicturesOf;
    mirror.ApplyClosed(ended, held, status);
  }

  method TellTitle(mirror: TerminalMirror, title: string)
    requires ViewOf(mirror).Some?
    modifies mirror
    ensures ViewOf(mirror) == Some(TitleOn(old(ViewOf(mirror)).value, title))
  {
    SoundMirror(mirror);
    hide TerminalMirror.Valid, PicturesOf;
    mirror.ApplyTitle(title);
  }

  method TellPrint(mirror: TerminalMirror, chunk: PrintChunk)
    requires ViewOf(mirror).Some?
    modifies mirror
    ensures var was := old(ViewOf(mirror)).value; ViewOf(mirror) == Some(was.(jobs := AfterChunk(was.jobs, chunk)))
  {
    SoundMirror(mirror);
    hide TerminalMirror.Valid, AfterChunk, PicturesOf;
    var _ := mirror.ApplyPrintData(chunk);
  }

  method TellPlacement(mirror: TerminalMirror, store: I.Store, message: Message)
    requires ViewOf(mirror).Some? && message.ImagePlace?
    modifies mirror
    ensures ViewOf(mirror) == Some(PlaceOn(old(ViewOf(mirror)).value, store, message.id, message.cells))
  {
    hide TerminalMirror.Valid, Placed, PicturesOf;
    var id, cells := message.id, message.cells;
    var image := if id in store.completed then Some(store.completed[id]) else None;
    mirror.PlaceImage(id, image, cells.x, cells.y, cells.width, cells.height);
  }

  method TellRemoval(mirror: TerminalMirror, id: nat)
    requires ViewOf(mirror).Some?
    modifies mirror
    ensures var was := old(ViewOf(mirror)).value; ViewOf(mirror) == Some(was.(pictures := was.pictures - {id}))
  {
    hide TerminalMirror.Valid, PicturesOf;
    mirror.RemoveImage(id);
  }

  method AdoptInto(mirror: TerminalMirror, snapshot: TerminalState)
    requires ViewOf(mirror).Some?
    modifies mirror
    ensures ViewOf(mirror) == Some(AdoptView(old(ViewOf(mirror)).value, snapshot))
  {
    hide TerminalMirror.Valid, AfterSnapshot, Named, ScreenOf, D.Everything;
    var _ := mirror.Adopt(snapshot);
  }
}
