/**
 What becomes of the parts of a session's mirrors over a run, and what a session says on each thing that happens
 (src/client/server_session.cpp, src/client/mirror.cpp): endings, titles, print jobs, pictures and pastes, from what
 is heard and done to where it ends up.
 */
module SessionParts {
  import opened Wrappers
  import opened Grid
  import opened GridDelta
  import opened Wire
  import opened Mirror
  import opened SessionTrace
  import opened Session
  import S = SessionRun
  import P = Paste
  import I = Pictures

  // ------------------------------------------------------------- endings

  /** Something heard of a terminal that leaves its mirror there, and says nothing of how its program ended. */
  predicate SilentOnEnding(input: Input, term: TermId) {
    match input
    case LoseConnection => false
    case Hear(Attached(_, states)) =>
      && term in TermsOf(states)
      && forall i :: 0 <= i < |states| && states[i].term == term ==> !states[i].exited || TooLarge(states[i])
    case Hear(TermOpened(id, _, _)) => id != term
    case Hear(TermClosed(id, _, _, _)) => id != term
    case _ => true
  }

  lemma {:induction false} AdoptingIsSilent(views: Views, limit: nat, states: seq<TerminalState>, term: TermId)
    requires forall i :: 0 <= i < |states| && states[i].term == term ==> !states[i].exited || TooLarge(states[i])
    ensures term in AdoptAll(views, limit, states) ==>
      AdoptAll(views, limit, states)[term].ending == if term in views then views[term].ending else Ending(false, false, None)
  {
    hide Adopted, BlankGrid, Named;
    if states != [] {
      AdoptAllTerms(views, limit, states[..|states| - 1]);
      AdoptingIsSilent(views, limit, states[..|states| - 1], term);
    }
  }

  lemma SilenceKeepsEnding(kept: Kept, input: Input, term: TermId)
    requires term in kept.views && SilentOnEnding(input, term)
    ensures var now := AfterOne(kept, input).views; term in now && now[term].ending == kept.views[term].ending
  {
    hide AdoptAll, AfterPictures, TermsOf, TooLarge, Placed, AfterChunk, AfterDelta, AfterOpen, NewView;
    if input.Hear? && input.message.Attached? {
      AdoptAllTerms(kept.views, kept.limit, input.message.states);
      AdoptingIsSilent(kept.views, kept.limit, input.message.states, term);
    }
  }

  /** How a terminal's program ended is remembered as it was said last, whatever else happens. */
  lemma {:induction false} EndingStands(kept: Kept, inputs: seq<Input>, term: TermId)
    requires term in kept.views && forall i :: 0 <= i < |inputs| ==> SilentOnEnding(inputs[i], term)
    ensures var now := AfterInputs(kept, inputs).views; term in now && now[term].ending == kept.views[term].ending
  {
    hide AfterOne, SilentOnEnding;
    if inputs != [] {
      EndingStands(kept, inputs[..|inputs| - 1], term);
      SilenceKeepsEnding(AfterInputs(kept, inputs[..|inputs| - 1]), inputs[|inputs| - 1], term);
    }
  }

  /** A terminal closed: remembered with how it ended if its window is held open, and gone from the session otherwise. */
  lemma CloseIsRemembered(kept: Kept, term: TermId, ended: bool, held: bool, status: int)
    ensures var now := AfterOne(kept, Hear(TermClosed(term, ended, held, status))).views;
      && (term in now <==> term in kept.views && held)
      && (term in now ==> now[term].ending == Ending(ended, true, if ended then Some(status) else None))
      && (term in now ==> now[term] == kept.views[term].(ending := now[term].ending))
  {
  }

  /** A terminal opened: running, whatever ran behind its number before. */
  lemma OpeningIsRunning(kept: Kept, term: TermId, columns: Short, rows: Short)
    ensures var now := AfterOne(kept, Hear(TermOpened(term, columns, rows))).views;
      && term in now && now[term].ending == Ending(false, false, None)
      && (term in kept.views ==> now[term].pictures == kept.views[term].pictures && now[term].jobs == kept.views[term].jobs)
      && (term !in kept.views ==> now[term].pictures == map[] && now[term].jobs == Fetch(map[], map[]))
  {
    hide AfterOpen, BlankGrid;
  }

  /** A snapshot tells of an ending, and of a program that it says is running nothing. */
  lemma SnapshotTellsOfEnding(kept: Kept, session: nat, states: seq<TerminalState>, term: TermId)
    requires term in TermsOf(states) && !TooLarge(LastOf(states, term)) && LastOf(states, term).exited
    ensures var now, last := AfterOne(kept, Hear(Attached(session, states))).views, LastOf(states, term);
      term in now && now[term].ending == Ending(true, last.hold, Some(last.exitStatus))
  {
    hide TermsOf;
    AdoptAllTerms(kept.views, kept.limit, states);
    LastTells(kept.views, kept.limit, states, term);
  }

  /** All that the last statement of a terminal says of its mirror but for its stream. */
  lemma {:induction false} LastTells(views: Views, limit: nat, states: seq<TerminalState>, term: TermId)
    requires term in TermsOf(states) && !TooLarge(LastOf(states, term))
    ensures term in AdoptAll(views, limit, states)
    ensures var view, last := AdoptAll(views, limit, states)[term], LastOf(states, term);
      && (last.exited ==> view.ending == Ending(true, last.hold, Some(last.exitStatus)))
      && view.jobs == Fetch(map[], map[])
      && (forall id :: id in view.pictures ==> id in last.images && term in views && id in views[term].pictures)
      && (forall id :: id in view.pictures ==> view.pictures[id] == views[term].pictures[id])
  {
    hide Adopted, NewView;
    var n := |states| - 1;
    TermsOfMore(states);
    AdoptAllTerms(views, limit, states);
    AdoptAllTerms(views, limit, states[..n]);
    PicturesOnlyGo(views, limit, states[..n], term);
    NewHasNone(limit);
    if states[n].term != term { LastTells(views, limit, states[..n], term); }
  }

  lemma NewHasNone(limit: nat)
    ensures NewView(limit).pictures == map[] && NewView(limit).ending == Ending(false, false, None)
  {
  }

  /** A snapshot brings no picture by itself. */
  lemma {:induction false} PicturesOnlyGo(views: Views, limit: nat, states: seq<TerminalState>, term: TermId)
    ensures var now := AdoptAll(views, limit, states);
      term in now ==> forall id :: id in now[term].pictures ==>
        term in views && id in views[term].pictures && now[term].pictures[id] == views[term].pictures[id]
  {
    hide Adopted, NewView;
    NewHasNone(limit);
    if states != [] {
      AdoptAllTerms(views, limit, states[..|states| - 1]);
      PicturesOnlyGo(views, limit, states[..|states| - 1], term);
    }
  }

  // ------------------------------------------------------------- titles

  /** A title stated of a terminal is its title, and nothing else of its mirror changes. */
  lemma TitleIsStated(kept: Kept, term: TermId, title: string)
    requires term in kept.views
    ensures var now := AfterOne(kept, Hear(TermMeta(term, title))).views;
      && term in now && now[term].stream.state.title == title
      && Retitled(now[term].stream.state, kept.views[term].stream.state)
      && now[term] == kept.views[term].(stream := kept.views[term].stream.(state := now[term].stream.state))
  {
  }

  /** What is not news of a terminal and states no title of it leaves its stream as it was, title and all. */
  lemma StreamRests(kept: Kept, input: Input, term: TermId)
    requires term in kept.views && S.KeepsTerm(input, term) && S.NewsIn(input, term) == [] && !S.Retitles(input, term)
    ensures var now := AfterOne(kept, input).views; term in now && now[term].stream == kept.views[term].stream
  {
    hide AdoptAll, AfterPictures, TermsOf, TooLarge, Placed, AfterChunk, AfterDelta, AfterOpen, NewView, LastOf;
  }

  /** So it stands until more is heard of the terminal. */
  lemma {:induction false} StreamStands(kept: Kept, inputs: seq<Input>, term: TermId)
    requires term in kept.views
    requires forall i :: 0 <= i < |inputs| ==>
      S.KeepsTerm(inputs[i], term) && S.NewsIn(inputs[i], term) == [] && !S.Retitles(inputs[i], term)
    ensures var now := AfterInputs(kept, inputs).views; term in now && now[term].stream == kept.views[term].stream
  {
    hide AfterOne, S.KeepsTerm, S.NewsIn, S.Retitles;
    if inputs != [] {
      StreamStands(kept, inputs[..|inputs| - 1], term);
      StreamRests(AfterInputs(kept, inputs[..|inputs| - 1]), inputs[|inputs| - 1], term);
    }
  }

  // ------------------------------------------------------------- print jobs

  /** The chunks of print jobs that are heard for a terminal. */
  function PrintedIn(input: Input, term: TermId): seq<PrintChunk> {
    match input
    case Hear(PrintJobData(id, chunk)) => if id == term then [chunk] else []
    case _ => []
  }

  function PrintedOf(inputs: seq<Input>, term: TermId): seq<PrintChunk> {
    if inputs == [] then [] else PrintedOf(inputs[..|inputs| - 1], term) + PrintedIn(inputs[|inputs| - 1], term)
  }

  /** Something that leaves a terminal its mirror, and is no snapshot. */
  predicate Leaves(input: Input, term: TermId) {
    match input
    case LoseConnection => false
    case Hear(Attached(_, _)) => false
    case Hear(TermClosed(id, _, held, _)) => id != term || held
    case _ => true
  }

  lemma ChunksJoin(fetch: Fetch, first: seq<PrintChunk>, chunk: PrintChunk)
    ensures AfterChunks(fetch, first + []) == AfterChunks(fetch, first)
    ensures AfterChunks(fetch, first + [chunk]) == AfterChunk(AfterChunks(fetch, first), chunk)
  {
    hide AfterChunk;
    assert first + [] == first && (first + [chunk])[..|first|] == first;
  }

  lemma OneInputPrints(kept: Kept, input: Input, term: TermId)
    requires term in kept.views && Leaves(input, term)
    ensures var now := AfterOne(kept, input).views;
      term in now && now[term].jobs ==
        if PrintedIn(input, term) == [] then kept.views[term].jobs else AfterChunk(kept.views[term].jobs, PrintedIn(input, term)[0])
    ensures |PrintedIn(input, term)| <= 1
  {
    hide AdoptAll, AfterPictures, Placed, AfterChunk, AfterDelta, AfterOpen, NewView;
  }

  /** Until the next snapshot a mirror's print jobs are what the chunks heard for its terminal make of them. */
  lemma {:induction false} JobsFollow(kept: Kept, inputs: seq<Input>, term: TermId)
    requires term in kept.views && forall i :: 0 <= i < |inputs| ==> Leaves(inputs[i], term)
    ensures var now := AfterInputs(kept, inputs).views;
      term in now && now[term].jobs == AfterChunks(kept.views[term].jobs, PrintedOf(inputs, term))
  {
    hide AfterOne, Leaves, PrintedIn, AfterChunk;
    if inputs != [] {
      var front, last := inputs[..|inputs| - 1], inputs[|inputs| - 1];
      JobsFollow(kept, front, term);
      OneInputPrints(AfterInputs(kept, front), last, term);
      if PrintedIn(last, term) == [] {
        ChunksJoin(kept.views[term].jobs, PrintedOf(front, term), PrintChunk(0, "", false));
      } else {
        assert PrintedIn(last, term) == [PrintedIn(last, term)[0]];
        ChunksJoin(kept.views[term].jobs, PrintedOf(front, term), PrintedIn(last, term)[0]);
      }
    }
  }

  /** A job in parts, the last of them marked. */
  function Parts(job: nat, parts: seq<string>): seq<PrintChunk> {
    seq(|parts|, i requires 0 <= i < |parts| => PrintChunk(job, parts[i], i == |parts| - 1))
  }

  /** Parts of a job, with more of it to come. */
  function Begun(job: nat, parts: seq<string>): seq<PrintChunk> {
    seq(|parts|, i requires 0 <= i < |parts| => PrintChunk(job, parts[i], false))
  }

  lemma {:induction false} BegunIsFetching(fetch: Fetch, job: nat, parts: seq<string>)
    requires job !in fetch.fetching
    ensures var after := AfterChunks(fetch, Begun(job, parts));
      && (if parts == [] then job !in after.fetching else job in after.fetching && after.fetching[job] == I.Joined(parts))
      && after.fetched == fetch.fetched
  {
    if parts != [] {
      var n := |parts| - 1;
      BegunIsFetching(fetch, job, parts[..n]);
      assert Begun(job, parts)[..n] == Begun(job, parts[..n]);
      assert Begun(job, parts)[n] == PrintChunk(job, parts[n], false);
      assert n == 0 ==> I.Joined(parts[..n]) == "";
    }
  }

  lemma PartsAreTheJob(fetch: Fetch, job: nat, parts: seq<string>)
    requires job !in fetch.fetching && parts != []
    ensures var after := AfterChunks(fetch, Parts(job, parts));
      job !in after.fetching && job in after.fetched && after.fetched[job] == I.Joined(parts)
  {
    var n := |parts| - 1;
    BegunIsFetching(fetch, job, parts[..n]);
    assert Parts(job, parts)[..n] == Begun(job, parts[..n]);
    assert Parts(job, parts)[n] == PrintChunk(job, parts[n], true);
    assert n == 0 ==> I.Joined(parts[..n]) == "";
  }

  /**
   A print job arrives: of all that is heard, its own chunks are the parts of it in order, the last marked; then the mirror
   has fetched the parts joined, whatever other jobs they are mixed with.
   */
  lemma JobArrives(kept: Kept, inputs: seq<Input>, term: TermId, job: nat, parts: seq<string>)
    requires term in kept.views && forall i :: 0 <= i < |inputs| ==> Leaves(inputs[i], term)
    requires parts != [] && ChunksOf(PrintedOf(inputs, term), job) == Parts(job, parts)
    requires job !in kept.views[term].jobs.fetching
    ensures var now := AfterInputs(kept, inputs).views;
      && term in now && job !in now[term].jobs.fetching
      && job in now[term].jobs.fetched && now[term].jobs.fetched[job] == I.Joined(parts)
  {
    JobsFollow(kept, inputs, term);
    JobsDoNotInterfere(kept.views[term].jobs, PrintedOf(inputs, term), job);
    PartsAreTheJob(kept.views[term].jobs, job, parts);
    hide AfterChunks, ChunksOf, PrintedOf, Parts, AfterInputs;
  }

  /** A snapshot begins the print jobs anew. */
  lemma SnapshotForgetsJobs(kept: Kept, session: nat, states: seq<TerminalState>, term: TermId)
    requires term in TermsOf(states) && !TooLarge(LastOf(states, term))
    ensures var now := AfterOne(kept, Hear(Attached(session, states))).views;
      term in now && now[term].jobs == Fetch(map[], map[])
  {
    hide TermsOf;
    AdoptAllTerms(kept.views, kept.limit, states);
    LastTells(kept.views, kept.limit, states, term);
  }

  // ------------------------------------------------------------- pictures

  /** What a session hears about pictures, of whatever terminal. */
  function PicturingIn(input: Input): seq<I.PictureMessage> {
    match input
    case Hear(ImageAddBegin(id, width, height)) => [I.Begin(id, width, height)]
    case Hear(ImageChunk(id, number, bytes)) => [I.Chunk(id, number, bytes)]
    case Hear(ImageEnd(id)) => [I.End(id)]
    case Hear(ImagePlace(_, id, _)) => [I.Take(id)]
    case Hear(ImageRemove(_, id)) => [I.Drop(id)]
    case _ => []
  }

  function PicturingOf(inputs: seq<Input>): seq<I.PictureMessage> {
    if inputs == [] then [] else PicturingOf(inputs[..|inputs| - 1]) + PicturingIn(inputs[|inputs| - 1])
  }

  lemma OneInputPictures(kept: Kept, input: Input)
    ensures |PicturingIn(input)| <= 1
    ensures AfterOne(kept, input).store ==
      if PicturingIn(input) == [] then kept.store else I.AfterPicture(kept.store, PicturingIn(input)[0])
  {
    hide AfterInput, I.AfterPicture;
  }

  lemma PicturesJoin(store: I.Store, first: seq<I.PictureMessage>, second: seq<I.PictureMessage>)
    requires |second| <= 1
    ensures I.AfterAll(store, first + second)
      == if second == [] then I.AfterAll(store, first) else I.AfterPicture(I.AfterAll(store, first), second[0])
  {
    hide I.AfterPicture;
    if second == [] {
      assert first + second == first;
    } else {
      assert second == [second[0]];
      I.AfterAllStep(store, first, second[0]);
    }
  }

  /** The pictures on their way and arrived are those that all the messages about pictures leave. */
  lemma {:induction false} StoreFollows(kept: Kept, inputs: seq<Input>)
    ensures AfterInputs(kept, inputs).store == I.AfterAll(kept.store, PicturingOf(inputs))
  {
    hide AfterOne, I.AfterPicture, I.AfterAll, PicturingIn;
    if inputs == [] {
      I.NothingHeard(kept.store);
    } else {
      var front, last := inputs[..|inputs| - 1], inputs[|inputs| - 1];
      StoreFollows(kept, front);
      OneInputPictures(AfterInputs(kept, front), last);
      PicturesJoin(kept.store, PicturingOf(front), PicturingIn(last));
    }
  }

  /** A placement: pixels that have arrived are put there; without any, a picture already there moves; else nothing happens. */
  lemma PlacementIs(kept: Kept, term: TermId, id: nat, cells: Rect)
    requires term in kept.views
    ensures var was, now := kept.views[term].pictures, AfterOne(kept, Hear(ImagePlace(term, id, cells))).views;
      && term in now && now[term] == kept.views[term].(pictures := now[term].pictures)
      && (id in now[term].pictures <==> id in was || id in kept.store.completed)
      && (id in now[term].pictures ==>
            now[term].pictures[id] == Raster(if id in kept.store.completed then kept.store.completed[id] else was[id].image,
                                             cells.x, cells.y, cells.width, cells.height))
      && now[term].pictures - {id} == was - {id}
    ensures id !in AfterOne(kept, Hear(ImagePlace(term, id, cells))).store.completed
  {
  }

  /**
   A picture arrives: of all that is heard of its number, an upload of exactly its bytes in order, and then a placement in
   a terminal; there it is, where it was placed, whatever else was heard in between.
   */
  lemma PictureArrives(kept: Kept, inputs: seq<Input>, id: nat, width: nat, height: nat, parts: seq<string>,
                       term: TermId, cells: Rect)
    requires |I.Joined(parts)| == width * height * 4 > 0
    requires I.OwnMessages(PicturingOf(inputs), id) == I.Upload(id, width, height, parts)
    requires term in AfterInputs(kept, inputs).views
    ensures var now := AfterInputs(kept, inputs + [Hear(ImagePlace(term, id, cells))]).views;
      && term in now && id in now[term].pictures
      && now[term].pictures[id] ==
           Raster(Image(width, height, I.Joined(parts)), cells.x, cells.y, cells.width, cells.height)
  {
    StoreFollows(kept, inputs);
    I.PicturesDoNotInterfere(kept.store, PicturingOf(inputs), id);
    I.UploadCompletes(kept.store, id, width, height, parts);
    var mid, place := AfterInputs(kept, inputs), Hear(ImagePlace(term, id, cells));
    assert id in mid.store.completed && mid.store.completed[id] == Image(width, height, I.Joined(parts));
    hide I.AfterAll, AfterOne, I.OwnMessages, I.Upload, I.Joined;
    PlacementIs(mid, term, id, cells);
    S.InputsJoin(kept, inputs, [place]);
    S.OneInput(mid, place);
  }

  /** Something that says nothing of that picture in that terminal but, in a snapshot, that it is still there. */
  predicate KeepsPicture(input: Input, term: TermId, id: nat) {
    match input
    case LoseConnection => false
    case Hear(Attached(_, states)) =>
      && term in TermsOf(states)
      && forall i :: 0 <= i < |states| && states[i].term == term ==> id in states[i].images || TooLarge(states[i])
    case Hear(TermClosed(closed, _, held, _)) => closed != term || held
    case Hear(ImagePlace(placed, image, _)) => placed != term || image != id
    case Hear(ImageRemove(removed, image)) => removed != term || image != id
    case _ => true
  }

  lemma {:induction false} AdoptingKeepsPicture(views: Views, limit: nat, states: seq<TerminalState>, term: TermId, id: nat)
    requires term in views && id in views[term].pictures
    requires forall i :: 0 <= i < |states| && states[i].term == term ==> id in states[i].images || TooLarge(states[i])
    ensures var now := AdoptAll(views, limit, states);
      term in now && id in now[term].pictures && now[term].pictures[id] == views[term].pictures[id]
  {
    hide Adopted, NewView;
    if states != [] {
      AdoptAllTerms(views, limit, states[..|states| - 1]);
      AdoptingKeepsPicture(views, limit, states[..|states| - 1], term, id);
    }
  }

  lemma OneKeepsPicture(kept: Kept, input: Input, term: TermId, id: nat)
    requires term in kept.views && id in kept.views[term].pictures && KeepsPicture(input, term, id)
    ensures var now := AfterOne(kept, input).views;
      term in now && id in now[term].pictures && now[term].pictures[id] == kept.views[term].pictures[id]
  {
    hide AdoptAll, AfterPictures, TermsOf, TooLarge, AfterChunk, AfterDelta, AfterOpen, NewView;
    if input.Hear? && input.message.Attached? {
      AdoptAllTerms(kept.views, kept.limit, input.message.states);
      AdoptingKeepsPicture(kept.views, kept.limit, input.message.states, term, id);
    }
  }

  /** And there it stays until it is placed anew, removed, or a snapshot comes without it. */
  lemma {:induction false} PictureStays(kept: Kept, inputs: seq<Input>, term: TermId, id: nat)
    requires term in kept.views && id in kept.views[term].pictures
    requires forall i :: 0 <= i < |inputs| ==> KeepsPicture(inputs[i], term, id)
    ensures var now := AfterInputs(kept, inputs).views;
      term in now && id in now[term].pictures && now[term].pictures[id] == kept.views[term].pictures[id]
  {
    hide AfterOne, KeepsPicture;
    if inputs != [] {
      PictureStays(kept, inputs[..|inputs| - 1], term, id);
      OneKeepsPicture(AfterInputs(kept, inputs[..|inputs| - 1]), inputs[|inputs| - 1], term, id);
    }
  }

  /** A picture removed is gone from that terminal, and one on its way or arrived from the session; the others stay. */
  lemma RemovalIs(kept: Kept, term: TermId, id: nat)
    requires term in kept.views
    ensures var now := AfterOne(kept, Hear(ImageRemove(term, id)));
      && term in now.views && now.views[term] == kept.views[term].(pictures := kept.views[term].pictures - {id})
      && id !in now.store.pending && id !in now.store.completed
  {
  }

  /** A snapshot of a terminal leaves it no picture that it does not name. */
  lemma SnapshotDropsUnnamed(kept: Kept, session: nat, states: seq<TerminalState>, term: TermId, id: nat)
    requires term in TermsOf(states) && !TooLarge(LastOf(states, term)) && id !in LastOf(states, term).images
    ensures var now := AfterOne(kept, Hear(Attached(session, states))).views; term in now && id !in now[term].pictures
  {
    hide TermsOf;
    AdoptAllTerms(kept.views, kept.limit, states);
    LastTells(kept.views, kept.limit, states, term);
  }

  // ------------------------------------------------------------- pastes

  /** The bytes that chunks carry to one terminal, in order. */
  function BytesFor(chunks: seq<P.PasteChunk>, term: TermId): string {
    if chunks == [] then ""
    else BytesFor(chunks[..|chunks| - 1], term) + if chunks[|chunks| - 1].term == term then chunks[|chunks| - 1].bytes else ""
  }

  /** What is typed into one terminal, in order. */
  function TypedInto(inputs: seq<Input>, term: TermId): string {
    if inputs == [] then ""
    else
      TypedInto(inputs[..|inputs| - 1], term) + match inputs[|inputs| - 1]
        case Type(id, bytes) => if id == term then bytes else ""
        case _ => ""
  }

  predicate StaysPasting(inputs: seq<Input>) {
    forall i :: 0 <= i < |inputs| ==> !inputs[i].ForgetWindows? && !inputs[i].LoseConnection?
  }

  lemma OneMoreChunk(chunks: seq<P.PasteChunk>, chunk: P.PasteChunk, term: TermId)
    ensures BytesFor(chunks + [chunk], term) == BytesFor(chunks, term) + if chunk.term == term then chunk.bytes else ""
  {
    assert (chunks + [chunk])[..|chunks|] == chunks;
  }

  lemma {:induction false} BytesJoin(first: seq<P.PasteChunk>, second: seq<P.PasteChunk>, term: TermId)
    ensures BytesFor(first + second, term) == BytesFor(first, term) + BytesFor(second, term)
  {
    if second == [] {
      assert first + second == first;
    } else {
      var front, last := second[..|second| - 1], second[|second| - 1];
      BytesJoin(first, front, term);
      OneMoreChunk(first + front, last, term);
      OneMoreChunk(front, last, term);
      hide BytesFor;
      assert front + [last] == second && first + front + [last] == first + second;
    }
  }

  lemma {:induction false} BytesOfOne(chunks: seq<P.PasteChunk>, of: TermId, term: TermId)
    requires forall i :: 0 <= i < |chunks| ==> chunks[i].term == of
    ensures BytesFor(chunks, term) == if of == term then P.Text(chunks) else ""
  {
    if chunks == [] {
    } else {
      var first, rest := chunks[0], chunks[1..];
      assert P.Text(chunks) == first.bytes + P.Text(rest);
      BytesOfOne(rest, of, term);
      OneChunk(first, term);
      hide BytesFor, P.Text;
      BytesJoin([first], rest, term);
      assert [first] + rest == chunks;
    }
  }

  lemma OneChunk(chunk: P.PasteChunk, term: TermId)
    ensures BytesFor([chunk], term) == if chunk.term == term then chunk.bytes else ""
  {
    OneMoreChunk([], chunk, term);
    assert [] + [chunk] == [chunk];
  }

  lemma CutCarries(of: TermId, number: nat, bytes: string, term: TermId)
    ensures BytesFor(P.Cut(of, number, bytes), term) == if of == term then bytes else ""
  {
    P.CutIsWhole(of, number, bytes);
    BytesOfOne(P.Cut(of, number, bytes), of, term);
  }

  lemma OneMoreTyped(inputs: seq<Input>, term: TermId)
    requires inputs != []
    ensures var front, last := inputs[..|inputs| - 1], inputs[|inputs| - 1];
      && AllPasting(inputs) == AllPasting(front) + PastingIn(last) && |PastingIn(last)| <= 1
      && (last.Type? ==> PastingIn(last) == [P.Pasted(last.term, last.bytes)])
      && (PastingIn(last) != [] && !last.Type? ==> PastingIn(last)[0].Acked? || last.ForgetWindows? || last.LoseConnection?)
      && TypedInto(inputs, term) == TypedInto(front, term) + (if last.Type? && last.term == term then last.bytes else "")
  {
  }

  lemma OneMoreWanted(events: seq<P.PasteEvent>, more: seq<P.PasteEvent>, term: TermId)
    requires |more| <= 1 && (more != [] ==> !more[0].Abandoned?)
    ensures BytesFor(P.Wanted(events + more).0, term) ==
      BytesFor(P.Wanted(events).0, term) + if more != [] && more[0].Pasted? && more[0].term == term then more[0].bytes else ""
  {
    if more == [] {
      assert events + more == events;
    } else {
      assert (events + more)[..|events|] == events && (events + more)[|events|] == more[0];
      hide BytesFor, P.Cut, P.NumberIn;
      if more[0].Pasted? {
        var (chunks, next) := P.Wanted(events);
        CutCarries(more[0].term, next, more[0].bytes, term);
        BytesJoin(chunks, P.Cut(more[0].term, next, more[0].bytes), term);
      }
    }
  }

  lemma {:induction false} WantedIsTyped(inputs: seq<Input>, term: TermId)
    requires StaysPasting(inputs)
    ensures BytesFor(P.Wanted(AllPasting(inputs)).0, term) == TypedInto(inputs, term)
  {
    if inputs != [] {
      var front, last := inputs[..|inputs| - 1], inputs[|inputs| - 1];
      WantedIsTyped(front, term);
      OneMoreTyped(inputs, term);
      hide *;
      assert !last.ForgetWindows? && !last.LoseConnection?;
      OneMoreWanted(AllPasting(front), PastingIn(last), term);
    }
  }

  lemma {:induction false} NothingAbandoned(inputs: seq<Input>)
    requires StaysPasting(inputs)
    ensures forall i :: 0 <= i < |AllPasting(inputs)| ==> !AllPasting(inputs)[i].Abandoned?
  {
    if inputs != [] { NothingAbandoned(inputs[..|inputs| - 1]); }
  }

  /**
   Nothing typed is lost, doubled or moved: as long as neither windows nor connection go, what has been sent to a terminal
   and what still waits for it is what was typed into it.
   */
  lemma SentAndWaitingIsTyped(inputs: seq<Input>, term: TermId)
    requires StaysPasting(inputs)
    ensures var events := AllPasting(inputs);
      BytesFor(P.SentBy(P.OPENED, events), term) + BytesFor(P.Run(events).pacing.queue, term) == TypedInto(inputs, term)
  {
    var events := AllPasting(inputs);
    NothingAbandoned(inputs);
    WantedIsTyped(inputs, term);
    P.PastingIsPaced(events);
    P.SentIsAllSent(events);
    BytesJoin(P.SentBy(P.OPENED, events), P.Run(events).pacing.queue, term);
  }

  lemma {:induction false} AcksArePasting(inputs: seq<Input>, count: nat)
    ensures AllPasting(inputs + seq(count, _ => Hear(PasteAck))) == AllPasting(inputs) + P.Acks(count)
  {
    var all := inputs + seq(count, _ => Hear(PasteAck));
    if count == 0 {
      assert all == inputs && AllPasting(inputs) + P.Acks(0) == AllPasting(inputs);
    } else {
      AcksArePasting(inputs, count - 1);
      assert all[..|all| - 1] == inputs + seq(count - 1, _ => Hear(PasteAck));
      assert P.Acks(count) == P.Acks(count - 1) + [P.Acked];
    }
  }

  /** And with as many acknowledgements as there are chunks outstanding, all that was typed has been sent. */
  lemma EverythingTypedIsSent(inputs: seq<Input>, acks: nat, term: TermId)
    requires StaysPasting(inputs)
    requires var pacing := P.Run(AllPasting(inputs)).pacing; pacing.inFlight + |pacing.queue| <= acks
    ensures BytesFor(P.SentBy(P.OPENED, AllPasting(inputs + seq(acks, _ => Hear(PasteAck)))), term) == TypedInto(inputs, term)
  {
    var events := AllPasting(inputs);
    NothingAbandoned(inputs);
    WantedIsTyped(inputs, term);
    AcksArePasting(inputs, acks);
    P.EnoughAcksSendItAll(events, acks);
    P.SentIsAllSent(events + P.Acks(acks));
  }

  // ------------------------------------------------------------- what is said

  /** A session asked for is asked for. */
  lemma AskingIsSaid(before: seq<Event>, views: Views, session: nat, now: seq<Event>)
    requires Adding(before, views, AskFor(session), now).Some?
    ensures now == before + [Asked(session)] && Tell(now).session == session && !Tell(now).healing
  {
    hide Tell;
    SaidLast(before, Asked(session));
  }

  lemma SaidLast(before: seq<Event>, event: Event)
    ensures Tell(before + [event]) == After(Tell(before), event)
  {
    hide After;
    assert (before + [event])[..|before|] == before;
  }

  /**
   An arrangement to be reported: during an attachment the server goes by it afterwards, and it is sent exactly if the server
   did not already; with no attachment, or if it is empty, nothing is sent.
   */
  lemma ReportReachesTheServer(before: seq<Event>, views: Views, entries: seq<LayoutEntry>, now: seq<Event>)
    requires Adding(before, views, Report(entries), now).Some?
    ensures entries != [] && IsAttached(before) ==> Stands(now, entries)
    ensures now == before || now == before + [Reported(entries)]
    ensures entries == [] || !IsAttached(before) || Stands(before, entries) ==> now == before
  {
    AttachedExactly(before);
    hide Tell, IsAttached, Stands;
    SaidLast(before, Reported(entries));
    assert before + [] == before;
    if entries != [] {
      ReportedExactly(before, entries);
      ReportedExactly(now, entries);
    }
  }

  /** An arrangement stated of the session that is watched is passed on, terminal by terminal; of another, nothing is. */
  lemma LayoutIsPassedOn(before: seq<Event>, views: Views, session: nat, entries: seq<LayoutEntry>, terms: seq<TermId>, now: seq<Event>)
    requires Adding(before, views, Hear(LayoutDelta(session, entries)), now).Some?
    requires |terms| == |entries| && forall i :: 0 <= i < |entries| ==> terms[i] == entries[i].term
    ensures now == if session == Tell(before).session then before + [LayoutStated(terms, false)] else before
  {
    hide Tell;
    assert Names(entries) == terms;
    assert before + [] == before;
  }

  /** A terminal opened has a mirror, and a window that is announced unless it had a mirror already. */
  lemma OpeningIsShown(before: seq<Event>, views: Views, term: TermId, columns: Short, rows: Short, now: seq<Event>)
    requires Adding(before, views, Hear(TermOpened(term, columns, rows)), now).Some?
    ensures IsHeld(now, term)
    ensures now == if IsHeld(before, term) then before else before + [Opened(term)]
  {
    HeldExactly(before, term);
    hide Tell, IsHeld;
    SaidLast(before, Opened(term));
    HeldExactly(now, term);
    assert before + [] == before;
  }

  /** A terminal closed and not held open loses its window, if it had a mirror. */
  lemma CloseIsTold(before: seq<Event>, views: Views, term: TermId, ended: bool, held: bool, status: int, now: seq<Event>)
    requires Adding(before, views, Hear(TermClosed(term, ended, held, status)), now).Some?
    ensures !held ==> !IsHeld(now, term)
    ensures now == if !held && IsHeld(before, term) then before + [Closed(term)] else before
  {
    HeldExactly(before, term);
    hide Tell, IsHeld;
    SaidLast(before, Closed(term));
    HeldExactly(now, term);
    assert before + [] == before;
  }

  /** A change of a terminal that has no mirror leaves a request to be healed outstanding, sent once. */
  lemma StrayChangeAsks(before: seq<Event>, views: Views, term: TermId, number: Number, ops: seq<GridOp>, now: seq<Event>)
    requires Adding(before, views, Hear(GridDelta(term, number, ops)), now).Some?
    ensures now == if IsHeld(before, term) || IsHealing(before) then before
                   else before + [Healed(Tell(before).session)]
    ensures !IsHeld(before, term) ==> IsHealing(now)
  {
    HeldExactly(before, term);
    HealingExactly(before);
    hide Tell, IsHeld, IsHealing;
    SaidLast(before, Healed(Tell(before).session));
    HealingExactly(now);
    assert before + [] == before;
  }

  /** So does a look for mirrors that have lost track, if there is one. */
  lemma HealingIsAsked(before: seq<Event>, views: Views, now: seq<Event>)
    requires Adding(before, views, Heal, now).Some?
    ensures now == if !(exists term :: term in views && views[term].stream.needsSnapshot)
                      || IsHealing(before) then before
                   else before + [Healed(Tell(before).session)]
    ensures (exists term :: term in views && views[term].stream.needsSnapshot) ==> IsHealing(now)
  {
    HealingExactly(before);
    hide Tell, IsHealing;
    SaidLast(before, Healed(Tell(before).session));
    HealingExactly(now);
    assert before + [] == before;
  }

  /** A detach, windows taken down and a connection lost are recorded, each once; nothing else is said of anything. */
  lemma RestIsRecorded(before: seq<Event>, views: Views, input: Input, now: seq<Event>)
    requires Adding(before, views, input, now).Some?
    ensures input == Hear(Detached) ==> now == before + [Ended]
    ensures input == ForgetWindows ==> now == before + [Forgotten]
    ensures input == LoseConnection ==> now == before + [Lost]
    ensures input.Type? || input.KeepHistory? ==> now == before
    ensures (input.Hear? && (input.message.PasteAck? || input.message.TermMeta? || input.message.PrintJobData?
        || input.message.ImageAddBegin? || input.message.ImageChunk? || input.message.ImageEnd? || input.message.ImagePlace?
        || input.message.ImageRemove? || input.message.Aside? || input.message.Unknown?))
      ==> now == before
  {
    hide Tell, Reconciled;
    assert before + [] == before;
  }

  /** Windows announced and closed, none of them both. */
  lemma {:induction false} WindowsTell(before: seq<Event>, now: seq<Event>, shown: set<TermId>, gone: set<TermId>)
    requires Windows(before, now, shown, gone) && shown !! gone
    ensures var told := Tell(before);
      Tell(now) == told.(held := told.held + shown - gone, shown := told.shown + shown - gone)
    decreases |now|
  {
    if now == before {
      assert now[|before|..] == [];
    } else {
      var front, last := now[..|now| - 1], now[|now| - 1];
      var events := now[|before|..];
      assert front[|before|..] == events[..|events| - 1] && last == events[|events| - 1];
      assert before <= front;
      hide Tell;
      WindowsTell(before, front, OpenedIn(front[|before|..]), ClosedIn(front[|before|..]));
      SaidLast(front, last);
      assert front + [last] == now;
    }
  }

  /**
   An attachment granted: whatever was held and shown before, afterwards the session holds and shows exactly the snapshot's
   terminals, watches the session granted and waits for no heal; and it has stated where they belong last.
   */
  lemma AttachmentSettles(before: seq<Event>, views: Views, granted: nat, states: seq<TerminalState>, terms: seq<TermId>,
                          now: seq<Event>)
    requires Adding(before, views, Hear(Attached(granted, states)), now).Some?
    requires |terms| == |states| && forall i :: 0 <= i < |states| ==> terms[i] == states[i].term
    ensures Tell(now).held == Tell(now).shown && forall term :: term in Tell(now).held <==> term in terms
    ensures Tell(now).attached && Tell(now).session == granted && !Tell(now).healing
    ensures now != [] && now[|now| - 1] == LayoutStated(terms, true)
  {
    TermsAre(states, terms);
    var said := AttachmentSays(before, views, granted, states, terms, now);
    var start := before + [Granted(granted)];
    ShownIsHeld(before);
    SaidLast(before, Granted(granted));
    SaidLast(said, LayoutStated(terms, true));
    hide *;
    var told := Tell(before);
    SettledSets(told.held, told.shown, TermsOf(states));
    WindowsTell(start, said, TermsOf(states) - told.shown, told.held - TermsOf(states));
  }

  lemma AttachmentSays(before: seq<Event>, views: Views, granted: nat, states: seq<TerminalState>, terms: seq<TermId>,
                       now: seq<Event>) returns (said: seq<Event>)
    requires Adding(before, views, Hear(Attached(granted, states)), now).Some?
    requires |terms| == |states| && forall i :: 0 <= i < |states| ==> terms[i] == states[i].term
    ensures now == said + [LayoutStated(terms, true)]
    ensures Windows(before + [Granted(granted)], said, TermsOf(states) - Tell(before).shown, Tell(before).held - TermsOf(states))
  {
    assert TermNames(states) == terms;
    said := now[..|now| - 1];
    hide Windows, TermsOf, Tell;
  }

  lemma SettledSets(held: set<TermId>, shown: set<TermId>, terms: set<TermId>)
    requires shown <= held
    ensures terms - shown !! held - terms
    ensures held + (terms - shown) - (held - terms) == terms && shown + (terms - shown) - (held - terms) == terms
  {
  }

  lemma TermsAre(states: seq<TerminalState>, terms: seq<TermId>)
    requires |terms| == |states| && forall i :: 0 <= i < |states| ==> terms[i] == states[i].term
    ensures forall term :: term in TermsOf(states) <==> term in terms
  {
    forall term | term in terms ensures term in TermsOf(states) {
      var i :| 0 <= i < |terms| && terms[i] == term;
      assert states[i].term == term;
    }
  }

  /** Every input of a run adds what these say: the record is cut where each of them left it. */
  lemma EachAdds(record: seq<Event>, kept: Kept, inputs: seq<Input>, cuts: seq<seq<Event>>, i: nat)
    requires Recounting(record, kept, inputs, |inputs|, cuts).Some? && i < |inputs|
    ensures Adding(cuts[i], AfterInputs(kept, inputs[..i]).views, inputs[i], cuts[i + 1]).Some?
  {
    hide Adds, AfterInputs;
    assert Adds(cuts[i], KeptTo(kept, inputs, i).views, inputs[i], cuts[i + 1]);
  }
}
