/**
 Credit-paced pasting (src/client/server_session.cpp): a paste is cut into chunks at once, at most two of them
 are unacknowledged at a time, and the rest wait.
 */
module Paste {
  import opened Wire

  const CREDIT := 2
  const CHUNK_BYTES := 65536
  const SEQUENCES := 0x1_0000_0000

  datatype PasteChunk = PasteChunk(term: TermId, number: nat, last: bool, bytes: string)

  function NumberAfter(number: nat): nat { (number + 1) % SEQUENCES }

  // ------------------------------------------------------------- cutting

  /** The chunks of a paste, the first of them numbered `number`. */
  function Cut(term: TermId, number: nat, bytes: string): seq<PasteChunk>
    decreases |bytes|
  {
    if bytes == "" then []
    else if |bytes| <= CHUNK_BYTES then [PasteChunk(term, number, true, bytes)]
    else [PasteChunk(term, number, false, bytes[..CHUNK_BYTES])] + Cut(term, NumberAfter(number), bytes[CHUNK_BYTES..])
  }

  /** The number that follows `count` chunks starting at `number`. */
  function NumberIn(number: nat, count: nat): nat {
    if count == 0 then number else NumberAfter(NumberIn(number, count - 1))
  }

  function Text(chunks: seq<PasteChunk>): string {
    if chunks == [] then "" else chunks[0].bytes + Text(chunks[1..])
  }

  /** Between 1 and 65536 bytes each, for one terminal, numbered in a row, and only the last one final. */
  predicate WellCut(chunks: seq<PasteChunk>, term: TermId, number: nat) {
    forall i :: 0 <= i < |chunks| ==>
      && chunks[i].term == term && chunks[i].number == NumberIn(number, i)
      && 1 <= |chunks[i].bytes| <= 65536 && (chunks[i].last <==> i == |chunks| - 1)
  }

  lemma {:induction false} NumberInShift(number: nat, count: nat)
    ensures NumberIn(NumberAfter(number), count) == NumberIn(number, count + 1)
  {
    hide NumberAfter;
    if count > 0 { NumberInShift(number, count - 1); }
  }

  lemma OneMore(number: nat)
    ensures NumberAfter(number % SEQUENCES) == (number + 1) % SEQUENCES
  {
  }

  lemma {:induction false} NumbersWrap(number: nat, count: nat)
    requires number < 0x1_0000_0000
    ensures NumberIn(number, count) == (number + count) % 0x1_0000_0000
  {
    if count > 0 {
      NumbersWrap(number, count - 1);
      OneMore(number + count - 1);
    }
  }

  /** Cutting loses nothing, adds nothing and keeps the order. */
  lemma {:induction false} CutIsWhole(term: TermId, number: nat, bytes: string)
    ensures Text(Cut(term, number, bytes)) == bytes
    ensures WellCut(Cut(term, number, bytes), term, number)
    ensures Cut(term, number, bytes) == [] <==> bytes == ""
    decreases |bytes|
  {
    hide NumberAfter;
    if |bytes| > CHUNK_BYTES {
      var first, rest := PasteChunk(term, number, false, bytes[..CHUNK_BYTES]), bytes[CHUNK_BYTES..];
      var cut := Cut(term, NumberAfter(number), rest);
      CutIsWhole(term, NumberAfter(number), rest);
      assert ([first] + cut)[1..] == cut;
      forall i | 0 <= i < |cut| ensures NumberIn(NumberAfter(number), i) == NumberIn(number, i + 1) {
        NumberInShift(number, i);
      }
      assert bytes[..CHUNK_BYTES] + rest == bytes;
    } else if bytes != "" {
      assert [PasteChunk(term, number, true, bytes)][1..] == [];
    }
  }

  /** The paste loop: one chunk after another off the front, numbered as it goes. */
  method CutPaste(term: TermId, number: nat, bytes: string) returns (chunks: seq<PasteChunk>, next: nat)
    requires number < SEQUENCES
    ensures chunks == Cut(term, number, bytes)
    ensures next < SEQUENCES && next == NumberIn(number, |chunks|)
  {
    hide Cut;
    chunks, next := [], number;
    var at := 0;
    assert bytes[0..] == bytes;
    while at < |bytes|
      invariant 0 <= at <= |bytes|
      invariant chunks + Cut(term, next, bytes[at..]) == Cut(term, number, bytes)
      invariant next < SEQUENCES && next == NumberIn(number, |chunks|)
    {
      var take := if CHUNK_BYTES < |bytes| - at then CHUNK_BYTES else |bytes| - at;
      CutStep(term, next, bytes, at, take);
      chunks := chunks + [PasteChunk(term, next, at + take >= |bytes|, bytes[at..at + take])];
      next := NumberAfter(next);
      at := at + take;
    }
    NothingToCut(term, next, bytes[at..]);
  }

  lemma NothingToCut(term: TermId, number: nat, bytes: string)
    requires bytes == ""
    ensures Cut(term, number, bytes) == []
  {
  }

  lemma CutStep(term: TermId, number: nat, bytes: string, at: nat, take: nat)
    requires at < |bytes| && take == if CHUNK_BYTES < |bytes| - at then CHUNK_BYTES else |bytes| - at
    ensures Cut(term, number, bytes[at..]) ==
      [PasteChunk(term, number, at + take >= |bytes|, bytes[at..at + take])] + Cut(term, NumberAfter(number), bytes[at + take..])
  {
    hide NumberAfter;
    var rest := bytes[at..];
    assert rest[..take] == bytes[at..at + take] && rest[take..] == bytes[at + take..];
    if |rest| <= CHUNK_BYTES {
      assert rest == bytes[at..at + take];
      NothingToCut(term, NumberAfter(number), bytes[at + take..]);
      assert Cut(term, number, rest) == [PasteChunk(term, number, true, rest)];
    } else {
      assert Cut(term, number, rest) ==
        [PasteChunk(term, number, false, rest[..CHUNK_BYTES])] + Cut(term, NumberAfter(number), rest[CHUNK_BYTES..]);
    }
  }

  // ------------------------------------------------------------- pacing

  /** What a client keeps: the chunks that wait, how many are unacknowledged, and the next number. */
  datatype Pacing = Pacing(queue: seq<PasteChunk>, inFlight: nat, next: nat)

  const IDLE := Pacing([], 0, 1)

  /** How many of the waiting chunks the credit lets go. */
  function Going(pacing: Pacing): (count: nat)
    ensures count <= |pacing.queue|
  {
    var credit := if pacing.inFlight < CREDIT then CREDIT - pacing.inFlight else 0;
    if credit < |pacing.queue| then credit else |pacing.queue|
  }

  function Pumped(pacing: Pacing): Pacing {
    var going := Going(pacing);
    if going == 0 then pacing else pacing.(queue := pacing.queue[going..], inFlight := pacing.inFlight + going)
  }

  datatype PasteEvent =
    | Pasted(term: TermId, bytes: string)
    | Acked
    | Abandoned(connectionGone: bool)

  /** A paste queued whole. */
  function Queued(pacing: Pacing, term: TermId, bytes: string): Pacing {
    var cut := Cut(term, pacing.next, bytes);
    pacing.(queue := pacing.queue + cut, next := NumberIn(pacing.next, |cut|))
  }

  /** An acknowledgement counted, whatever it names. */
  function Counted(pacing: Pacing): Pacing {
    pacing.(inFlight := if pacing.inFlight > 0 then pacing.inFlight - 1 else 0)
  }

  /** The state the pump starts from. */
  function Due(pacing: Pacing, event: PasteEvent): Pacing {
    match event
    case Pasted(term, bytes) => Queued(pacing, term, bytes)
    case Acked => Counted(pacing)
    case Abandoned(_) => pacing.(queue := [], inFlight := 0)
  }

  /** What an event sends. */
  function Sending(pacing: Pacing, event: PasteEvent): seq<PasteChunk> {
    if event.Abandoned? then [] else Due(pacing, event).queue[..Going(Due(pacing, event))]
  }

  /**
   The books kept over a run: beside the pacing, what has been asked for since pasting was last abandoned and what
   has been sent of it; how many chunks of the present connection the server has yet to acknowledge; and the
   credit taken back for chunks still on the wire.
   */
  datatype Books = Books(pacing: Pacing, wanted: seq<PasteChunk>, sent: seq<PasteChunk>, wire: nat, forfeited: nat)

  const OPENED := Books(IDLE, [], [], 0, 0)

  function Step(books: Books, event: PasteEvent): Books {
    var sending := Sending(books.pacing, event);
    match event
    case Pasted(term, bytes) =>
      Books(Pumped(Due(books.pacing, event)), books.wanted + Cut(term, books.pacing.next, bytes), books.sent + sending,
            books.wire + |sending|, books.forfeited)
    case Acked =>
      Books(Pumped(Due(books.pacing, event)), books.wanted, books.sent + sending,
            (if books.wire > 0 then books.wire - 1 else 0) + |sending|, books.forfeited)
    case Abandoned(gone) => Left(books, gone)
  }

  function Left(books: Books, gone: bool): Books {
    Books(books.pacing.(queue := [], inFlight := 0), [], [],
          if gone then 0 else books.wire, if gone then 0 else books.forfeited + books.pacing.inFlight)
  }

  function RunFrom(books: Books, events: seq<PasteEvent>): Books {
    if events == [] then books else Step(RunFrom(books, events[..|events| - 1]), events[|events| - 1])
  }

  function Run(events: seq<PasteEvent>): Books {
    RunFrom(OPENED, events)
  }

  /** What was asked for: every paste since the last abandonment, whole and in order, numbered in a row from the start. */
  function Wanted(events: seq<PasteEvent>): (seq<PasteChunk>, nat) {
    if events == [] then ([], 1)
    else
      var (chunks, next) := Wanted(events[..|events| - 1]);
      match events[|events| - 1]
      case Pasted(term, bytes) =>
        var cut := Cut(term, next, bytes);
        (chunks + cut, NumberIn(next, |cut|))
      case Acked => (chunks, next)
      case Abandoned(_) => ([], next)
  }

  /** What was sent and what waits is what was asked for; chunks wait only when the credit is spent. */
  predicate Paced(books: Books) {
    && books.sent + books.pacing.queue == books.wanted
    && books.pacing.inFlight <= 2
    && (books.pacing.queue != [] ==> books.pacing.inFlight == 2)
    && books.pacing.inFlight <= books.wire <= books.pacing.inFlight + books.forfeited
  }

  lemma StepKeepsPaced(books: Books, event: PasteEvent)
    requires Paced(books)
    ensures Paced(Step(books, event))
  {
    SentPlusWaiting(books, event);
    hide Cut, NumberIn;
  }

  /**
   At every moment of every run of pastes, acknowledgements and abandonments: no more than two chunks count as
   unacknowledged, chunks wait only when the credit is spent, what was sent and what waits is what was asked for
   since the last abandonment, and the wire carries more than the count only by credit taken back.
   */
  lemma {:induction false} PastingIsPaced(events: seq<PasteEvent>)
    ensures Paced(Run(events))
    ensures Run(events).wanted == Wanted(events).0 && Run(events).pacing.next == Wanted(events).1
  {
    hide Paced, Cut, NumberIn;
    if events == [] {
      OpenedIsPaced();
    } else {
      var front, last := events[..|events| - 1], events[|events| - 1];
      PastingIsPaced(front);
      StepKeepsPaced(Run(front), last);
    }
  }

  lemma OpenedIsPaced()
    ensures Paced(OPENED)
  {
  }

  lemma PumpLosesNothing(pacing: Pacing)
    ensures pacing.queue[..Going(pacing)] + Pumped(pacing).queue == pacing.queue
  {
  }

  lemma SentPlusWaiting(books: Books, event: PasteEvent)
    ensures var after, all := Step(books, event), books.sent + books.pacing.queue;
      && (event.Pasted? ==> after.sent + after.pacing.queue == all + Cut(event.term, books.pacing.next, event.bytes))
      && (event.Acked? ==> after.sent + after.pacing.queue == all)
      && (event.Abandoned? ==> after.sent + after.pacing.queue == [])
  {
    hide Cut, NumberIn, Going, Pumped;
    if !event.Abandoned? {
      var due := Due(books.pacing, event);
      PumpLosesNothing(due);
      assert books.sent + (due.queue[..Going(due)] + Pumped(due).queue) ==
        books.sent + due.queue[..Going(due)] + Pumped(due).queue;
    }
    if event.Pasted? {
      var cut := Cut(event.term, books.pacing.next, event.bytes);
      assert books.sent + (books.pacing.queue + cut) == books.sent + books.pacing.queue + cut;
    }
  }

  lemma NoRun(books: Books)
    ensures RunFrom(books, []) == books
  {
  }

  lemma RunOne(books: Books, event: PasteEvent)
    ensures RunFrom(books, [event]) == Step(books, event)
  {
    hide Step;
    assert [event][..0] == [];
    assert RunFrom(books, []) == books;
  }

  lemma {:induction false} RunOn(books: Books, first: seq<PasteEvent>, second: seq<PasteEvent>)
    ensures RunFrom(books, first + second) == RunFrom(RunFrom(books, first), second)
  {
    hide Step;
    if second == [] {
      assert first + second == first;
    } else {
      var n := |second| - 1;
      RunOn(books, first, second[..n]);
      assert (first + second)[..|first| + n] == first + second[..n];
    }
  }

  /** Every chunk that a run of events puts on the wire, in order. */
  function SentBy(books: Books, events: seq<PasteEvent>): seq<PasteChunk> {
    if events == [] then []
    else
      var front := events[..|events| - 1];
      SentBy(books, front) + Sending(RunFrom(books, front).pacing, events[|events| - 1])
  }

  lemma SentNothing(books: Books)
    ensures SentBy(books, []) == []
  {
  }

  lemma SentOne(books: Books, event: PasteEvent)
    ensures SentBy(books, [event]) == Sending(books.pacing, event)
  {
    hide Step, Sending;
    assert [event][..0] == [];
    assert RunFrom(books, []) == books;
  }

  lemma {:induction false} SentOn(books: Books, first: seq<PasteEvent>, second: seq<PasteEvent>)
    ensures SentBy(books, first + second) == SentBy(books, first) + SentBy(RunFrom(books, first), second)
  {
    hide Step, Sending;
    if second == [] {
      assert first + second == first;
    } else {
      var front := second[..|second| - 1];
      SentOn(books, first, front);
      RunOn(books, first, front);
      assert (first + second)[..|first| + |second| - 1] == first + front;
    }
  }

  /** A list of chunks ends with another. */
  predicate EndsWith(chunks: seq<PasteChunk>, last: seq<PasteChunk>) {
    |last| <= |chunks| && chunks[|chunks| - |last|..] == last
  }

  /** What has been sent since pasting was last abandoned is the end of all that has been put on the wire. */
  lemma {:induction false} SentIsTheEnd(events: seq<PasteEvent>)
    ensures EndsWith(SentBy(OPENED, events), Run(events).sent)
  {
    hide Sending, Due, Pumped, Cut;
    if events != [] {
      var front, last := events[..|events| - 1], events[|events| - 1];
      SentIsTheEnd(front);
      EndGrows(SentBy(OPENED, front), Run(front).sent, Sending(Run(front).pacing, last));
    }
  }

  /** With nothing abandoned that is all of it. */
  lemma {:induction false} SentIsAllSent(events: seq<PasteEvent>)
    requires forall i :: 0 <= i < |events| ==> !events[i].Abandoned?
    ensures SentBy(OPENED, events) == Run(events).sent
  {
    hide Sending, Due, Pumped, Cut;
    if events != [] { SentIsAllSent(events[..|events| - 1]); }
  }

  lemma EndGrows(chunks: seq<PasteChunk>, last: seq<PasteChunk>, more: seq<PasteChunk>)
    requires EndsWith(chunks, last)
    ensures EndsWith(chunks + more, last + more) && EndsWith(chunks + more, [])
  {
  }

  /** An empty paste changes nothing and sends nothing: a client may as well return at once. */
  lemma NothingToPaste(books: Books, term: TermId)
    requires Paced(books)
    ensures Step(books, Pasted(term, "")) == books && Sending(books.pacing, Pasted(term, "")) == []
  {
    hide Cut;
    NothingToCut(term, books.pacing.next, "");
    assert books.pacing.queue + [] == books.pacing.queue && books.wanted + [] == books.wanted && books.sent + [] == books.sent;
  }

  /** An acknowledgement always brings the end one chunk nearer, until nothing waits and nothing is in flight. */
  lemma AckDrains(events: seq<PasteEvent>)
    ensures var was, now := Run(events).pacing, Run(events + [Acked]).pacing;
      now.inFlight + |now.queue| == if was.inFlight + |was.queue| > 0 then was.inFlight + |was.queue| - 1 else 0
  {
    PastingIsPaced(events);
    assert (events + [Acked])[..|events|] == events;
  }

  function Acks(count: nat): seq<PasteEvent> {
    seq(count, _ => Acked)
  }

  /** So as many acknowledgements as there are chunks outstanding send the whole of what was asked for. */
  lemma {:induction false} EnoughAcksSendItAll(events: seq<PasteEvent>, count: nat)
    ensures var was, now := Run(events).pacing, Run(events + Acks(count)).pacing;
      now.inFlight + |now.queue| == if was.inFlight + |was.queue| > count then was.inFlight + |was.queue| - count else 0
    ensures var was, now := Run(events).pacing, Run(events + Acks(count));
      was.inFlight + |was.queue| <= count ==> now.sent == Wanted(events).0
    decreases count
  {
    hide Step;
    if count == 0 {
      assert events + Acks(0) == events;
    } else {
      EnoughAcksSendItAll(events, count - 1);
      AckDrains(events + Acks(count - 1));
      assert events + Acks(count) == events + Acks(count - 1) + [Acked];
    }
    AcksWantNothing(events, count);
    PastingIsPaced(events + Acks(count));
  }

  lemma {:induction false} AcksWantNothing(events: seq<PasteEvent>, count: nat)
    ensures Wanted(events + Acks(count)) == Wanted(events)
  {
    if count == 0 {
      assert events + Acks(0) == events;
    } else {
      AcksWantNothing(events, count - 1);
      assert (events + Acks(count))[..|events| + count - 1] == events + Acks(count - 1);
    }
  }
}
