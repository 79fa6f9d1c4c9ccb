/**
 Pictures arriving over a connection (src/client/server_session.cpp): begun, filled by chunks in order, ended,
 and taken by the placement that follows. Ids are global to the connection and their messages may interleave.
 */
module Pictures {
  import opened Wrappers
  import opened Wire

  const SEQUENCES := 0x1_0000_0000

  datatype Pending = Pending(width: nat, height: nat, nextSeq: nat, bytes: string)

  datatype Store = Store(pending: map<nat, Pending>, completed: map<nat, Image>)

  const EMPTY := Store(map[], map[])

  datatype PictureMessage =
    | Begin(id: nat, width: nat, height: nat)
    | Chunk(id: nat, number: nat, bytes: string)
    | End(id: nat)
    | Take(id: nat)
    | Drop(id: nat)

  /** Chunks are numbered from zero in 32 bits, which wrap. */
  function NumberOf(index: nat): nat { index % SEQUENCES }

  function NumberAfter(number: nat): nat { (number + 1) % SEQUENCES }

  lemma NumbersFollow(index: nat)
    ensures NumberAfter(NumberOf(index)) == NumberOf(index + 1)
  {
  }

  function TotalBytes(width: nat, height: nat): nat { width * height * 4 }

  function Without<V>(m: map<nat, V>, id: nat): map<nat, V> { m - {id} }

  /** What one message does to the store. */
  function AfterPicture(store: Store, message: PictureMessage): Store {
    var id := message.id;
    match message
    case Begin(_, width, height) => store.(pending := store.pending[id := Pending(width, height, 0, "")])
    case Chunk(_, number, bytes) =>
      if id !in store.pending then store
      else
        var p := store.pending[id];
        if number != p.nextSeq || |p.bytes| + |bytes| > TotalBytes(p.width, p.height) then
          store.(pending := Without(store.pending, id))
        else
          store.(pending := store.pending[id := p.(bytes := p.bytes + bytes, nextSeq := NumberAfter(p.nextSeq))])
    case End(_) =>
      if id !in store.pending then store
      else
        var p := store.pending[id];
        var total := TotalBytes(p.width, p.height);
        var completed := if total != 0 && |p.bytes| == total then store.completed[id := Image(p.width, p.height, p.bytes)]
                         else store.completed;
        Store(Without(store.pending, id), completed)
    case Take(_) => store.(completed := Without(store.completed, id))
    case Drop(_) => Store(Without(store.pending, id), Without(store.completed, id))
  }

  function AfterAll(store: Store, messages: seq<PictureMessage>): Store {
    if messages == [] then store else AfterPicture(AfterAll(store, messages[..|messages| - 1]), messages[|messages| - 1])
  }

  lemma NothingHeard(store: Store)
    ensures AfterAll(store, []) == store
  {
  }

  lemma AfterAllStep(store: Store, messages: seq<PictureMessage>, message: PictureMessage)
    ensures AfterAll(store, messages + [message]) == AfterPicture(AfterAll(store, messages), message)
  {
    hide AfterPicture;
    assert (messages + [message])[..|messages|] == messages;
  }

  // ------------------------------------------------------------- one id at a time

  function OwnMessages(messages: seq<PictureMessage>, id: nat): (own: seq<PictureMessage>)
    ensures forall m :: m in own ==> m.id == id
  {
    if messages == [] then []
    else
      var front := OwnMessages(messages[..|messages| - 1], id);
      if messages[|messages| - 1].id == id then front + [messages[|messages| - 1]] else front
  }

  /** All a store knows of one picture. */
  function PictureOf(store: Store, id: nat): (Option<Pending>, Option<Image>) {
    (if id in store.pending then Some(store.pending[id]) else None,
     if id in store.completed then Some(store.completed[id]) else None)
  }

  lemma OneStep(a: Store, b: Store, message: PictureMessage, id: nat)
    requires PictureOf(a, id) == PictureOf(b, id)
    ensures message.id == id ==> PictureOf(AfterPicture(a, message), id) == PictureOf(AfterPicture(b, message), id)
    ensures message.id != id ==> PictureOf(AfterPicture(a, message), id) == PictureOf(a, id)
  {
  }

  /** Whatever the interleaving, each picture is what its own messages alone make it. */
  lemma {:induction false} PicturesDoNotInterfere(store: Store, messages: seq<PictureMessage>, id: nat)
    ensures PictureOf(AfterAll(store, messages), id) == PictureOf(AfterAll(store, OwnMessages(messages, id)), id)
  {
    hide PictureOf, AfterPicture;
    if messages != [] {
      var front, last := messages[..|messages| - 1], messages[|messages| - 1];
      PicturesDoNotInterfere(store, front, id);
      OneStep(AfterAll(store, front), AfterAll(store, OwnMessages(front, id)), last, id);
      if last.id == id {
        assert OwnMessages(messages, id)[..|OwnMessages(messages, id)| - 1] == OwnMessages(front, id);
      }
    }
  }

  // ------------------------------------------------------------- whole uploads

  function Joined(parts: seq<string>): string {
    if parts == [] then "" else Joined(parts[..|parts| - 1]) + parts[|parts| - 1]
  }

  /** Begin, and the parts as chunks in order. */
  function UploadSoFar(id: nat, width: nat, height: nat, parts: seq<string>): seq<PictureMessage> {
    if parts == [] then [Begin(id, width, height)]
    else
      var n := |parts| - 1;
      UploadSoFar(id, width, height, parts[..n]) + [Chunk(id, NumberOf(n), parts[n])]
  }

  function Upload(id: nat, width: nat, height: nat, parts: seq<string>): seq<PictureMessage> {
    UploadSoFar(id, width, height, parts) + [End(id)]
  }

  lemma {:induction false} UploadSoFarPends(store: Store, id: nat, width: nat, height: nat, parts: seq<string>)
    requires |Joined(parts)| <= TotalBytes(width, height)
    ensures var after := AfterAll(store, UploadSoFar(id, width, height, parts));
      && id in after.pending && after.completed == store.completed
      && after.pending[id] == Pending(width, height, NumberOf(|parts|), Joined(parts))
  {
    assert NumberOf(0) == 0;
    hide TotalBytes, NumberOf, NumberAfter;
    var all := UploadSoFar(id, width, height, parts);
    if parts == [] {
      assert all[..0] == [];
    } else {
      var n := |parts| - 1;
      NumbersFollow(n);
      assert |Joined(parts)| == |Joined(parts[..n])| + |parts[n]|;
      UploadSoFarPends(store, id, width, height, parts[..n]);
      assert all[..|all| - 1] == UploadSoFar(id, width, height, parts[..n]);
    }
  }

  /** An upload whose parts make up the picture completes it, whatever was there before under its id. */
  lemma UploadCompletes(store: Store, id: nat, width: nat, height: nat, parts: seq<string>)
    requires |Joined(parts)| == TotalBytes(width, height) > 0
    ensures var after := AfterAll(store, Upload(id, width, height, parts));
      id in after.completed && after.completed[id] == Image(width, height, Joined(parts)) && id !in after.pending
  {
    hide TotalBytes;
    UploadSoFarPends(store, id, width, height, parts);
    var all := Upload(id, width, height, parts);
    assert all[..|all| - 1] == UploadSoFar(id, width, height, parts);
  }

  /** The messages that build pictures: all but the placements that take them. */
  function Building(messages: seq<PictureMessage>): seq<PictureMessage> {
    if messages == [] then []
    else
      var front := Building(messages[..|messages| - 1]);
      if messages[|messages| - 1].Take? then front else front + [messages[|messages| - 1]]
  }

  /** How a picture came about: what was sent before it, with it, and since, and the parts it was sent in. */
  datatype Story = Story(before: seq<PictureMessage>, during: seq<PictureMessage>, since: seq<PictureMessage>, parts: seq<string>)

  /** The last messages are an upload under way, never of more bytes than it announced. */
  predicate UnderWay(story: Story, messages: seq<PictureMessage>, id: nat, p: Pending) {
    && messages == story.before + story.during && story.since == []
    && Building(story.during) == UploadSoFar(id, p.width, p.height, story.parts)
    && p.bytes == Joined(story.parts) && p.nextSeq == NumberOf(|story.parts|)
    && |p.bytes| <= TotalBytes(p.width, p.height)
  }

  /** A whole upload of the image, in order and of exactly the announced size, and nothing has taken or dropped it since. */
  predicate Uploaded(story: Story, messages: seq<PictureMessage>, id: nat, image: Image) {
    && messages == story.before + story.during + story.since
    && Building(story.during) == Upload(id, image.width, image.height, story.parts)
    && image.pixels == Joined(story.parts) && |image.pixels| == TotalBytes(image.width, image.height) > 0
    && (forall i :: 0 <= i < |story.since| ==> !story.since[i].Take? && !story.since[i].Drop?)
  }

  ghost predicate Explained(messages: seq<PictureMessage>, id: nat, now: Store) {
    && (id in now.pending ==> exists story :: UnderWay(story, messages, id, now.pending[id]))
    && (id in now.completed ==> exists story :: Uploaded(story, messages, id, now.completed[id]))
  }

  /**
   The converse: whatever a store holds for an id, that id's own messages put there. A picture under way is an
   upload so far; a completed one is a whole upload that nothing has taken since.
   */
  lemma {:induction false} OnlyUploadsComplete(messages: seq<PictureMessage>, id: nat)
    requires forall i :: 0 <= i < |messages| ==> messages[i].id == id
    ensures Explained(messages, id, AfterAll(EMPTY, messages))
  {
    hide AfterPicture, UnderWay, Uploaded;
    if messages != [] {
      var front, last := messages[..|messages| - 1], messages[|messages| - 1];
      OnlyUploadsComplete(front, id);
      var was := AfterAll(EMPTY, front);
      PendingExplained(front, last, id, was);
      CompletedExplained(front, last, id, was);
      assert front + [last] == messages;
    }
  }

  lemma BuildingAppend(messages: seq<PictureMessage>, last: PictureMessage)
    ensures Building(messages + [last]) == if last.Take? then Building(messages) else Building(messages) + [last]
  {
    assert (messages + [last])[..|messages|] == messages;
  }

  lemma PendingExplained(front: seq<PictureMessage>, last: PictureMessage, id: nat, was: Store)
    requires last.id == id && Explained(front, id, was)
    ensures var now := AfterPicture(was, last);
      id in now.pending ==> exists story :: UnderWay(story, front + [last], id, now.pending[id])
  {
    hide UnderWay, Uploaded, TotalBytes, NumberAfter;
    var now := AfterPicture(was, last);
    if id in now.pending {
      if last.Begin? {
        BegunIsUnderWay(front, id, last.width, last.height);
      } else {
        var s :| UnderWay(s, front, id, was.pending[id]);
        if last.Chunk? {
          ChunkKeepsUnderWay(s, front, id, was.pending[id], last.bytes);
        } else {
          TakeKeepsUnderWay(s, front, id, was.pending[id]);
        }
      }
    }
  }

  lemma BegunIsUnderWay(front: seq<PictureMessage>, id: nat, width: nat, height: nat)
    ensures UnderWay(Story(front, [Begin(id, width, height)], [], []), front + [Begin(id, width, height)], id,
      Pending(width, height, 0, ""))
  {
    TotalIsNat(width, height);
    hide TotalBytes;
    BuildingAppend([], Begin(id, width, height));
    assert [] + [Begin(id, width, height)] == [Begin(id, width, height)];
  }

  lemma ChunkKeepsUnderWay(s: Story, front: seq<PictureMessage>, id: nat, p: Pending, bytes: string)
    requires UnderWay(s, front, id, p) && |p.bytes| + |bytes| <= TotalBytes(p.width, p.height)
    ensures var chunk := Chunk(id, p.nextSeq, bytes);
      UnderWay(Story(s.before, s.during + [chunk], [], s.parts + [bytes]), front + [chunk], id,
        p.(bytes := p.bytes + bytes, nextSeq := NumberAfter(p.nextSeq)))
  {
    hide TotalBytes, NumberOf, NumberAfter;
    var chunk := Chunk(id, p.nextSeq, bytes);
    NumbersFollow(|s.parts|);
    BuildingAppend(s.during, chunk);
    assert front + [chunk] == s.before + (s.during + [chunk]);
    assert (s.parts + [bytes])[..|s.parts|] == s.parts;
  }

  lemma TakeKeepsUnderWay(s: Story, front: seq<PictureMessage>, id: nat, p: Pending)
    requires UnderWay(s, front, id, p)
    ensures UnderWay(s.(during := s.during + [Take(id)]), front + [Take(id)], id, p)
  {
    hide TotalBytes, NumberOf;
    BuildingAppend(s.during, Take(id));
    assert front + [Take(id)] == s.before + (s.during + [Take(id)]);
  }

  lemma TotalIsNat(width: nat, height: nat)
    ensures TotalBytes(width, height) >= 0
  {
  }

  lemma CompletedExplained(front: seq<PictureMessage>, last: PictureMessage, id: nat, was: Store)
    requires last.id == id && Explained(front, id, was)
    ensures var now := AfterPicture(was, last);
      id in now.completed ==> exists story :: Uploaded(story, front + [last], id, now.completed[id])
  {
    hide TotalBytes, NumberOf, NumberAfter;
    var now := AfterPicture(was, last);
    if id in now.completed {
      if now.completed != was.completed {
        var s :| UnderWay(s, front, id, was.pending[id]);
        BuildingAppend(s.during, last);
        assert front + [last] == s.before + (s.during + [last]) + [];
        assert Uploaded(Story(s.before, s.during + [last], [], s.parts), front + [last], id, now.completed[id]);
      } else {
        var s :| Uploaded(s, front, id, was.completed[id]);
        assert front + [last] == s.before + s.during + (s.since + [last]);
        assert Uploaded(Story(s.before, s.during, s.since + [last], s.parts), front + [last], id, now.completed[id]);
      }
    }
  }

  /** A placement hands the pixels over once: until another upload ends, there is nothing to take. */
  lemma {:induction false} TakenOnce(store: Store, id: nat, messages: seq<PictureMessage>)
    requires forall i :: 0 <= i < |messages| ==> messages[i] != End(id)
    ensures id !in AfterAll(AfterPicture(store, Take(id)), messages).completed
  {
    if messages != [] { TakenOnce(store, id, messages[..|messages| - 1]); }
  }
}
