/**
 Reports from the desktop's timer to the wire (src/client/client_app.cpp, src/client/run_client.cpp,
 src/client/server_session.cpp): what the debounce lets through, what the session sends of it, and what the server
 has therefore been told last.
 */
module LayoutRun {
  import opened Wrappers
  import opened Wire
  import L = LayoutReport
  import S = Session
  import T = SessionTrace

  /** How a window's place is said on the wire, or not at all for one whose terminal the session does not know. */
  type Saying = L.Placement -> Option<LayoutEntry>

  function OnWire(arrangement: L.Arrangement, say: Saying): seq<LayoutEntry> {
    if arrangement == [] then []
    else
      var last := say(arrangement[|arrangement| - 1]);
      OnWire(arrangement[..|arrangement| - 1], say) + if last.Some? then [last.value] else []
  }

  /** A report handed to the session, and what it has been told once it has sent it or not. */
  ghost function Handed(told: T.Told, entries: seq<LayoutEntry>): T.Told {
    var said := S.Said(told, map[], S.Report(entries));
    if said == [] then told else T.After(told, said[0])
  }

  /** The session after a run of the timer. */
  ghost function Reporting(told: T.Told, ticks: seq<L.Tick>, say: Saying): T.Told {
    if ticks == [] then told
    else
      var n := |ticks| - 1;
      var before := Reporting(told, ticks[..n], say);
      match L.SentAt(ticks, n)
      case Some(arrangement) => Handed(before, OnWire(arrangement, say))
      case None => before
  }

  /** The timer has found one arrangement twice in a row. */
  predicate SettledAt(ticks: seq<L.Tick>, t: nat)
    requires t < |ticks|
  {
    t > 0 && ticks[t].Sampled? && ticks[t - 1] == ticks[t]
  }

  /** The last settled arrangement that there is something to say of, or what was said before the run. */
  function LastSettled(told: T.Told, ticks: seq<L.Tick>, say: Saying): seq<LayoutEntry> {
    if ticks == [] then told.reported
    else
      var n := |ticks| - 1;
      if SettledAt(ticks, n) && OnWire(ticks[n].now, say) != [] then OnWire(ticks[n].now, say)
      else LastSettled(told, ticks[..n], say)
  }

  lemma NothingReported()
    ensures L.Watching([]) == L.FRESH
  {
  }

  /** What the debounce last let through, if there was anything to say of it, is what was said last. */
  lemma {:induction false} ReportedIsLastSettled(told: T.Told, ticks: seq<L.Tick>, say: Saying)
    ensures OnWire(L.Watching(ticks).reported, say) != [] ==> LastSettled(told, ticks, say) == OnWire(L.Watching(ticks).reported, say)
  {
    hide L.Watching, OnWire, L.SentAt;
    if ticks == [] {
      NothingReported();
      NothingToSay(say);
    } else {
      var n := |ticks| - 1;
      assert ticks[..n + 1] == ticks;
      ReportedIsLastSettled(told, ticks[..n], say);
      L.ReportedStep(ticks, n);
      if L.SentAt(ticks, n).Some? { L.OnlySettledIsSent(ticks, n); }
      if SettledAt(ticks, n) { L.HeldIsReported(ticks, n); }
      NothingToSay(say);
    }
  }

  lemma NothingToSay(say: Saying)
    ensures OnWire([], say) == []
  {
  }

  /**
   For every run of the timer, the windows taken down any number of times within it: during one attachment, the
   last message sent is the last settled arrangement that there is anything to say of.
   */
  lemma {:induction false} LastMessageIsLastSettled(told: T.Told, ticks: seq<L.Tick>, say: Saying)
    requires told.attached
    ensures Reporting(told, ticks, say) == told.(reported := LastSettled(told, ticks, say))
  {
    hide L.Watching, OnWire, L.SentAt;
    if ticks != [] {
      var n := |ticks| - 1;
      assert ticks[..n + 1] == ticks;
      LastMessageIsLastSettled(told, ticks[..n], say);
      ReportedIsLastSettled(told, ticks[..n], say);
      L.ReportedStep(ticks, n);
      if L.SentAt(ticks, n).Some? { L.OnlySettledIsSent(ticks, n); }
      if SettledAt(ticks, n) { L.HeldIsReported(ticks, n); }
    }
  }
}
