/** Telling the server where windows are (src/client/client_app.cpp): sampled on a timer, sent once settled. */
module LayoutReport {
  import opened Wrappers
  import opened Wire

  datatype Share = Share(x: real, y: real, width: real, height: real)

  const NO_SHARE := Share(0.0, 0.0, 0.0, 0.0)

  /** One window's place, as the window layer sees it. */
  datatype Placement = Placement(term: TermId, rect: Rect, zOrder: nat, zoomed: bool, tile: Share)

  type Arrangement = seq<Placement>

  /** The timer finding an arrangement, or the windows taken down. */
  datatype Tick = Sampled(now: Arrangement) | Forgotten

  /** What was sampled last, and what was last reported. */
  datatype Watch = Watch(seen: Arrangement, reported: Arrangement)

  const FRESH := Watch([], [])

  function Next(watch: Watch, tick: Tick): Watch {
    match tick
    case Forgotten => FRESH
    case Sampled(now) => if now != watch.seen then watch.(seen := now) else watch.(reported := watch.seen)
  }

  /** What a tick sends. */
  function Sent(watch: Watch, tick: Tick): Option<Arrangement> {
    if tick.Sampled? && tick.now == watch.seen && watch.seen != watch.reported then Some(watch.seen) else None
  }

  function Watching(ticks: seq<Tick>): Watch {
    if ticks == [] then FRESH else Next(Watching(ticks[..|ticks| - 1]), ticks[|ticks| - 1])
  }

  function SentAt(ticks: seq<Tick>, t: nat): Option<Arrangement>
    requires t < |ticks|
  {
    Sent(Watching(ticks[..t]), ticks[t])
  }

  lemma WatchingStep(ticks: seq<Tick>, t: nat)
    requires t < |ticks|
    ensures Watching(ticks[..t + 1]) == Next(Watching(ticks[..t]), ticks[t])
  {
    assert ticks[..t + 1][..t] == ticks[..t];
  }

  lemma OneMoreTick(ticks: seq<Tick>, tick: Tick)
    ensures Watching(ticks + [tick]) == Next(Watching(ticks), tick)
    ensures SentAt(ticks + [tick], |ticks|) == Sent(Watching(ticks), tick)
  {
    assert (ticks + [tick])[..|ticks|] == ticks;
  }

  lemma AtStart(ticks: seq<Tick>)
    ensures Watching(ticks[..0]) == FRESH
  {
  }

  /** What was seen last is the last sample, or nothing. */
  lemma SeenIsTheLastSample(ticks: seq<Tick>, t: nat)
    requires t <= |ticks|
    ensures Watching(ticks[..t]).seen == if t > 0 && ticks[t - 1].Sampled? then ticks[t - 1].now else []
  {
    if t > 0 { WatchingStep(ticks, t - 1); }
  }

  /** Only an arrangement that two samples in a row agree on is sent. */
  lemma OnlySettledIsSent(ticks: seq<Tick>, t: nat)
    requires t < |ticks| && SentAt(ticks, t).Some?
    ensures t > 0 && ticks[t] == ticks[t - 1] == Sampled(SentAt(ticks, t).value)
  {
    SeenIsTheLastSample(ticks, t);
    AtStart(ticks);
    if t > 0 { WatchingStep(ticks, t - 1); }
  }

  predicate Quiet(ticks: seq<Tick>, start: nat, end: nat)
    requires end <= |ticks|
  {
    forall t :: start <= t < end ==> ticks[t].Sampled? && SentAt(ticks, t).None?
  }

  /** What was last sent stays what was last sent. */
  lemma {:induction false} ReportStands(ticks: seq<Tick>, start: nat, end: nat)
    requires start <= end <= |ticks| && Quiet(ticks, start, end)
    ensures Watching(ticks[..end]).reported == Watching(ticks[..start]).reported
  {
    if start < end {
      ReportStands(ticks, start, end - 1);
      WatchingStep(ticks, end - 1);
      assert SentAt(ticks, end - 1).None?;
    }
  }

  /** Two reports in a row differ. */
  lemma ReportsDiffer(ticks: seq<Tick>, first: nat, second: nat)
    requires first < second < |ticks| && SentAt(ticks, first).Some? && SentAt(ticks, second).Some?
    requires Quiet(ticks, first + 1, second)
    ensures SentAt(ticks, first) != SentAt(ticks, second)
  {
    WatchingStep(ticks, first);
    ReportStands(ticks, first + 1, second);
  }

  /** An arrangement held for two ticks is the last that was reported. */
  lemma HeldIsReported(ticks: seq<Tick>, t: nat)
    requires 0 < t < |ticks| && ticks[t].Sampled? && ticks[t - 1] == ticks[t]
    ensures Watching(ticks[..t + 1]).reported == ticks[t].now
    ensures ticks[t].now != [] ==> exists s :: 0 <= s <= t && SentAt(ticks, s) == Some(ticks[t].now) && Quiet(ticks, s + 1, t + 1)
  {
    SeenIsTheLastSample(ticks, t);
    WatchingStep(ticks, t);
    if ticks[t].now != [] { var s := LastSent(ticks, t + 1); }
  }

  /** What a tick leaves reported. */
  lemma ReportedStep(ticks: seq<Tick>, t: nat)
    requires t < |ticks|
    ensures var now := Watching(ticks[..t + 1]).reported;
      && (SentAt(ticks, t).Some? ==> now == SentAt(ticks, t).value)
      && (SentAt(ticks, t).None? && ticks[t].Sampled? ==> now == Watching(ticks[..t]).reported)
      && (ticks[t].Forgotten? ==> now == [])
  {
    WatchingStep(ticks, t);
    hide Watching;
  }

  /** What is reported was sent, and nothing has been sent since. */
  lemma {:induction false} LastSent(ticks: seq<Tick>, t: nat) returns (s: nat)
    requires t <= |ticks| && Watching(ticks[..t]).reported != []
    ensures s < t && SentAt(ticks, s) == Some(Watching(ticks[..t]).reported) && Quiet(ticks, s + 1, t)
  {
    AtStart(ticks);
    hide Watching, SentAt;
    ReportedStep(ticks, t - 1);
    if SentAt(ticks, t - 1).Some? {
      s := t - 1;
    } else {
      s := LastSent(ticks, t - 1);
    }
  }

  class Reporter {
    var seen: Arrangement
    var reported: Arrangement
    ghost var ticks: seq<Tick>
    ghost var sent: seq<Arrangement>

    ghost predicate Valid()
      reads this
    {
      Watch(seen, reported) == Watching(ticks)
    }

    constructor ()
      ensures Valid() && ticks == [] && sent == []
    {
      seen, reported, ticks, sent := [], [], [], [];
    }

    /** One turn of the timer. */
    method ReportIfSettled(now: Arrangement)
      requires Valid()
      modifies this
      ensures Valid() && ticks == old(ticks) + [Sampled(now)]
      ensures sent == old(sent) + match SentAt(ticks, |old(ticks)|) { case Some(layout) => [layout] case None => [] }
    {
      OneMoreTick(ticks, Sampled(now));
      hide Watching, SentAt;
      ticks := ticks + [Sampled(now)];
      if now != seen {
        seen := now;
        return;
      }
      if seen == reported { return; }
      reported := seen;
      sent := sent + [reported];
    }

    method ForgetTerminals()
      requires Valid()
      modifies this
      ensures Valid() && ticks == old(ticks) + [Forgotten] && sent == old(sent)
    {
      OneMoreTick(ticks, Forgotten);
      hide Watching, SentAt;
      ticks := ticks + [Forgotten];
      seen, reported := [], [];
    }
  }
}
