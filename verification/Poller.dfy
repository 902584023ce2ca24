/** The interval poller of the web client, and when its ticks start. Times are in one unit. */
module Poller {
  import opened Basics

  /**
   `due` is when the interval fires next, `started` when the tick in flight began. `starts`
   and `settled` record when ticks began and how many are over.
   */
  datatype State = State(now: int, due: Option<int>, started: Option<int>, starts: seq<int>, settled: nat)

  function Fresh(now: int): State {
    State(now, None, None, [], 0)
  }

  // ---------- What the poller does ----------

  /** A tick is skipped while an earlier one is still in flight. */
  function RunTick(s: State): State {
    if s.started.Some? then s else s.(started := Some(s.now), starts := s.starts + [s.now])
  }

  function Start(s: State, interval: nat, immediately: bool): State {
    if s.due.Some? then s
    else
      var armed := s.(due := Some(s.now + interval));
      if immediately then RunTick(armed) else armed
  }

  function Stop(s: State): State {
    s.(due := None)
  }

  function Settle(s: State): State {
    if s.started.Some? then s.(started := None, settled := s.settled + 1) else s
  }

  // ---------- Runs ----------

  datatype Event =
    | Starting(immediately: bool)
    | Stopping
    | Firing
    | Settling
    | Elapsing(d: nat)

  /** The interval fires when due, and a request settles within `latency` of its start. */
  predicate Enabled(s: State, e: Event, latency: nat) {
    match e
    case Firing => s.due == Some(s.now)
    case Elapsing(d) =>
      && (s.due.Some? ==> s.now + d <= s.due.value)
      && (s.started.Some? ==> s.now + d <= s.started.value + latency)
    case Settling => s.started.Some?
    case _ => true
  }

  function Step(s: State, e: Event, interval: nat): State {
    match e
    case Starting(immediately) => Start(s, interval, immediately)
    case Stopping => Stop(s)
    case Firing => RunTick(if s.due.Some? then s.(due := Some(s.due.value + interval)) else s)
    case Settling => Settle(s)
    case Elapsing(d) => s.(now := s.now + d)
  }

  function Run(s: State, events: seq<Event>, interval: nat): State
    decreases events
  {
    if events == [] then s else Run(Step(s, events[0], interval), events[1..], interval)
  }

  predicate AllEnabled(s: State, events: seq<Event>, interval: nat, latency: nat)
    decreases events
  {
    events == [] ||
    (Enabled(s, events[0], latency) && AllEnabled(Step(s, events[0], interval), events[1..], interval, latency))
  }

  // ---------- What each call does ----------

  /** start() arms an interval that is not armed, and ticks at once if asked and nothing is in flight. */
  lemma StartEffect(s: State, interval: nat, immediately: bool)
    ensures var t := Start(s, interval, immediately);
            var ticks := s.due.None? && immediately && s.started.None?;
            && t.now == s.now && t.settled == s.settled
            && t.due == (if s.due.Some? then s.due else Some(s.now + interval))
            && t.started == (if ticks then Some(s.now) else s.started)
            && t.starts == (if ticks then s.starts + [s.now] else s.starts)
  {
  }

  /** stop() disarms for good: without another start() no tick begins, and the one in flight may settle. */
  lemma {:induction false} StoppedStays(s: State, events: seq<Event>, interval: nat, latency: nat)
    requires AllEnabled(Stop(s), events, interval, latency) && forall e | e in events :: !e.Starting?
    ensures var t := Run(Stop(s), events, interval);
            t.due == None && t.starts == s.starts && s.settled <= t.settled <= s.settled + 1
  {
    StoppedFrom(Stop(s), events, interval, latency);
  }

  lemma {:induction false} StoppedFrom(s: State, events: seq<Event>, interval: nat, latency: nat)
    requires s.due.None? && AllEnabled(s, events, interval, latency) && forall e | e in events :: !e.Starting?
    ensures var t := Run(s, events, interval);
            && t.due == None && t.starts == s.starts
            && t.settled == s.settled + (if s.started.Some? && t.started.None? then 1 else 0)
            && (s.started.None? ==> t.started.None?)
    decreases events
  {
    if events != [] {
      assert events[0] in events;
      StoppedFrom(Step(s, events[0], interval), events[1..], interval, latency);
    }
  }

  /** A request that has settled makes room: the next firing ticks, and a skipped one does not. */
  lemma FiringEffect(s: State, interval: nat, latency: nat)
    requires Enabled(s, Firing, latency)
    ensures var t, u := Step(s, Firing, interval), Step(Step(s, Settling, interval), Firing, interval);
            && t.starts == (if s.started.None? then s.starts + [s.now] else s.starts)
            && u.starts == s.starts + [s.now] && u.started == Some(s.now)
            && t.due == u.due == Some(s.now + interval)
  {
  }

  // ---------- Ticks never overlap ----------

  predicate OneAtATime(s: State) {
    |s.starts| == s.settled + (if s.started.Some? then 1 else 0)
  }

  /** Whatever is called and however long requests take, all ticks but the one in flight are over. */
  lemma {:induction false} NeverOverlap(s: State, events: seq<Event>, interval: nat)
    requires OneAtATime(s)
    ensures OneAtATime(Run(s, events, interval))
    decreases events
  {
    if events != [] {
      NeverOverlap(Step(s, events[0], interval), events[1..], interval);
    }
  }

  // ---------- Redundant starts ----------

  function WithoutStarts(events: seq<Event>): seq<Event> {
    if events == [] then []
    else if events[0].Starting? then WithoutStarts(events[1..])
    else [events[0]] + WithoutStarts(events[1..])
  }

  function Firings(events: seq<Event>): nat {
    if events == [] then 0 else (if events[0].Firing? then 1 else 0) + Firings(events[1..])
  }

  /** While running, further calls of start() change nothing at all; firings stay on the beat. */
  lemma {:induction false} StartsAreRedundant(s: State, events: seq<Event>, interval: nat)
    requires s.due.Some? && Stopping !in events
    ensures Run(s, WithoutStarts(events), interval) == Run(s, events, interval)
    ensures Run(s, events, interval).due == Some(s.due.value + Firings(events) * interval)
    decreases events
  {
    if events != [] {
      var t, rest := Step(s, events[0], interval), events[1..];
      StartsAreRedundant(t, rest, interval);
      if !events[0].Starting? {
        assert WithoutStarts(events)[1..] == WithoutStarts(rest);
      }
      assert (1 + Firings(rest)) * interval == interval + Firings(rest) * interval;
    }
  }

  // ---------- The gap between ticks ----------

  /** The last time a tick began, or else when the poller was started. */
  function Reference(s: State, origin: int): int {
    if s.starts == [] then origin else s.starts[|s.starts| - 1]
  }

  function Times(q: nat, interval: nat): nat {
    q * interval
  }

  /** A whole number of intervals lies between two ticks, at most `most` of them. */
  ghost predicate Apart(a: int, b: int, interval: nat, most: nat) {
    exists q: nat :: 1 <= q <= most && b == a + Times(q, interval)
  }

  ghost predicate Spaced(starts: seq<int>, interval: nat, most: nat) {
    forall i | 0 < i < |starts| :: Apart(starts[i - 1], starts[i], interval, most)
  }

  /** The next firing is `q` intervals after the last tick began. */
  ghost predicate OnBeat(s: State, origin: int, interval: nat, latency: nat, q: nat)
    requires interval > 0
  {
    var most := latency / interval + 1;
    && 1 <= q <= most && s.due == Some(Reference(s, origin) + Times(q, interval))
    && s.now <= s.due.value
    && (s.started.Some? ==> s.starts != [] && s.started.value == Reference(s, origin) && s.now <= s.started.value + latency)
    && Spaced(s.starts, interval, most)
  }

  lemma TimesOrder(q: nat, r: nat, interval: nat)
    requires q <= r
    ensures Times(q, interval) <= Times(r, interval) && Times(q + 1, interval) == Times(q, interval) + interval
    ensures Times(1, interval) == interval
  {
    assert (r - q) * interval + q * interval == r * interval;
  }

  lemma SkipsFit(q: nat, interval: nat, latency: nat)
    requires interval > 0 && Times(q, interval) <= latency
    ensures q < latency / interval + 1
  {
    var most := latency / interval + 1;
    assert latency < Times(most, interval);
    if q >= most {
      TimesOrder(most, q, interval);
    }
  }

  lemma SpacedMore(starts: seq<int>, at: int, interval: nat, most: nat)
    requires Spaced(starts, interval, most)
    requires starts != [] ==> Apart(starts[|starts| - 1], at, interval, most)
    ensures Spaced(starts + [at], interval, most)
  {
  }

  lemma SkipOnBeat(s: State, origin: int, interval: nat, latency: nat, q: nat)
    requires interval > 0 && OnBeat(s, origin, interval, latency, q) && s.started.Some? && s.due == Some(s.now)
    ensures OnBeat(Step(s, Firing, interval), origin, interval, latency, q + 1)
  {
    SkipsFit(q, interval, latency);
    TimesOrder(q, q, interval);
  }

  lemma TickOnBeat(s: State, origin: int, interval: nat, latency: nat, q: nat)
    requires interval > 0 && OnBeat(s, origin, interval, latency, q) && s.started.None? && s.due == Some(s.now)
    ensures OnBeat(Step(s, Firing, interval), origin, interval, latency, 1)
  {
    var most := latency / interval + 1;
    if s.starts != [] {
      assert Apart(Reference(s, origin), s.now, interval, most);
    }
    SpacedMore(s.starts, s.now, interval, most);
    TimesOrder(1, 1, interval);
  }

  lemma StepOnBeat(s: State, e: Event, origin: int, interval: nat, latency: nat, q: nat) returns (q': nat)
    requires interval > 0 && OnBeat(s, origin, interval, latency, q) && Enabled(s, e, latency) && !e.Stopping?
    ensures OnBeat(Step(s, e, interval), origin, interval, latency, q')
  {
    q' := q;
    if e.Firing? {
      if s.started.Some? {
        SkipOnBeat(s, origin, interval, latency, q);
        q' := q + 1;
      } else {
        TickOnBeat(s, origin, interval, latency, q);
        q' := 1;
      }
    }
  }

  /**
   While the poller runs and requests settle within `latency`, ticks begin whole intervals
   apart, at most latency / interval + 1 of them, and the first within as many of the start.
   */
  lemma {:induction false} TicksSpaced(s: State, events: seq<Event>, origin: int, interval: nat, latency: nat, q: nat)
    returns (r: nat)
    requires interval > 0 && OnBeat(s, origin, interval, latency, q)
    requires AllEnabled(s, events, interval, latency) && Stopping !in events
    ensures OnBeat(Run(s, events, interval), origin, interval, latency, r)
    decreases events
  {
    r := q;
    if events != [] {
      r := StepOnBeat(s, events[0], origin, interval, latency, q);
      r := TicksSpaced(Step(s, events[0], interval), events[1..], origin, interval, latency, r);
    }
  }

  lemma GapBounds(a: int, b: int, interval: nat, most: nat)
    requires Apart(a, b, interval, most)
    ensures interval <= b - a <= most * interval
  {
    var q: nat :| 1 <= q <= most && b == a + Times(q, interval);
    TimesOrder(1, q, interval);
    TimesOrder(q, most, interval);
  }

  /** The bound in time units, from a poller started with or without an immediate tick. */
  lemma TickGap(now: int, immediately: bool, events: seq<Event>, interval: nat, latency: nat)
    requires interval > 0 && Stopping !in events
    requires AllEnabled(Start(Fresh(now), interval, immediately), events, interval, latency)
    ensures var starts := Run(Start(Fresh(now), interval, immediately), events, interval).starts;
            forall i | 0 < i < |starts| ::
              interval <= starts[i] - starts[i - 1] <= (latency / interval + 1) * interval
  {
    var s := Start(Fresh(now), interval, immediately);
    TimesOrder(1, 1, interval);
    assert OnBeat(s, now, interval, latency, 1);
    var _ := TicksSpaced(s, events, now, interval, latency, 1);
    var t := Run(s, events, interval);
    var most := latency / interval + 1;
    assert Spaced(t.starts, interval, most);
    forall i | 0 < i < |t.starts|
      ensures interval <= t.starts[i] - t.starts[i - 1] <= most * interval
    {
      GapBounds(t.starts[i - 1], t.starts[i], interval, most);
    }
  }

  /** The first tick has begun at `first`, or will. */
  predicate FirstAt(s: State, first: int) {
    && s.due.Some?
    && if s.starts == [] then s.due == Some(first) && s.started.None? else s.starts[0] == first
  }

  lemma {:induction false} FirstStays(s: State, events: seq<Event>, interval: nat, latency: nat, first: int)
    requires FirstAt(s, first) && AllEnabled(s, events, interval, latency) && Stopping !in events
    ensures FirstAt(Run(s, events, interval), first)
    decreases events
  {
    if events != [] {
      FirstStays(Step(s, events[0], interval), events[1..], interval, latency, first);
    }
  }

  /** A poller started without an immediate tick ticks first one interval later, whatever is called meanwhile. */
  lemma FirstTick(now: int, events: seq<Event>, interval: nat, latency: nat)
    requires Stopping !in events && AllEnabled(Start(Fresh(now), interval, false), events, interval, latency)
    ensures var starts := Run(Start(Fresh(now), interval, false), events, interval).starts;
            starts != [] ==> starts[0] == now + interval
  {
    FirstStays(Start(Fresh(now), interval, false), events, interval, latency, now + interval);
  }

  /** Requests shorter than the interval never cost a beat. */
  lemma SteadyBeat(now: int, immediately: bool, events: seq<Event>, interval: nat, latency: nat)
    requires latency < interval && Stopping !in events
    requires AllEnabled(Start(Fresh(now), interval, immediately), events, interval, latency)
    ensures var starts := Run(Start(Fresh(now), interval, immediately), events, interval).starts;
            forall i | 0 < i < |starts| :: starts[i] == starts[i - 1] + interval
  {
    TickGap(now, immediately, events, interval, latency);
    assert latency / interval == 0;
  }
}
