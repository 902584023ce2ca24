/**
 The client's heartbeat against the server's time to live: whether presence outlasts beats
 that fail. Beats begin as the poller spaces them and reach the server within the latency.
 The mark that begins a walk counts as a beat that reached the server before the poller started.
 */
module Heartbeat {
  import opened Basics
  import Poller
  import Presence

  const HEARTBEAT := 120
  const PRESENCE_TTL := 900

  /** What became of one beat: a failed beat marks nothing. */
  datatype Beat = Beat(start: int, applied: int, ok: bool)

  /** Beats begin `interval` apart and take effect within `latency`, the first one up to `early` before its time. */
  ghost predicate Regular(beats: seq<Beat>, interval: nat, early: nat, latency: nat) {
    && (forall i | 0 < i < |beats| :: beats[i].start == beats[i - 1].start + interval)
    && (forall i | 0 <= i < |beats| ::
          beats[i].start - (if i == 0 then early else 0) <= beats[i].applied <= beats[i].start + latency)
  }

  lemma {:induction false} StartOf(beats: seq<Beat>, interval: nat, early: nat, latency: nat, i: nat, j: nat)
    requires Regular(beats, interval, early, latency) && i <= j < |beats|
    ensures beats[j].start == beats[i].start + (j - i) * interval
    decreases j
  {
    if i < j {
      StartOf(beats, interval, early, latency, i, j - 1);
      assert (j - i) * interval == (j - 1 - i) * interval + interval;
    }
  }

  /** The longest the server can wait for the next mark when `failures` beats in a row fail. */
  function WorstGap(failures: nat, interval: nat, early: nat, latency: nat): nat {
    (failures + 1) * interval + early + latency
  }

  /** The beat after `failures` failed ones still finds the key that beat `i` set. */
  predicate InTime(beats: seq<Beat>, i: nat, failures: nat, ttl: nat) {
    i + failures + 1 < |beats| ==> beats[i + failures + 1].applied < beats[i].applied + ttl
  }

  /** Whatever the latencies, a mark is renewed in time: exactly when the worst gap is shorter than the time to live. */
  lemma SurvivesIff(failures: nat, interval: nat, early: nat, latency: nat, ttl: nat)
    ensures (forall beats: seq<Beat>, i: nat | Regular(beats, interval, early, latency) :: InTime(beats, i, failures, ttl))
       <==> WorstGap(failures, interval, early, latency) < ttl
  {
    if WorstGap(failures, interval, early, latency) < ttl {
      forall beats: seq<Beat>, i: nat | Regular(beats, interval, early, latency)
        ensures InTime(beats, i, failures, ttl)
      {
        if i + failures + 1 < |beats| {
          StartOf(beats, interval, early, latency, i, i + failures + 1);
        }
      }
    } else {
      var worst := Worst(failures, interval, early, latency);
      WorstRegular(failures, interval, early, latency);
      assert !InTime(worst, 0, failures, ttl);
    }
  }

  /** A first beat that is applied as early as can be and a last one that takes the whole latency. */
  function Worst(failures: nat, interval: nat, early: nat, latency: nat): seq<Beat> {
    seq(failures + 2, k requires 0 <= k < failures + 2 =>
      Beat(k * interval, k * interval + (if k == failures + 1 then latency else if k == 0 then 0 - early as int else 0),
           k == 0 || k == failures + 1))
  }

  lemma WorstRegular(failures: nat, interval: nat, early: nat, latency: nat)
    ensures Regular(Worst(failures, interval, early, latency), interval, early, latency)
  {
    var worst := Worst(failures, interval, early, latency);
    forall k | 0 < k < |worst|
      ensures worst[k].start == worst[k - 1].start + interval
    {
      assert k * interval == (k - 1) * interval + interval;
    }
  }

  /** An early first mark and a slow last request together must not use up the time to live. */
  predicate Prompt(early: nat, latency: nat) {
    latency < HEARTBEAT && early + latency < 180
  }

  /** With the configured numbers: any five failures are survived exactly below 180 seconds, six exactly below 60. */
  lemma FiveFailures(early: nat, latency: nat)
    ensures (forall f: nat | f <= 5 :: WorstGap(f, HEARTBEAT, early, latency) < PRESENCE_TTL) <==> early + latency < 180
    ensures WorstGap(6, HEARTBEAT, early, latency) < PRESENCE_TTL <==> early + latency < 60
    ensures latency < HEARTBEAT ==> forall f: nat :: WorstGap(f, HEARTBEAT, 0, latency) < (f + 2) * HEARTBEAT
  {
    assert WorstGap(5, HEARTBEAT, early, latency) == 720 + early + latency;
  }

  // ---------- Marks on the server ----------

  /** When the beats that succeeded marked the user. */
  function Marks(beats: seq<Beat>): seq<int> {
    if beats == [] then []
    else
      var rest := Marks(beats[..|beats| - 1]);
      if beats[|beats| - 1].ok then rest + [beats[|beats| - 1].applied] else rest
  }

  /** Every mark comes before the one before it has run out. */
  predicate Renewed(marks: seq<int>, ttl: int) {
    forall i | 0 < i < |marks| :: marks[i] < marks[i - 1] + ttl
  }

  predicate SomeOk(beats: seq<Beat>, i: nat, failures: nat) {
    exists j :: i <= j <= i + failures && j < |beats| && beats[j].ok
  }

  /** Never more than `failures` beats fail in a row, and the first succeeds. */
  ghost predicate FewFailures(beats: seq<Beat>, failures: nat) {
    && (beats != [] ==> beats[0].ok)
    && forall i: nat | i + failures < |beats| :: SomeOk(beats, i, failures)
  }

  /** The last beat that succeeded gave the last mark, and it is recent. */
  lemma {:induction false} LastMark(beats: seq<Beat>, failures: nat) returns (j: nat)
    requires beats != [] && FewFailures(beats, failures)
    ensures j < |beats| <= j + failures + 1 && beats[j].ok && forall k | j < k < |beats| :: !beats[k].ok
    ensures Marks(beats) != [] && Marks(beats)[|Marks(beats)| - 1] == beats[j].applied
    decreases |beats|
  {
    var last := |beats| - 1;
    if beats[last].ok {
      j := last;
    } else {
      FewerBeats(beats, failures);
      j := LastMark(beats[..last], failures);
      assert forall k | j < k < last :: !beats[..last][k].ok && beats[..last][k] == beats[k];
      assert j + failures + 1 == last ==> SomeOk(beats, j + 1, failures);
    }
  }

  lemma FewerBeats(beats: seq<Beat>, failures: nat)
    requires |beats| > 1 && FewFailures(beats, failures)
    ensures FewFailures(beats[..|beats| - 1], failures)
  {
    var before := beats[..|beats| - 1];
    forall i: nat | i + failures < |before|
      ensures SomeOk(before, i, failures)
    {
      assert SomeOk(beats, i, failures);
      var k :| i <= k <= i + failures && k < |beats| && beats[k].ok;
      assert before[k].ok;
    }
  }

  lemma {:induction false} MarksRenewed(beats: seq<Beat>, failures: nat, interval: nat, early: nat, latency: nat, ttl: nat)
    requires Regular(beats, interval, early, latency) && FewFailures(beats, failures)
    requires WorstGap(failures, interval, early, latency) < ttl
    ensures Renewed(Marks(beats), ttl)
    decreases |beats|
  {
    if |beats| > 1 {
      var last := |beats| - 1;
      var before := beats[..last];
      FewerBeats(beats, failures);
      MarksRenewed(before, failures, interval, early, latency, ttl);
      var j := LastMark(before, failures);
      GapWithin(beats, failures, interval, early, latency, j, last);
      assert before[j] == beats[j];
    }
  }

  lemma GapWithin(beats: seq<Beat>, failures: nat, interval: nat, early: nat, latency: nat, i: nat, j: nat)
    requires Regular(beats, interval, early, latency) && i <= j < |beats| && j <= i + failures + 1
    ensures beats[j].applied - beats[i].applied <= WorstGap(failures, interval, early, latency)
  {
    StartOf(beats, interval, early, latency, i, j);
    Poller.TimesOrder(j - i, failures + 1, interval);
    assert beats[j].start == beats[i].start + Poller.Times(j - i, interval);
    assert WorstGap(failures, interval, early, latency) == Poller.Times(failures + 1, interval) + early + latency;
  }

  /** The mark that sets the user's key, whether or not its caller learns of it. */
  predicate Sets(e: Presence.Event, user: UserId) {
    e.Mark? && e.user == user && !e.replies.sadd.Failed() && e.replies.setex.Applied()
  }

  /** The times at which a run of the presence service sets the user's key. */
  function MarkTimes(s: Presence.State, es: seq<Presence.Event>, ttl: int, user: UserId): seq<int>
    decreases es
  {
    if es == [] then []
    else
      var rest := MarkTimes(Presence.Step(s, es[0], ttl), es[1..], ttl, user);
      if Sets(es[0], user) then [s.now] + rest else rest
  }

  lemma {:induction false} TimePasses(s: Presence.State, es: seq<Presence.Event>, ttl: int, user: UserId)
    ensures Presence.Run(s, es, ttl).now >= s.now
    ensures var times := MarkTimes(s, es, ttl, user); times != [] ==> times[0] >= s.now
    decreases es
  {
    if es != [] {
      TimePasses(Presence.Step(s, es[0], ttl), es[1..], ttl, user);
    }
  }

  /** The user is only ever marked at `obj` and never cleared. */
  predicate StaysAt(es: seq<Presence.Event>, user: UserId, obj: ObjectId) {
    forall e | e in es :: (e.Mark? && e.user == user ==> e.obj == obj) && !(e.Clear? && e.user == user)
  }

  /** Marks that are renewed in time keep the user present, whatever else happens on the server. */
  lemma {:induction false} Held(s: Presence.State, es: seq<Presence.Event>, ttl: nat, user: UserId, obj: ObjectId, mark: int)
    requires user in s.presence && s.presence[user] == Presence.Entry(obj, mark + ttl) && ttl > 0
    requires StaysAt(es, user, obj) && Renewed([mark] + MarkTimes(s, es, ttl, user), ttl)
    requires var marks := [mark] + MarkTimes(s, es, ttl, user); Presence.Run(s, es, ttl).now < marks[|marks| - 1] + ttl
    ensures Presence.CurrentObject(Presence.Run(s, es, ttl), user) == obj && user in Presence.Run(s, es, ttl).presence
    decreases es
  {
    if es != [] {
      var t := Presence.Step(s, es[0], ttl);
      var all, rest := [mark] + MarkTimes(s, es, ttl, user), MarkTimes(t, es[1..], ttl, user);
      TimePasses(t, es[1..], ttl, user);
      if Sets(es[0], user) {
        assert all[1..] == [s.now] + rest;
        assert forall i | 0 < i < |all[1..]| :: all[1..][i] == all[i + 1] && all[1..][i - 1] == all[i];
        Held(t, es[1..], ttl, user, obj, s.now);
      } else {
        assert t.now < mark + ttl by {
          if rest != [] {
            assert all[1] == rest[0] && all[0] == mark;
          }
        }
        Held(t, es[1..], ttl, user, obj, mark);
      }
    }
  }

  /** The beats that are over: one that is still in flight and has marked nothing does not count. */
  function Over(beats: seq<Beat>, inFlight: bool): seq<Beat> {
    if inFlight && beats != [] && !beats[|beats| - 1].ok then beats[..|beats| - 1] else beats
  }

  /** While the poller runs, the present is close to its last tick, or to its start if there was none. */
  lemma NextTickSoon(now: int, ticks: seq<Poller.Event>, latency: nat)
    requires latency < HEARTBEAT && Poller.Stopping !in ticks
    requires Poller.AllEnabled(Poller.Start(Poller.Fresh(now), HEARTBEAT, false), ticks, HEARTBEAT, latency)
    ensures var end := Poller.Run(Poller.Start(Poller.Fresh(now), HEARTBEAT, false), ticks, HEARTBEAT);
            end.now <= Poller.Reference(end, now) + (if end.started.Some? then latency else HEARTBEAT)
  {
    var s := Poller.Start(Poller.Fresh(now), HEARTBEAT, false);
    Poller.TimesOrder(1, 1, HEARTBEAT);
    assert Poller.OnBeat(s, now, HEARTBEAT, latency, 1);
    var q := Poller.TicksSpaced(s, ticks, now, HEARTBEAT, latency, 1);
    assert latency / HEARTBEAT == 0 && q == 1;
  }

  lemma OverMarks(beats: seq<Beat>, inFlight: bool)
    ensures Marks(Over(beats, inFlight)) == Marks(beats)
  {
  }

  /** With at most five failures since the last mark, and perhaps a beat in flight, the last mark is recent. */
  lemma MarkIsRecent(beats: seq<Beat>, inFlight: bool, early: nat, latency: nat, now: int)
    requires Prompt(early, latency)
    requires beats != [] && Regular(beats, HEARTBEAT, early, latency) && FewFailures(Over(beats, inFlight), 5)
    requires Marks(beats) != [] && now <= beats[|beats| - 1].start + (if inFlight then latency else HEARTBEAT)
    ensures now < Marks(beats)[|Marks(beats)| - 1] + PRESENCE_TTL
  {
    var over := Over(beats, inFlight);
    OverMarks(beats, inFlight);
    var j := LastMark(over, 5);
    StartOf(beats, HEARTBEAT, early, latency, j, |beats| - 1);
    assert over[j] == beats[j] && |beats| - 1 - j <= if |over| == |beats| then 5 else 6;
  }

  /** The server's side: regular beats keep the user present until one interval after the last. */
  lemma BeatsHold(beats: seq<Beat>, inFlight: bool, early: nat, latency: nat, s: Presence.State, es: seq<Presence.Event>,
                  user: UserId, obj: ObjectId)
    requires Prompt(early, latency) && beats != []
    requires Regular(beats, HEARTBEAT, early, latency) && FewFailures(Over(beats, inFlight), 5)
    requires user in s.presence && s.presence[user] == Presence.Entry(obj, beats[0].applied + PRESENCE_TTL)
    requires StaysAt(es, user, obj) && [beats[0].applied] + MarkTimes(s, es, PRESENCE_TTL, user) == Marks(beats)
    requires Presence.Run(s, es, PRESENCE_TTL).now <= beats[|beats| - 1].start + (if inFlight then latency else HEARTBEAT)
    ensures Presence.CurrentObject(Presence.Run(s, es, PRESENCE_TTL), user) == obj
    ensures user in Presence.Run(s, es, PRESENCE_TTL).presence
  {
    MarkIsRecent(beats, inFlight, early, latency, Presence.Run(s, es, PRESENCE_TTL).now);
    FiveFailures(early, latency);
    MarksRenewed(Over(beats, inFlight), 5, HEARTBEAT, early, latency, PRESENCE_TTL);
    OverMarks(beats, inFlight);
    Held(s, es, PRESENCE_TTL, user, obj, beats[0].applied);
  }

  /** The mark that begins a walk at `mark`, and then the poller's beats. */
  function Walk(now: int, mark: int, beats: seq<Beat>): seq<Beat> {
    [Beat(now, mark, true)] + beats
  }

  /**
   A walk begins with a mark; the poller starts at most `early` seconds later and gives its
   first beat one interval after that. While it runs and requests settle within the interval, the
   walk is visible at every moment up to the present, as long as no six beats in a row have
   failed since the mark. The server's clock is not ahead of the client's.
   */
  lemma HeartbeatKeepsPresence(now: int, mark: int, early: nat, ticks: seq<Poller.Event>, latency: nat,
                               beats: seq<Beat>, s: Presence.State, es: seq<Presence.Event>, user: UserId, obj: ObjectId)
    requires Prompt(early, latency) && Poller.Stopping !in ticks && mark <= now <= mark + early
    requires Poller.AllEnabled(Poller.Start(Poller.Fresh(now), HEARTBEAT, false), ticks, HEARTBEAT, latency)
    requires var end := Poller.Run(Poller.Start(Poller.Fresh(now), HEARTBEAT, false), ticks, HEARTBEAT);
             && |beats| == |end.starts|
             && (forall i | 0 <= i < |beats| :: beats[i].start == end.starts[i] <= beats[i].applied <= end.starts[i] + latency)
             && FewFailures(Over(Walk(now, mark, beats), end.started.Some?), 5)
             && Presence.Run(s, es, PRESENCE_TTL).now <= end.now
    requires user in s.presence && s.presence[user] == Presence.Entry(obj, mark + PRESENCE_TTL)
    requires StaysAt(es, user, obj) && [mark] + MarkTimes(s, es, PRESENCE_TTL, user) == Marks(Walk(now, mark, beats))
    ensures Presence.CurrentObject(Presence.Run(s, es, PRESENCE_TTL), user) == obj
    ensures user in Presence.Run(s, es, PRESENCE_TTL).presence
  {
    var end := Poller.Run(Poller.Start(Poller.Fresh(now), HEARTBEAT, false), ticks, HEARTBEAT);
    var walk := Walk(now, mark, beats);
    Poller.SteadyBeat(now, false, ticks, HEARTBEAT, latency);
    Poller.FirstTick(now, ticks, HEARTBEAT, latency);
    NextTickSoon(now, ticks, latency);
    assert Regular(walk, HEARTBEAT, early, latency) by {
      assert forall i | 0 < i < |walk| :: walk[i] == beats[i - 1];
    }
    assert Poller.Reference(end, now) == walk[|walk| - 1].start;
    BeatsHold(walk, end.started.Some?, early, latency, s, es, user, obj);
  }
}
