/**
 What Map may see of a cached friend set while refreshes run: when a set is neither what it
 was nor what a refresh writes, and where its members come from.
 */
module FriendSets {
  import opened Basics
  import opened FriendGraph
  import opened ProfilesServer
  import opened FriendCalls

  // ---------- One refresh whose commands may fail ----------

  /** A refresh leaves the old or the new set: exactly when neither command of the two takes effect alone, or it does no harm. */
  lemma SetFriendsWholeIff(cache: Cache, user: UserId, ids: set<UserId>, del: Reply, sadd: Reply)
    ensures var was, now := Cached(cache, user), Cached(SetFriends(cache, user, ids, del, sadd).0, user);
            now in {was, ids} <==>
              || ids == {} || (del.Applied() <==> sadd.Applied())
              || (del.Applied() && was == {})
              || (sadd.Applied() && (was <= ids || ids <= was))
  {
    var was := Cached(cache, user);
    var cleared := if del.Applied() then cache - {user} else cache;
    assert Cached(cleared, user) == if del.Applied() then {} else was;
    assert {} + ids == ids;
    assert was + ids == was <==> ids <= was;
    assert was + ids == ids <==> was <= ids;
  }

  // ---------- Refreshes call by call ----------

  predicate Writes(c: Config, e: Event) {
    e.Step? && e.tid in c.threads && e.reply.Applied() && (c.threads[e.tid].ClearSet? || c.threads[e.tid].FillSet?)
  }

  /** A write leaves the set as it was, or as the handler read it. */
  predicate WritesWhole(c: Config, e: Event)
    requires Enabled(c, e)
  {
    Writes(c, e) ==>
      var l := c.threads[e.tid];
      Cached(Next(c, e).cache, l.user) in {Cached(c.cache, l.user), l.ids}
  }

  /** A DEL that is to be followed by a SADD empties a set; a SADD joins a set that is not part of its own, nor the other way round. */
  predicate Tears(c: Config, e: Event) {
    Writes(c, e) &&
    var l := c.threads[e.tid];
    var was := Cached(c.cache, l.user);
    if l.ClearSet? then was != {} && l.ids != {} else !(was <= l.ids) && !(l.ids <= was)
  }

  lemma StepWholeIff(c: Config, e: Event)
    requires Enabled(c, e)
    ensures WritesWhole(c, e) <==> !Tears(c, e)
    ensures Writes(c, e) && c.threads[e.tid].FillSet? ==>
              var l := c.threads[e.tid];
              Cached(Next(c, e).cache, l.user) == l.ids <==> Cached(c.cache, l.user) <= l.ids
  {
    if Writes(c, e) {
      var l := c.threads[e.tid];
      var was, now := Cached(c.cache, l.user), Cached(Next(c, e).cache, l.user);
      assert now == if l.ClearSet? then {} else was + l.ids;
      assert was + l.ids == l.ids <==> was <= l.ids;
      assert was + l.ids == was <==> l.ids <= was;
    }
  }

  ghost predicate AlwaysWhole(c: Config, events: seq<Event>)
    decreases events
  {
    events != [] && Enabled(c, events[0]) ==> WritesWhole(c, events[0]) && AlwaysWhole(Next(c, events[0]), events[1..])
  }

  ghost predicate NeverTears(c: Config, events: seq<Event>)
    decreases events
  {
    events != [] && Enabled(c, events[0]) ==> !Tears(c, events[0]) && NeverTears(Next(c, events[0]), events[1..])
  }

  /** Over whole schedules: Map never sees a partial set exactly when no DEL or SADD tears one. */
  lemma {:induction false} AlwaysWholeIff(c: Config, events: seq<Event>)
    ensures AlwaysWhole(c, events) <==> NeverTears(c, events)
    decreases events
  {
    if events != [] && Enabled(c, events[0]) {
      StepWholeIff(c, events[0]);
      AlwaysWholeIff(Next(c, events[0]), events[1..]);
    }
  }

  // ---------- Partial, but never invented ----------

  /** At some time the two were friends by consent. */
  ghost predicate OnceFriends(log: seq<Commit>, a: UserId, b: UserId) {
    exists n: nat :: n <= |log| && Consented(log[..n], a, b)
  }

  /** Cached friends, and those a refresh in flight is about to write, were once friends. */
  ghost predicate Remembered(c: Config) {
    forall user, friend :: friend in Cached(c.cache, user) || Held(c, user, friend) ==> OnceFriends(c.log, user, friend)
  }

  predicate Held(c: Config, user: UserId, friend: UserId) {
    exists tid | tid in c.threads :: Snapshot(c.threads[tid], user, friend)
  }

  lemma OnceStays(log: seq<Commit>, more: seq<Commit>, a: UserId, b: UserId)
    requires OnceFriends(log, a, b) && log <= more
    ensures OnceFriends(more, a, b)
  {
    var n: nat :| n <= |log| && Consented(log[..n], a, b);
    assert more[..n] == log[..n];
  }

  lemma FriendsNow(c: Config, user: UserId, friend: UserId)
    requires Consistent(c) && Row(user, friend) in c.graph.friends
    ensures OnceFriends(c.log, user, friend)
  {
    assert c.log[..|c.log|] == c.log;
  }

  /** A friend cached or held after a call was so before, or is in a row just read. */
  lemma WhereFrom(c: Config, e: Event, user: UserId, friend: UserId)
    requires Enabled(c, e) && (friend in Cached(Next(c, e).cache, user) || Held(Next(c, e), user, friend))
    ensures friend in Cached(c.cache, user) || Held(c, user, friend) || Row(user, friend) in c.graph.friends
    ensures c.log <= Next(c, e).log
  {
    if e.Step? {
      var l := c.threads[e.tid];
      if !Snapshot(l, user, friend) && Row(user, friend) !in c.graph.friends {
        FollowingUnheld(c.graph, l, e.reply, user, friend);
      }
    }
  }

  lemma FollowingUnheld(g: Graph, l: Local, reply: Reply, user: UserId, friend: UserId)
    requires !Snapshot(l, user, friend) && Row(user, friend) !in g.friends
    ensures var next := Following(g, l, reply); next.Some? ==> !Snapshot(next.value, user, friend)
  {
  }

  lemma NextRemembered(c: Config, e: Event)
    requires Consistent(c) && Remembered(c) && Enabled(c, e)
    ensures Remembered(Next(c, e))
  {
    var d := Next(c, e);
    forall user, friend | friend in Cached(d.cache, user) || Held(d, user, friend)
      ensures OnceFriends(d.log, user, friend)
    {
      WhereFrom(c, e, user, friend);
      if Row(user, friend) in c.graph.friends {
        FriendsNow(c, user, friend);
      }
      OnceStays(c.log, d.log, user, friend);
    }
  }

  lemma {:induction false} StaysRemembered(c: Config, events: seq<Event>)
    requires Consistent(c) && Remembered(c)
    ensures Execute(c, events).Some? ==> Remembered(Execute(c, events).value)
    decreases events
  {
    if events != [] && Enabled(c, events[0]) {
      NextRemembered(c, events[0]);
      NextConsistent(c, events[0]);
      StaysRemembered(Next(c, events[0]), events[1..]);
    }
  }

  /** Under every interleaving, with any calls failing: whoever is in a cached set once became a friend by consent. */
  lemma CachedOnceFriends(events: seq<Event>, user: UserId, friend: UserId)
    requires var end := Execute(IDLE, events); end.Some? && friend in Cached(end.value.cache, user)
    ensures OnceFriends(Execute(IDLE, events).value.log, user, friend)
  {
    StaysRemembered(IDLE, events);
  }
}
