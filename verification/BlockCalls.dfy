/**
 How a block takes effect when handlers interleave at every store call: another handler's
 refresh that has read the old rows may write them after the block is over. This says when.
 */
module BlockCalls {
  import opened Basics
  import opened FriendGraph
  import opened ProfilesServer
  import opened FriendCalls
  import Presence
  import MapServer
  import BlockEffect

  // ---------- What Reachable means ----------

  ghost predicate Shows(c: Config, events: seq<Event>, user: UserId, friend: UserId) {
    var end := Execute(c, events);
    end.Some? && friend in Cached(end.value.cache, user)
  }

  /** Some schedule without an accept of the pair puts the friend into the user's cached set. */
  ghost predicate CanAppear(c: Config, user: UserId, friend: UserId) {
    exists events :: NeverAccepted(c, events, user, friend) && Shows(c, events, user, friend)
  }

  lemma AppearsSooner(c: Config, e: Event, user: UserId, friend: UserId)
    requires Enabled(c, e) && !AcceptsPair(c, e, user, friend) && CanAppear(Next(c, e), user, friend)
    ensures CanAppear(c, user, friend)
  {
    var events :| NeverAccepted(Next(c, e), events, user, friend) && Shows(Next(c, e), events, user, friend);
    var all := [e] + events;
    assert all[1..] == events;
    assert NeverAccepted(c, all, user, friend) && Shows(c, all, user, friend);
  }

  lemma CachedAppears(c: Config, user: UserId, friend: UserId)
    requires friend in Cached(c.cache, user)
    ensures CanAppear(c, user, friend)
  {
    assert NeverAccepted(c, [], user, friend) && Shows(c, [], user, friend);
  }

  /** A refresh in flight that holds the friend need only go on. */
  lemma SnapshotAppears(c: Config, tid: Tid, user: UserId, friend: UserId)
    requires tid in c.threads && Snapshot(c.threads[tid], user, friend)
    ensures CanAppear(c, user, friend)
  {
    var e := Step(tid, Acked);
    var d := Next(c, e);
    if c.threads[tid].FillSet? {
      CachedAppears(d, user, friend);
    } else {
      assert d.threads[tid].FillSet? && friend in d.threads[tid].ids;
      CachedAppears(Next(d, e), user, friend);
      AppearsSooner(d, e, user, friend);
    }
    AppearsSooner(c, e, user, friend);
  }

  lemma {:induction false} Unused(tids: set<Tid>) returns (tid: Tid)
    ensures forall t | t in tids :: t < tid
  {
    if tids == {} {
      tid := 0;
    } else {
      var t :| t in tids;
      var above := Unused(tids - {t});
      tid := if t < above then above else t + 1;
      assert forall u | u in tids :: u == t || u in tids - {t};
    }
  }

  /** A row is read again by any handler that refreshes the user: one that unfriends a stranger will do. */
  lemma RowAppears(c: Config, user: UserId, friend: UserId)
    requires Row(user, friend) in c.graph.friends && user != ""
    ensures CanAppear(c, user, friend)
  {
    var tid := Unused(c.threads.Keys);
    var stranger := user + friend + "?";
    assert |stranger| == |user| + |friend| + 1;
    var begin, step := Begin(tid, Remove(user, stranger)), Step(tid, Acked);
    var c1 := Next(c, begin);
    assert c1.threads[tid] == CommitRemove(user, stranger);
    var c2 := Next(c1, step);
    assert c2.threads[tid] == ReadRows(user, [stranger]) && Row(user, friend) in c2.graph.friends;
    var c3 := Next(c2, step);
    assert c3.threads[tid] == ClearSet(user, [stranger], FriendIds(c2.graph, user));
    SnapshotAppears(c3, tid, user, friend);
    AppearsSooner(c2, step, user, friend);
    AppearsSooner(c1, step, user, friend);
    AppearsSooner(c, begin, user, friend);
  }

  /** Without another accept, a friend can come into view exactly from a row, the cache or a refresh in flight. */
  lemma ReachableIff(c: Config, user: UserId, friend: UserId)
    requires user != ""
    ensures Reachable(c, user, friend) <==> CanAppear(c, user, friend)
  {
    if Row(user, friend) in c.graph.friends {
      RowAppears(c, user, friend);
    } else if friend in Cached(c.cache, user) {
      CachedAppears(c, user, friend);
    } else if tid :| tid in c.threads && Snapshot(c.threads[tid], user, friend) {
      SnapshotAppears(c, tid, user, friend);
    } else {
      forall events | NeverAccepted(c, events, user, friend)
        ensures !Shows(c, events, user, friend)
      {
        StaysUnreachable(c, events, user, friend);
      }
    }
  }

  // ---------- From the commit of a block to the end of its refresh ----------

  /** A handler other than `tid` has read the pair's row and not yet written it. */
  predicate HeldElsewhere(c: Config, tid: Tid, user: UserId, friend: UserId) {
    exists t | t in c.threads :: t != tid && Snapshot(c.threads[t], user, friend)
  }

  /** The row is gone, and the handler `tid` has not read it. */
  predicate Forgotten(c: Config, tid: Tid, user: UserId, friend: UserId) {
    Row(user, friend) !in c.graph.friends && (tid in c.threads ==> !Snapshot(c.threads[tid], user, friend))
  }

  lemma StepForgotten(c: Config, e: Event, tid: Tid, user: UserId, friend: UserId)
    requires Enabled(c, e) && Forgotten(c, tid, user, friend) && !AcceptsPair(c, e, user, friend)
    ensures Forgotten(Next(c, e), tid, user, friend)
  {
  }

  /** The row is there, or some handler, `tid` included, is about to write what it read of it. */
  predicate Lingers(c: Config, user: UserId, friend: UserId) {
    Row(user, friend) in c.graph.friends || exists t | t in c.threads :: Snapshot(c.threads[t], user, friend)
  }

  /** A handler deletes the user's cached set: the friend can come back only from a row or a refresh in flight. */
  lemma ClearedIff(c: Config, tid: Tid, user: UserId, friend: UserId)
    requires user != "" && tid in c.threads && c.threads[tid].ClearSet? && c.threads[tid].user == user
    ensures CanAppear(Next(c, Step(tid, Acked)), user, friend) <==> Lingers(c, user, friend)
    ensures Reachable(Next(c, Step(tid, Acked)), user, friend) <==> Lingers(c, user, friend)
  {
    var d := Next(c, Step(tid, Acked));
    ReachableIff(d, user, friend);
    assert Cached(d.cache, user) == {} && d.graph == c.graph;
    if t :| t in c.threads && Snapshot(c.threads[t], user, friend) {
      assert t in d.threads && Snapshot(d.threads[t], user, friend);
    }
  }

  predicate StepsAcked(events: seq<Event>, tid: Tid) {
    forall e | e in events && e.Step? && e.tid == tid :: e.reply.Acked?
  }

  /** The handler has yet to delete the user's cached set, and no call of its own has failed. */
  predicate WillClear(l: Local, user: UserId) {
    match l
    case ReadRows(u, rest) => user in [u] + rest
    case ClearSet(u, rest, _) => user in [u] + rest
    case FillSet(_, rest, _, cleared) => user in rest && cleared.Acked?
    case _ => false
  }

  /** The n-th event is the handler's deletion of the user's cached set, in configuration `d`. */
  predicate ClearsAt(c: Config, events: seq<Event>, n: nat, tid: Tid, user: UserId, d: Config) {
    && n < |events| && events[n] == Step(tid, Acked)
    && Execute(c, events[..n]) == Some(d)
    && tid in d.threads && d.threads[tid].ClearSet? && d.threads[tid].user == user
  }

  /** A handler that ends with all its calls acknowledged has cleared the user's set on the way. */
  lemma {:induction false} ClearComes(c: Config, events: seq<Event>, tid: Tid, user: UserId)
    returns (n: nat, d: Config)
    requires tid in c.threads && WillClear(c.threads[tid], user) && StepsAcked(events, tid)
    requires Execute(c, events).Some? && tid !in Execute(c, events).value.threads
    ensures ClearsAt(c, events, n, tid, user, d)
    ensures Execute(Next(d, events[n]), events[n + 1..]) == Execute(c, events)
    decreases events
  {
    var l, e, rest := c.threads[tid], events[0], events[1..];
    assert e in events && forall f | f in rest :: f in events;
    if e.Step? && e.tid == tid && l.ClearSet? && l.user == user {
      n, d := 0, c;
    } else {
      n, d := ClearComes(Next(c, e), rest, tid, user);
      assert events[..n + 1][1..] == rest[..n];
      assert events[n + 2..] == rest[n + 1..];
      n := n + 1;
    }
  }

  /** Without an accept of the pair the row stays gone and the handler does not read it. */
  lemma {:induction false} StaysForgotten(c: Config, events: seq<Event>, n: nat, d: Config, tid: Tid, user: UserId, friend: UserId)
    requires n <= |events| && Execute(c, events[..n]) == Some(d)
    requires Forgotten(c, tid, user, friend) && NeverAccepted(c, events, user, friend)
    ensures Forgotten(d, tid, user, friend) && NeverAccepted(d, events[n..], user, friend)
    decreases n
  {
    if n > 0 {
      StepForgotten(c, events[0], tid, user, friend);
      assert events[..n][1..] == events[1..][..n - 1] && events[n..] == events[1..][n - 1..];
      StaysForgotten(Next(c, events[0]), events[1..], n - 1, d, tid, user, friend);
    }
  }

  lemma {:induction false} StaysOut(c: Config, events: seq<Event>, user: UserId, friend: UserId)
    requires !Reachable(c, user, friend) && NeverAccepted(c, events, user, friend) && Execute(c, events).Some?
    ensures !Reachable(Execute(c, events).value, user, friend)
    decreases events
  {
    if events != [] {
      StepUnreachable(c, events[0], user, friend);
      StaysOut(Next(c, events[0]), events[1..], user, friend);
    }
  }

  /**
   A block that commits in `c` and runs to its end with all calls acknowledged, among any
   other handlers. When it has deleted the user's cached set, the other can come into view
   again without an accept still to come if and only if the row or a read of it lingers.
   */
  lemma BlockTakesEffectIff(c: Config, tid: Tid, a: UserId, b: UserId, events: seq<Event>, user: UserId, friend: UserId)
    returns (n: nat, d: Config)
    requires tid in c.threads && c.threads[tid] == CommitBlock(a, b)
    requires user != "" && (user, friend) in {(a, b), (b, a)}
    requires var committed := Next(c, Step(tid, Acked));
             StepsAcked(events, tid) && Execute(committed, events).Some? && tid !in Execute(committed, events).value.threads
    ensures ClearsAt(Next(c, Step(tid, Acked)), events, n, tid, user, d)
    ensures Execute(Next(d, Step(tid, Acked)), events[n + 1..]) == Execute(Next(c, Step(tid, Acked)), events)
    ensures CanAppear(Next(d, Step(tid, Acked)), user, friend) <==> Lingers(d, user, friend)
  {
    var committed := Next(c, Step(tid, Acked));
    assert committed.threads[tid] == ReadRows(a, [b]);
    n, d := ClearComes(committed, events, tid, user);
    ClearedIff(d, tid, user, friend);
  }

  /**
   The same when no accept of the pair commits after the block: only another handler that
   read the row before can bring it back, and if none holds it when the set is deleted, the
   other is out of view at the end and from then on.
   */
  lemma BlockLastsIff(c: Config, tid: Tid, a: UserId, b: UserId, events: seq<Event>, user: UserId, friend: UserId)
    returns (n: nat, d: Config)
    requires tid in c.threads && c.threads[tid] == CommitBlock(a, b)
    requires user != "" && (user, friend) in {(a, b), (b, a)}
    requires var committed := Next(c, Step(tid, Acked));
             && StepsAcked(events, tid) && NeverAccepted(committed, events, user, friend)
             && Execute(committed, events).Some? && tid !in Execute(committed, events).value.threads
    ensures ClearsAt(Next(c, Step(tid, Acked)), events, n, tid, user, d)
    ensures CanAppear(Next(d, Step(tid, Acked)), user, friend) <==> HeldElsewhere(d, tid, user, friend)
    ensures !HeldElsewhere(d, tid, user, friend) ==>
              var end := Execute(Next(c, Step(tid, Acked)), events).value;
              !Reachable(end, user, friend) && !CanAppear(end, user, friend)
  {
    var committed := Next(c, Step(tid, Acked));
    n, d := BlockTakesEffectIff(c, tid, a, b, events, user, friend);
    StaysForgotten(committed, events, n, d, tid, user, friend);
    assert Lingers(d, user, friend) <==> HeldElsewhere(d, tid, user, friend);
    if !HeldElsewhere(d, tid, user, friend) {
      ClearedIff(d, tid, user, friend);
      assert events[n..][1..] == events[n + 1..];
      StaysOut(Next(d, events[n]), events[n + 1..], user, friend);
      ReachableIff(Execute(committed, events).value, user, friend);
    }
  }

  /** What Map shows to whom, given the cached sets of a configuration and any presence. */
  ghost predicate Unseen(c: Config, presence: Presence.State, user: UserId, friend: UserId) {
    var s := BlockEffect.Services(World(c.graph, c.cache), presence);
    && !BlockEffect.SeenOnMap(s, user, friend)
    && (forall listing, table, replies :: !BlockEffect.Pinned(s, listing, table, replies, user, friend))
  }

  lemma UncachedUnseen(c: Config, presence: Presence.State, user: UserId, friend: UserId)
    requires friend !in Cached(c.cache, user)
    ensures Unseen(c, presence, user, friend)
  {
    var s := BlockEffect.Services(World(c.graph, c.cache), presence);
    BlockEffect.NotOnMap(s, user, friend);
    forall listing, table, replies
      ensures !BlockEffect.Pinned(s, listing, table, replies, user, friend)
    {
      BlockEffect.NotPinned(s, listing, table, replies, user, friend);
    }
  }

  /**
   Across services, with handlers interleaved call by call: if at the block's two deletions
   no other handler held old rows of the pair, then from its end on neither user is shown to
   the other, at any object or as a pin, until an accept of the pair commits.
   */
  lemma BlockIsEffectiveAtCalls(c: Config, tid: Tid, a: UserId, b: UserId, events: seq<Event>)
    returns (n: nat, d: Config, n': nat, d': Config)
    requires tid in c.threads && c.threads[tid] == CommitBlock(a, b) && a != "" && b != ""
    requires var committed := Next(c, Step(tid, Acked));
             && StepsAcked(events, tid) && NeverAccepted(committed, events, a, b)
             && Execute(committed, events).Some? && tid !in Execute(committed, events).value.threads
    ensures ClearsAt(Next(c, Step(tid, Acked)), events, n, tid, a, d)
    ensures ClearsAt(Next(c, Step(tid, Acked)), events, n', tid, b, d')
    ensures !HeldElsewhere(d, tid, a, b) && !HeldElsewhere(d', tid, b, a) ==>
              var end := Execute(Next(c, Step(tid, Acked)), events).value;
              forall later, presence | NeverAccepted(end, later, a, b) && Execute(end, later).Some? ::
                Unseen(Execute(end, later).value, presence, a, b) && Unseen(Execute(end, later).value, presence, b, a)
  {
    var committed := Next(c, Step(tid, Acked));
    AcceptedEitherWay(committed, events, a, b);
    n, d := BlockLastsIff(c, tid, a, b, events, a, b);
    n', d' := BlockLastsIff(c, tid, a, b, events, b, a);
    if !HeldElsewhere(d, tid, a, b) && !HeldElsewhere(d', tid, b, a) {
      var end := Execute(committed, events).value;
      forall later, presence | NeverAccepted(end, later, a, b) && Execute(end, later).Some?
        ensures Unseen(Execute(end, later).value, presence, a, b) && Unseen(Execute(end, later).value, presence, b, a)
      {
        AcceptedEitherWay(end, later, a, b);
        StaysUnreachable(end, later, a, b);
        StaysUnreachable(end, later, b, a);
        UncachedUnseen(Execute(end, later).value, presence, a, b);
        UncachedUnseen(Execute(end, later).value, presence, b, a);
      }
    }
  }

  lemma {:induction false} AcceptedEitherWay(c: Config, events: seq<Event>, a: UserId, b: UserId)
    ensures NeverAccepted(c, events, a, b) <==> NeverAccepted(c, events, b, a)
    decreases events
  {
    if events != [] && Enabled(c, events[0]) {
      AcceptedEitherWay(Next(c, events[0]), events[1..], a, b);
    }
  }
}
