/**
 The friend handlers split at every store and cache call, run concurrently. A handler that
 has checked something acts on it in a later call, so less survives than with atomic
 handlers; what does is consent.
 */
module FriendCalls {
  import opened Basics
  import opened FriendGraph
  import opened ProfilesServer

  type Tid = nat

  /** Where a handler in flight stands: the call it makes next. */
  datatype Local =
    | SendBlocked(caller: UserId, target: UserId, id: RequestId)
    | SendFriends(caller: UserId, target: UserId, id: RequestId)
    | SendPending(caller: UserId, target: UserId, id: RequestId)
    | SendInsert(caller: UserId, target: UserId, id: RequestId)
    | ReadRequest(caller: UserId, id: RequestId, accept: bool)
    | Resolve(caller: UserId, id: RequestId, request: Request, accept: bool)
    | CommitRemove(caller: UserId, target: UserId)
    | CommitBlock(caller: UserId, target: UserId)
    | CommitUnblock(caller: UserId, target: UserId)
    | ReadRows(user: UserId, rest: seq<UserId>)
    | ClearSet(user: UserId, rest: seq<UserId>, ids: set<UserId>)
    | FillSet(user: UserId, rest: seq<UserId>, ids: set<UserId>, cleared: Reply)

  /** A transaction that took effect, with the user who asked for it. */
  datatype Commit =
    | Sent(id: RequestId, actor: UserId, to: UserId)
    | AcceptedBy(id: RequestId, actor: UserId)
    | Unfriended(actor: UserId, other: UserId)
    | BlockedBy(actor: UserId, other: UserId)
  {
    /** The commit ends a friendship of these two. */
    predicate Ends(a: UserId, b: UserId) {
      (Unfriended? || BlockedBy?) && ((actor == a && other == b) || (actor == b && other == a))
    }
  }

  datatype Config = Config(graph: Graph, cache: Cache, threads: map<Tid, Local>, log: seq<Commit>)

  const IDLE := Config(FriendGraph.EMPTY, map[], map[], [])

  datatype Event =
    | Begin(tid: Tid, rpc: Rpc)
    | Step(tid: Tid, reply: Reply)

  /** The first call of a handler, or nothing when the input is refused without one. */
  function First(rpc: Rpc): Option<Local> {
    if rpc.caller == "" then None
    else
      match rpc
      case Respond(caller, id, accept) => Some(ReadRequest(caller, id, accept))
      case Send(caller, target, id) => if Refused(rpc) then None else Some(SendBlocked(caller, target, id))
      case Remove(caller, target) => if Refused(rpc) then None else Some(CommitRemove(caller, target))
      case Block(caller, target) => if Refused(rpc) then None else Some(CommitBlock(caller, target))
      case Unblock(caller, target) => if Refused(rpc) then None else Some(CommitUnblock(caller, target))
  }

  predicate Refused(rpc: Rpc)
    requires !rpc.Respond?
  {
    rpc.target == "" || rpc.target == rpc.caller
  }

  function Committed(c: Config, g: Graph, commit: seq<Commit>): Config {
    c.(graph := g, log := c.log + commit)
  }

  /** What a call that takes effect does to rows and cache. */
  function Effect(c: Config, l: Local): Config {
    var g := c.graph;
    match l
    case SendInsert(a, b, id) =>
      if CanInsert(g, id, a, b) then Committed(c, Inserted(g, id, a, b), [Sent(id, a, b)]) else c
    case Resolve(caller, id, r, accept) =>
      if accept then Committed(c, Accepting(g, id, r.sender, r.addressee), [AcceptedBy(id, caller)])
      else Committed(c, Declining(g, id), [])
    case CommitRemove(a, b) => Committed(c, Unfriending(g, a, b), [Unfriended(a, b)])
    case CommitBlock(a, b) => Committed(c, Blocking(g, a, b), [BlockedBy(a, b)])
    case CommitUnblock(a, b) => Committed(c, Unblocking(g, a, b), [])
    case ClearSet(user, _, _) => c.(cache := c.cache - {user})
    case FillSet(user, _, ids, _) => c.(cache := c.cache[user := Cached(c.cache, user) + ids])
    case _ => c
  }

  /** Goes on to refresh the cached sets of `users`, or ends. */
  function Rest(users: seq<UserId>): (r: Option<Local>)
    ensures |users| == 1 ==> r == Some(ReadRows(users[0], []))
  {
    if users == [] then None
    else
      assert |users| == 1 ==> users[1..] == [];
      Some(ReadRows(users[0], users[1..]))
  }

  /** The next call of a handler whose last call succeeded. */
  function Onward(g: Graph, l: Local): Option<Local> {
    match l
    case SendBlocked(a, b, id) => if IsBlockedEitherWay(g, a, b) then None else Some(SendFriends(a, b, id))
    case SendFriends(a, b, id) => if AreFriends(g, a, b) then None else Some(SendPending(a, b, id))
    case SendPending(a, b, id) => if HasPendingBetween(g, a, b) then None else Some(SendInsert(a, b, id))
    case ReadRequest(caller, id, accept) =>
      if !IsPending(g, id) || g.requests[id].addressee != caller then None
      else Some(Resolve(caller, id, g.requests[id], accept))
    case Resolve(_, _, r, accept) => if accept then Rest([r.sender, r.addressee]) else None
    case CommitRemove(a, b) => Rest([a, b])
    case CommitBlock(a, b) => Rest([a, b])
    case ReadRows(user, rest) => Some(ClearSet(user, rest, FriendIds(g, user)))
    case ClearSet(_, rest, _) => Rest(rest)
    case FillSet(_, rest, _, cleared) => if cleared.Failed() then None else Rest(rest)
    case SendInsert(_, _, _) => None
    case CommitUnblock(_, _) => None
  }

  /** A failed call ends the handler, but the pipeline sends SADD whether or not DEL failed. */
  function Following(g: Graph, l: Local, reply: Reply): Option<Local> {
    if l.ClearSet? && l.ids != {} then Some(FillSet(l.user, l.rest, l.ids, reply))
    else if reply.Failed() then None
    else Onward(g, l)
  }

  function Advance(c: Config, tid: Tid, next: Option<Local>): Config {
    c.(threads := if next.Some? then c.threads[tid := next.value] else c.threads - {tid})
  }

  /** One store or cache call of one handler. */
  function Take(c: Config, tid: Tid, reply: Reply): Config
    requires tid in c.threads
  {
    var l := c.threads[tid];
    Advance(if reply.Applied() then Effect(c, l) else c, tid, Following(c.graph, l, reply))
  }

  predicate Enabled(c: Config, e: Event) {
    if e.Begin? then e.tid !in c.threads else e.tid in c.threads
  }

  function Next(c: Config, e: Event): Config
    requires Enabled(c, e)
  {
    match e
    case Begin(tid, rpc) => Advance(c, tid, First(rpc))
    case Step(tid, reply) => Take(c, tid, reply)
  }

  /** The configuration a schedule reaches, if every event is enabled when it happens. */
  function Execute(c: Config, events: seq<Event>): Option<Config>
    decreases events
  {
    if events == [] then Some(c)
    else if !Enabled(c, events[0]) then None
    else Execute(Next(c, events[0]), events[1..])
  }

  // ---------- Consent ----------

  predicate SentBefore(log: seq<Commit>, id: RequestId, sender: UserId, addressee: UserId) {
    Sent(id, sender, addressee) in log
  }

  /** The i-th commit made these two friends: one accepted what the other had sent, and nothing ended it since. */
  ghost predicate MadeFriends(log: seq<Commit>, i: nat, sender: UserId, addressee: UserId) {
    && i < |log| && log[i].AcceptedBy? && log[i].actor == addressee
    && SentBefore(log[..i], log[i].id, sender, addressee)
    && forall k | i < k < |log| :: !log[k].Ends(sender, addressee)
  }

  ghost predicate Consented(log: seq<Commit>, a: UserId, b: UserId) {
    exists i: nat :: MadeFriends(log, i, a, b) || MadeFriends(log, i, b, a)
  }

  /** A handler about to resolve acts for the addressee of a request that was sent. */
  predicate HoldsRequest(log: seq<Commit>, l: Local) {
    l.Resolve? ==> l.caller == l.request.addressee && SentBefore(log, l.id, l.request.sender, l.request.addressee)
  }

  ghost predicate Consistent(c: Config) {
    && Symmetric(c.graph)
    && (forall row | row in c.graph.friends :: Consented(c.log, row.user, row.other))
    && (forall id | id in c.graph.requests :: SentBefore(c.log, id, c.graph.requests[id].sender, c.graph.requests[id].addressee))
    && (forall tid | tid in c.threads :: HoldsRequest(c.log, c.threads[tid]))
  }

  lemma ConsentedLater(log: seq<Commit>, commit: Commit, a: UserId, b: UserId)
    requires Consented(log, a, b) && !commit.Ends(a, b)
    ensures Consented(log + [commit], a, b)
  {
    var more := log + [commit];
    var i: nat :| MadeFriends(log, i, a, b) || MadeFriends(log, i, b, a);
    assert more[..i] == log[..i];
    assert commit.Ends(a, b) <==> commit.Ends(b, a);
    assert MadeFriends(log, i, a, b) ==> MadeFriends(more, i, a, b);
    assert MadeFriends(log, i, b, a) ==> MadeFriends(more, i, b, a);
  }

  lemma ConsentedNow(log: seq<Commit>, id: RequestId, sender: UserId, addressee: UserId)
    requires SentBefore(log, id, sender, addressee)
    ensures Consented(log + [AcceptedBy(id, addressee)], sender, addressee)
    ensures Consented(log + [AcceptedBy(id, addressee)], addressee, sender)
  {
    var more := log + [AcceptedBy(id, addressee)];
    assert more[..|log|] == log;
    assert MadeFriends(more, |log|, sender, addressee);
  }

  /** What one commit adds to a consistent configuration, before the handler moves on. */
  lemma CommitConsistent(c: Config, g: Graph, commit: Commit)
    requires Consistent(c) && Symmetric(g)
    requires forall row | row in g.friends ::
               || (row in c.graph.friends && !commit.Ends(row.user, row.other))
               || Consented(c.log + [commit], row.user, row.other)
    requires forall id | id in g.requests ::
               SentBefore(c.log + [commit], id, g.requests[id].sender, g.requests[id].addressee)
    ensures Consistent(c.(graph := g, log := c.log + [commit]))
  {
    forall row | row in g.friends
      ensures Consented(c.log + [commit], row.user, row.other)
    {
      if row in c.graph.friends && !commit.Ends(row.user, row.other) {
        ConsentedLater(c.log, commit, row.user, row.other);
      }
    }
  }

  lemma UnfriendingSymmetric(g: Graph, a: UserId, b: UserId)
    requires Symmetric(g)
    ensures Symmetric(Unfriending(g, a, b)) && Symmetric(Blocking(g, a, b))
  {
    var h := Unfriending(g, a, b);
    forall row | row in h.friends
      ensures row.Flipped() in h.friends
    {
      assert row.Flipped() in g.friends && row.Flipped().Flipped() == row;
    }
    assert Blocking(g, a, b).friends == h.friends;
  }

  lemma AcceptConsistent(c: Config, id: RequestId, r: Request)
    requires Consistent(c) && SentBefore(c.log, id, r.sender, r.addressee)
    ensures Consistent(Committed(c, Accepting(c.graph, id, r.sender, r.addressee), [AcceptedBy(id, r.addressee)]))
  {
    var g := c.graph;
    var h := Accepting(g, id, r.sender, r.addressee);
    ConsentedNow(c.log, id, r.sender, r.addressee);
    forall row | row in h.friends
      ensures row.Flipped() in h.friends
    {
      if row in g.friends {
        assert row.Flipped() in g.friends;
      }
    }
    CommitConsistent(c, h, AcceptedBy(id, r.addressee));
  }

  lemma EffectConsistent(c: Config, l: Local)
    requires Consistent(c) && HoldsRequest(c.log, l)
    ensures Consistent(Effect(c, l)) && c.log <= Effect(c, l).log && Effect(c, l).threads == c.threads
  {
    var g := c.graph;
    match l
    case SendInsert(a, b, id) =>
      if CanInsert(g, id, a, b) {
        CommitConsistent(c, Inserted(g, id, a, b), Sent(id, a, b));
      }
    case Resolve(caller, id, r, accept) =>
      if accept {
        AcceptConsistent(c, id, r);
      } else {
        assert Effect(c, l).log == c.log;
      }
    case CommitRemove(a, b) =>
      UnfriendingSymmetric(g, a, b);
      CommitConsistent(c, Unfriending(g, a, b), Unfriended(a, b));
    case CommitBlock(a, b) =>
      UnfriendingSymmetric(g, a, b);
      CommitConsistent(c, Blocking(g, a, b), BlockedBy(a, b));
    case CommitUnblock(a, b) =>
      assert Effect(c, l).log == c.log;
    case _ =>
  }

  lemma FollowingHolds(c: Config, l: Local, reply: Reply)
    requires Consistent(c)
    ensures var next := Following(c.graph, l, reply);
            next.Some? ==> HoldsRequest(c.log, next.value)
  {
  }

  lemma NextConsistent(c: Config, e: Event)
    requires Consistent(c) && Enabled(c, e)
    ensures Consistent(Next(c, e))
  {
    if e.Step? {
      var l := c.threads[e.tid];
      EffectConsistent(c, l);
      FollowingHolds(c, l, e.reply);
    }
  }

  lemma {:induction false} StaysConsistent(c: Config, events: seq<Event>)
    requires Consistent(c)
    ensures var end := Execute(c, events);
            end.Some? ==> Consistent(end.value)
    decreases events
  {
    if events != [] && Enabled(c, events[0]) {
      NextConsistent(c, events[0]);
      StaysConsistent(Next(c, events[0]), events[1..]);
    }
  }

  /**
   Under every interleaving of store calls, with any calls failing: friendship rows are
   symmetric, and each was inserted by an accept of the addressee of a request that the
   other user sent, with no removal or block of the pair committed since.
   */
  lemma Consent(events: seq<Event>)
    ensures var end := Execute(IDLE, events);
            end.Some? ==>
              forall row | row in end.value.graph.friends ::
                row.Flipped() in end.value.graph.friends && Consented(end.value.log, row.user, row.other)
  {
    StaysConsistent(IDLE, events);
  }

  predicate Logs(c: Config, d: Config, commit: Commit) {
    d.log == c.log + [commit]
  }

  /** The log leaves nothing out: rows, blocks and requests change only with the commit that says so. */
  lemma LogTells(c: Config, e: Event)
    requires Enabled(c, e) && Consistent(c)
    ensures var d := Next(c, e);
            && (forall row | row in c.graph.friends && row !in d.graph.friends ::
                  exists x: Commit :: Logs(c, d, x) && x.Ends(row.user, row.other))
            && (forall row | row in d.graph.friends && row !in c.graph.friends ::
                  exists id, actor :: Logs(c, d, AcceptedBy(id, actor)) && actor in {row.user, row.other})
            && (forall row | row in d.graph.blocks && row !in c.graph.blocks :: Logs(c, d, BlockedBy(row.user, row.other)))
            && (forall id | id in d.graph.requests && id !in c.graph.requests ::
                  Logs(c, d, Sent(id, d.graph.requests[id].sender, d.graph.requests[id].addressee)))
  {
    if e.Step? && e.reply.Applied() {
      var d := Next(c, e);
      match c.threads[e.tid]
      case Resolve(caller, id, r, accept) =>
        if accept {
          assert caller == r.addressee && Logs(c, d, AcceptedBy(id, caller));
        }
      case CommitRemove(a, b) => assert Logs(c, d, Unfriended(a, b));
      case CommitBlock(a, b) => assert Logs(c, d, BlockedBy(a, b));
      case _ =>
    }
  }

  // ---------- What interleaving breaks, and exactly when ----------

  /** An accept commits although one of the two has blocked the other: nothing checks it. */
  predicate AcceptsBlocked(c: Config, e: Event) {
    e.Step? && e.tid in c.threads && e.reply.Applied() &&
    var l := c.threads[e.tid];
    l.Resolve? && l.accept && IsBlockedEitherWay(c.graph, l.request.sender, l.request.addressee)
  }

  lemma BlockedApartIff(c: Config, e: Event)
    requires BlockedAreApart(c.graph) && Symmetric(c.graph) && Enabled(c, e)
    ensures BlockedAreApart(Next(c, e).graph) <==> !AcceptsBlocked(c, e)
  {
    var h := Next(c, e).graph;
    if AcceptsBlocked(c, e) {
      var r := c.threads[e.tid].request;
      assert Row(r.sender, r.addressee) in h.friends;
    }
  }

  /** In every configuration along the schedule blocked users are not friends. */
  ghost predicate AlwaysApart(c: Config, events: seq<Event>)
    decreases events
  {
    BlockedAreApart(c.graph) &&
    (events != [] && Enabled(c, events[0]) ==> AlwaysApart(Next(c, events[0]), events[1..]))
  }

  ghost predicate NeverAcceptsBlocked(c: Config, events: seq<Event>)
    decreases events
  {
    events != [] && Enabled(c, events[0]) ==>
      !AcceptsBlocked(c, events[0]) && NeverAcceptsBlocked(Next(c, events[0]), events[1..])
  }

  lemma {:induction false} ApartIff(c: Config, events: seq<Event>)
    requires Consistent(c) && BlockedAreApart(c.graph)
    ensures AlwaysApart(c, events) <==> NeverAcceptsBlocked(c, events)
    decreases events
  {
    if events != [] && Enabled(c, events[0]) {
      BlockedApartIff(c, events[0]);
      NextConsistent(c, events[0]);
      if !AcceptsBlocked(c, events[0]) {
        ApartIff(Next(c, events[0]), events[1..]);
      }
    }
  }

  /** Over whole schedules from the empty service: blocked users stay apart just when no accept commits between blocked users. */
  lemma AlwaysApartIff(events: seq<Event>)
    ensures AlwaysApart(IDLE, events) <==> NeverAcceptsBlocked(IDLE, events)
  {
    ApartIff(IDLE, events);
  }

  // ---------- Schedules in steps ----------

  predicate Path(configs: seq<Config>, events: seq<Event>) {
    && |configs| == |events| + 1
    && forall i | 0 <= i < |events| :: Enabled(configs[i], events[i]) && configs[i + 1] == Next(configs[i], events[i])
  }

  lemma {:induction false} PathExecutes(configs: seq<Config>, events: seq<Event>)
    requires Path(configs, events)
    ensures Execute(configs[0], events) == Some(configs[|events|])
    decreases events
  {
    if events != [] {
      PathExecutes(configs[1..], events[1..]);
    }
  }

  /** The events can happen one after the other from `c`, and end in `d`. */
  ghost predicate Leads(c: Config, events: seq<Event>, d: Config) {
    exists configs: seq<Config> :: Path(configs, events) && configs[0] == c && configs[|events|] == d
  }

  lemma LeadsAppend(c: Config, es: seq<Event>, d: Config, fs: seq<Event>, e: Config)
    requires Leads(c, es, d) && Leads(d, fs, e)
    ensures Leads(c, es + fs, e)
  {
    var first: seq<Config> :| Path(first, es) && first[0] == c && first[|es|] == d;
    var second: seq<Config> :| Path(second, fs) && second[0] == d && second[|fs|] == e;
    var all, events := first + second[1..], es + fs;
    forall i | 0 <= i < |events|
      ensures Enabled(all[i], events[i]) && all[i + 1] == Next(all[i], events[i])
    {
      if i < |es| {
        assert all[i] == first[i] && all[i + 1] == first[i + 1] && events[i] == es[i];
      } else {
        assert all[i] == second[i - |es|] && all[i + 1] == second[i + 1 - |es|] && events[i] == fs[i - |es|];
      }
    }
    assert Path(all, events);
  }

  lemma LeadsExecutes(c: Config, es: seq<Event>, d: Config)
    requires Leads(c, es, d)
    ensures Execute(c, es) == Some(d)
  {
    var configs: seq<Config> :| Path(configs, es) && configs[0] == c && configs[|es|] == d;
    PathExecutes(configs, es);
  }

  /** One event. */
  lemma LeadsOne(c: Config, e: Event, d: Config)
    requires Enabled(c, e) && d == Next(c, e)
    ensures Leads(c, [e], d)
  {
    assert Path([c, d], [e]);
  }

  // ---------- Where a cached friend can come from ----------

  /** A snapshot of the user's rows that a refresh in flight may still write. */
  predicate Snapshot(l: Local, user: UserId, friend: UserId) {
    (l.ClearSet? || l.FillSet?) && l.user == user && friend in l.ids
  }

  /** The friend is in the user's cached set, or can get there without another accept. */
  predicate Reachable(c: Config, user: UserId, friend: UserId) {
    || Row(user, friend) in c.graph.friends
    || friend in Cached(c.cache, user)
    || exists tid | tid in c.threads :: Snapshot(c.threads[tid], user, friend)
  }

  predicate AcceptsPair(c: Config, e: Event, a: UserId, b: UserId) {
    e.Step? && e.tid in c.threads && e.reply.Applied() &&
    var l := c.threads[e.tid];
    l.Resolve? && l.accept && l.request.Between(a, b)
  }

  ghost predicate NeverAccepted(c: Config, events: seq<Event>, a: UserId, b: UserId)
    decreases events
  {
    events != [] && Enabled(c, events[0]) ==>
      !AcceptsPair(c, events[0], a, b) && NeverAccepted(Next(c, events[0]), events[1..], a, b)
  }

  lemma EffectUnreachable(c: Config, l: Local, user: UserId, friend: UserId)
    requires Row(user, friend) !in c.graph.friends && friend !in Cached(c.cache, user)
    requires !Snapshot(l, user, friend) && !(l.Resolve? && l.accept && l.request.Between(user, friend))
    ensures Row(user, friend) !in Effect(c, l).graph.friends && friend !in Cached(Effect(c, l).cache, user)
  {
  }

  lemma FollowingUnreachable(g: Graph, l: Local, reply: Reply, user: UserId, friend: UserId)
    requires Row(user, friend) !in g.friends && !Snapshot(l, user, friend)
    ensures var next := Following(g, l, reply);
            next.Some? ==> !Snapshot(next.value, user, friend)
  {
  }

  lemma StepUnreachable(c: Config, e: Event, user: UserId, friend: UserId)
    requires Enabled(c, e) && !Reachable(c, user, friend) && !AcceptsPair(c, e, user, friend)
    ensures !Reachable(Next(c, e), user, friend)
  {
    if e.Step? {
      var l := c.threads[e.tid];
      assert !Snapshot(l, user, friend);
      if e.reply.Applied() {
        EffectUnreachable(c, l, user, friend);
      }
      FollowingUnreachable(c.graph, l, e.reply, user, friend);
    }
  }

  /** Once out of rows, cache and refreshes in flight, a friend stays invisible until an accept of the pair commits. */
  lemma {:induction false} StaysUnreachable(c: Config, events: seq<Event>, user: UserId, friend: UserId)
    requires !Reachable(c, user, friend) && NeverAccepted(c, events, user, friend)
    ensures var end := Execute(c, events);
            end.Some? ==> friend !in Cached(end.value.cache, user)
    decreases events
  {
    if events != [] && Enabled(c, events[0]) {
      StepUnreachable(c, events[0], user, friend);
      StaysUnreachable(Next(c, events[0]), events[1..], user, friend);
    }
  }
}
