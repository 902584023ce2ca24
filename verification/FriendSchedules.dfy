/**
 Schedules of the friend handlers, from the empty service and with every call acknowledged,
 in which something goes wrong that atomic handlers exclude.
 */
module FriendSchedules {
  import opened Basics
  import opened FriendGraph
  import opened ProfilesServer
  import opened FriendCalls
  import opened FriendChecks

  // ---------- What handlers do, in steps ----------

  /** A handler makes its three checks. */
  function Checking(tid: Tid, a: UserId, b: UserId, id: RequestId): seq<Event> {
    [Begin(tid, Send(a, b, id)), Step(tid, Acked), Step(tid, Acked), Step(tid, Acked)]
  }

  lemma CheckingEnds(c: Config, tid: Tid, a: UserId, b: UserId, id: RequestId)
    requires tid !in c.threads && a != b && a != "" && b != ""
    requires !Decided(c.graph, a, b) && !HasPendingBetween(c.graph, a, b)
    ensures Leads(c, Checking(tid, a, b, id), c.(threads := c.threads[tid := SendInsert(a, b, id)]))
  {
    var es := Checking(tid, a, b, id);
    var c1 := c.(threads := c.threads[tid := SendBlocked(a, b, id)]);
    var c2 := c.(threads := c.threads[tid := SendFriends(a, b, id)]);
    var c3 := c.(threads := c.threads[tid := SendPending(a, b, id)]);
    var c4 := c.(threads := c.threads[tid := SendInsert(a, b, id)]);
    assert c1 == Next(c, es[0]);
    assert c2 == Next(c1, es[1]);
    assert c3 == Next(c2, es[2]);
    assert c4 == Next(c3, es[3]);
    assert Path([c, c1, c2, c3, c4], es);
  }

  function Sending(tid: Tid, a: UserId, b: UserId, id: RequestId): seq<Event> {
    Checking(tid, a, b, id) + [Step(tid, Acked)]
  }

  lemma SendingEnds(c: Config, tid: Tid, a: UserId, b: UserId, id: RequestId)
    requires tid !in c.threads && a != b && a != "" && b != "" && id !in c.graph.requests
    requires !Decided(c.graph, a, b) && !HasPendingBetween(c.graph, a, b)
    ensures Leads(c, Sending(tid, a, b, id), Committed(c, Inserted(c.graph, id, a, b), [Sent(id, a, b)]))
  {
    CheckingEnds(c, tid, a, b, id);
    var d := c.(threads := c.threads[tid := SendInsert(a, b, id)]);
    assert CanInsert(c.graph, id, a, b) by {
      if PendingTaken(c.graph, a, b) {
        var jd :| jd in c.graph.requests && c.graph.requests[jd] == Request(a, b, Pending);
        assert IsPendingBetween(c.graph, jd, a, b);
      }
    }
    var end := Committed(c, Inserted(c.graph, id, a, b), [Sent(id, a, b)]);
    assert d.threads - {tid} == c.threads;
    LeadsOne(d, Step(tid, Acked), end);
    LeadsAppend(c, Checking(tid, a, b, id), d, [Step(tid, Acked)], end);
  }

  /** b accepts a's request, and the refresh that follows has read a's rows. */
  function Answering(tid: Tid, b: UserId, id: RequestId): seq<Event> {
    [Begin(tid, Respond(b, id, true)), Step(tid, Acked), Step(tid, Acked), Step(tid, Acked)]
  }

  lemma AnsweringEnds(c: Config, tid: Tid, a: UserId, b: UserId, id: RequestId)
    requires tid !in c.threads && b != "" && id in c.graph.requests && c.graph.requests[id] == Request(a, b, Pending)
    ensures var g := Accepting(c.graph, id, a, b);
            Leads(c, Answering(tid, b, id),
                  Config(g, c.cache, c.threads[tid := ClearSet(a, [b], FriendIds(g, a))], c.log + [AcceptedBy(id, b)]))
  {
    var es, g := Answering(tid, b, id), Accepting(c.graph, id, a, b);
    var log := c.log + [AcceptedBy(id, b)];
    var c1 := c.(threads := c.threads[tid := ReadRequest(b, id, true)]);
    var c2 := c.(threads := c.threads[tid := Resolve(b, id, Request(a, b, Pending), true)]);
    var c3 := Config(g, c.cache, c.threads[tid := ReadRows(a, [b])], log);
    var c4 := Config(g, c.cache, c.threads[tid := ClearSet(a, [b], FriendIds(g, a))], log);
    assert c1 == Next(c, es[0]);
    assert c2 == Next(c1, es[1]);
    assert c3 == Next(c2, es[2]);
    assert c4 == Next(c3, es[3]);
    assert Path([c, c1, c2, c3, c4], es);
  }

  /** a and b become friends, and the accept is about to write a's set. */
  function Befriending(tid: Tid, a: UserId, b: UserId, id: RequestId): seq<Event> {
    Sending(0, a, b, id) + Answering(tid, b, id)
  }

  lemma BefriendingEnds(c: Config, tid: Tid, a: UserId, b: UserId, id: RequestId) returns (end: Config)
    requires 0 !in c.threads && tid !in c.threads && a != b && a != "" && b != "" && id !in c.graph.requests
    requires c.graph.friends == {} && c.graph.blocks == {} && !HasPendingBetween(c.graph, a, b)
    ensures Leads(c, Befriending(tid, a, b, id), end)
    ensures end.threads == c.threads[tid := ClearSet(a, [b], {b})] && end.cache == c.cache
    ensures end.graph.friends == {Row(a, b), Row(b, a)} && end.graph.blocks == {}
    ensures end.graph.requests == c.graph.requests[id := Request(a, b, Accepted)]
  {
    SendingEnds(c, 0, a, b, id);
    var d := Committed(c, Inserted(c.graph, id, a, b), [Sent(id, a, b)]);
    AnsweringEnds(d, tid, a, b, id);
    var g := Accepting(d.graph, id, a, b);
    end := Config(g, d.cache, d.threads[tid := ClearSet(a, [b], FriendIds(g, a))], d.log + [AcceptedBy(id, b)]);
    LeadsAppend(c, Sending(0, a, b, id), d, Answering(tid, b, id), end);
    FriendIdsOfPair(g, a, b);
  }

  lemma FriendIdsOfPair(g: Graph, a: UserId, b: UserId)
    requires a != b && g.friends == {Row(a, b), Row(b, a)}
    ensures FriendIds(g, a) == {b} && FriendIds(g, b) == {a}
    ensures forall u | u !in {a, b} :: FriendIds(g, u) == {}
  {
    assert Row(a, b) in g.friends && Row(b, a) in g.friends;
  }

  // The calls of a refresh, one at a time.

  lemma ReadEnds(c: Config, tid: Tid, user: UserId, rest: seq<UserId>) returns (end: Config)
    requires tid in c.threads && c.threads[tid] == ReadRows(user, rest)
    ensures Leads(c, [Step(tid, Acked)], end)
    ensures end == c.(threads := c.threads[tid := ClearSet(user, rest, FriendIds(c.graph, user))])
  {
    end := c.(threads := c.threads[tid := ClearSet(user, rest, FriendIds(c.graph, user))]);
    LeadsOne(c, Step(tid, Acked), end);
  }

  /** The DEL of a set that will get members. */
  lemma ClearEnds(c: Config, tid: Tid, user: UserId, rest: seq<UserId>, ids: set<UserId>) returns (end: Config)
    requires tid in c.threads && c.threads[tid] == ClearSet(user, rest, ids) && ids != {}
    ensures Leads(c, [Step(tid, Acked)], end)
    ensures end == c.(cache := c.cache - {user}, threads := c.threads[tid := FillSet(user, rest, ids, Acked)])
  {
    end := c.(cache := c.cache - {user}, threads := c.threads[tid := FillSet(user, rest, ids, Acked)]);
    LeadsOne(c, Step(tid, Acked), end);
  }

  /** The DEL of a set that stays empty. */
  lemma EmptyEnds(c: Config, tid: Tid, user: UserId, rest: seq<UserId>) returns (end: Config)
    requires tid in c.threads && c.threads[tid] == ClearSet(user, rest, {}) && user !in c.cache
    ensures Leads(c, [Step(tid, Acked)], end) && end == Advance(c, tid, Rest(rest))
  {
    assert c.cache - {user} == c.cache;
    end := Advance(c, tid, Rest(rest));
    LeadsOne(c, Step(tid, Acked), end);
  }

  lemma FillEnds(c: Config, tid: Tid, user: UserId, rest: seq<UserId>, ids: set<UserId>) returns (end: Config)
    requires tid in c.threads && c.threads[tid] == FillSet(user, rest, ids, Acked)
    ensures Leads(c, [Step(tid, Acked)], end)
    ensures end == Advance(c.(cache := c.cache[user := Cached(c.cache, user) + ids]), tid, Rest(rest))
  {
    end := Advance(c.(cache := c.cache[user := Cached(c.cache, user) + ids]), tid, Rest(rest));
    LeadsOne(c, Step(tid, Acked), end);
  }

  /** DEL and SADD of one set that has members. */
  lemma WriteEnds(c: Config, tid: Tid, user: UserId, rest: seq<UserId>, ids: set<UserId>) returns (end: Config)
    requires tid in c.threads && c.threads[tid] == ClearSet(user, rest, ids) && ids != {}
    ensures Leads(c, [Step(tid, Acked)] + [Step(tid, Acked)], end)
    ensures end.graph == c.graph && end.cache == c.cache[user := ids] && end.threads == Advance(c, tid, Rest(rest)).threads
  {
    var d := ClearEnds(c, tid, user, rest, ids);
    end := FillEnds(d, tid, user, rest, ids);
    LeadsAppend(c, [Step(tid, Acked)], d, [Step(tid, Acked)], end);
    assert {} + ids == ids;
  }

  /** A refresh that holds a's friend b writes both their sets. */
  function Finishing(tid: Tid): seq<Event> {
    [Step(tid, Acked)] + [Step(tid, Acked)] + [Step(tid, Acked)] + ([Step(tid, Acked)] + [Step(tid, Acked)])
  }

  lemma FinishingEnds(c: Config, tid: Tid, a: UserId, b: UserId) returns (end: Config)
    requires a != b && tid in c.threads && c.threads[tid] == ClearSet(a, [b], {b}) && FriendIds(c.graph, b) == {a}
    ensures Leads(c, Finishing(tid), end)
    ensures end.graph == c.graph && end.cache == c.cache[a := {b}][b := {a}] && end.threads == c.threads - {tid}
  {
    var one, two := [Step(tid, Acked)], [Step(tid, Acked)] + [Step(tid, Acked)];
    var d := WriteEnds(c, tid, a, [b], {b});
    var e := ReadEnds(d, tid, b, []);
    LeadsAppend(c, two, d, one, e);
    end := WriteEnds(e, tid, b, [], {a});
    LeadsAppend(c, two + one, e, two, end);
  }

  /** a removes x, and the refresh that follows has read a's rows. */
  function Removing(tid: Tid, a: UserId, x: UserId): seq<Event> {
    [Begin(tid, Remove(a, x)), Step(tid, Acked), Step(tid, Acked)]
  }

  lemma RemovingEnds(c: Config, tid: Tid, a: UserId, x: UserId) returns (end: Config)
    requires tid !in c.threads && a != "" && x != "" && a != x
    ensures Leads(c, Removing(tid, a, x), end) && end.cache == c.cache && end.graph == Unfriending(c.graph, a, x)
    ensures end.threads == c.threads[tid := ClearSet(a, [x], FriendIds(end.graph, a))]
  {
    var es, g, log := Removing(tid, a, x), Unfriending(c.graph, a, x), c.log + [Unfriended(a, x)];
    var c1 := c.(threads := c.threads[tid := CommitRemove(a, x)]);
    var c2 := Config(g, c.cache, c.threads[tid := ReadRows(a, [x])], log);
    end := Config(g, c.cache, c.threads[tid := ClearSet(a, [x], FriendIds(g, a))], log);
    assert c1 == Next(c, es[0]);
    assert c2 == Next(c1, es[1]);
    assert end == Next(c2, es[2]);
    assert Path([c, c1, c2, end], es);
  }

  /** A refresh of two users without friends. */
  lemma RefreshesNobody(c: Config, a: UserId, b: UserId) returns (end: Config)
    requires 2 in c.threads && c.threads[2] == ClearSet(a, [b], {}) && c.cache == map[] && FriendIds(c.graph, b) == {}
    ensures Leads(c, [Step(2, Acked)] + [Step(2, Acked)] + [Step(2, Acked)], end)
    ensures end == c.(threads := c.threads - {2})
  {
    var one := [Step(2, Acked)];
    var d := EmptyEnds(c, 2, a, [b]);
    var e := ReadEnds(d, 2, b, []);
    LeadsAppend(c, one, d, one, e);
    end := EmptyEnds(e, 2, b, []);
    LeadsAppend(c, one + one, e, one, end);
    assert end.threads == c.threads - {2};
  }

  /** a blocks b, and the refresh that follows has read a's rows. */
  function Shutting(tid: Tid, a: UserId, b: UserId): seq<Event> {
    [Begin(tid, Block(a, b)), Step(tid, Acked), Step(tid, Acked)]
  }

  lemma ShuttingEnds(c: Config, tid: Tid, a: UserId, b: UserId) returns (end: Config)
    requires tid !in c.threads && a != "" && b != "" && a != b
    ensures Leads(c, Shutting(tid, a, b), end) && end.cache == c.cache && end.graph == Blocking(c.graph, a, b)
    ensures end.threads == c.threads[tid := ClearSet(a, [b], FriendIds(end.graph, a))]
  {
    var es, g, log := Shutting(tid, a, b), Blocking(c.graph, a, b), c.log + [BlockedBy(a, b)];
    var c1 := c.(threads := c.threads[tid := CommitBlock(a, b)]);
    var c2 := Config(g, c.cache, c.threads[tid := ReadRows(a, [b])], log);
    end := Config(g, c.cache, c.threads[tid := ClearSet(a, [b], FriendIds(g, a))], log);
    assert c1 == Next(c, es[0]);
    assert c2 == Next(c1, es[1]);
    assert end == Next(c2, es[2]);
    assert Path([c, c1, c2, end], es);
  }

  // ---------- Two requests sent crosswise ----------

  /** From the empty service: both have checked before either inserts, and both requests are pending. */
  lemma CrossedSends(a: UserId, b: UserId, id: RequestId, jd: RequestId)
    requires a != b && a != "" && b != "" && id != jd
    ensures var end := Execute(IDLE, Checking(0, a, b, id) + Checking(1, b, a, jd) + Inserting());
            && end.Some? && end.value.threads == map[]
            && end.value.graph.requests == map[id := Request(a, b, Pending), jd := Request(b, a, Pending)]
            && !PendingUnique(end.value.graph)
  {
    CheckingEnds(IDLE, 0, a, b, id);
    var c1 := IDLE.(threads := map[0 := SendInsert(a, b, id)]);
    assert IDLE.threads[0 := SendInsert(a, b, id)] == c1.threads;
    CheckingEnds(c1, 1, b, a, jd);
    var c2 := c1.(threads := c1.threads[1 := SendInsert(b, a, jd)]);
    LeadsAppend(IDLE, Checking(0, a, b, id), c1, Checking(1, b, a, jd), c2);
    var c4 := BothInsert(c2, a, b, id, jd);
    LeadsAppend(IDLE, Checking(0, a, b, id) + Checking(1, b, a, jd), c2, Inserting(), c4);
    LeadsExecutes(IDLE, Checking(0, a, b, id) + Checking(1, b, a, jd) + Inserting(), c4);
    assert IsPending(c4.graph, id) && IsPending(c4.graph, jd);
  }

  function Inserting(): seq<Event> {
    [Step(0, Acked), Step(1, Acked)]
  }

  lemma BothInsert(c: Config, a: UserId, b: UserId, id: RequestId, jd: RequestId) returns (end: Config)
    requires a != b && id != jd && c.graph == FriendGraph.EMPTY
    requires c.threads == map[0 := SendInsert(a, b, id), 1 := SendInsert(b, a, jd)]
    ensures Leads(c, Inserting(), end) && end.threads == map[]
    ensures end.graph.requests == map[id := Request(a, b, Pending), jd := Request(b, a, Pending)]
  {
    var d := Next(c, Step(0, Acked));
    assert d.threads == map[1 := SendInsert(b, a, jd)] && d.graph.requests == map[id := Request(a, b, Pending)];
    end := Next(d, Step(1, Acked));
    assert Path([c, d, end], Inserting());
  }

  // ---------- Blocked, and friends ----------

  /** b's handler has read a's request. */
  function Reading(tid: Tid, b: UserId, id: RequestId, accept: bool): seq<Event> {
    [Begin(tid, Respond(b, id, accept)), Step(tid, Acked)]
  }

  lemma ReadingEnds(c: Config, tid: Tid, a: UserId, b: UserId, id: RequestId, accept: bool) returns (end: Config)
    requires tid !in c.threads && b != "" && id in c.graph.requests && c.graph.requests[id] == Request(a, b, Pending)
    ensures Leads(c, Reading(tid, b, id, accept), end)
    ensures end == c.(threads := c.threads[tid := Resolve(b, id, Request(a, b, Pending), accept)])
  {
    var d := c.(threads := c.threads[tid := ReadRequest(b, id, accept)]);
    end := c.(threads := c.threads[tid := Resolve(b, id, Request(a, b, Pending), accept)]);
    assert d == Next(c, Reading(tid, b, id, accept)[0]);
    assert end == Next(d, Reading(tid, b, id, accept)[1]);
    assert Path([c, d, end], Reading(tid, b, id, accept));
  }

  /** b reads a's request, a blocks b, b's accept commits. */
  function Race(a: UserId, b: UserId, id: RequestId): seq<Event> {
    Sending(0, a, b, id) + Reading(1, b, id, true) + Shutting(2, a, b) + [Step(1, Acked)]
  }

  /** A block that commits between the read and the accept of a request. */
  lemma BlockedYetFriends(a: UserId, b: UserId, id: RequestId)
    requires a != b && a != "" && b != ""
    ensures var end := Execute(IDLE, Race(a, b, id));
            end.Some? && AreFriends(end.value.graph, a, b) && IsBlockedEitherWay(end.value.graph, a, b)
  {
    SendingEnds(IDLE, 0, a, b, id);
    var c := Committed(IDLE, Inserted(IDLE.graph, id, a, b), [Sent(id, a, b)]);
    var d := ReadingEnds(c, 1, a, b, id, true);
    LeadsAppend(IDLE, Sending(0, a, b, id), c, Reading(1, b, id, true), d);
    var e := ShuttingEnds(d, 2, a, b);
    LeadsAppend(IDLE, Sending(0, a, b, id) + Reading(1, b, id, true), d, Shutting(2, a, b), e);
    assert Row(a, b) in e.graph.blocks;
    var end := AcceptCommits(e, a, b, id);
    LeadsAppend(IDLE, Sending(0, a, b, id) + Reading(1, b, id, true) + Shutting(2, a, b), e, [Step(1, Acked)], end);
    LeadsExecutes(IDLE, Race(a, b, id), end);
  }

  lemma AcceptCommits(c: Config, a: UserId, b: UserId, id: RequestId) returns (end: Config)
    requires 1 in c.threads && c.threads[1] == Resolve(b, id, Request(a, b, Pending), true)
    ensures Leads(c, [Step(1, Acked)], end) && AreFriends(end.graph, a, b) && end.graph.blocks == c.graph.blocks
    ensures id in c.graph.requests ==> id in end.graph.requests && end.graph.requests[id].status.Accepted?
  {
    end := Next(c, Step(1, Acked));
    LeadsOne(c, Step(1, Acked), end);
  }

  // ---------- Declined, and then accepted ----------

  /** b answers twice: both handlers have read the request, the decline commits, and then the accept. */
  function TwoAnswers(a: UserId, b: UserId, id: RequestId): seq<Event> {
    Sending(0, a, b, id) + Reading(1, b, id, true) + Reading(2, b, id, false) + [Step(2, Acked)]
  }

  lemma ResolvedTwice(a: UserId, b: UserId, id: RequestId)
    requires a != b && a != "" && b != ""
    ensures var declined := Execute(IDLE, TwoAnswers(a, b, id));
            && declined.Some? && id in declined.value.graph.requests && declined.value.graph.requests[id].status.Declined?
            && var end := Execute(declined.value, [Step(1, Acked)]);
               end.Some? && AreFriends(end.value.graph, a, b) && end.value.graph.requests[id].status.Accepted?
  {
    SendingEnds(IDLE, 0, a, b, id);
    var c := Committed(IDLE, Inserted(IDLE.graph, id, a, b), [Sent(id, a, b)]);
    var d := ReadingEnds(c, 1, a, b, id, true);
    LeadsAppend(IDLE, Sending(0, a, b, id), c, Reading(1, b, id, true), d);
    var e := ReadingEnds(d, 2, a, b, id, false);
    LeadsAppend(IDLE, Sending(0, a, b, id) + Reading(1, b, id, true), d, Reading(2, b, id, false), e);
    var f := DeclineCommits(e, a, b, id);
    LeadsAppend(IDLE, Sending(0, a, b, id) + Reading(1, b, id, true) + Reading(2, b, id, false), e, [Step(2, Acked)], f);
    LeadsExecutes(IDLE, TwoAnswers(a, b, id), f);
    var end := AcceptCommits(f, a, b, id);
    LeadsExecutes(f, [Step(1, Acked)], end);
  }

  lemma DeclineCommits(c: Config, a: UserId, b: UserId, id: RequestId) returns (end: Config)
    requires 2 in c.threads && c.threads[2] == Resolve(b, id, Request(a, b, Pending), false) && id in c.graph.requests
    ensures Leads(c, [Step(2, Acked)], end) && end.graph == Declining(c.graph, id) && end.threads == c.threads - {2}
  {
    end := Next(c, Step(2, Acked));
    LeadsOne(c, Step(2, Acked), end);
  }

  // ---------- Blocked, and seen ----------

  /** a befriends b and then blocks b, whose accept is still about to write a's set. */
  function Blocked(a: UserId, b: UserId, id: RequestId): seq<Event> {
    Befriending(1, a, b, id) + Shutting(2, a, b) + ([Step(2, Acked)] + [Step(2, Acked)] + [Step(2, Acked)])
  }

  lemma BlockedEnds(a: UserId, b: UserId, id: RequestId) returns (end: Config)
    requires a != b && a != "" && b != ""
    ensures Leads(IDLE, Blocked(a, b, id), end)
    ensures end.threads == map[1 := ClearSet(a, [b], {b})] && end.cache == map[] && Row(a, b) in end.graph.blocks
  {
    var c := BefriendingEnds(IDLE, 1, a, b, id);
    var d := ShuttingOff(c, a, b);
    var three := [Step(2, Acked)] + [Step(2, Acked)] + [Step(2, Acked)];
    LeadsAppend(IDLE, Befriending(1, a, b, id), c, Shutting(2, a, b), d);
    end := RefreshesNobody(d, a, b);
    LeadsAppend(IDLE, Befriending(1, a, b, id) + Shutting(2, a, b), d, three, end);
    assert d.threads - {2} == map[1 := ClearSet(a, [b], {b})];
  }

  lemma ShuttingOff(c: Config, a: UserId, b: UserId) returns (end: Config)
    requires 2 !in c.threads && a != "" && b != "" && a != b && c.graph.friends == {Row(a, b), Row(b, a)}
    ensures Leads(c, Shutting(2, a, b), end) && end.cache == c.cache && end.threads == c.threads[2 := ClearSet(a, [b], {})]
    ensures FriendIds(end.graph, b) == {} && Row(a, b) in end.graph.blocks
  {
    end := ShuttingEnds(c, 2, a, b);
    assert end.graph.friends == {} && FriendIds(end.graph, a) == {};
  }

  /** a's block has run to its end; then the accept writes what it read before, and b is back in a's cached set. */
  lemma SeenThoughBlocked(a: UserId, b: UserId, id: RequestId)
    requires a != b && a != "" && b != ""
    ensures var before := Execute(IDLE, Blocked(a, b, id));
            && before.Some? && 2 !in before.value.threads && b !in Cached(before.value.cache, a)
            && var end := Execute(before.value, [Step(1, Acked)] + [Step(1, Acked)]);
               end.Some? && IsBlockedEitherWay(end.value.graph, a, b) && b in Cached(end.value.cache, a)
  {
    var c := BlockedEnds(a, b, id);
    LeadsExecutes(IDLE, Blocked(a, b, id), c);
    var end := WriteEnds(c, 1, a, [b], {b});
    LeadsExecutes(c, [Step(1, Acked)] + [Step(1, Acked)], end);
  }

  // ---------- A set that is empty in between ----------

  /** Up to a's removal of a stranger, whose refresh has read that b is a's friend. */
  function Settling(a: UserId, b: UserId, x: UserId, id: RequestId): seq<Event> {
    Befriending(1, a, b, id) + Finishing(1) + Removing(2, a, x)
  }

  lemma SettlingEnds(a: UserId, b: UserId, x: UserId, id: RequestId) returns (end: Config)
    requires a != b && b != x && a != x && a != "" && b != "" && x != ""
    ensures Leads(IDLE, Settling(a, b, x, id), end)
    ensures end.threads == map[2 := ClearSet(a, [x], {b})] && Cached(end.cache, a) == {b} && Row(a, b) in end.graph.friends
  {
    var c := BefriendingEnds(IDLE, 1, a, b, id);
    FriendIdsOfPair(c.graph, a, b);
    var d := FinishingEnds(c, 1, a, b);
    LeadsAppend(IDLE, Befriending(1, a, b, id), c, Finishing(1), d);
    end := RemovingEnds(d, 2, a, x);
    LeadsAppend(IDLE, Befriending(1, a, b, id) + Finishing(1), d, Removing(2, a, x), end);
    assert end.graph.friends == {Row(a, b), Row(b, a)};
    FriendIdsOfPair(end.graph, a, b);
  }

  /** With every call acknowledged, Map sees a's set empty between DEL and SADD, though b is a's friend before and after. */
  lemma EmptyBetween(a: UserId, b: UserId, x: UserId, id: RequestId)
    requires a != b && b != x && a != x && a != "" && b != "" && x != ""
    ensures var before := Execute(IDLE, Settling(a, b, x, id));
            && before.Some? && Cached(before.value.cache, a) == {b} && Row(a, b) in before.value.graph.friends
            && var end := Execute(before.value, [Step(2, Acked)]);
               end.Some? && Row(a, b) in end.value.graph.friends && Cached(end.value.cache, a) == {}
  {
    var c := SettlingEnds(a, b, x, id);
    LeadsExecutes(IDLE, Settling(a, b, x, id), c);
    var d := ClearEnds(c, 2, a, [x], {b});
    LeadsExecutes(c, [Step(2, Acked)], d);
  }

  // ---------- A set that is the union of two ----------

  /** a removes b, from beginning to end. */
  function Parting(a: UserId, b: UserId): seq<Event> {
    Removing(2, a, b) + [Step(2, Acked)] + [Step(2, Acked)] + [Step(2, Acked)]
  }

  lemma PartingEnds(c: Config, a: UserId, b: UserId) returns (end: Config)
    requires 2 !in c.threads && a != "" && b != "" && a != b && c.cache == map[] && c.graph.friends == {Row(a, b), Row(b, a)}
    ensures Leads(c, Parting(a, b), end)
    ensures end.threads == c.threads && end.cache == map[] && end.graph == Unfriending(c.graph, a, b) && end.graph.friends == {}
  {
    var one := [Step(2, Acked)];
    var d := RemovingEnds(c, 2, a, b);
    assert d.graph.friends == {} && FriendIds(d.graph, a) == {} && FriendIds(d.graph, b) == {};
    end := RefreshesNobody(d, a, b);
    LeadsAppend(c, Removing(2, a, b), d, one + one + one, end);
    assert Removing(2, a, b) + (one + one + one) == Parting(a, b);
    assert end.threads == c.threads;
  }

  /** a befriends b, removes b and befriends x; both accepts are about to write a's set. */
  function Crossing(a: UserId, b: UserId, x: UserId, id: RequestId, jd: RequestId): seq<Event> {
    Befriending(1, a, b, id) + Parting(a, b) + Befriending(3, a, x, jd)
  }

  lemma CrossingEnds(a: UserId, b: UserId, x: UserId, id: RequestId, jd: RequestId) returns (end: Config)
    requires a != b && b != x && a != x && a != "" && b != "" && x != "" && id != jd
    ensures Leads(IDLE, Crossing(a, b, x, id, jd), end)
    ensures end.threads == map[1 := ClearSet(a, [b], {b}), 3 := ClearSet(a, [x], {x})] && end.cache == map[]
    ensures end.graph.friends == {Row(a, x), Row(x, a)}
  {
    var c := BefriendingEnds(IDLE, 1, a, b, id);
    var d := PartingEnds(c, a, b);
    LeadsAppend(IDLE, Befriending(1, a, b, id), c, Parting(a, b), d);
    end := BefriendingEnds(d, 3, a, x, jd);
    LeadsAppend(IDLE, Befriending(1, a, b, id) + Parting(a, b), d, Befriending(3, a, x, jd), end);
  }

  /** DEL, DEL, SADD, SADD. */
  function Together(): seq<Event> {
    [Step(1, Acked)] + [Step(3, Acked)] + ([Step(1, Acked)] + [Step(3, Acked)])
  }

  lemma BothClear(c: Config, a: UserId, b: UserId, x: UserId) returns (end: Config)
    requires c.threads == map[1 := ClearSet(a, [b], {b}), 3 := ClearSet(a, [x], {x})] && c.cache == map[]
    ensures Leads(c, [Step(1, Acked)] + [Step(3, Acked)], end) && end.graph == c.graph && end.cache == map[]
    ensures end.threads == map[1 := FillSet(a, [b], {b}, Acked), 3 := FillSet(a, [x], {x}, Acked)]
  {
    var d := ClearEnds(c, 1, a, [b], {b});
    end := ClearEnds(d, 3, a, [x], {x});
    LeadsAppend(c, [Step(1, Acked)], d, [Step(3, Acked)], end);
  }

  lemma BothFill(c: Config, a: UserId, b: UserId, x: UserId) returns (end: Config)
    requires c.threads == map[1 := FillSet(a, [b], {b}, Acked), 3 := FillSet(a, [x], {x}, Acked)] && c.cache == map[]
    ensures Leads(c, [Step(1, Acked)] + [Step(3, Acked)], end) && end.graph == c.graph && end.cache == map[a := {b, x}]
    ensures end.threads == map[1 := ReadRows(b, []), 3 := ReadRows(x, [])]
  {
    var d := FillEnds(c, 1, a, [b], {b});
    assert Rest([b]) == Some(ReadRows(b, [])) && Rest([x]) == Some(ReadRows(x, []));
    assert d.threads == map[1 := ReadRows(b, []), 3 := FillSet(a, [x], {x}, Acked)];
    assert {} + {b} == {b} && d.cache == map[a := {b}];
    end := FillEnds(d, 3, a, [x], {x});
    assert {b} + {x} == {b, x} && end.cache == map[a := {b, x}];
    LeadsAppend(c, [Step(1, Acked)], d, [Step(3, Acked)], end);
  }

  lemma TogetherEnds(c: Config, a: UserId, b: UserId, x: UserId) returns (end: Config)
    requires c.threads == map[1 := ClearSet(a, [b], {b}), 3 := ClearSet(a, [x], {x})] && c.cache == map[]
    ensures Leads(c, Together(), end) && end.graph == c.graph && end.cache == map[a := {b, x}]
    ensures end.threads == map[1 := ReadRows(b, []), 3 := ReadRows(x, [])]
  {
    var d := BothClear(c, a, b, x);
    end := BothFill(d, a, b, x);
    LeadsAppend(c, [Step(1, Acked)] + [Step(3, Acked)], d, [Step(1, Acked)] + [Step(3, Acked)], end);
  }

  /** The two refreshes go on to their ends. */
  function Ending(): seq<Event> {
    [Step(1, Acked)] + [Step(1, Acked)] + [Step(3, Acked)] + ([Step(3, Acked)] + [Step(3, Acked)])
  }

  lemma EndingEnds(c: Config, a: UserId, b: UserId, x: UserId) returns (end: Config)
    requires a != b && b != x && a != x && c.cache == map[a := {b, x}]
    requires c.threads == map[1 := ReadRows(b, []), 3 := ReadRows(x, [])] && c.graph.friends == {Row(a, x), Row(x, a)}
    ensures Leads(c, Ending(), end) && end.graph == c.graph && end.threads == map[] && Cached(end.cache, a) == {b, x}
  {
    var one, three := [Step(1, Acked)], [Step(3, Acked)];
    FriendIdsOfPair(c.graph, a, x);
    var d := ReadEnds(c, 1, b, []);
    var e := EmptyEnds(d, 1, b, []);
    LeadsAppend(c, one, d, one, e);
    var f := ReadEnds(e, 3, x, []);
    LeadsAppend(c, one + one, e, three, f);
    end := WriteEnds(f, 3, x, [], {a});
    LeadsAppend(c, one + one + three, f, three + three, end);
  }

  /**
   With every call acknowledged and every handler at its end, a's set is the union of what two
   refreshes read: b and x, who were never a's friends at the same time.
   */
  lemma UnionOfTwo(a: UserId, b: UserId, x: UserId, id: RequestId, jd: RequestId)
    requires a != b && b != x && a != x && a != "" && b != "" && x != "" && id != jd
    ensures var end := Execute(IDLE, Crossing(a, b, x, id, jd) + Together() + Ending());
            && end.Some? && end.value.threads == map[]
            && Cached(end.value.cache, a) == {b, x} && FriendIds(end.value.graph, a) == {x}
  {
    var c := CrossingEnds(a, b, x, id, jd);
    var d := TogetherEnds(c, a, b, x);
    LeadsAppend(IDLE, Crossing(a, b, x, id, jd), c, Together(), d);
    var end := EndingEnds(d, a, b, x);
    LeadsAppend(IDLE, Crossing(a, b, x, id, jd) + Together(), d, Ending(), end);
    LeadsExecutes(IDLE, Crossing(a, b, x, id, jd) + Together() + Ending(), end);
    FriendIdsOfPair(end.graph, a, x);
  }
}
