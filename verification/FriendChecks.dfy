/**
 The friend-graph invariant when handlers interleave at every store call: a handler that
 has checked acts on the check later. Exactly which commits break the invariant.
 */
module FriendChecks {
  import opened Basics
  import opened FriendGraph
  import opened ProfilesServer
  import opened FriendCalls

  /** What a handler would have found had it checked in the transaction that commits. */
  predicate ActsOnStaleCheck(c: Config, e: Event) {
    e.Step? && e.tid in c.threads && e.reply.Applied() &&
    match c.threads[e.tid]
    case SendInsert(a, b, id) => CanInsert(c.graph, id, a, b) && (Decided(c.graph, a, b) || HasPendingBetween(c.graph, a, b))
    case Resolve(_, id, r, accept) =>
      accept && (IsBlockedEitherWay(c.graph, r.sender, r.addressee) || PendingApartFrom(c.graph, id, r.sender, r.addressee))
    case _ => false
  }

  predicate Decided(g: Graph, a: UserId, b: UserId) {
    IsBlockedEitherWay(g, a, b) || AreFriends(g, a, b)
  }

  predicate PendingApartFrom(g: Graph, id: RequestId, a: UserId, b: UserId) {
    exists jd | jd in g.requests :: jd != id && IsPendingBetween(g, jd, a, b)
  }

  /** Nobody asks, answers or befriends oneself. */
  predicate DistinctLocal(l: Local) {
    match l
    case SendBlocked(a, b, _) => a != b
    case SendFriends(a, b, _) => a != b
    case SendPending(a, b, _) => a != b
    case SendInsert(a, b, _) => a != b
    case Resolve(_, _, r, _) => r.sender != r.addressee
    case _ => true
  }

  ghost predicate Distinct(c: Config) {
    Irreflexive(c.graph) && Symmetric(c.graph) && forall tid | tid in c.threads :: DistinctLocal(c.threads[tid])
  }

  lemma EffectDistinct(c: Config, l: Local)
    requires Distinct(c) && DistinctLocal(l)
    ensures Distinct(Effect(c, l))
  {
    var g, h := c.graph, Effect(c, l).graph;
    forall row | row in h.friends
      ensures row.Flipped() in h.friends
    {
      assert row in g.friends ==> row.Flipped() in g.friends && row.Flipped().Flipped() == row;
    }
  }

  lemma NextDistinct(c: Config, e: Event)
    requires Distinct(c) && Enabled(c, e)
    ensures Distinct(Next(c, e))
  {
    if e.Step? {
      EffectDistinct(c, c.threads[e.tid]);
    }
  }

  // ---------- The whole invariant ----------

  lemma InsertKeepsIff(g: Graph, id: RequestId, a: UserId, b: UserId)
    requires Inv(g) && CanInsert(g, id, a, b) && a != b
    ensures Inv(Inserted(g, id, a, b)) <==> !Decided(g, a, b) && !HasPendingBetween(g, a, b)
  {
    var h := Inserted(g, id, a, b);
    assert IsPending(h, id);
    if jd :| jd in g.requests && IsPendingBetween(g, jd, a, b) {
      assert IsPending(h, jd) && jd != id && h.requests[jd].Between(a, b);
    } else if !Decided(g, a, b) {
      InsertedInv(g, id, a, b);
    }
  }

  lemma AcceptKeepsIff(g: Graph, id: RequestId, a: UserId, b: UserId)
    requires Inv(g) && a != b
    ensures Inv(Accepting(g, id, a, b)) <==> !IsBlockedEitherWay(g, a, b) && !PendingApartFrom(g, id, a, b)
  {
    var h := Accepting(g, id, a, b);
    assert Row(a, b) in h.friends;
    forall row | row in h.friends
      ensures row.Flipped() in h.friends
    {
      assert row in g.friends ==> row.Flipped() in g.friends;
    }
    if jd :| jd in g.requests && jd != id && IsPendingBetween(g, jd, a, b) {
      assert IsPending(h, jd) && AreFriends(h, h.requests[jd].sender, h.requests[jd].addressee);
    } else {
      forall jd | IsPending(h, jd)
        ensures IsPending(g, jd) && h.requests[jd] == g.requests[jd] && !h.requests[jd].Between(a, b)
      {
      }
    }
  }

  lemma StepKeepsIff(c: Config, e: Event)
    requires Inv(c.graph) && Distinct(c) && Enabled(c, e)
    ensures Inv(Next(c, e).graph) <==> !ActsOnStaleCheck(c, e)
  {
    if e.Step? && e.reply.Applied() {
      match c.threads[e.tid]
      case SendInsert(a, b, id) =>
        if CanInsert(c.graph, id, a, b) {
          InsertKeepsIff(c.graph, id, a, b);
        }
      case Resolve(_, id, r, accept) =>
        if accept {
          AcceptKeepsIff(c.graph, id, r.sender, r.addressee);
        } else {
          DeclineKeeps(c.graph, id);
        }
      case CommitRemove(a, b) => UnfriendingInv(c.graph, a, b);
      case CommitBlock(a, b) => BlockKeeps(c.graph, a, b);
      case CommitUnblock(a, b) => UnblockingInv(c.graph, a, b);
      case _ =>
    }
  }

  lemma DeclineKeeps(g: Graph, id: RequestId)
    requires Inv(g)
    ensures Inv(Declining(g, id))
  {
  }

  lemma BlockKeeps(g: Graph, a: UserId, b: UserId)
    requires Inv(g)
    ensures Inv(Blocking(g, a, b))
  {
    if a != b {
      BlockingInv(g, a, b);
    } else {
      assert Blocking(g, a, a).friends == g.friends;
    }
  }

  /** The invariant of atomic handlers holds in every configuration along the schedule. */
  ghost predicate AlwaysInv(c: Config, events: seq<Event>)
    decreases events
  {
    Inv(c.graph) && (events != [] && Enabled(c, events[0]) ==> AlwaysInv(Next(c, events[0]), events[1..]))
  }

  ghost predicate NeverActsOnStaleCheck(c: Config, events: seq<Event>)
    decreases events
  {
    events != [] && Enabled(c, events[0]) ==>
      !ActsOnStaleCheck(c, events[0]) && NeverActsOnStaleCheck(Next(c, events[0]), events[1..])
  }

  lemma {:induction false} InvIff(c: Config, events: seq<Event>)
    requires Inv(c.graph) && Distinct(c)
    ensures AlwaysInv(c, events) <==> NeverActsOnStaleCheck(c, events)
    decreases events
  {
    if events != [] && Enabled(c, events[0]) {
      StepKeepsIff(c, events[0]);
      NextDistinct(c, events[0]);
      if !ActsOnStaleCheck(c, events[0]) {
        InvIff(Next(c, events[0]), events[1..]);
      }
    }
  }

  /**
   Over every schedule from the empty service: what atomic handlers keep, interleaved handlers
   keep throughout if and only if no commit acts on a check that has gone stale.
   */
  lemma AlwaysInvIff(events: seq<Event>)
    ensures AlwaysInv(IDLE, events) <==> NeverActsOnStaleCheck(IDLE, events)
  {
    InvIff(IDLE, events);
  }

  // ---------- At most one pending request ----------

  /** A request is inserted although one is pending, necessarily the other way round. */
  predicate Crosses(c: Config, e: Event) {
    e.Step? && e.tid in c.threads && e.reply.Applied() &&
    var l := c.threads[e.tid];
    l.SendInsert? && CanInsert(c.graph, l.id, l.caller, l.target) && HasPendingBetween(c.graph, l.caller, l.target)
  }

  /** The unique index stops a second request in the same direction only. */
  lemma CrossedWay(c: Config, e: Event)
    requires Crosses(c, e)
    ensures var l := c.threads[e.tid];
            exists jd | jd in c.graph.requests :: c.graph.requests[jd] == Request(l.target, l.caller, Pending)
  {
    var l := c.threads[e.tid];
    var jd :| jd in c.graph.requests && IsPendingBetween(c.graph, jd, l.caller, l.target);
    assert c.graph.requests[jd] != Request(l.caller, l.target, Pending);
    assert c.graph.requests[jd] == Request(l.target, l.caller, Pending);
  }

  lemma UniqueStepIff(c: Config, e: Event)
    requires PendingUnique(c.graph) && Enabled(c, e)
    ensures PendingUnique(Next(c, e).graph) <==> !Crosses(c, e)
  {
    if e.Step? && e.reply.Applied() && c.threads[e.tid].SendInsert? {
      var l := c.threads[e.tid];
      if CanInsert(c.graph, l.id, l.caller, l.target) {
        InsertUniqueIff(c.graph, l.id, l.caller, l.target);
      }
    }
  }

  lemma InsertUniqueIff(g: Graph, id: RequestId, a: UserId, b: UserId)
    requires PendingUnique(g) && CanInsert(g, id, a, b)
    ensures PendingUnique(Inserted(g, id, a, b)) <==> !HasPendingBetween(g, a, b)
  {
    var h := Inserted(g, id, a, b);
    assert IsPending(h, id);
    if jd :| jd in g.requests && IsPendingBetween(g, jd, a, b) {
      assert IsPending(h, jd) && jd != id && h.requests[jd].Between(a, b);
    } else {
      forall jd | IsPending(h, jd) && jd != id
        ensures IsPending(g, jd) && !h.requests[jd].Between(a, b) && !h.requests[id].Between(h.requests[jd].sender, h.requests[jd].addressee)
      {
        assert !IsPendingBetween(g, jd, a, b);
      }
    }
  }

  ghost predicate AlwaysUnique(c: Config, events: seq<Event>)
    decreases events
  {
    PendingUnique(c.graph) && (events != [] && Enabled(c, events[0]) ==> AlwaysUnique(Next(c, events[0]), events[1..]))
  }

  ghost predicate NeverCrosses(c: Config, events: seq<Event>)
    decreases events
  {
    events != [] && Enabled(c, events[0]) ==> !Crosses(c, events[0]) && NeverCrosses(Next(c, events[0]), events[1..])
  }

  /** At most one request is pending between any two users throughout, just when no two are sent crosswise. */
  lemma {:induction false} AlwaysUniqueIff(c: Config, events: seq<Event>)
    requires PendingUnique(c.graph)
    ensures AlwaysUnique(c, events) <==> NeverCrosses(c, events)
    decreases events
  {
    if events != [] && Enabled(c, events[0]) {
      UniqueStepIff(c, events[0]);
      if !Crosses(c, events[0]) {
        AlwaysUniqueIff(Next(c, events[0]), events[1..]);
      }
    }
  }

  // ---------- A resolved request stays resolved ----------

  /** A request that has been resolved meanwhile is resolved otherwise: the UPDATE does not look at the status. */
  predicate Rewrites(c: Config, e: Event) {
    e.Step? && e.tid in c.threads && e.reply.Applied() &&
    var l := c.threads[e.tid];
    l.Resolve? && l.id in c.graph.requests &&
    var status := c.graph.requests[l.id].status;
    !status.Pending? && status != if l.accept then Accepted else Declined
  }

  lemma StatusKeptIff(g: Graph, id: RequestId, status: RequestStatus)
    ensures RequestsKept(g, WithStatus(g, id, status)) <==>
              !(id in g.requests && !g.requests[id].status.Pending? && g.requests[id].status != status)
  {
    var h := WithStatus(g, id, status);
    if id in g.requests && !g.requests[id].status.Pending? && g.requests[id].status != status {
      assert h.requests[id] != g.requests[id];
    }
  }

  lemma EffectKeeps(c: Config, l: Local)
    requires !l.Resolve?
    ensures RequestsKept(c.graph, Effect(c, l).graph)
  {
  }

  lemma StepKeepsRequestsIff(c: Config, e: Event)
    requires Enabled(c, e)
    ensures RequestsKept(c.graph, Next(c, e).graph) <==> !Rewrites(c, e)
  {
    if e.Step? {
      var l := c.threads[e.tid];
      if l.Resolve? {
        var status := if l.accept then Accepted else Declined;
        StatusKeptIff(c.graph, l.id, status);
        assert Effect(c, l).graph.requests == WithStatus(c.graph, l.id, status).requests;
      } else {
        EffectKeeps(c, l);
      }
    }
  }

  /** From every configuration along the schedule to the next, requests are kept. */
  ghost predicate AlwaysKept(c: Config, events: seq<Event>)
    decreases events
  {
    events != [] && Enabled(c, events[0]) ==>
      RequestsKept(c.graph, Next(c, events[0]).graph) && AlwaysKept(Next(c, events[0]), events[1..])
  }

  ghost predicate NeverRewrites(c: Config, events: seq<Event>)
    decreases events
  {
    events != [] && Enabled(c, events[0]) ==> !Rewrites(c, events[0]) && NeverRewrites(Next(c, events[0]), events[1..])
  }

  /** Over whole schedules: requests are never readdressed, and never resolved twice just when no commit rewrites one. */
  lemma {:induction false} AlwaysKeptIff(c: Config, events: seq<Event>)
    ensures AlwaysKept(c, events) <==> NeverRewrites(c, events)
    decreases events
  {
    if events != [] && Enabled(c, events[0]) {
      StepKeepsRequestsIff(c, events[0]);
      AlwaysKeptIff(Next(c, events[0]), events[1..]);
    }
  }
}
