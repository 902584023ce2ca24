/**
 What each RPC does to rows, requests and blocks, said in terms of those alone: who is
 answered what, which rows are there afterwards, and which side of a request is which.
 */
module ProfilesEffects {
  import opened Basics
  import opened FriendGraph
  import opened ProfilesServer

  predicate BlockedRows(g: Graph, a: UserId, b: UserId) {
    Row(a, b) in g.blocks || Row(b, a) in g.blocks
  }

  /** The request is pending from `a` to `b`. */
  predicate Asks(g: Graph, id: RequestId, a: UserId, b: UserId) {
    id in g.requests && g.requests[id] == Request(a, b, Pending)
  }

  predicate Asked(g: Graph, a: UserId, b: UserId) {
    exists id | id in g.requests :: Asks(g, id, a, b)
  }

  predicate ValidPair(caller: UserId, target: UserId) {
    caller != "" && target != "" && target != caller
  }

  predicate AckedUpTo(reply: nat -> Reply, n: nat) {
    forall i | 0 <= i < n :: reply(i).Acked?
  }

  ghost predicate SameRequestsBut(g: Graph, h: Graph, id: RequestId) {
    forall jd | jd != id :: (jd in g.requests <==> jd in h.requests) && (jd in g.requests ==> h.requests[jd] == g.requests[jd])
  }

  /** Who has to be named for an RPC to get as far as a store call. */
  lemma InputCodes(w: World, rpc: Rpc, reply: nat -> Reply)
    ensures var code := Handle(w, Call(rpc, reply)).code;
            && (code.Unauthorized? <==> rpc.caller == "")
            && (code.BadRequest? <==> rpc.caller != "" && !rpc.Respond? && (rpc.target == "" || rpc.target == rpc.caller))
    ensures rpc.caller == "" ==> Handle(w, Call(rpc, reply)).world == w
    ensures !rpc.Respond? && (rpc.target == "" || rpc.target == rpc.caller) ==> Handle(w, Call(rpc, reply)).world == w
  {
  }

  // ---------- Sending ----------

  lemma AskedIff(g: Graph, a: UserId, b: UserId)
    ensures HasPendingBetween(g, a, b) <==> Asked(g, a, b) || Asked(g, b, a)
  {
    if id :| id in g.requests && IsPendingBetween(g, id, a, b) {
      assert Asks(g, id, a, b) || Asks(g, id, b, a);
    }
    if id :| id in g.requests && Asks(g, id, a, b) {
      assert IsPendingBetween(g, id, a, b);
    }
    if id :| id in g.requests && Asks(g, id, b, a) {
      assert IsPendingBetween(g, id, a, b);
    }
  }

  /** A request goes from the caller to the target, exactly when nothing stands in its way. */
  lemma SendEffect(w: World, caller: UserId, target: UserId, id: RequestId, reply: nat -> Reply)
    requires ValidPair(caller, target)
    ensures var o, g := Handle(w, Call(Send(caller, target, id), reply)), w.graph;
            var h := o.world.graph;
            var clear := !BlockedRows(g, caller, target) && Row(caller, target) !in g.friends
                         && !Asked(g, caller, target) && !Asked(g, target, caller);
            && (o.code.OK? <==> AckedUpTo(reply, 4) && clear && id !in g.requests)
            && (o.code.Forbidden? <==> AckedUpTo(reply, 1) && BlockedRows(g, caller, target))
            && (o.code.Conflict? <==> AckedUpTo(reply, 2) && !BlockedRows(g, caller, target)
                                      && (Row(caller, target) in g.friends
                                          || (reply(2).Acked? && (Asked(g, caller, target) || Asked(g, target, caller)))))
            && h.friends == g.friends && h.blocks == g.blocks && o.world.cache == w.cache && SameRequestsBut(g, h, id)
            && (if AckedUpTo(reply, 3) && reply(3).Applied() && clear && id !in g.requests
                then Asks(h, id, caller, target) else h.requests == g.requests)
  {
    var g := w.graph;
    AskedIff(g, caller, target);
    assert PendingTaken(g, caller, target) <==> Asked(g, caller, target);
  }

  /** A sender cannot answer the request just sent; the addressee can, and an accept makes both friends. */
  lemma SendThenAnswer(w: World, caller: UserId, target: UserId, id: RequestId, reply: nat -> Reply, later: nat -> Reply)
    requires ValidPair(caller, target) && later(0).Acked?
    requires Handle(w, Call(Send(caller, target, id), reply)).code.OK?
    ensures var s := Handle(w, Call(Send(caller, target, id), reply)).world;
            var own, answer := Handle(s, Call(Respond(caller, id, true), later)), Handle(s, Call(Respond(target, id, true), later));
            && own.code.Forbidden? && own.world == s
            && (later(1).Applied() ==> {Row(caller, target), Row(target, caller)} <= answer.world.graph.friends)
            && (AckedUpTo(later, 8) ==> answer.code.OK?)
  {
    SendEffect(w, caller, target, id, reply);
    var s := Handle(w, Call(Send(caller, target, id), reply)).world;
    RespondEffect(s, caller, id, true, later);
    RespondEffect(s, target, id, true, later);
  }

  // ---------- Responding ----------

  /** The two rows an accepted request puts there. */
  function RowsOf(r: Request): set<Row> {
    {Row(r.sender, r.addressee), Row(r.addressee, r.sender)}
  }

  /** Only the addressee resolves a pending request: an accept adds both rows, a decline none. */
  lemma RespondEffect(w: World, caller: UserId, id: RequestId, accept: bool, reply: nat -> Reply)
    requires caller != ""
    ensures var o, g := Handle(w, Call(Respond(caller, id, accept), reply)), w.graph;
            var h := o.world.graph;
            var pending := id in g.requests && g.requests[id].status.Pending?;
            var mine := pending && g.requests[id].addressee == caller;
            && (o.code.NotFound? <==> reply(0).Acked? && !pending)
            && (o.code.Forbidden? <==> reply(0).Acked? && pending && !mine)
            && (o.code.OK? ==> AckedUpTo(reply, 2) && mine)
            && (AckedUpTo(reply, if accept then 8 else 2) && mine ==> o.code.OK?)
            && h.blocks == g.blocks && SameRequestsBut(g, h, id)
            && (if reply(0).Acked? && reply(1).Applied() && mine
                then id in h.requests && h.requests[id] == g.requests[id].(status := if accept then Accepted else Declined)
                     && h.friends == if accept then g.friends + RowsOf(g.requests[id]) else g.friends
                else h == g)
            && (!accept ==> o.world.cache == w.cache)
  {
    if id in w.graph.requests && accept {
      var r := w.graph.requests[id];
      RefreshAcked(Accepting(w.graph, id, r.sender, r.addressee), w.cache, [r.sender, r.addressee], reply, 2);
    }
  }

  /** A refresh whose calls, three for each user, are acknowledged succeeds. */
  lemma {:induction false} RefreshAcked(g: Graph, cache: Cache, users: seq<UserId>, reply: nat -> Reply, call: nat)
    ensures AckedUpTo(reply, call + 3 * |users|) ==> RefreshFriendCaches(g, cache, users, reply, call).ok
    decreases users
  {
    if users != [] && AckedUpTo(reply, call + 3 * |users|) {
      assert reply(call).Acked? && reply(call + 1).Acked? && reply(call + 2).Acked?;
      var (replaced, ok) := SetFriends(cache, users[0], FriendIds(g, users[0]), reply(call + 1), reply(call + 2));
      RefreshAcked(g, replaced, users[1..], reply, call + 3);
    }
  }

  // ---------- Removing and blocking ----------

  ghost predicate SameFriendsBut(g: Graph, h: Graph, a: UserId, b: UserId) {
    && Row(a, b) !in h.friends && Row(b, a) !in h.friends
    && forall row | row != Row(a, b) && row != Row(b, a) :: row in g.friends <==> row in h.friends
  }

  lemma RemoveEffect(w: World, caller: UserId, target: UserId, reply: nat -> Reply)
    requires ValidPair(caller, target)
    ensures var o, g := Handle(w, Call(Remove(caller, target), reply)), w.graph;
            var h := o.world.graph;
            && (if reply(0).Applied() then SameFriendsBut(g, h, caller, target) else h.friends == g.friends)
            && h.requests == g.requests && h.blocks == g.blocks
            && (o.code.OK? ==> reply(0).Acked?) && (AckedUpTo(reply, 7) ==> o.code.OK?)
  {
    RefreshAcked(Unfriending(w.graph, caller, target), w.cache, [caller, target], reply, 1);
  }

  /** Requests between the two that were pending are declined; all others are as they were. */
  predicate Cancelled(g: Graph, h: Graph, a: UserId, b: UserId) {
    && g.requests.Keys == h.requests.Keys
    && forall id | id in g.requests ::
         h.requests[id] == if Asks(g, id, a, b) || Asks(g, id, b, a) then g.requests[id].(status := Declined) else g.requests[id]
  }

  /** The block row goes from the caller to the target; friendship and pending requests end. */
  lemma BlockEffect(w: World, caller: UserId, target: UserId, reply: nat -> Reply)
    requires ValidPair(caller, target)
    ensures var o, g := Handle(w, Call(Block(caller, target), reply)), w.graph;
            var h := o.world.graph;
            && (if reply(0).Applied()
                then h.blocks == g.blocks + {Row(caller, target)} && SameFriendsBut(g, h, caller, target) && Cancelled(g, h, caller, target)
                else h == g)
            && (o.code.OK? ==> reply(0).Acked?) && (AckedUpTo(reply, 7) ==> o.code.OK?)
  {
    RefreshAcked(Blocking(w.graph, caller, target), w.cache, [caller, target], reply, 1);
  }

  /** Only the caller's own block is lifted. */
  lemma UnblockEffect(w: World, caller: UserId, target: UserId, reply: nat -> Reply)
    requires ValidPair(caller, target)
    ensures var o, g := Handle(w, Call(Unblock(caller, target), reply)), w.graph;
            var h := o.world.graph;
            && (o.code.OK? <==> reply(0).Acked?) && o.world.cache == w.cache
            && h.friends == g.friends && h.requests == g.requests
            && forall row :: row in h.blocks <==> row in g.blocks && !(reply(0).Applied() && row == Row(caller, target))
  {
  }

  /** Unblocking undoes one's own block and nothing else of it: the friendship does not come back. */
  lemma UnblockAfterBlock(w: World, caller: UserId, target: UserId, reply: nat -> Reply, later: nat -> Reply)
    requires ValidPair(caller, target) && reply(0).Applied() && later(0).Applied()
    ensures var s := Handle(w, Call(Block(caller, target), reply)).world;
            var t := Handle(s, Call(Unblock(caller, target), later)).world.graph;
            && t.blocks == w.graph.blocks - {Row(caller, target)}
            && Row(caller, target) !in t.friends && Row(target, caller) !in t.friends
            && !Asked(t, caller, target) && !Asked(t, target, caller)
  {
    BlockEffect(w, caller, target, reply);
    var s := Handle(w, Call(Block(caller, target), reply)).world;
    UnblockEffect(s, caller, target, later);
    var t := Handle(s, Call(Unblock(caller, target), later)).world.graph;
    assert forall row :: row in t.blocks <==> row in w.graph.blocks - {Row(caller, target)};
  }

  // ---------- Reading ----------

  /** Which status is shown, from the rows: a request is outgoing for its sender. */
  lemma StatusIff(g: Graph, a: UserId, b: UserId)
    requires Inv(g)
    ensures StatusOf(g, a, b).Blocked? <==> a != b && BlockedRows(g, a, b)
    ensures StatusOf(g, a, b).Friends? <==> Row(a, b) in g.friends
    ensures StatusOf(g, a, b).PendingOut? <==> Asked(g, a, b)
    ensures StatusOf(g, a, b).PendingIn? <==> Asked(g, b, a)
    ensures StatusOf(g, a, b).NoRelation? <==>
              a == b || (!BlockedRows(g, a, b) && Row(a, b) !in g.friends && !Asked(g, a, b) && !Asked(g, b, a))
  {
    if a != b {
      StatusAnyState(g, a, b);
      PendingSide(g, a, b);
      FriendsBothWays(g, a, b);
      AskedUndecided(g, a, b);
      AskedUndecided(g, b, a);
    } else {
      assert Row(a, a) !in g.friends && !Asked(g, a, a);
    }
  }

  lemma AskedUndecided(g: Graph, a: UserId, b: UserId)
    requires Inv(g)
    ensures Asked(g, a, b) ==> !BlockedRows(g, a, b) && Row(a, b) !in g.friends
  {
    if id :| id in g.requests && Asks(g, id, a, b) {
      assert IsPending(g, id);
    }
  }

  /** In any state, invariant or not: blocks come first, then friendship, then a pending request by its direction. */
  lemma StatusAnyState(g: Graph, a: UserId, b: UserId)
    requires a != b
    ensures var status := StatusOf(g, a, b);
            && (status.Blocked? <==> BlockedRows(g, a, b))
            && (status.Friends? <==> !BlockedRows(g, a, b) && Row(a, b) in g.friends)
            && (status.PendingOut? ==> Asked(g, a, b)) && (status.PendingIn? ==> Asked(g, b, a))
            && (status.NoRelation? <==> !BlockedRows(g, a, b) && Row(a, b) !in g.friends && !Asked(g, a, b) && !Asked(g, b, a))
            && (!BlockedRows(g, a, b) && Row(a, b) !in g.friends ==> status == Evaluate(g, a, b, CheckPending))
  {
    StatusInOrder(g, a, b);
    AskedIff(g, a, b);
    var found := PendingBetween(g, a, b);
    if found.Some? {
      assert IsPendingBetween(g, found.value, a, b);
      assert Asks(g, found.value, a, b) || Asks(g, found.value, b, a);
    }
  }

  lemma PendingSide(g: Graph, a: UserId, b: UserId)
    requires Inv(g) && a != b
    ensures var s := Evaluate(g, a, b, CheckPending);
            && (s.PendingOut? <==> Asked(g, a, b)) && (s.PendingIn? <==> Asked(g, b, a))
            && s in {PendingOut, PendingIn, NoRelation}
  {
    var found := PendingBetween(g, a, b);
    if found.Some? {
      assert Asks(g, found.value, a, b) || Asks(g, found.value, b, a);
    }
    if id :| id in g.requests && Asks(g, id, a, b) {
      assert IsPendingBetween(g, id, a, b);
      assert IsPending(g, found.value) && id == found.value;
    }
    if id :| id in g.requests && Asks(g, id, b, a) {
      assert IsPendingBetween(g, id, a, b);
      assert IsPending(g, found.value) && id == found.value;
    }
  }

  /** Who is listed: friends that have a profile, and pending requests by direction. */
  lemma ListingIff(g: Graph, profiles: set<UserId>, caller: UserId)
    ensures var l := ListFriends(g, profiles, caller);
            && (forall u :: u in l.friends <==> Row(caller, u) in g.friends && u in profiles)
            && (forall id :: id in l.incoming <==> exists u :: Asks(g, id, u, caller))
            && (forall id :: id in l.outgoing <==> exists u :: Asks(g, id, caller, u))
  {
    var l := ListFriends(g, profiles, caller);
    forall u
      ensures u in l.friends <==> Row(caller, u) in g.friends && u in profiles
    {
      assert Row(caller, u).user == caller;
    }
    forall id
      ensures id in l.incoming <==> exists u :: Asks(g, id, u, caller)
    {
      if id in l.incoming {
        assert Asks(g, id, g.requests[id].sender, caller);
      }
    }
    forall id
      ensures id in l.outgoing <==> exists u :: Asks(g, id, caller, u)
    {
      if id in l.outgoing {
        assert Asks(g, id, caller, g.requests[id].addressee);
      }
    }
  }
}
