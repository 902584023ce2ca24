/** The single calls of a friend RPC, issued without interruption, are the whole handler. */
module FriendAlone {
  import opened Basics
  import opened FriendGraph
  import opened ProfilesServer
  import opened FriendCalls

  /** An upper bound on the calls a handler has left. */
  function CallsLeft(l: Local): nat {
    match l
    case SendBlocked(_, _, _) => 4
    case SendFriends(_, _, _) => 3
    case SendPending(_, _, _) => 2
    case SendInsert(_, _, _) => 1
    case ReadRequest(_, _, _) => 8
    case Resolve(_, _, _, _) => 7
    case CommitRemove(_, _) => 7
    case CommitBlock(_, _) => 7
    case CommitUnblock(_, _) => 1
    case ReadRows(_, rest) => 3 * |rest| + 3
    case ClearSet(_, rest, _) => 3 * |rest| + 2
    case FillSet(_, rest, _, _) => 3 * |rest| + 1
  }

  lemma FewerLeft(g: Graph, l: Local, reply: Reply)
    ensures var next := Following(g, l, reply); next.Some? ==> CallsLeft(next.value) < CallsLeft(l)
  {
  }

  /** A SADD of nobody is left out, and its reply with it. */
  function NextReply(l: Local, call: nat): nat {
    if l.ClearSet? && l.ids == {} then call + 2 else call + 1
  }

  /** The handler goes on alone; its calls from now on end as `reply(call)`, `reply(call + 1)` and so on. */
  function Alone(c: Config, tid: Tid, reply: nat -> Reply, call: nat): Config
    decreases if tid in c.threads then CallsLeft(c.threads[tid]) + 1 else 0
  {
    if tid !in c.threads then c
    else
      var l := c.threads[tid];
      FewerLeft(c.graph, l, reply(call));
      Alone(Take(c, tid, reply(call)), tid, reply, NextReply(l, call))
  }

  /** Rows and cache are those of the handler, and its thread is gone. */
  predicate Ends(end: Config, tid: Tid, graph: Graph, cache: Cache) {
    end.graph == graph && end.cache == cache && tid !in end.threads
  }

  // ---------- Refreshing ----------

  /** DEL and SADD of one set. */
  lemma SetAlone(c: Config, tid: Tid, user: UserId, rest: seq<UserId>, ids: set<UserId>, reply: nat -> Reply, call: nat)
    requires tid in c.threads && c.threads[tid] == ClearSet(user, rest, ids)
    ensures var (cache, ok) := SetFriends(c.cache, user, ids, reply(call), reply(call + 1));
            var after := Advance(c.(cache := cache), tid, if ok then Rest(rest) else None);
            Alone(c, tid, reply, call) == Alone(after, tid, reply, call + 2)
  {
    var (cache, ok) := SetFriends(c.cache, user, ids, reply(call), reply(call + 1));
    var after := Advance(c.(cache := cache), tid, if ok then Rest(rest) else None);
    var d := Take(c, tid, reply(call));
    if ids == {} {
      assert d == after;
    } else {
      assert d.threads[tid] == FillSet(user, rest, ids, reply(call));
      var e := Take(d, tid, reply(call + 1));
      assert e.threads == after.threads;
      assert e.cache == after.cache;
      assert Alone(d, tid, reply, call + 1) == Alone(e, tid, reply, call + 2);
    }
  }

  lemma {:induction false} RefreshAlone(c: Config, tid: Tid, users: seq<UserId>, reply: nat -> Reply, call: nat)
    requires if users == [] then tid !in c.threads else tid in c.threads && c.threads[tid] == ReadRows(users[0], users[1..])
    ensures Ends(Alone(c, tid, reply, call), tid, c.graph, RefreshFriendCaches(c.graph, c.cache, users, reply, call).cache)
    decreases |users|
  {
    if users != [] {
      var ids := FriendIds(c.graph, users[0]);
      var d := Take(c, tid, reply(call));
      if reply(call).Acked? {
        assert d == c.(threads := c.threads[tid := ClearSet(users[0], users[1..], ids)]);
        SetAlone(d, tid, users[0], users[1..], ids, reply, call + 1);
        var (cache, ok) := SetFriends(c.cache, users[0], ids, reply(call + 1), reply(call + 2));
        var after := Advance(d.(cache := cache), tid, if ok then Rest(users[1..]) else None);
        RefreshAlone(after, tid, if ok then users[1..] else [], reply, call + 3);
      } else {
        assert tid !in d.threads;
      }
    }
  }

  // ---------- The handlers ----------

  lemma CommitAlone(c: Config, tid: Tid, g: Graph, a: UserId, b: UserId, reply: nat -> Reply, call: nat)
    requires tid in c.threads && Onward(c.graph, c.threads[tid]) == Rest([a, b]) && !c.threads[tid].ClearSet?
    requires Effect(c, c.threads[tid]).graph == g
    requires Effect(c, c.threads[tid]).cache == c.cache && Effect(c, c.threads[tid]).threads == c.threads
    ensures var o := Refreshing(World(c.graph, c.cache), g, reply(call), a, b, reply, call + 1);
            Ends(Alone(c, tid, reply, call), tid, o.world.graph, o.world.cache)
  {
    var d := Take(c, tid, reply(call));
    if reply(call).Acked? {
      assert [a, b][1..] == [b];
      RefreshAlone(d, tid, [a, b], reply, call + 1);
    }
  }

  lemma SendAlone(c: Config, tid: Tid, a: UserId, b: UserId, id: RequestId, reply: nat -> Reply)
    requires tid in c.threads && c.threads[tid] == SendBlocked(a, b, id) && a != "" && b != "" && b != a
    ensures var o := SendFriendRequest(World(c.graph, c.cache), a, b, id, reply);
            Ends(Alone(c, tid, reply, 0), tid, o.world.graph, o.world.cache)
  {
    var c1 := Take(c, tid, reply(0));
    if tid in c1.threads {
      assert c1 == c.(threads := c.threads[tid := SendFriends(a, b, id)]);
      var c2 := Take(c1, tid, reply(1));
      if tid in c2.threads {
        assert c2 == c.(threads := c.threads[tid := SendPending(a, b, id)]);
        InsertAlone(c2, tid, a, b, id, reply);
      }
      assert Alone(c1, tid, reply, 1) == Alone(c2, tid, reply, 2);
    }
    assert Alone(c, tid, reply, 0) == Alone(c1, tid, reply, 1);
  }

  lemma InsertAlone(c: Config, tid: Tid, a: UserId, b: UserId, id: RequestId, reply: nat -> Reply)
    requires tid in c.threads && c.threads[tid] == SendPending(a, b, id)
    ensures var inserts := reply(2).Acked? && !HasPendingBetween(c.graph, a, b) && CanInsert(c.graph, id, a, b) && reply(3).Applied();
            Ends(Alone(c, tid, reply, 2), tid, if inserts then Inserted(c.graph, id, a, b) else c.graph, c.cache)
  {
    var d := Take(c, tid, reply(2));
    if tid in d.threads {
      assert d == c.(threads := c.threads[tid := SendInsert(a, b, id)]);
      var e := Take(d, tid, reply(3));
      assert tid !in e.threads;
      assert Alone(d, tid, reply, 3) == Alone(e, tid, reply, 4);
    }
    assert Alone(c, tid, reply, 2) == Alone(d, tid, reply, 3);
  }

  lemma ResolveAlone(c: Config, tid: Tid, caller: UserId, id: RequestId, r: Request, accept: bool, reply: nat -> Reply)
    requires tid in c.threads && c.threads[tid] == Resolve(caller, id, r, accept)
    ensures var w := World(c.graph, c.cache);
            var o := if accept then Refreshing(w, Accepting(c.graph, id, r.sender, r.addressee), reply(1), r.sender, r.addressee, reply, 2).world
                     else if reply(1).Applied() then w.(graph := Declining(c.graph, id)) else w;
            Ends(Alone(c, tid, reply, 1), tid, o.graph, o.cache)
  {
    if accept {
      CommitAlone(c, tid, Accepting(c.graph, id, r.sender, r.addressee), r.sender, r.addressee, reply, 1);
    } else {
      var d := Take(c, tid, reply(1));
      assert tid !in d.threads;
      assert Alone(c, tid, reply, 1) == Alone(d, tid, reply, 2);
    }
  }

  lemma RespondAlone(c: Config, tid: Tid, caller: UserId, id: RequestId, accept: bool, reply: nat -> Reply)
    requires tid in c.threads && c.threads[tid] == ReadRequest(caller, id, accept) && caller != ""
    ensures var o := SendFriendResponse(World(c.graph, c.cache), caller, id, accept, reply);
            Ends(Alone(c, tid, reply, 0), tid, o.world.graph, o.world.cache)
  {
    var d := Take(c, tid, reply(0));
    assert Alone(c, tid, reply, 0) == Alone(d, tid, reply, 1);
    if reply(0).Acked? && IsPending(c.graph, id) && c.graph.requests[id].addressee == caller {
      var r := c.graph.requests[id];
      assert d == c.(threads := c.threads[tid := Resolve(caller, id, r, accept)]);
      ResolveAlone(d, tid, caller, id, r, accept, reply);
    } else {
      assert tid !in d.threads && d.graph == c.graph && d.cache == c.cache;
    }
  }

  /** Uninterrupted, the calls of any of the five RPCs leave the rows and the cache that the handler leaves. */
  lemma AloneIsHandle(c: Config, tid: Tid, call: Call)
    requires tid !in c.threads
    ensures var end := Alone(Next(c, Begin(tid, call.rpc)), tid, call.reply, 0);
            var whole := Handle(World(c.graph, c.cache), call).world;
            Ends(end, tid, whole.graph, whole.cache)
  {
    var d := Next(c, Begin(tid, call.rpc));
    if tid in d.threads {
      match call.rpc
      case Send(caller, target, id) => SendAlone(d, tid, caller, target, id, call.reply);
      case Respond(caller, id, accept) => RespondAlone(d, tid, caller, id, accept, call.reply);
      case Remove(caller, target) =>
        CommitAlone(d, tid, Unfriending(c.graph, caller, target), caller, target, call.reply, 0);
      case Block(caller, target) =>
        CommitAlone(d, tid, Blocking(c.graph, caller, target), caller, target, call.reply, 0);
      case Unblock(caller, target) =>
        assert tid !in Take(d, tid, call.reply(0)).threads;
    }
  }
}
