/**
 The friend handlers of the Profiles service over the friend graph and the cached friend
 sets `friends:{user}`. Every store or cache call may fail: the k-th call of an RPC ends
 as `reply(k)`. User "" stands for a caller without a session, and ids are already trimmed.
 */
module ProfilesServer {
  import opened Basics
  import opened FriendGraph

  type Cache = map<UserId, set<UserId>>

  datatype World = World(graph: Graph, cache: Cache)

  datatype Code = OK | BadRequest | Unauthorized | Forbidden | NotFound | Conflict | Internal

  /**
   `touched` are the users whose friendship rows the RPC's commit was about, if it took effect, `refreshed` those
   whose cached set it replaced without an error.
   */
  datatype Outcome = Outcome(world: World, code: Code, touched: set<UserId>, refreshed: set<UserId>)

  function Done(w: World, code: Code): Outcome {
    Outcome(w, code, {}, {})
  }

  // ---------- The cache ----------

  function Cached(cache: Cache, user: UserId): set<UserId> {
    if user in cache then cache[user] else {}
  }

  /** DEL and then SADD, in one pipeline: either may fail alone. SADD of nothing is left out. */
  function SetFriends(cache: Cache, user: UserId, ids: set<UserId>, del: Reply, sadd: Reply): (Cache, bool) {
    var cleared := if del.Applied() then cache - {user} else cache;
    if ids == {} then (cleared, del.Acked?)
    else (if sadd.Applied() then cleared[user := Cached(cleared, user) + ids] else cleared, del.Acked? && sadd.Acked?)
  }

  datatype Refresh = Refresh(cache: Cache, ok: bool, refreshed: set<UserId>)

  /** Three calls per user: read the rows, DEL, SADD. Stops at the first error. */
  function RefreshFriendCaches(g: Graph, cache: Cache, users: seq<UserId>, reply: nat -> Reply, call: nat): Refresh
    decreases users
  {
    if users == [] then Refresh(cache, true, {})
    else if reply(call).Failed() then Refresh(cache, false, {})
    else
      var (replaced, ok) := SetFriends(cache, users[0], FriendIds(g, users[0]), reply(call + 1), reply(call + 2));
      if !ok then Refresh(replaced, false, {})
      else
        var rest := RefreshFriendCaches(g, replaced, users[1..], reply, call + 3);
        rest.(refreshed := rest.refreshed + {users[0]})
  }

  // ---------- The handlers ----------

  /** After a committed, lost or unacknowledged change of the rows of two users. */
  function Refreshing(w: World, g: Graph, commit: Reply, a: UserId, b: UserId, reply: nat -> Reply, call: nat): Outcome {
    var committed := if commit.Applied() then w.(graph := g) else w;
    if commit.Failed() then Outcome(committed, Internal, if commit.Applied() then {a, b} else {}, {})
    else
      var r := RefreshFriendCaches(g, w.cache, [a, b], reply, call);
      Outcome(World(g, r.cache), if r.ok then OK else Internal, {a, b}, r.refreshed)
  }

  predicate HasPendingBetween(g: Graph, a: UserId, b: UserId) {
    exists id | id in g.requests :: IsPendingBetween(g, id, a, b)
  }

  function SendFriendRequest(w: World, caller: UserId, target: UserId, id: RequestId, reply: nat -> Reply): Outcome {
    var g := w.graph;
    if caller == "" then Done(w, Unauthorized)
    else if target == "" || target == caller then Done(w, BadRequest)
    else if reply(0).Failed() then Done(w, Internal)
    else if IsBlockedEitherWay(g, caller, target) then Done(w, Forbidden)
    else if reply(1).Failed() then Done(w, Internal)
    else if AreFriends(g, caller, target) then Done(w, Conflict)
    else if reply(2).Failed() then Done(w, Internal)
    else if HasPendingBetween(g, caller, target) then Done(w, Conflict)
    else if !CanInsert(g, id, caller, target) then Done(w, Internal)
    else
      Done(if reply(3).Applied() then w.(graph := Inserted(g, id, caller, target)) else w,
           if reply(3).Acked? then OK else Internal)
  }

  function SendFriendResponse(w: World, caller: UserId, id: RequestId, accept: bool, reply: nat -> Reply): Outcome {
    var g := w.graph;
    if caller == "" then Done(w, Unauthorized)
    else if reply(0).Failed() then Done(w, Internal)
    else if !IsPending(g, id) then Done(w, NotFound)
    else if g.requests[id].addressee != caller then Done(w, Forbidden)
    else if !accept then
      Done(if reply(1).Applied() then w.(graph := Declining(g, id)) else w,
           if reply(1).Acked? then OK else Internal)
    else
      var a, b := g.requests[id].sender, g.requests[id].addressee;
      Refreshing(w, Accepting(g, id, a, b), reply(1), a, b, reply, 2)
  }

  function RemoveFriend(w: World, caller: UserId, target: UserId, reply: nat -> Reply): Outcome {
    if caller == "" then Done(w, Unauthorized)
    else if target == "" || target == caller then Done(w, BadRequest)
    else Refreshing(w, Unfriending(w.graph, caller, target), reply(0), caller, target, reply, 1)
  }

  function BlockUser(w: World, caller: UserId, target: UserId, reply: nat -> Reply): Outcome {
    if caller == "" then Done(w, Unauthorized)
    else if target == "" || target == caller then Done(w, BadRequest)
    else Refreshing(w, Blocking(w.graph, caller, target), reply(0), caller, target, reply, 1)
  }

  function UnblockUser(w: World, caller: UserId, target: UserId, reply: nat -> Reply): Outcome {
    if caller == "" then Done(w, Unauthorized)
    else if target == "" || target == caller then Done(w, BadRequest)
    else Done(if reply(0).Applied() then w.(graph := Unblocking(w.graph, caller, target)) else w,
              if reply(0).Acked? then OK else Internal)
  }

  // ---------- Runs ----------

  datatype Rpc =
    | Send(caller: UserId, target: UserId, id: RequestId)
    | Respond(caller: UserId, id: RequestId, accept: bool)
    | Remove(caller: UserId, target: UserId)
    | Block(caller: UserId, target: UserId)
    | Unblock(caller: UserId, target: UserId)

  datatype Call = Call(rpc: Rpc, reply: nat -> Reply)

  function Handle(w: World, call: Call): Outcome {
    match call.rpc
    case Send(caller, target, id) => SendFriendRequest(w, caller, target, id, call.reply)
    case Respond(caller, id, accept) => SendFriendResponse(w, caller, id, accept, call.reply)
    case Remove(caller, target) => RemoveFriend(w, caller, target, call.reply)
    case Block(caller, target) => BlockUser(w, caller, target, call.reply)
    case Unblock(caller, target) => UnblockUser(w, caller, target, call.reply)
  }

  const START := World(FriendGraph.EMPTY, map[])

  /** The world after a run of RPCs, one at a time. */
  function Run(calls: seq<Call>): World {
    if calls == [] then START else Handle(Run(calls[..|calls| - 1]), calls[|calls| - 1]).world
  }

  /** The outcome of the i-th RPC of a run. */
  function OutcomeOf(calls: seq<Call>, i: nat): Outcome
    requires i < |calls|
  {
    Handle(Run(calls[..i]), calls[i])
  }

  // ---------- The friend-graph invariant ----------

  lemma RefreshingGraph(w: World, g: Graph, commit: Reply, a: UserId, b: UserId, reply: nat -> Reply, call: nat)
    ensures Refreshing(w, g, commit, a, b, reply, call).world.graph in {w.graph, g}
  {
  }

  lemma SendInv(w: World, caller: UserId, target: UserId, id: RequestId, reply: nat -> Reply)
    requires Inv(w.graph)
    ensures var h := SendFriendRequest(w, caller, target, id, reply).world.graph;
            Inv(h) && RequestsKept(w.graph, h)
  {
    var g := w.graph;
    if SendFriendRequest(w, caller, target, id, reply).world.graph != g {
      assert forall jd :: IsPendingBetween(g, jd, caller, target) ==> jd in g.requests;
      InsertedInv(g, id, caller, target);
    }
  }

  lemma RespondInv(w: World, caller: UserId, id: RequestId, accept: bool, reply: nat -> Reply)
    requires Inv(w.graph)
    ensures var h := SendFriendResponse(w, caller, id, accept, reply).world.graph;
            Inv(h) && RequestsKept(w.graph, h)
  {
    var g := w.graph;
    var h := SendFriendResponse(w, caller, id, accept, reply).world.graph;
    if h != g {
      var a, b := g.requests[id].sender, g.requests[id].addressee;
      if accept {
        RefreshingGraph(w, Accepting(g, id, a, b), reply(1), a, b, reply, 2);
        assert h == Accepting(g, id, a, b);
        AcceptingInv(g, id);
      } else {
        assert h == Declining(g, id);
        DecliningInv(g, id);
      }
    }
  }

  lemma HandleInv(w: World, call: Call)
    requires Inv(w.graph)
    ensures Inv(Handle(w, call).world.graph) && RequestsKept(w.graph, Handle(w, call).world.graph)
  {
    var g, reply := w.graph, call.reply;
    match call.rpc
    case Send(caller, target, id) =>
      SendInv(w, caller, target, id, reply);
    case Respond(caller, id, accept) =>
      RespondInv(w, caller, id, accept, reply);
    case Remove(caller, target) =>
      RefreshingGraph(w, Unfriending(g, caller, target), reply(0), caller, target, reply, 1);
      UnfriendingInv(g, caller, target);
    case Block(caller, target) =>
      if caller != target {
        RefreshingGraph(w, Blocking(g, caller, target), reply(0), caller, target, reply, 1);
        BlockingInv(g, caller, target);
      }
    case Unblock(caller, target) =>
      UnblockingInv(g, caller, target);
  }

  lemma {:induction false} RunInv(calls: seq<Call>)
    ensures Inv(Run(calls).graph)
  {
    if calls != [] {
      RunInv(calls[..|calls| - 1]);
      HandleInv(Run(calls[..|calls| - 1]), calls[|calls| - 1]);
    }
  }

  /** Over a whole run: nothing is deleted, readdressed or resolved twice. */
  lemma {:induction false} RunKeepsRequests(calls: seq<Call>, n: nat)
    requires n <= |calls|
    ensures RequestsKept(Run(calls[..n]).graph, Run(calls).graph)
    decreases |calls|
  {
    if n == |calls| {
      assert calls[..n] == calls;
    } else {
      var before := calls[..|calls| - 1];
      assert before[..n] == calls[..n];
      RunKeepsRequests(before, n);
      RunInv(before);
      HandleInv(Run(before), calls[|calls| - 1]);
    }
  }

  // ---------- Cache agreement ----------

  ghost predicate Exact(w: World, user: UserId) {
    Cached(w.cache, user) == FriendIds(w.graph, user)
  }

  lemma SetFriendsExact(cache: Cache, user: UserId, ids: set<UserId>, del: Reply, sadd: Reply)
    ensures var (after, ok) := SetFriends(cache, user, ids, del, sadd);
            && (ok ==> Cached(after, user) == ids)
            && Cached(after, user) <= Cached(cache, user) + ids
            && forall u | u != user :: Cached(after, u) == Cached(cache, u)
  {
  }

  lemma {:induction false} RefreshExact(g: Graph, cache: Cache, users: seq<UserId>, reply: nat -> Reply, call: nat)
    requires forall i, j | 0 <= i < j < |users| :: users[i] != users[j]
    ensures var r := RefreshFriendCaches(g, cache, users, reply, call);
            && (forall u | u in r.refreshed :: u in users && Cached(r.cache, u) == FriendIds(g, u))
            && (r.ok ==> forall u | u in users :: u in r.refreshed)
            && (forall u :: Cached(r.cache, u) <= Cached(cache, u) + FriendIds(g, u))
            && (forall u | u !in users :: Cached(r.cache, u) == Cached(cache, u))
    decreases users
  {
    if users != [] && reply(call).Acked? {
      var ids := FriendIds(g, users[0]);
      SetFriendsExact(cache, users[0], ids, reply(call + 1), reply(call + 2));
      var (after, ok) := SetFriends(cache, users[0], ids, reply(call + 1), reply(call + 2));
      if ok {
        RefreshExact(g, after, users[1..], reply, call + 3);
        assert users == [users[0]] + users[1..];
      }
    }
  }

  lemma RefreshingExact(w: World, g: Graph, commit: Reply, a: UserId, b: UserId, reply: nat -> Reply, call: nat)
    requires a != b && forall u | u !in {a, b} :: FriendIds(g, u) == FriendIds(w.graph, u)
    ensures var o := Refreshing(w, g, commit, a, b, reply, call);
            && (forall u | u !in o.touched :: Exact(w, u) ==> Exact(o.world, u))
            && (forall u | u in o.refreshed :: u in o.touched && Exact(o.world, u))
            && (o.code.OK? ==> o.refreshed == {a, b})
  {
    RefreshExact(g, w.cache, [a, b], reply, call);
  }

  lemma OthersRowsKept(g: Graph, h: Graph, a: UserId, b: UserId)
    requires forall row | row !in {Row(a, b), Row(b, a)} :: row in g.friends <==> row in h.friends
    ensures forall u | u !in {a, b} :: FriendIds(h, u) == FriendIds(g, u)
  {
    forall u | u !in {a, b}
      ensures FriendIds(h, u) == FriendIds(g, u)
    {
      forall v
        ensures v in FriendIds(h, u) <==> v in FriendIds(g, u)
      {
        assert v in FriendIds(g, u) <==> Row(u, v) in g.friends;
        assert v in FriendIds(h, u) <==> Row(u, v) in h.friends;
      }
    }
  }

  /** What one RPC does to the agreement of cache and rows. */
  ghost predicate KeepsExact(w: World, o: Outcome) {
    && (forall u | u !in o.touched :: Exact(w, u) ==> Exact(o.world, u))
    && (forall u | u in o.refreshed :: u in o.touched && Exact(o.world, u))
    && (o.code.OK? ==> o.touched == o.refreshed)
  }

  /** The users whose rows an RPC is about, if it gets as far as changing rows. */
  function Participants(g: Graph, rpc: Rpc): set<UserId> {
    match rpc
    case Remove(caller, target) => {caller, target}
    case Block(caller, target) => {caller, target}
    case Respond(_, id, accept) => if accept && id in g.requests then {g.requests[id].sender, g.requests[id].addressee} else {}
    case _ => {}
  }

  lemma ChangeExact(w: World, g: Graph, commit: Reply, a: UserId, b: UserId, reply: nat -> Reply, call: nat)
    requires a != b && forall row | row !in {Row(a, b), Row(b, a)} :: row in w.graph.friends <==> row in g.friends
    ensures var o := Refreshing(w, g, commit, a, b, reply, call);
            KeepsExact(w, o) && (o.code.OK? ==> o.refreshed == {a, b})
  {
    OthersRowsKept(w.graph, g, a, b);
    RefreshingExact(w, g, commit, a, b, reply, call);
  }

  lemma RespondExact(w: World, caller: UserId, id: RequestId, accept: bool, reply: nat -> Reply)
    requires Inv(w.graph)
    ensures var o := SendFriendResponse(w, caller, id, accept, reply);
            KeepsExact(w, o) && (o.code.OK? ==> o.refreshed == Participants(w.graph, Respond(caller, id, accept)))
  {
    var g := w.graph;
    if accept && IsPending(g, id) {
      var a, b := g.requests[id].sender, g.requests[id].addressee;
      ChangeExact(w, Accepting(g, id, a, b), reply(1), a, b, reply, 2);
    }
  }

  lemma HandleExact(w: World, call: Call)
    requires Inv(w.graph)
    ensures KeepsExact(w, Handle(w, call))
    ensures Handle(w, call).code.OK? ==> Handle(w, call).refreshed == Participants(w.graph, call.rpc)
  {
    var g, reply := w.graph, call.reply;
    match call.rpc
    case Send(caller, target, id) =>
      SendKeepsRows(w, caller, target, id, reply);
    case Respond(caller, id, accept) =>
      RespondExact(w, caller, id, accept, reply);
    case Remove(caller, target) =>
      if caller != target {
        ChangeExact(w, Unfriending(g, caller, target), reply(0), caller, target, reply, 1);
      }
    case Block(caller, target) =>
      if caller != target {
        ChangeExact(w, Blocking(g, caller, target), reply(0), caller, target, reply, 1);
      }
    case Unblock(caller, target) =>
  }

  lemma SendKeepsRows(w: World, caller: UserId, target: UserId, id: RequestId, reply: nat -> Reply)
    ensures var o := SendFriendRequest(w, caller, target, id, reply);
            && o.world.graph.friends == w.graph.friends && o.world.cache == w.cache && o.touched == o.refreshed == {}
  {
  }

  /** An accept, remove or block that returns OK leaves both participants exact. */
  lemma OkLeavesExact(calls: seq<Call>, call: Call, user: UserId)
    requires Handle(Run(calls), call).code.OK? && user in Participants(Run(calls).graph, call.rpc)
    ensures Exact(Run(calls + [call]), user)
  {
    RunInv(calls);
    HandleExact(Run(calls), call);
    assert (calls + [call])[..|calls|] == calls;
  }

  /** The i-th RPC took part in changing the user's rows, failed, and no refresh has come since. */
  ghost predicate StaleSince(calls: seq<Call>, user: UserId, i: nat)
    requires i < |calls|
  {
    && user in OutcomeOf(calls, i).touched && !OutcomeOf(calls, i).code.OK?
    && forall j | i <= j < |calls| :: user !in OutcomeOf(calls, j).refreshed
  }

  lemma {:induction false} CacheAgreement(calls: seq<Call>, user: UserId)
    ensures Exact(Run(calls), user) || exists i :: 0 <= i < |calls| && StaleSince(calls, user, i)
  {
    if calls != [] && !Exact(Run(calls), user) {
      var last := |calls| - 1;
      var before := calls[..last];
      RunInv(before);
      HandleExact(Run(before), calls[last]);
      if user in OutcomeOf(calls, last).touched {
        assert StaleSince(calls, user, last);
      } else {
        CacheAgreement(before, user);
        var i :| 0 <= i < |before| && StaleSince(before, user, i);
        StaleStill(calls, user, i);
      }
    }
  }

  lemma StaleStill(calls: seq<Call>, user: UserId, i: nat)
    requires calls != [] && i < |calls| - 1 && StaleSince(calls[..|calls| - 1], user, i)
    requires user !in OutcomeOf(calls, |calls| - 1).refreshed
    ensures StaleSince(calls, user, i)
  {
    var before := calls[..|calls| - 1];
    assert before[..i] == calls[..i];
    forall j | i <= j < |calls|
      ensures user !in OutcomeOf(calls, j).refreshed
    {
      if j < |before| {
        assert before[..j] == calls[..j];
        assert user !in OutcomeOf(before, j).refreshed;
      }
    }
  }

  // ---------- Friend status ----------

  datatype FriendStatus = NoRelation | Blocked | Friends | PendingOut | PendingIn

  datatype Check = CheckBlocked | CheckFriends | CheckPending

  ghost function Evaluate(g: Graph, caller: UserId, target: UserId, check: Check): FriendStatus {
    match check
    case CheckBlocked => if IsBlockedEitherWay(g, caller, target) then Blocked else NoRelation
    case CheckFriends => if AreFriends(g, caller, target) then Friends else NoRelation
    case CheckPending =>
      match PendingBetween(g, caller, target)
      case None => NoRelation
      case Some(id) => if g.requests[id].sender == caller then PendingOut else PendingIn
  }

  /** The first of the checks that says anything. */
  ghost function StatusBy(g: Graph, caller: UserId, target: UserId, checks: seq<Check>): FriendStatus {
    if checks == [] then NoRelation
    else if !Evaluate(g, caller, target, checks[0]).NoRelation? then Evaluate(g, caller, target, checks[0])
    else StatusBy(g, caller, target, checks[1..])
  }

  ghost function StatusOf(g: Graph, caller: UserId, target: UserId): FriendStatus {
    if caller == target then NoRelation
    else StatusBy(g, caller, target, [CheckBlocked, CheckFriends, CheckPending])
  }

  function Dual(s: FriendStatus): FriendStatus {
    match s
    case PendingOut => PendingIn
    case PendingIn => PendingOut
    case _ => s
  }

  /** At most one check says anything, and it says the dual from the other side. */
  lemma ChecksExclusive(g: Graph, a: UserId, b: UserId, c: Check, d: Check)
    requires Inv(g) && c != d
    ensures Evaluate(g, a, b, c).NoRelation? || Evaluate(g, a, b, d).NoRelation?
  {
    FriendsBothWays(g, a, b);
    var p := PendingBetween(g, a, b);
    if p.Some? {
      assert IsPending(g, p.value) && g.requests[p.value].Between(a, b);
    }
  }

  lemma FriendsBothWays(g: Graph, a: UserId, b: UserId)
    requires Symmetric(g)
    ensures AreFriends(g, a, b) <==> AreFriends(g, b, a)
  {
    assert Row(a, b).Flipped() == Row(b, a) && Row(b, a).Flipped() == Row(a, b);
  }

  lemma CheckDual(g: Graph, a: UserId, b: UserId, c: Check)
    requires Inv(g) && a != b
    ensures Evaluate(g, b, a, c) == Dual(Evaluate(g, a, b, c))
  {
    FriendsBothWays(g, a, b);
    var p, q := PendingBetween(g, a, b), PendingBetween(g, b, a);
    if p.Some? {
      assert IsPendingBetween(g, p.value, b, a);
      assert IsPending(g, p.value) && IsPending(g, q.value);
      assert g.requests[p.value].Between(g.requests[q.value].sender, g.requests[q.value].addressee);
    } else if q.Some? {
      assert IsPendingBetween(g, q.value, a, b);
    }
  }

  lemma {:induction false} StatusByDual(g: Graph, a: UserId, b: UserId, checks: seq<Check>)
    requires Inv(g) && a != b
    ensures StatusBy(g, b, a, checks) == Dual(StatusBy(g, a, b, checks))
  {
    if checks != [] {
      CheckDual(g, a, b, checks[0]);
      StatusByDual(g, a, b, checks[1..]);
    }
  }

  lemma {:induction false} StatusByAny(g: Graph, a: UserId, b: UserId, checks: seq<Check>, c: Check)
    requires Inv(g) && c in checks && !Evaluate(g, a, b, c).NoRelation?
    ensures StatusBy(g, a, b, checks) == Evaluate(g, a, b, c)
  {
    if checks[0] != c {
      ChecksExclusive(g, a, b, c, checks[0]);
      StatusByAny(g, a, b, checks[1..], c);
    }
  }

  lemma {:induction false} StatusByNone(g: Graph, a: UserId, b: UserId, checks: seq<Check>)
    requires forall c | c in checks :: Evaluate(g, a, b, c).NoRelation?
    ensures StatusBy(g, a, b, checks).NoRelation?
  {
    if checks != [] {
      StatusByNone(g, a, b, checks[1..]);
    }
  }

  /** In every reachable state the status is dual and any order of the checks gives it. */
  lemma StatusDuality(calls: seq<Call>, a: UserId, b: UserId, checks: seq<Check>)
    requires forall c: Check :: c in checks
    ensures var g := Run(calls).graph;
            && StatusOf(g, b, a) == Dual(StatusOf(g, a, b))
            && (a != b ==> StatusBy(g, a, b, checks) == StatusOf(g, a, b))
  {
    RunInv(calls);
    var g := Run(calls).graph;
    if a != b {
      var order := [CheckBlocked, CheckFriends, CheckPending];
      StatusByDual(g, a, b, order);
      if c :| c in order && !Evaluate(g, a, b, c).NoRelation? {
        StatusByAny(g, a, b, order, c);
        StatusByAny(g, a, b, checks, c);
      } else {
        assert order[0] in order && order[1] in order && order[2] in order;
        StatusByNone(g, a, b, order);
        StatusByNone(g, a, b, checks);
      }
    }
  }

  /** GetUserInfo adds email and phone for oneself and for friends. */
  ghost predicate ShowsPii(g: Graph, caller: UserId, target: UserId) {
    caller == target || StatusOf(g, caller, target).Friends?
  }

  /** In every reachable state PII is mutual, follows friendship rows, and stops at a block. */
  lemma PiiMutual(calls: seq<Call>, a: UserId, b: UserId)
    ensures var g := Run(calls).graph;
            && (ShowsPii(g, a, b) <==> a == b || AreFriends(g, a, b))
            && (ShowsPii(g, a, b) <==> ShowsPii(g, b, a))
            && (a != b && IsBlockedEitherWay(g, a, b) ==> !ShowsPii(g, a, b))
  {
    RunInv(calls);
    var g := Run(calls).graph;
    FriendsBothWays(g, a, b);
    if a != b {
      StatusInOrder(g, a, b);
      StatusInOrder(g, b, a);
    }
  }

  /** Block dominates, then friendship, then a pending request. */
  lemma StatusInOrder(g: Graph, a: UserId, b: UserId)
    requires a != b
    ensures StatusOf(g, a, b) ==
            if IsBlockedEitherWay(g, a, b) then Blocked
            else if AreFriends(g, a, b) then Friends
            else Evaluate(g, a, b, CheckPending)
  {
    var two, all := [CheckFriends, CheckPending], [CheckBlocked, CheckFriends, CheckPending];
    assert two[1..] == [CheckPending] && all[1..] == two && [CheckPending][1..] == [];
    assert StatusBy(g, a, b, [CheckPending]) == Evaluate(g, a, b, CheckPending);
    assert StatusBy(g, a, b, two) == if AreFriends(g, a, b) then Friends else Evaluate(g, a, b, CheckPending);
  }

  // ---------- ListFriends ----------

  datatype Listing = Listing(friends: set<UserId>, incoming: set<RequestId>, outgoing: set<RequestId>)

  /** Friends without a profile row drop out of the join; requests do not. */
  function ListFriends(g: Graph, profiles: set<UserId>, caller: UserId): Listing {
    Listing(set u | u in FriendIds(g, caller) && u in profiles,
            set id | id in g.requests && IsPending(g, id) && g.requests[id].addressee == caller,
            set id | id in g.requests && IsPending(g, id) && g.requests[id].sender == caller)
  }

  function Senders(g: Graph, ids: set<RequestId>): set<UserId> {
    set id | id in ids && id in g.requests :: g.requests[id].sender
  }

  function Addressees(g: Graph, ids: set<RequestId>): set<UserId> {
    set id | id in ids && id in g.requests :: g.requests[id].addressee
  }

  lemma ListingsAgree(calls: seq<Call>, profiles: set<UserId>, a: UserId, b: UserId)
    ensures var g := Run(calls).graph;
            var l, k := ListFriends(g, profiles, a), ListFriends(g, profiles, b);
            && l.friends !! Senders(g, l.incoming) && l.friends !! Addressees(g, l.outgoing)
            && Senders(g, l.incoming) !! Addressees(g, l.outgoing)
            && (b in Addressees(g, l.outgoing) <==> a in Senders(g, k.incoming))
            && ({a, b} <= profiles ==> (b in l.friends <==> a in k.friends))
  {
    RunInv(calls);
    var g := Run(calls).graph;
    var l, k := ListFriends(g, profiles, a), ListFriends(g, profiles, b);
    forall id, jd | id in l.incoming && jd in l.outgoing
      ensures g.requests[id].sender != g.requests[jd].addressee
    {
      assert IsPending(g, id) && IsPending(g, jd);
      assert g.requests[id].Between(g.requests[jd].sender, g.requests[jd].addressee) ==> id == jd;
    }
    assert forall id :: id in k.incoming && g.requests[id].sender == a <==> id in l.outgoing && g.requests[id].addressee == b;
    assert b in FriendIds(g, a) <==> Row(a, b) in g.friends;
    assert a in FriendIds(g, b) <==> Row(b, a) in g.friends;
    FriendsBothWays(g, a, b);
    forall u | u in l.friends
      ensures u !in Senders(g, l.incoming) && u !in Addressees(g, l.outgoing)
    {
      assert Row(a, u) in g.friends && Row(a, u).Flipped() in g.friends;
    }
  }
}
