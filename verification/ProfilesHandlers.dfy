/** The friend handlers as they run: store calls and cache commands one after another. */
module ProfilesHandlers {
  import opened Basics
  import opened FriendGraph
  import opened ProfilesServer

  /** The `friends:{user}` sets in Valkey. */
  class FriendCache {
    var sets: Cache

    method SetFriends(user: UserId, ids: set<UserId>, del: Reply, sadd: Reply) returns (ok: bool)
      modifies this
      ensures (sets, ok) == ProfilesServer.SetFriends(old(sets), user, ids, del, sadd)
    {
      if del.Applied() {
        sets := sets - {user};
      }
      if ids == {} {
        return del.Acked?;
      }
      if sadd.Applied() {
        sets := sets[user := Cached(sets, user) + ids];
      }
      ok := del.Acked? && sadd.Acked?;
    }
  }

  class Server {
    const store: Store
    const cache: FriendCache

    ghost function Value(): World
      reads store, cache
    {
      World(store.Value(), cache.sets)
    }

    constructor (store: Store, cache: FriendCache)
      ensures this.store == store && this.cache == cache
    {
      this.store, this.cache := store, cache;
    }

    method RefreshFriendCaches(users: seq<UserId>, reply: nat -> Reply, call: nat) returns (ok: bool)
      modifies cache
      ensures var r := ProfilesServer.RefreshFriendCaches(store.Value(), old(cache.sets), users, reply, call);
              cache.sets == r.cache && ok == r.ok
    {
      ghost var all := ProfilesServer.RefreshFriendCaches(store.Value(), cache.sets, users, reply, call);
      for i := 0 to |users|
        invariant var rest := ProfilesServer.RefreshFriendCaches(store.Value(), cache.sets, users[i..], reply, call + 3 * i);
                  all.cache == rest.cache && all.ok == rest.ok
      {
        assert users[i..][0] == users[i] && users[i..][1..] == users[i + 1..];
        if reply(call + 3 * i).Failed() {
          return false;
        }
        var ids := store.FriendIdsOf(users[i]);
        ok := cache.SetFriends(users[i], ids, reply(call + 3 * i + 1), reply(call + 3 * i + 2));
        if !ok {
          return false;
        }
      }
      ok := true;
    }

    /** None stands for an error. The database may return any of several pending requests. */
    method FriendStatusOf(caller: UserId, target: UserId, reply: nat -> Reply) returns (status: Option<FriendStatus>)
      ensures status.None? ==> caller != target && exists i :: 0 <= i < 3 && reply(i).Failed()
      ensures status.Some? && Inv(store.Value()) ==> status.value == StatusOf(store.Value(), caller, target)
    {
      if caller == target {
        return Some(NoRelation);
      }
      ghost var g := store.Value();
      StatusInOrder(g, caller, target);
      if reply(0).Failed() {
        return None;
      } else if Row(caller, target) in store.blocks || Row(target, caller) in store.blocks {
        return Some(Blocked);
      }
      if reply(1).Failed() {
        return None;
      } else if Row(caller, target) in store.friendships {
        return Some(Friends);
      }
      if reply(2).Failed() {
        return None;
      }
      var id := store.FindPendingBetween(caller, target);
      if id.None? {
        return Some(NoRelation);
      }
      assert PendingBetween(g, caller, target).Some? by {
        assert IsPendingBetween(g, id.value, caller, target);
      }
      assert IsPending(g, id.value) && IsPending(g, PendingBetween(g, caller, target).value);
      status := Some(if store.requests[id.value].sender == caller then PendingOut else PendingIn);
    }

    method SendFriendRequest(caller: UserId, target: UserId, id: RequestId, reply: nat -> Reply) returns (code: Code)
      modifies store
      ensures var o := ProfilesServer.SendFriendRequest(old(Value()), caller, target, id, reply);
              Value() == o.world && code == o.code
    {
      if caller == "" {
        return Unauthorized;
      }
      if target == "" || target == caller {
        return BadRequest;
      }
      if reply(0).Failed() {
        return Internal;
      } else if Row(caller, target) in store.blocks || Row(target, caller) in store.blocks {
        return Forbidden;
      }
      if reply(1).Failed() {
        return Internal;
      } else if Row(caller, target) in store.friendships {
        return Conflict;
      }
      if reply(2).Failed() {
        return Internal;
      }
      var pending := store.FindPendingBetween(caller, target);
      if pending.Some? {
        return Conflict;
      }
      var ok := store.CreateFriendRequest(id, caller, target, reply(3));
      code := if ok then OK else Internal;
    }

    method SendFriendResponse(caller: UserId, id: RequestId, accept: bool, reply: nat -> Reply) returns (code: Code)
      modifies store, cache
      ensures var o := ProfilesServer.SendFriendResponse(old(Value()), caller, id, accept, reply);
              Value() == o.world && code == o.code
    {
      if caller == "" {
        return Unauthorized;
      }
      if reply(0).Failed() {
        return Internal;
      }
      if id !in store.requests || !store.requests[id].status.Pending? {
        return NotFound;
      }
      var request := store.requests[id];
      if request.addressee != caller {
        return Forbidden;
      }
      if !accept {
        var ok := store.DeclineFriendRequest(id, reply(1));
        return if ok then OK else Internal;
      }
      var ok := store.AcceptFriendRequest(id, request.sender, request.addressee, reply(1));
      if !ok {
        return Internal;
      }
      ok := RefreshFriendCaches([request.sender, request.addressee], reply, 2);
      code := if ok then OK else Internal;
    }

    method RemoveFriend(caller: UserId, target: UserId, reply: nat -> Reply) returns (code: Code)
      modifies store, cache
      ensures var o := ProfilesServer.RemoveFriend(old(Value()), caller, target, reply);
              Value() == o.world && code == o.code
    {
      if caller == "" {
        return Unauthorized;
      }
      if target == "" || target == caller {
        return BadRequest;
      }
      var ok := store.RemoveFriendship(caller, target, reply(0));
      if !ok {
        return Internal;
      }
      ok := RefreshFriendCaches([caller, target], reply, 1);
      code := if ok then OK else Internal;
    }

    method BlockUser(caller: UserId, target: UserId, reply: nat -> Reply) returns (code: Code)
      modifies store, cache
      ensures var o := ProfilesServer.BlockUser(old(Value()), caller, target, reply);
              Value() == o.world && code == o.code
    {
      if caller == "" {
        return Unauthorized;
      }
      if target == "" || target == caller {
        return BadRequest;
      }
      var ok := store.Block(caller, target, reply(0));
      if !ok {
        return Internal;
      }
      ok := RefreshFriendCaches([caller, target], reply, 1);
      code := if ok then OK else Internal;
    }

    method UnblockUser(caller: UserId, target: UserId, reply: nat -> Reply) returns (code: Code)
      modifies store
      ensures var o := ProfilesServer.UnblockUser(old(Value()), caller, target, reply);
              Value() == o.world && code == o.code
    {
      if caller == "" {
        return Unauthorized;
      }
      if target == "" || target == caller {
        return BadRequest;
      }
      var ok := store.Unblock(caller, target, reply(0));
      code := if ok then OK else Internal;
    }
  }
}
