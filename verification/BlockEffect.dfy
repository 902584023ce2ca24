/**
 Profiles and Map together: Profiles writes the cached friend sets, Map shows presence
 through them. A block that returned OK hides two users from each other.
 */
module BlockEffect {
  import opened Basics
  import opened FriendGraph
  import opened ProfilesServer
  import Presence
  import MapServer

  datatype Services = Services(profiles: World, presence: Presence.State)

  datatype Event =
    | Profile(call: Call)
    | Visit(event: Presence.Event)

  const START := Services(ProfilesServer.START, Presence.EMPTY)

  function Step(s: Services, e: Event, ttl: int): Services {
    match e
    case Profile(call) => s.(profiles := Handle(s.profiles, call).world)
    case Visit(event) => s.(presence := Presence.Step(s.presence, event, ttl))
  }

  function Run(s: Services, events: seq<Event>, ttl: int): Services
    decreases events
  {
    if events == [] then s else Run(Step(s, events[0], ttl), events[1..], ttl)
  }

  /** A LoadMap response names `other` among the caller's friends at some object. */
  ghost predicate InResponse(s: Services, caller: UserId, other: UserId, longitude: real, latitude: real,
                             objs: seq<MapServer.Object>, own: Reply, reply: nat -> Reply) {
    var r := MapServer.Loaded(s.presence, s.profiles.cache, Some(caller), longitude, latitude, Some(objs), own, reply);
    r.Ok? && exists i :: 0 <= i < |r.value| && other in r.value[i].friendIdsHere
  }

  /** Wherever the caller looks, and whatever objects are there. */
  ghost predicate SeenOnMap(s: Services, caller: UserId, other: UserId) {
    exists longitude, latitude, objs, own, reply :: InResponse(s, caller, other, longitude, latitude, objs, own, reply)
  }

  lemma NotOnMap(s: Services, caller: UserId, other: UserId)
    requires other !in Cached(s.profiles.cache, caller)
    ensures !SeenOnMap(s, caller, other)
  {
    forall longitude, latitude, objs, own, reply
      ensures !InResponse(s, caller, other, longitude, latitude, objs, own, reply)
    {
      MapServer.LoadShows(s.presence, s.profiles.cache, caller, longitude, latitude, objs, own, reply);
    }
  }

  /** FriendsPresence, over a listing of the caller's cached set, shows the caller where `other` is. */
  ghost predicate Pinned(s: Services, listing: seq<UserId>, table: ObjectId -> MapServer.Lookup, replies: nat -> Reply,
                         caller: UserId, other: UserId) {
    && (forall u | u in listing :: u in Cached(s.profiles.cache, caller))
    && var pins := MapServer.Pins(s.presence, listing, table, replies);
       pins.Ok? && exists p :: p in pins.value && p.user == other
  }

  lemma NotPinned(s: Services, listing: seq<UserId>, table: ObjectId -> MapServer.Lookup, replies: nat -> Reply,
                  caller: UserId, other: UserId)
    requires other !in Cached(s.profiles.cache, caller)
    ensures !Pinned(s, listing, table, replies, caller, other)
  {
    if MapServer.Pins(s.presence, listing, table, replies).Ok? {
      MapServer.PinnedIff(s.presence, listing, table, replies, other);
    }
  }

  /** Neither row nor cached set connects the two. */
  predicate Hidden(w: World, a: UserId, b: UserId) {
    && Row(a, b) !in w.graph.friends && Row(b, a) !in w.graph.friends
    && b !in Cached(w.cache, a) && a !in Cached(w.cache, b)
  }

  /** An accept of a request between the two that gets as far as its commit taking effect. */
  predicate AcceptsPair(w: World, call: Call, a: UserId, b: UserId) {
    && call.rpc.Respond? && call.rpc.accept && IsPendingBetween(w.graph, call.rpc.id, a, b)
    && w.graph.requests[call.rpc.id].addressee == call.rpc.caller
    && call.reply(0).Acked? && call.reply(1).Applied()
  }

  lemma RefreshingHidden(w: World, g: Graph, commit: Reply, x: UserId, y: UserId, reply: nat -> Reply, call: nat,
                         a: UserId, b: UserId)
    requires x != y && Hidden(w, a, b) && Row(a, b) !in g.friends && Row(b, a) !in g.friends
    ensures Hidden(Refreshing(w, g, commit, x, y, reply, call).world, a, b)
  {
    RefreshExact(g, w.cache, [x, y], reply, call);
    assert b !in FriendIds(g, a) && a !in FriendIds(g, b);
  }

  lemma HandleHidden(w: World, call: Call, a: UserId, b: UserId)
    requires Inv(w.graph) && Hidden(w, a, b) && !AcceptsPair(w, call, a, b)
    ensures Hidden(Handle(w, call).world, a, b)
  {
    var g, reply := w.graph, call.reply;
    match call.rpc
    case Send(caller, target, id) =>
      SendKeepsRows(w, caller, target, id, reply);
    case Respond(caller, id, accept) =>
      RespondHidden(w, caller, id, accept, reply, a, b);
    case Remove(caller, target) =>
      if caller != target {
        RefreshingHidden(w, Unfriending(g, caller, target), reply(0), caller, target, reply, 1, a, b);
      }
    case Block(caller, target) =>
      if caller != target {
        RefreshingHidden(w, Blocking(g, caller, target), reply(0), caller, target, reply, 1, a, b);
      }
    case Unblock(caller, target) =>
  }

  lemma RespondHidden(w: World, caller: UserId, id: RequestId, accept: bool, reply: nat -> Reply, a: UserId, b: UserId)
    requires Inv(w.graph) && Hidden(w, a, b) && !AcceptsPair(w, Call(Respond(caller, id, accept), reply), a, b)
    ensures Hidden(SendFriendResponse(w, caller, id, accept, reply).world, a, b)
  {
    var g := w.graph;
    if accept && IsPending(g, id) {
      var r := g.requests[id];
      if !r.Between(a, b) {
        RefreshingHidden(w, Accepting(g, id, r.sender, r.addressee), reply(1), r.sender, r.addressee, reply, 2, a, b);
      }
    }
  }

  ghost predicate NeverAccepted(s: Services, events: seq<Event>, ttl: int, a: UserId, b: UserId)
    decreases events
  {
    events != [] ==>
      && (events[0].Profile? ==> !AcceptsPair(s.profiles, events[0].call, a, b))
      && NeverAccepted(Step(s, events[0], ttl), events[1..], ttl, a, b)
  }

  lemma {:induction false} RunHidden(s: Services, events: seq<Event>, ttl: int, a: UserId, b: UserId)
    requires Inv(s.profiles.graph) && Hidden(s.profiles, a, b) && NeverAccepted(s, events, ttl, a, b)
    ensures Hidden(Run(s, events, ttl).profiles, a, b)
    decreases events
  {
    if events != [] {
      if events[0].Profile? {
        HandleInv(s.profiles, events[0].call);
        HandleHidden(s.profiles, events[0].call, a, b);
      }
      RunHidden(Step(s, events[0], ttl), events[1..], ttl, a, b);
    }
  }

  lemma {:induction false} RunInv(s: Services, events: seq<Event>, ttl: int)
    requires Inv(s.profiles.graph)
    ensures Inv(Run(s, events, ttl).profiles.graph)
    decreases events
  {
    if events != [] {
      if events[0].Profile? {
        HandleInv(s.profiles, events[0].call);
      }
      RunInv(Step(s, events[0], ttl), events[1..], ttl);
    }
  }

  lemma BlockHides(w: World, a: UserId, b: UserId, reply: nat -> Reply)
    requires Inv(w.graph) && BlockUser(w, a, b, reply).code.OK?
    ensures Hidden(BlockUser(w, a, b, reply).world, a, b)
  {
    var o := Handle(w, Call(Block(a, b), reply));
    HandleExact(w, Call(Block(a, b), reply));
    assert Exact(o.world, a) && Exact(o.world, b);
    assert o.world.graph == Blocking(w.graph, a, b);
    assert b !in FriendIds(o.world.graph, a) && a !in FriendIds(o.world.graph, b);
  }

  /**
   Once BlockUser(a, b) has returned OK, whatever happens in either service and whatever
   fails there, neither user is shown to the other at any object or as a pin, until an
   accept of a request between them commits.
   */
  lemma BlockIsEffective(before: seq<Event>, a: UserId, b: UserId, reply: nat -> Reply, after: seq<Event>, ttl: int,
                         friends: seq<UserId>, table: ObjectId -> MapServer.Lookup, replies: nat -> Reply)
    requires var w := Run(START, before, ttl).profiles; BlockUser(w, a, b, reply).code.OK?
    requires var blocked := Step(Run(START, before, ttl), Profile(Call(Block(a, b), reply)), ttl);
             NeverAccepted(blocked, after, ttl, a, b)
    ensures var s := Run(Step(Run(START, before, ttl), Profile(Call(Block(a, b), reply)), ttl), after, ttl);
            && !SeenOnMap(s, a, b) && !SeenOnMap(s, b, a)
            && !Pinned(s, friends, table, replies, a, b) && !Pinned(s, friends, table, replies, b, a)
  {
    var s0 := Run(START, before, ttl);
    RunInv(START, before, ttl);
    BlockHides(s0.profiles, a, b, reply);
    HandleInv(s0.profiles, Call(Block(a, b), reply));
    var blocked := Step(s0, Profile(Call(Block(a, b), reply)), ttl);
    RunHidden(blocked, after, ttl, a, b);
    var s := Run(blocked, after, ttl);
    NotOnMap(s, a, b);
    NotOnMap(s, b, a);
    NotPinned(s, friends, table, replies, a, b);
    NotPinned(s, friends, table, replies, b, a);
  }
}
