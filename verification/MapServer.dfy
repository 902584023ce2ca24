/** The Map service's responses: what a caller is shown of other users' presence. */
module MapServer {
  import opened Basics
  import opened Presence
  import opened ValkeyStore

  /** A row of map.map_objects. */
  datatype Object = Object(id: ObjectId, kind: string, longitude: real, latitude: real, name: string)

  datatype ObjectType = Unspecified | Park | DogPark | DogBeach

  datatype MapObject = MapObject(
    id: ObjectId, kind: ObjectType, longitude: real, latitude: real,
    visitorCount: nat, friendIdsHere: set<UserId>, viewerVisiting: bool, name: string)

  datatype FriendPresence = FriendPresence(
    user: UserId, obj: ObjectId, name: string, latitude: real, longitude: real)

  datatype Status = Unauthenticated | InvalidArgument | NotFound | Internal

  datatype Response<+T> = Ok(value: T) | Error(status: Status)

  datatype Lookup = Found(row: Object) | Missing | Failed

  type Friends = map<UserId, set<UserId>>

  const WORD := 0x1_0000_0000

  function ToProto(kind: string): ObjectType {
    match kind
    case "PARK" => Park
    case "DOG_PARK" => DogPark
    case "DOG_BEACH" => DogBeach
    case _ => Unspecified
  }

  function FriendsOf(friends: Friends, user: UserId): set<UserId> {
    if user in friends then friends[user] else {}
  }

  // ---------- LoadMap ----------

  /** What the caller is shown of one object. The count is cut to 32 bits. */
  function View(s: State, friends: Friends, o: Object, caller: UserId, callerObject: ObjectId): MapObject {
    MapObject(o.id, ToProto(o.kind), o.longitude, o.latitude,
              VisitorCount(s, o.id) % WORD,
              Visitors(s, o.id) * FriendsOf(friends, caller),
              o.id == callerObject && callerObject != "",
              o.name)
  }

  /** `reply(2 * i)` and `reply(2 * i + 1)` are the two presence reads for `objs[i]`. */
  function Views(s: State, friends: Friends, objs: seq<Object>, caller: UserId, callerObject: ObjectId,
                 reply: nat -> Reply): Response<seq<MapObject>> {
    if objs == [] then Ok([])
    else
      var last := |objs| - 1;
      match Views(s, friends, objs[..last], caller, callerObject, reply)
      case Error(status) => Error(status)
      case Ok(views) =>
        if reply(2 * last).Failed() || reply(2 * last + 1).Failed() then Error(Internal)
        else Ok(views + [View(s, friends, objs[last], caller, callerObject)])
  }

  /** A failed read of the caller's own presence counts as no presence. */
  function CallerObject(s: State, caller: UserId, reply: Reply): ObjectId {
    if reply.Failed() then "" else CurrentObject(s, caller)
  }

  predicate InRange(longitude: real, latitude: real) {
    -180.0 <= longitude <= 180.0 && -90.0 <= latitude <= 90.0
  }

  function Loaded(s: State, friends: Friends, caller: Option<UserId>, longitude: real, latitude: real,
                   within: Option<seq<Object>>, own: Reply, reply: nat -> Reply): Response<seq<MapObject>> {
    if caller.None? then Error(Unauthenticated)
    else if !InRange(longitude, latitude) then Error(InvalidArgument)
    else if within.None? then Error(Internal)
    else Views(s, friends, within.value, caller.value, CallerObject(s, caller.value, own), reply)
  }

  /**
   All that a response may depend on: how many visitors an object has, which of them are
   the caller's friends, and where the caller is. The friend sets themselves may differ.
   */
  ghost predicate LooksAlike(s: State, t: State, friends: Friends, others: Friends, objs: seq<Object>, caller: UserId) {
    && CurrentObject(s, caller) == CurrentObject(t, caller)
    && forall o | o in objs ::
         && VisitorCount(s, o.id) == VisitorCount(t, o.id)
         && Visitors(s, o.id) * FriendsOf(friends, caller) == Visitors(t, o.id) * FriendsOf(others, caller)
  }

  lemma {:induction false} ViewsAlike(s: State, t: State, friends: Friends, others: Friends, objs: seq<Object>,
                                      caller: UserId, callerObject: ObjectId, reply: nat -> Reply)
    requires LooksAlike(s, t, friends, others, objs, caller)
    ensures Views(s, friends, objs, caller, callerObject, reply) == Views(t, others, objs, caller, callerObject, reply)
  {
    if objs != [] {
      ViewsAlike(s, t, friends, others, objs[..|objs| - 1], caller, callerObject, reply);
    }
  }

  lemma NonInterference(s: State, t: State, friends: Friends, others: Friends, caller: UserId, longitude: real, latitude: real,
                        objs: seq<Object>, own: Reply, reply: nat -> Reply)
    requires LooksAlike(s, t, friends, others, objs, caller)
    ensures Loaded(s, friends, Some(caller), longitude, latitude, Some(objs), own, reply)
         == Loaded(t, others, Some(caller), longitude, latitude, Some(objs), own, reply)
  {
    ViewsAlike(s, t, friends, others, objs, caller, CallerObject(s, caller, own), reply);
  }

  /** The state with one user's presence and memberships handed to another. */
  function Replaced(s: State, was: UserId, other: UserId): State {
    State(s.presence - {was} + (if was in s.presence then map[other := s.presence[was]] else map[]),
          set m | m in s.members :: if m.user == was then Member(m.obj, other) else m,
          s.now)
  }

  /** A stranger cannot be told from another stranger who visits nothing. */
  lemma StrangersInterchangeable(s: State, was: UserId, other: UserId, friends: Friends, caller: UserId,
                                 longitude: real, latitude: real, objs: seq<Object>, own: Reply, reply: nat -> Reply)
    requires caller !in {was, other} && was !in FriendsOf(friends, caller) && other !in FriendsOf(friends, caller)
    requires was != other && forall m | m in s.members :: m.user != other
    ensures Loaded(s, friends, Some(caller), longitude, latitude, Some(objs), own, reply)
         == Loaded(Replaced(s, was, other), friends, Some(caller), longitude, latitude, Some(objs), own, reply)
  {
    var t := Replaced(s, was, other);
    forall o: ObjectId
      ensures VisitorCount(s, o) == VisitorCount(t, o)
      ensures Visitors(s, o) * FriendsOf(friends, caller) == Visitors(t, o) * FriendsOf(friends, caller)
    {
      VisitorsReplaced(s, was, other, o);
    }
    NonInterference(s, t, friends, friends, caller, longitude, latitude, objs, own, reply);
  }

  lemma VisitorsReplaced(s: State, was: UserId, other: UserId, obj: ObjectId)
    requires was != other && forall m | m in s.members :: m.user != other
    ensures var there, after := Visitors(s, obj), Visitors(Replaced(s, was, other), obj);
            after == (if was in there then there - {was} + {other} else there) && |after| == |there|
  {
    var t := Replaced(s, was, other);
    var there := Visitors(s, obj);
    assert forall u :: u in there <==> Member(obj, u) in s.members;
    var expected := if was in there then there - {was} + {other} else there;
    forall u
      ensures u in Visitors(t, obj) <==> u in expected
    {
      MemberReplaced(s, was, other, Member(obj, u));
    }
    assert Visitors(t, obj) == expected && other !in there;
  }

  lemma MemberReplaced(s: State, was: UserId, other: UserId, m: Member)
    requires was != other && forall k | k in s.members :: k.user != other
    ensures m in Replaced(s, was, other).members <==>
              if m.user == other then Member(m.obj, was) in s.members else m.user != was && m in s.members
    ensures m.user in Visitors(Replaced(s, was, other), m.obj) <==> m in Replaced(s, was, other).members
  {
    var t := Replaced(s, was, other);
    var k := Member(m.obj, if m.user == other then was else m.user);
    if k in s.members {
      assert (if k.user == was then Member(k.obj, other) else k) in t.members;
    }
  }

  lemma {:induction false} ViewsShape(s: State, friends: Friends, objs: seq<Object>, caller: UserId,
                                      callerObject: ObjectId, reply: nat -> Reply)
    ensures var r := Views(s, friends, objs, caller, callerObject, reply);
            && (r.Ok? <==> forall i | 0 <= i < 2 * |objs| :: reply(i).Acked?)
            && (r.Ok? ==> r.value == seq(|objs|, i requires 0 <= i < |objs| => View(s, friends, objs[i], caller, callerObject)))
            && (r.Error? ==> r.status == Internal)
  {
    if objs != [] {
      var last := |objs| - 1;
      ViewsShape(s, friends, objs[..last], caller, callerObject, reply);
    }
  }

  lemma ViewsNext(s: State, friends: Friends, objs: seq<Object>, n: nat, caller: UserId, callerObject: ObjectId,
                  reply: nat -> Reply)
    requires n < |objs| && Views(s, friends, objs[..n], caller, callerObject, reply).Ok?
    ensures Views(s, friends, objs[..n + 1], caller, callerObject, reply) ==
            if reply(2 * n).Failed() || reply(2 * n + 1).Failed() then Error(Internal)
            else Ok(Views(s, friends, objs[..n], caller, callerObject, reply).value +
                    [View(s, friends, objs[n], caller, callerObject)])
  {
    assert objs[..n + 1][..n] == objs[..n];
  }

  function KindNamed(kind: string): ObjectType {
    if kind == "PARK" then Park else if kind == "DOG_PARK" then DogPark else if kind == "DOG_BEACH" then DogBeach else Unspecified
  }

  /** What everybody is shown of an object: its row, and how many visit it. */
  predicate ShowsObject(s: State, v: MapObject, o: Object) {
    && v.id == o.id && v.name == o.name && v.longitude == o.longitude && v.latitude == o.latitude && v.kind == KindNamed(o.kind)
    && v.visitorCount == |set m | m in s.members && m.obj == o.id| % 0x1_0000_0000
  }

  /** What the caller alone is shown: which visitors are the caller's cached friends, and whether it is where the caller is. */
  ghost predicate ShowsCaller(s: State, friends: Friends, v: MapObject, caller: UserId, own: Reply) {
    && (forall u :: u in v.friendIdsHere <==> Member(v.id, u) in s.members && caller in friends && u in friends[caller])
    && (own.Acked? ==>
          (v.viewerVisiting <==> caller in s.presence && s.presence[caller].obj == v.id && v.id != ""))
    && (own.Failed() ==> !v.viewerVisiting)
  }

  lemma CountIsMembers(s: State, obj: ObjectId)
    ensures VisitorCount(s, obj) == |set m | m in s.members && m.obj == obj|
  {
    var here := set m | m in s.members && m.obj == obj;
    forall u | u in Visitors(s, obj)
      ensures Member(obj, u) in here
    {
    }
    BijectionSize(here, (m: Member) => m.user, Visitors(s, obj));
  }

  /** Every answer of LoadMap, object by object. */
  lemma LoadShows(s: State, friends: Friends, caller: UserId, longitude: real, latitude: real, objs: seq<Object>,
                  own: Reply, reply: nat -> Reply)
    ensures var r := Loaded(s, friends, Some(caller), longitude, latitude, Some(objs), own, reply);
            r.Ok? ==> |r.value| == |objs| && forall i | 0 <= i < |objs| ::
              ShowsObject(s, r.value[i], objs[i]) && ShowsCaller(s, friends, r.value[i], caller, own)
  {
    var at := CallerObject(s, caller, own);
    ViewsShape(s, friends, objs, caller, at, reply);
    forall i | 0 <= i < |objs|
      ensures ShowsObject(s, View(s, friends, objs[i], caller, at), objs[i])
      ensures ShowsCaller(s, friends, View(s, friends, objs[i], caller, at), caller, own)
    {
      CountIsMembers(s, objs[i].id);
      ViewShowsCaller(s, friends, objs[i], caller, own);
    }
  }

  lemma ViewShowsCaller(s: State, friends: Friends, o: Object, caller: UserId, own: Reply)
    ensures ShowsCaller(s, friends, View(s, friends, o, caller, CallerObject(s, caller, own)), caller, own)
  {
    forall u
      ensures u in Visitors(s, o.id) <==> Member(o.id, u) in s.members
    {
      assert Member(o.id, u).user == u;
    }
  }

  /** Who is answered at all: a caller with a session, a point on the globe, and every read but that of the caller's own presence. */
  lemma LoadAnswersIff(s: State, friends: Friends, caller: Option<UserId>, longitude: real, latitude: real,
                       within: Option<seq<Object>>, own: Reply, reply: nat -> Reply)
    ensures var r := Loaded(s, friends, caller, longitude, latitude, within, own, reply);
            var globe := -180.0 <= longitude && longitude <= 180.0 && -90.0 <= latitude && latitude <= 90.0;
            && (r == Error(Unauthenticated) <==> caller.None?)
            && (r == Error(InvalidArgument) <==> caller.Some? && !globe)
            && (r.Ok? <==> caller.Some? && globe && within.Some? && forall i | 0 <= i < 2 * |within.value| :: reply(i).Acked?)
            && (r.Error? ==> r.status != NotFound)
  {
    if caller.Some? && within.Some? {
      ViewsShape(s, friends, within.value, caller.value, CallerObject(s, caller.value, own), reply);
    }
  }

  /** Of the objects in one response, at most one is where the viewer is. */
  lemma AtMostOneVisiting(s: State, friends: Friends, caller: UserId, longitude: real, latitude: real,
                          objs: seq<Object>, own: Reply, reply: nat -> Reply, i: nat, j: nat)
    requires forall p, q | 0 <= p < q < |objs| :: objs[p].id != objs[q].id
    requires var r := Loaded(s, friends, Some(caller), longitude, latitude, Some(objs), own, reply);
             r.Ok? && i < |r.value| && j < |r.value| && r.value[i].viewerVisiting && r.value[j].viewerVisiting
    ensures i == j && i < |objs| && objs[i].id == CurrentObject(s, caller)
  {
    ViewsShape(s, friends, objs, caller, CallerObject(s, caller, own), reply);
  }

  // ---------- FriendsPresence ----------

  /** The pins of the first friends, in order: those with live presence at an object that exists. */
  function Pins(s: State, friends: seq<UserId>, table: ObjectId -> Lookup, reply: nat -> Reply)
    : Response<seq<FriendPresence>>
  {
    if friends == [] then Ok([])
    else
      var last := |friends| - 1;
      match Pins(s, friends[..last], table, reply)
      case Error(status) => Error(status)
      case Ok(pins) =>
        if reply(last).Failed() then Error(Internal)
        else
          var at := CurrentObject(s, friends[last]);
          if at == "" || table(at).Missing? then Ok(pins)
          else if table(at).Failed? then Error(Internal)
          else Ok(pins + [Pin(friends[last], table(at).row)])
  }

  function Pin(user: UserId, o: Object): FriendPresence {
    FriendPresence(user, o.id, o.name, o.latitude, o.longitude)
  }

  /** A friend is pinned exactly when on a walk at an object that has a row. */
  lemma {:induction false} PinnedIff(s: State, friends: seq<UserId>, table: ObjectId -> Lookup, reply: nat -> Reply,
                                     user: UserId)
    requires Pins(s, friends, table, reply).Ok?
    ensures (exists p :: p in Pins(s, friends, table, reply).value && p.user == user)
       <==> user in friends && CurrentObject(s, user) != "" && table(CurrentObject(s, user)).Found?
    ensures forall p | p in Pins(s, friends, table, reply).value ::
              table(CurrentObject(s, p.user)).Found? && p == Pin(p.user, table(CurrentObject(s, p.user)).row)
  {
    if friends != [] {
      var last := |friends| - 1;
      PinnedIff(s, friends[..last], table, reply, user);
      assert friends == friends[..last] + [friends[last]];
      var pins := Pins(s, friends[..last], table, reply).value;
      var all := Pins(s, friends, table, reply).value;
      var at := CurrentObject(s, friends[last]);
      if all != pins {
        var pin := Pin(friends[last], table(at).row);
        assert all == pins + [pin];
        assert pin in all;
        assert forall p :: p in all <==> p in pins || p == pin;
      }
    }
  }

  /** The friend is at an object that has a row, by a live key. */
  predicate OnWalk(s: State, table: ObjectId -> Lookup, user: UserId) {
    user in s.presence && s.presence[user].obj != "" && table(s.presence[user].obj).Found?
  }

  function FilterWalking(s: State, table: ObjectId -> Lookup, friends: seq<UserId>): seq<UserId> {
    if friends == [] then []
    else (if OnWalk(s, table, friends[0]) then [friends[0]] else []) + FilterWalking(s, table, friends[1..])
  }

  lemma {:induction false} FilterLast(s: State, table: ObjectId -> Lookup, friends: seq<UserId>, last: UserId)
    ensures FilterWalking(s, table, friends + [last]) ==
            FilterWalking(s, table, friends) + (if OnWalk(s, table, last) then [last] else [])
  {
    if friends == [] {
      assert ([] + [last])[1..] == [];
    } else {
      assert (friends + [last])[1..] == friends[1..] + [last];
      FilterLast(s, table, friends[1..], last);
    }
  }

  /** The pins are the friends on a walk, each once for each time listed and in that order, with the data of their objects. */
  lemma {:induction false} PinsInOrder(s: State, friends: seq<UserId>, table: ObjectId -> Lookup, reply: nat -> Reply)
    ensures var r := Pins(s, friends, table, reply);
            r.Ok? ==>
              var walking := FilterWalking(s, table, friends);
              |r.value| == |walking| && forall i | 0 <= i < |walking| ::
                OnWalk(s, table, walking[i]) &&
                var o := table(s.presence[walking[i]].obj).row;
                r.value[i] == FriendPresence(walking[i], o.id, o.name, o.latitude, o.longitude)
  {
    if friends != [] {
      var last := |friends| - 1;
      PinsInOrder(s, friends[..last], table, reply);
      assert friends == friends[..last] + [friends[last]];
      FilterLast(s, table, friends[..last], friends[last]);
    }
  }

  predicate LookupFails(s: State, table: ObjectId -> Lookup, user: UserId) {
    user in s.presence && s.presence[user].obj != "" && table(s.presence[user].obj).Failed?
  }

  /** Pins are answered exactly when no presence read and no lookup that is needed fails; a missing row is no failure. */
  lemma {:induction false} PinsAnswerIff(s: State, friends: seq<UserId>, table: ObjectId -> Lookup, reply: nat -> Reply)
    ensures Pins(s, friends, table, reply).Ok? <==>
              forall i | 0 <= i < |friends| :: reply(i).Acked? && !LookupFails(s, table, friends[i])
    ensures Pins(s, friends, table, reply).Error? ==> Pins(s, friends, table, reply).status == Internal
  {
    if friends != [] {
      PinsAnswerIff(s, friends[..|friends| - 1], table, reply);
    }
  }

  /**
   A friend pinned at an object is also among the friends the map shows there, at the same
   place and under the same name, whenever presence is backed by memberships.
   */
  lemma PinsAgreeWithMap(s: State, friends: Friends, caller: UserId, longitude: real, latitude: real,
                         objs: seq<Object>, own: Reply, reply: nat -> Reply,
                         listing: seq<UserId>, table: ObjectId -> Lookup, other: nat -> Reply,
                         pin: FriendPresence, shown: MapObject)
    requires Backed(s) && forall u | u in listing :: u in FriendsOf(friends, caller)
    requires forall o | o in objs :: table(o.id) == Found(o)
    requires var loaded := Loaded(s, friends, Some(caller), longitude, latitude, Some(objs), own, reply);
             loaded.Ok? && shown in loaded.value
    requires var pins := Pins(s, listing, table, other); pins.Ok? && pin in pins.value
    requires CurrentObject(s, pin.user) == shown.id
    ensures pin.user in shown.friendIdsHere && shown.visitorCount == VisitorCount(s, pin.obj) % WORD
    ensures pin.obj == shown.id && pin.name == shown.name
    ensures pin.latitude == shown.latitude && pin.longitude == shown.longitude
  {
    ViewsShape(s, friends, objs, caller, CallerObject(s, caller, own), reply);
    var i :| 0 <= i < |objs| && shown == View(s, friends, objs[i], caller, CallerObject(s, caller, own));
    PinnedIff(s, listing, table, other, pin.user);
    assert objs[i] in objs && table(shown.id) == Found(objs[i]);
    assert Member(shown.id, pin.user) in s.members;
  }

  // ---------- The server ----------

  datatype Action = Visiting | NotVisiting | Other

  class Server {
    const store: Store
    const radius: int
    const ttl: int

    constructor (store: Store, radius: int, ttl: int)
      ensures this.store == store && this.radius > 0 && this.ttl > 0
      ensures this.radius == (if radius <= 0 then 5000 else radius) && this.ttl == (if ttl <= 0 then 900 else ttl)
    {
      this.store := store;
      this.radius := if radius <= 0 then 5000 else radius;
      this.ttl := if ttl <= 0 then 900 else ttl;
    }

    method ViewOf(o: Object, caller: UserId, callerObject: ObjectId, count: Reply, here: Reply)
      returns (view: Option<MapObject>)
      requires store.Valid()
      ensures view == if count.Failed() || here.Failed() then None
                      else Some(View(store.Value(), store.friends, o, caller, callerObject))
    {
      var n := store.VisitorCount(o.id, count);
      if n.None? {
        return None;
      }
      var ids := store.FriendIdsHere(o.id, caller, here);
      if ids.None? {
        return None;
      }
      view := Some(MapObject(o.id, ToProto(o.kind), o.longitude, o.latitude, n.value % WORD, ids.value,
                             o.id == callerObject && callerObject != "", o.name));
    }

    method LoadMap(caller: Option<UserId>, longitude: real, latitude: real, within: Option<seq<Object>>,
                   own: Reply, reply: nat -> Reply)
      returns (r: Response<seq<MapObject>>)
      requires store.Valid()
      ensures r == Loaded(store.Value(), store.friends, caller, longitude, latitude, within, own, reply)
    {
      if caller.None? {
        return Error(Unauthenticated);
      }
      if longitude < -180.0 || longitude > 180.0 || latitude < -90.0 || latitude > 90.0 {
        return Error(InvalidArgument);
      }
      if within.None? {
        return Error(Internal);
      }
      var at := store.CurrentObject(caller.value, own);
      var callerObject := if at.Some? then at.value else "";
      var objs, out := within.value, [];
      for i := 0 to |objs|
        invariant Views(store.Value(), store.friends, objs[..i], caller.value, callerObject, reply) == Ok(out)
      {
        ViewsNext(store.Value(), store.friends, objs, i, caller.value, callerObject, reply);
        var view := ViewOf(objs[i], caller.value, callerObject, reply(2 * i), reply(2 * i + 1));
        if view.None? {
          ViewsShape(store.Value(), store.friends, objs, caller.value, callerObject, reply);
          return Error(Internal);
        }
        out := out + [view.value];
      }
      assert objs[..|objs|] == objs;
      r := Ok(out);
    }

    method ChangeMapObjectStatus(caller: Option<UserId>, id: ObjectId, row: Lookup, action: Action, r: MarkReplies,
                                 del: Reply, own: Reply, count: Reply, here: Reply)
      returns (response: Response<MapObject>)
      requires store.Valid() && (row.Found? ==> row.row.id == id)
      modifies store`sets, store`presence
      ensures store.Valid()
      ensures store.Value() ==
              if caller.None? || id == "" || !row.Found? || action.Other? then old(store.Value())
              else if action.Visiting? then MarkVisiting(old(store.Value()), caller.value, id, ttl, r).0
              else MarkNotVisiting(old(store.Value()), caller.value, id, r.srem, del).0
      ensures response ==
              if caller.None? then Error(Unauthenticated)
              else if id == "" then Error(InvalidArgument)
              else if row.Missing? then Error(NotFound)
              else if row.Failed? then Error(Internal)
              else if action.Other? then Error(InvalidArgument)
              else if !(if action.Visiting? then MarkVisiting(old(store.Value()), caller.value, id, ttl, r).1
                        else MarkNotVisiting(old(store.Value()), caller.value, id, r.srem, del).1) then Error(Internal)
              else if count.Failed() || here.Failed() then Error(Internal)
              else Ok(View(store.Value(), store.friends, row.row, caller.value, CallerObject(store.Value(), caller.value, own)))
      ensures response.Ok? ==>
              && (own.Acked? ==> (response.value.viewerVisiting <==> action.Visiting?))
              && (action.Visiting? ==> Live(store.Value(), Member(id, caller.value))
                                       && Member(id, caller.value) in store.Value().members)
              && (action.NotVisiting? ==> CurrentObject(store.Value(), caller.value) == ""
                                          && Member(id, caller.value) !in store.Value().members)
    {
      if caller.None? {
        return Error(Unauthenticated);
      }
      if id == "" {
        return Error(InvalidArgument);
      }
      match row {
        case Missing => return Error(NotFound);
        case Failed => return Error(Internal);
        case Found(o) =>
          match action {
            case Visiting =>
              var ok := store.MarkVisiting(caller.value, o.id, ttl, r);
              if !ok {
                return Error(Internal);
              }
            case NotVisiting =>
              var ok := store.MarkNotVisiting(caller.value, o.id, r.srem, del);
              if !ok {
                return Error(Internal);
              }
            case Other =>
              return Error(InvalidArgument);
          }
          var at := store.CurrentObject(caller.value, own);
          var view := ViewOf(o, caller.value, if at.Some? then at.value else "", count, here);
          response := if view.None? then Error(Internal) else Ok(view.value);
      }
    }

    /** Each object row is looked up once and kept; rows that are missing are looked up again. */
    method FriendsPresence(caller: Option<UserId>, friendIds: Option<seq<UserId>>, table: ObjectId -> Lookup,
                           reply: nat -> Reply)
      returns (r: Response<seq<FriendPresence>>)
      ensures r == if caller.None? then Error(Unauthenticated)
                   else if friendIds.None? then Error(Internal)
                   else Pins(store.Value(), friendIds.value, table, reply)
    {
      if caller.None? {
        return Error(Unauthenticated);
      }
      if friendIds.None? {
        return Error(Internal);
      }
      var friends := friendIds.value;
      var cache: map<ObjectId, Object> := map[];
      var out := [];
      for i := 0 to |friends|
        invariant Pins(store.Value(), friends[..i], table, reply) == Ok(out)
        invariant forall id | id in cache :: table(id) == Found(cache[id])
      {
        assert friends[..i + 1][..i] == friends[..i];
        var at := store.CurrentObject(friends[i], reply(i));
        if at.None? {
          PinsPrefix(store.Value(), friends, table, reply, i + 1);
          return Error(Internal);
        }
        if at.value == "" {
          continue;
        }
        if at.value !in cache {
          match table(at.value) {
            case Missing =>
              continue;
            case Failed =>
              PinsPrefix(store.Value(), friends, table, reply, i + 1);
              return Error(Internal);
            case Found(row) =>
              cache := cache[at.value := row];
          }
        }
        out := out + [Pin(friends[i], cache[at.value])];
      }
      assert friends[..|friends|] == friends;
      r := Ok(out);
    }
  }

  /** An error on a prefix is the error of the whole list. */
  lemma {:induction false} PinsPrefix(s: State, friends: seq<UserId>, table: ObjectId -> Lookup, reply: nat -> Reply, n: nat)
    requires n <= |friends| && Pins(s, friends[..n], table, reply).Error?
    ensures Pins(s, friends, table, reply) == Pins(s, friends[..n], table, reply)
    decreases |friends|
  {
    if n == |friends| {
      assert friends[..n] == friends;
    } else {
      var last := |friends| - 1;
      assert friends[..last][..n] == friends[..n];
      PinsPrefix(s, friends[..last], table, reply, n);
    }
  }
}
