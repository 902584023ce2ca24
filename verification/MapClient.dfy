/** The web client's poller object and the presence part of its map store. */
module MapClient {
  import opened Basics
  import Poller

  /** The closure: an interval handle and a flag; `clock` is the browser's. */
  class Interval {
    const interval: nat
    var handle: Option<int>
    var inFlight: bool
    var clock: int
    ghost var began: int
    ghost var starts: seq<int>
    ghost var settled: nat

    ghost function Value(): Poller.State
      reads this
    {
      Poller.State(clock, handle, if inFlight then Some(began) else None, starts, settled)
    }

    constructor (interval: nat, now: int)
      ensures this.interval == interval && Value() == Poller.Fresh(now)
    {
      this.interval := interval;
      handle, inFlight, clock := None, false, now;
      began, starts, settled := 0, [], 0;
    }

    method RunTick() returns (runs: bool)
      modifies this
      ensures Value() == Poller.RunTick(old(Value())) && runs == !old(inFlight)
    {
      if inFlight {
        return false;
      }
      inFlight := true;
      began, starts := clock, starts + [clock];
      runs := true;
    }

    method Settle()
      modifies this
      ensures Value() == Poller.Settle(old(Value()))
    {
      if inFlight {
        settled := settled + 1;
      }
      inFlight := false;
    }

    method Start(immediately: bool)
      modifies this
      ensures Value() == Poller.Start(old(Value()), interval, immediately)
    {
      if handle.Some? {
        return;
      }
      handle := Some(clock + interval);
      if immediately {
        var _ := RunTick();
      }
    }

    method Stop()
      modifies this
      ensures Value() == Poller.Stop(old(Value()))
    {
      if handle.Some? {
        handle := None;
      }
    }
  }

  datatype MapObject = MapObject(id: ObjectId, viewerVisiting: bool)

  datatype FriendPresence = FriendPresence(user: UserId, obj: ObjectId)

  /** The first object the caller is at, as LoadMap reported them. */
  function Here(objects: seq<MapObject>): Option<ObjectId> {
    if objects == [] then None
    else if objects[0].viewerVisiting then Some(objects[0].id)
    else Here(objects[1..])
  }

  /** No object and an object without an id both count as being nowhere. */
  predicate Somewhere(presence: Option<ObjectId>) {
    presence.Some? && presence.value != ""
  }

  /** Replaces the first object with this id, or adds one. */
  function Upsert(objects: seq<MapObject>, updated: MapObject): seq<MapObject> {
    if objects == [] then [updated]
    else if objects[0].id == updated.id then [updated] + objects[1..]
    else [objects[0]] + Upsert(objects[1..], updated)
  }

  predicate DistinctIds(objects: seq<MapObject>) {
    forall i, j | 0 <= i < j < |objects| :: objects[i].id != objects[j].id
  }

  /** The updated object takes the place of the one with its id; all others stay. */
  lemma {:induction false} UpsertReplaces(objects: seq<MapObject>, updated: MapObject)
    requires DistinctIds(objects)
    ensures forall o :: o in Upsert(objects, updated) <==> o == updated || (o in objects && o.id != updated.id)
    ensures DistinctIds(Upsert(objects, updated))
  {
    if objects != [] {
      var rest := objects[1..];
      assert objects == [objects[0]] + rest;
      if objects[0].id == updated.id {
        assert forall o | o in rest :: o.id != updated.id;
      } else {
        UpsertReplaces(rest, updated);
        var more := Upsert(rest, updated);
        assert forall k | 0 <= k < |more| :: more[k] in more && more[k].id != objects[0].id;
      }
    }
  }

  /** Presence is derived from what the server reports, and the heartbeat follows it. */
  class MapStore {
    const heartbeat: Interval
    var objects: seq<MapObject>
    var friendsPresence: seq<FriendPresence>
    var myPresence: Option<ObjectId>
    var loading: bool

    constructor (heartbeat: Interval)
      ensures this.heartbeat == heartbeat && objects == [] && friendsPresence == [] && myPresence == None && !loading
    {
      this.heartbeat := heartbeat;
      objects, friendsPresence, myPresence, loading := [], [], None, false;
    }

    /**
     A failed load leaves everything as it was; a load while already visiting leaves the beat
     as it was; the friends' pins follow a load that succeeded, if they can be fetched.
     */
    method Refresh(response: Option<seq<MapObject>>, pins: Option<seq<FriendPresence>>)
      modifies this, heartbeat
      ensures !loading
      ensures response.None? ==>
                && objects == old(objects) && myPresence == old(myPresence)
                && friendsPresence == old(friendsPresence) && heartbeat.Value() == old(heartbeat.Value())
      ensures response.Some? ==>
                && objects == response.value && myPresence == Here(response.value)
                && friendsPresence == (if pins.Some? then pins.value else old(friendsPresence))
                && heartbeat.Value() == if Somewhere(myPresence) then Poller.Start(old(heartbeat.Value()), heartbeat.interval, false)
                                        else Poller.Stop(old(heartbeat.Value()))
      ensures response.Some? ==> (heartbeat.handle.Some? <==> Somewhere(myPresence))
      ensures response.Some? && (forall o | o in objects :: o.id != "") ==>
                (heartbeat.handle.Some? <==> exists o :: o in objects && o.viewerVisiting)
    {
      loading := true;
      if response.Some? {
        objects := response.value;
        myPresence := Here(objects);
        HereIff(objects);
        if Somewhere(myPresence) {
          heartbeat.Start(false);
        } else {
          heartbeat.Stop();
        }
        if pins.Some? {
          friendsPresence := pins.value;
        }
      }
      loading := false;
    }

    /** The heartbeat's tick: sends VISITING for the current object, or nothing and no more beats. */
    method Beat(response: Option<MapObject>) returns (send: Option<ObjectId>)
      modifies this`objects, heartbeat
      ensures send == if Somewhere(myPresence) then myPresence else None
      ensures heartbeat.Value() == if send.None? then Poller.Stop(old(heartbeat.Value())) else old(heartbeat.Value())
      ensures objects == if send.Some? && response.Some? then Upsert(old(objects), response.value) else old(objects)
    {
      if !Somewhere(myPresence) {
        heartbeat.Stop();
        return None;
      }
      send := myPresence;
      if response.Some? {
        objects := Upsert(objects, response.value);
      }
    }
  }

  /** The first one that says so. */
  ghost predicate FirstVisiting(objects: seq<MapObject>, i: nat) {
    i < |objects| && objects[i].viewerVisiting && forall j | 0 <= j < i :: !objects[j].viewerVisiting
  }

  lemma {:induction false} HereIff(objects: seq<MapObject>)
    ensures Here(objects).Some? <==> exists o :: o in objects && o.viewerVisiting
    ensures Here(objects).Some? ==> MapObject(Here(objects).value, true) in objects
  {
    if objects != [] {
      HereIff(objects[1..]);
      assert objects == [objects[0]] + objects[1..];
    }
  }

  lemma {:induction false} HereFirst(objects: seq<MapObject>, i: nat)
    requires FirstVisiting(objects, i)
    ensures Here(objects) == Some(objects[i].id)
    decreases i
  {
    if i > 0 {
      assert forall j | 0 <= j < i - 1 :: objects[1..][j] == objects[j + 1];
      HereFirst(objects[1..], i - 1);
    }
  }
}
