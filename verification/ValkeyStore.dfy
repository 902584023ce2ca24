/** The visitor-set keys of Valkey: `object:{id}:visitors`. */
module VisitorKeys {
  import opened Basics

  const PREFIX := "object:"
  const SUFFIX := ":visitors"

  function VisitorsKey(obj: ObjectId): string {
    PREFIX + obj + SUFFIX
  }

  predicate HasSuffix(s: string, suffix: string) {
    |suffix| <= |s| && s[|s| - |suffix|..] == suffix
  }

  function TrimPrefix(s: string, prefix: string): string {
    if prefix <= s then s[|prefix|..] else s
  }

  function TrimSuffix(s: string, suffix: string): string {
    if HasSuffix(s, suffix) then s[..|s| - |suffix|] else s
  }

  function ObjectIdFromKey(key: string): ObjectId {
    TrimSuffix(TrimPrefix(key, PREFIX), SUFFIX)
  }

  /** The SCAN pattern `object:*:visitors`. */
  predicate Matches(key: string) {
    PREFIX <= key && HasSuffix(key[|PREFIX|..], SUFFIX)
  }

  lemma IdOfKey(obj: ObjectId)
    ensures ObjectIdFromKey(VisitorsKey(obj)) == obj
    ensures Matches(VisitorsKey(obj)) && VisitorsKey(obj) == "object:" + obj + ":visitors"
  {
    var key := VisitorsKey(obj);
    assert key == PREFIX + (obj + SUFFIX);
    assert key[|PREFIX|..] == obj + SUFFIX;
    assert (obj + SUFFIX)[|obj|..] == SUFFIX;
  }

  /** The key rebuilt from the id is the key itself exactly for keys the scan can return. */
  lemma KeyOfId(key: string)
    ensures VisitorsKey(ObjectIdFromKey(key)) == key <==> Matches(key)
    ensures Matches(key) <==> exists id :: key == "object:" + id + ":visitors"
  {
    if id :| key == "object:" + id + ":visitors" {
      IdOfKey(id);
    }
    IdOfKey(ObjectIdFromKey(key));
    if Matches(key) {
      var rest := key[|PREFIX|..];
      assert key == PREFIX + rest;
      assert rest == rest[..|rest| - |SUFFIX|] + SUFFIX;
      assert VisitorsKey(ObjectIdFromKey(key)) == PREFIX + (ObjectIdFromKey(key) + SUFFIX);
      assert key == "object:" + ObjectIdFromKey(key) + ":visitors";
    }
  }
}

/** The Valkey store of the Map service, command by command. */
module ValkeyStore {
  import opened Basics
  import opened Presence
  import opened VisitorKeys

  type Sets = map<string, set<UserId>>

  predicate WellKeyed(sets: Sets) {
    forall k | k in sets :: Matches(k) && sets[k] != {}
  }

  function Members(sets: Sets): set<Member> {
    set k, u | k in sets && u in sets[k] :: Member(ObjectIdFromKey(k), u)
  }

  function SetAt(sets: Sets, key: string): set<UserId> {
    if key in sets then sets[key] else {}
  }

  lemma MemberAtKey(sets: Sets, m: Member)
    requires WellKeyed(sets)
    ensures m in Members(sets) <==> m.user in SetAt(sets, VisitorsKey(m.obj))
  {
    IdOfKey(m.obj);
    if m in Members(sets) {
      var k :| k in sets && m.user in sets[k] && ObjectIdFromKey(k) == m.obj;
      KeyOfId(k);
    }
  }

  lemma VisitorsAtKey(sets: Sets, presence: map<UserId, Entry>, now: int, obj: ObjectId)
    requires WellKeyed(sets)
    ensures Visitors(State(presence, Members(sets), now), obj) == SetAt(sets, VisitorsKey(obj))
  {
    forall u
      ensures u in Visitors(State(presence, Members(sets), now), obj) <==> u in SetAt(sets, VisitorsKey(obj))
    {
      MemberAtKey(sets, Member(obj, u));
    }
  }

  /** Valkey keeps no empty sets. */
  function Stored(sets: Sets, key: string, users: set<UserId>): Sets {
    if users == {} then sets - {key} else sets[key := users]
  }

  lemma StoredMembers(sets: Sets, key: string, users: set<UserId>)
    requires WellKeyed(sets) && Matches(key)
    ensures WellKeyed(Stored(sets, key, users))
    ensures var obj := ObjectIdFromKey(key);
            forall m :: m in Members(Stored(sets, key, users)) <==>
              if m.obj == obj then m.user in users else m in Members(sets)
  {
    var obj, after := ObjectIdFromKey(key), Stored(sets, key, users);
    KeyOfId(key);
    forall m: Member
      ensures m in Members(after) <==> if m.obj == obj then m.user in users else m in Members(sets)
    {
      MemberAtKey(sets, m);
      MemberAtKey(after, m);
      IdOfKey(m.obj);
    }
  }

  lemma StoredWithout(sets: Sets, key: string, user: UserId)
    requires WellKeyed(sets) && Matches(key)
    ensures var after := Stored(sets, key, SetAt(sets, key) - {user});
            WellKeyed(after) && Members(after) == Members(sets) - {Member(ObjectIdFromKey(key), user)}
  {
    var obj, left := ObjectIdFromKey(key), SetAt(sets, key) - {user};
    StoredMembers(sets, key, left);
    KeyOfId(key);
    forall m
      ensures m in Members(Stored(sets, key, left)) <==> m in Members(sets) - {Member(obj, user)}
    {
      MemberAtKey(sets, m);
    }
  }

  lemma StoredWith(sets: Sets, key: string, user: UserId)
    requires WellKeyed(sets) && Matches(key)
    ensures var after := Stored(sets, key, SetAt(sets, key) + {user});
            WellKeyed(after) && Members(after) == Members(sets) + {Member(ObjectIdFromKey(key), user)}
  {
    var obj, joined := ObjectIdFromKey(key), SetAt(sets, key) + {user};
    StoredMembers(sets, key, joined);
    KeyOfId(key);
    forall m
      ensures m in Members(Stored(sets, key, joined)) <==> m in Members(sets) + {Member(obj, user)}
    {
      MemberAtKey(sets, m);
    }
  }

  class Store {
    var presence: map<UserId, Entry>
    var sets: Sets
    var friends: map<UserId, set<UserId>>
    var now: int

    ghost predicate Valid()
      reads this
    {
      WellKeyed(sets)
    }

    ghost function Value(): State
      reads this
    {
      State(presence, Members(sets), now)
    }

    constructor ()
      ensures Valid() && Value() == EMPTY && friends == map[]
    {
      presence, sets, friends, now := map[], map[], map[], 0;
    }

    // ---------- Single commands ----------

    method Srem(key: string, user: UserId, reply: Reply) returns (ok: bool)
      requires Valid() && Matches(key)
      modifies `sets
      ensures Valid() && ok == reply.Acked?
      ensures Value() == Presence.Srem(old(Value()), ObjectIdFromKey(key), user, reply)
    {
      ok := reply.Acked?;
      if reply.Applied() {
        StoredWithout(sets, key, user);
        sets := Stored(sets, key, SetAt(sets, key) - {user});
      }
    }

    method Sadd(key: string, user: UserId, reply: Reply) returns (ok: bool)
      requires Valid() && Matches(key)
      modifies `sets
      ensures Valid() && ok == reply.Acked?
      ensures Value() == Presence.Sadd(old(Value()), ObjectIdFromKey(key), user, reply)
    {
      ok := reply.Acked?;
      if reply.Applied() {
        StoredWith(sets, key, user);
        sets := Stored(sets, key, SetAt(sets, key) + {user});
      }
    }

    method SetEx(user: UserId, obj: ObjectId, ttl: int, reply: Reply) returns (ok: bool)
      modifies `presence
      ensures ok == reply.Acked? && Value() == Presence.SetEx(old(Value()), user, obj, ttl, reply)
    {
      ok := reply.Acked?;
      if reply.Applied() {
        presence := presence[user := Entry(obj, now + ttl)];
      }
    }

    method Del(user: UserId, reply: Reply) returns (ok: bool)
      modifies `presence
      ensures ok == reply.Acked? && Value() == Presence.Del(old(Value()), user, reply)
    {
      ok := reply.Acked?;
      if reply.Applied() {
        presence := presence - {user};
      }
    }

    // ---------- Operations ----------

    method CurrentObject(user: UserId, reply: Reply) returns (obj: Option<ObjectId>)
      ensures obj == if reply.Failed() then None else Some(Presence.CurrentObject(Value(), user))
    {
      if reply.Failed() {
        return None;
      }
      obj := Some(if user in presence then presence[user].obj else "");
    }

    method MarkVisiting(user: UserId, obj: ObjectId, ttl: int, r: MarkReplies) returns (ok: bool)
      requires Valid()
      modifies `sets, `presence
      ensures Valid()
      ensures (Value(), ok) == Presence.MarkVisiting(old(Value()), user, obj, ttl, r)
    {
      IdOfKey(obj);
      var prev := CurrentObject(user, r.get);
      if prev.Some? && prev.value != "" && prev.value != obj {
        IdOfKey(prev.value);
        var _ := Srem(VisitorsKey(prev.value), user, r.srem);
      }
      ok := Sadd(VisitorsKey(obj), user, r.sadd);
      if ok {
        ok := SetEx(user, obj, ttl, r.setex);
      }
    }

    method MarkNotVisiting(user: UserId, obj: ObjectId, srem: Reply, del: Reply) returns (ok: bool)
      requires Valid()
      modifies `sets, `presence
      ensures Valid()
      ensures (Value(), ok) == Presence.MarkNotVisiting(old(Value()), user, obj, srem, del)
    {
      IdOfKey(obj);
      ok := Srem(VisitorsKey(obj), user, srem);
      if ok {
        ok := Del(user, del);
      }
    }

    method VisitorCount(obj: ObjectId, reply: Reply) returns (n: Option<nat>)
      requires Valid()
      ensures n == if reply.Failed() then None else Some(Presence.VisitorCount(Value(), obj))
    {
      if reply.Failed() {
        return None;
      }
      VisitorsAtKey(sets, presence, now, obj);
      n := Some(|SetAt(sets, VisitorsKey(obj))|);
    }

    /** SINTER of the visitor set and the caller's cached friends. */
    method FriendIdsHere(obj: ObjectId, caller: UserId, reply: Reply) returns (ids: Option<set<UserId>>)
      requires Valid()
      ensures ids == if reply.Failed() then None
                     else Some(Visitors(Value(), obj) * (if caller in friends then friends[caller] else {}))
    {
      if reply.Failed() {
        return None;
      }
      VisitorsAtKey(sets, presence, now, obj);
      ids := Some(SetAt(sets, VisitorsKey(obj)) * (if caller in friends then friends[caller] else {}));
    }
  }
}
