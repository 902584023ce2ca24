/** The background sweep that drops visitor-set members whose presence key is gone. */
module Janitor {
  import opened Basics
  import opened Presence
  import opened VisitorKeys
  import opened ValkeyStore

  /** The calls one pass makes, in order; the i-th call ends as `reply(i)`. */
  datatype Call =
    | Scan
    | ReadVisitors(obj: ObjectId)
    | TestPresence(key: string, user: UserId)
    | Remove(key: string, user: UserId)

  /** One answer of SCAN. A cursor of 0 ends the iteration. */
  datatype Page = Page(elements: seq<string>, cursor: nat)

  predicate Iteration(pages: seq<Page>) {
    && pages != []
    && forall i | 0 <= i < |pages| :: pages[i].cursor == 0 <==> i == |pages| - 1
  }

  ghost predicate Scanned(pages: seq<Page>, key: string) {
    exists i :: 0 <= i < |pages| && key in pages[i].elements
  }

  /** What SCAN promises: matching keys only, and every key that is there throughout, perhaps repeatedly. */
  ghost predicate Covers(pages: seq<Page>, sets: Sets) {
    && (forall i, k | 0 <= i < |pages| && k in pages[i].elements :: Matches(k))
    && (forall k | k in sets :: Scanned(pages, k))
  }

  /** The error a pass returns: the earliest failing call. */
  ghost predicate Earliest(err: Option<nat>, calls: nat, reply: nat -> Reply) {
    match err
    case None => forall i | 0 <= i < calls :: reply(i).Acked?
    case Some(e) => e < calls && reply(e).Failed() && forall i | 0 <= i < e :: reply(i).Acked?
  }

  /** A call whose failure can leave the member behind. */
  predicate Concerns(call: Call, m: Member) {
    match call
    case Scan => false
    case ReadVisitors(obj) => obj == m.obj
    case TestPresence(key, user) => key == VisitorsKey(m.obj) && user == m.user
    case Remove(key, user) => key == VisitorsKey(m.obj) && user == m.user
  }

  /** A member without presence that is still there is explained by a failed call about it. */
  ghost predicate Excused(log: seq<Call>, reply: nat -> Reply, m: Member) {
    exists i :: 0 <= i < |log| && reply(i).Failed() && Concerns(log[i], m)
  }

  lemma ExcusedLater(log: seq<Call>, more: seq<Call>, reply: nat -> Reply, m: Member)
    requires Excused(log, reply, m)
    ensures Excused(log + more, reply, m)
  {
    var i :| 0 <= i < |log| && reply(i).Failed() && Concerns(log[i], m);
    assert (log + more)[i] == log[i];
  }

  /** Collects the keys of all pages until the cursor is 0, or gives up at the first error. */
  method VisitorSetKeys(pages: seq<Page>, reply: nat -> Reply) returns (keys: Option<seq<string>>, calls: nat, ghost log: seq<Call>)
    requires Iteration(pages)
    ensures forall call | call in log :: call == Scan
    ensures 0 < calls == |log| && Earliest(if keys.Some? then None else Some(calls - 1), calls, reply)
    ensures keys.Some? ==> forall k :: k in keys.value <==> Scanned(pages, k)
  {
    var all: seq<string> := [];
    var n := 0;
    log := [];
    while true
      invariant 0 <= n < |pages| && |log| == n && forall call | call in log :: call == Scan
      invariant forall i | 0 <= i < n :: reply(i).Acked?
      invariant forall k :: k in all <==> Scanned(pages[..n], k)
      decreases |pages| - n
    {
      log := log + [Scan];
      if reply(n).Failed() {
        return None, n + 1, log;
      }
      all := all + pages[n].elements;
      forall k
        ensures k in all <==> Scanned(pages[..n + 1], k)
      {
        assert pages[..n + 1] == pages[..n] + [pages[n]];
        assert k in pages[n].elements ==> Scanned(pages[..n + 1], k) by {
          assert pages[..n + 1][n] == pages[n];
        }
        if Scanned(pages[..n], k) {
          var i :| 0 <= i < n && k in pages[..n][i].elements;
          assert k in pages[..n + 1][i].elements;
        }
        if Scanned(pages[..n + 1], k) && k !in pages[n].elements {
          var i :| 0 <= i < n + 1 && k in pages[..n + 1][i].elements;
          assert k in pages[..n][i].elements;
        }
      }
      if pages[n].cursor == 0 {
        assert pages[..n + 1] == pages;
        return Some(all), n + 1, log;
      }
      n := n + 1;
    }
  }

  /** The first error sticks; later ones are dropped. */
  function Noted(err: Option<nat>, call: nat, failed: bool): Option<nat> {
    if failed && err.None? then Some(call) else err
  }

  /** `rest` is `all` without some members whose users have no presence. */
  ghost predicate Swept(all: set<Member>, rest: set<Member>, presence: map<UserId, Entry>) {
    rest <= all && forall m | m in all && m !in rest :: m.user !in presence
  }

  /** Members of one set that have no presence and that no failed call excuses. */
  ghost predicate Excuses(log: seq<Call>, reply: nat -> Reply, presence: map<UserId, Entry>, members: set<Member>) {
    forall m | m in members && m.user !in presence :: Excused(log, reply, m)
  }

  lemma ExcusesLater(log: seq<Call>, more: seq<Call>, reply: nat -> Reply, presence: map<UserId, Entry>, members: set<Member>)
    requires Excuses(log, reply, presence, members) && log <= more
    ensures Excuses(more, reply, presence, members)
  {
    forall m | m in members && m.user !in presence
      ensures Excused(more, reply, m)
    {
      ExcusedLater(log, more[|log|..], reply, m);
      assert log + more[|log|..] == more;
    }
  }

  method SweepMember(store: Store, key: string, user: UserId, reply: nat -> Reply, first: nat, err: Option<nat>,
                     ghost log: seq<Call>)
    returns (next: nat, firstErr: Option<nat>, ghost trace: seq<Call>)
    requires store.Valid() && Matches(key)
    requires first == |log| && Earliest(err, first, reply)
    modifies store`sets
    ensures store.Valid() && next == |trace| && log <= trace && Earliest(firstErr, next, reply)
    ensures var m := Member(ObjectIdFromKey(key), user);
            && Swept(old(Members(store.sets)), Members(store.sets), store.presence)
            && old(Members(store.sets)) - {m} <= Members(store.sets)
            && Excuses(trace, reply, store.presence, Members(store.sets) * {m})
  {
    KeyOfId(key);
    ghost var m, sets := Member(ObjectIdFromKey(key), user), store.sets;
    trace := log + [TestPresence(key, user)];
    next := first + 1;
    firstErr := Noted(err, first, reply(first).Failed());
    assert Concerns(trace[first], m);
    if reply(first).Failed() || user in store.presence {
      return;
    }
    var ok := store.Srem(key, user, reply(next));
    assert store.Value().members == Members(store.sets);
    trace := trace + [Remove(key, user)];
    firstErr := Noted(firstErr, next, !ok);
    assert Concerns(trace[next], m);
    next := next + 1;
  }

  /** Everything but members of `obj` still to be looked at is swept or excused. */
  method SweepSet(store: Store, key: string, reply: nat -> Reply, first: nat, err: Option<nat>, ghost log: seq<Call>)
    returns (next: nat, firstErr: Option<nat>, ghost trace: seq<Call>)
    requires store.Valid() && Matches(key)
    requires first == |log| && Earliest(err, first, reply)
    modifies store`sets
    ensures store.Valid() && next == |trace| && log <= trace && Earliest(firstErr, next, reply)
    ensures Swept(old(Members(store.sets)), Members(store.sets), store.presence)
    ensures Excuses(trace, reply, store.presence, Of(Members(store.sets), ObjectIdFromKey(key)))
  {
    var obj := ObjectIdFromKey(key);
    trace := log + [ReadVisitors(obj)];
    next := first + 1;
    firstErr := Noted(err, first, reply(first).Failed());
    if reply(first).Failed() {
      assert forall m | m in Of(Members(store.sets), obj) :: Concerns(trace[first], m);
      return;
    }
    var todo := SetAt(store.sets, VisitorsKey(obj));
    forall m | m in Of(Members(store.sets), obj)
      ensures m.user in todo
    {
      MemberAtKey(store.sets, m);
    }
    while todo != {}
      invariant store.Valid() && next == |trace| && log <= trace && Earliest(firstErr, next, reply)
      invariant Swept(old(Members(store.sets)), Members(store.sets), store.presence)
      invariant Excuses(trace, reply, store.presence, LookedAt(Members(store.sets), obj, todo))
      decreases todo
    {
      var user :| user in todo;
      ghost var all, before := Members(store.sets), trace;
      next, firstErr, trace := SweepMember(store, key, user, reply, next, firstErr, trace);
      ExcusesMore(before, trace, reply, store.presence, all, Members(store.sets), obj, todo, user);
      todo := todo - {user};
    }
    assert Of(Members(store.sets), obj) == LookedAt(Members(store.sets), obj, todo);
  }

  /** Members of one set whose users are not on the list of users still to be looked at. */
  function LookedAt(members: set<Member>, obj: ObjectId, todo: set<UserId>): set<Member> {
    set m | m in members && m.obj == obj && m.user !in todo
  }

  lemma ExcusesMore(log: seq<Call>, more: seq<Call>, reply: nat -> Reply, presence: map<UserId, Entry>,
                    all: set<Member>, rest: set<Member>, obj: ObjectId, todo: set<UserId>, user: UserId)
    requires log <= more && rest <= all
    requires Excuses(log, reply, presence, LookedAt(all, obj, todo))
    requires Excuses(more, reply, presence, rest * {Member(obj, user)})
    ensures Excuses(more, reply, presence, LookedAt(rest, obj, todo - {user}))
  {
    ExcusesLater(log, more, reply, presence, LookedAt(all, obj, todo));
    forall m | m in LookedAt(rest, obj, todo - {user})
      ensures m in LookedAt(all, obj, todo) || m in rest * {Member(obj, user)}
    {
    }
  }

  function Of(members: set<Member>, obj: ObjectId): set<Member> {
    set m | m in members && m.obj == obj
  }

  /**
   One full pass. It goes on after an error and returns the earliest one; it removes no
   user with live presence; and what it fails to remove is excused by a failed call.
   */
  method Reconcile(store: Store, pages: seq<Page>, reply: nat -> Reply)
    returns (err: Option<nat>, ghost log: seq<Call>)
    requires store.Valid() && Iteration(pages) && Covers(pages, store.sets)
    modifies store`sets
    ensures store.Valid() && Earliest(err, |log|, reply)
    ensures Swept(old(Members(store.sets)), Members(store.sets), store.presence)
    ensures Excuses(log, reply, store.presence, Members(store.sets)) ||
            (err.Some? && log[err.value] == Scan && store.sets == old(store.sets))
    ensures err.None? ==> store.Value() == Pass(old(store.Value()))
  {
    var keys, calls;
    keys, calls, log := VisitorSetKeys(pages, reply);
    if keys.None? {
      assert log[calls - 1] in log;
      return Some(calls - 1), log;
    }
    err := None;
    for n := 0 to |keys.value|
      invariant store.Valid() && calls == |log| && Earliest(err, calls, reply)
      invariant Swept(old(Members(store.sets)), Members(store.sets), store.presence)
      invariant Excuses(log, reply, store.presence, Under(Members(store.sets), keys.value[..n]))
    {
      var key := keys.value[n];
      assert Matches(key) by {
        assert Scanned(pages, key);
      }
      ghost var done, before := Under(Members(store.sets), keys.value[..n]), log;
      calls, err, log := SweepSet(store, key, reply, calls, err, log);
      ExcusesLater(before, log, reply, store.presence, done);
      KeyOfId(key);
      forall m | m in Under(Members(store.sets), keys.value[..n + 1])
        ensures m in done || m in Of(Members(store.sets), ObjectIdFromKey(key))
      {
        IdOfKey(m.obj);
      }
    }
    forall m | m in Members(store.sets)
      ensures m in Under(Members(store.sets), keys.value[..|keys.value|])
    {
      MemberAtKey(old(store.sets), m);
      assert Scanned(pages, VisitorsKey(m.obj));
    }
    if err.None? {
      assert Members(store.sets) == Pass(old(store.Value())).members;
    }
  }

  /** Members whose visitor-set key is among `keys`. */
  function Under(members: set<Member>, keys: seq<string>): set<Member> {
    set m | m in members && VisitorsKey(m.obj) in keys
  }
}
