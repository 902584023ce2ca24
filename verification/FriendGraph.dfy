/**
 The friend graph of the Profiles service: friendships (one row per direction), friend
 requests and blocks, and the transactions that change them.
 */
module FriendGraph {
  import opened Basics

  type RequestId = string

  /** A row of `friendships` or `blocks`: both tables have their two columns as key. */
  datatype Row = Row(user: UserId, other: UserId) {
    function Flipped(): Row {
      Row(other, user)
    }
  }

  datatype RequestStatus = Pending | Accepted | Declined

  datatype Request = Request(sender: UserId, addressee: UserId, status: RequestStatus) {
    /** The request is between these two, whoever sent it. */
    predicate Between(a: UserId, b: UserId) {
      (sender == a && addressee == b) || (sender == b && addressee == a)
    }
  }

  datatype Graph = Graph(friends: set<Row>, requests: map<RequestId, Request>, blocks: set<Row>)

  const EMPTY := Graph({}, map[], {})

  // ---------- Queries ----------

  predicate AreFriends(g: Graph, a: UserId, b: UserId) {
    Row(a, b) in g.friends
  }

  predicate IsBlockedEitherWay(g: Graph, a: UserId, b: UserId) {
    Row(a, b) in g.blocks || Row(b, a) in g.blocks
  }

  predicate IsPending(g: Graph, id: RequestId) {
    id in g.requests && g.requests[id].status.Pending?
  }

  predicate IsPendingBetween(g: Graph, id: RequestId, a: UserId, b: UserId) {
    IsPending(g, id) && g.requests[id].Between(a, b)
  }

  /** Some pending request between two users: the database may return any of them. */
  ghost function PendingBetween(g: Graph, a: UserId, b: UserId): (r: Option<RequestId>)
    ensures r.Some? ==> IsPendingBetween(g, r.value, a, b)
    ensures r.None? ==> forall id :: !IsPendingBetween(g, id, a, b)
  {
    if id :| IsPendingBetween(g, id, a, b) then Some(id) else None
  }

  function FriendIds(g: Graph, user: UserId): set<UserId> {
    set row | row in g.friends && row.user == user :: row.other
  }

  // ---------- Transactions ----------

  /** The partial unique index: one pending request for each ordered pair. */
  predicate PendingTaken(g: Graph, sender: UserId, addressee: UserId) {
    exists id | id in g.requests :: g.requests[id] == Request(sender, addressee, Pending)
  }

  /** A duplicate id or a second pending request for the ordered pair violates a constraint. */
  predicate CanInsert(g: Graph, id: RequestId, sender: UserId, addressee: UserId) {
    id !in g.requests && !PendingTaken(g, sender, addressee)
  }

  function Inserted(g: Graph, id: RequestId, sender: UserId, addressee: UserId): Graph {
    g.(requests := g.requests[id := Request(sender, addressee, Pending)])
  }

  /** UPDATE ... WHERE id = $1 changes nothing when there is no such row. */
  function WithStatus(g: Graph, id: RequestId, status: RequestStatus): Graph {
    if id in g.requests then g.(requests := g.requests[id := g.requests[id].(status := status)]) else g
  }

  function Accepting(g: Graph, id: RequestId, a: UserId, b: UserId): Graph {
    WithStatus(g, id, Accepted).(friends := g.friends + {Row(a, b), Row(b, a)})
  }

  function Declining(g: Graph, id: RequestId): Graph {
    WithStatus(g, id, Declined)
  }

  function Unfriending(g: Graph, a: UserId, b: UserId): Graph {
    g.(friends := g.friends - {Row(a, b), Row(b, a)})
  }

  function Blocking(g: Graph, blocker: UserId, blocked: UserId): Graph {
    Graph(g.friends - {Row(blocker, blocked), Row(blocked, blocker)},
          map id | id in g.requests ::
            if g.requests[id].status.Pending? && g.requests[id].Between(blocker, blocked)
            then g.requests[id].(status := Declined) else g.requests[id],
          g.blocks + {Row(blocker, blocked)})
  }

  function Unblocking(g: Graph, blocker: UserId, blocked: UserId): Graph {
    g.(blocks := g.blocks - {Row(blocker, blocked)})
  }

  // ---------- The invariant ----------

  ghost predicate Symmetric(g: Graph) {
    forall row | row in g.friends :: row.Flipped() in g.friends
  }

  ghost predicate Irreflexive(g: Graph) {
    && (forall row | row in g.friends :: row.user != row.other)
    && (forall id | id in g.requests :: g.requests[id].sender != g.requests[id].addressee)
  }

  /** A block either way excludes friendship. */
  ghost predicate BlockedAreApart(g: Graph) {
    forall row | row in g.friends :: !IsBlockedEitherWay(g, row.user, row.other)
  }

  /** Two users with a pending request are neither friends nor blocked. */
  ghost predicate PendingAreUndecided(g: Graph) {
    forall id | IsPending(g, id) ::
      var r := g.requests[id];
      !AreFriends(g, r.sender, r.addressee) && !IsBlockedEitherWay(g, r.sender, r.addressee)
  }

  /** At most one request is pending between any two users, whoever sent it. */
  ghost predicate PendingUnique(g: Graph) {
    forall id, jd | IsPending(g, id) && IsPending(g, jd) &&
                    g.requests[id].Between(g.requests[jd].sender, g.requests[jd].addressee) :: id == jd
  }

  ghost predicate Inv(g: Graph) {
    Symmetric(g) && Irreflexive(g) && BlockedAreApart(g) && PendingAreUndecided(g) && PendingUnique(g)
  }

  /** Requests are never deleted or readdressed, and a resolved one stays as it is. */
  ghost predicate RequestsKept(g: Graph, h: Graph) {
    forall id | id in g.requests ::
      && id in h.requests
      && h.requests[id].sender == g.requests[id].sender && h.requests[id].addressee == g.requests[id].addressee
      && (!g.requests[id].status.Pending? ==> h.requests[id] == g.requests[id])
  }

  lemma InsertedInv(g: Graph, id: RequestId, a: UserId, b: UserId)
    requires Inv(g) && id !in g.requests && a != b
    requires !AreFriends(g, a, b) && !IsBlockedEitherWay(g, a, b) && forall jd :: !IsPendingBetween(g, jd, a, b)
    ensures Inv(Inserted(g, id, a, b)) && RequestsKept(g, Inserted(g, id, a, b))
  {
    var h := Inserted(g, id, a, b);
    forall jd | IsPending(h, jd) && jd != id
      ensures IsPending(g, jd) && !h.requests[jd].Between(a, b) && !h.requests[id].Between(h.requests[jd].sender, h.requests[jd].addressee)
    {
      assert !IsPendingBetween(g, jd, a, b);
    }
  }

  lemma AcceptingInv(g: Graph, id: RequestId)
    requires Inv(g) && IsPending(g, id)
    ensures var h := Accepting(g, id, g.requests[id].sender, g.requests[id].addressee);
            Inv(h) && RequestsKept(g, h)
  {
    var a, b := g.requests[id].sender, g.requests[id].addressee;
    var h := Accepting(g, id, a, b);
    forall row | row in h.friends
      ensures row.Flipped() in h.friends && !IsBlockedEitherWay(h, row.user, row.other)
    {
      if row in g.friends {
        assert row.Flipped() in g.friends;
      }
    }
    forall jd | IsPending(h, jd)
      ensures !AreFriends(h, h.requests[jd].sender, h.requests[jd].addressee)
    {
      assert IsPending(g, jd) && jd != id && !g.requests[jd].Between(a, b);
    }
  }

  lemma DecliningInv(g: Graph, id: RequestId)
    requires Inv(g) && IsPending(g, id)
    ensures Inv(Declining(g, id)) && RequestsKept(g, Declining(g, id))
  {
  }

  lemma UnfriendingInv(g: Graph, a: UserId, b: UserId)
    requires Inv(g)
    ensures Inv(Unfriending(g, a, b)) && RequestsKept(g, Unfriending(g, a, b))
  {
    var h := Unfriending(g, a, b);
    forall row | row in h.friends
      ensures row.Flipped() in h.friends
    {
      assert row.Flipped() in g.friends && row.Flipped().Flipped() == row;
    }
  }

  lemma BlockingInv(g: Graph, blocker: UserId, blocked: UserId)
    requires Inv(g) && blocker != blocked
    ensures Inv(Blocking(g, blocker, blocked)) && RequestsKept(g, Blocking(g, blocker, blocked))
  {
    var h := Blocking(g, blocker, blocked);
    forall row | row in h.friends
      ensures row.Flipped() in h.friends && !IsBlockedEitherWay(h, row.user, row.other)
    {
      assert row.Flipped() in g.friends && row.Flipped().Flipped() == row;
    }
    forall id | IsPending(h, id)
      ensures IsPending(g, id) && h.requests[id] == g.requests[id] && !g.requests[id].Between(blocker, blocked)
    {
    }
  }

  lemma UnblockingInv(g: Graph, blocker: UserId, blocked: UserId)
    requires Inv(g)
    ensures Inv(Unblocking(g, blocker, blocked)) && RequestsKept(g, Unblocking(g, blocker, blocked))
  {
  }

  // ---------- The store ----------

  /** Runs the transactions statement by statement; a dropped commit leaves nothing. */
  class Store {
    var friendships: set<Row>
    var requests: map<RequestId, Request>
    var blocks: set<Row>

    ghost function Value(): Graph
      reads this
    {
      Graph(friendships, requests, blocks)
    }

    constructor ()
      ensures Value() == EMPTY
    {
      friendships, requests, blocks := {}, map[], {};
    }

    method FindPendingBetween(a: UserId, b: UserId) returns (id: Option<RequestId>)
      ensures id.Some? ==> IsPendingBetween(Value(), id.value, a, b)
      ensures id.None? ==> forall jd :: !IsPendingBetween(Value(), jd, a, b)
    {
      var left := requests.Keys;
      while left != {}
        invariant left <= requests.Keys
        invariant forall jd | jd in requests && jd !in left :: !IsPendingBetween(Value(), jd, a, b)
        decreases left
      {
        var jd :| jd in left;
        if requests[jd].status.Pending? && requests[jd].Between(a, b) {
          return Some(jd);
        }
        left := left - {jd};
      }
      return None;
    }

    method FriendIdsOf(user: UserId) returns (ids: set<UserId>)
      ensures ids == FriendIds(Value(), user)
    {
      var rows := friendships;
      ids := {};
      while rows != {}
        invariant rows <= friendships
        invariant forall v :: v in ids <==> Row(user, v) in friendships && Row(user, v) !in rows
        decreases rows
      {
        var row :| row in rows;
        rows := rows - {row};
        if row.user == user {
          ids := ids + {row.other};
        }
      }
      forall v
        ensures v in ids <==> v in FriendIds(Value(), user)
      {
        assert Row(user, v).user == user;
      }
    }

    /** `ok` says that the row was acknowledged; a violated constraint is an error like any other. */
    method CreateFriendRequest(id: RequestId, sender: UserId, addressee: UserId, reply: Reply) returns (ok: bool)
      modifies `requests
      ensures var can := CanInsert(old(Value()), id, sender, addressee);
              && ok == (can && reply.Acked?)
              && Value() == if can && reply.Applied() then Inserted(old(Value()), id, sender, addressee) else old(Value())
    {
      var taken := exists jd | jd in requests :: requests[jd] == Request(sender, addressee, Pending);
      if id in requests || taken {
        return false;
      }
      if reply.Applied() {
        requests := requests[id := Request(sender, addressee, Pending)];
      }
      return reply.Acked?;
    }

    method AcceptFriendRequest(id: RequestId, a: UserId, b: UserId, commit: Reply) returns (ok: bool)
      modifies `requests, `friendships
      ensures ok == commit.Acked?
      ensures Value() == if commit.Applied() then Accepting(old(Value()), id, a, b) else old(Value())
    {
      if commit.Applied() {
        if id in requests {
          requests := requests[id := requests[id].(status := Accepted)];
        }
        friendships := friendships + {Row(a, b)};
        friendships := friendships + {Row(b, a)};
      }
      return commit.Acked?;
    }

    method DeclineFriendRequest(id: RequestId, commit: Reply) returns (ok: bool)
      modifies `requests
      ensures ok == commit.Acked?
      ensures Value() == if commit.Applied() then Declining(old(Value()), id) else old(Value())
    {
      if commit.Applied() && id in requests {
        requests := requests[id := requests[id].(status := Declined)];
      }
      return commit.Acked?;
    }

    method RemoveFriendship(a: UserId, b: UserId, commit: Reply) returns (ok: bool)
      modifies `friendships
      ensures ok == commit.Acked?
      ensures Value() == if commit.Applied() then Unfriending(old(Value()), a, b) else old(Value())
    {
      if commit.Applied() {
        friendships := set row | row in friendships && !(row.user == a && row.other == b) && !(row.user == b && row.other == a);
      }
      return commit.Acked?;
    }

    method Block(blocker: UserId, blocked: UserId, commit: Reply) returns (ok: bool)
      modifies this
      ensures ok == commit.Acked?
      ensures Value() == if commit.Applied() then Blocking(old(Value()), blocker, blocked) else old(Value())
    {
      if commit.Applied() {
        blocks := blocks + {Row(blocker, blocked)};
        var _ := RemoveFriendship(blocker, blocked, Acked);
        var cancelled := set id | id in requests && requests[id].status.Pending? && requests[id].Between(blocker, blocked);
        requests := requests + map id | id in cancelled :: requests[id].(status := Declined);
      }
      return commit.Acked?;
    }

    method Unblock(blocker: UserId, blocked: UserId, commit: Reply) returns (ok: bool)
      modifies `blocks
      ensures ok == commit.Acked?
      ensures Value() == if commit.Applied() then Unblocking(old(Value()), blocker, blocked) else old(Value())
    {
      if commit.Applied() {
        blocks := blocks - {Row(blocker, blocked)};
      }
      return commit.Acked?;
    }
  }
}
