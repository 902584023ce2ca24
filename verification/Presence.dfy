/**
 The presence state machine of the Map service: `presence:{user}` keys with a time
 to live, and the visitor sets, both changed by marking, clearing, expiry and the
 janitor. A visitor set `object:{o}:visitors` is the users paired with `o` in `members`.
 */
module Presence {
  import opened Basics

  datatype Entry = Entry(obj: ObjectId, expires: int)

  datatype Member = Member(obj: ObjectId, user: UserId)

  /** `presence` holds unexpired keys only: an expired key reads as a missing one. */
  datatype State = State(presence: map<UserId, Entry>, members: set<Member>, now: int)

  const EMPTY := State(map[], {}, 0)

  /** How each command of one MarkVisiting ends. */
  datatype MarkReplies = MarkReplies(get: Reply, srem: Reply, sadd: Reply, setex: Reply)

  const ACKED := MarkReplies(Acked, Acked, Acked, Acked)

  // ---------- Reads ----------

  /** The object a user is at, or "" when no presence key is live. */
  function CurrentObject(s: State, user: UserId): ObjectId {
    if user in s.presence then s.presence[user].obj else ""
  }

  function Visitors(s: State, obj: ObjectId): set<UserId> {
    set m | m in s.members && m.obj == obj :: m.user
  }

  function VisitorCount(s: State, obj: ObjectId): nat {
    |Visitors(s, obj)|
  }

  // ---------- Commands and operations ----------

  function Srem(s: State, obj: ObjectId, user: UserId, reply: Reply): State {
    if reply.Applied() then s.(members := s.members - {Member(obj, user)}) else s
  }

  function Sadd(s: State, obj: ObjectId, user: UserId, reply: Reply): State {
    if reply.Applied() then s.(members := s.members + {Member(obj, user)}) else s
  }

  function SetEx(s: State, user: UserId, obj: ObjectId, ttl: int, reply: Reply): State {
    if reply.Applied() then s.(presence := s.presence[user := Entry(obj, s.now + ttl)]) else s
  }

  function Del(s: State, user: UserId, reply: Reply): State {
    if reply.Applied() then s.(presence := s.presence - {user}) else s
  }

  /** A failed read of the previous object, or a failed removal from it, is ignored. */
  function MarkVisiting(s: State, user: UserId, obj: ObjectId, ttl: int, r: MarkReplies): (State, bool) {
    var prev := if r.get.Acked? then CurrentObject(s, user) else "";
    var left := if prev != "" && prev != obj then Srem(s, prev, user, r.srem) else s;
    var joined := Sadd(left, obj, user, r.sadd);
    if r.sadd.Failed() then (joined, false) else (SetEx(joined, user, obj, ttl, r.setex), r.setex.Acked?)
  }

  function MarkNotVisiting(s: State, user: UserId, obj: ObjectId, srem: Reply, del: Reply): (State, bool) {
    var left := Srem(s, obj, user, srem);
    if srem.Failed() then (left, false) else (Del(left, user, del), del.Acked?)
  }

  /** Time passes; keys whose deadline is reached are gone. */
  function Wait(s: State, seconds: nat): State {
    State(map u | u in s.presence && s.presence[u].expires > s.now + seconds :: s.presence[u],
          s.members,
          s.now + seconds)
  }

  /** The janitor's test and removal of one member. */
  function Sweep(s: State, m: Member): State {
    if m.user in s.presence then s else s.(members := s.members - {m})
  }

  /** One whole janitor pass without errors. */
  function Pass(s: State): State {
    s.(members := set m | m in s.members && m.user in s.presence)
  }

  // ---------- Runs ----------

  datatype Event =
    | Mark(user: UserId, obj: ObjectId, replies: MarkReplies)
    | Clear(user: UserId, obj: ObjectId, srem: Reply, del: Reply)
    | Waiting(seconds: nat)
    | Sweeping(member: Member)
    | Passing

  /** The status handler refuses an empty object id before it touches presence. */
  predicate Accepted(e: Event) {
    e.Mark? || e.Clear? ==> e.obj != ""
  }

  /** No command of the event fails. */
  predicate ErrorFree(e: Event) {
    (e.Mark? ==> e.replies == ACKED) && (e.Clear? ==> e.srem.Acked? && e.del.Acked?)
  }

  predicate Smooth(es: seq<Event>) {
    forall e | e in es :: Accepted(e) && ErrorFree(e)
  }

  function Step(s: State, e: Event, ttl: int): State {
    match e
    case Mark(user, obj, replies) => MarkVisiting(s, user, obj, ttl, replies).0
    case Clear(user, obj, srem, del) => MarkNotVisiting(s, user, obj, srem, del).0
    case Waiting(seconds) => Wait(s, seconds)
    case Sweeping(m) => Sweep(s, m)
    case Passing => Pass(s)
  }

  function Run(s: State, es: seq<Event>, ttl: int): State
    decreases es
  {
    if es == [] then s else Run(Step(s, es[0], ttl), es[1..], ttl)
  }

  predicate Live(s: State, m: Member) {
    m.user in s.presence && s.presence[m.user].obj == m.obj
  }

  /** Memberships no live presence key accounts for. */
  function Ghosts(s: State): set<Member> {
    set m | m in s.members && !Live(s, m)
  }

  /** Every live presence is backed by a membership of the object it names. */
  ghost predicate Backed(s: State) {
    forall u | u in s.presence :: s.presence[u].obj != "" && Member(s.presence[u].obj, u) in s.members
  }

  ghost predicate AtMostOne(s: State) {
    forall m, n | m in s.members && n in s.members && m.user == n.user :: m == n
  }

  /**
   A failure leaves the user's key without a membership: a mark that removed the old one and
   then did not set the key, or a clearing that removed the membership and not the key.
   */
  predicate Unbacks(s: State, e: Event) {
    match e
    case Mark(user, obj, r) =>
      && user in s.presence && s.presence[user].obj != obj && r.get.Acked? && r.srem.Applied()
      && (r.sadd.Failed() || !r.setex.Applied())
    case Clear(user, obj, srem, del) =>
      && user in s.presence && s.presence[user].obj == obj && srem.Applied()
      && (srem.Failed() || !del.Applied())
    case _ => false
  }

  lemma StepBackedIff(s: State, e: Event, ttl: int)
    requires Backed(s) && Accepted(e)
    ensures Backed(Step(s, e, ttl)) <==> !Unbacks(s, e)
  {
    var t := Step(s, e, ttl);
    if Unbacks(s, e) {
      assert e.user in t.presence && t.presence[e.user] == s.presence[e.user];
      assert Member(s.presence[e.user].obj, e.user) !in t.members;
    }
  }

  /** Backing holds in every state along the run. */
  ghost predicate AlwaysBacked(s: State, es: seq<Event>, ttl: int)
    decreases es
  {
    Backed(s) && (es == [] || AlwaysBacked(Step(s, es[0], ttl), es[1..], ttl))
  }

  ghost predicate NeverUnbacks(s: State, es: seq<Event>, ttl: int)
    decreases es
  {
    es == [] || (!Unbacks(s, es[0]) && NeverUnbacks(Step(s, es[0], ttl), es[1..], ttl))
  }

  /** With any calls failing: presence stays backed along the run exactly when no failure takes the membership and leaves the key. */
  lemma {:induction false} AlwaysBackedIff(s: State, es: seq<Event>, ttl: int)
    requires Backed(s) && forall e | e in es :: Accepted(e)
    ensures AlwaysBacked(s, es, ttl) <==> NeverUnbacks(s, es, ttl)
    decreases es
  {
    if es != [] {
      StepBackedIff(s, es[0], ttl);
      if !Unbacks(s, es[0]) {
        AlwaysBackedIff(Step(s, es[0], ttl), es[1..], ttl);
      }
    }
  }

  lemma {:induction false} RunBacked(s: State, es: seq<Event>, ttl: int)
    requires Backed(s) && Smooth(es)
    ensures Backed(Run(s, es, ttl))
    decreases es
  {
    if es != [] {
      StepBackedIff(s, es[0], ttl);
      RunBacked(Step(s, es[0], ttl), es[1..], ttl);
    }
  }

  // ---------- Conservation ----------

  /** The visitor counts of a set of objects, added up. */
  ghost function TotalCount(s: State, objects: set<ObjectId>): nat {
    if objects == {} then 0 else
      var o :| o in objects;
      VisitorCount(s, o) + TotalCount(s, objects - {o})
  }

  function MembersAt(s: State, objects: set<ObjectId>): set<Member> {
    set m | m in s.members && m.obj in objects
  }

  lemma {:induction false} TotalCountIsMembers(s: State, objects: set<ObjectId>)
    ensures TotalCount(s, objects) == |MembersAt(s, objects)|
  {
    if objects == {} {
      assert MembersAt(s, objects) == {};
    } else {
      var o :| o in objects && TotalCount(s, objects) == VisitorCount(s, o) + TotalCount(s, objects - {o});
      var here, elsewhere := MembersAt(s, {o}), MembersAt(s, objects - {o});
      assert MembersAt(s, objects) == here + elsewhere && here !! elsewhere;
      forall u | u in Visitors(s, o)
        ensures Member(o, u) in here
      {
      }
      BijectionSize(here, (m: Member) => m.user, Visitors(s, o));
      assert |MembersAt(s, objects)| == VisitorCount(s, o) + |elsewhere|;
      TotalCountIsMembers(s, objects - {o});
    }
  }

  /** Keys that expire while `e` happens. */
  function Lapses(s: State, e: Event): set<UserId> {
    if e.Waiting? then set u | u in s.presence && s.presence[u].expires <= s.now + e.seconds else {}
  }

  /** A NOT_VISITING that names an object other than the one the user is at. */
  function Misnamed(s: State, e: Event): nat {
    if e.Clear? && e.user in s.presence && s.presence[e.user].obj != e.obj then 1 else 0
  }

  function GhostBudget(s: State, es: seq<Event>, ttl: int): nat
    decreases es
  {
    if es == [] then 0 else
      |Lapses(s, es[0])| + Misnamed(s, es[0]) + GhostBudget(Step(s, es[0], ttl), es[1..], ttl)
  }

  lemma StepGhosts(s: State, e: Event, ttl: int)
    requires Backed(s) && Accepted(e) && ErrorFree(e)
    ensures |Ghosts(Step(s, e, ttl))| <= |Ghosts(s)| + |Lapses(s, e)| + Misnamed(s, e)
  {
    var t := Step(s, e, ttl);
    if e.Waiting? {
      var lapsed := set u | u in Lapses(s, e) :: Member(CurrentObject(s, u), u);
      BijectionSize(Lapses(s, e), u => Member(CurrentObject(s, u), u), lapsed);
      forall m | m in Ghosts(t)
        ensures m in Ghosts(s) + lapsed
      {
        if m !in Ghosts(s) {
          assert m.user in Lapses(s, e) && m == Member(CurrentObject(s, m.user), m.user);
        }
      }
      SubsetSize(Ghosts(t), Ghosts(s) + lapsed);
    } else if Misnamed(s, e) == 1 {
      var left := Member(CurrentObject(s, e.user), e.user);
      assert Ghosts(t) <= Ghosts(s) + {left};
      SubsetSize(Ghosts(t), Ghosts(s) + {left});
    } else {
      assert Ghosts(t) <= Ghosts(s);
      SubsetSize(Ghosts(t), Ghosts(s));
    }
  }

  lemma {:induction false} RunGhosts(s: State, es: seq<Event>, ttl: int)
    requires Backed(s) && Smooth(es)
    ensures |Ghosts(Run(s, es, ttl))| <= |Ghosts(s)| + GhostBudget(s, es, ttl)
    decreases es
  {
    if es != [] {
      StepBackedIff(s, es[0], ttl);
      StepGhosts(s, es[0], ttl);
      RunGhosts(Step(s, es[0], ttl), es[1..], ttl);
    }
  }

  function LiveMembers(s: State): set<Member> {
    set m | m in s.members && Live(s, m)
  }

  /** The memberships that are not ghosts are exactly one for each live presence. */
  lemma LiveMembersCount(s: State)
    requires Backed(s)
    ensures |LiveMembers(s)| == |s.presence.Keys|
  {
    var live := LiveMembers(s);
    forall u | u in s.presence.Keys
      ensures exists m :: m in live && m.user == u
    {
      assert Member(s.presence[u].obj, u) in live;
    }
    BijectionSize(live, (m: Member) => m.user, s.presence.Keys);
  }

  lemma MembersSplit(s: State)
    ensures |s.members| == |LiveMembers(s)| + |Ghosts(s)|
  {
    assert s.members == LiveMembers(s) + Ghosts(s) && LiveMembers(s) !! Ghosts(s);
  }

  lemma Conservation(es: seq<Event>, ttl: int)
    requires Smooth(es)
    ensures var s := Run(EMPTY, es, ttl);
            var objects := set m | m in s.members :: m.obj;
            && Backed(s)
            && TotalCount(s, objects) == |s.presence| + |Ghosts(s)|
            && |Ghosts(s)| <= GhostBudget(EMPTY, es, ttl)
  {
    var s := Run(EMPTY, es, ttl);
    RunBacked(EMPTY, es, ttl);
    LiveMembersCount(s);
    MembersSplit(s);
    var objects := set m | m in s.members :: m.obj;
    TotalCountIsMembers(s, objects);
    assert MembersAt(s, objects) == s.members;
    assert Ghosts(EMPTY) == {};
    RunGhosts(EMPTY, es, ttl);
  }

  // ---------- Exactness ----------

  /** Keys name objects. */
  predicate Named(s: State) {
    forall u | u in s.presence :: s.presence[u].obj != ""
  }

  /** The mark takes the user out of the one set it finds the user in: its GET and SREM must not fail. */
  predicate Moves(s: State, user: UserId, from: ObjectId, r: MarkReplies) {
    user in s.presence && s.presence[user].obj == from && r.get.Acked? && r.srem.Applied()
  }

  /** A mark that joins a set leaves every other set the user is in. */
  predicate JoinsAlone(s: State, e: Event) {
    e.Mark? && e.replies.sadd.Applied() ==>
      forall m | m in s.members && m.user == e.user && m.obj != e.obj :: Moves(s, e.user, m.obj, e.replies)
  }

  lemma StepAtMostOneIff(s: State, e: Event, ttl: int)
    requires Named(s) && AtMostOne(s) && Accepted(e)
    ensures AtMostOne(Step(s, e, ttl)) <==> JoinsAlone(s, e)
    ensures Named(Step(s, e, ttl))
  {
    var t := Step(s, e, ttl);
    if !JoinsAlone(s, e) {
      var m :| m in s.members && m.user == e.user && m.obj != e.obj && !Moves(s, e.user, m.obj, e.replies);
      assert m in t.members && Member(e.obj, e.user) in t.members;
    }
  }

  /** In every state along the run a user is in at most one visitor set. */
  ghost predicate AlwaysAtMostOne(s: State, es: seq<Event>, ttl: int)
    decreases es
  {
    AtMostOne(s) && (es == [] || AlwaysAtMostOne(Step(s, es[0], ttl), es[1..], ttl))
  }

  ghost predicate AlwaysJoinsAlone(s: State, es: seq<Event>, ttl: int)
    decreases es
  {
    es == [] || (JoinsAlone(s, es[0]) && AlwaysJoinsAlone(Step(s, es[0], ttl), es[1..], ttl))
  }

  /** With any calls failing: the exact condition under which "present in at most one object" holds. */
  lemma {:induction false} AtMostOneIff(s: State, es: seq<Event>, ttl: int)
    requires Named(s) && AtMostOne(s) && forall e | e in es :: Accepted(e)
    ensures AlwaysAtMostOne(s, es, ttl) <==> AlwaysJoinsAlone(s, es, ttl)
    decreases es
  {
    if es != [] {
      var t := Step(s, es[0], ttl);
      StepAtMostOneIff(s, es[0], ttl);
      if AtMostOne(t) {
        AtMostOneIff(t, es[1..], ttl);
      }
    }
  }

  /** A user without presence is marked only where no other membership lingers. */
  ghost predicate SweptBefore(s: State, e: Event) {
    e.Mark? && e.user !in s.presence ==> forall m | m in s.members && m.user == e.user :: m.obj == e.obj
  }

  ghost predicate AlwaysSweptBefore(s: State, es: seq<Event>, ttl: int)
    decreases es
  {
    es == [] || (SweptBefore(s, es[0]) && AlwaysSweptBefore(Step(s, es[0], ttl), es[1..], ttl))
  }

  /** Without failures the condition is about lapsed users only. */
  lemma {:induction false} AtMostOneIffSwept(s: State, es: seq<Event>, ttl: int)
    requires Backed(s) && AtMostOne(s) && Smooth(es)
    ensures AlwaysAtMostOne(s, es, ttl) <==> AlwaysSweptBefore(s, es, ttl)
    decreases es
  {
    if es != [] {
      var t := Step(s, es[0], ttl);
      StepBackedIff(s, es[0], ttl);
      StepAtMostOneIff(s, es[0], ttl);
      assert JoinsAlone(s, es[0]) <==> SweptBefore(s, es[0]) by {
        if es[0].Mark? && es[0].user in s.presence {
          assert Member(CurrentObject(s, es[0].user), es[0].user) in s.members;
        }
      }
      if AtMostOne(t) {
        AtMostOneIffSwept(t, es[1..], ttl);
      }
    }
  }

  lemma {:induction false} RunAppend(s: State, es: seq<Event>, e: Event, ttl: int)
    ensures Run(s, es + [e], ttl) == Step(Run(s, es, ttl), e, ttl)
    decreases es
  {
    if es == [] {
      assert ([] + [e])[1..] == [] && Run(Step(s, e, ttl), [], ttl) == Step(s, e, ttl);
    } else {
      assert (es + [e])[1..] == es[1..] + [e];
      RunAppend(Step(s, es[0], ttl), es[1..], e, ttl);
    }
  }

  /** Marking elsewhere after a lapse leaves two memberships, and the janitor keeps both. */
  lemma MarkedElsewhereAfterLapse(user: UserId, a: ObjectId, b: ObjectId, ttl: nat)
    requires ttl > 0 && a != b && a != "" && b != ""
    ensures var s := Run(EMPTY, [Mark(user, a, ACKED)] + [Waiting(ttl)] + [Mark(user, b, ACKED)] + [Passing], ttl);
            && {Member(a, user), Member(b, user)} <= s.members
            && Live(s, Member(b, user))
  {
    RunAppend(EMPTY, [], Mark(user, a, ACKED), ttl);
    assert [] + [Mark(user, a, ACKED)] == [Mark(user, a, ACKED)];
    RunAppend(EMPTY, [Mark(user, a, ACKED)], Waiting(ttl), ttl);
    RunAppend(EMPTY, [Mark(user, a, ACKED)] + [Waiting(ttl)], Mark(user, b, ACKED), ttl);
    RunAppend(EMPTY, [Mark(user, a, ACKED)] + [Waiting(ttl)] + [Mark(user, b, ACKED)], Passing, ttl);
  }

  /** A lost SREM is ignored: the mark succeeds, and a live user is in two sets, which no pass repairs. */
  lemma MarkedElsewhereAfterLostRemoval(user: UserId, a: ObjectId, b: ObjectId, ttl: nat)
    requires ttl > 0 && a != b && a != "" && b != ""
    ensures var lost := MarkReplies(Acked, Dropped, Acked, Acked);
            var s := Run(EMPTY, [Mark(user, a, ACKED)] + [Mark(user, b, lost)] + [Passing], ttl);
            && MarkVisiting(Run(EMPTY, [Mark(user, a, ACKED)], ttl), user, b, ttl, lost).1
            && {Member(a, user), Member(b, user)} <= s.members
  {
    var lost := MarkReplies(Acked, Dropped, Acked, Acked);
    RunAppend(EMPTY, [], Mark(user, a, ACKED), ttl);
    assert [] + [Mark(user, a, ACKED)] == [Mark(user, a, ACKED)];
    RunAppend(EMPTY, [Mark(user, a, ACKED)], Mark(user, b, lost), ttl);
    RunAppend(EMPTY, [Mark(user, a, ACKED)] + [Mark(user, b, lost)], Passing, ttl);
  }

  function LiveAt(s: State, obj: ObjectId): set<UserId> {
    set u | u in s.presence && s.presence[u].obj == obj
  }

  /** After a pass all counts are exact just when no live user lingers anywhere else. */
  lemma CountsExactIff(s: State)
    requires Backed(s)
    ensures (forall o :: VisitorCount(Pass(s), o) == |LiveAt(s, o)|)
       <==> (forall m | m in s.members && m.user in s.presence :: Live(s, m))
  {
    var t := Pass(s);
    forall o
      ensures LiveAt(s, o) <= Visitors(t, o)
    {
      forall u | u in LiveAt(s, o)
        ensures u in Visitors(t, o)
      {
        assert Member(o, u) in t.members;
      }
    }
    if m :| m in s.members && m.user in s.presence && !Live(s, m) {
      assert m in t.members;
      assert m.user in Visitors(t, m.obj) && m.user !in LiveAt(s, m.obj);
      SubsetSize(LiveAt(s, m.obj), Visitors(t, m.obj));
    } else {
      forall o
        ensures VisitorCount(t, o) == |LiveAt(s, o)|
      {
        assert Visitors(t, o) == LiveAt(s, o);
      }
    }
  }

  lemma Exactness(es: seq<Event>, ttl: int)
    requires Smooth(es)
    requires AlwaysSweptBefore(EMPTY, es, ttl)
    ensures var s := Run(EMPTY, es, ttl);
            AtMostOne(s) && forall o :: VisitorCount(Pass(s), o) == |LiveAt(s, o)|
  {
    var s := Run(EMPTY, es, ttl);
    AtMostOneIffSwept(EMPTY, es, ttl);
    AlwaysThenFinally(EMPTY, es, ttl);
    RunBacked(EMPTY, es, ttl);
    forall m | m in s.members && m.user in s.presence
      ensures Live(s, m)
    {
      assert Member(CurrentObject(s, m.user), m.user) in s.members;
    }
    CountsExactIff(s);
  }

  lemma {:induction false} AlwaysThenFinally(s: State, es: seq<Event>, ttl: int)
    requires AlwaysAtMostOne(s, es, ttl)
    ensures AtMostOne(Run(s, es, ttl))
    decreases es
  {
    if es != [] {
      AlwaysThenFinally(Step(s, es[0], ttl), es[1..], ttl);
    }
  }

  // ---------- Bounded staleness ----------

  /** Janitor passes are never more than `every` seconds apart; the last was `since` seconds ago. */
  predicate Punctual(es: seq<Event>, every: nat, since: nat) {
    es == [] ||
    match es[0]
    case Waiting(d) => since + d <= every && Punctual(es[1..], every, since + d)
    case Passing => Punctual(es[1..], every, 0)
    case _ => Punctual(es[1..], every, since)
  }

  /**
   From a state whose last pass was at `now - since`: once that pass is later than the
   deadline of the user's last mark, the user is in no set, and stays out.
   */
  lemma {:induction false} StaleFrom(s: State, es: seq<Event>, ttl: nat, every: nat, since: nat, user: UserId, deadline: int)
    requires Punctual(es, every, since) && since <= every
    requires forall e | e in es :: !(e.Mark? && e.user == user)
    requires user in s.presence ==> s.now < s.presence[user].expires <= deadline
    requires s.now - since >= deadline ==> forall m | m in s.members :: m.user != user
    ensures var t := Run(s, es, ttl);
            t.now >= deadline + every ==> forall m | m in t.members :: m.user != user
    decreases es
  {
    if es != [] {
      var t := Step(s, es[0], ttl);
      var since' := if es[0].Waiting? then since + es[0].seconds else if es[0].Passing? then 0 else since;
      StaleFrom(t, es[1..], ttl, every, since', user, deadline);
    }
  }

  /** No key outlives a time to live. */
  predicate DeadlinesNear(s: State, ttl: int) {
    forall u | u in s.presence :: s.now < s.presence[u].expires <= s.now + ttl
  }

  lemma {:induction false} RunDeadlines(s: State, es: seq<Event>, ttl: nat)
    requires DeadlinesNear(s, ttl) && ttl > 0
    ensures DeadlinesNear(Run(s, es, ttl), ttl)
    decreases es
  {
    if es != [] {
      RunDeadlines(Step(s, es[0], ttl), es[1..], ttl);
    }
  }

  /**
   With any marks and clearings failing, the user's last mark included: a user last marked at
   time t is in no visitor set from t + ttl + every on.
   */
  lemma BoundedStaleness(before: seq<Event>, user: UserId, obj: ObjectId, r: MarkReplies, after: seq<Event>,
                         ttl: nat, every: nat, since: nat)
    requires ttl > 0 && since <= every && Punctual(after, every, since)
    requires forall e | e in after :: !(e.Mark? && e.user == user)
    ensures var marked := Step(Run(EMPTY, before, ttl), Mark(user, obj, r), ttl);
            var s := Run(marked, after, ttl);
            s.now >= marked.now + ttl + every ==> forall m | m in s.members :: m.user != user
  {
    RunDeadlines(EMPTY, before, ttl);
    var marked := Step(Run(EMPTY, before, ttl), Mark(user, obj, r), ttl);
    StaleFrom(marked, after, ttl, every, since, user, marked.now + ttl);
  }

  // ---------- What one operation does ----------

  ghost predicate SamePart(s: State, t: State, user: UserId) {
    && (user in s.presence <==> user in t.presence) && (user in s.presence ==> t.presence[user] == s.presence[user])
    && forall m: Member | m.user == user :: m in s.members <==> m in t.members
  }

  /**
   A mark: other users' parts stay; a mark that says it succeeded set the key for a whole time
   to live and the membership; and the only membership it takes away is that of the object left.
   */
  lemma MarkEffect(s: State, user: UserId, obj: ObjectId, ttl: int, r: MarkReplies)
    ensures var (t, ok) := MarkVisiting(s, user, obj, ttl, r);
            && t.now == s.now && (forall u | u != user :: SamePart(s, t, u))
            && (ok <==> r.sadd.Acked? && r.setex.Acked?)
            && (ok ==> user in t.presence && t.presence[user] == Entry(obj, s.now + ttl) && Member(obj, user) in t.members)
            && (r == ACKED ==> t.members == LeftBehind(s, user, obj) + {Member(obj, user)})
            && forall m | m in s.members && m !in t.members ::
                 user in s.presence && m == Member(s.presence[user].obj, user) && m.obj != obj && r.get.Acked? && r.srem.Applied()
  {
  }

  /** Memberships after the user has left the object held by a live key for another one. */
  function LeftBehind(s: State, user: UserId, obj: ObjectId): set<Member> {
    if user in s.presence && s.presence[user].obj != "" && s.presence[user].obj != obj
    then s.members - {Member(s.presence[user].obj, user)} else s.members
  }

  /** A clearing: other users' parts stay, and one that says it succeeded took membership and key. */
  lemma ClearEffect(s: State, user: UserId, obj: ObjectId, srem: Reply, del: Reply)
    ensures var (t, ok) := MarkNotVisiting(s, user, obj, srem, del);
            && t.now == s.now && (forall u | u != user :: SamePart(s, t, u))
            && (ok <==> srem.Acked? && del.Acked?)
            && (ok ==> t.presence == s.presence - {user} && t.members == s.members - {Member(obj, user)})
            && (srem.Failed() ==> t.presence == s.presence)
            && s.members - {Member(obj, user)} <= t.members <= s.members
  {
  }

  /** A key is there exactly until its deadline, and waiting changes nothing else. */
  lemma WaitEffect(s: State, seconds: nat)
    ensures var t := Wait(s, seconds);
            && t.now == s.now + seconds && t.members == s.members
            && forall u :: (u in t.presence <==> u in s.presence && t.now < s.presence[u].expires)
                           && (u in t.presence ==> t.presence[u] == s.presence[u])
  {
  }

  /** The janitor takes a member away exactly when the user has no live key. */
  lemma SweepEffect(s: State, m: Member)
    ensures Sweep(s, m).presence == s.presence && Sweep(s, m).now == s.now
    ensures forall n :: n in Sweep(s, m).members <==> n in s.members && !(n == m && m.user !in s.presence)
    ensures forall n :: n in Pass(s).members <==> n in s.members && n.user in s.presence
    ensures Pass(s).presence == s.presence && Pass(s).now == s.now
  {
  }

  // ---------- A mark and its undoing ----------

  /** Marking and then clearing the same object leaves a user out of it, others untouched. */
  lemma ClearUndoesMark(s: State, user: UserId, obj: ObjectId, ttl: int)
    requires Backed(s) && obj != ""
    ensures var t := MarkNotVisiting(MarkVisiting(s, user, obj, ttl, ACKED).0, user, obj, Acked, Acked).0;
            && t.presence == s.presence - {user}
            && t.members == s.members - {Member(obj, user)} -
                              (if user in s.presence then {Member(CurrentObject(s, user), user)} else {})
  {
    var t := MarkNotVisiting(MarkVisiting(s, user, obj, ttl, ACKED).0, user, obj, Acked, Acked).0;
    assert t.presence == s.presence - {user};
  }
}
