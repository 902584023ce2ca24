/**
 MarkVisiting and MarkNotVisiting as the single Valkey commands they issue, run
 concurrently by many users. Each user has at most one operation in flight; any
 command may fail, keys expire and time passes. Every such interleaving ends as a serial order.
 */
module PresenceCommands {
  import opened Basics
  import opened Presence

  datatype Op =
    | MarkOp(user: UserId, obj: ObjectId, mark: MarkReplies)
    | ClearOp(user: UserId, obj: ObjectId, srem: Reply, del: Reply)

  /** The command an operation in flight issues next. */
  datatype Next =
    | GetPresence(op: Op)
    | SremPrevious(op: Op, prev: ObjectId)
    | SaddVisitor(op: Op)
    | SetPresence(op: Op)
    | SremVisitor(op: Op)
    | DelPresence(op: Op)
  {
    ghost predicate Valid() {
      if SremVisitor? || DelPresence? then op.ClearOp? else op.MarkOp?
    }

    /** The first command has been issued, and none so far has failed that would end the operation. */
    predicate Begun()
      requires Valid()
    {
      && !GetPresence? && !SremVisitor?
      && (SetPresence? ==> !op.mark.sadd.Failed())
      && (DelPresence? ==> !op.srem.Failed())
    }

    /** An upper bound on the commands left. */
    function Rank(): nat {
      match this
      case GetPresence(_) => 4
      case SremPrevious(_, _) => 3
      case SaddVisitor(_) => 2
      case SetPresence(_) => 1
      case SremVisitor(_) => 2
      case DelPresence(_) => 1
    }
  }

  function First(op: Op): (n: Next)
    ensures n.Valid() && n.op == op
  {
    if op.MarkOp? then GetPresence(op) else SremVisitor(op)
  }

  /** Issues one command; the second result is what the operation does next, if anything. */
  function Issue(s: State, n: Next, ttl: int): (State, Option<Next>)
    requires n.Valid()
  {
    match n
    case GetPresence(op) =>
      var prev := if op.mark.get.Acked? then CurrentObject(s, op.user) else "";
      (s, Some(if prev != "" && prev != op.obj then SremPrevious(op, prev) else SaddVisitor(op)))
    case SremPrevious(op, prev) =>
      (Srem(s, prev, op.user, op.mark.srem), Some(SaddVisitor(op)))
    case SaddVisitor(op) =>
      (Sadd(s, op.obj, op.user, op.mark.sadd), if op.mark.sadd.Failed() then None else Some(SetPresence(op)))
    case SetPresence(op) =>
      (SetEx(s, op.user, op.obj, ttl, op.mark.setex), None)
    case SremVisitor(op) =>
      (Srem(s, op.obj, op.user, op.srem), if op.srem.Failed() then None else Some(DelPresence(op)))
    case DelPresence(op) =>
      (Del(s, op.user, op.del), None)
  }

  /** Every operation in flight belongs to the user it is filed under. */
  datatype Config = Config(store: State, inFlight: map<UserId, Next>) {
    ghost predicate Valid() {
      forall u | u in inFlight :: inFlight[u].Valid() && inFlight[u].Begun() && inFlight[u].op.user == u
    }
  }

  /**
   An operation begins with its first command. The clock may advance and a key may expire at
   any time; the janitor acts on a user between that user's operations.
   */
  datatype Action =
    | Begin(op: Op)
    | Continue(user: UserId)
    | Expire(user: UserId)
    | SweepOne(member: Member)
    | Tick(seconds: nat)

  predicate Enabled(c: Config, a: Action) {
    match a
    case Begin(op) => op.user !in c.inFlight
    case Continue(user) => user in c.inFlight
    case Expire(_) => true
    case SweepOne(m) => m.user !in c.inFlight
    case Tick(_) => true
  }

  /** The clock alone; keys expire by an action of their own. */
  function Later(s: State, seconds: nat): State {
    s.(now := s.now + seconds)
  }

  /** The configuration after a user's operation has issued the command `n`. */
  function Issued(c: Config, user: UserId, n: Next, ttl: int): Config
    requires n.Valid()
  {
    var (store, next) := Issue(c.store, n, ttl);
    Config(store, if next.Some? then c.inFlight[user := next.value] else c.inFlight - {user})
  }

  function Act(c: Config, a: Action, ttl: int): Config
    requires c.Valid() && Enabled(c, a)
  {
    match a
    case Begin(op) => Issued(c, op.user, First(op), ttl)
    case Continue(user) => Issued(c, user, c.inFlight[user], ttl)
    case Expire(user) => c.(store := Del(c.store, user, Acked))
    case SweepOne(m) => c.(store := Sweep(c.store, m))
    case Tick(d) => c.(store := Later(c.store, d))
  }

  lemma ActValid(c: Config, a: Action, ttl: int)
    requires c.Valid() && Enabled(c, a)
    ensures Act(c, a, ttl).Valid()
  {
    match a
    case Begin(op) => IssueProgress(c.store, First(op), ttl);
    case Continue(user) => IssueProgress(c.store, c.inFlight[user], ttl);
    case _ =>
  }

  /** The configuration a schedule reaches, if every action is enabled when it is taken. */
  ghost function Execute(c: Config, schedule: seq<Action>, ttl: int): Option<Config>
    requires c.Valid()
    decreases schedule
  {
    if schedule == [] then Some(c)
    else if !Enabled(c, schedule[0]) then None
    else
      ActValid(c, schedule[0], ttl);
      Execute(Act(c, schedule[0], ttl), schedule[1..], ttl)
  }

  /** The operation will yet write or delete the user's key, whatever becomes of the key before. */
  predicate Overwrites(op: Op) {
    match op
    case MarkOp(_, _, r) => !r.sadd.Failed() && r.setex.Applied()
    case ClearOp(_, _, srem, del) => !srem.Failed() && del.Applied()
  }

  /** An expiry that the user's operation in flight makes good. */
  predicate Absorbed(c: Config, a: Action) {
    a.Expire? && a.user in c.inFlight && Overwrites(c.inFlight[a.user].op)
  }

  /** The serial order: whole operations at the moment they begin, and expiries that are not absorbed. */
  ghost function Serialised(c: Config, schedule: seq<Action>, ttl: int): seq<Action>
    requires c.Valid()
    decreases schedule
  {
    if schedule == [] || !Enabled(c, schedule[0]) then []
    else
      var a := schedule[0];
      ActValid(c, a, ttl);
      var rest := Serialised(Act(c, a, ttl), schedule[1..], ttl);
      if a.Continue? || Absorbed(c, a) then rest else [a] + rest
  }

  function Whole(s: State, op: Op, ttl: int): State {
    match op
    case MarkOp(user, obj, r) => MarkVisiting(s, user, obj, ttl, r).0
    case ClearOp(user, obj, srem, del) => MarkNotVisiting(s, user, obj, srem, del).0
  }

  function SerialStep(s: State, a: Action, ttl: int): State {
    match a
    case Begin(op) => Whole(s, op, ttl)
    case Continue(_) => s
    case Expire(user) => Del(s, user, Acked)
    case SweepOne(m) => Sweep(s, m)
    case Tick(d) => Later(s, d)
  }

  function RunSerial(s: State, actions: seq<Action>, ttl: int): State
    decreases actions
  {
    if actions == [] then s else RunSerial(SerialStep(s, actions[0], ttl), actions[1..], ttl)
  }

  /** The time a schedule takes. */
  function Elapsed(schedule: seq<Action>): nat {
    if schedule == [] then 0 else (if schedule[0].Tick? then schedule[0].seconds else 0) + Elapsed(schedule[1..])
  }

  // ---------- The state factors into one part per user ----------

  /** The states agree on one user's object and memberships, and on the deadline but for `slack` seconds. */
  ghost predicate Agree(s: State, t: State, user: UserId, slack: nat) {
    && s.now == t.now
    && (user in s.presence <==> user in t.presence)
    && (user in s.presence ==>
          && s.presence[user].obj == t.presence[user].obj
          && t.presence[user].expires <= s.presence[user].expires <= t.presence[user].expires + slack)
    && forall o :: Member(o, user) in s.members <==> Member(o, user) in t.members
  }

  /** The states agree altogether, deadlines but for `slack` seconds. */
  ghost predicate Matches(s: State, t: State, slack: nat) {
    && s.now == t.now && s.members == t.members && s.presence.Keys == t.presence.Keys
    && forall u | u in s.presence :: Agree(s, t, u, slack)
  }

  lemma PartsDetermine(s: State, t: State, slack: nat)
    requires forall u :: Agree(s, t, u, slack)
    ensures Matches(s, t, slack) && (slack == 0 ==> s == t)
  {
    assert Agree(s, t, "", slack);
    assert forall u :: Agree(s, t, u, slack) ==> (u in s.presence <==> u in t.presence);
    forall m
      ensures m in s.members <==> m in t.members
    {
      assert Agree(s, t, m.user, slack) && m == Member(m.obj, m.user);
    }
    if slack == 0 {
      forall u | u in s.presence
        ensures s.presence[u] == t.presence[u]
      {
        assert Agree(s, t, u, 0);
      }
      assert s.presence == t.presence;
    }
  }

  lemma IssueLeavesOthers(s: State, n: Next, ttl: int, other: UserId)
    requires n.Valid() && other != n.op.user
    ensures Agree(s, Issue(s, n, ttl).0, other, 0)
  {
  }

  lemma IssueReadsOwnPart(s: State, t: State, n: Next, ttl: int, slack: nat)
    requires n.Valid() && Agree(s, t, n.op.user, slack)
    ensures Issue(s, n, ttl).1 == Issue(t, n, ttl).1
    ensures Agree(Issue(s, n, ttl).0, Issue(t, n, ttl).0, n.op.user, slack)
  {
  }

  lemma IssueProgress(s: State, n: Next, ttl: int)
    requires n.Valid()
    ensures var next := Issue(s, n, ttl).1;
            next.Some? ==> next.value.Valid() && next.value.Begun() && next.value.op == n.op && next.value.Rank() < n.Rank()
  {
  }

  /** The state once an operation in flight has issued the rest of its commands. */
  function Finish(s: State, n: Next, ttl: int): State
    requires n.Valid()
    decreases n.Rank()
  {
    IssueProgress(s, n, ttl);
    var (t, next) := Issue(s, n, ttl);
    if next.None? then t else Finish(t, next.value, ttl)
  }

  lemma {:induction false} FinishReadsOwnPart(s: State, t: State, n: Next, ttl: int, slack: nat)
    requires n.Valid() && Agree(s, t, n.op.user, slack)
    ensures Agree(Finish(s, n, ttl), Finish(t, n, ttl), n.op.user, slack)
    decreases n.Rank()
  {
    IssueReadsOwnPart(s, t, n, ttl, slack);
    IssueProgress(s, n, ttl);
    var (s', next) := Issue(s, n, ttl);
    if next.Some? {
      FinishReadsOwnPart(s', Issue(t, n, ttl).0, next.value, ttl, slack);
    }
  }

  /** Time that passes while an operation is in flight can only put off the deadline it sets. */
  lemma {:induction false} FinishLater(s: State, n: Next, ttl: int, seconds: nat)
    requires n.Valid()
    ensures Agree(Finish(Later(s, seconds), n, ttl), Later(Finish(s, n, ttl), seconds), n.op.user, seconds)
    decreases n.Rank()
  {
    IssueProgress(s, n, ttl);
    var (s', next) := Issue(s, n, ttl);
    if next.Some? {
      assert Issue(Later(s, seconds), n, ttl) == (Later(s', seconds), next);
      FinishLater(s', next.value, ttl, seconds);
    }
  }

  /** Issued without interruption, the commands are the operation. */
  lemma FinishFirst(s: State, op: Op, ttl: int)
    ensures Finish(s, First(op), ttl) == Whole(s, op, ttl)
  {
    if op.MarkOp? {
      var prev := if op.mark.get.Acked? then CurrentObject(s, op.user) else "";
      var moves := prev != "" && prev != op.obj;
      var left := if moves then Srem(s, prev, op.user, op.mark.srem) else s;
      assert Finish(s, First(op), ttl) == Finish(left, SaddVisitor(op), ttl) by {
        if moves {
          assert Finish(s, SremPrevious(op, prev), ttl) == Finish(left, SaddVisitor(op), ttl);
        }
      }
      var joined := Sadd(left, op.obj, op.user, op.mark.sadd);
      if !op.mark.sadd.Failed() {
        assert Finish(joined, SetPresence(op), ttl) == SetEx(joined, op.user, op.obj, ttl, op.mark.setex);
      }
    } else {
      var left := Srem(s, op.obj, op.user, op.srem);
      if !op.srem.Failed() {
        assert Finish(left, DelPresence(op), ttl) == Del(left, op.user, op.del);
      }
    }
  }

  /** An expiry while an operation is in flight is absorbed, or is as good as one after it. */
  lemma {:induction false} ExpiryInFlight(s: State, n: Next, ttl: int)
    requires n.Valid() && n.Begun()
    ensures Agree(Finish(Del(s, n.op.user, Acked), n, ttl),
                  if Overwrites(n.op) then Finish(s, n, ttl) else Del(Finish(s, n, ttl), n.op.user, Acked), n.op.user, 0)
    decreases n.Rank()
  {
    IssueProgress(s, n, ttl);
    var t := Del(s, n.op.user, Acked);
    var (s', next) := Issue(s, n, ttl);
    assert Issue(t, n, ttl).1 == next;
    if next.Some? {
      ExpiryInFlight(s', next.value, ttl);
      assert Agree(Issue(t, n, ttl).0, Del(s', n.op.user, Acked), n.op.user, 0);
      FinishReadsOwnPart(Issue(t, n, ttl).0, Del(s', n.op.user, Acked), next.value, ttl, 0);
    }
  }

  lemma WholeLeavesOthers(s: State, op: Op, ttl: int, other: UserId)
    requires other != op.user
    ensures Agree(s, Whole(s, op, ttl), other, 0)
  {
  }

  // ---------- Serialisability ----------

  /** What a user's part will be once the user's operation in flight has finished. */
  function Settled(c: Config, user: UserId, ttl: int): State
    requires c.Valid()
  {
    if user in c.inFlight then Finish(c.store, c.inFlight[user], ttl) else c.store
  }

  /** Letting every operation in flight finish would give the serial state, user by user. */
  ghost predicate Simulates(c: Config, t: State, ttl: int, slack: nat)
    requires c.Valid()
  {
    forall u :: Agree(Settled(c, u, ttl), t, u, slack)
  }

  lemma BeginSimulates(c: Config, op: Op, t: State, ttl: int, slack: nat)
    requires c.Valid() && op.user !in c.inFlight && Agree(c.store, t, op.user, slack)
    ensures Issued(c, op.user, First(op), ttl).Valid()
    ensures Agree(Settled(Issued(c, op.user, First(op), ttl), op.user, ttl), Whole(t, op, ttl), op.user, slack)
  {
    ActValid(c, Begin(op), ttl);
    IssueProgress(c.store, First(op), ttl);
    FinishReadsOwnPart(c.store, t, First(op), ttl, slack);
    FinishFirst(t, op, ttl);
  }

  /** The serial state after an action: nothing happens when an operation goes on or absorbs an expiry. */
  ghost function SerialNext(c: Config, a: Action, t: State, ttl: int): State {
    if a.Continue? || Absorbed(c, a) then t else SerialStep(t, a, ttl)
  }

  /** A user's part is settled as the serial state says, for the user an action is about. */
  lemma OwnPartSimulates(c: Config, a: Action, t: State, ttl: int, u: UserId, slack: nat)
    requires c.Valid() && Enabled(c, a) && About(a, u) && Agree(Settled(c, u, ttl), t, u, slack)
    ensures Act(c, a, ttl).Valid()
    ensures Agree(Settled(Act(c, a, ttl), u, ttl), SerialNext(c, a, t, ttl), u, slack)
  {
    ActValid(c, a, ttl);
    match a
    case Begin(op) => BeginSimulates(c, op, t, ttl, slack);
    case Continue(user) => IssueProgress(c.store, c.inFlight[user], ttl);
    case Expire(user) =>
      if user in c.inFlight {
        ExpiryInFlight(c.store, c.inFlight[user], ttl);
      }
    case _ =>
  }

  predicate About(a: Action, u: UserId) {
    match a
    case Begin(op) => op.user == u
    case Continue(user) => user == u
    case Expire(user) => user == u
    case SweepOne(m) => m.user == u
    case Tick(_) => false
  }

  /** Everybody else's part is left alone. */
  lemma OtherPartSimulates(c: Config, a: Action, t: State, ttl: int, u: UserId, slack: nat)
    requires c.Valid() && Enabled(c, a) && !About(a, u) && !a.Tick? && Agree(Settled(c, u, ttl), t, u, slack)
    ensures Act(c, a, ttl).Valid()
    ensures Agree(Settled(Act(c, a, ttl), u, ttl), SerialNext(c, a, t, ttl), u, slack)
  {
    ActValid(c, a, ttl);
    var c' := Act(c, a, ttl);
    match a {
      case Begin(op) =>
        IssueLeavesOthers(c.store, First(op), ttl, u);
        WholeLeavesOthers(t, op, ttl, u);
      case Continue(user) => IssueLeavesOthers(c.store, c.inFlight[user], ttl, u);
      case _ =>
    }
    assert Agree(c.store, c'.store, u, 0);
    if u in c.inFlight {
      FinishReadsOwnPart(c.store, c'.store, c.inFlight[u], ttl, 0);
    }
  }

  lemma TickSimulates(c: Config, seconds: nat, t: State, ttl: int, u: UserId, slack: nat)
    requires c.Valid() && Agree(Settled(c, u, ttl), t, u, slack)
    ensures Act(c, Tick(seconds), ttl).Valid()
    ensures Agree(Settled(Act(c, Tick(seconds), ttl), u, ttl), Later(t, seconds), u, slack + seconds)
  {
    if u in c.inFlight {
      FinishLater(c.store, c.inFlight[u], ttl, seconds);
    }
  }

  lemma ActSimulates(c: Config, a: Action, t: State, ttl: int, slack: nat)
    requires c.Valid() && Enabled(c, a) && Simulates(c, t, ttl, slack)
    ensures Act(c, a, ttl).Valid() && Simulates(Act(c, a, ttl), SerialNext(c, a, t, ttl), ttl, slack + Elapsed([a]))
  {
    ActValid(c, a, ttl);
    assert Elapsed([a]) == if a.Tick? then a.seconds else 0;
    forall u
      ensures Agree(Settled(Act(c, a, ttl), u, ttl), SerialNext(c, a, t, ttl), u, slack + Elapsed([a]))
    {
      assert Agree(Settled(c, u, ttl), t, u, slack);
      if a.Tick? {
        TickSimulates(c, a.seconds, t, ttl, u, slack);
      } else if About(a, u) {
        OwnPartSimulates(c, a, t, ttl, u, slack);
      } else {
        OtherPartSimulates(c, a, t, ttl, u, slack);
      }
    }
  }

  lemma {:induction false} ExecuteSimulates(c: Config, schedule: seq<Action>, t: State, ttl: int, slack: nat)
    requires c.Valid() && Simulates(c, t, ttl, slack)
    ensures var end := Execute(c, schedule, ttl);
            end.Some? ==>
              end.value.Valid() && Simulates(end.value, RunSerial(t, Serialised(c, schedule, ttl), ttl), ttl, slack + Elapsed(schedule))
    decreases schedule
  {
    if schedule != [] && Enabled(c, schedule[0]) {
      var a, rest := schedule[0], schedule[1..];
      ActSimulates(c, a, t, ttl, slack);
      assert Elapsed(schedule) == Elapsed([a]) + Elapsed(rest);
      ExecuteSimulates(Act(c, a, ttl), rest, SerialNext(c, a, t, ttl), ttl, slack + Elapsed([a]));
      if !a.Continue? && !Absorbed(c, a) {
        assert Serialised(c, schedule, ttl)[1..] == Serialised(Act(c, a, ttl), rest, ttl);
      }
    }
  }

  /**
   A schedule that ends with nothing in flight ends where its serial order does. A deadline may
   be later than in the serial order, by no more than the time the schedule takes; when it
   takes none the states are equal.
   */
  lemma Serialisable(s: State, schedule: seq<Action>, ttl: int)
    ensures var c := Config(s, map[]);
            var end := Execute(c, schedule, ttl);
            end.Some? && end.value.inFlight == map[] ==>
              var serial := RunSerial(s, Serialised(c, schedule, ttl), ttl);
              && Matches(end.value.store, serial, Elapsed(schedule))
              && (Elapsed(schedule) == 0 ==> end.value.store == serial)
  {
    var c := Config(s, map[]);
    assert Simulates(c, s, ttl, 0);
    ExecuteSimulates(c, schedule, s, ttl, 0);
    var end := Execute(c, schedule, ttl);
    if end.Some? && end.value.inFlight == map[] {
      var t := RunSerial(s, Serialised(c, schedule, ttl), ttl);
      forall u
        ensures Agree(end.value.store, t, u, Elapsed(schedule))
      {
        assert Agree(Settled(end.value, u, ttl), t, u, Elapsed(schedule));
      }
      PartsDetermine(end.value.store, t, Elapsed(schedule));
    }
  }

  /** The actions other than commands that go on with an operation, and other than expiries. */
  function Essential(actions: seq<Action>): seq<Action> {
    if actions == [] then []
    else (if actions[0].Continue? || actions[0].Expire? then [] else [actions[0]]) + Essential(actions[1..])
  }

  function Expiries(actions: seq<Action>): multiset<UserId> {
    if actions == [] then multiset{}
    else (if actions[0].Expire? then multiset{actions[0].user} else multiset{}) + Expiries(actions[1..])
  }

  /** The serial order is one of the schedule itself: the same operations, removals and ticks in the same order, and no expiry that was not there. */
  lemma {:induction false} SerialOrder(c: Config, schedule: seq<Action>, ttl: int)
    requires c.Valid() && Execute(c, schedule, ttl).Some?
    ensures var serial := Serialised(c, schedule, ttl);
            && Essential(serial) == Essential(schedule)
            && Expiries(serial) <= Expiries(schedule)
            && forall a | a in serial :: !a.Continue?
    decreases schedule
  {
    if schedule != [] {
      var a := schedule[0];
      ActValid(c, a, ttl);
      SerialOrder(Act(c, a, ttl), schedule[1..], ttl);
      var rest := Serialised(Act(c, a, ttl), schedule[1..], ttl);
      assert ([a] + rest)[1..] == rest;
    }
  }

  /** A removal between SADD and SET, which schedules here exclude: presence without a membership. */
  lemma SweepBetweenCommands(user: UserId, obj: ObjectId, ttl: nat)
    requires ttl > 0
    ensures var swept := Sweep(Sadd(EMPTY, obj, user, Acked), Member(obj, user));
            var end := SetEx(swept, user, obj, ttl, Acked);
            CurrentObject(end, user) == obj && end.members == {} && !Backed(end)
  {
  }
}
