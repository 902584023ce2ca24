/**
 VerifyEmail split at every store call, with many handlers at once: GET and DEL of the
 token in Valkey, then UPDATE of the account. Tokens are minted and expire meanwhile. When
 a link answers, and exactly when one link confirms twice.
 */
module VerifyCalls {
  import opened Basics
  import opened AuthServer

  type Tid = nat

  /** The call a handler in flight makes next. */
  datatype Local =
    | GetToken(token: Token)
    | DelToken(token: Token, user: UserId)
    | MarkUser(token: Token, user: UserId)

  /** What has taken effect, in order; a read is listed when it was answered. */
  datatype Entry =
    | Minted(token: Token, user: UserId)
    | Read(tid: Tid, token: Token)
    | Burned(token: Token)
    | Lapsed(token: Token)
    | Updated(tid: Tid)

  datatype Answer = Answer(token: Token, code: Code)

  datatype Config = Config(state: State, threads: map<Tid, Local>, answers: map<Tid, Answer>, log: seq<Entry>)

  const IDLE := Config(EMPTY, map[], map[], [])

  datatype Event =
    | Insert(user: UserId, row: Credential)
    | Mint(token: Token, user: UserId, replies: nat -> Reply)
    | Expire(token: Token)
    | Begin(tid: Tid, token: Token)
    | Step(tid: Tid, reply: Reply)

  /** Tokens are minted for accounts; a handler is served once. */
  predicate Enabled(c: Config, e: Event) {
    match e
    case Insert(user, row) => user !in c.state.creds && !row.verified
    case Mint(_, user, _) => user in c.state.creds
    case Expire(_) => true
    case Begin(tid, _) => tid !in c.threads && tid !in c.answers
    case Step(tid, _) => tid in c.threads
  }

  function Answered(c: Config, tid: Tid, token: Token, code: Code): Config {
    c.(threads := c.threads - {tid}, answers := c.answers[tid := Answer(token, code)])
  }

  function Logged(c: Config, s: State, entries: seq<Entry>): Config {
    c.(state := s, log := c.log + entries)
  }

  /** One store call of one handler. */
  function Take(c: Config, tid: Tid, reply: Reply): Config
    requires tid in c.threads
  {
    match c.threads[tid]
    case GetToken(token) =>
      if reply.Failed() then Answered(c, tid, token, Internal)
      else
        var read := Logged(c, c.state, [Read(tid, token)]);
        if token !in c.state.tokens then Answered(read, tid, token, BadToken)
        else
          var user := c.state.tokens[token];
          read.(state := c.state.(consumed := c.state.consumed + {Grant(token, user)}),
                threads := c.threads[tid := DelToken(token, user)])
    case DelToken(token, user) =>
      var burned := Logged(c, c.state.(tokens := c.state.tokens - {token}), [Burned(token)]);
      (if reply.Applied() then burned else c).(threads := c.threads[tid := MarkUser(token, user)])
    case MarkUser(token, user) =>
      var marked := if reply.Applied() then c.(state := MarkVerified(c.state, user)) else c;
      if reply.Failed() then Answered(marked, tid, token, Internal)
      else Answered(Logged(marked, marked.state, [Updated(tid)]), tid, token, OK)
  }

  function Next(c: Config, e: Event): Config
    requires Enabled(c, e)
  {
    match e
    case Insert(user, row) => c.(state := c.state.(creds := c.state.creds[user := row]))
    case Mint(token, user, replies) =>
      var minted := !replies(0).Failed() && replies(1).Applied();
      Logged(c, SendVerification(c.state, user, token, replies, 0), if minted then [Minted(token, user)] else [])
    case Expire(token) => Logged(c, c.state.(tokens := c.state.tokens - {token}), [Lapsed(token)])
    case Begin(tid, token) =>
      var t := TrimSpace(token);
      if t == "" then Answered(c, tid, t, BadRequest) else c.(threads := c.threads[tid := GetToken(t)])
    case Step(tid, reply) => Take(c, tid, reply)
  }

  function Execute(c: Config, events: seq<Event>): Option<Config>
    decreases events
  {
    if events == [] then Some(c)
    else if !Enabled(c, events[0]) then None
    else Execute(Next(c, events[0]), events[1..])
  }

  // ---------- A handler on its own ----------

  /** The replies a handler gets when nothing happens in between. */
  function Alone(c: Config, tid: Tid, reply: nat -> Reply, call: nat): Config
    decreases 3 - call
  {
    if tid !in c.threads || call >= 3 then c else Alone(Take(c, tid, reply(call)), tid, reply, call + 1)
  }

  /** Uninterrupted, the calls are the handler. */
  lemma AloneIsVerifyEmail(c: Config, tid: Tid, token: Token, reply: nat -> Reply)
    requires Enabled(c, Begin(tid, token))
    ensures var end := Alone(Next(c, Begin(tid, token)), tid, reply, 0);
            var whole := VerifyEmail(c.state, TrimSpace(token), reply);
            && end.state == whole.state && end.threads == c.threads
            && end.answers == c.answers[tid := Answer(TrimSpace(token), whole.response.code)]
  {
    if TrimSpace(token) != "" {
      var c1 := Next(c, Begin(tid, token));
      var c2 := Take(c1, tid, reply(0));
      if tid in c2.threads {
        DelAndMark(c2, tid, reply);
      }
      assert Alone(c1, tid, reply, 0) == Alone(c2, tid, reply, 1);
    }
  }

  lemma DelAndMark(c: Config, tid: Tid, reply: nat -> Reply)
    requires tid in c.threads && c.threads[tid].DelToken?
    ensures var end, l := Alone(c, tid, reply, 1), c.threads[tid];
            var used := if reply(1).Applied() then c.state.(tokens := c.state.tokens - {l.token}) else c.state;
            && end.state == (if reply(2).Applied() then MarkVerified(used, l.user) else used)
            && end.threads == c.threads - {tid}
            && end.answers == c.answers[tid := Answer(l.token, if reply(2).Failed() then Internal else OK)]
  {
    var c1 := Take(c, tid, reply(1));
    var c2 := Take(c1, tid, reply(2));
    assert Alone(c1, tid, reply, 2) == c2;
  }

  // ---------- When a link answers ----------

  predicate Ends(e: Entry, token: Token) {
    (e.Burned? || e.Lapsed?) && e.token == token
  }

  /** The i-th entry minted the token for the user, and before the n-th it was neither ended nor minted anew. */
  predicate LiveSince(log: seq<Entry>, i: nat, n: nat, token: Token, user: UserId) {
    && i < n <= |log| && log[i] == Minted(token, user)
    && forall k | i < k < n :: !Ends(log[k], token) && !(log[k].Minted? && log[k].token == token)
  }

  ghost predicate Live(log: seq<Entry>, n: nat, token: Token, user: UserId) {
    exists i: nat :: LiveSince(log, i, n, token, user)
  }

  /** The n-th entry is a handler's read of a token that was live for the user. */
  ghost predicate Finds(log: seq<Entry>, n: nat, tid: Tid, token: Token, user: UserId) {
    n < |log| && log[n] == Read(tid, token) && Live(log, n, token, user)
  }

  ghost predicate Found(log: seq<Entry>, tid: Tid, token: Token, user: UserId) {
    exists n: nat :: Finds(log, n, tid, token, user)
  }

  lemma LiveLater(log: seq<Entry>, more: seq<Entry>, n: nat, token: Token, user: UserId)
    requires n <= |log|
    ensures Live(log + more, n, token, user) <==> Live(log, n, token, user)
  {
    if i: nat :| LiveSince(log, i, n, token, user) {
      assert LiveSince(log + more, i, n, token, user);
    }
    if i: nat :| LiveSince(log + more, i, n, token, user) {
      assert forall k | 0 <= k < n :: log[k] == (log + more)[k];
      assert LiveSince(log, i, n, token, user);
    }
  }

  lemma LiveNow(log: seq<Entry>, e: Entry, token: Token, user: UserId)
    ensures Live(log + [e], |log| + 1, token, user) <==>
            e == Minted(token, user) ||
            (Live(log, |log|, token, user) && !Ends(e, token) && !(e.Minted? && e.token == token))
  {
    var more, n := log + [e], |log| + 1;
    assert more[|log|] == e && forall k | 0 <= k < |log| :: more[k] == log[k];
    if e == Minted(token, user) {
      assert LiveSince(more, |log|, n, token, user);
    }
    if Live(log, |log|, token, user) && !Ends(e, token) && !(e.Minted? && e.token == token) {
      var i: nat :| LiveSince(log, i, |log|, token, user);
      assert LiveSince(more, i, n, token, user);
    }
    if i: nat :| LiveSince(more, i, n, token, user) {
      if i < |log| {
        assert forall k | i < k < |log| :: more[k] == log[k];
        assert LiveSince(log, i, |log|, token, user);
      }
    }
  }

  lemma FoundLater(log: seq<Entry>, more: seq<Entry>, tid: Tid, token: Token, user: UserId)
    requires Found(log, tid, token, user)
    ensures Found(log + more, tid, token, user)
  {
    var n: nat :| Finds(log, n, tid, token, user);
    LiveLater(log, more, n, token, user);
    assert Finds(log + more, n, tid, token, user);
  }

  /** The log explains the live tokens. */
  ghost predicate TokensExplained(c: Config) {
    forall t, u :: Live(c.log, |c.log|, t, u) <==> t in c.state.tokens && c.state.tokens[t] == u
  }

  /** A handler in flight past its GET has found its token. */
  ghost predicate HoldsToken(log: seq<Entry>, tid: Tid, l: Local) {
    !l.GetToken? ==> Found(log, tid, l.token, l.user)
  }

  function TokenOf(c: Config, tid: Tid): Token
    requires tid in c.threads || tid in c.answers
  {
    if tid in c.threads then c.threads[tid].token else c.answers[tid].token
  }

  /** A handler has read its own token, and is past its GET. */
  predicate ReadByHandler(c: Config, tid: Tid, token: Token) {
    && (tid in c.threads || tid in c.answers) && TokenOf(c, tid) == token
    && (tid in c.threads ==> !c.threads[tid].GetToken?)
  }

  ghost predicate ReadsExplained(c: Config) {
    && (forall n | 0 <= n < |c.log| && c.log[n].Read? :: ReadByHandler(c, c.log[n].tid, c.log[n].token))
    && (forall tid | tid in c.threads :: tid !in c.answers && HoldsToken(c.log, tid, c.threads[tid]))
  }

  ghost predicate FoundByAny(log: seq<Entry>, tid: Tid, token: Token) {
    exists u :: Found(log, tid, token, u)
  }

  /** A handler answered OK exactly when it found its token and its UPDATE was acknowledged. */
  ghost predicate AnswersExplained(c: Config) {
    && (forall tid | tid in c.answers && c.answers[tid].code.OK? ::
          Updated(tid) in c.log && FoundByAny(c.log, tid, c.answers[tid].token))
    && (forall tid | Updated(tid) in c.log :: tid in c.answers && c.answers[tid].code.OK?)
  }

  ghost predicate Explained(c: Config) {
    TokensExplained(c) && ReadsExplained(c) && AnswersExplained(c)
  }

  lemma NextLog(c: Config, e: Event)
    requires Enabled(c, e)
    ensures var d := Next(c, e);
            && c.log <= d.log && |d.log| <= |c.log| + 1
            && (d.log == c.log ==> d.state.tokens == c.state.tokens)
  {
  }

  lemma TokensStep(c: Config, e: Event)
    requires Enabled(c, e) && TokensExplained(c)
    ensures TokensExplained(Next(c, e))
  {
    var d := Next(c, e);
    NextLog(c, e);
    if d.log != c.log {
      var entry := d.log[|c.log|];
      assert d.log == c.log + [entry];
      forall t, u
        ensures Live(d.log, |d.log|, t, u) <==> t in d.state.tokens && d.state.tokens[t] == u
      {
        LiveNow(c.log, entry, t, u);
      }
    }
  }

  /** A handler's token stays its own, and it goes forward only. */
  lemma HandlersNext(c: Config, e: Event, tid: Tid, token: Token)
    requires Enabled(c, e) && ReadByHandler(c, tid, token) && (tid in c.threads ==> tid !in c.answers)
    ensures ReadByHandler(Next(c, e), tid, token)
  {
  }

  lemma ReadNext(c: Config, e: Event, n: nat)
    requires Enabled(c, e) && ReadsExplained(c) && n < |Next(c, e).log| && Next(c, e).log[n].Read?
    ensures ReadByHandler(Next(c, e), Next(c, e).log[n].tid, Next(c, e).log[n].token)
  {
    NextLog(c, e);
    if n < |c.log| {
      HandlersNext(c, e, c.log[n].tid, c.log[n].token);
    }
  }

  lemma ReadsStep(c: Config, e: Event)
    requires Enabled(c, e) && TokensExplained(c) && ReadsExplained(c)
    ensures ReadsExplained(Next(c, e))
  {
    var d := Next(c, e);
    NextLog(c, e);
    forall n | 0 <= n < |d.log| && d.log[n].Read?
      ensures ReadByHandler(d, d.log[n].tid, d.log[n].token)
    {
      ReadNext(c, e, n);
    }
    forall tid | tid in d.threads
      ensures tid !in d.answers && HoldsToken(d.log, tid, d.threads[tid])
    {
      HoldsNext(c, e, tid);
    }
  }

  /** How a handler comes to be in flight past its GET: it was already, or its GET has just found the token. */
  lemma ThreadsNext(c: Config, e: Event, tid: Tid)
    requires Enabled(c, e) && (forall t | t in c.threads :: t !in c.answers) && tid in Next(c, e).threads
    ensures var d := Next(c, e);
            var l := d.threads[tid];
            && tid !in d.answers
            && (l.GetToken? ||
                (tid in c.threads && !c.threads[tid].GetToken? && c.threads[tid].token == l.token && c.threads[tid].user == l.user) ||
                (d.log == c.log + [Read(tid, l.token)] && l.token in c.state.tokens && c.state.tokens[l.token] == l.user))
  {
  }

  lemma HoldsNext(c: Config, e: Event, tid: Tid)
    requires Enabled(c, e) && TokensExplained(c) && ReadsExplained(c) && tid in Next(c, e).threads
    ensures tid !in Next(c, e).answers && HoldsToken(Next(c, e).log, tid, Next(c, e).threads[tid])
  {
    var d := Next(c, e);
    NextLog(c, e);
    ThreadsNext(c, e, tid);
    var l := d.threads[tid];
    if tid in c.threads && !c.threads[tid].GetToken? {
      assert d.log == c.log + d.log[|c.log|..];
      FoundLater(c.log, d.log[|c.log|..], tid, l.token, l.user);
    } else if !l.GetToken? {
      LiveLater(c.log, [Read(tid, l.token)], |c.log|, l.token, l.user);
      assert Finds(d.log, |c.log|, tid, l.token, l.user);
    }
  }

  /** An answer is kept, and a new OK comes with the UPDATE of a handler that held a token. */
  lemma AnswersNext(c: Config, e: Event, tid: Tid)
    requires Enabled(c, e) && (forall t | t in c.threads :: t !in c.answers)
    ensures var d := Next(c, e);
            && (tid in c.answers ==> tid in d.answers && d.answers[tid] == c.answers[tid])
            && (tid in d.answers && d.answers[tid].code.OK? && tid !in c.answers ==>
                  && tid in c.threads && c.threads[tid].MarkUser? && c.threads[tid].token == d.answers[tid].token
                  && d.log == c.log + [Updated(tid)])
            && (|d.log| > |c.log| && d.log[|c.log|] == Updated(tid) ==> tid in d.answers && d.answers[tid].code.OK?)
  {
  }

  lemma OkExplained(c: Config, e: Event, tid: Tid)
    requires Enabled(c, e) && Explained(c)
    requires tid in Next(c, e).answers && Next(c, e).answers[tid].code.OK?
    ensures Updated(tid) in Next(c, e).log && FoundByAny(Next(c, e).log, tid, Next(c, e).answers[tid].token)
  {
    var d := Next(c, e);
    var token := d.answers[tid].token;
    NextLog(c, e);
    AnswersNext(c, e, tid);
    var more := d.log[|c.log|..];
    assert d.log == c.log + more;
    if tid in c.answers {
      assert FoundByAny(c.log, tid, token);
      var u :| Found(c.log, tid, token, u);
      FoundLater(c.log, more, tid, token, u);
    } else {
      FoundLater(c.log, more, tid, token, c.threads[tid].user);
      assert d.log[|c.log|] == Updated(tid);
    }
  }

  lemma AnswersStep(c: Config, e: Event)
    requires Enabled(c, e) && Explained(c)
    ensures AnswersExplained(Next(c, e))
  {
    var d := Next(c, e);
    NextLog(c, e);
    forall tid | tid in d.answers && d.answers[tid].code.OK?
      ensures Updated(tid) in d.log && FoundByAny(d.log, tid, d.answers[tid].token)
    {
      OkExplained(c, e, tid);
    }
    forall tid | Updated(tid) in d.log
      ensures tid in d.answers && d.answers[tid].code.OK?
    {
      AnswersNext(c, e, tid);
    }
  }

  lemma {:induction false} StaysExplained(c: Config, events: seq<Event>)
    requires Explained(c)
    ensures Execute(c, events).Some? ==> Explained(Execute(c, events).value)
    decreases events
  {
    if events != [] && Enabled(c, events[0]) {
      TokensStep(c, events[0]);
      ReadsStep(c, events[0]);
      AnswersStep(c, events[0]);
      StaysExplained(Next(c, events[0]), events[1..]);
    }
  }

  ghost predicate Reached(c: Config) {
    exists events :: Execute(IDLE, events) == Some(c)
  }

  lemma ReachedExplained(c: Config)
    requires Reached(c)
    ensures Explained(c)
  {
    var events :| Execute(IDLE, events) == Some(c);
    StaysExplained(IDLE, events);
  }

  /**
   In every reachable configuration, whatever other handlers have done: a GET that is
   acknowledged finds the user for whom the token was minted, if and only if no deletion that
   took effect, no expiry and no new mint of it has come since.
   */
  lemma LinkAnswersIff(c: Config, tid: Tid, user: UserId)
    requires Reached(c) && tid in c.threads && c.threads[tid].GetToken?
    ensures var d, token := Next(c, Step(tid, Acked)), c.threads[tid].token;
            && (tid in d.threads && d.threads[tid] == DelToken(token, user) <==> Live(c.log, |c.log|, token, user))
            && (tid in d.answers && d.answers[tid] == Answer(token, BadToken) <==> forall u :: !Live(c.log, |c.log|, token, u))
  {
    ReachedExplained(c);
    var token := c.threads[tid].token;
    if token in c.state.tokens {
      assert Live(c.log, |c.log|, token, c.state.tokens[token]);
    }
  }

  lemma ConfirmedIff(c: Config, tid: Tid, token: Token)
    requires Reached(c)
    ensures tid in c.answers && c.answers[tid] == Answer(token, OK) <==> Updated(tid) in c.log && FoundByAny(c.log, tid, token)
  {
    ReachedExplained(c);
    if Updated(tid) in c.log && FoundByAny(c.log, tid, token) {
      var u :| Found(c.log, tid, token, u);
      var n: nat :| Finds(c.log, n, tid, token, u);
      assert ReadByHandler(c, c.log[n].tid, c.log[n].token);
    }
  }

  // ---------- When one link confirms twice ----------

  /** Tokens are drawn fresh. */
  predicate MintedOnce(log: seq<Entry>, token: Token) {
    forall i, j | 0 <= i < |log| && 0 <= j < |log| && log[i].Minted? && log[j].Minted? && log[i].token == log[j].token == token ::
      i == j
  }

  /** Between the i-th entry, which minted the token, and the n-th nothing ended it. */
  predicate Window(log: seq<Entry>, i: nat, n: nat, token: Token) {
    && i < n < |log| && log[i].Minted? && log[i].token == token
    && forall k | i < k < n :: !Ends(log[k], token)
  }

  /** Both handlers read the token before anything ended it. */
  ghost predicate BothRead(log: seq<Entry>, p: Tid, q: Tid, token: Token) {
    exists i: nat, j: nat, k: nat ::
      Window(log, i, j, token) && Window(log, i, k, token) && log[j] == Read(p, token) && log[k] == Read(q, token)
  }

  lemma WindowFinds(log: seq<Entry>, i: nat, n: nat, tid: Tid, token: Token)
    requires MintedOnce(log, token) && Window(log, i, n, token) && log[n] == Read(tid, token)
    ensures FoundByAny(log, tid, token)
  {
    assert LiveSince(log, i, n, token, log[i].user);
    assert Finds(log, n, tid, token, log[i].user);
    assert Found(log, tid, token, log[i].user);
  }

  lemma FoundWindow(log: seq<Entry>, tid: Tid, token: Token) returns (i: nat, n: nat)
    requires FoundByAny(log, tid, token)
    ensures Window(log, i, n, token) && log[n] == Read(tid, token)
  {
    var u :| Found(log, tid, token, u);
    n :| Finds(log, n, tid, token, u);
    i :| LiveSince(log, i, n, token, u);
  }

  /**
   Under every interleaving: two handlers both answer OK for one link if and only if both
   read it before any deletion that took effect and any expiry, and both UPDATEs were acknowledged.
   */
  lemma ConfirmsTwiceIff(c: Config, p: Tid, q: Tid, token: Token)
    requires Reached(c) && MintedOnce(c.log, token)
    ensures && p in c.answers && c.answers[p] == Answer(token, OK)
            && q in c.answers && c.answers[q] == Answer(token, OK)
       <==> BothRead(c.log, p, q, token) && Updated(p) in c.log && Updated(q) in c.log
  {
    ConfirmedIff(c, p, token);
    ConfirmedIff(c, q, token);
    if FoundByAny(c.log, p, token) && FoundByAny(c.log, q, token) {
      var i, j := FoundWindow(c.log, p, token);
      var i', k := FoundWindow(c.log, q, token);
      assert i == i';
      assert BothRead(c.log, p, q, token);
    }
    if BothRead(c.log, p, q, token) {
      var i: nat, j: nat, k: nat :|
        Window(c.log, i, j, token) && Window(c.log, i, k, token) && c.log[j] == Read(p, token) && c.log[k] == Read(q, token);
      WindowFinds(c.log, i, j, p, token);
      WindowFinds(c.log, i, k, q, token);
    }
  }

  predicate EndedBetween(log: seq<Entry>, j: nat, k: nat, token: Token) {
    exists m | j < m < k < |log| :: Ends(log[m], token)
  }

  predicate ReadAt(log: seq<Entry>, n: nat, token: Token) {
    n < |log| && log[n].Read? && log[n].token == token
  }

  /** Between reads of one link by different handlers it ends. */
  ghost predicate EndsBetweenReads(log: seq<Entry>, token: Token) {
    forall j: nat, k: nat | j < k && ReadAt(log, j, token) && ReadAt(log, k, token) && log[j].tid != log[k].tid ::
      EndedBetween(log, j, k, token)
  }

  lemma SharedWindow(log: seq<Entry>, i: nat, j: nat, k: nat, token: Token)
    requires EndsBetweenReads(log, token) && j < k && Window(log, i, j, token) && Window(log, i, k, token)
    requires ReadAt(log, j, token) && ReadAt(log, k, token)
    ensures log[j].tid == log[k].tid
  {
  }

  /** What makes a link single-use: handlers whose reads are separated by its end cannot both confirm. */
  lemma SingleUse(c: Config, p: Tid, q: Tid, token: Token)
    requires Reached(c) && MintedOnce(c.log, token) && EndsBetweenReads(c.log, token)
    requires p in c.answers && c.answers[p] == Answer(token, OK) && q in c.answers && c.answers[q] == Answer(token, OK)
    ensures p == q
  {
    ConfirmsTwiceIff(c, p, q, token);
    var i: nat, j: nat, k: nat :|
      Window(c.log, i, j, token) && Window(c.log, i, k, token) && c.log[j] == Read(p, token) && c.log[k] == Read(q, token);
    if j < k {
      SharedWindow(c.log, i, j, k, token);
    } else if k < j {
      SharedWindow(c.log, i, k, j, token);
    }
  }

  // ---------- A schedule in which one link confirms twice ----------

  predicate Path(configs: seq<Config>, events: seq<Event>) {
    && |configs| == |events| + 1
    && forall i | 0 <= i < |events| :: Enabled(configs[i], events[i]) && configs[i + 1] == Next(configs[i], events[i])
  }

  lemma {:induction false} PathExecutes(configs: seq<Config>, events: seq<Event>)
    requires Path(configs, events)
    ensures Execute(configs[0], events) == Some(configs[|events|])
    decreases events
  {
    if events != [] {
      PathExecutes(configs[1..], events[1..]);
    }
  }

  /** Two handlers of one link have begun. */
  function Opened(user: UserId, row: Credential, token: Token): seq<Event> {
    [Insert(user, row), Mint(token, user, i => Acked), Begin(1, token), Begin(2, token)]
  }

  function Both(): seq<Event> {
    [Step(1, Acked), Step(2, Acked)]
  }

  /** Each makes its GET, then its DEL, then its UPDATE, and every call is acknowledged. */
  function Served(): seq<Event> {
    Both() + Both() + Both()
  }

  lemma OpenedEnds(user: UserId, row: Credential, token: Token) returns (end: Config)
    requires TrimSpace(token) == token != "" && !row.verified
    ensures Execute(IDLE, Opened(user, row, token)) == Some(end)
    ensures end.threads == map[1 := GetToken(token), 2 := GetToken(token)] && end.answers == map[]
    ensures end.state.tokens == map[token := user]
  {
    var es := Opened(user, row, token);
    var c1 := Next(IDLE, es[0]);
    var c2 := Next(c1, es[1]);
    var c3 := Next(c2, es[2]);
    end := Next(c3, es[3]);
    PathExecutes([IDLE, c1, c2, c3, end], es);
  }

  lemma OneStep(c: Config, e: Event, d: Config)
    requires Enabled(c, e) && d == Next(c, e)
    ensures Execute(c, [e]) == Some(d)
  {
    assert [e][1..] == [] && Execute(d, []) == Some(d);
  }

  lemma BothRun(c: Config, c1: Config, c2: Config)
    requires Execute(c, [Step(1, Acked)]) == Some(c1) && Execute(c1, [Step(2, Acked)]) == Some(c2)
    ensures Execute(c, Both()) == Some(c2)
  {
    ExecuteAppend(c, [Step(1, Acked)], [Step(2, Acked)]);
    assert Both() == [Step(1, Acked)] + [Step(2, Acked)];
  }

  lemma BothGet(c: Config, user: UserId, token: Token) returns (end: Config)
    requires c.threads == map[1 := GetToken(token), 2 := GetToken(token)] && c.state.tokens == map[token := user]
    ensures Execute(c, Both()) == Some(end) && end.answers == c.answers
    ensures end.threads == map[1 := DelToken(token, user), 2 := DelToken(token, user)]
    ensures end.log == c.log + [Read(1, token), Read(2, token)]
  {
    var c1 := Take(c, 1, Acked);
    assert c1.threads == map[1 := DelToken(token, user), 2 := GetToken(token)];
    end := Take(c1, 2, Acked);
    OneStep(c, Step(1, Acked), c1);
    OneStep(c1, Step(2, Acked), end);
    BothRun(c, c1, end);
  }

  lemma BothBurn(c: Config, user: UserId, token: Token) returns (end: Config)
    requires c.threads == map[1 := DelToken(token, user), 2 := DelToken(token, user)]
    ensures Execute(c, Both()) == Some(end) && end.answers == c.answers
    ensures end.threads == map[1 := MarkUser(token, user), 2 := MarkUser(token, user)]
    ensures end.log == c.log + [Burned(token), Burned(token)]
  {
    var c1 := Take(c, 1, Acked);
    assert c1.threads == map[1 := MarkUser(token, user), 2 := DelToken(token, user)];
    end := Take(c1, 2, Acked);
    OneStep(c, Step(1, Acked), c1);
    OneStep(c1, Step(2, Acked), end);
    BothRun(c, c1, end);
  }

  lemma BothConfirm(c: Config, user: UserId, token: Token) returns (end: Config)
    requires c.threads == map[1 := MarkUser(token, user), 2 := MarkUser(token, user)] && c.answers == map[]
    ensures Execute(c, Both()) == Some(end)
    ensures end.answers == map[1 := Answer(token, OK), 2 := Answer(token, OK)] && c.log <= end.log
  {
    var c1 := Take(c, 1, Acked);
    assert c1.threads == map[2 := MarkUser(token, user)] && c1.answers == map[1 := Answer(token, OK)];
    end := Take(c1, 2, Acked);
    OneStep(c, Step(1, Acked), c1);
    OneStep(c1, Step(2, Acked), end);
    BothRun(c, c1, end);
  }

  lemma {:induction false} ExecuteAppend(c: Config, es: seq<Event>, fs: seq<Event>)
    requires Execute(c, es).Some?
    ensures Execute(c, es + fs) == Execute(Execute(c, es).value, fs)
    decreases es
  {
    if es == [] {
      assert es + fs == fs;
    } else {
      assert (es + fs)[1..] == es[1..] + fs;
      ExecuteAppend(Next(c, es[0]), es[1..], fs);
    }
  }

  /** From the empty service: both handlers confirm with the one link, although both deletions took effect. */
  lemma ConfirmedTwice(user: UserId, row: Credential, token: Token)
    requires TrimSpace(token) == token != "" && !row.verified
    ensures var end := Execute(IDLE, Opened(user, row, token) + Served());
            && end.Some? && end.value.answers == map[1 := Answer(token, OK), 2 := Answer(token, OK)]
            && Burned(token) in end.value.log
  {
    var c := OpenedEnds(user, row, token);
    var c1 := BothGet(c, user, token);
    var c2 := BothBurn(c1, user, token);
    var end := BothConfirm(c2, user, token);
    ExecuteAppend(c, Both(), Both());
    ExecuteAppend(c, Both() + Both(), Both());
    ExecuteAppend(IDLE, Opened(user, row, token), Served());
    assert end.log[|c1.log|] == Burned(token);
  }

  // ---------- A replay changes nothing ----------

  predicate AccountVerified(s: State, user: UserId) {
    user in s.creds && s.creds[user].verified
  }

  /** The user for whom the handler found its token is verified. */
  ghost predicate Confirmed(c: Config, tid: Tid) {
    tid in c.answers && exists u :: Found(c.log, tid, c.answers[tid].token, u) && AccountVerified(c.state, u)
  }

  ghost predicate AccountsExplained(c: Config) {
    && (forall e | e in c.log && e.Minted? :: e.user in c.state.creds)
    && (forall tid | tid in c.answers && c.answers[tid].code.OK? :: Confirmed(c, tid))
  }

  /** Accounts are never removed and never lose their verification. */
  lemma VerifiedStays(c: Config, e: Event)
    requires Enabled(c, e)
    ensures |c.log| <= |Next(c, e).log|
    ensures forall u | u in c.state.creds :: u in Next(c, e).state.creds
    ensures forall u | AccountVerified(c.state, u) :: AccountVerified(Next(c, e).state, u)
    ensures forall n | n in Next(c, e).log[|c.log|..] && n.Minted? :: n.user in c.state.creds
  {
  }

  lemma FoundMinted(log: seq<Entry>, tid: Tid, token: Token, user: UserId)
    requires Found(log, tid, token, user)
    ensures Minted(token, user) in log
  {
    var n: nat :| Finds(log, n, tid, token, user);
    var i: nat :| LiveSince(log, i, n, token, user);
    assert log[i] in log;
  }

  lemma ConfirmedNext(c: Config, e: Event, tid: Tid)
    requires Enabled(c, e) && Explained(c) && AccountsExplained(c)
    requires tid in Next(c, e).answers && Next(c, e).answers[tid].code.OK?
    ensures Confirmed(Next(c, e), tid)
  {
    var d := Next(c, e);
    NextLog(c, e);
    AnswersNext(c, e, tid);
    VerifiedStays(c, e);
    var more, token := d.log[|c.log|..], d.answers[tid].token;
    assert d.log == c.log + more;
    if tid in c.answers {
      var u :| Found(c.log, tid, token, u) && AccountVerified(c.state, u);
      FoundLater(c.log, more, tid, token, u);
      assert Found(d.log, tid, token, u) && AccountVerified(d.state, u);
    } else {
      var u := c.threads[tid].user;
      FoundMinted(c.log, tid, token, u);
      FoundLater(c.log, more, tid, token, u);
      UpdateVerifies(c, e, tid);
      assert Found(d.log, tid, token, u) && AccountVerified(d.state, u);
    }
  }

  lemma UpdateVerifies(c: Config, e: Event, tid: Tid)
    requires Enabled(c, e) && tid in c.threads && c.threads[tid].MarkUser? && c.threads[tid].user in c.state.creds
    requires Next(c, e).log == c.log + [Updated(tid)]
    ensures AccountVerified(Next(c, e).state, c.threads[tid].user)
  {
    assert Next(c, e).log[|c.log|] == Updated(tid);
    assert e.Step? && e.tid == tid;
  }

  lemma AccountsStep(c: Config, e: Event)
    requires Enabled(c, e) && Explained(c) && AccountsExplained(c)
    ensures AccountsExplained(Next(c, e))
  {
    var d := Next(c, e);
    VerifiedStays(c, e);
    MintsHaveAccounts(c, e);
    forall tid | tid in d.answers && d.answers[tid].code.OK?
      ensures Confirmed(d, tid)
    {
      ConfirmedNext(c, e, tid);
    }
  }

  lemma MintsHaveAccounts(c: Config, e: Event)
    requires Enabled(c, e) && (forall m | m in c.log && m.Minted? :: m.user in c.state.creds)
    ensures forall m | m in Next(c, e).log && m.Minted? :: m.user in Next(c, e).state.creds
  {
    VerifiedStays(c, e);
    NextLog(c, e);
    var d := Next(c, e);
    forall m | m in d.log && m.Minted?
      ensures m.user in d.state.creds
    {
      if m !in c.log {
        assert d.log == c.log + d.log[|c.log|..];
      }
    }
  }

  lemma {:induction false} AccountsStay(c: Config, events: seq<Event>)
    requires Explained(c) && AccountsExplained(c)
    ensures Execute(c, events).Some? ==> AccountsExplained(Execute(c, events).value)
    decreases events
  {
    if events != [] && Enabled(c, events[0]) {
      TokensStep(c, events[0]);
      ReadsStep(c, events[0]);
      AnswersStep(c, events[0]);
      AccountsStep(c, events[0]);
      AccountsStay(Next(c, events[0]), events[1..]);
    }
  }

  lemma SameUser(log: seq<Entry>, token: Token, p: Tid, u: UserId, q: Tid, v: UserId)
    requires MintedOnce(log, token) && Found(log, p, token, u) && Found(log, q, token, v)
    ensures u == v
  {
    FoundMinted(log, p, token, u);
    FoundMinted(log, q, token, v);
    var i :| 0 <= i < |log| && log[i] == Minted(token, u);
    var j :| 0 <= j < |log| && log[j] == Minted(token, v);
    assert i == j;
  }

  lemma StepOfVerified(c: Config, tid: Tid, reply: Reply)
    requires tid in c.threads && (c.threads[tid].MarkUser? ==> AccountVerified(c.state, c.threads[tid].user))
    ensures Next(c, Step(tid, reply)).state.creds == c.state.creds
  {
  }

  /**
   Under every interleaving: once a link has confirmed an account, no call of any handler of
   that link changes any account.
   */
  lemma ReplayHarmless(c: Config, p: Tid, tid: Tid, reply: Reply)
    requires Reached(c) && p in c.answers && c.answers[p].code.OK? && tid in c.threads
    requires c.threads[tid].token == c.answers[p].token && MintedOnce(c.log, c.answers[p].token)
    ensures Next(c, Step(tid, reply)).state.creds == c.state.creds
  {
    var events :| Execute(IDLE, events) == Some(c);
    StaysExplained(IDLE, events);
    AccountsStay(IDLE, events);
    assert Confirmed(c, p);
    var token := c.answers[p].token;
    var u :| Found(c.log, p, token, u) && AccountVerified(c.state, u);
    if c.threads[tid].MarkUser? {
      assert HoldsToken(c.log, tid, c.threads[tid]);
      SameUser(c.log, token, p, u, tid, c.threads[tid].user);
    }
    StepOfVerified(c, tid, reply);
  }
}
