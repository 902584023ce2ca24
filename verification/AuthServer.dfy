/**
 The account lifecycle of the Auth service: credentials, single-use verification tokens
 and sessions. Every store call may fail: the k-th call of an RPC ends as `reply(k)`. Keys
 with a time to live may expire at any moment.
 */
module AuthServer {
  import opened Basics
  import opened Base64
  import opened Password

  type Token = string

  datatype Credential = Credential(login: string, email: string, hash: string, verified: bool)

  /** A verification token handed out for, or used by, a user. */
  datatype Grant = Grant(token: Token, user: UserId)

  /** `minted` and `consumed` record history: nothing reads them. */
  datatype State = State(
    creds: map<UserId, Credential>, tokens: map<Token, UserId>, sessions: map<Token, UserId>,
    minted: set<Grant>, consumed: set<Grant>)

  const EMPTY := State(map[], map[], map[], {}, {})

  datatype Code = OK | AlreadyTaken | BadRequest | BadCreds | NoSession | Internal | EmailNotVerified | BadToken

  /** What the caller sees. */
  datatype Response = Response(code: Code, user: UserId, token: Token)

  datatype Outcome = Outcome(state: State, response: Response)

  function Fail(s: State, code: Code): Outcome {
    Outcome(s, Response(code, "", ""))
  }

  function Plain(s: State): Outcome {
    Outcome(s, Response(OK, "", ""))
  }

  // ---------- Input text ----------

  function Lower(s: string): string {
    seq(|s|, i requires 0 <= i < |s| => if 'A' <= s[i] <= 'Z' then (s[i] as int + 32) as char else s[i])
  }

  predicate IsSpace(c: char) {
    c in {' ', '\t', '\n', '\r', '\U{000B}', '\U{000C}'}
  }

  function TrimSpace(s: string): string {
    if s == "" then s
    else if IsSpace(s[0]) then TrimSpace(s[1..])
    else if IsSpace(s[|s| - 1]) then TrimSpace(s[..|s| - 1])
    else s
  }

  /** The form in which emails are stored and looked up. */
  function Normalise(email: string): string {
    TrimSpace(Lower(email))
  }

  predicate LowerCase(s: string) {
    forall c | c in s :: !('A' <= c <= 'Z')
  }

  lemma {:induction false} TrimSpaceShape(s: string)
    ensures var t := TrimSpace(s);
            && (t != "" ==> !IsSpace(t[0]) && !IsSpace(t[|t| - 1]))
            && forall c | c in t :: c in s
  {
    if s != "" {
      if IsSpace(s[0]) {
        TrimSpaceShape(s[1..]);
      } else if IsSpace(s[|s| - 1]) {
        TrimSpaceShape(s[..|s| - 1]);
      }
    }
  }

  lemma NormaliseTwice(email: string)
    ensures Normalise(Normalise(email)) == Normalise(email)
  {
    var once := Normalise(email);
    TrimSpaceShape(Lower(email));
    assert LowerCase(Lower(email));
    assert LowerCase(once);
    forall i | 0 <= i < |once|
      ensures Lower(once)[i] == once[i]
    {
      assert once[i] in once;
    }
    assert Lower(once) == once;
  }

  // ---------- Store operations ----------

  predicate Taken(s: State, user: UserId, login: string, email: string) {
    user in s.creds || exists u | u in s.creds :: s.creds[u].login == login || s.creds[u].email == email
  }

  predicate Matching(s: State, user: UserId, login: string, email: string) {
    user in s.creds && ((login != "" && s.creds[user].login == login) || (email != "" && s.creds[user].email == email))
  }

  /** LIMIT 1: the database may return `pick` or, if that does not match, any row that does. */
  ghost function Find(s: State, login: string, email: string, pick: UserId): (r: Option<UserId>)
    ensures r.Some? ==> Matching(s, r.value, login, email)
    ensures r.None? ==> forall u :: !Matching(s, u, login, email)
  {
    if Matching(s, pick, login, email) then Some(pick)
    else if u :| Matching(s, u, login, email) then Some(u) else None
  }

  /** Entropy for the token, then SET, then the mail, which nothing depends on. */
  function SendVerification(s: State, user: UserId, token: Token, reply: nat -> Reply, call: nat): State {
    if reply(call).Failed() || !reply(call + 1).Applied() then s
    else s.(tokens := s.tokens[token := user], minted := s.minted + {Grant(token, user)})
  }

  function MarkVerified(s: State, user: UserId): State {
    if user in s.creds then s.(creds := s.creds[user := s.creds[user].(verified := true)]) else s
  }

  // ---------- The handlers, on trimmed and normalised input ----------

  datatype Setup = Setup(kdf: Kdf, params: Params)

  /** `salt`, `user` and `token` are the random values drawn. */
  function Register(setup: Setup, s: State, login: string, email: string, password: string,
                    salt: seq<Byte>, user: UserId, token: Token, reply: nat -> Reply): Outcome {
    if login == "" || email == "" || password == "" then Fail(s, BadRequest)
    else if reply(0).Failed() then Fail(s, Internal)
    else
      var taken := Taken(s, user, login, email);
      var row := Credential(login, email, Hash(setup.kdf, setup.params, password, salt), false);
      var inserted := if !taken && reply(1).Applied() then s.(creds := s.creds[user := row]) else s;
      if reply(1).Failed() then Fail(inserted, Internal)
      else if taken then Fail(s, AlreadyTaken)
      else if reply(2).Failed() then Fail(inserted, Internal)
      else Outcome(SendVerification(inserted, user, token, reply, 3), Response(OK, user, ""))
  }

  ghost function Login(setup: Setup, s: State, login: string, email: string, password: string,
                       pick: UserId, token: Token, reply: nat -> Reply): Outcome {
    if (login == "" && email == "") || password == "" then Fail(s, BadRequest)
    else if reply(0).Failed() || Find(s, login, email, pick).None? then Fail(s, BadCreds)
    else
      var user := Find(s, login, email, pick).value;
      if Verify(setup.kdf, password, s.creds[user].hash) != Match then Fail(s, BadCreds)
      else if !s.creds[user].verified then Fail(s, EmailNotVerified)
      else if reply(1).Failed() then Fail(s, Internal)
      else
        var withSession := if reply(2).Applied() then s.(sessions := s.sessions[token := user]) else s;
        if reply(2).Failed() then Fail(withSession, Internal) else Outcome(withSession, Response(OK, user, token))
  }

  /** The token is looked up, then deleted at best effort, then the account is marked. */
  function VerifyEmail(s: State, token: Token, reply: nat -> Reply): Outcome {
    if token == "" then Fail(s, BadRequest)
    else if reply(0).Failed() then Fail(s, Internal)
    else if token !in s.tokens then Fail(s, BadToken)
    else
      var user := s.tokens[token];
      var used := s.(consumed := s.consumed + {Grant(token, user)},
                     tokens := if reply(1).Applied() then s.tokens - {token} else s.tokens);
      var marked := if reply(2).Applied() then MarkVerified(used, user) else used;
      if reply(2).Failed() then Fail(marked, Internal) else Plain(marked)
  }

  ghost function ResendVerification(s: State, email: string, pick: UserId, token: Token, reply: nat -> Reply): Outcome {
    if email == "" then Fail(s, BadRequest)
    else if reply(0).Failed() || Find(s, "", email, pick).None? then Plain(s)
    else
      var user := Find(s, "", email, pick).value;
      if s.creds[user].verified then Plain(s) else Plain(SendVerification(s, user, token, reply, 1))
  }

  function Logout(s: State, token: Token, reply: nat -> Reply): Outcome {
    if token == "" then Fail(s, NoSession)
    else
      var closed := if reply(0).Applied() then s.(sessions := s.sessions - {token}) else s;
      if reply(0).Failed() then Fail(closed, Internal) else Plain(closed)
  }

  // ---------- Runs ----------

  datatype Event =
    | Registering(login: string, email: string, password: string, salt: seq<Byte>, user: UserId, token: Token,
                  reply: nat -> Reply)
    | LoggingIn(login: string, email: string, password: string, pick: UserId, token: Token, reply: nat -> Reply)
    | Verifying(token: Token, reply: nat -> Reply)
    | Resending(email: string, pick: UserId, token: Token, reply: nat -> Reply)
    | LoggingOut(token: Token, reply: nat -> Reply)
    | TokenExpires(token: Token)
    | SessionExpires(token: Token)

  ghost function Handle(setup: Setup, s: State, e: Event): Outcome {
    match e
    case Registering(login, email, password, salt, user, token, reply) =>
      Register(setup, s, TrimSpace(login), Normalise(email), password, salt, user, token, reply)
    case LoggingIn(login, email, password, pick, token, reply) =>
      Login(setup, s, TrimSpace(login), Normalise(email), password, pick, token, reply)
    case Verifying(token, reply) => VerifyEmail(s, TrimSpace(token), reply)
    case Resending(email, pick, token, reply) => ResendVerification(s, Normalise(email), pick, token, reply)
    case LoggingOut(token, reply) => Logout(s, TrimSpace(token), reply)
    case TokenExpires(token) => Plain(s.(tokens := s.tokens - {token}))
    case SessionExpires(token) => Plain(s.(sessions := s.sessions - {token}))
  }

  ghost function Run(setup: Setup, s: State, events: seq<Event>): State
    decreases events
  {
    if events == [] then s else Run(setup, Handle(setup, s, events[0]).state, events[1..])
  }

  ghost predicate SessionsVerified(s: State) {
    forall t | t in s.sessions :: s.sessions[t] in s.creds && s.creds[s.sessions[t]].verified
  }

  ghost predicate TokensMinted(s: State) {
    s.consumed <= s.minted && forall t | t in s.tokens :: Grant(t, s.tokens[t]) in s.minted
  }

  ghost predicate HasConsumed(s: State, user: UserId) {
    exists t :: Grant(t, user) in s.consumed
  }

  ghost predicate VerifiedConsumed(s: State) {
    forall u | u in s.creds && s.creds[u].verified :: HasConsumed(s, u)
  }

  predicate Share(creds: map<UserId, Credential>, u: UserId, v: UserId) {
    u in creds && v in creds && (creds[u].login == creds[v].login || creds[u].email == creds[v].email)
  }

  /** The unique constraints of the table. */
  ghost predicate Unique(creds: map<UserId, Credential>) {
    forall u, v | Share(creds, u, v) :: u == v
  }

  ghost predicate Inv(s: State) {
    SessionsVerified(s) && TokensMinted(s) && VerifiedConsumed(s) && Unique(s.creds)
  }

  predicate SameRow(c: Credential, d: Credential) {
    d == c.(verified := d.verified) && (c.verified ==> d.verified)
  }

  /** Accounts are never removed or changed, and verification is never undone. */
  ghost predicate Kept(creds: map<UserId, Credential>, creds': map<UserId, Credential>) {
    forall u | u in creds :: u in creds' && SameRow(creds[u], creds'[u])
  }

  ghost predicate AccountsKept(s: State, t: State) {
    Kept(s.creds, t.creds)
  }

  lemma ConsumeInv(s: State, g: Grant)
    requires Inv(s) && g in s.minted
    ensures var t := s.(consumed := s.consumed + {g}); Inv(t) && HasConsumed(t, g.user)
  {
    var t := s.(consumed := s.consumed + {g});
    assert Grant(g.token, g.user) in t.consumed;
    forall u | HasConsumed(s, u)
      ensures HasConsumed(t, u)
    {
      var k :| Grant(k, u) in s.consumed;
      assert Grant(k, u) in t.consumed;
    }
  }

  lemma MarkVerifiedInv(s: State, user: UserId)
    requires Inv(s) && HasConsumed(s, user)
    ensures Inv(MarkVerified(s, user)) && AccountsKept(s, MarkVerified(s, user))
  {
    var t := MarkVerified(s, user);
    assert forall u, v :: Share(t.creds, u, v) ==> Share(s.creds, u, v);
    forall u | HasConsumed(s, u)
      ensures HasConsumed(t, u)
    {
      var k :| Grant(k, u) in s.consumed;
      assert Grant(k, u) in t.consumed;
    }
  }

  lemma VerifyEmailInv(s: State, token: Token, reply: nat -> Reply)
    requires Inv(s)
    ensures var t := VerifyEmail(s, token, reply).state; Inv(t) && AccountsKept(s, t)
  {
    if token in s.tokens {
      var g := Grant(token, s.tokens[token]);
      ConsumeInv(s, g);
      var consumed := s.(consumed := s.consumed + {g});
      var used := consumed.(tokens := if reply(1).Applied() then s.tokens - {token} else s.tokens);
      SameConsumed(consumed, used);
      MarkVerifiedInv(used, g.user);
    }
  }

  lemma SameConsumed(s: State, t: State)
    requires s.consumed == t.consumed
    ensures forall u :: HasConsumed(s, u) <==> HasConsumed(t, u)
  {
  }

  lemma SendVerificationInv(s: State, user: UserId, token: Token, reply: nat -> Reply, call: nat)
    requires Inv(s)
    ensures var t := SendVerification(s, user, token, reply, call); Inv(t) && t.creds == s.creds
  {
    SameConsumed(s, SendVerification(s, user, token, reply, call));
  }

  lemma InsertInv(s: State, user: UserId, row: Credential)
    requires Inv(s) && !Taken(s, user, row.login, row.email) && !row.verified
    ensures var t := s.(creds := s.creds[user := row]); Inv(t) && AccountsKept(s, t)
  {
    var t := s.(creds := s.creds[user := row]);
    SameConsumed(s, t);
    forall u, v | Share(t.creds, u, v)
      ensures u == v
    {
      assert u in s.creds && v in s.creds ==> Share(s.creds, u, v);
    }
  }

  lemma RegisterInv(setup: Setup, s: State, login: string, email: string, password: string,
                    salt: seq<Byte>, user: UserId, token: Token, reply: nat -> Reply)
    requires Inv(s)
    ensures var t := Register(setup, s, login, email, password, salt, user, token, reply).state;
            Inv(t) && AccountsKept(s, t)
  {
    if !Taken(s, user, login, email) {
      var row := Credential(login, email, Hash(setup.kdf, setup.params, password, salt), false);
      InsertInv(s, user, row);
      SendVerificationInv(s.(creds := s.creds[user := row]), user, token, reply, 3);
    }
    SendVerificationInv(s, user, token, reply, 3);
  }

  lemma ResendInv(s: State, email: string, pick: UserId, token: Token, reply: nat -> Reply)
    requires Inv(s)
    ensures var t := ResendVerification(s, email, pick, token, reply).state; Inv(t) && AccountsKept(s, t)
  {
    var found := Find(s, "", email, pick);
    if found.Some? {
      SendVerificationInv(s, found.value, token, reply, 1);
    }
  }

  lemma SessionsInv(s: State, sessions: map<Token, UserId>, tokens: map<Token, UserId>)
    requires Inv(s)
    requires forall t | t in sessions :: sessions[t] in s.creds && s.creds[sessions[t]].verified
    requires forall t | t in tokens :: t in s.tokens && tokens[t] == s.tokens[t]
    ensures var t := s.(sessions := sessions, tokens := tokens); Inv(t) && AccountsKept(s, t)
  {
    SameConsumed(s, s.(sessions := sessions, tokens := tokens));
  }

  lemma LoginInv(setup: Setup, s: State, login: string, email: string, password: string,
                 pick: UserId, token: Token, reply: nat -> Reply)
    requires Inv(s)
    ensures var t := Login(setup, s, login, email, password, pick, token, reply).state; Inv(t) && AccountsKept(s, t)
  {
    var t := Login(setup, s, login, email, password, pick, token, reply).state;
    if t != s {
      var user := Find(s, login, email, pick).value;
      SessionsInv(s, s.sessions[token := user], s.tokens);
    }
  }

  lemma HandleInv(setup: Setup, s: State, e: Event)
    requires Inv(s)
    ensures Inv(Handle(setup, s, e).state) && AccountsKept(s, Handle(setup, s, e).state)
  {
    match e
    case Registering(login, email, password, salt, user, token, reply) =>
      RegisterInv(setup, s, TrimSpace(login), Normalise(email), password, salt, user, token, reply);
    case Verifying(token, reply) => VerifyEmailInv(s, TrimSpace(token), reply);
    case Resending(email, pick, token, reply) => ResendInv(s, Normalise(email), pick, token, reply);
    case LoggingIn(login, email, password, pick, token, reply) =>
      LoginInv(setup, s, TrimSpace(login), Normalise(email), password, pick, token, reply);
    case LoggingOut(token, _) => SessionsInv(s, s.sessions - {TrimSpace(token)}, s.tokens);
    case TokenExpires(token) => SessionsInv(s, s.sessions, s.tokens - {token});
    case SessionExpires(token) => SessionsInv(s, s.sessions - {token}, s.tokens);
  }

  lemma {:induction false} LifecycleFrom(setup: Setup, s: State, events: seq<Event>)
    requires Inv(s)
    ensures Inv(Run(setup, s, events)) && AccountsKept(s, Run(setup, s, events))
    decreases events
  {
    if events != [] {
      HandleInv(setup, s, events[0]);
      LifecycleFrom(setup, Handle(setup, s, events[0]).state, events[1..]);
    }
  }

  /**
   At any two moments of a run from the empty service: live sessions belong to verified
   accounts, verification is never undone, and each verified account has used a token that
   was minted for it.
   */
  lemma LifecycleSafe(setup: Setup, before: seq<Event>, after: seq<Event>)
    ensures var s := Run(setup, EMPTY, before);
            var t := Run(setup, s, after);
            && AccountsKept(s, t)
            && (forall k | k in t.sessions :: t.sessions[k] in t.creds && t.creds[t.sessions[k]].verified)
            && (forall u | u in t.creds && t.creds[u].verified :: exists k :: Grant(k, u) in t.consumed && Grant(k, u) in t.minted)
  {
    LifecycleFrom(setup, EMPTY, before);
    LifecycleFrom(setup, Run(setup, EMPTY, before), after);
    var t := Run(setup, Run(setup, EMPTY, before), after);
    forall u | u in t.creds && t.creds[u].verified
      ensures exists k :: Grant(k, u) in t.consumed && Grant(k, u) in t.minted
    {
      assert HasConsumed(t, u);
    }
  }

  ghost predicate NoFailures(reply: nat -> Reply) {
    forall i :: reply(i) == Acked
  }

  /** Registering without failures leaves the row that a later login needs, and a token for it. */
  lemma Registered(setup: Setup, s: State, r: Event)
    requires r.Registering? && NoFailures(r.reply) && Handle(setup, s, r).response.code.OK?
    ensures var t := Handle(setup, s, r).state;
            && Handle(setup, s, r).response.user == r.user
            && r.user in t.creds && r.token in t.tokens && t.tokens[r.token] == r.user
            && t.creds[r.user].login == TrimSpace(r.login) != "" && t.creds[r.user].email == Normalise(r.email) != ""
            && t.creds[r.user].hash == Hash(setup.kdf, setup.params, r.password, r.salt)
  {
  }

  /** The same login, the same email up to normalisation, or both. */
  predicate SameAccount(r: Event, l: Event)
    requires r.Registering? && l.LoggingIn?
  {
    && (TrimSpace(l.login) != "" || Normalise(l.email) != "")
    && TrimSpace(l.login) in {"", TrimSpace(r.login)}
    && Normalise(l.email) in {"", Normalise(r.email)}
  }

  /** A verified account can be logged into with what it was registered with. */
  lemma LoginWorks(setup: Setup, s: State, r: Event, l: Event)
    requires KeyLengths(setup.kdf) && Fits(setup.params.costs) && Inv(s)
    requires r.Registering? && l.LoggingIn? && SameAccount(r, l) && NoFailures(l.reply)
    requires l.password == r.password != ""
    requires r.user in s.creds && s.creds[r.user].verified
    requires s.creds[r.user].login == TrimSpace(r.login) && s.creds[r.user].email == Normalise(r.email)
    requires s.creds[r.user].hash == Hash(setup.kdf, setup.params, r.password, r.salt)
    ensures Handle(setup, s, l).response == Response(OK, r.user, l.token)
  {
    var login, email := TrimSpace(l.login), Normalise(l.email);
    assert Matching(s, r.user, login, email);
    var found := Find(s, login, email, l.pick);
    assert Share(s.creds, found.value, r.user);
    VerifyHash(setup.kdf, setup.params, r.password, l.password, r.salt);
  }

  predicate Holds(s: State, token: Token, user: UserId) {
    token in s.tokens && s.tokens[token] == user
  }

  /**
   Register, then VerifyEmail with its token, then Login: whatever else happens in between,
   as long as the token is still there when it is used, the login returns the registered id.
   */
  lemma RegisterVerifyLogin(setup: Setup, s: State, r: Event, between: seq<Event>, v: Event, later: seq<Event>, l: Event)
    requires KeyLengths(setup.kdf) && Fits(setup.params.costs) && Inv(s)
    requires r.Registering? && v.Verifying? && l.LoggingIn? && SameAccount(r, l) && l.password == r.password
    requires NoFailures(r.reply) && NoFailures(v.reply) && NoFailures(l.reply)
    requires TrimSpace(v.token) == r.token != ""
    ensures Handle(setup, s, r).response.code.OK? && Holds(Run(setup, Handle(setup, s, r).state, between), r.token, r.user) ==>
            var verified := Handle(setup, Run(setup, Handle(setup, s, r).state, between), v);
            && verified.response.code.OK?
            && Handle(setup, Run(setup, verified.state, later), l).response == Response(OK, r.user, l.token)
  {
    var s1 := Handle(setup, s, r).state;
    var s2 := Run(setup, s1, between);
    if Handle(setup, s, r).response.code.OK? && Holds(s2, r.token, r.user) {
      Registered(setup, s, r);
      HandleInv(setup, s, r);
      LifecycleFrom(setup, s1, between);
      HandleInv(setup, s2, v);
      var s3 := Handle(setup, s2, v).state;
      assert s3.creds[r.user].verified;
      LifecycleFrom(setup, s3, later);
      LoginWorks(setup, Run(setup, s3, later), r, l);
    }
  }

  /** The password fits none of the accounts the log-in names. */
  ghost predicate NoneMatches(setup: Setup, s: State, l: Event)
    requires l.LoggingIn?
  {
    forall u | Matching(s, u, TrimSpace(l.login), Normalise(l.email)) :: Verify(setup.kdf, l.password, s.creds[u].hash) != Match
  }

  /** Without the password of an account it names, Login answers alike in every state; so does a resend. */
  lemma NoEnumeration(setup: Setup, s: State, t: State, e: Event)
    requires e.LoggingIn? || e.Resending?
    requires e.LoggingIn? ==> NoneMatches(setup, s, e) && NoneMatches(setup, t, e)
    ensures Handle(setup, s, e).response == Handle(setup, t, e).response
  {
  }
}
