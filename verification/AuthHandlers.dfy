/** The Auth handlers as they run over the credentials table and the Valkey keys. */
module AuthHandlers {
  import opened Basics
  import opened Base64
  import opened Password
  import opened AuthServer

  class Store {
    var creds: map<UserId, Credential>
    var tokens: map<Token, UserId>
    var sessions: map<Token, UserId>
    ghost var minted: set<Grant>
    ghost var consumed: set<Grant>

    ghost function Value(): State
      reads this
    {
      State(creds, tokens, sessions, minted, consumed)
    }

    constructor ()
      ensures Value() == EMPTY
    {
      creds, tokens, sessions, minted, consumed := map[], map[], map[], {}, {};
    }

    /** The result is None for an acknowledged insert; a unique violation is reported as such. */
    method InsertCredential(user: UserId, row: Credential, reply: Reply) returns (failure: Option<Code>)
      modifies `creds
      ensures var taken := Taken(old(Value()), user, row.login, row.email);
              && creds == (if !taken && reply.Applied() then old(creds)[user := row] else old(creds))
              && failure == if reply.Failed() then Some(Internal) else if taken then Some(AlreadyTaken) else None
    {
      var taken := user in creds;
      var left := creds.Keys;
      while left != {}
        invariant left <= creds.Keys
        invariant taken <==> user in creds ||
                             exists u | u in creds.Keys - left :: creds[u].login == row.login || creds[u].email == row.email
        decreases left
      {
        var u :| u in left;
        left := left - {u};
        if creds[u].login == row.login || creds[u].email == row.email {
          taken := true;
        }
      }
      if !taken && reply.Applied() {
        creds := creds[user := row];
      }
      failure := if reply.Failed() then Some(Internal) else if taken then Some(AlreadyTaken) else None;
    }

    method FindByLoginOrEmail(login: string, email: string, pick: UserId, reply: Reply) returns (user: Option<UserId>)
      ensures user.None? ==> reply.Failed() || forall u :: !Matching(Value(), u, login, email)
      ensures user.Some? ==> reply.Acked? && Matching(Value(), user.value, login, email)
      ensures reply.Acked? && Matching(Value(), pick, login, email) ==> user == Some(pick)
    {
      if reply.Failed() {
        return None;
      }
      if pick in creds && ((login != "" && creds[pick].login == login) || (email != "" && creds[pick].email == email)) {
        return Some(pick);
      }
      var left := creds.Keys;
      while left != {}
        invariant left <= creds.Keys
        invariant forall u | u in creds && u !in left :: !Matching(Value(), u, login, email)
        decreases left
      {
        var u :| u in left;
        if (login != "" && creds[u].login == login) || (email != "" && creds[u].email == email) {
          return Some(u);
        }
        left := left - {u};
      }
      return None;
    }

    method MarkEmailVerified(user: UserId, reply: Reply) returns (ok: bool)
      modifies `creds
      ensures ok == reply.Acked?
      ensures Value() == if reply.Applied() then MarkVerified(old(Value()), user) else old(Value())
    {
      if reply.Applied() && user in creds {
        creds := creds[user := creds[user].(verified := true)];
      }
      ok := reply.Acked?;
    }

    method CreateSession(user: UserId, token: Token, entropy: Reply, setex: Reply) returns (ok: bool)
      modifies `sessions
      ensures ok == (entropy.Acked? && setex.Acked?)
      ensures sessions == if entropy.Acked? && setex.Applied() then old(sessions)[token := user] else old(sessions)
    {
      if entropy.Failed() {
        return false;
      }
      if setex.Applied() {
        sessions := sessions[token := user];
      }
      ok := setex.Acked?;
    }

    method DeleteSession(token: Token, reply: Reply) returns (ok: bool)
      modifies `sessions
      ensures ok == (token == "" || reply.Acked?)
      ensures sessions == if token != "" && reply.Applied() then old(sessions) - {token} else old(sessions)
    {
      if token == "" {
        return true;
      }
      if reply.Applied() {
        sessions := sessions - {token};
      }
      ok := reply.Acked?;
    }

    method CreateVerifyToken(user: UserId, token: Token, reply: nat -> Reply, call: nat) returns (ok: bool)
      modifies `tokens, `minted
      ensures Value() == SendVerification(old(Value()), user, token, reply, call)
      ensures ok == (reply(call).Acked? && reply(call + 1).Acked?)
    {
      if reply(call).Failed() {
        return false;
      }
      if reply(call + 1).Applied() {
        tokens := tokens[token := user];
        minted := minted + {Grant(token, user)};
      }
      ok := reply(call + 1).Acked?;
    }

    /** Looks the token up and burns it; a failed deletion is ignored. */
    method ConsumeVerifyToken(token: Token, get: Reply, del: Reply) returns (ok: bool, user: Option<UserId>)
      modifies `tokens, `consumed
      ensures ok == get.Acked?
      ensures user == if get.Acked? && token in old(tokens) then Some(old(tokens)[token]) else None
      ensures tokens == if user.Some? && del.Applied() then old(tokens) - {token} else old(tokens)
      ensures consumed == if user.Some? then old(consumed) + {Grant(token, user.value)} else old(consumed)
    {
      if get.Failed() {
        return false, None;
      }
      ok := true;
      if token !in tokens {
        return true, None;
      }
      user := Some(tokens[token]);
      consumed := consumed + {Grant(token, tokens[token])};
      if del.Applied() {
        tokens := tokens - {token};
      }
    }
  }

  class Server {
    const store: Store
    const setup: Setup

    constructor (store: Store, setup: Setup)
      ensures this.store == store && this.setup == setup
    {
      this.store, this.setup := store, setup;
    }

    method Register(login: string, email: string, password: string, salt: seq<Byte>, user: UserId, token: Token,
                    reply: nat -> Reply)
      returns (r: Response)
      modifies store
      ensures Outcome(store.Value(), r) ==
              AuthServer.Register(setup, old(store.Value()), TrimSpace(login), Normalise(email), password, salt, user, token, reply)
    {
      var l, e := TrimSpace(login), Normalise(email);
      if l == "" || e == "" || password == "" {
        return Response(BadRequest, "", "");
      }
      if reply(0).Failed() {
        return Response(Internal, "", "");
      }
      var hash := Hash(setup.kdf, setup.params, password, salt);
      var failure := store.InsertCredential(user, Credential(l, e, hash, false), reply(1));
      if failure.Some? {
        return Response(failure.value, "", "");
      }
      if reply(2).Failed() {
        return Response(Internal, "", "");
      }
      var _ := store.CreateVerifyToken(user, token, reply, 3);
      r := Response(OK, user, "");
    }

    /** The response and state are those of a login in which the database picked some matching row. */
    method Login(login: string, email: string, password: string, pick: UserId, token: Token, reply: nat -> Reply)
      returns (r: Response)
      modifies store
      ensures exists p :: Outcome(store.Value(), r) ==
                AuthServer.Login(setup, old(store.Value()), TrimSpace(login), Normalise(email), password, p, token, reply)
    {
      var l, e := TrimSpace(login), Normalise(email);
      ghost var s := store.Value();
      if (l == "" && e == "") || password == "" {
        r := Response(BadRequest, "", "");
        assert Outcome(store.Value(), r) == AuthServer.Login(setup, s, l, e, password, pick, token, reply);
        return;
      }
      var found := store.FindByLoginOrEmail(l, e, pick, reply(0));
      if found.None? {
        r := Response(BadCreds, "", "");
        assert Outcome(store.Value(), r) == AuthServer.Login(setup, s, l, e, password, pick, token, reply);
        return;
      }
      var user := found.value;
      assert Find(s, l, e, user) == Some(user);
      if Verify(setup.kdf, password, store.creds[user].hash) != Match {
        r := Response(BadCreds, "", "");
      } else if !store.creds[user].verified {
        r := Response(EmailNotVerified, "", "");
      } else {
        var ok := store.CreateSession(user, token, reply(1), reply(2));
        r := if ok then Response(OK, user, token) else Response(Internal, "", "");
      }
      assert Outcome(store.Value(), r) == AuthServer.Login(setup, s, l, e, password, user, token, reply);
    }

    method VerifyEmail(token: Token, reply: nat -> Reply) returns (r: Response)
      modifies store
      ensures Outcome(store.Value(), r) == AuthServer.VerifyEmail(old(store.Value()), TrimSpace(token), reply)
    {
      var t := TrimSpace(token);
      if t == "" {
        return Response(BadRequest, "", "");
      }
      var ok, user := store.ConsumeVerifyToken(t, reply(0), reply(1));
      if !ok {
        return Response(Internal, "", "");
      }
      if user.None? {
        return Response(BadToken, "", "");
      }
      ok := store.MarkEmailVerified(user.value, reply(2));
      r := if ok then Response(OK, "", "") else Response(Internal, "", "");
    }

    method ResendVerification(email: string, pick: UserId, token: Token, reply: nat -> Reply) returns (r: Response)
      modifies store
      ensures exists p :: Outcome(store.Value(), r) ==
                AuthServer.ResendVerification(old(store.Value()), Normalise(email), p, token, reply)
    {
      var e := Normalise(email);
      ghost var s := store.Value();
      if e == "" {
        r := Response(BadRequest, "", "");
        assert Outcome(store.Value(), r) == AuthServer.ResendVerification(s, e, pick, token, reply);
        return;
      }
      r := Response(OK, "", "");
      var found := store.FindByLoginOrEmail("", e, pick, reply(0));
      if found.None? {
        assert Outcome(store.Value(), r) == AuthServer.ResendVerification(s, e, pick, token, reply);
        return;
      }
      assert Find(s, "", e, found.value) == found;
      if !store.creds[found.value].verified {
        var _ := store.CreateVerifyToken(found.value, token, reply, 1);
      }
      assert Outcome(store.Value(), r) == AuthServer.ResendVerification(s, e, found.value, token, reply);
    }

    method Logout(token: Token, reply: nat -> Reply) returns (r: Response)
      modifies store
      ensures Outcome(store.Value(), r) == AuthServer.Logout(old(store.Value()), TrimSpace(token), reply)
    {
      var t := TrimSpace(token);
      if t == "" {
        return Response(NoSession, "", "");
      }
      var ok := store.DeleteSession(t, reply(0));
      r := if ok then Response(OK, "", "") else Response(Internal, "", "");
    }
  }
}
