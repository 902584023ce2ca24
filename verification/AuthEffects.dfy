/**
 What each RPC of Auth does to accounts, tokens and sessions, said in terms of those alone,
 and what it answers.
 */
module AuthEffects {
  import opened Basics
  import opened Base64
  import opened Password
  import opened AuthServer
  import AuthTrace

  // ---------- Input text ----------

  predicate Upper(c: char) {
    'A' <= c <= 'Z'
  }

  predicate AllSpace(s: string) {
    forall c | c in s :: IsSpace(c)
  }

  /** Trimming takes white space from both ends and nothing else. */
  lemma {:induction false} TrimSpaceParts(s: string) returns (front: string, back: string)
    ensures s == front + TrimSpace(s) + back && AllSpace(front) && AllSpace(back)
    ensures var t := TrimSpace(s); t != "" ==> !IsSpace(t[0]) && !IsSpace(t[|t| - 1])
    decreases |s|
  {
    front, back := "", "";
    if s != "" && IsSpace(s[0]) {
      front, back := TrimSpaceParts(s[1..]);
      front := [s[0]] + front;
      assert s == [s[0]] + s[1..];
    } else if s != "" && IsSpace(s[|s| - 1]) {
      front, back := TrimSpaceParts(s[..|s| - 1]);
      back := back + [s[|s| - 1]];
      assert s == s[..|s| - 1] + [s[|s| - 1]];
    }
  }

  /** The two texts differ at most in the case of letters. */
  predicate SameButCase(s: string, t: string) {
    |s| == |t| && forall i | 0 <= i < |s| ::
      || s[i] == t[i]
      || (Upper(s[i]) && t[i] as int == s[i] as int + 32) || (Upper(t[i]) && s[i] as int == t[i] as int + 32)
  }

  /** Emails that differ only in case are one email, and in its stored form no letter is upper case. */
  lemma NormaliseIgnoresCase(s: string, t: string)
    requires SameButCase(s, t)
    ensures Normalise(s) == Normalise(t) && forall c | c in Normalise(s) :: !Upper(c)
  {
    assert Lower(s) == Lower(t);
    TrimSpaceShape(Lower(s));
  }

  /** White space around an email does not matter. */
  lemma NormaliseTrims(front: string, s: string, back: string)
    requires AllSpace(front) && AllSpace(back)
    ensures Normalise(front + s + back) == Normalise(s)
  {
    LowerSpace(front);
    LowerSpace(back);
    assert Lower(front + s + back) == front + Lower(s) + back;
    TrimFront(front, Lower(s) + back);
    assert front + Lower(s) + back == front + (Lower(s) + back);
    TrimBack(Lower(s), back);
  }

  lemma LowerSpace(s: string)
    requires AllSpace(s)
    ensures Lower(s) == s
  {
    forall i | 0 <= i < |s|
      ensures Lower(s)[i] == s[i]
    {
      assert s[i] in s;
    }
  }

  lemma {:induction false} TrimFront(front: string, s: string)
    requires AllSpace(front)
    ensures TrimSpace(front + s) == TrimSpace(s)
  {
    if front == "" {
      assert front + s == s;
    } else {
      assert front[0] in front && (front + s)[1..] == front[1..] + s;
      TrimFront(front[1..], s);
    }
  }

  lemma {:induction false} TrimBack(s: string, back: string)
    requires AllSpace(back)
    ensures TrimSpace(s + back) == TrimSpace(s)
    decreases |s| + |back|
  {
    if back == "" {
      assert s + back == s;
    } else if s == "" {
      assert s + back == back + "";
      TrimFront(back, "");
    } else if IsSpace(s[0]) {
      assert (s + back)[1..] == s[1..] + back;
      TrimBack(s[1..], back);
    } else {
      var last := |back| - 1;
      assert back[last] in back && (s + back)[..|s + back| - 1] == s + back[..last];
      TrimBack(s, back[..last]);
    }
  }

  // ---------- Registering ----------

  predicate InUse(s: State, user: UserId, login: string, email: string) {
    user in s.creds || exists u | u in s.creds :: s.creds[u].login == login || s.creds[u].email == email
  }

  /** Exactly one unverified row and one token are added, or nothing, and the answer says why. */
  lemma RegisterEffect(setup: Setup, s: State, e: Event)
    requires e.Registering? && NoFailures(e.reply)
    ensures var o := Handle(setup, s, e);
            var login, email := TrimSpace(e.login), Normalise(e.email);
            var complete := login != "" && email != "" && e.password != "";
            && (o.response.code.BadRequest? <==> !complete)
            && (o.response.code.AlreadyTaken? <==> complete && InUse(s, e.user, login, email))
            && (o.response.code.OK? <==> complete && !InUse(s, e.user, login, email))
            && (!o.response.code.OK? ==> o.state == s)
            && (o.response.code.OK? ==>
                  && o.response.user == e.user
                  && o.state.creds == s.creds[e.user := Credential(login, email, Hash(setup.kdf, setup.params, e.password, e.salt), false)]
                  && o.state.tokens == s.tokens[e.token := e.user] && o.state.sessions == s.sessions)
  {
  }

  /** A failed handoff of the profile leaves the account in place: the same registration is then taken. */
  lemma RetryIsTaken(setup: Setup, s: State, e: Event, again: Event)
    requires e.Registering? && e.reply(0).Acked? && e.reply(1).Acked? && e.reply(2).Failed()
    requires again.Registering? && NoFailures(again.reply) && again.password != ""
    requires again.login == e.login && again.email == e.email && Handle(setup, s, e).state != s
    ensures Handle(setup, s, e).response.code.Internal?
    ensures Handle(setup, Handle(setup, s, e).state, again).response.code.AlreadyTaken?
  {
  }

  // ---------- Logging in ----------

  /** The log-in names this account by a login or an email that is not empty. */
  predicate NamedBy(s: State, u: UserId, login: string, email: string) {
    u in s.creds && ((login != "" && s.creds[u].login == login) || (email != "" && s.creds[u].email == email))
  }

  /** When the log-in names one account: the answer, and the one session it opens. */
  lemma LoginEffect(setup: Setup, s: State, e: Event, user: UserId)
    requires e.LoggingIn? && NoFailures(e.reply) && e.password != ""
    requires NamedBy(s, user, TrimSpace(e.login), Normalise(e.email))
    requires forall u | NamedBy(s, u, TrimSpace(e.login), Normalise(e.email)) :: u == user
    ensures var o := Handle(setup, s, e);
            var known := Verify(setup.kdf, e.password, s.creds[user].hash) == Match;
            && (o.response.code.BadCreds? <==> !known)
            && (o.response.code.EmailNotVerified? <==> known && !s.creds[user].verified)
            && (o.response.code.OK? <==> known && s.creds[user].verified)
            && (!o.response.code.OK? ==> o.state == s)
            && (o.response.code.OK? ==> o.response == Response(OK, user, e.token) && o.state == s.(sessions := s.sessions[e.token := user]))
  {
    assert forall u :: Matching(s, u, TrimSpace(e.login), Normalise(e.email)) <==> NamedBy(s, u, TrimSpace(e.login), Normalise(e.email));
  }

  /** A log-in that names no account, or too little to name one. */
  lemma LoginRefused(setup: Setup, s: State, e: Event)
    requires e.LoggingIn?
    ensures var o := Handle(setup, s, e);
            var complete := (TrimSpace(e.login) != "" || Normalise(e.email) != "") && e.password != "";
            && (o.response.code.BadRequest? <==> !complete)
            && (complete && (forall u :: !NamedBy(s, u, TrimSpace(e.login), Normalise(e.email))) ==>
                  o.response.code.BadCreds? && o.state == s)
  {
    assert forall u :: Matching(s, u, TrimSpace(e.login), Normalise(e.email)) <==> NamedBy(s, u, TrimSpace(e.login), Normalise(e.email));
  }

  /** Logging out ends the session of the token and no other, exactly when it says so. */
  lemma LogoutEffect(setup: Setup, s: State, e: Event)
    requires e.LoggingOut?
    ensures var o, token := Handle(setup, s, e), TrimSpace(e.token);
            && (o.response.code.NoSession? <==> token == "")
            && (o.response.code.OK? <==> token != "" && e.reply(0).Acked?)
            && (o.response.code.OK? ==> token !in o.state.sessions)
            && (forall t | t != token :: (t in o.state.sessions <==> t in s.sessions) && (t in s.sessions ==> o.state.sessions[t] == s.sessions[t]))
            && o.state.creds == s.creds && o.state.tokens == s.tokens
  {
  }

  /** A log-in and then a log-out with its token leaves the sessions as they were. */
  lemma LogoutUndoesLogin(setup: Setup, s: State, l: Event, o: Event)
    requires l.LoggingIn? && o.LoggingOut? && NoFailures(o.reply) && TrimSpace(o.token) == l.token && l.token != "" && l.token !in s.sessions
    ensures Handle(setup, Handle(setup, s, l).state, o).state == s
  {
    var t := Handle(setup, s, l).state;
    var user := AuthTrace.LoginOpens(setup, s, l);
    LogoutState(setup, t, o);
    assert s.sessions[l.token := user] - {l.token} == s.sessions;
    assert s.sessions - {l.token} == s.sessions;
  }

  lemma LogoutState(setup: Setup, s: State, o: Event)
    requires o.LoggingOut? && NoFailures(o.reply) && TrimSpace(o.token) != ""
    ensures Handle(setup, s, o).state == s.(sessions := s.sessions - {TrimSpace(o.token)})
  {
  }

  // ---------- Verifying ----------

  /** Only the flag is set. */
  function VerifiedRow(c: Credential): Credential {
    Credential(c.login, c.email, c.hash, true)
  }

  /** A live link verifies its account and dies; any other changes nothing. */
  lemma VerifyEffect(setup: Setup, s: State, e: Event)
    requires e.Verifying? && NoFailures(e.reply)
    ensures var o, token := Handle(setup, s, e), TrimSpace(e.token);
            && (o.response.code.BadRequest? <==> token == "")
            && (o.response.code.BadToken? <==> token != "" && token !in s.tokens)
            && (o.response.code.OK? <==> token != "" && token in s.tokens)
            && (!o.response.code.OK? ==> o.state == s)
            && (o.response.code.OK? ==>
                  var user := s.tokens[token];
                  && o.state.tokens == s.tokens - {token} && o.state.sessions == s.sessions
                  && o.state.creds == if user in s.creds then s.creds[user := VerifiedRow(s.creds[user])] else s.creds)
  {
  }

  /** Whatever fails: an OK means that what was asked for is there. */
  lemma OkMeans(setup: Setup, s: State, e: Event)
    requires Handle(setup, s, e).response.code.OK?
    ensures var o := Handle(setup, s, e);
            && (e.Registering? ==> o.response.user == e.user && e.user in o.state.creds && !o.state.creds[e.user].verified)
            && (e.LoggingIn? ==> e.token in o.state.sessions && o.state.sessions[e.token] == o.response.user && o.response.token == e.token)
            && (e.Verifying? ==>
                  && TrimSpace(e.token) in s.tokens
                  && (s.tokens[TrimSpace(e.token)] in s.creds ==> o.state.creds[s.tokens[TrimSpace(e.token)]].verified))
  {
  }

  /** The account under the address, if there is one. */
  predicate Under(s: State, email: string, user: UserId) {
    user in s.creds && s.creds[user].email == email
  }

  /** A resend mints a token for the unverified account under the address, and otherwise does nothing; the answer does not tell. */
  lemma ResendEffect(setup: Setup, s: State, e: Event)
    requires e.Resending? && NoFailures(e.reply) && Unique(s.creds) && Normalise(e.email) != ""
    ensures var o, email := Handle(setup, s, e), Normalise(e.email);
            && o.response.code.OK?
            && (forall user | Under(s, email, user) && !s.creds[user].verified ::
                  o.state == s.(tokens := s.tokens[e.token := user], minted := s.minted + {Grant(e.token, user)}))
            && ((forall user | Under(s, email, user) :: s.creds[user].verified) ==> o.state == s)
  {
    var email := Normalise(e.email);
    var found := Find(s, "", email, e.pick);
    forall user | Under(s, email, user)
      ensures found == Some(user)
    {
      assert Matching(s, user, "", email);
      assert Share(s.creds, found.value, user);
    }
  }

  /** The link a resend mints verifies the account. */
  lemma ResendThenVerify(setup: Setup, s: State, e: Event, user: UserId, v: Event)
    requires e.Resending? && NoFailures(e.reply) && Unique(s.creds) && Normalise(e.email) != ""
    requires Under(s, Normalise(e.email), user) && !s.creds[user].verified
    requires v.Verifying? && NoFailures(v.reply) && TrimSpace(v.token) == e.token != ""
    ensures var o := Handle(setup, Handle(setup, s, e).state, v);
            && o.response.code.OK? && o.state.creds == s.creds[user := VerifiedRow(s.creds[user])]
            && e.token !in o.state.tokens
  {
    ResendEffect(setup, s, e);
    VerifyEffect(setup, Handle(setup, s, e).state, v);
  }
}
