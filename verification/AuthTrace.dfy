/** Where the sessions of a run come from: the log-ins and registrations that earned them. */
module AuthTrace {
  import opened Basics
  import opened Base64
  import opened Password
  import opened AuthServer

  /** The registration wrote this row; only the verified flag may have changed since. */
  ghost predicate Wrote(setup: Setup, r: Event, user: UserId, row: Credential) {
    && r.Registering? && r.user == user
    && row.login == TrimSpace(r.login) && row.email == Normalise(r.email)
    && row.hash == Hash(setup.kdf, setup.params, r.password, r.salt)
  }

  ghost predicate Recorded(setup: Setup, past: seq<Event>, user: UserId, row: Credential) {
    exists i :: 0 <= i < |past| && Wrote(setup, past[i], user, row)
  }

  predicate Names(r: Event, l: Event)
    requires r.Registering? && l.LoggingIn?
  {
    || (TrimSpace(l.login) != "" && TrimSpace(l.login) == TrimSpace(r.login))
    || (Normalise(l.email) != "" && Normalise(l.email) == Normalise(r.email))
  }

  /** The log-in named the registered account and its password derives the registered key. */
  predicate Opens(setup: Setup, r: Event, l: Event, token: Token, user: UserId) {
    && r.Registering? && l.LoggingIn? && r.user == user && l.token == token && Names(r, l)
    && Derive(setup.kdf, l.password, r.salt, setup.params.costs, setup.params.keyLength)
       == Derive(setup.kdf, r.password, r.salt, setup.params.costs, setup.params.keyLength)
  }

  ghost predicate Earned(setup: Setup, past: seq<Event>, token: Token, user: UserId) {
    exists i, j :: 0 <= i < j < |past| && Opens(setup, past[i], past[j], token, user)
  }

  ghost predicate Traced(setup: Setup, past: seq<Event>, s: State) {
    && (forall u | u in s.creds :: Recorded(setup, past, u, s.creds[u]))
    && (forall t | t in s.sessions :: Earned(setup, past, t, s.sessions[t]))
  }

  lemma TracedLater(setup: Setup, past: seq<Event>, e: Event, s: State)
    requires Traced(setup, past, s)
    ensures Traced(setup, past + [e], s)
  {
    var more := past + [e];
    forall u | u in s.creds
      ensures Recorded(setup, more, u, s.creds[u])
    {
      var i :| 0 <= i < |past| && Wrote(setup, past[i], u, s.creds[u]);
      assert more[i] == past[i];
    }
    forall t | t in s.sessions
      ensures Earned(setup, more, t, s.sessions[t])
    {
      var i, j :| 0 <= i < j < |past| && Opens(setup, past[i], past[j], t, s.sessions[t]);
      assert more[i] == past[i] && more[j] == past[j];
    }
  }

  lemma SessionEarned(setup: Setup, past: seq<Event>, l: Event, user: UserId, row: Credential)
    requires KeyLengths(setup.kdf) && Fits(setup.params.costs)
    requires l.LoggingIn? && Recorded(setup, past, user, row)
    requires || (TrimSpace(l.login) != "" && row.login == TrimSpace(l.login))
             || (Normalise(l.email) != "" && row.email == Normalise(l.email))
    ensures Verify(setup.kdf, l.password, row.hash) == Match ==> Earned(setup, past + [l], l.token, user)
  {
    var i :| 0 <= i < |past| && Wrote(setup, past[i], user, row);
    VerifyHash(setup.kdf, setup.params, past[i].password, l.password, past[i].salt);
    if Verify(setup.kdf, l.password, row.hash) == Match {
      var more := past + [l];
      assert more[i] == past[i] && more[|past|] == l;
      assert Opens(setup, more[i], more[|past|], l.token, user);
    }
  }

  /** A log-in opens at most one session, for a row that it matched and whose password it knew. */
  lemma LoginOpens(setup: Setup, s: State, l: Event) returns (user: UserId)
    requires l.LoggingIn?
    ensures var t := Handle(setup, s, l).state;
            t != s ==>
            && t == s.(sessions := s.sessions[l.token := user])
            && Matching(s, user, TrimSpace(l.login), Normalise(l.email))
            && Verify(setup.kdf, l.password, s.creds[user].hash) == Match
  {
    var found := Find(s, TrimSpace(l.login), Normalise(l.email), l.pick);
    user := if found.Some? then found.value else "";
  }

  lemma LoginTraced(setup: Setup, past: seq<Event>, s: State, l: Event)
    requires KeyLengths(setup.kdf) && Fits(setup.params.costs) && Traced(setup, past, s) && l.LoggingIn?
    ensures Traced(setup, past + [l], Handle(setup, s, l).state)
  {
    TracedLater(setup, past, l, s);
    var user := LoginOpens(setup, s, l);
    if Handle(setup, s, l).state != s {
      SessionEarned(setup, past, l, user, s.creds[user]);
    }
  }

  lemma RegisterWrites(setup: Setup, s: State, login: string, email: string, password: string, salt: seq<Byte>,
                       user: UserId, token: Token, reply: nat -> Reply)
    ensures var t := Register(setup, s, login, email, password, salt, user, token, reply).state;
            && t.sessions == s.sessions
            && (t.creds == s.creds ||
                t.creds == s.creds[user := Credential(login, email, Hash(setup.kdf, setup.params, password, salt), false)])
  {
  }

  lemma OthersWrite(setup: Setup, s: State, e: Event)
    requires !e.LoggingIn? && !e.Registering?
    ensures var t := Handle(setup, s, e).state; t.sessions.Items <= s.sessions.Items && AccountsChanged(s, t)
  {
  }

  /** Only the verified flag of a row that is there may have changed. */
  ghost predicate AccountsChanged(s: State, t: State) {
    forall u | u in t.creds :: u in s.creds && SameRow(s.creds[u], t.creds[u])
  }

  /** The other RPCs open no session; a row is new only when it is the one being registered. */
  lemma RowsWritten(setup: Setup, s: State, e: Event, user: UserId)
    requires !e.LoggingIn?
    ensures var t := Handle(setup, s, e).state;
            && t.sessions.Items <= s.sessions.Items
            && (user in t.creds ==> (user in s.creds && SameRow(s.creds[user], t.creds[user])) || Wrote(setup, e, user, t.creds[user]))
  {
    if e.Registering? {
      RegisterWrites(setup, s, TrimSpace(e.login), Normalise(e.email), e.password, e.salt, e.user, e.token, e.reply);
    } else {
      OthersWrite(setup, s, e);
    }
  }

  lemma StepTraced(setup: Setup, past: seq<Event>, s: State, e: Event)
    requires KeyLengths(setup.kdf) && Fits(setup.params.costs) && Traced(setup, past, s)
    ensures Traced(setup, past + [e], Handle(setup, s, e).state)
  {
    if e.LoggingIn? {
      LoginTraced(setup, past, s, e);
    } else {
      TracedLater(setup, past, e, s);
      var t, more := Handle(setup, s, e).state, past + [e];
      forall k | k in t.sessions
        ensures Earned(setup, more, k, t.sessions[k])
      {
        RowsWritten(setup, s, e, "");
        assert (k, t.sessions[k]) in t.sessions.Items;
      }
      forall u | u in t.creds
        ensures Recorded(setup, more, u, t.creds[u])
      {
        RowsWritten(setup, s, e, u);
        RowRecorded(setup, past, s, e, u, t.creds[u]);
      }
    }
  }

  lemma RowRecorded(setup: Setup, past: seq<Event>, s: State, e: Event, user: UserId, row: Credential)
    requires Traced(setup, past, s)
    requires (user in s.creds && SameRow(s.creds[user], row)) || Wrote(setup, e, user, row)
    ensures Recorded(setup, past + [e], user, row)
  {
    var more := past + [e];
    if Wrote(setup, e, user, row) {
      assert more[|past|] == e;
    } else {
      var i :| 0 <= i < |past| && Wrote(setup, past[i], user, s.creds[user]);
      assert more[i] == past[i] && Wrote(setup, more[i], user, row);
    }
  }

  lemma {:induction false} TracedFrom(setup: Setup, past: seq<Event>, s: State, events: seq<Event>)
    requires KeyLengths(setup.kdf) && Fits(setup.params.costs) && Traced(setup, past, s)
    ensures Traced(setup, past + events, Run(setup, s, events))
    decreases events
  {
    if events == [] {
      assert past + events == past;
    } else {
      StepTraced(setup, past, s, events[0]);
      TracedFrom(setup, past + [events[0]], Handle(setup, s, events[0]).state, events[1..]);
      assert past + [events[0]] + events[1..] == past + events;
    }
  }

  /**
   Over every run, with any calls failing: a live session was opened by a log-in that came
   after the registration of its user, named that account, and knew a password with the
   registered key.
   */
  lemma SessionsEarned(setup: Setup, events: seq<Event>)
    requires KeyLengths(setup.kdf) && Fits(setup.params.costs)
    ensures var s := Run(setup, EMPTY, events);
            forall t | t in s.sessions :: Earned(setup, events, t, s.sessions[t])
  {
    TracedFrom(setup, [], EMPTY, events);
    assert [] + events == events;
  }
}
