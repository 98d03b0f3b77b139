/** Who may do what, over whole runs: challenges, logins, tokens and the origin of messages. */
module Accounts {
  import opened Sequences
  import opened Protocol
  import opened Store
  import opened Handlers
  import opened Machine
  import Fetching

  /** The challenge the next login of `uid` is compared with, read off the log. */
  function Expected(log: seq<Event>, uid: int): string {
    if log == [] then ""
    else
      var e := log[|log| - 1];
      if e.Issued? && e.uid == uid then e.challenge
      else if (e.Compared? && e.uid == uid) || e.Restarted? then ""
      else Expected(log[..|log| - 1], uid)
  }

  /** Entry `i` minted `token` for `uid` by a login that matched, and the process still runs. */
  ghost predicate MintedAt(log: seq<Event>, i: int, token: string, uid: int) {
    && 0 <= i < |log| && log[i].Compared? && log[i].matched && log[i].token == token && log[i].uid == uid
    && forall k :: i < k < |log| ==> !log[k].Restarted?
  }

  ghost predicate Minted(log: seq<Event>, token: string, uid: int) {
    exists i :: MintedAt(log, i, token, uid)
  }

  ghost predicate MayOwn(s: Sys, log: seq<Event>, uid: int) {
    FindUser(s.db.users, uid).Some? && exists token :: Minted(log, token, uid)
  }

  /** Entry `k` stored `row`, and by then its sender, unless user 0, held a token of this process. */
  ghost predicate StoredAt(s: Sys, log: seq<Event>, k: int, row: Message) {
    && 0 <= k < |log| && log[k].Stored? && log[k].row == row
    && (row.raw.from == 0 || MayOwn(s, log[..k], row.raw.from))
  }

  ghost predicate RowOk(s: Sys, log: seq<Event>, row: Message) {
    FindUser(s.db.users, row.raw.to).Some? && exists k :: StoredAt(s, log, k, row)
  }

  ghost predicate LoginOk(sha: string -> string, s: Sys, log: seq<Event>, i: int)
    requires 0 <= i < |log| && log[i].Compared?
  {
    var u := FindUser(s.db.users, log[i].uid);
    && u.Some?
    && log[i].challenge == Expected(log[..i], log[i].uid)
    && (log[i].matched <==> sha(u.value.password + log[i].challenge) == log[i].hash)
  }

  ghost predicate Inv(sha: string -> string, s: Sys, log: seq<Event>) {
    && (forall t :: t in s.tokens ==> FindUser(s.db.users, s.tokens[t]).Some? && Minted(log, t, s.tokens[t]))
    && (forall uid :: ChallengeOf(s.challenges, uid) == Expected(log, uid))
    && (forall i :: 0 <= i < |s.db.messages| ==> RowOk(s, log, s.db.messages[i]))
    && (forall i :: 0 <= i < |log| && log[i].Compared? ==> LoginOk(sha, s, log, i))
  }

  /** Users never disappear or change. */
  lemma UsersPersist(s: Sys, e: Event, uid: int)
    requires FindUser(s.db.users, uid).Some?
    ensures FindUser(Apply(s, e).db.users, uid) == FindUser(s.db.users, uid)
  {
    if e.Registered? {
      FindAppend(s.db.users, [e.user], WithId(uid));
    }
  }

  lemma MintedPersists(log: seq<Event>, e: Event, token: string, uid: int)
    requires Minted(log, token, uid) && !e.Restarted?
    ensures Minted(log + [e], token, uid)
  {
    var i :| MintedAt(log, i, token, uid);
    assert MintedAt(log + [e], i, token, uid);
  }

  lemma StoredPersists(s: Sys, log: seq<Event>, e: Event, k: int, row: Message)
    requires StoredAt(s, log, k, row)
    ensures StoredAt(Apply(s, e), log + [e], k, row)
  {
    assert (log + [e])[..k] == log[..k] && (log + [e])[k] == log[k];
    if row.raw.from != 0 {
      UsersPersist(s, e, row.raw.from);
    }
  }

  lemma TokensKept(sha: string -> string, s: Sys, log: seq<Event>, e: Event, t: string)
    requires Inv(sha, s, log) && Legal(sha, s, e) && t in Apply(s, e).tokens
    ensures var s' := Apply(s, e); FindUser(s'.db.users, s'.tokens[t]).Some? && Minted(log + [e], t, s'.tokens[t])
  {
    if e.Compared? && e.matched && t == e.token {
      UsersPersist(s, e, e.uid);
      assert MintedAt(log + [e], |log|, t, e.uid);
    } else {
      UsersPersist(s, e, s.tokens[t]);
      MintedPersists(log, e, t, s.tokens[t]);
    }
  }

  lemma RowsKept(sha: string -> string, s: Sys, log: seq<Event>, e: Event, row: Message)
    requires Inv(sha, s, log) && Legal(sha, s, e) && row in Apply(s, e).db.messages
    ensures RowOk(Apply(s, e), log + [e], row)
  {
    if row in s.db.messages {
      assert RowOk(s, log, row);
      var k :| StoredAt(s, log, k, row);
      StoredPersists(s, log, e, k, row);
    } else {
      assert e.Stored? && e.row == row;
      assert row.raw.from == 0 || MayOwn(s, log, row.raw.from) by {
        var t :| row.raw.from == 0 || (t in s.tokens && s.tokens[t] == row.raw.from);
      }
      assert (log + [e])[..|log|] == log;
      assert StoredAt(Apply(s, e), log + [e], |log|, row);
    }
    UsersPersist(s, e, row.raw.to);
  }

  lemma ExpectedSnoc(log: seq<Event>, e: Event, uid: int)
    ensures Expected(log + [e], uid)
         == if e.Issued? && e.uid == uid then e.challenge
            else if (e.Compared? && e.uid == uid) || e.Restarted? then ""
            else Expected(log, uid)
  {
    assert (log + [e])[..|log|] == log;
  }

  lemma LoginsKept(sha: string -> string, s: Sys, log: seq<Event>, e: Event, i: int)
    requires Inv(sha, s, log) && Legal(sha, s, e)
    requires 0 <= i <= |log| && (log + [e])[i].Compared?
    ensures LoginOk(sha, Apply(s, e), log + [e], i)
  {
    if i < |log| {
      assert LoginOk(sha, s, log, i);
      assert (log + [e])[..i] == log[..i] && (log + [e])[i] == log[i];
      UsersPersist(s, e, log[i].uid);
    } else {
      assert (log + [e])[..i] == log;
      UsersPersist(s, e, e.uid);
    }
  }

  lemma ApplyKeeps(sha: string -> string, s: Sys, log: seq<Event>, e: Event)
    requires Inv(sha, s, log) && Legal(sha, s, e)
    ensures Inv(sha, Apply(s, e), log + [e])
  {
    var s', log' := Apply(s, e), log + [e];
    forall t | t in s'.tokens ensures FindUser(s'.db.users, s'.tokens[t]).Some? && Minted(log', t, s'.tokens[t]) {
      TokensKept(sha, s, log, e, t);
    }
    forall uid ensures ChallengeOf(s'.challenges, uid) == Expected(log', uid) {
      ExpectedSnoc(log, e, uid);
    }
    forall i | 0 <= i < |s'.db.messages| ensures RowOk(s', log', s'.db.messages[i]) {
      RowsKept(sha, s, log, e, s'.db.messages[i]);
    }
    forall i | 0 <= i < |log'| && log'[i].Compared? ensures LoginOk(sha, s', log', i) {
      LoginsKept(sha, s, log, e, i);
    }
  }

  lemma {:induction false} RunKeeps(sha: string -> string, steps: seq<Step>)
    ensures var m := Run(sha, INIT, steps); DbOk(m.sys.db) && Inv(sha, m.sys, m.log)
  {
    RunsReplay(sha, steps);
    if steps != [] {
      var before, step := steps[..|steps| - 1], steps[|steps| - 1];
      var m := Run(sha, INIT, before);
      RunKeeps(sha, before);
      StepIsEvent(sha, m, step);
      ApplyKeeps(sha, m.sys, m.log, Last(Next(sha, m, step)));
    }
  }

  lemma Reached(sha: string -> string, m: State)
    requires Reachable(sha, m)
    ensures DbOk(m.sys.db) && Inv(sha, m.sys, m.log)
  {
    var steps :| m == Run(sha, INIT, steps);
    RunKeeps(sha, steps);
  }

  /**
   Origin of messages: in every reachable state, the receiver of every stored row is
   registered, and its sender is user 0 or a registered user for whom a matching login had
   minted a token before the row was stored, with no restart between the two.
   */
  lemma MessagesHaveOrigin(sha: string -> string, m: State, row: Message)
    requires Reachable(sha, m) && row in m.sys.db.messages
    ensures RowOk(m.sys, m.log, row)
  {
    Reached(sha, m);
  }

  ghost predicate Undisturbed(log: seq<Event>, j: int, i: int, uid: int)
    requires 0 <= j && i <= |log|
  {
    forall k :: j < k < i ==> !log[k].Restarted? && !((log[k].Issued? || log[k].Compared?) && log[k].uid == uid)
  }

  lemma {:induction false} ExpectedSource(log: seq<Event>, uid: int) returns (j: nat)
    requires Expected(log, uid) != ""
    ensures j < |log| && log[j] == Issued(uid, Expected(log, uid)) && Undisturbed(log, j, |log|, uid)
  {
    var init, e := log[..|log| - 1], log[|log| - 1];
    if e.Issued? && e.uid == uid {
      j := |log| - 1;
    } else {
      j := ExpectedSource(init, uid);
      assert log[j] == init[j];
      forall k | j < k < |log|
        ensures !log[k].Restarted? && !((log[k].Issued? || log[k].Compared?) && log[k].uid == uid)
      {
        assert k < |init| ==> init[k] == log[k];
      }
    }
  }

  /**
   Challenge lifecycle: a login attempt is compared with the challenge last issued to that
   user and not yet used, or with the empty string if there is none, and it mints a token
   exactly when the hash matches.
   */
  lemma ChallengesServeOnce(sha: string -> string, m: State, i: int) returns (j: int)
    requires Reachable(sha, m) && 0 <= i < |m.log| && m.log[i].Compared?
    ensures var e, u := m.log[i], FindUser(m.sys.db.users, m.log[i].uid);
            && u.Some? && (e.matched <==> sha(u.value.password + e.challenge) == e.hash)
            && e.challenge == Expected(m.log[..i], e.uid)
            && (e.challenge != "" ==>
                  0 <= j < i && m.log[j] == Issued(e.uid, e.challenge) && Undisturbed(m.log, j, i, e.uid))
  {
    Reached(sha, m);
    assert LoginOk(sha, m.sys, m.log, i);
    j := -1;
    if m.log[i].challenge != "" {
      j := ExpectedSource(m.log[..i], m.log[i].uid);
      assert Undisturbed(m.log, j, i, m.log[i].uid) by {
        forall k | j < k < i ensures m.log[k] == m.log[..i][k] {
        }
      }
    }
  }

  /**
   One issuance serves one attempt: two attempts of a user that met a pending challenge lie
   each right after an issuance of its own. The strings may be equal nevertheless, when both
   were drawn within one second (`Crypto.ChallengesEqualIff`).
   */
  lemma IssuancesServeOneAttempt(sha: string -> string, m: State, a: int, b: int) returns (j: int, k: int)
    requires Reachable(sha, m) && 0 <= a < b < |m.log| && m.log[a].Compared? && m.log[b].Compared?
    requires m.log[a].uid == m.log[b].uid && m.log[a].challenge != "" && m.log[b].challenge != ""
    ensures 0 <= j < a < k < b
    ensures m.log[j] == Issued(m.log[a].uid, m.log[a].challenge) && m.log[k] == Issued(m.log[b].uid, m.log[b].challenge)
  {
    j := ChallengesServeOnce(sha, m, a);
    k := ChallengesServeOnce(sha, m, b);
    assert !(k < a < b);
  }

  /** A login succeeds exactly for a registered name and the hash made from the expected challenge. */
  lemma LoginDecision(sha: string -> string, m: State, username: string, hash: string, env: Env)
    requires Reachable(sha, m)
    ensures var o, u := Login(sha, m.sys, username, hash, env), FindName(m.sys.db.users, username);
            && o.reply.LoginResponse?
            && (o.reply.logined <==> u.Some? && hash == sha(u.value.password + Expected(m.log, u.value.id)))
            && (o.reply.logined ==>
                  UserOf(o.sys.tokens, o.reply.token) == if o.reply.token == "" then 0 else o.reply.id)
            && (!o.reply.logined ==> o.sys.tokens == m.sys.tokens && o.reply.id == -1)
  {
    Reached(sha, m);
  }

  lemma NamesPersist(sha: string -> string, m: State, m': State, username: string)
    requires DbOk(m.sys.db) && Leads(sha, m, m') && FindName(m.sys.db.users, username).Some?
    ensures FindName(m'.sys.db.users, username) == FindName(m.sys.db.users, username)
  {
    Fetching.TablesOnlyGrow(sha, m, m');
    var more := m'.sys.db.users[|m.sys.db.users|..];
    assert m'.sys.db.users == m.sys.db.users + more;
    FindAppend(m.sys.db.users, more, Named(username));
  }

  lemma RegistrationNames(sha: string -> string, m: State, username: string, password: string, fd: int, env: Env)
    requires DbOk(m.sys.db) && Register(sha, m.sys, username, password, env).reply == RegisterResponse(true)
    ensures var db := Next(sha, m, Arrive(RegisterRequest(username, password), fd, env)).sys.db;
            DbOk(db) && FindName(db.users, username) == Some(User(db.lastUser, username, sha(password)))
  {
    CreateUserKeeps(m.sys.db, username, sha(password), env.rowOk);
  }

  /**
   Registration lasts: once a registration was answered with success, the name logs in at
   every later time, exactly with the hash made from that password and the challenge then
   expected, and can never be registered again.
   */
  lemma RegistrationLasts(sha: string -> string, m: State, username: string, password: string, fd: int, env: Env,
                          m': State, hash: string, other: string, later: Env)
    requires Reachable(sha, m) && Register(sha, m.sys, username, password, env).reply == RegisterResponse(true)
    requires Leads(sha, Next(sha, m, Arrive(RegisterRequest(username, password), fd, env)), m')
    ensures var u := FindName(m'.sys.db.users, username);
            && u.Some? && u.value.password == sha(password)
            && Login(sha, m'.sys, username, hash, later).reply.LoginResponse?
            && (Login(sha, m'.sys, username, hash, later).reply.logined <==>
                  hash == sha(sha(password) + Expected(m'.log, u.value.id)))
            && Register(sha, m'.sys, username, other, later).reply == RegisterResponse(false)
  {
    var register := Arrive(RegisterRequest(username, password), fd, env);
    ReachableReplays(sha, m);
    RegistrationNames(sha, m, username, password, fd, env);
    NamesPersist(sha, Next(sha, m, register), m', username);
    ReachableOn(sha, m, register, m');
    LoginDecision(sha, m', username, hash, later);
  }

  predicate Mints(step: Step, token: string) {
    step.Arrive? && step.env.uuid == token
  }

  lemma HandlersMintOnly(sha: string -> string, s: Sys, request: Request, fd: int, env: Env, token: string)
    requires token in s.tokens && env.uuid != token
    ensures var s' := Handle(sha, s, request, fd, env).sys; token in s'.tokens && s'.tokens[token] == s.tokens[token]
  {
  }

  lemma StepKeepsOwner(sha: string -> string, m: State, step: Step, token: string)
    requires token in m.sys.tokens && !step.Restart? && !Mints(step, token)
    ensures var s := Next(sha, m, step).sys; token in s.tokens && s.tokens[token] == m.sys.tokens[token]
  {
    match step
    case Arrive(request, fd, env) => HandlersMintOnly(sha, m.sys, request, fd, env, token);
    case Call(t, users) =>
      if CanCall(m, t, users) { CallbacksKeepTables(m.sys, m.flights[t].callback, users); }
    case _ =>
  }

  /** Tokens keep their owner for the life of the process, as long as they are not drawn again. */
  lemma {:induction false} TokenOwnersStable(sha: string -> string, m: State, steps: seq<Step>, token: string)
    requires token in m.sys.tokens
    requires forall i :: 0 <= i < |steps| ==> !steps[i].Restart? && !Mints(steps[i], token)
    ensures var s := Run(sha, m, steps).sys; token in s.tokens && s.tokens[token] == m.sys.tokens[token]
  {
    if steps != [] {
      TokenOwnersStable(sha, m, steps[..|steps| - 1], token);
      StepKeepsOwner(sha, Run(sha, m, steps[..|steps| - 1]), steps[|steps| - 1], token);
    }
  }
}
