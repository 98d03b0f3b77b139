/**
 What a client can fetch, over whole runs: sent messages stay fetchable under their number,
 the advertised contact list is an exact index of them, and no row appears unaccounted for.
 */
module Fetching {
  import opened Sequences
  import opened Protocol
  import opened Store
  import opened Handlers
  import opened Machine

  lemma {:induction false} ConversationGrows(a: seq<Message>, b: seq<Message>, from: int, to: int)
    requires a <= b
    ensures Conversation(a, from, to) <= Conversation(b, from, to)
  {
    if |a| < |b| {
      var init, last := b[..|b| - 1], b[|b| - 1];
      ConversationGrows(a, init, from, to);
      ConversationSnoc(init, last, from, to);
      assert b == init + [last];
    } else {
      assert a == b;
    }
  }

  /** Rows, users and file ids are only ever added. */
  lemma {:induction false} TablesGrow(sha: string -> string, m: State, steps: seq<Step>)
    requires DbOk(m.sys.db)
    ensures var db := Run(sha, m, steps).sys.db;
            DbOk(db) && m.sys.db.messages <= db.messages && m.sys.db.users <= db.users
            && m.sys.db.files.Keys <= db.files.Keys
  {
    if steps != [] {
      var init, step := steps[..|steps| - 1], steps[|steps| - 1];
      TablesGrow(sha, m, init);
      var before := Run(sha, m, init);
      StepIsEvent(sha, before, step);
      ApplyKeepsDb(sha, before.sys, Last(Next(sha, before, step)));
    }
  }

  lemma TablesOnlyGrow(sha: string -> string, m: State, m': State)
    requires DbOk(m.sys.db) && Leads(sha, m, m')
    ensures DbOk(m'.sys.db) && m.sys.db.messages <= m'.sys.db.messages && m.sys.db.users <= m'.sys.db.users
            && m.sys.db.files.Keys <= m'.sys.db.files.Keys
  {
    var steps :| m' == Run(sha, m, steps);
    TablesGrow(sha, m, steps);
  }

  /** A stored message is found under its number at every later time. */
  lemma RowsStayFetchable(sha: string -> string, m: State, row: Message, m': State)
    requires Reachable(sha, m) && row in m.sys.db.messages && Leads(sha, m, m')
    ensures GetMessage(m'.sys.db.messages, row.raw.from, row.raw.to, row.internalId) == Some(row)
  {
    ReachableReplays(sha, m);
    TablesOnlyGrow(sha, m, m');
    assert row in m'.sys.db.messages;
    FoundUnderNumber(m'.sys.db.messages, row);
  }

  /**
   Send and fetch round trip: a message whose send was answered with success is what its
   sender fetches under the answered number at every later time; for a file message the two
   agree in everything but the content, which the answer alone replaces by the file id. So
   the two are equal exactly if the kind is no file kind or the content was that id already.
   */
  lemma SentMessagesAreFetched(sha: string -> string, m: State, token: string, raw: RawMessage, fd: int, env: Env,
                               m': State, later: string)
    requires Reachable(sha, m) && SendMessage(m.sys, token, raw, env).reply.message != NO_MESSAGE
    requires Leads(sha, Next(sha, m, Arrive(SendMessageRequest(token, raw), fd, env)), m')
    requires UserOf(m'.sys.tokens, later) == raw.from
    ensures var answer := SendMessage(m.sys, token, raw, env).reply.message;
            var fetched := ContactMessage(m'.sys, later, raw.to, answer.internalId).reply.message;
            && fetched.raw == raw
            && (if raw.kind == 1 || raw.kind == 2
                then answer == fetched.(raw := raw.(content := env.uuid)) && env.uuid in m'.sys.db.files
                else answer == fetched)
            && (answer == fetched <==> (raw.kind != 1 && raw.kind != 2) || raw.content == env.uuid)
            && fetched.timestamp == env.now
  {
    var send := Arrive(SendMessageRequest(token, raw), fd, env);
    var m1 := Next(sha, m, send);
    ReachableOn(sha, m, send, m');
    var row := CreateMsgByRawMsg(m.sys.db, raw, env.now, env.rowOk).1.value;
    assert m1.sys.db.messages == m.sys.db.messages + [row];
    assert row in m1.sys.db.messages;
    RowsStayFetchable(sha, m1, row, m');
    ReachableReplays(sha, m1);
    TablesOnlyGrow(sha, m1, m');
  }

  /** A message count taken once is the index of a conversation in every later table. */
  lemma CountIsIndex(db: Db, later: Sys, token: string, contact: int, k: int)
    requires DbOk(later.db) && db.messages <= later.db.messages
    ensures var c := Conversation(db.messages, UserOf(later.tokens, token), contact);
            var fetched := ContactMessage(later, token, contact, k).reply.message;
            && (1 <= k <= |c| ==> fetched == c[k - 1] && fetched != NO_MESSAGE)
            && (db.messages == later.db.messages ==> (fetched != NO_MESSAGE <==> 1 <= k <= |c|))
  {
    var uid := UserOf(later.tokens, token);
    ConversationGrows(db.messages, later.db.messages, uid, contact);
    GetMessageExact(later.db.messages, uid, contact, k);
    assert forall x :: x in later.db.messages ==> x.id >= 1;
  }

  /**
   The contact list as a catch-up index: the list that a setup callback for `uid` logs has
   one entry for each user, and for contact i with count n, `uid` fetches numbers 1..n then
   and at every later time, and then fetches no other number.
   */
  lemma ContactListIsIndex(sha: string -> string, m: State, t: nat, users: seq<User>, uid: int, fd: int,
                           i: nat, k: int, m': State, token: string)
    requires Reachable(sha, m) && CanCall(m, t, users) && i < |users|
    requires m.flights[t].callback == SetupCallback(uid, fd)
    requires Leads(sha, Next(sha, m, Call(t, users)), m') && UserOf(m'.sys.tokens, token) == uid
    ensures var m1 := Next(sha, m, Call(t, users));
            && m1.log != [] && Last(m1).ChannelSet? && Last(m1).uid == uid && Last(m1).fd == fd
            && Last(m1).list.ContactListRequest?
            && (var list := Last(m1).list;
                && |list.contacts| == |list.internalIds| == |m.sys.db.users|
                && list.contacts[i].id == users[i].id && list.contacts[i].name == users[i].username
                && (var fetched := ContactMessage(m'.sys, token, list.contacts[i].id, k).reply.message;
                    && (1 <= k <= list.internalIds[i] ==>
                          fetched == Conversation(m.sys.db.messages, uid, users[i].id)[k - 1] && fetched != NO_MESSAGE)
                    && (m' == m1 ==> (fetched != NO_MESSAGE <==> 1 <= k <= list.internalIds[i]))))
  {
    var m1, list := Next(sha, m, Call(t, users)), ContactList(users, m.sys.db.messages, uid);
    ReachableReplays(sha, m);
    assert Last(m1) == ChannelSet(uid, fd, list) && m1.sys.db == m.sys.db;
    assert |multiset(users)| == |multiset(m.sys.db.users)|;
    TablesOnlyGrow(sha, m1, m');
    CountIsIndex(m.sys.db, m'.sys, token, users[i].id, k);
  }

  // ----- conservation

  predicate IsAcceptedSend(f: Flight) {
    f.reply.SendMessageResponse? && f.reply.message != NO_MESSAGE
  }

  /** How many of the first `n` requests were answered as a successful send. */
  function AcceptedSends(flights: map<nat, Flight>, n: nat): nat {
    if n == 0 then 0
    else AcceptedSends(flights, n - 1) + if n - 1 in flights && IsAcceptedSend(flights[n - 1]) then 1 else 0
  }

  /** Rows of file messages whose file could not be registered: stored, but answered with failure. */
  function Orphans(log: seq<Event>): nat {
    if log == [] then 0
    else
      var e := log[|log| - 1];
      Orphans(log[..|log| - 1]) + if e.Stored? && IsFileKind(e.row.raw.kind) && e.fileId.None? then 1 else 0
  }

  lemma {:induction false} AcceptedSendsSame(a: map<nat, Flight>, b: map<nat, Flight>, n: nat)
    requires forall t :: t < n ==> (t in a <==> t in b) && (t in a ==> a[t].reply == b[t].reply)
    ensures AcceptedSends(a, n) == AcceptedSends(b, n)
  {
    if n > 0 {
      AcceptedSendsSame(a, b, n - 1);
    }
  }

  /** Each row is one accepted send or one orphan, and the rows carry ids 1, 2, 3, ... */
  ghost predicate Accounted(m: State) {
    && (forall t :: t in m.flights ==> t < m.next)
    && |m.sys.db.messages| == AcceptedSends(m.flights, m.next) + Orphans(m.log)
    && m.sys.db.lastMessage == |m.sys.db.messages|
    && (forall i :: 0 <= i < |m.sys.db.messages| ==> m.sys.db.messages[i].id == i + 1)
  }

  /**
   A send that is answered with failure stores its row nevertheless exactly if it passes all
   checks, the insert works, and the file of a file message cannot be registered.
   */
  lemma FailedSendStoresIff(s: Sys, token: string, raw: RawMessage, env: Env)
    ensures var o := SendMessage(s, token, raw, env);
            o.reply.message == NO_MESSAGE && o.sys.db.messages != s.db.messages <==>
              && UserOf(s.tokens, token) == raw.from && FindUser(s.db.users, raw.to).Some? && env.rowOk
              && (raw.kind == 1 || raw.kind == 2) && (!env.fileOk || env.uuid in s.db.files)
    ensures var o := SendMessage(s, token, raw, env);
            o.reply.message != NO_MESSAGE ==> o.sys.db.messages != s.db.messages
  {
    var (db, created) := CreateMsgByRawMsg(s.db, raw, env.now, env.rowOk);
    if created.Some? {
      assert |db.messages| == |s.db.messages| + 1;
      assert AnswerSend(s.(db := db), created.value, env).sys.db.messages == db.messages;
    }
  }

  lemma ArrivalStores(sha: string -> string, s: Sys, request: Request, fd: int, env: Env)
    requires DbOk(s.db)
    ensures var o := Handle(sha, s, request, fd, env);
            && (o.event.Stored? ==> request.SendMessageRequest?)
            && (IsAcceptedSend(Flight(request, o.reply, o.callback, Begin(o.reply)))
                <==> o.event.Stored? && !(IsFileKind(o.event.row.raw.kind) && o.event.fileId.None?))
  {
  }

  lemma ArrivalRows(sha: string -> string, s: Sys, request: Request, fd: int, env: Env)
    requires DbOk(s.db)
    ensures var o := Handle(sha, s, request, fd, env);
            && o.sys.db.messages == (if o.event.Stored? then s.db.messages + [o.event.row] else s.db.messages)
            && o.sys.db.lastMessage == (if o.event.Stored? then s.db.lastMessage + 1 else s.db.lastMessage)
            && (o.event.Stored? ==> o.event.row.id == o.sys.db.lastMessage)
  {
    HandleIsEvent(sha, s, request, fd, env);
  }

  lemma ArrivalCounts(sha: string -> string, m: State, request: Request, fd: int, env: Env)
    requires DbOk(m.sys.db) && Accounted(m)
    ensures var m' := Next(sha, m, Arrive(request, fd, env));
            |m'.sys.db.messages| == AcceptedSends(m'.flights, m'.next) + Orphans(m'.log)
  {
    var m' := Next(sha, m, Arrive(request, fd, env));
    ArrivalRows(sha, m.sys, request, fd, env);
    ArrivalStores(sha, m.sys, request, fd, env);
    assert m'.log[..|m.log|] == m.log;
    AcceptedSendsSame(m.flights, m'.flights, m.next);
  }

  lemma ArrivalAccounts(sha: string -> string, m: State, request: Request, fd: int, env: Env)
    requires DbOk(m.sys.db) && Accounted(m)
    ensures Accounted(Next(sha, m, Arrive(request, fd, env)))
  {
    ArrivalCounts(sha, m, request, fd, env);
    ArrivalRows(sha, m.sys, request, fd, env);
  }

  lemma OtherStepsKeepDb(sha: string -> string, m: State, step: Step)
    requires !step.Arrive?
    ensures var m' := Next(sha, m, step);
            && m'.sys.db == m.sys.db && m'.next == m.next && m'.flights.Keys == m.flights.Keys
            && (forall t :: t in m.flights ==> m'.flights[t].reply == m.flights[t].reply)
            && |m'.log| == |m.log| + 1 && m'.log[..|m.log|] == m.log && !Last(m').Stored?
  {
    if step.Call? && CanCall(m, step.flight, step.users) {
      CallbacksKeepTables(m.sys, m.flights[step.flight].callback, step.users);
    }
  }

  lemma OtherStepsAccount(sha: string -> string, m: State, step: Step)
    requires Accounted(m) && !step.Arrive?
    ensures Accounted(Next(sha, m, step))
  {
    OtherStepsKeepDb(sha, m, step);
    AcceptedSendsSame(m.flights, Next(sha, m, step).flights, m.next);
  }

  lemma {:induction false} RunAccounts(sha: string -> string, steps: seq<Step>)
    ensures var m := Run(sha, INIT, steps); Accounted(m) && DbOk(m.sys.db)
  {
    RunsReplay(sha, steps);
    if steps != [] {
      var init, step := steps[..|steps| - 1], steps[|steps| - 1];
      RunAccounts(sha, init);
      var m := Run(sha, INIT, init);
      if step.Arrive? {
        ArrivalAccounts(sha, m, step.request, step.fd, step.env);
      } else {
        OtherStepsAccount(sha, m, step);
      }
    }
  }

  /**
   Conservation: in every reachable state each stored row is either one successful answer or
   one file message whose file could not be registered, and message ids are 1, 2, 3, ... in
   order of insertion.
   */
  lemma RowsAreAccounted(sha: string -> string, m: State)
    requires Reachable(sha, m)
    ensures Accounted(m)
  {
    var steps :| m == Run(sha, INIT, steps);
    RunAccounts(sha, steps);
  }

  const INT32_MAX := 0x7fff_ffff

  /** No id overflows 32 bits, nor does the addition that makes it, below 2^31 - 1 rows. */
  lemma IdsFitInt32(sha: string -> string, m: State, raw: RawMessage, now: int)
    requires Reachable(sha, m) && |m.sys.db.messages| < INT32_MAX
    ensures var created := CreateMsgByRawMsg(m.sys.db, raw, now, true).1;
            created.Some? && 1 <= created.value.internalId <= INT32_MAX && 1 <= created.value.id <= INT32_MAX
    ensures forall row :: row in m.sys.db.messages ==> 1 <= row.internalId < INT32_MAX && 1 <= row.id < INT32_MAX
  {
    RowsAreAccounted(sha, m);
    ReachableReplays(sha, m);
    MaxIsCount(m.sys.db.messages, raw.from, raw.to);
    forall row | row in m.sys.db.messages ensures 1 <= row.internalId < INT32_MAX {
      InternalIdsBounded(m.sys.db.messages, row);
    }
  }
}
