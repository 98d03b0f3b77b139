/**
 The server as a state machine over unboundedly many requests in flight. The steps are: a
 handler up to its reply, the reply's fate, the callback, the two halves of a sender
 thread's round, and a restart that keeps only the database and the disk. Each is atomic;
 they interleave freely. Every step logs one event, and the state is the replay of the log.
 */
module Machine {
  import opened Sequences
  import opened Protocol
  import opened Store
  import opened Handlers

  /** A request's life. A finished callback records whether it queued a notification. */
  datatype Status = Replying | ReplySent | Lost | Done(notified: bool)

  datatype Flight = Flight(request: Request, reply: Reply, callback: Callback, status: Status)

  datatype State = State(sys: Sys, flights: map<nat, Flight>, next: nat, log: seq<Event>)

  datatype Step =
    | Arrive(request: Request, fd: int, env: Env)
    | Reply(flight: nat, delivered: bool)
    | Call(flight: nat, users: seq<User>)
    | Take(uid: int)
    | Send(uid: int, sent: bool, acked: bool)
    | Restart

  const EMPTY_SYS := Sys(EMPTY_DB, map[], map[], map[], map[], map[])
  const INIT := State(EMPTY_SYS, map[], 0, [])

  function Reboot(s: Sys): Sys {
    Sys(s.db, s.disk, map[], map[], map[], map[])
  }

  /** A restart loses every request that has not finished. */
  function DropFlights(flights: map<nat, Flight>): map<nat, Flight> {
    map t | t in flights :: if flights[t].status.Done? then flights[t] else flights[t].(status := Lost)
  }

  /** A request without an answer is over at once. */
  function Begin(reply: Protocol.Reply): Status {
    if reply.NoReply? then Done(false) else Replying
  }

  predicate CanCall(m: State, t: nat, users: seq<User>) {
    t in m.flights && m.flights[t].status == ReplySent && multiset(users) == multiset(m.sys.db.users)
  }

  function Next(sha: string -> string, m: State, step: Step): State {
    match step
    case Arrive(request, fd, env) =>
      var o := Handle(sha, m.sys, request, fd, env);
      State(o.sys, m.flights[m.next := Flight(request, o.reply, o.callback, Begin(o.reply))], m.next + 1,
            m.log + [o.event])
    case Reply(t, delivered) =>
      var quiet := m.(log := m.log + [Quiet]);
      if t in m.flights && m.flights[t].status == Replying
      then quiet.(flights := m.flights[t := m.flights[t].(status := if delivered then ReplySent else Lost)])
      else quiet
    case Call(t, users) =>
      if CanCall(m, t, users) then
        var (s, event) := RunCallback(m.sys, m.flights[t].callback, users);
        m.(sys := s, flights := m.flights[t := m.flights[t].(status := Done(event.Notified?))],
           log := m.log + [event])
      else m.(log := m.log + [Quiet])
    case Take(uid) =>
      if uid in m.sys.channels
      then m.(sys := m.sys.(channels := m.sys.channels[uid := m.sys.channels[uid].Take()]), log := m.log + [Took(uid)])
      else m.(log := m.log + [Quiet])
    case Send(uid, sent, acked) =>
      if uid in m.sys.channels
      then m.(sys := m.sys.(channels := m.sys.channels[uid := m.sys.channels[uid].Send(sent, acked)]),
              log := m.log + [Sent(uid, sent, acked)])
      else m.(log := m.log + [Quiet])
    case Restart =>
      State(Reboot(m.sys), DropFlights(m.flights), m.next, m.log + [Restarted])
  }

  /** The state after `steps`, in order, from `m`. */
  function Run(sha: string -> string, m: State, steps: seq<Step>): State {
    if steps == [] then m
    else Next(sha, Run(sha, m, steps[..|steps| - 1]), steps[|steps| - 1])
  }

  lemma {:induction false} RunConcat(sha: string -> string, m: State, a: seq<Step>, b: seq<Step>)
    ensures Run(sha, m, a + b) == Run(sha, Run(sha, m, a), b)
  {
    if b == [] {
      assert a + b == a;
    } else {
      RunConcat(sha, m, a, b[..|b| - 1]);
      assert (a + b)[..|a + b| - 1] == a + b[..|b| - 1];
      assert (a + b)[|a + b| - 1] == b[|b| - 1];
    }
  }

  /** `m'` is a state that the server may be in some time after `m`. */
  ghost predicate Leads(sha: string -> string, m: State, m': State) {
    exists steps :: m' == Run(sha, m, steps)
  }

  ghost predicate Reachable(sha: string -> string, m: State) {
    Leads(sha, INIT, m)
  }

  lemma LeadsStep(sha: string -> string, m: State, step: Step)
    ensures Leads(sha, m, Next(sha, m, step))
  {
    assert [step][..0] == [];
    assert Run(sha, m, [step]) == Next(sha, Run(sha, m, []), step);
  }

  lemma LeadsOn(sha: string -> string, a: State, b: State, c: State)
    requires Leads(sha, a, b) && Leads(sha, b, c)
    ensures Leads(sha, a, c)
  {
    var first :| b == Run(sha, a, first);
    var second :| c == Run(sha, b, second);
    RunConcat(sha, a, first, second);
  }

  lemma ReachableOn(sha: string -> string, m: State, step: Step, m': State)
    requires Reachable(sha, m) && Leads(sha, Next(sha, m, step), m')
    ensures Reachable(sha, Next(sha, m, step)) && Reachable(sha, m') && Leads(sha, m, m')
  {
    LeadsStep(sha, m, step);
    LeadsOn(sha, INIT, m, Next(sha, m, step));
    LeadsOn(sha, INIT, Next(sha, m, step), m');
    LeadsOn(sha, m, Next(sha, m, step), m');
  }

  // ----- events

  /** The state change an event stands for. */
  function Apply(s: Sys, e: Event): Sys {
    match e
    case Quiet => s
    case Registered(u) => s.(db := s.db.(users := s.db.users + [u], lastUser := s.db.lastUser + 1))
    case Issued(uid, challenge) => s.(challenges := s.challenges[uid := challenge])
    case Compared(uid, _, _, token, matched) =>
      s.(challenges := s.challenges - {uid}, tokens := if matched then s.tokens[token := uid] else s.tokens)
    case Stored(row, fileId) =>
      s.(db := s.db.(messages := s.db.messages + [row], lastMessage := s.db.lastMessage + 1,
                     files := if fileId.Some? then s.db.files[fileId.value := FileRow("", "")] else s.db.files))
    case Uploaded(id, written, _, fileRow) =>
      s.(disk := if written.Some? then s.disk[id := written.value] else s.disk,
         db := s.db.(files := if fileRow.Some? then s.db.files[id := fileRow.value] else s.db.files))
    case DeferredUntilUpload(id, receiver, m) => s.(deferred := s.deferred[id := Deferred(receiver, m)])
    case Notified(receiver, m, uploadOf) =>
      var s' := if uploadOf.Some? then s.(deferred := s.deferred - {uploadOf.value}) else s;
      PushTo(s', receiver, ContactMessageListRequest([m]))
    case Undelivered(id) => s.(deferred := s.deferred - {id})
    case ChannelSet(uid, fd, list) => PushTo(s.(channels := Reconnect(s.channels, uid, fd)), uid, list)
    case Took(uid) =>
      if uid in s.channels then s.(channels := s.channels[uid := s.channels[uid].Take()]) else s
    case Sent(uid, sent, acked) =>
      if uid in s.channels then s.(channels := s.channels[uid := s.channels[uid].Send(sent, acked)]) else s
    case Restarted => Reboot(s)
  }

  ghost predicate ListsContacts(s: Sys, uid: int, list: Packet) {
    exists users :: multiset(users) == multiset(s.db.users) && list == ContactList(users, s.db.messages, uid)
  }

  /** What the code has checked, or computed, whenever an event happens. */
  ghost predicate Legal(sha: string -> string, s: Sys, e: Event) {
    match e
    case Registered(u) => u.id == s.db.lastUser + 1 && FindName(s.db.users, u.username).None?
    case Issued(uid, _) => FindUser(s.db.users, uid).Some?
    case Compared(uid, challenge, hash, _, matched) =>
      var u := FindUser(s.db.users, uid);
      && u.Some? && challenge == ChallengeOf(s.challenges, uid)
      && (matched <==> sha(u.value.password + challenge) == hash)
    case Stored(row, fileId) =>
      && FindUser(s.db.users, row.raw.to).Some?
      && (row.raw.from == 0 || row.raw.from in s.tokens.Values)
      && CreateMsgByRawMsg(s.db, row.raw, row.timestamp, true).1 == Some(row)
      && (fileId.Some? ==> IsFileKind(row.raw.kind) && fileId.value !in s.db.files)
    case Uploaded(id, written, saved, _) =>
      id in s.db.files && (written.Some? ==> id !in s.disk) && (saved ==> written.Some?)
    case Notified(receiver, m, uploadOf) =>
      && HasSender(s, receiver)
      && (uploadOf.Some? ==> uploadOf.value in s.deferred && s.deferred[uploadOf.value] == Deferred(receiver, m))
    case Undelivered(id) => id in s.deferred
    case ChannelSet(uid, _, list) => ListsContacts(s, uid, list)
    case _ => true
  }

  function Last(m: State): Event
    requires m.log != []
  {
    m.log[|m.log| - 1]
  }

  lemma NamedIsIdentified(db: Db, username: string)
    requires UsersOk(db) && FindName(db.users, username).Some?
    ensures var u := FindName(db.users, username).value; FindUser(db.users, u.id) == Some(u)
  {
    var u := FindName(db.users, username).value;
    assert WithId(u.id)(u);
    var found := FindUser(db.users, u.id);
    assert found.Some?;
    var i :| 0 <= i < |db.users| && db.users[i] == u;
    var j :| 0 <= j < |db.users| && db.users[j] == found.value;
  }

  lemma LoginIsEvent(sha: string -> string, s: Sys, username: string, hash: string, env: Env)
    requires DbOk(s.db)
    ensures var o := Login(sha, s, username, hash, env); o.sys == Apply(s, o.event) && Legal(sha, s, o.event)
    ensures var o := LoginPre(s, username, env); o.sys == Apply(s, o.event) && Legal(sha, s, o.event)
  {
    if FindName(s.db.users, username).Some? {
      NamedIsIdentified(s.db, username);
    }
  }

  lemma AnswerIsEvent(s: Sys, m: Message, env: Env)
    ensures var o := AnswerSend(s, m, env);
            && o.event.Stored? && o.event.row == m
            && (o.event.fileId.Some? ==> IsFileKind(m.raw.kind) && o.event.fileId.value !in s.db.files)
            && o.sys == s.(db := s.db.(files :=
                 if o.event.fileId.Some? then s.db.files[o.event.fileId.value := FileRow("", "")] else s.db.files))
  {
  }

  lemma SendMessageIsEvent(sha: string -> string, s: Sys, token: string, raw: RawMessage, env: Env)
    ensures var o := SendMessage(s, token, raw, env); o.sys == Apply(s, o.event) && Legal(sha, s, o.event)
  {
    var (db, created) := CreateMsgByRawMsg(s.db, raw, env.now, env.rowOk);
    if created.Some? {
      AnswerIsEvent(s.(db := db), created.value, env);
    }
  }

  lemma UploadIsEvent(sha: string -> string, s: Sys, token: string, id: string, file: File, hash: string, env: Env)
    ensures var o := FileUpload(s, token, id, file, hash, env); o.sys == Apply(s, o.event) && Legal(sha, s, o.event)
  {
  }

  lemma HandleIsEvent(sha: string -> string, s: Sys, request: Request, fd: int, env: Env)
    requires DbOk(s.db)
    ensures var o := Handle(sha, s, request, fd, env);
            o.sys == Apply(s, o.event) && Legal(sha, s, o.event)
  {
    match request
    case LoginPreRequest(username) => LoginIsEvent(sha, s, username, "", env);
    case LoginRequest(username, hash) => LoginIsEvent(sha, s, username, hash, env);
    case SendMessageRequest(token, raw) => SendMessageIsEvent(sha, s, token, raw, env);
    case FileUploadRequest(token, id, file, hash) => UploadIsEvent(sha, s, token, id, file, hash, env);
    case _ =>
  }

  lemma CallbackIsEvent(sha: string -> string, s: Sys, callback: Callback, users: seq<User>)
    requires multiset(users) == multiset(s.db.users)
    ensures var (s', event) := RunCallback(s, callback, users);
            s' == Apply(s, event) && Legal(sha, s, event)
  {
  }

  predicate IsTableEvent(e: Event) {
    e.Quiet? || e.Registered? || e.Issued? || e.Compared? || e.Stored? || e.Uploaded?
  }

  predicate LeavesChannels(s: Sys, o: Outcome) {
    o.sys.channels == s.channels && o.sys.deferred == s.deferred && IsTableEvent(o.event)
  }

  lemma SendMessageLeavesChannels(s: Sys, token: string, raw: RawMessage, env: Env)
    ensures LeavesChannels(s, SendMessage(s, token, raw, env))
  {
  }

  lemma LoginLeavesChannels(sha: string -> string, s: Sys, username: string, hash: string, env: Env)
    ensures LeavesChannels(s, Login(sha, s, username, hash, env))
    ensures LeavesChannels(s, LoginPre(s, username, env))
  {
  }

  /** Only callbacks and sender threads touch the channels and the pool of deferred messages. */
  lemma HandlersKeepChannels(sha: string -> string, s: Sys, request: Request, fd: int, env: Env)
    ensures LeavesChannels(s, Handle(sha, s, request, fd, env))
  {
    match request
    case LoginPreRequest(username) => LoginLeavesChannels(sha, s, username, "", env);
    case LoginRequest(username, hash) => LoginLeavesChannels(sha, s, username, hash, env);
    case SendMessageRequest(token, raw) => SendMessageLeavesChannels(s, token, raw, env);
    case _ =>
  }

  /** Only handlers touch the database, the disk, the challenges and the tokens. */
  lemma CallbacksKeepTables(s: Sys, callback: Callback, users: seq<User>)
    ensures var (s', e) := RunCallback(s, callback, users);
            && s'.db == s.db && s'.disk == s.disk && s'.challenges == s.challenges && s'.tokens == s.tokens
            && !e.Registered? && !e.Issued? && !e.Compared? && !e.Stored? && !e.Uploaded? && !e.Restarted?
  {
  }

  /** Every step applies exactly the event it logs, and only events whose checks passed. */
  lemma StepIsEvent(sha: string -> string, m: State, step: Step)
    requires DbOk(m.sys.db)
    ensures var m' := Next(sha, m, step);
            && |m'.log| == |m.log| + 1 && m'.log == m.log + [Last(m')]
            && m'.sys == Apply(m.sys, Last(m'))
            && Legal(sha, m.sys, Last(m'))
  {
    match step
    case Arrive(request, fd, env) => HandleIsEvent(sha, m.sys, request, fd, env);
    case Call(t, users) =>
      if CanCall(m, t, users) { CallbackIsEvent(sha, m.sys, m.flights[t].callback, users); }
    case _ =>
  }

  /** A request that nothing interrupts: answered, delivered, and called back at once. */
  lemma UninterruptedRequest(sha: string -> string, m: State, request: Request, fd: int, env: Env, users: seq<User>)
    requires multiset(users) == multiset(Handle(sha, m.sys, request, fd, env).sys.db.users)
    ensures var o := Handle(sha, m.sys, request, fd, env);
            var answered := Next(sha, Next(sha, m, Arrive(request, fd, env)), Reply(m.next, true));
            Next(sha, answered, Call(m.next, users)).sys
            == if o.reply.NoReply? then o.sys else RunCallback(o.sys, o.callback, users).0
  {
  }

  // ----- the database in every run

  lemma StoredKeepsDb(sha: string -> string, s: Sys, row: Message, fileId: Option<string>)
    requires DbOk(s.db) && Legal(sha, s, Stored(row, fileId))
    ensures DbOk(Apply(s, Stored(row, fileId)).db)
  {
    CreateKeepsMessages(s.db, row.raw, row.timestamp, true);
    var created := CreateMsgByRawMsg(s.db, row.raw, row.timestamp, true).0;
    assert Apply(s, Stored(row, fileId)).db.messages == created.messages;
  }

  lemma RegisteredKeepsDb(sha: string -> string, s: Sys, u: User)
    requires DbOk(s.db) && Legal(sha, s, Registered(u))
    ensures DbOk(Apply(s, Registered(u)).db)
  {
    CreateUserKeeps(s.db, u.username, u.password, true);
    assert Apply(s, Registered(u)).db == CreateUser(s.db, u.username, u.password, true).0;
  }

  lemma ApplyKeepsDb(sha: string -> string, s: Sys, e: Event)
    requires DbOk(s.db) && Legal(sha, s, e)
    ensures DbOk(Apply(s, e).db)
  {
    match e
    case Registered(u) => RegisteredKeepsDb(sha, s, u);
    case Stored(row, fileId) => StoredKeepsDb(sha, s, row, fileId);
    case _ =>
  }

  function Replay(s: Sys, log: seq<Event>): Sys {
    if log == [] then s else Apply(Replay(s, log[..|log| - 1]), log[|log| - 1])
  }

  /** In every run the database keeps its invariant and the state is the replay of the log. */
  lemma {:induction false} RunsReplay(sha: string -> string, steps: seq<Step>)
    ensures var m := Run(sha, INIT, steps);
            DbOk(m.sys.db) && m.sys == Replay(EMPTY_SYS, m.log) && |m.log| == |steps|
  {
    if steps != [] {
      var before, step := steps[..|steps| - 1], steps[|steps| - 1];
      var m := Run(sha, INIT, before);
      RunsReplay(sha, before);
      StepIsEvent(sha, m, step);
      var m' := Next(sha, m, step);
      ApplyKeepsDb(sha, m.sys, Last(m'));
      assert m'.log[..|m'.log| - 1] == m.log;
    }
  }

  /** Every reachable state has sound tables and is the replay of its log. */
  lemma ReachableReplays(sha: string -> string, m: State)
    requires Reachable(sha, m)
    ensures DbOk(m.sys.db) && m.sys == Replay(EMPTY_SYS, m.log)
  {
    var steps :| m == Run(sha, INIT, steps);
    RunsReplay(sha, steps);
  }
}
