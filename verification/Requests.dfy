/**
 From the request to its effect: what each request is answered, and what its callback does,
 stated from the state it meets and the values it carries. Kinds 1 and 2 are images and files.
 */
module Requests {
  import opened Sequences
  import opened Protocol
  import opened Store
  import opened Channels
  import opened Handlers
  import opened Machine
  import Accounts
  import Delivery
  import Files
  import Notifications

  /** The state in which a request was handled and its reply delivered, its callback not yet run. */
  function Answered(sha: string -> string, m: State, request: Request, fd: int, env: Env): State {
    Next(sha, Next(sha, m, Arrive(request, fd, env)), Reply(m.next, true))
  }

  /** The same with the callback run at once; `users` is the order in which it lists them. */
  function Served(sha: string -> string, m: State, request: Request, fd: int, env: Env, users: seq<User>): State {
    Next(sha, Answered(sha, m, request, fd, env), Call(m.next, users))
  }

  /** The answer to a request. */
  function AnswerTo(sha: string -> string, m: State, request: Request, fd: int, env: Env): Protocol.Reply {
    Handle(sha, m.sys, request, fd, env).reply
  }

  lemma ReachableStep(sha: string -> string, m: State, step: Step)
    requires Reachable(sha, m)
    ensures Reachable(sha, Next(sha, m, step))
  {
    LeadsStep(sha, m, step);
    LeadsOn(sha, INIT, m, Next(sha, m, step));
  }

  lemma AnsweredIsReachable(sha: string -> string, m: State, request: Request, fd: int, env: Env)
    requires Reachable(sha, m)
    ensures Reachable(sha, Answered(sha, m, request, fd, env))
  {
    var arrived := Next(sha, m, Arrive(request, fd, env));
    ReachableStep(sha, m, Arrive(request, fd, env));
    ReachableStep(sha, arrived, Reply(m.next, true));
  }

  lemma ServedIsReachable(sha: string -> string, m: State, request: Request, fd: int, env: Env, users: seq<User>)
    requires Reachable(sha, m)
    ensures Reachable(sha, Served(sha, m, request, fd, env, users))
  {
    AnsweredIsReachable(sha, m, request, fd, env);
    ReachableStep(sha, Answered(sha, m, request, fd, env), Call(m.next, users));
  }

  /** A request with an answer waits with exactly the callback its handler chose. */
  lemma AnsweredWaits(sha: string -> string, m: State, request: Request, fd: int, env: Env)
    requires !AnswerTo(sha, m, request, fd, env).NoReply?
    ensures var o, m' := Handle(sha, m.sys, request, fd, env), Answered(sha, m, request, fd, env);
            && m'.sys == o.sys && m.next in m'.flights
            && m'.flights[m.next] == Flight(request, o.reply, o.callback, ReplySent)
  {
  }

  // ----- vocabulary

  /** Whose token it is: nobody's (0) if it is empty or unknown. */
  lemma OwnerOfToken(tokens: map<string, int>, token: string)
    ensures token == "" || token !in tokens ==> UserOf(tokens, token) == 0
    ensures token != "" && token in tokens ==> UserOf(tokens, token) == tokens[token]
  {
  }

  lemma RegisteredIff(users: seq<User>, id: int)
    ensures FindUser(users, id).Some? <==> exists u :: u in users && u.id == id
    ensures FindUser(users, id).Some? ==> FindUser(users, id).value.id == id
  {
    if u :| u in users && u.id == id {
      assert WithId(id)(u);
    }
  }

  lemma NameTakenIff(users: seq<User>, username: string)
    ensures FindName(users, username).Some? <==> exists u :: u in users && u.username == username
    ensures FindName(users, username).Some? ==> FindName(users, username).value.username == username
  {
    if u :| u in users && u.username == username {
      assert Named(username)(u);
    }
  }

  /** Images and files are the kinds 1 and 2; texts, and any other kind, are announced at once. */
  lemma FileKindsAre(kind: int)
    ensures IsFileKind(kind) <==> kind == 1 || kind == 2
    ensures TEXT == 0 && NO_MESSAGE == Message(RawMessage(0, 0, 0, ""), -1, 0, 0)
  {
  }

  // ----- status and registration

  /** The server always says that it is online and open for registration; other packets get no answer. */
  lemma StatusAnswers(sha: string -> string, m: State, fd: int, env: Env)
    ensures AnswerTo(sha, m, ServerStatusRequest, fd, env) == ServerStatusResponse(true, true)
    ensures AnswerTo(sha, m, ServerStatusUpdateRequest, fd, env) == ServerStatusUpdateResponse(true, true)
    ensures AnswerTo(sha, m, Ignored, fd, env) == NoReply
  {
  }

  /**
   When a registration succeeds: exactly if name and password have 3 to 32 and 6 to 32
   characters, nobody has the name, and the insert works. Then the name stands for a new user
   with the hashed password; otherwise nothing changes.
   */
  lemma RegisterSucceedsIff(sha: string -> string, m: State, username: string, password: string, fd: int, env: Env)
    requires Reachable(sha, m)
    ensures var request := RegisterRequest(username, password);
            var ok := && 3 <= |username| <= 32 && 6 <= |password| <= 32 && env.rowOk
                      && forall u :: u in m.sys.db.users ==> u.username != username;
            var s := Next(sha, m, Arrive(request, fd, env)).sys;
            && AnswerTo(sha, m, request, fd, env) == RegisterResponse(ok)
            && (!ok ==> s == m.sys)
            && (ok ==> exists u: User :: && u.username == username && u.password == sha(password)
                                         && (forall v :: v in m.sys.db.users ==> v.id < u.id)
                                         && s.db.users == m.sys.db.users + [u])
  {
    ReachableReplays(sha, m);
    NameTakenIff(m.sys.db.users, username);
    var u := User(m.sys.db.lastUser + 1, username, sha(password));
    assert forall v :: v in m.sys.db.users ==> v.id < u.id;
  }

  // ----- login

  /** The answered challenge is the one the next login is compared with; an unknown name gets "". */
  lemma ChallengeIsAnswered(sha: string -> string, m: State, username: string, fd: int, env: Env)
    requires Reachable(sha, m)
    ensures var request := LoginPreRequest(username);
            var m', u := Next(sha, m, Arrive(request, fd, env)), FindName(m.sys.db.users, username);
            && AnswerTo(sha, m, request, fd, env)
               == LoginPreResponse(if u.None? then "" else Accounts.Expected(m'.log, u.value.id))
            && (u.Some? ==> Accounts.Expected(m'.log, u.value.id) == env.challenge)
            && (u.None? ==> m'.sys == m.sys)
  {
    var u := FindName(m.sys.db.users, username);
    if u.Some? {
      Accounts.ExpectedSnoc(m.log, Issued(u.value.id, env.challenge), u.value.id);
    }
  }

  /** What a login is answered, in each case, and what it leaves in the pools. */
  lemma LoginAnswer(sha: string -> string, m: State, username: string, hash: string, fd: int, env: Env)
    requires Reachable(sha, m)
    ensures var request := LoginRequest(username, hash);
            var s, u := Next(sha, m, Arrive(request, fd, env)).sys, FindName(m.sys.db.users, username);
            var ok := u.Some? && hash == sha(u.value.password + Accounts.Expected(m.log, u.value.id));
            && AnswerTo(sha, m, request, fd, env)
               == (if u.None? then LoginResponse(false, -1, "illegal user")
                   else if ok then LoginResponse(true, u.value.id, env.uuid)
                   else LoginResponse(false, -1, "wrong password"))
            && s.tokens == (if ok then m.sys.tokens[env.uuid := u.value.id] else m.sys.tokens)
            && (u.Some? ==> ChallengeOf(s.challenges, u.value.id) == "")
  {
    Accounts.Reached(sha, m);
  }

  lemma {:induction false} ExpectedStays(log: seq<Event>, n: nat, uid: int)
    requires n <= |log|
    requires forall k :: n <= k < |log| ==>
               !log[k].Restarted? && !((log[k].Issued? || log[k].Compared?) && log[k].uid == uid)
    ensures Accounts.Expected(log, uid) == Accounts.Expected(log[..n], uid)
  {
    if n == |log| {
      assert log[..n] == log;
    } else {
      var init := log[..|log| - 1];
      assert forall k :: n <= k < |init| ==> init[k] == log[k];
      ExpectedStays(init, n, uid);
      assert init[..n] == log[..n];
    }
  }

  /**
   Challenge and login, end to end: who asks for a challenge and presents the hash made with
   the answer is logged in, in every later state in which no challenge was issued to this
   user, no login of this user compared, and nothing restarted.
   */
  lemma PreparedLoginSucceeds(sha: string -> string, m: State, username: string, fd: int, env: Env,
                              steps: seq<Step>, fd': int, env': Env)
    requires Reachable(sha, m) && FindName(m.sys.db.users, username).Some?
    requires var m1, u := Next(sha, m, Arrive(LoginPreRequest(username), fd, env)), FindName(m.sys.db.users, username);
             var m' := Run(sha, m1, steps);
             Accounts.Undisturbed(m'.log, |m.log|, |m'.log|, u.value.id)
    ensures var request := LoginPreRequest(username);
            var m1, u := Next(sha, m, Arrive(request, fd, env)), FindName(m.sys.db.users, username).value;
            var m' := Run(sha, m1, steps);
            AnswerTo(sha, m, request, fd, env).LoginPreResponse? &&
            var hash := sha(u.password + AnswerTo(sha, m, request, fd, env).challenge);
            AnswerTo(sha, m', LoginRequest(username, hash), fd', env') == LoginResponse(true, u.id, env'.uuid)
  {
    var prepare, u := Arrive(LoginPreRequest(username), fd, env), FindName(m.sys.db.users, username).value;
    var m1 := Next(sha, m, prepare);
    var m' := Run(sha, m1, steps);
    ReachableStep(sha, m, prepare);
    ReachableReplays(sha, m1);
    Delivery.LogGrows(sha, m1, steps);
    ChallengeIsAnswered(sha, m, username, fd, env);
    ExpectedStays(m'.log, |m1.log|, u.id);
    assert m'.log[..|m1.log|] == m1.log;
    LeadsOn(sha, INIT, m1, m');
    Accounts.NamesPersist(sha, m1, m', username);
    LoginAnswer(sha, m', username, sha(u.password + env.challenge), fd', env');
  }

  // ----- sending

  /** The row of an accepted send: the next id, the clock, and one more than the conversation has. */
  function NewRow(db: Db, raw: RawMessage, now: int): Message {
    Message(raw, db.lastMessage + 1, now, |Conversation(db.messages, raw.from, raw.to)| + 1)
  }

  /**
   What a send is answered: it is accepted exactly if the token is the sender's, the receiver
   is registered, the insert works, and a message of kind 1 or 2 gets a new file id. Then the
   new row is stored with the time of the clock, and the answer is that row, with the file id
   as content for kinds 1 and 2. Otherwise the answer is the message with id -1.
   */
  lemma SendAnswer(sha: string -> string, m: State, token: string, raw: RawMessage, fd: int, env: Env)
    requires Reachable(sha, m)
    ensures var request := SendMessageRequest(token, raw);
            var o, row := Handle(sha, m.sys, request, fd, env), NewRow(m.sys.db, raw, env.now);
            var isFile := raw.kind == 1 || raw.kind == 2;
            var stored := && UserOf(m.sys.tokens, token) == raw.from
                          && (exists u :: u in m.sys.db.users && u.id == raw.to) && env.rowOk;
            var accepted := stored && (isFile ==> env.fileOk && env.uuid !in m.sys.db.files);
            var answer := if isFile then row.(raw := raw.(content := env.uuid)) else row;
            && o.reply == SendMessageResponse(if accepted then answer else Message(RawMessage(0, 0, 0, ""), -1, 0, 0))
            && o.sys.db.messages == (if stored then m.sys.db.messages + [row] else m.sys.db.messages)
            && o.sys.db.files == (if accepted && isFile then m.sys.db.files[env.uuid := FileRow("", "")]
                                  else m.sys.db.files)
            && o.callback == (if !accepted then NoCallback
                              else if isFile then DeferCallback(env.uuid, raw.to, answer)
                              else NotifyCallback(raw.to, answer))
  {
    ReachableReplays(sha, m);
    RegisteredIff(m.sys.db.users, raw.to);
    MaxIsCount(m.sys.db.messages, raw.from, raw.to);
  }

  /** The answered message, if the send was accepted: its id is not -1. */
  predicate AcceptedWith(sha: string -> string, m: State, token: string, raw: RawMessage, fd: int, env: Env,
                         answer: Message)
  {
    answer.id != -1 && AnswerTo(sha, m, SendMessageRequest(token, raw), fd, env) == SendMessageResponse(answer)
  }

  lemma SendKeepsUsers(s: Sys, token: string, raw: RawMessage, env: Env)
    ensures SendMessage(s, token, raw, env).sys.db.users == s.db.users
  {
  }

  lemma SendKeepsChannels(sha: string -> string, m: State, token: string, raw: RawMessage, fd: int, env: Env)
    ensures var s := Answered(sha, m, SendMessageRequest(token, raw), fd, env).sys;
            s.channels == m.sys.channels && s.deferred == m.sys.deferred && s.db.users == m.sys.db.users
  {
    SendMessageLeavesChannels(m.sys, token, raw, env);
    SendKeepsUsers(m.sys, token, raw, env);
    AnsweredWaits(sha, m, SendMessageRequest(token, raw), fd, env);
  }

  /**
   A text message, end to end: once its send was accepted and answered, its callback queues
   the answered message for the receiver if there is a channel, and does nothing else. (Over
   any interleaving: `Notifications.TextNotifiedIffOnline` for the callback stated here.)
   */
  lemma TextIsQueued(sha: string -> string, m: State, token: string, raw: RawMessage, fd: int, env: Env,
                     answer: Message, users: seq<User>)
    requires Reachable(sha, m) && AcceptedWith(sha, m, token, raw, fd, env, answer)
    requires raw.kind != 1 && raw.kind != 2 && multiset(users) == multiset(m.sys.db.users)
    ensures var request := SendMessageRequest(token, raw);
            var waiting, done := Answered(sha, m, request, fd, env), Served(sha, m, request, fd, env, users);
            && answer == NewRow(m.sys.db, raw, env.now)
            && m.next in waiting.flights && waiting.flights[m.next].status == ReplySent
            && waiting.flights[m.next].callback == NotifyCallback(raw.to, answer)
            && (if raw.to != 0 && raw.to in m.sys.channels
                then done.sys.channels
                     == m.sys.channels[raw.to := m.sys.channels[raw.to].(
                          queue := m.sys.channels[raw.to].queue + [ContactMessageListRequest([answer])])]
                else done.sys.channels == m.sys.channels)
  {
    SendAnswer(sha, m, token, raw, fd, env);
    SendKeepsChannels(sha, m, token, raw, fd, env);
    AnsweredWaits(sha, m, SendMessageRequest(token, raw), fd, env);
  }

  /** A file message, end to end up to the pool: its callback pools the answered message, unconditionally. */
  lemma FileMessageIsPooled(sha: string -> string, m: State, token: string, raw: RawMessage, fd: int, env: Env,
                            answer: Message, users: seq<User>)
    requires Reachable(sha, m) && AcceptedWith(sha, m, token, raw, fd, env, answer)
    requires (raw.kind == 1 || raw.kind == 2) && multiset(users) == multiset(m.sys.db.users)
    ensures var request := SendMessageRequest(token, raw);
            var waiting, done := Answered(sha, m, request, fd, env), Served(sha, m, request, fd, env, users);
            && answer == NewRow(m.sys.db, raw, env.now).(raw := raw.(content := env.uuid))
            && m.next in waiting.flights && waiting.flights[m.next].status == ReplySent
            && waiting.flights[m.next].callback == DeferCallback(env.uuid, raw.to, answer)
            && done.sys.channels == m.sys.channels
            && done.sys.deferred == m.sys.deferred[env.uuid := Deferred(raw.to, answer)]
            && m.next in done.flights && done.flights[m.next].status.Done?
            && done.flights[m.next].callback == DeferCallback(env.uuid, raw.to, answer)
  {
    SendAnswer(sha, m, token, raw, fd, env);
    SendKeepsChannels(sha, m, token, raw, fd, env);
    AnsweredWaits(sha, m, SendMessageRequest(token, raw), fd, env);
  }

  // ----- the pool until the upload's callback

  /** This step runs the callback of an upload of file `id`. */
  predicate RunsUploadOf(m: State, step: Step, id: string) {
    step.Call? && CanCall(m, step.flight, step.users) && m.flights[step.flight].callback == UploadCallback(id)
  }

  /** No restart, and no callback of an upload of `id`, on the way. */
  ghost predicate LeavesPooled(sha: string -> string, m: State, steps: seq<Step>, id: string) {
    steps == [] ||
    (var init, step := steps[..|steps| - 1], steps[|steps| - 1];
     && LeavesPooled(sha, m, init, id)
     && !step.Restart? && !RunsUploadOf(Run(sha, m, init), step, id))
  }

  lemma CallbackLeavesPooled(s: Sys, c: Callback, users: seq<User>, id: string)
    requires id in s.deferred && c != UploadCallback(id) && (c.DeferCallback? ==> c.fileId != id)
    ensures var s' := RunCallback(s, c, users).0; id in s'.deferred && s'.deferred[id] == s.deferred[id]
  {
  }

  /** Flight `t` has pooled the message of file `id`, and no other flight can do so. */
  ghost predicate HasPooled(m: State, t: nat, id: string) {
    t in m.flights && t < m.next && m.flights[t].status.Done?
    && m.flights[t].callback.DeferCallback? && m.flights[t].callback.fileId == id
  }

  lemma StepLeavesPooled(sha: string -> string, m: State, t: nat, step: Step, id: string)
    requires Notifications.Inv(m) && HasPooled(m, t, id)
    requires id in m.sys.deferred && !step.Restart? && !RunsUploadOf(m, step, id)
    ensures var s := Next(sha, m, step).sys; id in s.deferred && s.deferred[id] == m.sys.deferred[id]
  {
    if step.Arrive? {
      HandlersKeepChannels(sha, m.sys, step.request, step.fd, step.env);
    } else if step.Call? && CanCall(m, step.flight, step.users) {
      var u := step.flight;
      assert Notifications.Clash(m.flights[t].callback, m.flights[u].callback) ==> t == u;
      CallbackLeavesPooled(m.sys, m.flights[u].callback, step.users, id);
    }
  }

  lemma {:induction false} StaysPooled(sha: string -> string, m: State, t: nat, steps: seq<Step>, id: string)
    requires Reachable(sha, m) && HasPooled(m, t, id)
    requires id in m.sys.deferred && LeavesPooled(sha, m, steps, id)
    ensures var m' := Run(sha, m, steps);
            HasPooled(m', t, id) && id in m'.sys.deferred && m'.sys.deferred[id] == m.sys.deferred[id]
  {
    if steps != [] {
      var init, step := steps[..|steps| - 1], steps[|steps| - 1];
      var b := Run(sha, m, init);
      StaysPooled(sha, m, t, init, id);
      LeadsOn(sha, INIT, m, b);
      Notifications.Reached(sha, b);
      StepLeavesPooled(sha, b, t, step, id);
      Notifications.StepKeepsOutcome(sha, b, step, t);
    }
  }

  /** An upload answered with success waits with the callback that announces its file. */
  lemma UploadWaits(sha: string -> string, m: State, token: string, id: string, file: File, hash: string,
                    fd: int, env: Env)
    ensures var request := FileUploadRequest(token, id, file, hash);
            var waiting := Answered(sha, m, request, fd, env);
            && AnswerTo(sha, m, request, fd, env).FileUploadResponse?
            && m.next in waiting.flights && waiting.flights[m.next].status == ReplySent
            && waiting.flights[m.next].callback
               == (if AnswerTo(sha, m, request, fd, env).success then UploadCallback(id) else NoCallback)
            && waiting.sys.channels == m.sys.channels && waiting.sys.deferred == m.sys.deferred
            && waiting.sys.db.users == m.sys.db.users
  {
    AnsweredWaits(sha, m, FileUploadRequest(token, id, file, hash), fd, env);
    HandlersKeepChannels(sha, m.sys, FileUploadRequest(token, id, file, hash), fd, env);
  }

  /** The callback of a successful upload: takes the message from the pool and queues it, if there is a channel. */
  lemma UploadTakesAndQueues(sha: string -> string, m: State, u: nat, users: seq<User>, id: string)
    requires CanCall(m, u, users) && m.flights[u].callback == UploadCallback(id)
    requires id in m.sys.deferred && m.sys.deferred[id].receiver != 0
    ensures var s, d := Next(sha, m, Call(u, users)).sys, m.sys.deferred[id];
            && s.deferred == m.sys.deferred - {id}
            && (if d.receiver in m.sys.channels
                then s.channels
                     == m.sys.channels[d.receiver := m.sys.channels[d.receiver].(
                          queue := m.sys.channels[d.receiver].queue + [ContactMessageListRequest([d.message])])]
                else s.channels == m.sys.channels)
  {
  }

  /**
   From the pool to the queue, in any interleaving: a pooled message is there when the next
   upload callback of its file runs, at whatever time, and that callback takes it and queues it
   for its receiver if there is a channel then.
   */
  lemma PooledIsAnnounced(sha: string -> string, m: State, t: nat, id: string, steps: seq<Step>,
                          u: nat, users: seq<User>)
    requires Reachable(sha, m) && HasPooled(m, t, id)
    requires id in m.sys.deferred && m.sys.deferred[id].receiver != 0 && LeavesPooled(sha, m, steps, id)
    requires RunsUploadOf(Run(sha, m, steps), Call(u, users), id)
    ensures var later, d := Run(sha, m, steps), m.sys.deferred[id];
            var s := Next(sha, later, Call(u, users)).sys;
            && s.deferred == later.sys.deferred - {id}
            && (if d.receiver in later.sys.channels
                then s.channels
                     == later.sys.channels[d.receiver := later.sys.channels[d.receiver].(
                          queue := later.sys.channels[d.receiver].queue + [ContactMessageListRequest([d.message])])]
                else s.channels == later.sys.channels)
  {
    StaysPooled(sha, m, t, steps, id);
    UploadTakesAndQueues(sha, Run(sha, m, steps), u, users, id);
  }

  /**
   A file message, end to end in the ordinary order: accepted, answered and pooled; then any
   steps but a restart and an upload callback of this file; then the upload, answered with
   success, and its callback. If the receiver has a channel by then, the answered message is
   queued on it, and in any case the pool has no message for the file any more.
   */
  lemma FileIsAnnounced(sha: string -> string, m: State, token: string, raw: RawMessage, fd: int, env: Env,
                        answer: Message, users: seq<User>, steps: seq<Step>,
                        uploader: string, file: File, hash: string, fd': int, env': Env, users': seq<User>)
    requires Reachable(sha, m) && AcceptedWith(sha, m, token, raw, fd, env, answer)
    requires (raw.kind == 1 || raw.kind == 2) && raw.to != 0 && multiset(users) == multiset(m.sys.db.users)
    requires LeavesPooled(sha, Served(sha, m, SendMessageRequest(token, raw), fd, env, users), steps, env.uuid)
    requires var later := Run(sha, Served(sha, m, SendMessageRequest(token, raw), fd, env, users), steps);
             && AnswerTo(sha, later, FileUploadRequest(uploader, env.uuid, file, hash), fd', env')
                == FileUploadResponse(true)
             && multiset(users') == multiset(later.sys.db.users)
    ensures var later := Run(sha, Served(sha, m, SendMessageRequest(token, raw), fd, env, users), steps);
            var s := Served(sha, later, FileUploadRequest(uploader, env.uuid, file, hash), fd', env', users').sys;
            && env.uuid !in s.deferred
            && (if raw.to in later.sys.channels
                then raw.to in s.channels
                     && s.channels[raw.to].queue
                        == later.sys.channels[raw.to].queue + [ContactMessageListRequest([answer])]
                else s.channels == later.sys.channels)
  {
    var pooled := Served(sha, m, SendMessageRequest(token, raw), fd, env, users);
    FileMessageIsPooled(sha, m, token, raw, fd, env, answer, users);
    ServedIsReachable(sha, m, SendMessageRequest(token, raw), fd, env, users);
    StaysPooled(sha, pooled, m.next, steps, env.uuid);
    var later := Run(sha, pooled, steps);
    UploadWaits(sha, later, uploader, env.uuid, file, hash, fd', env');
    var waiting := Answered(sha, later, FileUploadRequest(uploader, env.uuid, file, hash), fd', env');
    UploadTakesAndQueues(sha, waiting, later.next, users', env.uuid);
  }

  // ----- lost replies and restarts

  /** A request whose reply is lost, or which a restart meets unfinished, never runs its callback. */
  lemma LostIsForever(sha: string -> string, m: State, t: nat, step: Step, m': State)
    requires Reachable(sha, m) && t in m.flights
    requires (step == Reply(t, false) && m.flights[t].status == Replying)
             || (step == Restart && !m.flights[t].status.Done?)
    requires Leads(sha, Next(sha, m, step), m')
    ensures t in m'.flights && m'.flights[t].status == Lost
    ensures Notifications.Carries(m.flights[t].callback) ==>
              forall i :: 0 <= i < |m'.log| && m'.log[i].Notified? ==>
                m'.log[i].message.id != m.flights[t].callback.message.id
  {
    var m1 := Next(sha, m, step);
    ReachableOn(sha, m, step, m');
    assert t in m1.flights && m1.flights[t].status == Lost && m1.flights[t].callback == m.flights[t].callback;
    Notifications.FinishedStaysFinished(sha, m1, m', t);
    if Notifications.Carries(m.flights[t].callback) {
      forall i | 0 <= i < |m'.log| && m'.log[i].Notified?
        ensures m'.log[i].message.id != m.flights[t].callback.message.id
      {
        Notifications.UnansweredIsUnannounced(sha, m', t, i);
      }
    }
  }

  /** After a restart nobody has a channel, a token or a challenge, and nothing is pooled; tables and files stay. */
  lemma RestartForgets(sha: string -> string, m: State, token: string, uid: int)
    ensures var s := Next(sha, m, Restart).sys;
            && s.channels == map[] && s.deferred == map[] && UserOf(s.tokens, token) == 0
            && ChallengeOf(s.challenges, uid) == "" && s.db == m.sys.db && s.disk == m.sys.disk
  {
  }

  // ----- channels

  /** A setup waits with the callback for the token's owner and the descriptor it came on. */
  lemma SetupWaits(sha: string -> string, m: State, token: string, fd: int, env: Env)
    requires token != "" && token in m.sys.tokens
    ensures var waiting := Answered(sha, m, SetupChannelRequest(token), fd, env);
            && AnswerTo(sha, m, SetupChannelRequest(token), fd, env) == ServerAckResponse
            && m.next in waiting.flights && waiting.flights[m.next].status == ReplySent
            && waiting.flights[m.next].callback == SetupCallback(m.sys.tokens[token], fd)
            && waiting.sys == m.sys
  {
    AnsweredWaits(sha, m, SetupChannelRequest(token), fd, env);
  }

  /** On this channel a contact list is all that waits. */
  ghost predicate ListWaits(c: Channel, uid: int, users: seq<User>, rows: seq<Message>) {
    && |c.queue| == 1 && c.queue[0].ContactListRequest?
    && |c.queue[0].contacts| == |users| && |c.queue[0].internalIds| == |users|
    && forall i :: 0 <= i < |users| ==>
         && c.queue[0].contacts[i] == Contact(users[i].id, users[i].username)
         && c.queue[0].internalIds[i] == |Conversation(rows, uid, users[i].id)|
  }

  lemma SetupEffect(s: Sys, uid: int, fd: int, users: seq<User>)
    ensures var s' := RunSetup(s, uid, fd, users).0;
            && uid in s'.channels && s'.channels[uid].fd == fd
            && s'.channels.Keys == s.channels.Keys + {uid}
            && (forall v :: v in s.channels && v != uid ==> s'.channels[v] == s.channels[v])
            && (uid == 0 ==> s'.channels[uid].queue == [])
            && (uid != 0 ==> ListWaits(s'.channels[uid], uid, users, s.db.messages))
  {
  }

  /**
   A channel setup, end to end: the channel of the token's owner is then on the descriptor the
   request came on; unless the owner is user 0 its queue is one contact list, with each
   registered user's id, name and the number of messages the owner sent there; and no other
   channel changed.
   */
  lemma SetupOpensChannel(sha: string -> string, m: State, token: string, fd: int, env: Env, users: seq<User>)
    requires Reachable(sha, m) && token != "" && token in m.sys.tokens && multiset(users) == multiset(m.sys.db.users)
    ensures var uid := m.sys.tokens[token];
            var s := Served(sha, m, SetupChannelRequest(token), fd, env, users).sys;
            && uid in s.channels && s.channels[uid].fd == fd
            && s.channels.Keys == m.sys.channels.Keys + {uid}
            && (forall v :: v in m.sys.channels && v != uid ==> s.channels[v] == m.sys.channels[v])
            && (uid == 0 ==> s.channels[uid].queue == [])
            && (uid != 0 ==> ListWaits(s.channels[uid], uid, users, m.sys.db.messages))
  {
    SetupWaits(sha, m, token, fd, env);
    SetupEffect(m.sys, m.sys.tokens[token], fd, users);
  }

  /** The steps of `n` rounds of one sender thread; `sent` and `acked` say what works in each. */
  function Rounds(uid: int, n: nat, sent: nat -> bool, acked: nat -> bool): seq<Step> {
    if n == 0 then []
    else Rounds(uid, n - 1, sent, acked) + [Take(uid)] + [Send(uid, sent(n - 1), acked(n - 1))]
  }

  /** What these rounds attempt: the first `n` packets of the queue, in order. */
  function Attempts(c: Channel, n: nat, sent: nat -> bool, acked: nat -> bool): seq<Attempt>
    requires n <= |c.queue|
  {
    if n == 0 then []
    else Attempts(c, n - 1, sent, acked) + [Attempt(c.fd, c.queue[n - 1], sent(n - 1), acked(n - 1))]
  }

  lemma RoundEffect(sha: string -> string, m: State, uid: int, sent: bool, acked: bool)
    requires uid in m.sys.channels && m.sys.channels[uid].hand.None? && m.sys.channels[uid].queue != []
    ensures var c, m' := m.sys.channels[uid], Next(sha, Next(sha, m, Take(uid)), Send(uid, sent, acked));
            && uid in m'.sys.channels
            && m'.sys.channels[uid]
               == Channel(c.fd, c.queue[1..], None, c.attempts + [Attempt(c.fd, c.queue[0], sent, acked)])
            && m'.sys.channels - {uid} == m.sys.channels - {uid}
  {
  }

  lemma RunTwoMore(sha: string -> string, m: State, before: seq<Step>, a: Step, b: Step)
    ensures Run(sha, m, before + [a] + [b]) == Next(sha, Next(sha, Run(sha, m, before), a), b)
  {
    assert (before + [a] + [b])[..|before| + 1] == before + [a];
    assert (before + [a])[..|before|] == before;
    assert Run(sha, m, before + [a]) == Next(sha, Run(sha, m, before), a);
  }

  /**
   The sender thread gets through its queue: `n` rounds with an empty hand attempt the first
   `n` packets in order, each once, on the current descriptor, whether the sends work or not.
   */
  lemma {:induction false} SenderDrains(sha: string -> string, m: State, uid: int, n: nat,
                                        sent: nat -> bool, acked: nat -> bool)
    requires uid in m.sys.channels && m.sys.channels[uid].hand.None? && n <= |m.sys.channels[uid].queue|
    ensures var m', c := Run(sha, m, Rounds(uid, n, sent, acked)), m.sys.channels[uid];
            && uid in m'.sys.channels
            && m'.sys.channels[uid] == Channel(c.fd, c.queue[n..], None, c.attempts + Attempts(c, n, sent, acked))
            && m'.sys.channels - {uid} == m.sys.channels - {uid}
  {
    var c := m.sys.channels[uid];
    if n == 0 {
      assert c.queue[0..] == c.queue && c.attempts + [] == c.attempts;
    } else {
      SenderDrains(sha, m, uid, n - 1, sent, acked);
      assert c.queue[n - 1..][1..] == c.queue[n..] && c.queue[n - 1..][0] == c.queue[n - 1];
      var before := Rounds(uid, n - 1, sent, acked);
      RunTwoMore(sha, m, before, Take(uid), Send(uid, sent(n - 1), acked(n - 1)));
      RoundEffect(sha, Run(sha, m, before), uid, sent(n - 1), acked(n - 1));
      var last := Attempt(c.fd, c.queue[n - 1], sent(n - 1), acked(n - 1));
      assert c.attempts + Attempts(c, n, sent, acked) == (c.attempts + Attempts(c, n - 1, sent, acked)) + [last];
    }
  }

  // ----- files and fetching

  /** What an upload records, whether it succeeds or not: name and hash, if token, id and row update are good. */
  lemma UploadRecords(sha: string -> string, m: State, token: string, id: string, file: File, hash: string,
                      fd: int, env: Env)
    requires Reachable(sha, m)
    ensures var s := Next(sha, m, Arrive(FileUploadRequest(token, id, file, hash), fd, env)).sys;
            var known := UserOf(m.sys.tokens, token) != 0 && id in m.sys.db.files;
            && s.db.files == (if known && env.updateOk then m.sys.db.files[id := FileRow(file.name, hash)]
                              else m.sys.db.files)
            && (!known || id in m.sys.disk ==> s.disk == m.sys.disk)
            && (known && id !in m.sys.disk ==>
                  s.disk == match env.save
                            case OpenFails => m.sys.disk
                            case WriteFails(n) =>
                              m.sys.disk[id := file.content[..if n < |file.content| then n else |file.content|]]
                            case Saves => m.sys.disk[id := file.content])
  {
    assert file.content[..|file.content|] == file.content;
  }

  /**
   What a download is answered, in each case: nothing for a token that is empty, unknown or
   user 0's, or an unregistered id; the latest hash alone for a file that is not on disk or
   cannot be opened; and otherwise the bytes on disk with the latest name and hash.
   */
  lemma DownloadAnswer(sha: string -> string, m: State, token: string, id: string, fd: int, env: Env)
    requires Reachable(sha, m)
    ensures var request := FileDownloadRequest(token, id);
            var stranger := token == "" || token !in m.sys.tokens || m.sys.tokens[token] == 0;
            var row := Files.LatestRow(m.log, id);
            && AnswerTo(sha, m, request, fd, env)
               == (if stranger || id !in m.sys.db.files then FileDownloadResponse(File("", []), "")
                   else if id !in m.sys.disk || !env.openOk then FileDownloadResponse(File("", []), row.hash)
                   else FileDownloadResponse(File(row.name, m.sys.disk[id]), row.hash))
            && Next(sha, m, Arrive(request, fd, env)).sys == m.sys
  {
    Files.Reached(sha, m);
  }

  /** What a fetch is answered: the numbered message its sender sent to the contact, or the one with id -1. */
  lemma FetchAnswer(sha: string -> string, m: State, token: string, contact: int, k: int, fd: int, env: Env)
    requires Reachable(sha, m)
    ensures var request := ContactMessageRequest(token, contact, k);
            var uid := if token == "" || token !in m.sys.tokens then 0 else m.sys.tokens[token];
            var c := Conversation(m.sys.db.messages, uid, contact);
            && AnswerTo(sha, m, request, fd, env)
               == ContactMessageResponse(if 1 <= k <= |c| then c[k - 1] else Message(RawMessage(0, 0, 0, ""), -1, 0, 0))
            && Next(sha, m, Arrive(request, fd, env)).sys == m.sys
  {
    ReachableReplays(sha, m);
    GetMessageExact(m.sys.db.messages, UserOf(m.sys.tokens, token), contact, k);
  }
}
