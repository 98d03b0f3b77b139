/**
 The request handlers and callbacks of the server as functions on its whole state. A handler
 runs up to its reply; its callback runs later, and only if the reply could be sent.
 */
module Handlers {
  import opened Sequences
  import opened Crypto
  import opened Protocol
  import opened Store
  import opened Channels

  /** A file message that waits for its file. */
  datatype Deferred = Deferred(receiver: int, message: Message)

  datatype Sys = Sys(
    db: Db,
    disk: map<string, seq<Byte>>,
    challenges: map<int, string>,
    tokens: map<string, int>,
    deferred: map<string, Deferred>,
    channels: map<int, Channel>)

  datatype SaveResult = OpenFails | WriteFails(written: nat) | Saves

  /** What a handler draws from outside: the clock, statement and disk failures, fresh values. */
  datatype Env = Env(
    now: int, rowOk: bool, fileOk: bool, updateOk: bool, openOk: bool,
    uuid: string, challenge: string, save: SaveResult)

  datatype Callback =
    | NoCallback
    | SetupCallback(uid: int, fd: int)
    | NotifyCallback(receiver: int, message: Message)
    | DeferCallback(fileId: string, receiver: int, message: Message)
    | UploadCallback(fileId: string)

  /** What a step did, in enough detail to redo it. */
  datatype Event =
    | Quiet
    | Registered(user: User)
    | Issued(uid: int, challenge: string)
    | Compared(uid: int, challenge: string, hash: string, token: string, matched: bool)
    | Stored(row: Message, fileId: Option<string>)
    | Uploaded(id: string, written: Option<seq<Byte>>, saved: bool, fileRow: Option<FileRow>)
    | DeferredUntilUpload(id: string, receiver: int, message: Message)
    | Notified(receiver: int, message: Message, uploadOf: Option<string>)
    | Undelivered(id: string)
    | ChannelSet(uid: int, fd: int, list: Packet)
    | Took(uid: int)
    | Sent(uid: int, sent: bool, acked: bool)
    | Restarted

  datatype Outcome = Outcome(sys: Sys, reply: Reply, callback: Callback, event: Event)

  // ----- pools

  /** Unknown tokens, and the empty one, belong to user 0. */
  function UserOf(tokens: map<string, int>, token: string): int {
    if token == "" || token !in tokens then 0 else tokens[token]
  }

  function ChallengeOf(challenges: map<int, string>, uid: int): string {
    if uid in challenges then challenges[uid] else ""
  }

  /** User 0 never has a sender, even if there is a channel in its name. */
  predicate HasSender(s: Sys, uid: int) {
    uid != 0 && uid in s.channels
  }

  function PushTo(s: Sys, uid: int, p: Packet): Sys {
    if HasSender(s, uid) then s.(channels := s.channels[uid := s.channels[uid].Push(p)]) else s
  }

  // ----- handlers

  function Register(sha: string -> string, s: Sys, username: string, password: string, env: Env): Outcome {
    if !(3 <= |username| <= 32) || !(6 <= |password| <= 32) then
      Outcome(s, RegisterResponse(false), NoCallback, Quiet)
    else
      var (db, ok) := CreateUser(s.db, username, sha(password), env.rowOk);
      Outcome(s.(db := db), RegisterResponse(ok), NoCallback,
              if ok then Registered(User(db.lastUser, username, sha(password))) else Quiet)
  }

  function LoginPre(s: Sys, username: string, env: Env): Outcome {
    match FindName(s.db.users, username)
    case None => Outcome(s, LoginPreResponse(""), NoCallback, Quiet)
    case Some(u) =>
      Outcome(s.(challenges := s.challenges[u.id := env.challenge]), LoginPreResponse(env.challenge),
              NoCallback, Issued(u.id, env.challenge))
  }

  function Login(sha: string -> string, s: Sys, username: string, hash: string, env: Env): Outcome {
    match FindName(s.db.users, username)
    case None => Outcome(s, LoginResponse(false, -1, "illegal user"), NoCallback, Quiet)
    case Some(u) =>
      var challenge := ChallengeOf(s.challenges, u.id);
      var matched := sha(u.password + challenge) == hash;
      var tokens := if matched then s.tokens[env.uuid := u.id] else s.tokens;
      Outcome(s.(tokens := tokens, challenges := s.challenges - {u.id}),
              if matched then LoginResponse(true, u.id, env.uuid) else LoginResponse(false, -1, "wrong password"),
              NoCallback, Compared(u.id, challenge, hash, env.uuid, matched))
  }

  function SetupChannel(s: Sys, token: string, fd: int): Outcome {
    Outcome(s, ServerAckResponse, SetupCallback(UserOf(s.tokens, token), fd), Quiet)
  }

  function SendRefused(s: Sys, event: Event): Outcome {
    Outcome(s, SendMessageResponse(NO_MESSAGE), NoCallback, event)
  }

  /** Answers a stored message; a file id goes into the reply only, not back into the row. */
  function AnswerSend(s: Sys, m: Message, env: Env): Outcome {
    if IsFileKind(m.raw.kind) then
      var (db, fileId) := CreateFile(s.db, env.uuid, env.fileOk);
      match fileId
      case None => SendRefused(s.(db := db), Stored(m, None))
      case Some(id) =>
        var reply := m.(raw := m.raw.(content := id));
        Outcome(s.(db := db), SendMessageResponse(reply), DeferCallback(id, m.raw.to, reply), Stored(m, Some(id)))
    else
      Outcome(s, SendMessageResponse(m), NotifyCallback(m.raw.to, m), Stored(m, None))
  }

  function SendMessage(s: Sys, token: string, raw: RawMessage, env: Env): Outcome {
    if UserOf(s.tokens, token) != raw.from then SendRefused(s, Quiet)
    else if FindUser(s.db.users, raw.to).None? then SendRefused(s, Quiet)
    else
      var (db, created) := CreateMsgByRawMsg(s.db, raw, env.now, env.rowOk);
      match created
      case None => SendRefused(s.(db := db), Quiet)
      case Some(m) => AnswerSend(s.(db := db), m, env)
  }

  /** What a save leaves on disk: opening truncates, and a failed write may stop anywhere. */
  function SaveToDisk(disk: map<string, seq<Byte>>, id: string, content: seq<Byte>, save: SaveResult)
    : map<string, seq<Byte>>
  {
    match save
    case OpenFails => disk
    case WriteFails(n) => disk[id := if n < |content| then content[..n] else content]
    case Saves => disk[id := content]
  }

  /** A second upload saves nothing and is refused, but its name and hash are recorded. */
  function StoreUpload(s: Sys, id: string, file: File, hash: string, env: Env): Outcome {
    var unsaved := id !in s.disk;
    var disk := if unsaved then SaveToDisk(s.disk, id, file.content, env.save) else s.disk;
    var saved := unsaved && env.save.Saves?;
    var row := FileRow(file.name, hash);
    var (db, updated) := UpdateFile(s.db, id, row, env.updateOk);
    Outcome(s.(disk := disk, db := db), FileUploadResponse(updated && saved),
            if updated && saved then UploadCallback(id) else NoCallback,
            Uploaded(id, if unsaved && id in disk then Some(disk[id]) else None, saved,
                     if updated then Some(row) else None))
  }

  function FileUpload(s: Sys, token: string, id: string, file: File, hash: string, env: Env): Outcome {
    if UserOf(s.tokens, token) == 0 then Outcome(s, FileUploadResponse(false), NoCallback, Quiet)
    else if id !in s.db.files then Outcome(s, FileUploadResponse(false), NoCallback, Quiet)
    else StoreUpload(s, id, file, hash, env)
  }

  function FileDownload(s: Sys, token: string, id: string, env: Env): Outcome {
    var reply :=
      if UserOf(s.tokens, token) == 0 || id !in s.db.files then FileDownloadResponse(File("", []), "")
      else if id in s.disk && env.openOk then
        FileDownloadResponse(File(s.db.files[id].name, s.disk[id]), s.db.files[id].hash)
      else FileDownloadResponse(File("", []), s.db.files[id].hash);
    Outcome(s, reply, NoCallback, Quiet)
  }

  function ContactMessage(s: Sys, token: string, contact: int, k: int): Outcome {
    var found := GetMessage(s.db.messages, UserOf(s.tokens, token), contact, k);
    Outcome(s, ContactMessageResponse(if found.Some? then found.value else NO_MESSAGE), NoCallback, Quiet)
  }

  function Handle(sha: string -> string, s: Sys, request: Request, fd: int, env: Env): Outcome {
    match request
    case ServerStatusRequest => Outcome(s, ServerStatusResponse(true, true), NoCallback, Quiet)
    case ServerStatusUpdateRequest => Outcome(s, ServerStatusUpdateResponse(true, true), NoCallback, Quiet)
    case Ignored => Outcome(s, NoReply, NoCallback, Quiet)
    case RegisterRequest(username, password) => Register(sha, s, username, password, env)
    case LoginPreRequest(username) => LoginPre(s, username, env)
    case LoginRequest(username, hash) => Login(sha, s, username, hash, env)
    case SetupChannelRequest(token) => SetupChannel(s, token, fd)
    case SendMessageRequest(token, raw) => SendMessage(s, token, raw, env)
    case FileUploadRequest(token, id, file, hash) => FileUpload(s, token, id, file, hash, env)
    case FileDownloadRequest(token, id) => FileDownload(s, token, id, env)
    case ContactMessageRequest(token, contact, k) => ContactMessage(s, token, contact, k)
  }

  // ----- callbacks

  /** The contact list for `uid`: every user, with the number of messages `uid` sent to them. */
  function ContactList(users: seq<User>, messages: seq<Message>, uid: int): Packet {
    ContactListRequest(
      seq(|users|, i requires 0 <= i < |users| => Contact(users[i].id, users[i].username)),
      seq(|users|, i requires 0 <= i < |users| => |Conversation(messages, uid, users[i].id)|))
  }

  function Reconnect(channels: map<int, Channel>, uid: int, fd: int): map<int, Channel> {
    channels[uid := if uid in channels then channels[uid].SetFd(fd).Clear() else Open(fd)]
  }

  /** `users` is the user table in the order in which the database lists it. */
  function RunSetup(s: Sys, uid: int, fd: int, users: seq<User>): (Sys, Event) {
    var list := ContactList(users, s.db.messages, uid);
    (PushTo(s.(channels := Reconnect(s.channels, uid, fd)), uid, list), ChannelSet(uid, fd, list))
  }

  function RunNotify(s: Sys, receiver: int, m: Message): (Sys, Event) {
    if HasSender(s, receiver)
    then (PushTo(s, receiver, ContactMessageListRequest([m])), Notified(receiver, m, None))
    else (s, Quiet)
  }

  function RunDefer(s: Sys, id: string, receiver: int, m: Message): (Sys, Event) {
    (s.(deferred := s.deferred[id := Deferred(receiver, m)]), DeferredUntilUpload(id, receiver, m))
  }

  function RunUpload(s: Sys, id: string): (Sys, Event) {
    if id !in s.deferred || s.deferred[id].receiver == 0 then (s, Quiet)
    else
      var d := s.deferred[id];
      var s' := s.(deferred := s.deferred - {id});
      if HasSender(s, d.receiver)
      then (PushTo(s', d.receiver, ContactMessageListRequest([d.message])), Notified(d.receiver, d.message, Some(id)))
      else (s', Undelivered(id))
  }

  function RunCallback(s: Sys, callback: Callback, users: seq<User>): (Sys, Event) {
    match callback
    case NoCallback => (s, Quiet)
    case SetupCallback(uid, fd) => RunSetup(s, uid, fd, users)
    case NotifyCallback(receiver, m) => RunNotify(s, receiver, m)
    case DeferCallback(id, receiver, m) => RunDefer(s, id, receiver, m)
    case UploadCallback(id) => RunUpload(s, id)
  }
}
