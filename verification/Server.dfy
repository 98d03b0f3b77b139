/**
 The server object: the request switch, the callbacks and the sender threads, working in
 place on the database, the disk and the pools, and each proved to be the step of the state
 machine of the same name.
 */
module ChatServer {
  import opened Sequences
  import opened Crypto
  import opened Protocol
  import opened Store
  import opened Channels
  import opened Handlers
  import opened Database
  import opened Storage
  import opened UserManager
  import Machine

  class Server {
    const db: DataAccess
    const disk: Disk
    const um: UM

    ghost predicate Valid()
      reads this, db, um`senders, um`channels, um.senders.Values, um.Queues()
    {
      db.Valid() && um.Valid()
    }

    /** The whole state as a value. */
    ghost function State(): Sys
      reads this, db, disk, um
    {
      Sys(db.View(), disk.files, um.challengePool, um.tokenPool, um.fileMsgPool, um.channels)
    }

    /** A start, the first or a later one: of an earlier process only database and disk are left. */
    constructor (stored: Option<Db>, files: map<string, seq<Byte>>, ghost before: Sys)
      requires before.db == (if stored.Some? then stored.value else EMPTY_DB) && before.disk == files && DbOk(before.db)
      ensures Valid() && fresh(db) && fresh(disk) && fresh(um)
      ensures State() == Machine.Reboot(before)
    {
      db := new DataAccess(stored);
      disk := new Disk(files);
      um := new UM();
      new;
    }

    // ----- request handlers, up to the reply

    method Register(sha: string -> string, username: string, password: string, env: Env)
      returns (reply: Reply, callback: Callback)
      requires Valid()
      modifies db
      ensures Valid()
      ensures var o := Handlers.Register(sha, old(State()), username, password, env);
              State() == o.sys && reply == o.reply && callback == o.callback
    {
      var success := true;
      if |username| < 3 || |username| > 32 {
        success := false;
      }
      if |password| < 6 || |password| > 32 {
        success := false;
      }
      if success {
        success := db.CreateUser(username, sha(password), env.rowOk);
      }
      return RegisterResponse(success), NoCallback;
    }

    method LoginPre(username: string, env: Env) returns (reply: Reply, callback: Callback)
      requires Valid()
      modifies um`challengePool
      ensures Valid()
      ensures var o := Handlers.LoginPre(old(State()), username, env);
              State() == o.sys && reply == o.reply && callback == o.callback
    {
      callback := NoCallback;
      var user := db.GetUserByName(username);
      if user.None? {
        reply := LoginPreResponse("");
      } else {
        um.SetChallengeMp(user.value.id, env.challenge);
        reply := LoginPreResponse(env.challenge);
      }
    }

    method Login(sha: string -> string, username: string, hash: string, env: Env)
      returns (reply: Reply, callback: Callback)
      requires Valid()
      modifies um`challengePool, um`tokenPool
      ensures Valid()
      ensures var o := Handlers.Login(sha, old(State()), username, hash, env);
              State() == o.sys && reply == o.reply && callback == o.callback
    {
      callback := NoCallback;
      var found := db.GetUserByName(username);
      if found.None? {
        return LoginResponse(false, -1, "illegal user"), NoCallback;
      }
      var user := found.value;
      var challenge := um.GetChallengeMp(user.id);
      if sha(user.password + challenge) == hash {
        reply := LoginResponse(true, user.id, env.uuid);
        um.SetUserIdByToken(env.uuid, user.id);
      } else {
        reply := LoginResponse(false, -1, "wrong password");
      }
      um.DelChallengeMp(user.id);
    }

    method SetupChannel(token: string, fd: int) returns (reply: Reply, callback: Callback)
      ensures var o := Handlers.SetupChannel(State(), token, fd);
              State() == o.sys && reply == o.reply && callback == o.callback
    {
      var uid := um.GetUserIdByToken(token);
      return ServerAckResponse, SetupCallback(uid, fd);
    }

    /** Registers the file of a file message and picks the callback. */
    method AnswerSend(m: Message, env: Env) returns (reply: Reply, callback: Callback)
      requires Valid()
      modifies db`files
      ensures Valid()
      ensures var o := Handlers.AnswerSend(old(State()), m, env);
              State() == o.sys && reply == o.reply && callback == o.callback
    {
      var replyMsg := m;
      if m.raw.kind == IMAGE || m.raw.kind == FILE {
        var fileId := db.CreateFile(env.uuid, env.fileOk);
        if fileId.None? {
          return SendMessageResponse(NO_MESSAGE), NoCallback;
        }
        replyMsg := replyMsg.(raw := replyMsg.raw.(content := fileId.value));
        callback := DeferCallback(fileId.value, m.raw.to, replyMsg);
      } else {
        callback := NotifyCallback(m.raw.to, replyMsg);
      }
      reply := SendMessageResponse(replyMsg);
    }

    method SendMessage(token: string, raw: RawMessage, env: Env) returns (reply: Reply, callback: Callback)
      requires Valid()
      modifies db
      ensures Valid()
      ensures var o := Handlers.SendMessage(old(State()), token, raw, env);
              State() == o.sys && reply == o.reply && callback == o.callback
    {
      reply, callback := SendMessageResponse(NO_MESSAGE), NoCallback;
      var uid := um.GetUserIdByToken(token);
      if uid != raw.from {
        return;
      }
      var receiver := db.GetUserById(raw.to);
      if receiver.None? {
        return;
      }
      var created := db.CreateMsgByRawMsg(raw, env.now, env.rowOk);
      if created.Some? {
        reply, callback := AnswerSend(created.value, env);
      }
    }

    /** Writes the bytes unless there are some already. */
    method SaveOnce(storage: FileStorage, file: File, save: SaveResult) returns (saved: bool)
      modifies disk
      ensures saved <==> storage.id !in old(disk.files) && save.Saves?
      ensures disk.files == if storage.id in old(disk.files) then old(disk.files)
                            else SaveToDisk(old(disk.files), storage.id, file.content, save)
    {
      saved := false;
      var onDisk := storage.CheckDiskExistence(disk);
      if !onDisk {
        saved := storage.SaveToDisk(disk, file, save);
      }
    }

    /** Saves the bytes once, and records name and hash either way. */
    method StoreUpload(id: string, row: FileRow, file: File, hash: string, env: Env)
      returns (reply: Reply, callback: Callback)
      requires Valid()
      modifies db`files, disk
      ensures Valid()
      ensures var o := Handlers.StoreUpload(old(State()), id, file, hash, env);
              State() == o.sys && reply == o.reply && callback == o.callback
    {
      var storage := new FileStorage(id, row.name, row.hash);
      storage.SetHash(hash);
      storage.SetName(file.name);
      var success := SaveOnce(storage, file, env.save);
      var updated := db.UpdateFile(id, FileRow(storage.name, storage.hash), env.updateOk);
      if !updated {
        return FileUploadResponse(false), NoCallback;
      }
      callback := if success then UploadCallback(id) else NoCallback;
      reply := FileUploadResponse(success);
    }

    method FileUpload(token: string, id: string, file: File, hash: string, env: Env)
      returns (reply: Reply, callback: Callback)
      requires Valid()
      modifies db`files, disk
      ensures Valid()
      ensures var o := Handlers.FileUpload(old(State()), token, id, file, hash, env);
              State() == o.sys && reply == o.reply && callback == o.callback
    {
      reply, callback := FileUploadResponse(false), NoCallback;
      var uid := um.GetUserIdByToken(token);
      if uid == 0 {
        return;
      }
      var row := db.GetFile(id);
      if row.Some? {
        reply, callback := StoreUpload(id, row.value, file, hash, env);
      }
    }

    method FileDownload(token: string, id: string, env: Env) returns (reply: Reply, callback: Callback)
      modifies disk`ready
      ensures var o := Handlers.FileDownload(State(), token, id, env);
              State() == o.sys && reply == o.reply && callback == o.callback
      ensures State() == old(State())
    {
      callback := NoCallback;
      var uid := um.GetUserIdByToken(token);
      if uid == 0 {
        return FileDownloadResponse(File("", []), ""), NoCallback;
      }
      var row := db.GetFile(id);
      if row.None? {
        return FileDownloadResponse(File("", []), ""), NoCallback;
      }
      var storage := new FileStorage(id, row.value.name, row.value.hash);
      var onDisk := storage.CheckDiskExistence(disk);
      var file := None;
      if onDisk {
        file := storage.LoadIntoProto(disk, env.openOk);
      }
      if file.None? {
        return FileDownloadResponse(File("", []), storage.hash), NoCallback;
      }
      reply := FileDownloadResponse(file.value, storage.hash);
    }

    method ContactMessage(token: string, contact: int, internalId: int) returns (reply: Reply, callback: Callback)
      requires Valid()
      ensures var o := Handlers.ContactMessage(State(), token, contact, internalId);
              State() == o.sys && reply == o.reply && callback == o.callback
    {
      var uid := um.GetUserIdByToken(token);
      var m := db.GetMessage(uid, contact, internalId);
      if m.None? {
        return ContactMessageResponse(NO_MESSAGE), NoCallback;
      }
      return ContactMessageResponse(m.value), NoCallback;
    }

    method Handle(sha: string -> string, request: Request, fd: int, env: Env) returns (reply: Reply, callback: Callback)
      requires Valid()
      modifies db, disk, um`challengePool, um`tokenPool
      ensures Valid()
      ensures var o := Handlers.Handle(sha, old(State()), request, fd, env);
              State() == o.sys && reply == o.reply && callback == o.callback
    {
      match request {
        case ServerStatusRequest => reply, callback := ServerStatusResponse(true, true), NoCallback;
        case ServerStatusUpdateRequest => reply, callback := ServerStatusUpdateResponse(true, true), NoCallback;
        case Ignored => reply, callback := NoReply, NoCallback;
        case RegisterRequest(username, password) => reply, callback := Register(sha, username, password, env);
        case LoginPreRequest(username) => reply, callback := LoginPre(username, env);
        case LoginRequest(username, hash) => reply, callback := Login(sha, username, hash, env);
        case SetupChannelRequest(token) => reply, callback := SetupChannel(token, fd);
        case SendMessageRequest(token, raw) => reply, callback := SendMessage(token, raw, env);
        case FileUploadRequest(token, id, file, hash) => reply, callback := FileUpload(token, id, file, hash, env);
        case FileDownloadRequest(token, id) => reply, callback := FileDownload(token, id, env);
        case ContactMessageRequest(token, contact, k) => reply, callback := ContactMessage(token, contact, k);
      }
    }

    // ----- callbacks

    /** Builds the contact list: one entry and one count for every user, in the order listed. */
    method ListContacts(uid: int) returns (list: Packet, users: seq<User>)
      ensures multiset(users) == multiset(db.users)
      ensures list == ContactList(users, db.messages, uid)
    {
      users := db.GetAllUsers();
      var contacts: seq<Contact> := [];
      var internalIds: seq<int> := [];
      for i := 0 to |users|
        invariant |contacts| == |internalIds| == i
        invariant forall j :: 0 <= j < i ==> contacts[j] == Contact(users[j].id, users[j].username)
        invariant forall j :: 0 <= j < i ==> internalIds[j] == |Conversation(db.messages, uid, users[j].id)|
      {
        contacts := contacts + [Contact(users[i].id, users[i].username)];
        var msgs := db.GetAllMessages(uid, users[i].id);
        internalIds := internalIds + [|msgs|];
      }
      list := ContactListRequest(contacts, internalIds);
      assert contacts == ContactList(users, db.messages, uid).contacts;
      assert internalIds == ContactList(users, db.messages, uid).internalIds;
    }

    method PushContactList(uid: int) returns (users: seq<User>)
      requires Valid()
      modifies um`channels, um.Queues()
      ensures Valid()
      ensures multiset(users) == multiset(db.users)
      ensures State() == PushTo(old(State()), uid, ContactList(users, db.messages, uid))
    {
      var list;
      list, users := ListContacts(uid);
      var sender := um.GetSender(uid);
      if sender != null {
        um.AddSendTask(uid, list);
      }
    }

    method RunSetup(uid: int, fd: int) returns (users: seq<User>)
      requires Valid()
      modifies um`senders, um`channels, um.senders.Values, um.Queues()
      ensures Valid() && SendersKept(old(um.senders), um.senders)
      ensures multiset(users) == multiset(db.users)
      ensures State() == Handlers.RunSetup(old(State()), uid, fd, users).0
    {
      um.SetKpAliveSender(uid, fd);
      ghost var reconnected := State();
      assert reconnected == old(State()).(channels := Reconnect(old(um.channels), uid, fd));
      users := PushContactList(uid);
      assert State() == PushTo(reconnected, uid, ContactList(users, db.messages, uid));
    }

    method RunNotify(receiver: int, m: Message)
      requires Valid()
      modifies um`channels, um.Queues()
      ensures Valid()
      ensures State() == Handlers.RunNotify(old(State()), receiver, m).0
    {
      var online := um.IsOnline(receiver);
      if !online {
        return;
      }
      var sender := um.GetSender(receiver);
      if sender != null {
        um.AddSendTask(receiver, ContactMessageListRequest([m]));
      }
    }

    method RunDefer(id: string, receiver: int, m: Message)
      requires Valid()
      modifies um`fileMsgPool
      ensures Valid()
      ensures State() == Handlers.RunDefer(old(State()), id, receiver, m).0
    {
      um.SetFileMsg(id, receiver, m);
    }

    method RunUpload(id: string)
      requires Valid()
      modifies um`fileMsgPool, um`channels, um.Queues()
      ensures Valid()
      ensures State() == Handlers.RunUpload(old(State()), id).0
    {
      var uid, m := um.GetFileMsg(id);
      if uid == 0 {
        return;
      }
      um.DelFileMsg(id);
      var sender := um.GetSender(uid);
      if sender == null {
        return;
      }
      um.AddSendTask(uid, ContactMessageListRequest([m]));
    }

    method RunCallback(callback: Callback) returns (users: seq<User>)
      requires Valid()
      modifies um, um.senders.Values, um.Queues()
      ensures Valid() && SendersKept(old(um.senders), um.senders)
      ensures multiset(users) == multiset(db.users)
      ensures State() == Handlers.RunCallback(old(State()), callback, users).0
    {
      users := db.users;
      match callback {
        case NoCallback =>
        case SetupCallback(uid, fd) => users := RunSetup(uid, fd);
        case NotifyCallback(receiver, m) => RunNotify(receiver, m);
        case DeferCallback(id, receiver, m) => RunDefer(id, receiver, m);
        case UploadCallback(id) => RunUpload(id);
      }
    }

    /**
     A whole request, uninterrupted: the callback runs only if there is a reply and it could
     be sent; a reply that could not be sent closes the descriptor.
     */
    method ProcessRecvSocket(sha: string -> string, request: Request, fd: int, env: Env, sent: bool)
      returns (reply: Reply, users: seq<User>, closed: bool)
      requires Valid()
      modifies db, disk, um, um.senders.Values, um.Queues()
      ensures Valid() && SendersKept(old(um.senders), um.senders)
      ensures var o := Handlers.Handle(sha, old(State()), request, fd, env);
              && reply == o.reply && multiset(users) == multiset(db.users)
              && State() == (if o.reply.NoReply? || !sent then o.sys
                             else Handlers.RunCallback(o.sys, o.callback, users).0)
              && (closed <==> !o.reply.NoReply? && !sent)
    {
      closed := false;
      var callback;
      reply, callback := Handle(sha, request, fd, env);
      users := db.users;
      if reply.NoReply? {
        return;
      }
      if !sent {
        closed := true;
        return;
      }
      users := RunCallback(callback);
    }

    // ----- sender threads

    method TakeNext(uid: int)
      requires Valid() && uid in um.senders
      modifies um`channels, um.senders[uid], um.senders[uid].msgQueue
      ensures Valid() && State() == Machine.Apply(old(State()), Took(uid))
    {
      um.TakeNext(uid);
    }

    /** `closes` are the descriptors that are closed, in order. */
    method SendHeld(uid: int, sent: bool, acked: bool) returns (closes: seq<int>)
      requires Valid() && uid in um.senders
      modifies um`channels, um.senders[uid]
      ensures Valid() && State() == Machine.Apply(old(State()), Sent(uid, sent, acked))
      ensures um.senders == old(um.senders)
      ensures closes == if old(um.senders[uid].hand).None? then [] else
                        Attempt(um.senders[uid].fd, old(um.senders[uid].hand).value, sent, acked).Closes()
    {
      closes := um.SendHeld(uid, sent, acked);
    }
  }
}
