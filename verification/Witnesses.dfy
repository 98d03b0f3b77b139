/** Concrete runs behind the surprising results: for each, an input that shows it happens. */
module Witnesses {
  import opened Sequences
  import opened Crypto
  import opened Protocol
  import opened Store
  import opened Handlers
  import opened Machine
  import Files
  import Notifications

  const PICTURE := RawMessage(1, 1, IMAGE, "cat.png")

  // Everything works; the next id drawn is "file".
  const GOOD := Env(0, true, true, true, true, "file", "", Saves)

  /** One registered user who is logged in with "token"; nothing else has happened. */
  ghost predicate LoggedIn(sha: string -> string, m: State) {
    && Reachable(sha, m) && UserOf(m.sys.tokens, "token") == 1
    && m.sys.db == EMPTY_DB.(users := [User(1, "alice", sha("secret"))], lastUser := 1)
    && m.sys.disk == map[] && m.sys.deferred == map[]
    && forall i :: 0 <= i < |m.log| ==> !m.log[i].Uploaded?
  }

  lemma ReachableStep(sha: string -> string, m: State, step: Step)
    requires Reachable(sha, m)
    ensures Reachable(sha, Next(sha, m, step))
  {
    LeadsStep(sha, m, step);
    LeadsOn(sha, INIT, m, Next(sha, m, step));
  }

  lemma LogIn(sha: string -> string) returns (m: State)
    ensures LoggedIn(sha, m)
  {
    var register := Arrive(RegisterRequest("alice", "secret"), 0, GOOD);
    var login := Arrive(LoginRequest("alice", sha(sha("secret") + "")), 0, GOOD.(uuid := "token"));
    assert INIT == Run(sha, INIT, []);
    ReachableStep(sha, INIT, register);
    var m1 := Next(sha, INIT, register);
    assert m1.sys.db == EMPTY_DB.(users := [User(1, "alice", sha("secret"))], lastUser := 1);
    ReachableStep(sha, m1, login);
    m := Next(sha, m1, login);
    assert FindName(m1.sys.db.users, "alice") == Some(User(1, "alice", sha("secret")));
  }

  /** The user has sent a picture to herself, and nothing has been uploaded or pooled yet. */
  ghost predicate PictureSent(sha: string -> string, m: State, t: nat) {
    && Reachable(sha, m) && UserOf(m.sys.tokens, "token") == 1 && FindUser(m.sys.db.users, 1).Some?
    && m.sys.db.messages == [Message(PICTURE, 1, 0, 1)] && m.sys.db.files == map["file" := FileRow("", "")]
    && m.sys.disk == map[] && m.sys.deferred == map[] && t < m.next && t in m.flights
    && m.flights[t].status == Replying
    && m.flights[t].callback == DeferCallback("file", 1, Message(PICTURE.(content := "file"), 1, 0, 1))
    && forall i :: 0 <= i < |m.log| ==> !m.log[i].Uploaded?
  }

  lemma FirstMessage(db: Db, raw: RawMessage, now: int)
    requires db.messages == [] && db.lastMessage == 0
    ensures CreateMsgByRawMsg(db, raw, now, true).1 == Some(Message(raw, 1, now, 1))
  {
    assert Conversation([], raw.from, raw.to) == [];
  }

  lemma SendPicture(sha: string -> string) returns (m0: State, m: State, t: nat)
    ensures LoggedIn(sha, m0) && PictureSent(sha, m, t)
    ensures m == Next(sha, m0, Arrive(SendMessageRequest("token", PICTURE), 0, GOOD))
  {
    m0 := LogIn(sha);
    var send := Arrive(SendMessageRequest("token", PICTURE), 0, GOOD);
    assert FindUser(m0.sys.db.users, 1) == Some(User(1, "alice", sha("secret")));
    FirstMessage(m0.sys.db, PICTURE, 0);
    ReachableStep(sha, m0, send);
    m, t := Next(sha, m0, send), m0.next;
    assert [] + [Message(PICTURE, 1, 0, 1)] == [Message(PICTURE, 1, 0, 1)];
    assert m.log[|m0.log|].Stored?;
  }

  /** A send is answered with failure, but its row is there, and takes number 1. */
  lemma FailedSendLeavesRow(sha: string -> string) returns (m: State, m': State)
    ensures Reachable(sha, m) && Reachable(sha, m')
    ensures m' == Next(sha, m, Arrive(SendMessageRequest("token", PICTURE), 0, GOOD.(fileOk := false)))
    ensures SendMessage(m.sys, "token", PICTURE, GOOD.(fileOk := false)).reply.message == NO_MESSAGE
    ensures m.sys.db.messages == [] && m'.sys.db.messages == [Message(PICTURE, 1, 0, 1)]
  {
    m := LogIn(sha);
    var send := Arrive(SendMessageRequest("token", PICTURE), 0, GOOD.(fileOk := false));
    assert FindUser(m.sys.db.users, 1) == Some(User(1, "alice", sha("secret")));
    FirstMessage(m.sys.db, PICTURE, 0);
    ReachableStep(sha, m, send);
    m' := Next(sha, m, send);
    assert [] + [Message(PICTURE, 1, 0, 1)] == [Message(PICTURE, 1, 0, 1)];
  }

  /** The answer to a file message names the file; the stored message still names what was sent. */
  lemma AnswerDiffersFromRow(sha: string -> string) returns (m: State, m': State)
    ensures Reachable(sha, m) && m' == Next(sha, m, Arrive(SendMessageRequest("token", PICTURE), 0, GOOD))
    ensures SendMessage(m.sys, "token", PICTURE, GOOD).reply.message.raw.content == "file"
    ensures ContactMessage(m'.sys, "token", 1, 1).reply.message.raw.content == "cat.png"
  {
    var t;
    m, m', t := SendPicture(sha);
    assert m'.flights[t].callback.message.raw.content == "file";
    ReachableReplays(sha, m');
    FoundUnderNumber(m'.sys.db.messages, m'.sys.db.messages[0]);
  }

  lemma UploadPicture(sha: string -> string, m: State, t: nat, file: File, hash: string, save: SaveResult)
    returns (m': State)
    requires PictureSent(sha, m, t)
    ensures Reachable(sha, m') && m'.sys.tokens == m.sys.tokens && m'.sys.deferred == map[]
    ensures m'.sys.disk == SaveToDisk(map[], "file", file.content, save)
    ensures m'.sys.db.files == map["file" := FileRow(file.name, hash)]
    ensures m'.flights == m.flights[m.next :=
                            Flight(FileUploadRequest("token", "file", file, hash), FileUploadResponse(save.Saves?),
                                   if save.Saves? then UploadCallback("file") else NoCallback, Replying)]
    ensures forall i :: 0 <= i < |m'.log| && m'.log[i].Uploaded? && m'.log[i].saved ==> save.Saves?
  {
    var upload := Arrive(FileUploadRequest("token", "file", file, hash), 0, GOOD.(save := save));
    ReachableStep(sha, m, upload);
    m' := Next(sha, m, upload);
  }

  ghost predicate RefusesUploads(s: Sys, id: string) {
    forall token, file, hash, env :: FileUpload(s, token, id, file, hash, env).reply == FileUploadResponse(false)
  }

  lemma OccupiedRefuses(sha: string -> string, m: State, m': State, id: string)
    requires Reachable(sha, m) && id in m.sys.disk && Leads(sha, m, m')
    ensures RefusesUploads(m'.sys, id)
  {
    forall token, file, hash, env
      ensures FileUpload(m'.sys, token, id, file, hash, env).reply == FileUploadResponse(false)
    {
      Files.WrittenOnceRefusedEver(sha, m, id, m', token, file, hash, env);
    }
  }

  /** A write stops after one byte of two: this byte stays for good, and no upload succeeds any more. */
  lemma HalfWriteOccupies(sha: string -> string) returns (m: State)
    ensures Reachable(sha, m) && "file" in m.sys.db.files && m.sys.disk == map["file" := [1]]
    ensures forall i :: 0 <= i < |m.log| ==> !Files.Saves(m.log[i], "file")
    ensures forall m' :: Leads(sha, m, m') ==> RefusesUploads(m'.sys, "file")
  {
    var m0, m1, t := SendPicture(sha);
    m := UploadPicture(sha, m1, t, File("cat.png", [1, 2]), "", WriteFails(1));
    assert m.sys.disk == map["file" := [1]] by {
      assert [1, 2][..1] == [1];
    }
    forall m' | Leads(sha, m, m') ensures RefusesUploads(m'.sys, "file") {
      OccupiedRefuses(sha, m, m', "file");
    }
  }

  /** The picture is uploaded while the callback of its message still has to run. */
  ghost predicate UploadAnswered(sha: string -> string, m: State, t: nat, u: nat) {
    && Reachable(sha, m) && t in m.flights && u in m.flights && t != u
    && m.flights[t].status == ReplySent && m.flights[u].status == ReplySent
    && m.flights[t].callback.DeferCallback? && m.flights[t].callback.fileId == "file"
    && m.flights[u].callback == UploadCallback("file")
    && m.sys.deferred == map[] && "file" in m.sys.disk
  }

  lemma UploadFirst(sha: string -> string) returns (m: State, t: nat, u: nat)
    ensures UploadAnswered(sha, m, t, u)
  {
    var m0, m1;
    m0, m1, t := SendPicture(sha);
    u := m1.next;
    var m2 := UploadPicture(sha, m1, t, File("cat.png", [1, 2]), "", Saves);
    var m3 := Next(sha, m2, Reply(t, true));
    m := Next(sha, m3, Reply(u, true));
    ReachableStep(sha, m2, Reply(t, true));
    ReachableStep(sha, m3, Reply(u, true));
  }

  ghost predicate NeverAnnounced(log: seq<Event>, id: string) {
    forall i :: 0 <= i < |log| && log[i].Notified? ==> log[i].uploadOf != Some(id)
  }

  /**
   The missed announcement: the callback of the upload runs before that of the message, which
   is pooled right after it. The file is on disk and its message in the pool, but whatever
   happens later, nobody is ever told.
   */
  lemma AnnouncementMissed(sha: string -> string) returns (m: State)
    ensures Reachable(sha, m) && "file" in m.sys.disk && "file" in m.sys.deferred
    ensures forall m' :: Leads(sha, m, m') ==> NeverAnnounced(m'.log, "file")
  {
    var m0, t, u := UploadFirst(sha);
    var users := m0.sys.db.users;
    var m1 := Next(sha, m0, Call(u, users));
    m := Next(sha, m1, Call(t, users));
    ReachableStep(sha, m0, Call(u, users));
    ReachableStep(sha, m1, Call(t, users));
    forall m' | Leads(sha, m, m') ensures NeverAnnounced(m'.log, "file") {
      LeadsStep(sha, m1, Call(t, users));
      LeadsOn(sha, m1, m, m');
      Notifications.FileAnnouncedIffPooledAndOnline(sha, m0, u, users, m');
    }
  }

  lemma SecondUpload(sha: string -> string, m: State, name: string) returns (m': State)
    requires Reachable(sha, m) && UserOf(m.sys.tokens, "token") != 0
    requires "file" in m.sys.db.files && "file" in m.sys.disk
    ensures Reachable(sha, m')
    ensures FileDownload(m'.sys, "token", "file", GOOD).reply
         == FileDownloadResponse(File(name, m.sys.disk["file"]), "h")
  {
    var upload := Arrive(FileUploadRequest("token", "file", File(name, []), "h"), 0, GOOD);
    ReachableStep(sha, m, upload);
    m' := Next(sha, m, upload);
  }

  /** A refused second upload gives the file a new name of any length. */
  lemma RenamedDownload(sha: string -> string, name: string, content: seq<Byte>) returns (m: State)
    ensures Reachable(sha, m)
    ensures FileDownload(m.sys, "token", "file", GOOD).reply == FileDownloadResponse(File(name, content), "h")
  {
    var m0, m1, t := SendPicture(sha);
    var m2 := UploadPicture(sha, m1, t, File("", content), "", Saves);
    m := SecondUpload(sha, m2, name);
  }

  /**
   A reply longer than the send buffer can be provoked although every request fits: the file
   is uploaded with little name and much content, then again with much name and no content,
   and the reply to a download carries both. `SendMesg` overruns exactly on such packets.
   */
  lemma OverlongReply(sha: string -> string, requestBytes: Request -> nat, replyBytes: Reply -> nat, overhead: nat,
                      name: string, content: seq<Byte>) returns (m: State)
    requires forall r: Request :: r.FileUploadRequest? ==>
               requestBytes(r) <= |r.token| + |r.id| + |r.file.name| + |r.file.content| + |r.hash| + overhead
    requires forall r: Protocol.Reply :: r.FileDownloadResponse? ==> replyBytes(r) >= |r.file.name| + |r.file.content|
    requires |name| + 10 + overhead < 1048576
    requires |content| + 10 + overhead < 1048576
    requires |name| + |content| > 1048576
    ensures Reachable(sha, m)
    ensures requestBytes(FileUploadRequest("token", "file", File("", content), "")) < 1048576
    ensures requestBytes(FileUploadRequest("token", "file", File(name, []), "h")) < 1048576
    ensures replyBytes(FileDownload(m.sys, "token", "file", GOOD).reply) > 1048576
  {
    m := RenamedDownload(sha, name, content);
  }
}
