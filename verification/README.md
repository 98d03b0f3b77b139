# NetChat server: a verified model

A Dafny model of the NetChat server: its message store, its login and token pools, deferred
file messages, keep-alive channels, blocking queue and socket loops, with proofs about whole
runs. `dafny verify dfyconfig.toml` checks everything.

## How it is built

* `Store`, `Channels`, `Handlers` are the server's logic as functions on values: one function
  for each SQL statement, channel operation, request handler and callback.
* `Database`, `Storage`, `UserManager`, `ChatServer` are the objects of the program,
  updated in place. Each method is proved equal to its function. A query visits its rows in an
  order that callers cannot know, so nothing depends on the row order of the database.
* `Machine` is the server over unboundedly many requests in flight. Its steps are: a handler up
  to its reply, the reply delivered or lost, the callback, a sender thread taking a packet, a
  sender thread sending it and reading the acknowledgement, and a restart that keeps only the
  database and the disk. Each step is taken to be atomic, and they interleave freely. Every step
  logs one event, and the state is proved to be the replay of the log; run properties are then
  proved once per kind of event.
  `Reachable` is any state of any run from the empty server, and `Leads` any later state.
* `Requests` says what each request is answered and what its callback does, from the request to
  the queue. `Accounts`, `Fetching`, `Files`, `Delivery`, `Notifications` hold the results about
  all runs.
* `Interleaving` drops the atomicity of message creation: scans go row by row, and the insert
  and the read-back of the row id are steps of their own, with inserts into other tables of the
  same connection in between. `QueueMonitor` does the same for the queue: lock, unlock, wait,
  wake-up and notify are single steps of unboundedly many threads. `UploadRaces`, `LoginRaces`,
  `AnnouncementRaces` and the end of `Delivery` take the remaining handlers and callbacks apart where
  they touch shared state several times; uploads, logins and announcements that nothing
  interrupts are proved to be the handler's or callback's one step again. `FileRaces` joins
  uploads and announcements of one file: a callback runs only after its own upload succeeded.
* `Witnesses` holds concrete runs from the empty server that show the surprising results happen.
* `Transport` runs the send and receive loops over a socket whose calls move any positive number
  of bytes, or pause, at any point of the byte stream. `Crypto` prints digests and draws
  challenges. `Sequences` and `Protocol` are the shared vocabulary.

Outside values are parameters: SHA-256 is any function, UUIDs, challenges, the clock and the
failures of statements, disk and sockets are arbitrary. A token or file id is fresh only where
a statement says so; the primary key of `files` enforces it for file ids.

## What turned out different from what one might expect

* The answer to a file message carries the file id as content, but the stored row keeps the
  content the client sent, although proto/messages.proto:112 speaks of one content generated by
  the server. Answer and row agree exactly if the kind is no file kind or the content was that
  id already (`SentMessagesAreFetched`, run: `AnswerDiffersFromRow`).
* A send answered with failure may leave its row behind, which uses up a number: exactly if all
  checks pass, the insert works, and the file of a file message cannot be registered
  (`FailedSendStoresIff`, run: `FailedSendLeavesRow`).
* A file is announced only if its message is already pooled and its receiver already has a
  channel when the callback of its one successful upload runs. Otherwise it is never announced
  (`FileAnnouncedIffPooledAndOnline`, run: `AnnouncementMissed`).
* A file id is occupied for good exactly by the first upload that puts any bytes on disk, even
  if its write fails half-way (`OccupiedIffWritten`, `UploadSucceedsIff`, run:
  `HalfWriteOccupies`). A refused second upload still replaces name and hash
  (`DownloadsReturnUpload`).
* That second name may be long, so the reply to a download may exceed the send buffer although
  every request fits its own (`OverlongReply`); `SendMesg` overruns exactly on such packets.
* Without the atomicity of message creation internal ids may repeat and a sender may be told
  another row's id, even that of a user or a file. A conversation is numbered 1, 2, 3, ...
  exactly if every insert of the run came from an up-to-date scan (`InOrderIffAllFresh`), and
  the id told is right exactly if no insert on the connection came after the sender's own, or
  the latest went to another table and carries the same row id (`ReportedIdIsOwnIff`). Runs:
  `RaceRepeats`, `OtherTableMisleads`.
* Without the atomicity of the upload handler two uploads of one file may both succeed, and the
  file may be a mixture of both (`TwoUploadsMix`) or hold bytes of neither (`TwoUploadsLeaveGap`).
  At most one succeeds, whatever happens from here on, exactly if the file exists and no two
  uploads have succeeded or still may (`OneSuccessIff`). The bytes on disk stay for good exactly
  if no upload under way would truncate them or put something else in their place
  (`BytesStayIff`).
* Without the atomicity of the login handler one challenge may earn two tokens
  (`OneChallengeTwoTokens`): exactly if no challenge of the user is issued or forgotten between
  the two reads (`TokensShareIff`), and it is so for any two attempts, whatever hashes they
  present (`AttemptsShareIff`). A login forgets a challenge it never met exactly if a newer
  one is pending by then (`ForgetsNewerIff`, run: `NewerChallengeForgotten`).
* If two uploads raced and both succeeded, their file may be announced twice (`AnnouncedTwice`):
  the second callback finds the message exactly if nothing was deleted between the two looks
  (`FoundTwiceIff`). At most one announces, whatever happens from here on, exactly if no upload
  can join that would find something to announce, and no two uploads have announced the file or
  still may by their own success, reply and callback (`OneAnnouncementIff`). In particular a file
  with a single successful upload, and none that still may succeed, is announced at most once
  (`OneUploadAnnouncesOnce`).
* A message queued between `setFd` and `Clear` of a reconnect, and not taken by then, is lost
  (`PiecewiseReconnect`, `PushDuringReconnectLost`).
* A received packet is whatever came before the first pause. It is the packet sent exactly if
  that pause falls at its end and it is shorter than 1048576 bytes (`ReceivedAsItselfIff`);
  a pause inside it truncates it and unread bytes before it are glued to it
  (`PauseInsideTruncates`, `UnreadBytesAreGlued`). What fills the buffer before the first pause is
  refused, so a packet of 1048576 bytes, which can be sent, is never received as itself
  (`FullBufferIsRefused`).
* A login without a pending challenge is compared with the empty challenge (`LoginDecision`), and
  two challenges drawn within one second are equal unless another thread uses the generator
  meanwhile, as each call seeds it with the time (`ChallengesEqualIff`). "One challenge, one
  attempt" is therefore a statement about issuances (`IssuancesServeOneAttempt`).
* A sender thread keeps using a descriptor it has closed, and may close it twice for one packet
  (`KeepAliveMsgSender.SendHeld`).

## Model

| member | source | states |
|---|---|---|
| Store.CreateIsAppend | src/db/db_access.cpp:201-233 | scan-max-plus-one refines an append: the map from conversations to message lists changes by one message, numbered one past the end of its own list |
| Store.CreateKeepsMessages | src/db/db_access.cpp:183-219 | the numbering 1..n of every conversation, and strictly increasing message ids, survive every creation, failed or not |
| Store.MaxAnyOrder | src/db/db_access.cpp:212-218 | the scanned maximum does not depend on the order in which the rows come |
| Store.GetMessageExact | src/db/db_access.cpp:83-108 | number k finds the k-th message of the conversation for k in 1..n and nothing for every other k |
| Store.NumbersAreUnique | src/db/db_access.cpp:85-92 | at most one row answers to a conversation and number, so any row order gives the same row |
| Store.CreateUserKeeps | include/db_access.h:84-91 | names and ids stay unique, a created user is found under its name, users found before stay as they were |
| Database.DataAccess.GetUserByName | src/db/db_access.cpp:8-19 | finds the user of that name whatever the row order |
| Database.DataAccess.GetUserById | src/db/db_access.cpp:21-31 | finds the user of that id whatever the row order |
| Database.DataAccess.GetAllUsers | src/db/db_access.cpp:34-44 | returns every user exactly once, in some order |
| Database.DataAccess.GetAllMessages | src/db/db_access.cpp:111-136 | returns the rows of the conversation and no others, each once; their number is the conversation's length |
| Database.DataAccess.GetMessage | src/db/db_access.cpp:83-108 | returns the k-th message of the conversation, or nothing |
| Database.DataAccess.CreateUser | src/db/db_access.cpp:157-174 | inserts under the next id unless the statement fails or the name is taken; keeps the table invariant |
| Database.DataAccess.CreateMsg | src/db/db_access.cpp:183-199 | appends the row under the next AUTOINCREMENT id and returns that id, or changes nothing |
| Database.DataAccess.CreateMsgByRawMsg | src/db/db_access.cpp:201-233 | the scan loop computes the conversation's maximum in any row order and inserts the next number |
| Database.DataAccess.CreateFile | src/db/db_access.cpp:237-254 | registers an unused file id with empty name and hash, or changes nothing |
| Database.DataAccess.UpdateFile | src/db/db_access.cpp:257-272 | replaces name and hash of a registered file only, and reports whether it did |
| Database.DataAccess.constructor | include/db_access.h:23-27 | opens a database as it was left, or with empty tables; the table invariant holds if the stored tables keep it |
| Interleaving.IdsAreGapFree | src/db/db_access.cpp:201-233 | under every interleaving and every partial scan the internal ids of a conversation are exactly 1..max, max is at most the row count, message ids are unique |
| Interleaving.CountIsMaxIffNoRepeats | src/Server/Server.cpp:219-224 | the advertised count is the maximal number exactly when no number repeats, exactly when the k-th row has number k |
| Interleaving.InOrderIffAllFresh | src/db/db_access.cpp:201-233 | over a whole run, a conversation is numbered 1, 2, 3, ... exactly if every insert into it came from a scan that was not behind at that step |
| Interleaving.InsertRepeatsIffStale | src/db/db_access.cpp:212-225 | an insert repeats a number exactly when the worker's scan is behind the table at that moment |
| Interleaving.ReportedIdIsOwnIff | src/db/db_access.cpp:195-197 | the id reported is that of the worker's own row exactly when no insert on the shared connection came after its own, or the latest went to another table and carries the same row id |
| Interleaving.RaceRepeats | src/db/db_access.cpp:212-229 | a concrete run of two workers in which a number repeats and a wrong id is reported |
| Interleaving.OtherTableMisleads | src/db/db_access.cpp:163-197 | a concrete run in which an insert into users or files makes a worker report any given id, although its row is still the last message |
| Interleaving.UninterruptedIsAtomic | src/db/db_access.cpp:201-233 | an uninterrupted worker that scans all rows, in any order, does exactly what the atomic creation does |
| QueueMonitor.NoLostWakeup | include/threadsafe_queue.h:26-42 | in every interleaving, a waiting item beside a sleeping consumer means that some producer still owes a notification; with nobody mid-operation no consumer sleeps beside an item |
| QueueMonitor.PopNeverFindsEmpty | include/threadsafe_queue.h:37-42 | a consumer past the wait always finds an item and is alone in the lock |
| QueueMonitor.Progress | include/threadsafe_queue.h:26-48 | while some thread is mid-operation, some thread can take a step that changes the monitor |
| QueueMonitor.Conservation | include/threadsafe_queue.h:26-48 | removals in lock order followed by the queue are exactly the pushes, so each item leaves once, in push order |
| QueueMonitor.NothingDiscarded | src/Server/server_van.h:237-243 | without a clear, every item that left was taken by one worker |
| QueueMonitor.UndisturbedPush | include/threadsafe_queue.h:26-31 | whatever the other threads were doing, a push appends its item, leaves the lock free and wakes every sleeper |
| QueueMonitor.UndisturbedPop | include/threadsafe_queue.h:37-42 | a pop hands out the oldest item; without one the thread falls asleep and frees the lock |
| QueueMonitor.UndisturbedClear | include/threadsafe_queue.h:43-48 | a clear empties the queue, however long, and leaves the lock free |
| UserManager.ThreadsafeQueue.Push | include/threadsafe_queue.h:26-31 | appends the item |
| UserManager.ThreadsafeQueue.WaitAndPop | include/threadsafe_queue.h:37-42 | removes and returns the oldest item; with an empty queue nothing changes and the caller goes on waiting |
| UserManager.ThreadsafeQueue.Clear | include/threadsafe_queue.h:43-48 | the popping loop empties the queue |
| UserManager.KeepAliveMsgSender.constructor | src/Server/Server.h:61-64 | a new sender has an empty queue and sends on the given descriptor |
| UserManager.KeepAliveMsgSender.SetFd | src/Server/Server.h:69-72 | only the descriptor changes |
| UserManager.KeepAliveMsgSender.AddSendTask | src/Server/Server.h:73-76 | only the queue grows, by the packet |
| UserManager.KeepAliveMsgSender.Clear | src/Server/Server.h:77 | only the queue is emptied; the packet in hand stays |
| UserManager.KeepAliveMsgSender.TakeNext | src/Server/Server.cpp:548-550 | moves the oldest packet, if there is one, from the queue into the sender's empty hand |
| UserManager.KeepAliveMsgSender.SendHeld | src/Server/Server.cpp:558-582 | sends the packet in hand on the current descriptor, reads the answer, closes the descriptor once for each of the two that failed, and drops the packet whatever happened |
| Channels.MovesKeepFlow | src/Server/Server.cpp:546-567 | taking and sending never reorder, lose or repeat a packet |
| Channels.ReconnectCutsFlow | include/user_manager.h:91-93 | a reconnect leaves of the earlier packets what was attempted and at most the one in hand |
| UserManager.UM.SetChallengeMp | include/user_manager.h:60-63 | stores or replaces the challenge of one user |
| UserManager.UM.GetChallengeMp | include/user_manager.h:66-74 | the stored challenge, or the empty string |
| UserManager.UM.DelChallengeMp | include/user_manager.h:77-83 | forgets the challenge of one user |
| UserManager.UM.SetKpAliveSender | include/user_manager.h:87-98 | reconnects the same sender object, or files a fresh one; no other channel or sender changes |
| UserManager.UM.GetSender | include/user_manager.h:110-120 | the sender filed for the user, and never one for user 0 |
| UserManager.UM.GetUserIdByToken | include/user_manager.h:122-131 | the owner of the token, 0 for the empty and unknown ones |
| UserManager.UM.SetUserIdByToken | include/user_manager.h:133-136 | files or replaces the owner of one token |
| UserManager.UM.IsOnline | include/user_manager.h:139-145 | true exactly if a sender would be returned |
| UserManager.UM.SetFileMsg | include/user_manager.h:148-152 | pools the receiver and message of one file |
| UserManager.UM.DelFileMsg | include/user_manager.h:154-160 | removes the pooled message of one file |
| UserManager.UM.GetFileMsg | include/user_manager.h:162-170 | the pooled receiver and message, or receiver 0 and the empty message |
| Storage.FileStorage.CheckDiskExistence | src/file/file_storage.cpp:5-14 | tells whether the file is there and changes no file |
| Storage.FileStorage.SaveToDisk | src/file/file_storage.cpp:16-31 | succeeds only with the whole content written, may leave a prefix on failure, touches no other file |
| Storage.FileStorage.LoadIntoProto | src/file/file_storage.cpp:33-46 | returns the bytes on disk under the recorded name, or fails |
| Crypto.UnhexHex | include/utils/crypto.h:20-27 | an independent decoder recovers every byte sequence from its printed form |
| Crypto.HexInjective | include/utils/crypto.h:59 | equal printed digests mean equal digests |
| Crypto.BytesToHexString | include/utils/crypto.h:20-27 | the buffer loop with its overlapping terminators yields exactly the printed form, if and only if there is a byte or the unwritten buffer happens to start with NUL |
| Crypto.GenChallenge | include/utils/crypto.h:29-48 | the 32 characters of the charset that the numbers it gets select, whatever other threads do with the shared generator |
| Crypto.ChallengesEqualIff | include/utils/crypto.h:29-48 | a challenge has 32 characters; two are equal exactly if their numbers agree modulo 62; two that no other thread disturbed and that were seeded with the same second are equal |
| Transport.SendMesg | src/Server/server_van.h:165-186 | overruns the buffer exactly on packets longer than 1048576 bytes; otherwise, for any splitting, the packet is written whole or, on failure, a proper prefix of it |
| Transport.RecvMesg | src/Server/server_van.h:187-218 | for any splitting and any pauses, takes the bytes up to the first pause or a full buffer, no more; refuses exactly a full buffer or a failed call |
| Transport.ReceivedAsItselfIff | src/Server/server_van.h:187-218 | a packet within a byte stream is handed on as itself exactly when the first pause, no failure, comes after precisely its bytes and these are fewer than the buffer holds |
| Transport.FullBufferIsRefused | src/Server/server_van.h:191-214 | too large is exactly what brings 1048576 bytes before the first pause, failed exactly what ends in a failed call; a packet of 1048576 bytes or more is never received as itself |
| Transport.ChunkingIsIrrelevant | src/Server/server_van.h:191-213 | two receptions of one stream that pause at the same place make the same of it, however it was cut |
| Transport.PauseInsideTruncates | src/Server/server_van.h:194-197 | a pause inside a packet of any size, before the buffer is full, makes its head pass for the whole |
| Transport.UnreadBytesAreGlued | src/Server/server_van.h:191-214 | unread bytes before a packet are handed on together with it |
| Transport.Van.Send | src/van.cpp:19-25 | counts whole packets only, modulo the counter's width |
| Transport.Van.Recv | src/van.cpp:26-31 | counts what was read exactly when it parsed |
| Transport.Exchange | src/Server/server_van.h:165-218 | over a wire with unread bytes and pauses anywhere, the packet sent is received as itself exactly when the first pause comes after precisely its bytes, below 1048576; then it parses to what was sent |
| ChatServer.Server.constructor | src/Server/Server.cpp:10-15 | a start, first or later, is the restart step: of an earlier process only database and disk are left |
| ChatServer.Server.Register | src/Server/Server.cpp:62-95 | performs the registration step of the state machine on the objects |
| ChatServer.Server.LoginPre | src/Server/Server.cpp:96-128 | performs the challenge step |
| ChatServer.Server.Login | src/Server/Server.cpp:129-185 | performs the login step |
| ChatServer.Server.SetupChannel | src/Server/Server.cpp:186-202 | answers and prepares the setup callback for the token's owner |
| ChatServer.Server.SendMessage | src/Server/Server.cpp:245-293 | performs the send step: owner, receiver, then creation |
| ChatServer.Server.AnswerSend | src/Server/Server.cpp:295-354 | registers the file of a file message and picks reply and callback |
| ChatServer.Server.FileUpload | src/Server/Server.cpp:356-382 | refuses bad tokens and unregistered files, stores otherwise |
| ChatServer.Server.StoreUpload | src/Server/Server.cpp:384-436 | performs the upload step |
| ChatServer.Server.SaveOnce | src/Server/Server.cpp:385-391 | writes only if there are no bytes yet |
| ChatServer.Server.FileDownload | src/Server/Server.cpp:438-483 | performs the download step and leaves the state alone |
| ChatServer.Server.ContactMessage | src/Server/Server.cpp:484-512 | answers with the message of that number among those the token's owner sent, and leaves the state alone |
| ChatServer.Server.ListContacts | src/Server/Server.cpp:207-225 | the loop pairs every user with the number of messages sent to them |
| ChatServer.Server.RunSetup | src/Server/Server.cpp:202-240 | performs the setup callback: reconnect, then queue the contact list; nobody's sender object is replaced |
| ChatServer.Server.RunNotify | src/Server/Server.cpp:323-347 | performs the notification callback: queue for an online receiver only |
| ChatServer.Server.RunDefer | src/Server/Server.cpp:316-319 | performs the deferral callback |
| ChatServer.Server.RunUpload | src/Server/Server.cpp:407-432 | performs the upload callback: take from the pool, then queue for an online receiver |
| ChatServer.Server.ProcessRecvSocket | src/Server/Server.cpp:23-543 | a whole uninterrupted request of any kind: ignored ones get no reply, the callback runs exactly if there was a reply and it was sent, a reply that failed closes the descriptor, and nobody's sender object is replaced |
| ChatServer.Server.TakeNext | src/Server/Server.cpp:548-550 | performs the sender thread's take step on one channel, also while it waits |
| ChatServer.Server.SendHeld | src/Server/Server.cpp:558-582 | performs the sender thread's send step on one channel and tells which descriptors it closes |
| Machine.HandleIsEvent | src/Server/Server.cpp:40-521 | every handler's effect is the event it logs, and the event's checks hold: registered receiver, owned token, next number, unused name and file id, untouched bytes |
| Machine.StepIsEvent | src/Server/Server.cpp:528-541 | every step, callbacks and restarts included, changes the state exactly by its one event |
| Machine.UninterruptedRequest | src/Server/Server.cpp:528-541 | a request that nothing interrupts has, as three steps, the same effect as handler and callback in one |
| Machine.RunsReplay | src/Server/Server.cpp:23-543 | in every run the tables keep their invariant and the state is the replay of the log |
| Requests.StatusAnswers | src/Server/Server.cpp:41-61 | status requests are answered online and registrable; deletions and unknown packets are not answered |
| Requests.RegisterSucceedsIff | src/Server/Server.cpp:62-95 | a registration succeeds exactly with 3 to 32 and 6 to 32 characters, a name nobody has, and a working insert; then the name stands for a new user with the hashed password, otherwise nothing changes |
| Requests.ChallengeIsAnswered | src/Server/Server.cpp:96-128 | the answered challenge is the one drawn and the one the next login is compared with; an unknown name is answered the empty one |
| Requests.LoginAnswer | src/Server/Server.cpp:129-185 | a login is answered id and new token exactly on a match with the pending challenge, and the two failures by their texts; the token is filed and the challenge forgotten |
| Requests.PreparedLoginSucceeds | src/Server/Server.cpp:96-173 | who presents the hash made with the answered challenge is logged in, in every later state in which nothing was issued or compared for the user or restarted |
| Requests.SendAnswer | src/Server/Server.cpp:245-354 | a send is accepted exactly with the sender's token, a registered receiver, a working insert, and for kinds 1 and 2 a new file id; row, time, number, answer and callback in each case |
| Requests.TextIsQueued | src/Server/Server.cpp:321-347 | from an accepted text send to the receiver's queue: the answered message is queued if there is a channel, and nothing else happens |
| Requests.FileMessageIsPooled | src/Server/Server.cpp:296-319 | from an accepted send of kind 1 or 2 to the pool: the answered message is pooled for its receiver, unconditionally |
| Requests.StaysPooled | src/Server/Server.cpp:407-416 | a pooled message stays in every continuation without a restart until an upload callback of its file runs |
| Requests.PooledIsAnnounced | src/Server/Server.cpp:407-432 | in any interleaving the next upload callback of the file, at whatever time, takes the pooled message and queues it for its receiver if there is a channel then |
| Requests.FileIsAnnounced | src/Server/Server.cpp:296-432 | from an accepted file message over any steps and a successful upload to the receiver's queue: queued if there is a channel by then, and out of the pool |
| Requests.UploadWaits | src/Server/Server.cpp:403-432 | an upload waits with the callback of its file exactly if it was answered with success |
| Requests.LostIsForever | src/Server/Server.cpp:528-541 | a request whose reply is lost, or which a restart meets unfinished, never runs its callback and announces nothing |
| Requests.RestartForgets | src/Server/Server.h:27-42 | after a restart there are no channels, tokens, challenges and pooled messages; tables and files stay |
| Requests.SetupOpensChannel | src/Server/Server.cpp:186-241 | after a setup the owner's channel is on the descriptor the request came on, with one contact list of ids, names and counts, and no other channel changed |
| Requests.SenderDrains | src/Server/Server.cpp:546-567 | n rounds of a sender thread attempt the first n packets of its queue in order, each once, on the current descriptor, whether sends work or not |
| Requests.UploadRecords | src/Server/Server.cpp:384-401 | an upload with a known token and id records name and hash if the row update works, saved or not; the bytes on disk in each case |
| Requests.DownloadAnswer | src/Server/Server.cpp:438-483 | a download is answered nothing for an empty, unknown or nobody's token or an unregistered id, the latest hash alone without readable bytes, and otherwise bytes, latest name and hash |
| Requests.FetchAnswer | src/Server/Server.cpp:484-512 | a fetch is answered the k-th message the token's owner sent to the contact, or the message with id -1 |
| Accounts.MessagesHaveOrigin | src/Server/Server.cpp:252-282 | in every reachable state each row's receiver is registered and its sender is user 0 or a registered user for whom a matching login had minted a token before the row was stored, with no restart in between |
| Accounts.ChallengesServeOnce | src/Server/Server.cpp:96-185 | each login attempt is compared with the latest unused challenge of that user, or with the empty string exactly if there is none, and mints exactly on a match |
| Accounts.IssuancesServeOneAttempt | src/Server/Server.cpp:96-185 | two attempts of a user that met a pending challenge met two different issuances, in alternation |
| Accounts.LoginDecision | src/Server/Server.cpp:137-173 | a login succeeds exactly for a registered name and the hash of its password with the expected challenge |
| Accounts.RegistrationLasts | src/Server/Server.cpp:85-92 | after a successful registration the name logs in with that password at every later time and cannot be registered again |
| Accounts.TokenOwnersStable | include/user_manager.h:122-136 | within a process a token keeps its owner unless it is drawn again |
| Fetching.TablesGrow | src/db/db_access.cpp:183-199 | over any run rows, users and file ids are only added |
| Fetching.RowsStayFetchable | src/db/db_access.cpp:83-108 | a stored message is found under its number at every later time |
| Fetching.SentMessagesAreFetched | src/Server/Server.cpp:282-352 | an answered send is fetched under its number at every later time, equal to the answer exactly if it is no file message or its content was the file id already, and otherwise equal in all but the content |
| Fetching.ContactListIsIndex | src/Server/Server.cpp:202-225 | the counts in the list that a setup callback logs are an exact index: numbers 1..n can be fetched then and ever after, and then no others; ids, names and counts are aligned |
| Fetching.FailedSendStoresIff | src/Server/Server.cpp:252-310 | a send answered with failure leaves its row exactly if owner and receiver check, the insert works, and the file of a file message cannot be registered |
| Fetching.RowsAreAccounted | src/Server/Server.cpp:281-310 | rows are successful answers plus unregistered file messages; message ids are 1, 2, 3, ... |
| Fetching.IdsFitInt32 | src/db/db_access.cpp:213-219 | below 2^31 - 1 rows neither id of the next message overflows 32 bits |
| Files.BytesNeverChange | src/Server/Server.cpp:389-391 | bytes on disk never change or vanish, in any run |
| Files.UploadSucceedsOnce | src/Server/Server.cpp:384-405 | an upload answered with success is the first save of that file |
| Files.OccupiedIffWritten | src/file/file_storage.cpp:16-31 | in every run a file id is on disk exactly if some earlier upload put bytes there, completely or not, and with those bytes |
| Files.UploadSucceedsIff | src/Server/Server.cpp:356-405 | an upload succeeds exactly with a known token, a registered file, no bytes put there by any earlier upload, and a write and a row update that work |
| Files.WrittenOnceRefusedEver | src/Server/Server.cpp:385-405 | once any bytes are there, even of a failed write, every later upload is refused and leaves them alone |
| Files.DownloadsReturnUpload | src/Server/Server.cpp:457-482 | after a successful upload every later download returns its bytes, with the name and hash of the latest recorded upload |
| Delivery.FlowFollowsPushes | src/Server/Server.cpp:546-567 | between reconnects each step extends a channel's flow exactly by what it pushes |
| Delivery.PacketsKeepPushOrder | include/user_manager.h:87-98 | in every run attempted, held and queued packets form a subsequence of the pushes, in order, without duplicates |
| Delivery.ReconnectStartsAfresh | src/Server/Server.cpp:202-240 | after a setup callback the channel carries at most one old packet, then the contact list, then every later push, all on the new descriptor |
| Delivery.ClosesStayCurrent | src/Server/Server.cpp:558-576 | from a setup callback until the next reconnect the sender thread closes only the new descriptor, once for each failed send and once for each unread answer |
| Delivery.NobodysChannelIsSilent | include/user_manager.h:110-111 | a channel of user 0 never carries anything |
| Delivery.SendersStay | include/user_manager.h:110-145 | within a process a user who has a sender keeps that very sender with its history of attempts, so check-then-act stays valid |
| Notifications.FinishedStaysFinished | src/Server/Server.cpp:528-541 | a request keeps its callback, and once its callback has run or its reply is lost, that is final |
| Notifications.TextNotifiedExactlyOnce | src/Server/Server.cpp:321-347 | a text message is announced if and only if its callback found a sender, then once, to its receiver, as the stored row |
| Notifications.TextNotifiedIffOnline | src/Server/Server.cpp:326-345 | over every continuation, announced exactly if the receiver has a sender when the callback runs |
| Notifications.UnansweredIsUnannounced | src/Server/Server.cpp:528-541 | a message whose reply is lost or pending has been announced to nobody |
| Notifications.FileNotificationsAreSafe | src/Server/Server.cpp:384-433 | an announced file was saved before, is on disk with those bytes, is announced to the message's receiver, and never twice |
| Notifications.UploadStatusDecides | src/Server/Server.cpp:407-432 | a file is announced exactly if the callback of its upload is recorded as having queued the announcement |
| Notifications.FileAnnouncedIffPooledAndOnline | src/Server/Server.cpp:407-432 | over every continuation, a file is announced exactly if its message is pooled and the receiver has a sender when the upload's callback runs |
| Notifications.ChannelsCarryStoredFiles | src/Server/Server.cpp:296-319 | a file message in a channel, attempted, held or queued, is in its receiver's channel and names a file on disk |
| UploadRaces.UninterruptedIsHandler | src/Server/Server.cpp:384-391 | an upload that nothing interrupts does with the disk what the handler does in one step, failures included |
| UploadRaces.OnlyContendersSave | src/file/file_storage.cpp:5-31 | in any interleaving of uploads and of parts of writes, only those succeed whose check came before the file existed, and each byte on disk is one that a writer has at its place, or a zero where nobody has written since the last truncation |
| UploadRaces.OneSuccessIff | src/Server/Server.cpp:384-391 | over all continuations at most one upload succeeds exactly if the file exists and no two uploads have succeeded or still may |
| UploadRaces.SoleWriterIsPrefix | src/file/file_storage.cpp:16-46 | with a single writer so far, a download finds the beginning it has written by then, and its whole content once it succeeded |
| UploadRaces.BytesStayIff | src/file/file_storage.cpp:16-31 | in every reachable state with a file, whoever wrote it, its bytes stay in every continuation exactly if every upload that has passed the check would put nothing over nothing, and every one that has opened has nothing left to write or only what is there already |
| UploadRaces.TwoUploadsMix | src/Server/Server.cpp:384-391 | a run in which two uploads succeed and the file is a mixture |
| UploadRaces.TwoUploadsLeaveGap | src/file/file_storage.cpp:16-31 | a run in which two uploads succeed and a byte of the file is in neither |
| LoginRaces.UninterruptedIsHandler | src/Server/Server.cpp:129-185 | a login that nothing interrupts is the login handler in one step, reply included |
| LoginRaces.AttemptsShareIff | src/Server/Server.cpp:149-157 | two attempts of a user, matching or not, meet the same issuance exactly if nothing was issued or forgotten between their reads |
| LoginRaces.ComparesWhatItRead | src/Server/Server.cpp:149-157 | in any interleaving a login compares with the challenge of its own read |
| LoginRaces.TokensShareIff | src/Server/Server.cpp:149-182 | two tokens of a user were minted on what their logins had read, and on the same issuance exactly if nothing was issued or forgotten between the reads |
| LoginRaces.TokensHaveOwnReads | src/Server/Server.cpp:149-165 | in any interleaving no read of a challenge earns two tokens |
| LoginRaces.ForgetsNewerIff | src/Server/Server.cpp:149-182 | a login forgets a challenge it never met exactly if one issued after its read is still pending; that one is the value the pool loses, and afterwards it has none |
| LoginRaces.OneChallengeTwoTokens | src/Server/Server.cpp:149-165 | a run in which one issuance earns two tokens |
| LoginRaces.NewerChallengeForgotten | src/Server/Server.cpp:180-182 | a run in which a challenge is forgotten before any login has met it, and the next login meets none |
| AnnouncementRaces.UninterruptedIsHandler | src/Server/Server.cpp:407-432 | a callback that nothing interrupts is the upload callback in one step |
| AnnouncementRaces.FoundTwiceIff | src/Server/Server.cpp:409-416 | a second callback finds the pooled message exactly if nothing was deleted between the two looks; who announces has found it |
| FileRaces.OneAnnouncementIff | src/Server/Server.cpp:384-432 | over all continuations of uploads, replies and callbacks at most one announces the file exactly if no upload can join that would find something, and no two have announced or still may, each callback after its own saved upload |
| FileRaces.OneUploadAnnouncesOnce | src/Server/Server.cpp:407-432 | with one upload that has succeeded or still may, and the file there, it is announced at most once, pooled yet or not |
| FileRaces.TwoAnnouncementsNeedTwoUploads | src/Server/Server.cpp:407-416 | two announcements come from two saved and answered uploads and from two looks with no deletion in between |
| FileRaces.AnnouncedTwice | src/Server/Server.cpp:384-432 | a run in which two uploads succeed and both callbacks announce the file |
| Delivery.AnyOrderKeepsFlow | include/user_manager.h:87-98 | packets keep their push order under any interleaving of the channel operations, halves of a reconnect included |
| Delivery.PiecewiseReconnect | include/user_manager.h:91-93 | a reconnect with anything between its halves loses exactly the packets queued at the clearing, and all attempts since go out on the new descriptor |
| Delivery.PushDuringReconnectLost | include/user_manager.h:91-93 | a packet queued between the two halves and not taken is never sent |
| Witnesses.FailedSendLeavesRow | src/Server/Server.cpp:281-310 | a run in which a send is answered with failure and its row is stored |
| Witnesses.AnswerDiffersFromRow | src/Server/Server.cpp:296-319 | a run in which the answer names the file and the fetched message what the client sent |
| Witnesses.HalfWriteOccupies | src/Server/Server.cpp:385-405 | a run in which one byte of two is written, after which no upload of this file ever succeeds |
| Witnesses.AnnouncementMissed | src/Server/Server.cpp:407-432 | a run in which a file is on disk and its message pooled, but is announced in no continuation |
| Witnesses.OverlongReply | src/Server/server_van.h:165-171 | for any name and content that fit their requests but not one buffer together, a run whose download reply exceeds the send buffer |

## Left out

- Interleavings inside one handler or callback of the state machine: each is one step there. What the shared state can suffer from them is in `Interleaving`, `QueueMonitor`, `UploadRaces`, `LoginRaces`, `AnnouncementRaces`, `FileRaces` and `Delivery`; the name and hash that two racing uploads record, and the two inserts of one file message, are not taken apart.
- UploadRaces.SoleWriterIsPrefix: a download reads all bytes in one step.
- The callbacks of the setup and send handlers capture locals of a finished block by reference; the model takes the captured values.
- ChatServer.Server.TakeNext: one round of the endless sender loop, split in two; the sleeps and the kind of the packet taken for an acknowledgement, which nothing depends on, are not modelled.
- Transport.SendMesg: what is read and sent beyond the buffer on an overrun is not modelled; `send` may report zero bytes only finitely often, without which the loop need not end.
- Storage.FileStorage.SaveToDisk: a write that is reported good but lost when the stream is closed is not modelled.
- Exceptions that leave a handler (a failing SELECT or a throwing message INSERT) end the process; only the restart that follows is modelled.
- Groups, the unused keep-alive queue of the van and `delKpAliveSender`, which nothing calls.
- Protobuf encoding and strings with embedded NUL characters: packets are values, and serialising is assumed to round-trip.
- SQLite, SHA-256, UUIDs, random numbers and the clock: arbitrary functions and values. Foreign keys are not assumed to be enforced.
- Sockets, epoll, thread creation and shutdown, logging.
- Liveness: no statement says that a message is eventually sent.
