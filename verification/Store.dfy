/**
 The database tables as values, one function for each statement the server issues, and the
 numbering of messages within a conversation, a directed pair (sender, receiver).
 */
module Store {
  import opened Sequences
  import opened Protocol

  datatype User = User(id: int, username: string, password: string)

  // An absent (NULL) column reads back as the empty string.
  datatype FileRow = FileRow(name: string, hash: string)

  /** Rows are kept in the order of their insertion; `last...` are the AUTOINCREMENT sequences. */
  datatype Db = Db(
    users: seq<User>, lastUser: nat,
    messages: seq<Message>, lastMessage: nat,
    files: map<string, FileRow>)

  const EMPTY_DB := Db([], 0, [], 0, map[])

  // ----- statements

  function Named(username: string): User -> bool {
    (u: User) => u.username == username
  }

  function WithId(id: int): User -> bool {
    (u: User) => u.id == id
  }

  function InConversation(from: int, to: int): Message -> bool {
    (m: Message) => m.raw.from == from && m.raw.to == to
  }

  function Numbered(from: int, to: int, k: int): Message -> bool {
    (m: Message) => m.raw.from == from && m.raw.to == to && m.internalId == k
  }

  function FindName(users: seq<User>, username: string): Option<User> {
    Find(users, Named(username))
  }

  function FindUser(users: seq<User>, id: int): Option<User> {
    Find(users, WithId(id))
  }

  function Conversation(rows: seq<Message>, from: int, to: int): seq<Message> {
    Filter(rows, InConversation(from, to))
  }

  function GetMessage(rows: seq<Message>, from: int, to: int, k: int): Option<Message> {
    Find(rows, Numbered(from, to, k))
  }

  /** The running maximum over a result set, starting from 0. */
  function MaxInternalId(rows: seq<Message>): (max: int)
    ensures max >= 0
  {
    if rows == [] then 0
    else
      var max, last := MaxInternalId(rows[..|rows| - 1]), rows[|rows| - 1];
      if last.internalId > max then last.internalId else max
  }

  function CreateUser(db: Db, username: string, password: string, execOk: bool): (Db, bool) {
    if !execOk || FindName(db.users, username).Some? then (db, false)
    else (db.(users := db.users + [User(db.lastUser + 1, username, password)],
              lastUser := db.lastUser + 1), true)
  }

  function CreateMsgByRawMsg(db: Db, raw: RawMessage, now: int, execOk: bool): (Db, Option<Message>) {
    if !execOk then (db, None)
    else
      var max := MaxInternalId(Conversation(db.messages, raw.from, raw.to));
      var m := Message(raw, db.lastMessage + 1, now, max + 1);
      (db.(messages := db.messages + [m], lastMessage := db.lastMessage + 1), Some(m))
  }

  function CreateFile(db: Db, uuid: string, execOk: bool): (Db, Option<string>) {
    if !execOk || uuid in db.files then (db, None)
    else (db.(files := db.files[uuid := FileRow("", "")]), Some(uuid))
  }

  function UpdateFile(db: Db, id: string, row: FileRow, execOk: bool): (Db, bool) {
    if !execOk || id !in db.files then (db, false)
    else (db.(files := db.files[id := row]), true)
  }

  // ----- what every table keeps

  /** The schema of `users`: increasing primary keys, unique names. */
  ghost predicate UsersOk(db: Db) {
    && (forall i :: 0 <= i < |db.users| ==> 1 <= db.users[i].id <= db.lastUser)
    && (forall i, j :: 0 <= i < j < |db.users| ==>
          db.users[i].id < db.users[j].id && db.users[i].username != db.users[j].username)
  }

  /** In every conversation the k-th message inserted carries internal id k. */
  ghost predicate WellNumbered(rows: seq<Message>) {
    forall from, to, k :: 0 <= k < |Conversation(rows, from, to)| ==>
      Conversation(rows, from, to)[k].internalId == k + 1
  }

  ghost predicate MessagesOk(db: Db) {
    && WellNumbered(db.messages)
    && (forall i :: 0 <= i < |db.messages| ==> 1 <= db.messages[i].id <= db.lastMessage)
    && (forall i, j :: 0 <= i < j < |db.messages| ==> db.messages[i].id < db.messages[j].id)
  }

  ghost predicate DbOk(db: Db) {
    UsersOk(db) && MessagesOk(db)
  }

  // ----- the abstraction: a map from conversations to message lists

  function Pairs(rows: seq<Message>): set<(int, int)> {
    set m | m in rows :: (m.raw.from, m.raw.to)
  }

  function Conversations(rows: seq<Message>): map<(int, int), seq<Message>> {
    map pair | pair in Pairs(rows) :: Conversation(rows, pair.0, pair.1)
  }

  lemma ConversationSnoc(rows: seq<Message>, m: Message, from: int, to: int)
    ensures Conversation(rows + [m], from, to)
         == if m.raw.from == from && m.raw.to == to then Conversation(rows, from, to) + [m]
            else Conversation(rows, from, to)
  {
    FilterSnoc(rows, m, InConversation(from, to));
  }

  /** The running maximum is an upper bound, and is reached unless it is the initial 0. */
  lemma {:induction false} MaxIsMaximum(rows: seq<Message>)
    ensures forall m :: m in rows ==> m.internalId <= MaxInternalId(rows)
    ensures MaxInternalId(rows) == 0 || exists m :: m in rows && m.internalId == MaxInternalId(rows)
  {
    if rows != [] {
      MaxIsMaximum(rows[..|rows| - 1]);
      assert rows == rows[..|rows| - 1] + [rows[|rows| - 1]];
    }
  }

  /** The maximum does not depend on the order in which the rows come. */
  lemma MaxAnyOrder(a: seq<Message>, b: seq<Message>)
    requires multiset(a) == multiset(b)
    ensures MaxInternalId(a) == MaxInternalId(b)
  {
    MaxIsMaximum(a);
    MaxIsMaximum(b);
    SameMembers(a, b);
  }

  lemma MaxIsCount(rows: seq<Message>, from: int, to: int)
    requires WellNumbered(rows)
    ensures MaxInternalId(Conversation(rows, from, to)) == |Conversation(rows, from, to)|
  {
    var c := Conversation(rows, from, to);
    MaxIsMaximum(c);
    if c != [] {
      assert c[|c| - 1] in c && c[|c| - 1].internalId == |c|;
    }
  }

  lemma NumberIsPosition(rows: seq<Message>, m: Message)
    requires WellNumbered(rows) && m in rows
    ensures var c := Conversation(rows, m.raw.from, m.raw.to);
            1 <= m.internalId <= |c| && c[m.internalId - 1] == m
  {
    var c := Conversation(rows, m.raw.from, m.raw.to);
    FilterKeeps(rows, m, InConversation(m.raw.from, m.raw.to));
    var k :| 0 <= k < |c| && c[k] == m;
    assert c[k].internalId == k + 1;
  }

  lemma ConversationsSnoc(rows: seq<Message>, m: Message)
    ensures Conversations(rows + [m])
         == Conversations(rows)[(m.raw.from, m.raw.to) := Conversation(rows, m.raw.from, m.raw.to) + [m]]
  {
    var all := rows + [m];
    assert Pairs(all) == Pairs(rows) + {(m.raw.from, m.raw.to)} by {
      assert forall x :: x in all <==> x in rows || x == m;
    }
    forall pair | pair in Pairs(all)
      ensures Conversations(all)[pair]
           == if pair == (m.raw.from, m.raw.to) then Conversation(rows, m.raw.from, m.raw.to) + [m]
              else Conversation(rows, pair.0, pair.1)
    {
      ConversationSnoc(rows, m, pair.0, pair.1);
    }
  }

  lemma AppendKeepsNumbering(rows: seq<Message>, m: Message)
    requires WellNumbered(rows)
    requires m.internalId == |Conversation(rows, m.raw.from, m.raw.to)| + 1
    ensures WellNumbered(rows + [m])
  {
    forall from, to, k | 0 <= k < |Conversation(rows + [m], from, to)|
      ensures Conversation(rows + [m], from, to)[k].internalId == k + 1
    {
      ConversationSnoc(rows, m, from, to);
    }
  }

  lemma CreateKeepsMessages(db: Db, raw: RawMessage, now: int, execOk: bool)
    requires MessagesOk(db)
    ensures var (db', m) := CreateMsgByRawMsg(db, raw, now, execOk);
            && MessagesOk(db')
            && (m.Some? ==> m.value.internalId == |Conversation(db.messages, raw.from, raw.to)| + 1)
  {
    if execOk {
      var m := CreateMsgByRawMsg(db, raw, now, execOk).1.value;
      MaxIsCount(db.messages, raw.from, raw.to);
      AppendKeepsNumbering(db.messages, m);
    }
  }

  /**
   Scan-max-plus-one is an append: one creation extends the list of its own conversation by
   the returned message, numbered one past its end, and leaves every other list alone.
   */
  lemma CreateIsAppend(db: Db, raw: RawMessage, now: int)
    requires MessagesOk(db)
    ensures var (db', m) := CreateMsgByRawMsg(db, raw, now, true);
            && m.Some? && m.value.raw == raw
            && m.value.internalId == |Conversation(db.messages, raw.from, raw.to)| + 1
            && Conversations(db'.messages)
               == Conversations(db.messages)[(raw.from, raw.to) :=
                    Conversation(db.messages, raw.from, raw.to) + [m.value]]
  {
    CreateKeepsMessages(db, raw, now, true);
    ConversationsSnoc(db.messages, CreateMsgByRawMsg(db, raw, now, true).1.value);
  }

  /** Looking up number k finds exactly the k-th message of the conversation, and nothing else. */
  lemma GetMessageExact(rows: seq<Message>, from: int, to: int, k: int)
    requires WellNumbered(rows)
    ensures GetMessage(rows, from, to, k)
         == if 1 <= k <= |Conversation(rows, from, to)| then Some(Conversation(rows, from, to)[k - 1])
            else None
  {
    var c := Conversation(rows, from, to);
    var p := Numbered(from, to, k);
    var found := GetMessage(rows, from, to, k);
    if found.Some? {
      NumberIsPosition(rows, found.value);
    }
    assert 1 <= k <= |c| ==> c[k - 1] in c && p(c[k - 1]);
  }

  /** Every row is found under its own number. */
  lemma FoundUnderNumber(rows: seq<Message>, m: Message)
    requires WellNumbered(rows) && m in rows
    ensures GetMessage(rows, m.raw.from, m.raw.to, m.internalId) == Some(m)
  {
    NumberIsPosition(rows, m);
    GetMessageExact(rows, m.raw.from, m.raw.to, m.internalId);
  }

  /** At most one row answers to a number, so its lookup does not depend on the row order. */
  lemma NumbersAreUnique(rows: seq<Message>, from: int, to: int, k: int)
    requires WellNumbered(rows)
    ensures forall x, y :: x in rows && y in rows && Numbered(from, to, k)(x) && Numbered(from, to, k)(y) ==> x == y
  {
    forall x, y | x in rows && y in rows && Numbered(from, to, k)(x) && Numbered(from, to, k)(y)
      ensures x == y
    {
      NumberIsPosition(rows, x);
      NumberIsPosition(rows, y);
    }
  }

  /** Internal ids never exceed the row count, so they fit 32 bits while the rows do. */
  lemma InternalIdsBounded(rows: seq<Message>, m: Message)
    requires WellNumbered(rows) && m in rows
    ensures 1 <= m.internalId <= |rows|
  {
    NumberIsPosition(rows, m);
  }

  lemma CreateUserKeeps(db: Db, username: string, password: string, execOk: bool)
    requires DbOk(db)
    ensures var (db', ok) := CreateUser(db, username, password, execOk);
            && DbOk(db') && db'.messages == db.messages && db'.files == db.files
            && (ok ==> FindName(db'.users, username)
                       == Some(User(db'.lastUser, username, password)))
            && (forall id :: FindUser(db.users, id).Some? ==>
                  FindUser(db'.users, id) == FindUser(db.users, id))
  {
    var (db', ok) := CreateUser(db, username, password, execOk);
    if ok {
      var u := User(db'.lastUser, username, password);
      assert u in db'.users && Named(username)(u);
      assert forall i :: 0 <= i < |db.users| ==> db.users[i] in db.users && !Named(username)(db.users[i]);
      forall id | FindUser(db.users, id).Some?
        ensures FindUser(db'.users, id) == FindUser(db.users, id)
      {
        FindAppend(db.users, [u], WithId(id));
      }
    }
  }
}
