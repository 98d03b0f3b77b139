/** The database access object: every query steps through its rows in an order of the engine's choice. */
module Database {
  import opened Sequences
  import opened Protocol
  import opened Store

  /** A SELECT: the rows that meet the condition, each once, in any order. */
  method Select<T>(table: seq<T>, condition: T -> bool) returns (rows: seq<T>)
    ensures multiset(rows) == multiset(Filter(table, condition))
  {
    rows := Filter(table, condition);
  }

  lemma EverythingSelected<T>(table: seq<T>)
    ensures Filter(table, (x: T) => true) == table
  {
    if table != [] {
      EverythingSelected(table[..|table| - 1]);
    }
  }

  class DataAccess {
    var users: seq<User>
    var lastUser: nat
    var messages: seq<Message>
    var lastMessage: nat
    var files: map<string, FileRow>

    ghost function View(): Db
      reads this
    {
      Db(users, lastUser, messages, lastMessage, files)
    }

    ghost predicate Valid()
      reads this
    {
      DbOk(View())
    }

    /** Opens a database as it was left; tables are created, empty, only where there are none. */
    constructor (stored: Option<Db>)
      ensures View() == if stored.Some? then stored.value else EMPTY_DB
      ensures (stored.Some? ==> DbOk(stored.value)) ==> Valid()
    {
      var db := if stored.Some? then stored.value else EMPTY_DB;
      users, lastUser, messages, lastMessage, files := db.users, db.lastUser, db.messages, db.lastMessage, db.files;
    }

    method GetUserByName(username: string) returns (r: Option<User>)
      requires Valid()
      ensures r == FindName(users, username)
    {
      var rows := Select(users, Named(username));
      FirstSelectedIsFound(rows, users, Named(username));
      if rows != [] {
        return Some(rows[0]);
      }
      return None;
    }

    method GetUserById(id: int) returns (r: Option<User>)
      requires Valid()
      ensures r == FindUser(users, id)
    {
      var rows := Select(users, WithId(id));
      FirstSelectedIsFound(rows, users, WithId(id));
      if rows != [] {
        return Some(rows[0]);
      }
      return None;
    }

    method GetAllUsers() returns (result: seq<User>)
      ensures multiset(result) == multiset(users)
    {
      var rows := Select(users, u => true);
      EverythingSelected(users);
      result := [];
      for i := 0 to |rows|
        invariant result == rows[..i]
      {
        result := result + [rows[i]];
      }
      assert rows[..|rows|] == rows;
    }

    method GetAllMessages(from: int, to: int) returns (msgs: seq<Message>)
      ensures multiset(msgs) == multiset(Conversation(messages, from, to))
      ensures |msgs| == |Conversation(messages, from, to)|
    {
      var rows := Select(messages, InConversation(from, to));
      msgs := [];
      for i := 0 to |rows|
        invariant msgs == rows[..i]
      {
        msgs := msgs + [rows[i]];
      }
      assert rows[..|rows|] == rows;
      assert |multiset(msgs)| == |multiset(Conversation(messages, from, to))|;
    }

    method GetMessage(from: int, to: int, k: int) returns (r: Option<Message>)
      requires Valid()
      ensures r == Store.GetMessage(messages, from, to, k)
      ensures r == if 1 <= k <= |Conversation(messages, from, to)|
                   then Some(Conversation(messages, from, to)[k - 1]) else None
    {
      var rows := Select(messages, Numbered(from, to, k));
      NumbersAreUnique(messages, from, to, k);
      FirstSelectedIsFound(rows, messages, Numbered(from, to, k));
      GetMessageExact(messages, from, to, k);
      if rows != [] {
        return Some(rows[0]);
      }
      return None;
    }

    /** The UNIQUE constraint refuses a taken name; the exception is caught. */
    method CreateUser(username: string, password: string, execOk: bool) returns (ok: bool)
      modifies this`users, this`lastUser
      ensures (View(), ok) == Store.CreateUser(old(View()), username, password, execOk)
      ensures old(Valid()) ==> Valid()
    {
      if Valid() {
        CreateUserKeeps(View(), username, password, execOk);
      }
      if !execOk || FindName(users, username).Some? {
        return false;
      }
      lastUser := lastUser + 1;
      users := users + [User(lastUser, username, password)];
      return true;
    }

    method CreateMsg(m: Message, execOk: bool) returns (id: Option<int>)
      modifies this`messages, this`lastMessage
      ensures id == if execOk then Some(old(lastMessage) + 1) else None
      ensures View() == if execOk
                        then old(View()).(messages := old(messages) + [m.(id := old(lastMessage) + 1)],
                                          lastMessage := old(lastMessage) + 1)
                        else old(View())
    {
      if !execOk {
        return None;
      }
      lastMessage := lastMessage + 1;
      messages := messages + [m.(id := lastMessage)];
      return Some(lastMessage);
    }

    /** Scan for the maximum, in whatever order the rows come, and insert the next number. */
    method CreateMsgByRawMsg(raw: RawMessage, now: int, execOk: bool) returns (r: Option<Message>)
      modifies this`messages, this`lastMessage
      ensures (View(), r) == Store.CreateMsgByRawMsg(old(View()), raw, now, execOk)
      ensures old(Valid()) ==> Valid()
    {
      if Valid() {
        CreateKeepsMessages(View(), raw, now, execOk);
      }
      var msgs := GetAllMessages(raw.from, raw.to);
      var max := 0;
      for i := 0 to |msgs|
        invariant max == MaxInternalId(msgs[..i])
      {
        assert msgs[..i + 1][..i] == msgs[..i];
        if msgs[i].internalId > max {
          max := msgs[i].internalId;
        }
      }
      assert msgs[..|msgs|] == msgs;
      MaxAnyOrder(msgs, Conversation(messages, raw.from, raw.to));
      var m := Message(raw, 0, now, max + 1);
      var id := CreateMsg(m, execOk);
      if id.None? {
        return None;
      }
      return Some(m.(id := id.value));
    }

    /** The primary key refuses an id already drawn. */
    method CreateFile(uuid: string, execOk: bool) returns (r: Option<string>)
      modifies this`files
      ensures (View(), r) == Store.CreateFile(old(View()), uuid, execOk)
      ensures old(Valid()) ==> Valid()
    {
      if !execOk || uuid in files {
        return None;
      }
      files := files[uuid := FileRow("", "")];
      return Some(uuid);
    }

    method GetFile(id: string) returns (r: Option<FileRow>)
      ensures r == if id in files then Some(files[id]) else None
    {
      r := if id in files then Some(files[id]) else None;
    }

    method UpdateFile(id: string, row: FileRow, execOk: bool) returns (ok: bool)
      modifies this`files
      ensures (View(), ok) == Store.UpdateFile(old(View()), id, row, execOk)
      ensures old(Valid()) ==> Valid()
    {
      if !execOk || id !in files {
        return false;
      }
      files := files[id := row];
      return true;
    }
  }
}
