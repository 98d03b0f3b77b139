/**
 Which notifications are queued, over whole runs in which replies and callbacks of any
 number of requests interleave: text messages exactly once, file messages only after their
 file is stored, and nothing twice.
 */
module Notifications {
  import opened Sequences
  import opened Protocol
  import opened Store
  import opened Handlers
  import opened Machine
  import Files
  import Delivery

  /** The callback carries a message that is to be announced. */
  predicate Carries(c: Callback) {
    c.NotifyCallback? || c.DeferCallback?
  }

  /** The message as it was stored: a deferred message differs from its row in content only. */
  ghost predicate FromRow(db: Db, c: Callback)
    requires Carries(c)
  {
    var m := c.message;
    && c.receiver == m.raw.to && 1 <= m.id <= db.lastMessage
    && (c.NotifyCallback? ==> !IsFileKind(m.raw.kind) && m in db.messages)
    && (c.DeferCallback? ==>
          && IsFileKind(m.raw.kind) && m.raw.content == c.fileId && c.fileId in db.files
          && exists content :: m.(raw := m.raw.(content := content)) in db.messages)
  }

  ghost predicate SavedBefore(log: seq<Event>, id: string, n: int) {
    exists k :: 0 <= k < |log| && k < n && Files.Saves(log[k], id)
  }

  ghost predicate FlightOk(m: State, t: nat)
    requires t in m.flights
  {
    var c := m.flights[t].callback;
    && t < m.next
    && (Carries(c) ==> FromRow(m.sys.db, c))
    && (c.UploadCallback? ==> SavedBefore(m.log, c.fileId, |m.log|))
  }

  /** Two callbacks about the same message, or the same file: they belong to one request. */
  predicate Clash(a: Callback, b: Callback) {
    || (Carries(a) && Carries(b) && a.message.id == b.message.id)
    || (a.DeferCallback? && b.DeferCallback? && a.fileId == b.fileId)
    || (a.UploadCallback? && b.UploadCallback? && a.fileId == b.fileId)
  }

  ghost predicate NoClash(flights: map<nat, Flight>) {
    forall t, u :: t in flights && u in flights && Clash(flights[t].callback, flights[u].callback) ==> t == u
  }

  /** Flight `t` is the request behind notification `e`, and its callback has run. */
  predicate Behind(flights: map<nat, Flight>, t: nat, e: Event) {
    && t in flights && e.Notified? && flights[t].status.Done?
    && match e.uploadOf
       case None => flights[t].callback == NotifyCallback(e.receiver, e.message) && flights[t].status.notified
       case Some(id) => flights[t].callback == DeferCallback(id, e.receiver, e.message)
  }

  /** Flight `t` is the upload whose callback announced file `id`. */
  predicate Announces(flights: map<nat, Flight>, t: nat, id: string) {
    t in flights && flights[t].callback == UploadCallback(id) && flights[t].status == Done(true)
  }

  predicate Pooled(flights: map<nat, Flight>, t: nat, id: string, d: Deferred) {
    t in flights && flights[t].status.Done? && flights[t].callback == DeferCallback(id, d.receiver, d.message)
  }

  ghost predicate NoticeOk(m: State, i: int)
    requires 0 <= i < |m.log| && m.log[i].Notified?
  {
    var e := m.log[i];
    && (exists t :: Behind(m.flights, t, e))
    && (e.uploadOf.Some? ==>
          && e.uploadOf.value !in m.sys.deferred && SavedBefore(m.log, e.uploadOf.value, i)
          && exists t :: Announces(m.flights, t, e.uploadOf.value))
  }

  ghost predicate NoRepeat(log: seq<Event>) {
    forall i, j :: 0 <= i < j < |log| && log[i].Notified? && log[j].Notified? ==> log[i].message.id != log[j].message.id
  }

  ghost predicate Noted(m: State, t: nat)
    requires t in m.flights
  {
    var f := m.flights[t];
    f.status == Done(true) ==>
      && (f.callback.NotifyCallback? ==>
            exists i :: 0 <= i < |m.log| && m.log[i] == Notified(f.callback.receiver, f.callback.message, None))
      && (f.callback.UploadCallback? ==>
            exists i :: 0 <= i < |m.log| && m.log[i].Notified? && m.log[i].uploadOf == Some(f.callback.fileId))
  }

  ghost predicate Inv(m: State) {
    && (forall t :: t in m.flights ==> FlightOk(m, t) && Noted(m, t))
    && NoClash(m.flights)
    && (forall id :: id in m.sys.deferred ==> exists t :: Pooled(m.flights, t, id, m.sys.deferred[id]))
    && (forall i :: 0 <= i < |m.log| && m.log[i].Notified? ==> NoticeOk(m, i))
    && NoRepeat(m.log)
  }

  // ----- what every step keeps

  /** Requests keep their callback, and finished ones their outcome. */
  ghost predicate FlightsKept(a: map<nat, Flight>, b: map<nat, Flight>) {
    forall t :: t in a ==> t in b && b[t].callback == a[t].callback && (a[t].status.Done? ==> b[t] == a[t])
  }

  lemma SavedPersists(log: seq<Event>, e: Event, id: string, n: int)
    requires SavedBefore(log, id, n)
    ensures SavedBefore(log + [e], id, n) && SavedBefore(log + [e], id, n + 1)
  {
    var k :| 0 <= k < |log| && k < n && Files.Saves(log[k], id);
    assert (log + [e])[k] == log[k];
  }

  lemma FlightPersists(m: State, m': State, t: nat)
    requires t in m.flights && FlightOk(m, t)
    requires FlightsKept(m.flights, m'.flights) && m.next <= m'.next
    requires |m'.log| == |m.log| + 1 && m'.log == m.log + [Last(m')]
    requires m.sys.db.messages <= m'.sys.db.messages && m.sys.db.files.Keys <= m'.sys.db.files.Keys
    requires m.sys.db.lastMessage <= m'.sys.db.lastMessage
    ensures FlightOk(m', t)
  {
    var c := m.flights[t].callback;
    if c.UploadCallback? {
      SavedPersists(m.log, Last(m'), c.fileId, |m.log|);
    }
    if c.DeferCallback? {
      var msg := c.message;
      var content :| msg.(raw := msg.raw.(content := content)) in m.sys.db.messages;
      assert msg.(raw := msg.raw.(content := content)) in m'.sys.db.messages;
    }
  }

  /** An earlier notification keeps its request, and its file stays out of the pool. */
  lemma NoticePersists(m: State, m': State, i: int)
    requires 0 <= i < |m.log| && m.log[i].Notified? && NoticeOk(m, i)
    requires FlightsKept(m.flights, m'.flights)
    requires |m'.log| == |m.log| + 1 && m'.log == m.log + [Last(m')]
    requires forall id :: id in m'.sys.deferred && id !in m.sys.deferred ==> m.log[i].uploadOf != Some(id)
    ensures m'.log[i] == m.log[i] && NoticeOk(m', i)
  {
    var e := m.log[i];
    assert m'.log[i] == e;
    var t :| Behind(m.flights, t, e);
    assert Behind(m'.flights, t, e);
    if e.uploadOf.Some? {
      var u :| Announces(m.flights, u, e.uploadOf.value);
      assert Announces(m'.flights, u, e.uploadOf.value);
      SavedPersists(m.log, Last(m'), e.uploadOf.value, i);
    }
  }

  lemma NotedPersists(m: State, m': State, t: nat)
    requires t in m.flights && Noted(m, t) && t in m'.flights && m'.flights[t].callback == m.flights[t].callback
    requires m'.flights[t].status == Done(true) ==> m.flights[t].status == Done(true)
    requires m.log <= m'.log
    ensures Noted(m', t)
  {
    var f := m.flights[t];
    if f.status == Done(true) {
      assert forall i :: 0 <= i < |m.log| ==> m'.log[i] == m.log[i];
    }
  }

  /** What every step does to the parts of the state that the invariant speaks of. */
  ghost predicate Extends(m: State, m': State) {
    && FlightsKept(m.flights, m'.flights) && m.next <= m'.next
    && |m'.log| == |m.log| + 1 && m'.log == m.log + [Last(m')]
    && m.sys.db.messages <= m'.sys.db.messages && m.sys.db.files.Keys <= m'.sys.db.files.Keys
    && m.sys.db.lastMessage <= m'.sys.db.lastMessage
  }

  lemma PoolKept(m: State, m': State)
    requires Inv(m) && Extends(m, m')
    requires m'.sys.deferred.Keys <= m.sys.deferred.Keys
    requires forall id :: id in m'.sys.deferred ==> m'.sys.deferred[id] == m.sys.deferred[id]
    ensures forall id :: id in m'.sys.deferred ==> exists t :: Pooled(m'.flights, t, id, m'.sys.deferred[id])
  {
    forall id | id in m'.sys.deferred ensures exists t :: Pooled(m'.flights, t, id, m'.sys.deferred[id]) {
      var t :| Pooled(m.flights, t, id, m.sys.deferred[id]);
      assert Pooled(m'.flights, t, id, m'.sys.deferred[id]);
    }
  }

  lemma LogKept(m: State, m': State)
    requires Inv(m) && Extends(m, m') && Last(m').Notified? && NoticeOk(m', |m.log|)
    requires forall i :: 0 <= i < |m.log| && m.log[i].Notified? ==>
               m'.log[i] == m.log[i] && NoticeOk(m', i) && m.log[i].message.id != Last(m').message.id
    ensures forall i :: 0 <= i < |m'.log| && m'.log[i].Notified? ==> NoticeOk(m', i)
    ensures NoRepeat(m'.log)
  {
    assert forall i :: 0 <= i < |m.log| ==> m'.log[i] == m.log[i];
  }

  lemma PoolAndLogKept(m: State, m': State)
    requires Inv(m) && Extends(m, m') && !Last(m').Notified?
    requires m'.sys.deferred.Keys <= m.sys.deferred.Keys
    requires forall id :: id in m'.sys.deferred ==> m'.sys.deferred[id] == m.sys.deferred[id]
    ensures forall id :: id in m'.sys.deferred ==> exists t :: Pooled(m'.flights, t, id, m'.sys.deferred[id])
    ensures forall i :: 0 <= i < |m'.log| && m'.log[i].Notified? ==> NoticeOk(m', i)
    ensures NoRepeat(m'.log)
  {
    PoolKept(m, m');
    forall i | 0 <= i < |m'.log| && m'.log[i].Notified? ensures NoticeOk(m', i) {
      assert m'.log[i] == m.log[i];
      NoticePersists(m, m', i);
    }
    assert forall i :: 0 <= i < |m.log| ==> m'.log[i] == m.log[i];
  }

  // ----- a request arrives

  lemma HandleGrows(sha: string -> string, s: Sys, request: Request, fd: int, env: Env)
    requires DbOk(s.db)
    ensures var db := Handle(sha, s, request, fd, env).sys.db;
            && s.db.messages <= db.messages && s.db.files.Keys <= db.files.Keys && s.db.lastMessage <= db.lastMessage
  {
    HandleIsEvent(sha, s, request, fd, env);
  }

  lemma ArrivalExtends(sha: string -> string, m: State, request: Request, fd: int, env: Env)
    requires DbOk(m.sys.db) && Inv(m)
    ensures Extends(m, Next(sha, m, Arrive(request, fd, env)))
  {
    HandleGrows(sha, m.sys, request, fd, env);
    assert m.next in m.flights ==> FlightOk(m, m.next);
  }

  lemma NewSendOk(s: Sys, token: string, raw: RawMessage, env: Env)
    requires DbOk(s.db)
    ensures var o := SendMessage(s, token, raw, env);
            !o.callback.UploadCallback? && (Carries(o.callback) ==> FromRow(o.sys.db, o.callback))
  {
    var o := SendMessage(s, token, raw, env);
    if Carries(o.callback) {
      var row := o.event.row;
      assert row in o.sys.db.messages;
      assert row == o.callback.message.(raw := o.callback.message.raw.(content := row.raw.content));
    }
  }

  lemma NewFlightOk(sha: string -> string, m: State, request: Request, fd: int, env: Env)
    requires DbOk(m.sys.db)
    ensures var m' := Next(sha, m, Arrive(request, fd, env)); FlightOk(m', m.next) && Noted(m', m.next)
  {
    var m' := Next(sha, m, Arrive(request, fd, env));
    match request
    case SendMessageRequest(token, raw) => NewSendOk(m.sys, token, raw, env);
    case FileUploadRequest(_, id, _, _) =>
      if m'.flights[m.next].callback.UploadCallback? {
        assert Files.Saves(m'.log[|m.log|], id);
      }
    case _ =>
  }

  lemma NewFlightIsNew(sha: string -> string, s: Sys, request: Request, fd: int, env: Env, c: Callback)
    requires Carries(c) ==> FromRow(s.db, c)
    requires c.UploadCallback? ==> c.fileId in s.disk
    ensures !Clash(c, Handle(sha, s, request, fd, env).callback)
  {
  }

  lemma SavedIsOnDisk(m: State, t: nat)
    requires Files.Inv(m.sys, m.log) && t in m.flights && FlightOk(m, t) && m.flights[t].callback.UploadCallback?
    ensures m.flights[t].callback.fileId in m.sys.disk
  {
    var k :| 0 <= k < |m.log| && Files.Saves(m.log[k], m.flights[t].callback.fileId);
  }

  lemma ArrivalKeepsNoClash(sha: string -> string, m: State, request: Request, fd: int, env: Env)
    requires Inv(m) && Files.Inv(m.sys, m.log)
    ensures NoClash(Next(sha, m, Arrive(request, fd, env)).flights)
  {
    var flights := Next(sha, m, Arrive(request, fd, env)).flights;
    forall t, u | t in flights && u in flights && Clash(flights[t].callback, flights[u].callback)
      ensures t == u
    {
      if t != m.next {
        assert FlightOk(m, t);
        if m.flights[t].callback.UploadCallback? { SavedIsOnDisk(m, t); }
        NewFlightIsNew(sha, m.sys, request, fd, env, flights[t].callback);
      }
      if u != m.next {
        assert FlightOk(m, u);
        if m.flights[u].callback.UploadCallback? { SavedIsOnDisk(m, u); }
        NewFlightIsNew(sha, m.sys, request, fd, env, flights[u].callback);
      }
    }
  }

  lemma ArrivalKeeps(sha: string -> string, m: State, request: Request, fd: int, env: Env)
    requires DbOk(m.sys.db) && Inv(m) && Files.Inv(m.sys, m.log)
    ensures Inv(Next(sha, m, Arrive(request, fd, env)))
  {
    var m' := Next(sha, m, Arrive(request, fd, env));
    ArrivalExtends(sha, m, request, fd, env);
    HandlersKeepChannels(sha, m.sys, request, fd, env);
    ArrivalKeepsNoClash(sha, m, request, fd, env);
    NewFlightOk(sha, m, request, fd, env);
    forall t | t in m'.flights ensures FlightOk(m', t) && Noted(m', t) {
      if t != m.next {
        FlightPersists(m, m', t);
        NotedPersists(m, m', t);
      }
    }
    PoolAndLogKept(m, m');
  }

  // ----- a callback runs

  /** Requests whose own status did not become `Done(true)` keep all they had. */
  lemma CallKeepsFlights(m: State, m': State, t: nat)
    requires Inv(m) && Extends(m, m') && t in m.flights && m'.flights.Keys == m.flights.Keys
    requires forall u :: u in m.flights && u != t ==> m'.flights[u] == m.flights[u]
    requires Noted(m', t)
    ensures forall u :: u in m'.flights ==> FlightOk(m', u) && Noted(m', u)
    ensures NoClash(m'.flights)
  {
    forall u | u in m'.flights ensures FlightOk(m', u) && Noted(m', u) {
      FlightPersists(m, m', u);
      if u != t {
        NotedPersists(m, m', u);
      }
    }
    forall u, v | u in m'.flights && v in m'.flights && Clash(m'.flights[u].callback, m'.flights[v].callback)
      ensures u == v
    {
      assert Clash(m.flights[u].callback, m.flights[v].callback);
    }
  }

  /** No earlier notification is about the message of a request whose callback had not run. */
  lemma NotYetNotified(m: State, t: nat, i: int)
    requires Inv(m) && t in m.flights && Carries(m.flights[t].callback) && !m.flights[t].status.Done?
    requires 0 <= i < |m.log| && m.log[i].Notified?
    ensures m.log[i].message.id != m.flights[t].callback.message.id
    ensures m.flights[t].callback.DeferCallback? ==> m.log[i].uploadOf != Some(m.flights[t].callback.fileId)
  {
    assert NoticeOk(m, i);
    var u :| Behind(m.flights, u, m.log[i]);
    assert Clash(m.flights[t].callback, m.flights[u].callback) ==> t == u;
  }

  /** No earlier notification is about a message that is still in the pool. */
  lemma PooledNotNotified(m: State, id: string, i: int)
    requires Inv(m) && id in m.sys.deferred
    requires 0 <= i < |m.log| && m.log[i].Notified?
    ensures m.log[i].message.id != m.sys.deferred[id].message.id
  {
    var d := m.sys.deferred[id];
    assert NoticeOk(m, i);
    var u :| Behind(m.flights, u, m.log[i]);
    var t :| Pooled(m.flights, t, id, d);
    assert Clash(m.flights[t].callback, m.flights[u].callback) ==> t == u;
  }

  lemma NotifyKeeps(sha: string -> string, m: State, t: nat, users: seq<User>)
    requires Inv(m) && CanCall(m, t, users) && m.flights[t].callback.NotifyCallback?
    ensures Inv(Next(sha, m, Call(t, users)))
  {
    var m' := Next(sha, m, Call(t, users));
    assert Extends(m, m');
    if Last(m').Notified? {
      assert m'.log[|m.log|] == Last(m');
      assert Behind(m'.flights, t, Last(m'));
      CallKeepsFlights(m, m', t);
      PoolKept(m, m');
      forall i | 0 <= i < |m.log| && m.log[i].Notified?
        ensures NoticeOk(m', i) && m'.log[i] == m.log[i] && m.log[i].message.id != Last(m').message.id
      {
        NoticePersists(m, m', i);
        NotYetNotified(m, t, i);
      }
      LogKept(m, m');
    } else {
      CallKeepsFlights(m, m', t);
      PoolAndLogKept(m, m');
    }
  }

  lemma DeferKeepsLog(m: State, m': State, t: nat)
    requires Inv(m) && Extends(m, m') && !Last(m').Notified?
    requires t in m.flights && m.flights[t].callback.DeferCallback? && !m.flights[t].status.Done?
    requires m'.sys.deferred.Keys <= m.sys.deferred.Keys + {m.flights[t].callback.fileId}
    ensures forall i :: 0 <= i < |m'.log| && m'.log[i].Notified? ==> NoticeOk(m', i)
    ensures NoRepeat(m'.log)
  {
    forall i | 0 <= i < |m'.log| && m'.log[i].Notified? ensures NoticeOk(m', i) {
      assert m'.log[i] == m.log[i];
      NotYetNotified(m, t, i);
      NoticePersists(m, m', i);
    }
    assert forall i :: 0 <= i < |m.log| ==> m'.log[i] == m.log[i];
  }

  lemma DeferKeeps(sha: string -> string, m: State, t: nat, users: seq<User>)
    requires Inv(m) && CanCall(m, t, users) && m.flights[t].callback.DeferCallback?
    ensures Inv(Next(sha, m, Call(t, users)))
  {
    var m' := Next(sha, m, Call(t, users));
    var c := m.flights[t].callback;
    assert Extends(m, m');
    CallKeepsFlights(m, m', t);
    forall id | id in m'.sys.deferred ensures exists u :: Pooled(m'.flights, u, id, m'.sys.deferred[id]) {
      if id == c.fileId {
        assert Pooled(m'.flights, t, id, m'.sys.deferred[id]);
      } else {
        var u :| Pooled(m.flights, u, id, m.sys.deferred[id]);
        assert Pooled(m'.flights, u, id, m'.sys.deferred[id]);
      }
    }
    DeferKeepsLog(m, m', t);
  }

  predicate RunsUpload(m: State, t: nat, users: seq<User>) {
    CanCall(m, t, users) && m.flights[t].callback.UploadCallback?
  }

  lemma UploadTakes(s: Sys, id: string)
    ensures var (s', e) := RunUpload(s, id);
            && s'.db == s.db && s'.deferred.Keys <= s.deferred.Keys
            && (forall other :: other in s'.deferred ==> s'.deferred[other] == s.deferred[other])
            && (e.Notified? ==>
                  && id in s.deferred && id !in s'.deferred
                  && e == Notified(s.deferred[id].receiver, s.deferred[id].message, Some(id)))
  {
  }

  lemma UploadEffect(sha: string -> string, m: State, t: nat, users: seq<User>)
    requires Inv(m) && RunsUpload(m, t, users)
    ensures var m', id := Next(sha, m, Call(t, users)), m.flights[t].callback.fileId;
            && Extends(m, m') && m'.flights == m.flights[t := m.flights[t].(status := Done(Last(m').Notified?))]
            && m'.log[|m.log|] == Last(m')
            && m'.sys.deferred.Keys <= m.sys.deferred.Keys
            && (forall id :: id in m'.sys.deferred ==> m'.sys.deferred[id] == m.sys.deferred[id])
            && (Last(m').Notified? ==>
                  && id in m.sys.deferred && id !in m'.sys.deferred
                  && Last(m') == Notified(m.sys.deferred[id].receiver, m.sys.deferred[id].message, Some(id)))
  {
    UploadTakes(m.sys, m.flights[t].callback.fileId);
  }

  lemma UploadNoticeOk(sha: string -> string, m: State, t: nat, users: seq<User>)
    requires Inv(m) && RunsUpload(m, t, users) && Last(Next(sha, m, Call(t, users))).Notified?
    ensures NoticeOk(Next(sha, m, Call(t, users)), |m.log|)
  {
    var m', id := Next(sha, m, Call(t, users)), m.flights[t].callback.fileId;
    UploadEffect(sha, m, t, users);
    assert FlightOk(m, t);
    SavedPersists(m.log, Last(m'), id, |m.log|);
    var u :| Pooled(m.flights, u, id, m.sys.deferred[id]);
    assert Behind(m'.flights, u, Last(m')) && Announces(m'.flights, t, id);
  }

  lemma UploadKeeps(sha: string -> string, m: State, t: nat, users: seq<User>)
    requires Inv(m) && RunsUpload(m, t, users)
    ensures Inv(Next(sha, m, Call(t, users)))
  {
    var m', id := Next(sha, m, Call(t, users)), m.flights[t].callback.fileId;
    UploadEffect(sha, m, t, users);
    CallKeepsFlights(m, m', t);
    if Last(m').Notified? {
      UploadNoticeOk(sha, m, t, users);
      PoolKept(m, m');
      forall i | 0 <= i < |m.log| && m.log[i].Notified?
        ensures NoticeOk(m', i) && m'.log[i] == m.log[i] && m.log[i].message.id != Last(m').message.id
      {
        NoticePersists(m, m', i);
        PooledNotNotified(m, id, i);
      }
      LogKept(m, m');
    } else {
      PoolAndLogKept(m, m');
    }
  }

  predicate RunsQuietCallback(m: State, step: Step) {
    step.Call? && CanCall(m, step.flight, step.users) ==>
      m.flights[step.flight].callback.NoCallback? || m.flights[step.flight].callback.SetupCallback?
  }

  lemma OtherStepsExtend(sha: string -> string, m: State, step: Step)
    requires !step.Arrive? && RunsQuietCallback(m, step)
    ensures var m' := Next(sha, m, step);
            && Extends(m, m') && m'.flights.Keys == m.flights.Keys && !Last(m').Notified?
            && (forall t :: t in m.flights ==>
                  && m'.flights[t].callback == m.flights[t].callback
                  && (m'.flights[t].status == Done(true) ==> m.flights[t].status == Done(true)))
            && m'.sys.deferred.Keys <= m.sys.deferred.Keys
            && (forall id :: id in m'.sys.deferred ==> m'.sys.deferred[id] == m.sys.deferred[id])
  {
  }

  lemma OtherStepsKeep(sha: string -> string, m: State, step: Step)
    requires Inv(m) && !step.Arrive? && RunsQuietCallback(m, step)
    ensures Inv(Next(sha, m, step))
  {
    OtherStepsExtend(sha, m, step);
    var m' := Next(sha, m, step);
    forall t | t in m'.flights ensures FlightOk(m', t) && Noted(m', t) {
      FlightPersists(m, m', t);
      NotedPersists(m, m', t);
    }
    forall t, u | t in m'.flights && u in m'.flights && Clash(m'.flights[t].callback, m'.flights[u].callback)
      ensures t == u
    {
      assert Clash(m.flights[t].callback, m.flights[u].callback);
    }
    PoolAndLogKept(m, m');
  }

  lemma StepKeeps(sha: string -> string, m: State, step: Step)
    requires DbOk(m.sys.db) && Inv(m) && Files.Inv(m.sys, m.log)
    ensures Inv(Next(sha, m, step))
  {
    if step.Arrive? {
      ArrivalKeeps(sha, m, step.request, step.fd, step.env);
    } else if step.Call? && CanCall(m, step.flight, step.users) && m.flights[step.flight].callback.NotifyCallback? {
      NotifyKeeps(sha, m, step.flight, step.users);
    } else if step.Call? && CanCall(m, step.flight, step.users) && m.flights[step.flight].callback.DeferCallback? {
      DeferKeeps(sha, m, step.flight, step.users);
    } else if step.Call? && CanCall(m, step.flight, step.users) && m.flights[step.flight].callback.UploadCallback? {
      UploadKeeps(sha, m, step.flight, step.users);
    } else {
      OtherStepsKeep(sha, m, step);
    }
  }

  lemma {:induction false} RunKeeps(sha: string -> string, steps: seq<Step>)
    ensures var m := Run(sha, INIT, steps); DbOk(m.sys.db) && Inv(m)
  {
    RunsReplay(sha, steps);
    if steps != [] {
      RunKeeps(sha, steps[..|steps| - 1]);
      Files.RunKeeps(sha, steps[..|steps| - 1]);
      StepKeeps(sha, Run(sha, INIT, steps[..|steps| - 1]), steps[|steps| - 1]);
    }
  }

  lemma Reached(sha: string -> string, m: State)
    requires Reachable(sha, m)
    ensures DbOk(m.sys.db) && Inv(m)
  {
    var steps :| m == Run(sha, INIT, steps);
    RunKeeps(sha, steps);
  }

  predicate SameOutcome(a: Flight, b: Flight) {
    b.callback == a.callback && (a.status.Done? || a.status.Lost? ==> b.status == a.status)
  }

  lemma StepKeepsOutcome(sha: string -> string, m: State, step: Step, t: nat)
    requires t in m.flights && t < m.next
    ensures var m' := Next(sha, m, step); t in m'.flights && t < m'.next && SameOutcome(m.flights[t], m'.flights[t])
  {
  }

  lemma {:induction false} RunKeepsOutcome(sha: string -> string, m: State, steps: seq<Step>, t: nat)
    requires t in m.flights && t < m.next
    ensures var m' := Run(sha, m, steps); t in m'.flights && t < m'.next && SameOutcome(m.flights[t], m'.flights[t])
  {
    if steps != [] {
      RunKeepsOutcome(sha, m, steps[..|steps| - 1], t);
      StepKeepsOutcome(sha, Run(sha, m, steps[..|steps| - 1]), steps[|steps| - 1], t);
    }
  }

  /** A request keeps its callback, and once finished or lost it stays so. */
  lemma FinishedStaysFinished(sha: string -> string, m: State, m': State, t: nat)
    requires Reachable(sha, m) && t in m.flights && Leads(sha, m, m')
    ensures t in m'.flights && SameOutcome(m.flights[t], m'.flights[t])
  {
    Reached(sha, m);
    assert FlightOk(m, t);
    var steps :| m' == Run(sha, m, steps);
    RunKeepsOutcome(sha, m, steps, t);
  }

  // ----- main results

  /**
   Text notifications are exactly once: in every reachable state the message of an accepted
   text send has been announced if and only if its callback found a sender for the receiver,
   then once, to its receiver, as the very row that is stored.
   */
  lemma TextNotifiedExactlyOnce(sha: string -> string, m: State, t: nat)
    requires Reachable(sha, m) && t in m.flights && m.flights[t].callback.NotifyCallback?
    ensures var c := m.flights[t].callback;
            && c.message in m.sys.db.messages && c.receiver == c.message.raw.to
            && (m.flights[t].status == Done(true) <==>
                  exists i :: 0 <= i < |m.log| && m.log[i] == Notified(c.receiver, c.message, None))
            && (forall i :: 0 <= i < |m.log| && m.log[i].Notified? && m.log[i].message.id == c.message.id ==>
                  m.log[i] == Notified(c.receiver, c.message, None))
            && (forall i, j :: 0 <= i < j < |m.log| && m.log[i] == Notified(c.receiver, c.message, None) ==>
                  m.log[j] != m.log[i])
  {
    Reached(sha, m);
    var c := m.flights[t].callback;
    assert FlightOk(m, t) && Noted(m, t);
    forall i | 0 <= i < |m.log| && m.log[i].Notified? && m.log[i].message.id == c.message.id
      ensures m.log[i] == Notified(c.receiver, c.message, None) && m.flights[t].status == Done(true)
    {
      assert NoticeOk(m, i);
      var u :| Behind(m.flights, u, m.log[i]);
      assert Clash(m.flights[t].callback, m.flights[u].callback);
    }
  }

  /**
   The deciding moment: over the whole continuation, an accepted text message is announced
   exactly if its receiver has a sender when the callback runs, and then it is queued there
   and then.
   */
  lemma TextNotifiedIffOnline(sha: string -> string, m: State, t: nat, users: seq<User>, m': State)
    requires Reachable(sha, m) && CanCall(m, t, users) && m.flights[t].callback.NotifyCallback?
    requires Leads(sha, Next(sha, m, Call(t, users)), m')
    ensures var m1, c := Next(sha, m, Call(t, users)), m.flights[t].callback;
            && (HasSender(m.sys, c.receiver) <==>
                  exists i :: 0 <= i < |m'.log| && m'.log[i] == Notified(c.receiver, c.message, None))
            && (HasSender(m.sys, c.receiver) ==>
                  c.receiver in m1.sys.channels && m1.sys.channels[c.receiver].queue
                  == m.sys.channels[c.receiver].queue + [ContactMessageListRequest([c.message])])
  {
    ReachableOn(sha, m, Call(t, users), m');
    FinishedStaysFinished(sha, Next(sha, m, Call(t, users)), m', t);
    TextNotifiedExactlyOnce(sha, m', t);
  }

  /** A message whose reply was lost, or not sent yet, has not been announced to anyone. */
  lemma UnansweredIsUnannounced(sha: string -> string, m: State, t: nat, i: int)
    requires Reachable(sha, m) && t in m.flights && Carries(m.flights[t].callback) && !m.flights[t].status.Done?
    requires 0 <= i < |m.log| && m.log[i].Notified?
    ensures m.log[i].message.id != m.flights[t].callback.message.id
  {
    Reached(sha, m);
    NotYetNotified(m, t, i);
  }

  lemma RequestBehind(m: State, i: int) returns (t: nat)
    requires Inv(m) && 0 <= i < |m.log| && m.log[i].Notified?
    ensures Behind(m.flights, t, m.log[i])
    ensures m.log[i].receiver == m.log[i].message.raw.to
    ensures if IsFileKind(m.log[i].message.raw.kind) then m.log[i].uploadOf == Some(m.log[i].message.raw.content)
            else m.log[i].uploadOf == None
  {
    assert NoticeOk(m, i);
    t :| Behind(m.flights, t, m.log[i]);
    assert FlightOk(m, t);
  }

  /**
   File announcements are safe: a notification of a file message goes to that message's
   receiver and names a file whose bytes an earlier upload stored and which are on disk; and
   no file is announced twice.
   */
  lemma FileNotificationsAreSafe(sha: string -> string, m: State, i: int)
    requires Reachable(sha, m)
    requires 0 <= i < |m.log| && m.log[i].Notified? && IsFileKind(m.log[i].message.raw.kind)
    ensures var id := m.log[i].message.raw.content;
            && m.log[i].receiver == m.log[i].message.raw.to
            && m.log[i].uploadOf == Some(id)
            && id in m.sys.disk
            && (exists k :: 0 <= k < i && Files.Saves(m.log[k], id) && m.log[k].written == Some(m.sys.disk[id]))
            && (forall j :: 0 <= j < |m.log| && j != i && m.log[j].Notified? && IsFileKind(m.log[j].message.raw.kind)
                  ==> m.log[j].message.raw.content != id)
  {
    Reached(sha, m);
    Files.Reached(sha, m);
    var t := RequestBehind(m, i);
    var id := m.log[i].uploadOf.value;
    assert NoticeOk(m, i);
    var k :| 0 <= k < |m.log| && k < i && Files.Saves(m.log[k], id);
    forall j | 0 <= j < |m.log| && j != i && m.log[j].Notified? && IsFileKind(m.log[j].message.raw.kind)
      ensures m.log[j].message.raw.content != id
    {
      var u := RequestBehind(m, j);
      assert Clash(m.flights[t].callback, m.flights[u].callback) ==> t == u;
    }
  }

  lemma UploadStatusDecides(sha: string -> string, m: State, t: nat)
    requires Reachable(sha, m) && t in m.flights && m.flights[t].callback.UploadCallback?
    ensures var id := m.flights[t].callback.fileId;
            m.flights[t].status == Done(true) <==>
              exists i :: 0 <= i < |m.log| && m.log[i].Notified? && m.log[i].uploadOf == Some(id)
  {
    var id := m.flights[t].callback.fileId;
    Reached(sha, m);
    assert FlightOk(m, t) && Noted(m, t);
    forall i | 0 <= i < |m.log| && m.log[i].Notified? && m.log[i].uploadOf == Some(id)
      ensures m.flights[t].status == Done(true)
    {
      assert NoticeOk(m, i);
      var u :| Announces(m.flights, u, id);
      assert Clash(m.flights[t].callback, m.flights[u].callback);
    }
  }

  /**
   The announcement of a file can be missed for good: over the whole continuation, a file is
   announced exactly if its message is in the pool and the receiver has a sender when the
   callback of its one successful upload runs. A message that enters the pool later, or a
   receiver who connects later, is never told.
   */
  lemma FileAnnouncedIffPooledAndOnline(sha: string -> string, m: State, t: nat, users: seq<User>, m': State)
    requires Reachable(sha, m) && CanCall(m, t, users) && m.flights[t].callback.UploadCallback?
    requires Leads(sha, Next(sha, m, Call(t, users)), m')
    ensures var id := m.flights[t].callback.fileId;
            (id in m.sys.deferred && HasSender(m.sys, m.sys.deferred[id].receiver)) <==>
              exists i :: 0 <= i < |m'.log| && m'.log[i].Notified? && m'.log[i].uploadOf == Some(id)
  {
    ReachableOn(sha, m, Call(t, users), m');
    FinishedStaysFinished(sha, Next(sha, m, Call(t, users)), m', t);
    UploadStatusDecides(sha, m', t);
  }

  lemma {:induction false} PushIsEvent(log: seq<Event>, uid: int, k: nat) returns (i: nat)
    requires k < |Delivery.PushesTo(log, uid)|
    ensures i < |log| && Delivery.PushOf(log[i], uid) == [Delivery.PushesTo(log, uid)[k]]
  {
    var init := log[..|log| - 1];
    if k < |Delivery.PushesTo(init, uid)| {
      i := PushIsEvent(init, uid, k);
    } else {
      i := |log| - 1;
    }
  }

  lemma {:induction false} ListsAreLists(sha: string -> string, steps: seq<Step>, i: int)
    requires 0 <= i < |Run(sha, INIT, steps).log|
    ensures var e := Run(sha, INIT, steps).log[i]; e.ChannelSet? ==> e.list.ContactListRequest?
  {
    var init, step := steps[..|steps| - 1], steps[|steps| - 1];
    RunsReplay(sha, init);
    StepIsEvent(sha, Run(sha, INIT, init), step);
    if i < |Run(sha, INIT, init).log| {
      ListsAreLists(sha, init, i);
    }
  }

  lemma CarriedIsNotified(sha: string -> string, m: State, uid: int, k: nat) returns (i: nat)
    requires Reachable(sha, m) && uid in m.sys.channels && k < |m.sys.channels[uid].Flow()|
    requires m.sys.channels[uid].Flow()[k].ContactMessageListRequest?
    ensures i < |m.log| && m.log[i].Notified? && m.log[i].receiver == uid
    ensures m.sys.channels[uid].Flow()[k] == ContactMessageListRequest([m.log[i].message])
  {
    var flow, pushes := m.sys.channels[uid].Flow(), Delivery.PushesTo(m.log, uid);
    Delivery.PacketsKeepPushOrder(sha, m, uid);
    var idx: seq<nat> :| Embeds(idx, flow, pushes);
    i := PushIsEvent(m.log, uid, idx[k]);
    assert [flow[k]] == Delivery.PushOf(m.log[i], uid);
    assert flow[k] == [flow[k]][0];
    var steps :| m == Run(sha, INIT, steps);
    ListsAreLists(sha, steps, i);
  }

  /**
   Seen from the client: whenever a message is in a channel, attempted, held or queued, it is
   the channel of its receiver, and if it is a file message, the file it names is on disk.
   */
  lemma ChannelsCarryStoredFiles(sha: string -> string, m: State, uid: int, k: nat)
    requires Reachable(sha, m) && uid in m.sys.channels && k < |m.sys.channels[uid].Flow()|
    requires m.sys.channels[uid].Flow()[k].ContactMessageListRequest?
    ensures var messages := m.sys.channels[uid].Flow()[k].messages;
            && |messages| == 1 && messages[0].raw.to == uid
            && (IsFileKind(messages[0].raw.kind) ==> messages[0].raw.content in m.sys.disk)
  {
    var i := CarriedIsNotified(sha, m, uid, k);
    Reached(sha, m);
    var t := RequestBehind(m, i);
    if IsFileKind(m.log[i].message.raw.kind) {
      FileNotificationsAreSafe(sha, m, i);
    }
  }
}
