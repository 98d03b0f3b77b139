/** The order in which keep-alive channels carry packets, over whole runs. */
module Delivery {
  import opened Sequences
  import opened Protocol
  import opened Store
  import opened Channels
  import opened Handlers
  import opened Machine
  import Fetching

  /** The packet an event queues for `uid`, if any. */
  function PushOf(e: Event, uid: int): seq<Packet> {
    if e.Notified? && e.receiver == uid then [ContactMessageListRequest([e.message])]
    else if e.ChannelSet? && e.uid == uid && uid != 0 then [e.list]
    else []
  }

  function PushesTo(log: seq<Event>, uid: int): seq<Packet> {
    if log == [] then []
    else PushesTo(log[..|log| - 1], uid) + PushOf(log[|log| - 1], uid)
  }

  lemma PushesSnoc(log: seq<Event>, e: Event, uid: int)
    ensures PushesTo(log + [e], uid) == PushesTo(log, uid) + PushOf(e, uid)
  {
    assert (log + [e])[..|log|] == log;
  }

  ghost predicate Ordered(s: Sys, log: seq<Event>, uid: int) {
    uid in s.channels ==> Subsequence(s.channels[uid].Flow(), PushesTo(log, uid))
  }

  predicate Resets(e: Event, uid: int) {
    e.Restarted? || (e.ChannelSet? && e.uid == uid)
  }

  /** Between reconnects a channel loses nothing: each event extends its flow by what it pushes. */
  lemma FlowFollowsPushes(sha: string -> string, s: Sys, e: Event, uid: int)
    requires Legal(sha, s, e) && uid in s.channels && !Resets(e, uid)
    ensures var s' := Apply(s, e);
            uid in s'.channels && s'.channels[uid].Flow() == s.channels[uid].Flow() + PushOf(e, uid)
  {
    var c := s.channels[uid];
    match e
    case Took(_) => MovesKeepFlow(c, true, true);
    case Sent(_, sent, acked) => MovesKeepFlow(c, sent, acked);
    case Notified(receiver, m, _) =>
      if receiver == uid { PushExtendsFlow(c, ContactMessageListRequest([m])); }
    case Restarted => assert false;
    case _ => assert Apply(s, e).channels[uid] == c;
  }

  /** A reconnect keeps what was attempted and the packet in hand, and starts with the list. */
  lemma FlowAfterReset(s: Sys, uid: int, fd: int, list: Packet)
    ensures var s' := Apply(s, ChannelSet(uid, fd, list));
            var kept := if uid in s.channels then s.channels[uid].Attempted() + s.channels[uid].Held() else [];
            && uid in s'.channels && s'.channels[uid].fd == fd
            && s'.channels[uid].Flow() == kept + PushOf(ChannelSet(uid, fd, list), uid)
            && s'.channels[uid].attempts == if uid in s.channels then s.channels[uid].attempts else []
  {
    if uid in s.channels {
      ReconnectCutsFlow(s.channels[uid], fd);
    }
    PushExtendsFlow(Reconnect(s.channels, uid, fd)[uid], list);
  }

  lemma ResetKeepsOrder(s: Sys, log: seq<Event>, uid: int, fd: int, list: Packet)
    requires Ordered(s, log, uid)
    ensures Ordered(Apply(s, ChannelSet(uid, fd, list)), log + [ChannelSet(uid, fd, list)], uid)
  {
    var before := PushesTo(log, uid);
    PushesSnoc(log, ChannelSet(uid, fd, list), uid);
    FlowAfterReset(s, uid, fd, list);
    SubsequenceEmpty(before);
    var kept: seq<Packet> := [];
    if uid in s.channels {
      var c := s.channels[uid];
      ReconnectCutsFlow(c, fd);
      SubsequencePrefix(c.Flow(), before, |c.attempts| + |c.Held()|);
      kept := c.Attempted() + c.Held();
    }
    SubsequenceSnoc(kept, before, list);
    assert kept + [] == kept && before + [] == before;
  }

  lemma ExtensionKeepsOrder(sha: string -> string, s: Sys, log: seq<Event>, e: Event, uid: int)
    requires Legal(sha, s, e) && Ordered(s, log, uid) && uid in s.channels && !Resets(e, uid)
    ensures Ordered(Apply(s, e), log + [e], uid)
  {
    var flow, before, pushed := s.channels[uid].Flow(), PushesTo(log, uid), PushOf(e, uid);
    PushesSnoc(log, e, uid);
    FlowFollowsPushes(sha, s, e, uid);
    if pushed == [] {
      assert flow + [] == flow && before + [] == before;
    } else {
      assert pushed == [pushed[0]];
      SubsequenceSnoc(flow, before, pushed[0]);
    }
  }

  lemma ApplyKeepsOrder(sha: string -> string, s: Sys, log: seq<Event>, e: Event, uid: int)
    requires Legal(sha, s, e) && Ordered(s, log, uid)
    ensures Ordered(Apply(s, e), log + [e], uid)
  {
    if e.ChannelSet? && e.uid == uid {
      ResetKeepsOrder(s, log, uid, e.fd, e.list);
    } else if !e.Restarted? && uid in s.channels {
      ExtensionKeepsOrder(sha, s, log, e, uid);
    }
  }

  lemma {:induction false} RunKeepsOrder(sha: string -> string, steps: seq<Step>, uid: int)
    ensures var m := Run(sha, INIT, steps); DbOk(m.sys.db) && Ordered(m.sys, m.log, uid)
  {
    RunsReplay(sha, steps);
    if steps != [] {
      var init, step := steps[..|steps| - 1], steps[|steps| - 1];
      var m := Run(sha, INIT, init);
      RunKeepsOrder(sha, init, uid);
      StepIsEvent(sha, m, step);
      ApplyKeepsOrder(sha, m.sys, m.log, Last(Next(sha, m, step)), uid);
    }
  }

  /**
   Channel order: in every reachable state, what a channel has attempted, then the packet in
   the sender thread's hand, then its queue form a subsequence of what was pushed to that
   user, in push order and without duplicates.
   */
  lemma PacketsKeepPushOrder(sha: string -> string, m: State, uid: int)
    requires Reachable(sha, m) && uid in m.sys.channels
    ensures Subsequence(m.sys.channels[uid].Flow(), PushesTo(m.log, uid))
  {
    var steps :| m == Run(sha, INIT, steps);
    RunKeepsOrder(sha, steps, uid);
  }

  lemma {:induction false} NothingPushedToNobody(sha: string -> string, steps: seq<Step>)
    ensures PushesTo(Run(sha, INIT, steps).log, 0) == []
  {
    if steps != [] {
      var init, step := steps[..|steps| - 1], steps[|steps| - 1];
      NothingPushedToNobody(sha, init);
      RunsReplay(sha, init);
      var m := Run(sha, INIT, init);
      StepIsEvent(sha, m, step);
      PushesSnoc(m.log, Last(Next(sha, m, step)), 0);
    }
  }

  /** User 0 may own a channel, but nothing is ever queued on it or sent through it. */
  lemma NobodysChannelIsSilent(sha: string -> string, m: State)
    requires Reachable(sha, m) && 0 in m.sys.channels
    ensures m.sys.channels[0].Flow() == []
  {
    var steps :| m == Run(sha, INIT, steps);
    PacketsKeepPushOrder(sha, m, 0);
    NothingPushedToNobody(sha, steps);
    SubsequenceIsShorter(m.sys.channels[0].Flow(), PushesTo(m.log, 0));
  }

  // ----- after a reconnect

  /** Sends go out on the descriptor that is current when they are attempted. */
  ghost predicate SendsOn(s: Sys, uid: int, fd: int, from: nat) {
    && uid in s.channels && s.channels[uid].fd == fd && from <= |s.channels[uid].attempts|
    && (forall i :: from <= i < |s.channels[uid].attempts| ==> s.channels[uid].attempts[i].fd == fd)
  }

  lemma ApplyKeepsFd(s: Sys, e: Event, uid: int, fd: int, from: nat)
    requires SendsOn(s, uid, fd, from) && !Resets(e, uid)
    ensures SendsOn(Apply(s, e), uid, fd, from)
    ensures s.channels[uid].attempts <= Apply(s, e).channels[uid].attempts
  {
  }

  lemma {:induction false} LogGrows(sha: string -> string, m: State, steps: seq<Step>)
    requires DbOk(m.sys.db)
    ensures m.log <= Run(sha, m, steps).log
  {
    if steps != [] {
      var init := steps[..|steps| - 1];
      LogGrows(sha, m, init);
      Fetching.TablesGrow(sha, m, init);
      StepIsEvent(sha, Run(sha, m, init), steps[|steps| - 1]);
    }
  }

  /** From `m` to `b` the channel of `uid` sent on `fd` only, and its flow grew by the pushes. */
  ghost predicate Continues(m: State, b: State, uid: int, fd: int, from: nat) {
    && m.log <= b.log && uid in m.sys.channels && SendsOn(b.sys, uid, fd, from)
    && m.sys.channels[uid].attempts <= b.sys.channels[uid].attempts
    && b.sys.channels[uid].Flow() == m.sys.channels[uid].Flow() + PushesTo(b.log[|m.log|..], uid)
  }

  lemma ContinuesFurther(m: State, b: State, b': State, uid: int, fd: int, from: nat)
    requires Continues(m, b, uid, fd, from) && b'.log != [] && b'.log == b.log + [Last(b')]
    requires SendsOn(b'.sys, uid, fd, from) && b.sys.channels[uid].attempts <= b'.sys.channels[uid].attempts
    requires b'.sys.channels[uid].Flow() == b.sys.channels[uid].Flow() + PushOf(Last(b'), uid)
    ensures Continues(m, b', uid, fd, from)
  {
    var e, n := Last(b'), |m.log|;
    PushesSnoc(b.log[n..], e, uid);
    assert b'.log[n..] == b.log[n..] + [e];
  }

  lemma EventContinues(sha: string -> string, m: State, b: State, b': State, uid: int, fd: int, from: nat)
    requires Continues(m, b, uid, fd, from) && b'.log != [] && b'.log == b.log + [Last(b')]
    requires Legal(sha, b.sys, Last(b')) && b'.sys == Apply(b.sys, Last(b')) && !Resets(Last(b'), uid)
    ensures Continues(m, b', uid, fd, from)
  {
    FlowFollowsPushes(sha, b.sys, Last(b'), uid);
    ApplyKeepsFd(b.sys, Last(b'), uid, fd, from);
    ContinuesFurther(m, b, b', uid, fd, from);
  }

  lemma {:induction false} FlowBetweenResets(sha: string -> string, m: State, steps: seq<Step>,
                                               uid: int, fd: int, from: nat)
    requires DbOk(m.sys.db) && SendsOn(m.sys, uid, fd, from)
    requires m.log <= Run(sha, m, steps).log
    requires forall i :: |m.log| <= i < |Run(sha, m, steps).log| ==> !Resets(Run(sha, m, steps).log[i], uid)
    ensures Continues(m, Run(sha, m, steps), uid, fd, from)
  {
    var m' := Run(sha, m, steps);
    if steps == [] {
      assert m'.log[|m.log|..] == [];
    } else {
      var init, step := steps[..|steps| - 1], steps[|steps| - 1];
      var b := Run(sha, m, init);
      LogGrows(sha, m, init);
      Fetching.TablesGrow(sha, m, init);
      StepIsEvent(sha, b, step);
      assert forall i :: 0 <= i < |b.log| ==> b.log[i] == m'.log[i];
      FlowBetweenResets(sha, m, init, uid, fd, from);
      assert Last(m') == m'.log[|b.log|];
      EventContinues(sha, m, b, m', uid, fd, from);
    }
  }

  /**
   Reconnect: after a setup callback for a user, until the next one, the channel sends on the
   new descriptor, in this order, the at most one packet the sender thread still held, the
   contact list, and every later push. Nothing else from before can be attempted any more.
   */
  lemma ReconnectStartsAfresh(sha: string -> string, m: State, t: nat, users: seq<User>, uid: int, fd: int, m': State)
    requires Reachable(sha, m) && CanCall(m, t, users)
    requires m.flights[t].callback == SetupCallback(uid, fd) && uid != 0
    requires Leads(sha, Next(sha, m, Call(t, users)), m')
    requires forall i :: |m.log| < i < |m'.log| ==> !Resets(m'.log[i], uid)
    ensures var sent := if uid in m.sys.channels then m.sys.channels[uid].Attempted() else [];
            var held := if uid in m.sys.channels then m.sys.channels[uid].Held() else [];
            && uid in m'.sys.channels && |held| <= 1 && |m.log| < |m'.log|
            && (uid in m.sys.channels ==> m.sys.channels[uid].attempts <= m'.sys.channels[uid].attempts)
            && m'.sys.channels[uid].Flow()
               == sent + held + [ContactList(users, m.sys.db.messages, uid)] + PushesTo(m'.log[|m.log| + 1..], uid)
            && SendsOn(m'.sys, uid, fd, |sent|)
  {
    var m1 := Next(sha, m, Call(t, users));
    ReachableReplays(sha, m);
    StepIsEvent(sha, m, Call(t, users));
    var list := ContactList(users, m.sys.db.messages, uid);
    assert Last(m1) == ChannelSet(uid, fd, list);
    ApplyKeepsDb(sha, m.sys, Last(m1));
    FlowAfterReset(m.sys, uid, fd, list);
    var after :| m' == Run(sha, m1, after);
    LogGrows(sha, m1, after);
    FlowBetweenResets(sha, m1, after, uid, fd, |m1.sys.channels[uid].attempts|);
  }

  /** The descriptors closed by a series of attempts, in order. */
  function Closings(attempts: seq<Attempt>): seq<int> {
    if attempts == [] then []
    else Closings(attempts[..|attempts| - 1]) + attempts[|attempts| - 1].Closes()
  }

  function FailedSends(attempts: seq<Attempt>): nat {
    if attempts == [] then 0
    else FailedSends(attempts[..|attempts| - 1]) + if attempts[|attempts| - 1].sent then 0 else 1
  }

  function UnreadAnswers(attempts: seq<Attempt>): nat {
    if attempts == [] then 0
    else UnreadAnswers(attempts[..|attempts| - 1]) + if attempts[|attempts| - 1].acked then 0 else 1
  }

  lemma {:induction false} ClosingsSince(attempts: seq<Attempt>, fd: int, from: nat)
    requires from <= |attempts| && forall i :: from <= i < |attempts| ==> attempts[i].fd == fd
    ensures Closings(attempts[..from]) <= Closings(attempts)
    ensures var since := Closings(attempts)[|Closings(attempts[..from])|..];
            && |since| == FailedSends(attempts[from..]) + UnreadAnswers(attempts[from..])
            && forall c :: c in since ==> c == fd
  {
    if from == |attempts| {
      assert attempts[..from] == attempts && attempts[from..] == [];
    } else {
      var init := attempts[..|attempts| - 1];
      ClosingsSince(init, fd, from);
      assert init[..from] == attempts[..from];
      assert attempts[from..][..|attempts| - from - 1] == init[from..];
      var before, last := Closings(attempts[..from]), attempts[|attempts| - 1];
      assert Closings(attempts)[|before|..] == Closings(init)[|before|..] + last.Closes();
    }
  }

  /**
   Failures close the current descriptor only: until the next reconnect, whatever the sender
   thread closes after a setup callback is the new descriptor, once for each failed send and
   once for each answer that could not be read.
   */
  lemma ClosesStayCurrent(sha: string -> string, m: State, t: nat, users: seq<User>, uid: int, fd: int, m': State)
    requires Reachable(sha, m) && CanCall(m, t, users)
    requires m.flights[t].callback == SetupCallback(uid, fd) && uid != 0
    requires Leads(sha, Next(sha, m, Call(t, users)), m')
    requires forall i :: |m.log| < i < |m'.log| ==> !Resets(m'.log[i], uid)
    ensures var before := if uid in m.sys.channels then m.sys.channels[uid].attempts else [];
            && uid in m'.sys.channels && before <= m'.sys.channels[uid].attempts
            && (var attempts := m'.sys.channels[uid].attempts;
                && Closings(before) <= Closings(attempts)
                && |Closings(attempts)| - |Closings(before)|
                   == FailedSends(attempts[|before|..]) + UnreadAnswers(attempts[|before|..])
                && forall c :: c in Closings(attempts)[|Closings(before)|..] ==> c == fd)
  {
    ReconnectStartsAfresh(sha, m, t, users, uid, fd, m');
    var before := if uid in m.sys.channels then m.sys.channels[uid].attempts else [];
    var attempts := m'.sys.channels[uid].attempts;
    assert attempts[..|before|] == before;
    ClosingsSince(attempts, fd, |before|);
  }

  lemma StepKeepsSender(sha: string -> string, m: State, step: Step, uid: int)
    requires HasSender(m.sys, uid) && !step.Restart?
    ensures var s := Next(sha, m, step).sys;
            HasSender(s, uid) && m.sys.channels[uid].attempts <= s.channels[uid].attempts
  {
    if step.Arrive? {
      HandlersKeepChannels(sha, m.sys, step.request, step.fd, step.env);
    }
  }

  /**
   Check-then-act stays valid: short of a restart, a user who has a sender keeps that very
   sender, with all that it has attempted so far.
   */
  lemma {:induction false} SendersStay(sha: string -> string, m: State, steps: seq<Step>, uid: int)
    requires HasSender(m.sys, uid)
    requires forall i :: 0 <= i < |steps| ==> !steps[i].Restart?
    ensures var s := Run(sha, m, steps).sys;
            HasSender(s, uid) && m.sys.channels[uid].attempts <= s.channels[uid].attempts
  {
    if steps != [] {
      var init := steps[..|steps| - 1];
      SendersStay(sha, m, init, uid);
      StepKeepsSender(sha, Run(sha, m, init), steps[|steps| - 1], uid);
    }
  }

  // ----- a reconnect taken apart: its two halves with any operations in between

  /** The operations that the callbacks and the sender thread perform on one channel. */
  datatype Op = SetFd(fd: int) | Clear | Push(packet: Packet) | Take | Send(sent: bool, acked: bool)

  function Do(c: Channel, op: Op): Channel {
    match op
    case SetFd(fd) => c.SetFd(fd)
    case Clear => c.Clear()
    case Push(p) => c.Push(p)
    case Take => c.Take()
    case Send(sent, acked) => c.Send(sent, acked)
  }

  function DoAll(c: Channel, ops: seq<Op>): Channel {
    if ops == [] then c else Do(DoAll(c, ops[..|ops| - 1]), ops[|ops| - 1])
  }

  function Pushed(ops: seq<Op>): seq<Packet> {
    if ops == [] then []
    else
      var last := ops[|ops| - 1];
      Pushed(ops[..|ops| - 1]) + if last.Push? then [last.packet] else []
  }

  lemma ClearCutsFlow(c: Channel)
    ensures c.Clear().Flow() == c.Attempted() + c.Held() == c.Flow()[..|c.attempts| + |c.Held()|]
  {
    ReconnectCutsFlow(c, c.fd);
    assert c.SetFd(c.fd) == c;
  }

  /** Order survives any interleaving, wherever the two halves of a reconnect fall. */
  lemma {:induction false} AnyOrderKeepsFlow(fd: int, ops: seq<Op>)
    ensures Subsequence(DoAll(Open(fd), ops).Flow(), Pushed(ops))
  {
    if ops == [] {
      assert Open(fd).Flow() == [];
      SubsequenceEmpty(Pushed(ops));
    } else {
      var init, op := ops[..|ops| - 1], ops[|ops| - 1];
      var c, before := DoAll(Open(fd), init), Pushed(init);
      AnyOrderKeepsFlow(fd, init);
      assert before + [] == before;
      match op
      case Push(p) =>
        PushExtendsFlow(c, p);
        SubsequenceSnoc(c.Flow(), before, p);
      case Clear =>
        ClearCutsFlow(c);
        SubsequencePrefix(c.Flow(), before, |c.attempts| + |c.Held()|);
      case SetFd(_) => assert Do(c, op).Flow() == c.Flow();
      case Take => MovesKeepFlow(c, true, true);
      case Send(sent, acked) => MovesKeepFlow(c, sent, acked);
    }
  }

  predicate NoReset(ops: seq<Op>) {
    forall i :: 0 <= i < |ops| ==> !ops[i].SetFd? && !ops[i].Clear?
  }

  /** Without a reset nothing is lost, and all attempts go out on the current descriptor. */
  lemma {:induction false} NoResetKeepsAll(c: Channel, ops: seq<Op>)
    requires NoReset(ops)
    ensures var c' := DoAll(c, ops);
            && c'.fd == c.fd && c'.Flow() == c.Flow() + Pushed(ops) && c.attempts <= c'.attempts
            && forall i :: |c.attempts| <= i < |c'.attempts| ==> c'.attempts[i].fd == c.fd
  {
    if ops == [] {
      assert c.Flow() + [] == c.Flow();
    } else {
      var init, op := ops[..|ops| - 1], ops[|ops| - 1];
      var b := DoAll(c, init);
      NoResetKeepsAll(c, init);
      match op
      case Push(p) => PushExtendsFlow(b, p);
      case Take => MovesKeepFlow(b, true, true);
      case Send(sent, acked) => MovesKeepFlow(b, sent, acked);
      case _ =>
    }
  }

  /**
   A reconnect taken apart: with any operations between the new descriptor and the clearing
   of the queue, the channel afterwards has lost exactly the packets queued at the clearing,
   old ones and those just pushed, and every attempt since goes out on the new descriptor.
   */
  lemma PiecewiseReconnect(c: Channel, fd: int, between: seq<Op>, after: seq<Op>)
    requires NoReset(between) && NoReset(after)
    ensures var b := DoAll(c.SetFd(fd), between);
            var c' := DoAll(b.Clear(), after);
            && c.Flow() + Pushed(between) == b.Attempted() + b.Held() + b.queue
            && c'.Flow() == b.Attempted() + b.Held() + Pushed(after)
            && c.attempts <= c'.attempts
            && forall i :: |c.attempts| <= i < |c'.attempts| ==> c'.attempts[i].fd == fd
  {
    NoResetKeepsAll(c.SetFd(fd), between);
    var b := DoAll(c.SetFd(fd), between);
    assert c.SetFd(fd).Flow() == c.Flow();
    ClearCutsFlow(b);
    NoResetKeepsAll(b.Clear(), after);
  }

  /** A message queued between the two halves is never sent, although its receiver is online. */
  lemma PushDuringReconnectLost(c: Channel, fd: int, p: Packet)
    ensures DoAll(c, [SetFd(fd), Push(p), Clear]).Flow() == c.Attempted() + c.Held()
  {
    var ops := [SetFd(fd), Push(p), Clear];
    assert ops[..2] == [SetFd(fd), Push(p)] && ops[..2][..1] == [SetFd(fd)] && [SetFd(fd)][..0] == [];
    assert DoAll(c, ops[..1]) == c.SetFd(fd) by {
      assert ops[..1] == [SetFd(fd)];
    }
    assert DoAll(c, ops[..2]) == c.SetFd(fd).Push(p);
    assert DoAll(c, ops) == c.SetFd(fd).Push(p).Clear();
    ClearCutsFlow(c.SetFd(fd).Push(p));
  }
}
