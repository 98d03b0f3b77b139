/**
 The announcement of one file in any interleaving of callbacks: each looks into the pool,
 deletes the entry and queues the message in critical sections of their own. Channels may be
 added and changed at any moment. Which callbacks there are is the matter of `FileRaces`.
 */
module AnnouncementRaces {
  import opened Sequences
  import opened Protocol
  import opened Channels
  import opened Handlers

  /** A callback that found the entry, or also deleted it; `at` is its look in the history. */
  datatype Work =
    | Found(entry: Deferred, at: nat)
    | Deleted(entry: Deferred, at: nat)
    | Over(at: nat, found: bool, announced: bool)

  datatype Act = Put | Look(worker: nat) | Delete

  /** `entry` is what the message of file `id` puts into the pool, once. */
  datatype Desk = Desk(sys: Sys, id: string, entry: Option<Deferred>, work: map<nat, Work>, acts: seq<Act>)

  datatype Step =
    | Defer(entry: Deferred)
    | Rewire(channels: map<int, Channel>)
    | GetFileMsg(worker: nat)
    | DelFileMsg(worker: nat)
    | AddSendTask(worker: nat)

  function Next(d: Desk, step: Step): Desk {
    match step
    case Defer(entry) =>
      if d.entry.Some? then d
      else d.(sys := d.sys.(deferred := d.sys.deferred[d.id := entry]), entry := Some(entry), acts := d.acts + [Put])
    case Rewire(channels) =>
      if d.sys.channels.Keys <= channels.Keys then d.(sys := d.sys.(channels := channels)) else d
    case GetFileMsg(w) =>
      if w in d.work then d
      else
        var found := d.id in d.sys.deferred && d.sys.deferred[d.id].receiver != 0;
        d.(work := d.work[w := if found then Found(d.sys.deferred[d.id], |d.acts|) else Over(|d.acts|, false, false)],
           acts := d.acts + [Look(w)])
    case DelFileMsg(w) =>
      if w !in d.work || !d.work[w].Found? then d
      else d.(sys := d.sys.(deferred := d.sys.deferred - {d.id}),
              work := d.work[w := Deleted(d.work[w].entry, d.work[w].at)],
              acts := d.acts + [Delete])
    case AddSendTask(w) =>
      if w !in d.work || !d.work[w].Deleted? then d
      else
        var Deleted(entry, at) := d.work[w];
        d.(sys := PushTo(d.sys, entry.receiver, ContactMessageListRequest([entry.message])),
           work := d.work[w := Over(at, true, HasSender(d.sys, entry.receiver))])
  }

  function Run(d: Desk, steps: seq<Step>): Desk {
    if steps == [] then d else Next(Run(d, steps[..|steps| - 1]), steps[|steps| - 1])
  }

  ghost predicate Start(d: Desk) {
    d.id !in d.sys.deferred && d.entry.None? && d.work == map[] && d.acts == []
  }

  /** `d` is the state of some interleaving. */
  ghost predicate Reachable(d: Desk) {
    exists d0, steps :: Start(d0) && d == Run(d0, steps)
  }

  lemma {:induction false} RunConcat(d: Desk, a: seq<Step>, b: seq<Step>)
    ensures Run(d, a + b) == Run(Run(d, a), b)
  {
    if b == [] {
      assert a + b == a;
    } else {
      RunConcat(d, a, b[..|b| - 1]);
      assert (a + b)[..|a + b| - 1] == a + b[..|b| - 1];
    }
  }

  lemma RunOne(d: Desk, a: Step)
    ensures Run(d, [a]) == Next(d, a)
  {
    assert [a][..0] == [];
  }

  lemma NextIsReachable(d: Desk, step: Step)
    requires Reachable(d)
    ensures Reachable(Next(d, step))
  {
    var d0, steps :| Start(d0) && d == Run(d0, steps);
    RunConcat(d0, steps, [step]);
    RunOne(d, step);
  }

  predicate Announced(d: Desk, w: nat) {
    w in d.work && d.work[w].Over? && d.work[w].announced
  }

  /** This callback found the entry. */
  predicate HasFound(d: Desk, w: nat) {
    w in d.work && (d.work[w].Over? ==> d.work[w].found)
  }

  /** This callback has announced the file, or still may. */
  predicate Live(d: Desk, w: nat) {
    w in d.work && (d.work[w].Over? ==> d.work[w].announced)
  }

  // ----- the uninterrupted case

  /** A callback that nothing interrupts is the one step of the state machine. */
  lemma UninterruptedIsHandler(d: Desk, w: nat)
    requires w !in d.work
    ensures var d' := Next(Next(Next(d, GetFileMsg(w)), DelFileMsg(w)), AddSendTask(w));
            var (s, e) := RunUpload(d.sys, d.id);
            d'.sys == s && (Announced(d', w) <==> e.Notified?)
  {
  }

  // ----- the history

  /** The entry was put and not deleted since. */
  predicate InPool(acts: seq<Act>) {
    if acts == [] then false
    else
      var last := acts[|acts| - 1];
      last.Put? || (!last.Delete? && InPool(acts[..|acts| - 1]))
  }

  lemma InPoolSnoc(acts: seq<Act>, a: Act)
    ensures InPool(acts + [a]) <==> a.Put? || (!a.Delete? && InPool(acts))
  {
    assert (acts + [a])[..|acts|] == acts;
  }

  ghost predicate PutOnce(acts: seq<Act>) {
    forall i, j :: 0 <= i < j < |acts| && acts[i].Put? ==> !acts[j].Put?
  }

  ghost predicate NoDelete(acts: seq<Act>, i: int, j: int)
    requires -1 <= i && j <= |acts|
  {
    forall k :: i < k < j ==> !acts[k].Delete?
  }

  lemma {:induction false} InPoolWasPut(acts: seq<Act>)
    requires InPool(acts)
    ensures exists i :: 0 <= i < |acts| && acts[i].Put?
  {
    if !acts[|acts| - 1].Put? {
      InPoolWasPut(acts[..|acts| - 1]);
      var i :| 0 <= i < |acts| - 1 && acts[..|acts| - 1][i].Put?;
      assert acts[i].Put?;
    }
  }

  /** Once there, the entry stays exactly until the first deletion. */
  lemma {:induction false} StaysUntilDeleted(acts: seq<Act>, a: nat, b: nat)
    requires PutOnce(acts) && a <= b <= |acts| && InPool(acts[..a])
    ensures InPool(acts[..b]) <==> NoDelete(acts, a - 1, b)
  {
    if a < b {
      StaysUntilDeleted(acts, a, b - 1);
      assert acts[..b] == acts[..b - 1] + [acts[b - 1]];
      InPoolSnoc(acts[..b - 1], acts[b - 1]);
      InPoolWasPut(acts[..a]);
      var i :| 0 <= i < a && acts[..a][i].Put?;
      assert acts[i].Put? && !acts[b - 1].Put?;
    }
  }

  // ----- what every step keeps

  ghost predicate WorkOk(d: Desk, w: nat)
    requires w in d.work
  {
    var at := d.work[w].at;
    && at < |d.acts| && d.acts[at] == Look(w)
    && (HasFound(d, w) <==> InPool(d.acts[..at]) && d.entry.Some? && d.entry.value.receiver != 0)
    && (!d.work[w].Over? ==> d.entry == Some(d.work[w].entry))
    && (d.work[w].Over? && d.work[w].announced ==> d.work[w].found)
  }

  ghost predicate PoolOk(d: Desk) {
    && (d.id in d.sys.deferred <==> InPool(d.acts))
    && (d.id in d.sys.deferred ==> d.entry == Some(d.sys.deferred[d.id]))
    && PutOnce(d.acts) && (d.entry.None? ==> forall i :: 0 <= i < |d.acts| ==> !d.acts[i].Put?)
  }

  ghost predicate Inv(d: Desk) {
    PoolOk(d) && forall w :: w in d.work ==> WorkOk(d, w)
  }

  lemma PutOnceSnoc(acts: seq<Act>, a: Act)
    requires PutOnce(acts) && (a.Put? ==> forall i :: 0 <= i < |acts| ==> !acts[i].Put?)
    ensures PutOnce(acts + [a])
    ensures (exists i :: 0 <= i < |acts + [a]| && (acts + [a])[i].Put?) ==>
              a.Put? || exists i :: 0 <= i < |acts| && acts[i].Put?
  {
    var acts' := acts + [a];
    assert acts'[|acts|] == a && forall i :: 0 <= i < |acts| ==> acts'[i] == acts[i];
  }

  /** A step adds at most one entry, and changes the pool only as that entry says. */
  lemma StepAddsOne(d: Desk, step: Step)
    ensures var d', n := Next(d, step), |d.acts|;
            && d'.id == d.id
            && if |d'.acts| == n
               then d'.acts == d.acts && d'.sys.deferred == d.sys.deferred && d'.entry == d.entry
               else |d'.acts| == n + 1 && d'.acts == d.acts + [d'.acts[n]]
                    && (d'.acts[n].Put? ==>
                          d.entry.None? && d'.entry.Some? && d'.sys.deferred == d.sys.deferred[d.id := d'.entry.value])
                    && (d'.acts[n].Delete? ==> d'.entry == d.entry && d'.sys.deferred == d.sys.deferred - {d.id})
                    && (d'.acts[n].Look? ==> d'.entry == d.entry && d'.sys.deferred == d.sys.deferred)
  {
  }

  lemma StepKeepsPool(d: Desk, step: Step)
    requires PoolOk(d)
    ensures PoolOk(Next(d, step))
  {
    var d', n := Next(d, step), |d.acts|;
    StepAddsOne(d, step);
    if |d'.acts| != n {
      InPoolSnoc(d.acts, d'.acts[n]);
      PutOnceSnoc(d.acts, d'.acts[n]);
    }
  }

  lemma StepKeepsWork(d: Desk, step: Step, w: nat)
    requires Inv(d) && w in Next(d, step).work
    ensures WorkOk(Next(d, step), w)
  {
    var d' := Next(d, step);
    assert d.acts <= d'.acts;
    if w in d.work {
      assert WorkOk(d, w);
      var at := d.work[w].at;
      assert d'.acts[..at] == d.acts[..at];
      if d.entry.None? && InPool(d.acts[..at]) {
        InPoolWasPut(d.acts[..at]);
      }
    } else {
      assert d'.acts[..|d.acts|] == d.acts;
    }
  }

  lemma StepKeeps(d: Desk, step: Step)
    requires Inv(d)
    ensures Inv(Next(d, step))
  {
    StepKeepsPool(d, step);
    forall w | w in Next(d, step).work ensures WorkOk(Next(d, step), w) {
      StepKeepsWork(d, step, w);
    }
  }

  lemma {:induction false} RunKeeps(d: Desk, steps: seq<Step>)
    requires Inv(d)
    ensures Inv(Run(d, steps))
  {
    if steps != [] {
      RunKeeps(d, steps[..|steps| - 1]);
      StepKeeps(Run(d, steps[..|steps| - 1]), steps[|steps| - 1]);
    }
  }

  lemma Reached(d: Desk)
    requires Reachable(d)
    ensures Inv(d)
  {
    var d0, steps :| Start(d0) && d == Run(d0, steps);
    RunKeeps(d0, steps);
  }

  // ----- main results

  /**
   When a second callback finds the entry too: exactly if nothing was deleted between the two
   looks. Who announces has found it, so no file is announced twice otherwise.
   */
  lemma FoundTwiceIff(d: Desk, a: nat, b: nat)
    requires Reachable(d) && HasFound(d, a) && b in d.work && d.work[a].at < d.work[b].at
    ensures d.work[b].at < |d.acts|
    ensures HasFound(d, b) <==> NoDelete(d.acts, d.work[a].at, d.work[b].at)
    ensures Announced(d, b) ==> NoDelete(d.acts, d.work[a].at, d.work[b].at)
  {
    Reached(d);
    assert WorkOk(d, a) && WorkOk(d, b);
    StaysUntilDeleted(d.acts, d.work[a].at, d.work[b].at);
  }

  // ----- what may still be announced

  /** No callback to come can find anything. */
  predicate Spent(d: Desk) {
    d.entry.Some? && (d.entry.value.receiver == 0 || d.id !in d.sys.deferred)
  }

  lemma OnlyLooksAddWork(d: Desk, step: Step)
    ensures forall w :: w in Next(d, step).work ==> w in d.work || step == GetFileMsg(w)
  {
  }

  /** Who announces was live before, or has just found the entry; and nothing is found once all is spent. */
  lemma StepKeepsLive(d: Desk, step: Step, w: nat)
    requires Inv(d)
    ensures Spent(d) ==> Spent(Next(d, step))
    ensures Live(Next(d, step), w) ==> Live(d, w) || (step == GetFileMsg(w) && w !in d.work && !Spent(d))
  {
    assert w in d.work ==> WorkOk(d, w);
    if step.DelFileMsg? && step.worker in d.work {
      assert WorkOk(d, step.worker);
    }
  }

  /** Other callbacks stand as before. */
  ghost predicate OthersKept(d: Desk, d': Desk, w: nat) {
    forall u :: u != w && u in d.work ==> u in d'.work && d'.work[u] == d.work[u]
  }

  lemma RunThree(d: Desk, a: Step, b: Step, c: Step)
    ensures Run(d, [a] + [b] + [c]) == Next(Next(Next(d, a), b), c)
  {
    RunOne(d, a);
    RunOne(Next(d, a), b);
    RunConcat(d, [a], [b]);
    RunOne(Next(Next(d, a), b), c);
    RunConcat(d, [a] + [b], [c]);
  }

  /** Its receiver connects, and the callback goes on. */
  function Connect(d: Desk, receiver: int): Step {
    Rewire(d.sys.channels[receiver := Open(0)])
  }

  lemma PendingAnnounces(d: Desk, w: nat)
    requires w in d.work && !d.work[w].Over? && d.work[w].entry.receiver != 0
    ensures var d1 := Next(d, Connect(d, d.work[w].entry.receiver));
            var d' := Next(Next(d1, DelFileMsg(w)), AddSendTask(w));
            Announced(d', w) && OthersKept(d, d', w)
  {
    var receiver := d.work[w].entry.receiver;
    var d1 := Next(d, Connect(d, receiver));
    assert HasSender(d1.sys, receiver) && d1.work == d.work;
    var d2 := Next(d1, DelFileMsg(w));
    assert d2.work[w].Deleted? && d2.work[w].entry.receiver == receiver && HasSender(d2.sys, receiver);
  }

  /** A live callback can announce next, if its receiver connects first. */
  lemma LiveCanAnnounce(d: Desk, w: nat) returns (steps: seq<Step>)
    requires Inv(d) && Live(d, w)
    ensures Announced(Run(d, steps), w) && OthersKept(d, Run(d, steps), w) && Inv(Run(d, steps))
    ensures forall i :: 0 <= i < |steps| ==> !steps[i].GetFileMsg?
  {
    steps := [];
    if !d.work[w].Over? {
      assert WorkOk(d, w);
      var connect := Connect(d, d.work[w].entry.receiver);
      PendingAnnounces(d, w);
      RunThree(d, connect, DelFileMsg(w), AddSendTask(w));
      steps := [connect] + [DelFileMsg(w)] + [AddSendTask(w)];
    }
    RunKeeps(d, steps);
  }

  lemma TwoLiveCanAnnounce(d: Desk, a: nat, b: nat) returns (steps: seq<Step>)
    requires Inv(d) && Live(d, a) && Live(d, b)
    ensures Announced(Run(d, steps), a) && Announced(Run(d, steps), b)
    ensures forall i :: 0 <= i < |steps| ==> !steps[i].GetFileMsg?
  {
    var first := LiveCanAnnounce(d, a);
    var second := LiveCanAnnounce(Run(d, first), b);
    RunConcat(d, first, second);
    steps := first + second;
  }
}
