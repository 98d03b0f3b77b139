/**
 Uploads of one file and their announcements in any interleaving: a callback runs only for an
 upload that succeeded, whose row could be updated and whose reply was sent.
 */
module FileRaces {
  import opened Sequences
  import opened Protocol
  import opened Channels
  import opened Handlers
  import U = UploadRaces
  import A = AnnouncementRaces

  /** `replied` says of each upload saved so far whether its callback may run. */
  datatype Case = Case(up: U.Spot, replied: map<nat, bool>, desk: A.Desk)

  datatype Step =
    | Upload(upload: U.Step)
    | Reply(worker: nat, ok: bool)
    | Announce(announce: A.Step)

  predicate MayCall(f: Case, w: nat) {
    w in f.replied && f.replied[w]
  }

  function Next(f: Case, step: Step): Case {
    match step
    case Upload(upload) => f.(up := U.Next(f.up, upload))
    case Reply(w, ok) =>
      if U.Saved(f.up, w) && w !in f.replied then f.(replied := f.replied[w := ok]) else f
    case Announce(announce) =>
      if announce.GetFileMsg? && !MayCall(f, announce.worker) then f
      else f.(desk := A.Next(f.desk, announce))
  }

  function Run(f: Case, steps: seq<Step>): Case {
    if steps == [] then f else Next(Run(f, steps[..|steps| - 1]), steps[|steps| - 1])
  }

  function Start(desk: A.Desk): Case {
    Case(U.NO_FILE, map[], desk)
  }

  /** `f` is the state of some interleaving. */
  ghost predicate Reachable(f: Case) {
    exists desk, steps :: A.Start(desk) && f == Run(Start(desk), steps)
  }

  lemma RunOne(f: Case, a: Step)
    ensures Run(f, [a]) == Next(f, a)
  {
    assert [a][..0] == [];
  }

  lemma {:induction false} RunConcat(f: Case, a: seq<Step>, b: seq<Step>)
    ensures Run(f, a + b) == Run(Run(f, a), b)
  {
    if b == [] {
      assert a + b == a;
    } else {
      RunConcat(f, a, b[..|b| - 1]);
      assert (a + b)[..|a + b| - 1] == a + b[..|b| - 1];
    }
  }

  /** `f'` is a state that may follow `f`. */
  ghost predicate Leads(f: Case, f': Case) {
    exists steps :: f' == Run(f, steps)
  }

  lemma LeadsStep(f: Case, step: Step)
    ensures Leads(f, Next(f, step))
  {
    RunOne(f, step);
  }

  lemma LeadsOn(f: Case, g: Case, h: Case)
    requires Leads(f, g) && Leads(g, h)
    ensures Leads(f, h)
  {
    var first :| g == Run(f, first);
    var second :| h == Run(g, second);
    RunConcat(f, first, second);
  }

  // ----- runs of one part are runs of the whole

  lemma {:induction false} UploadsLead(f: Case, steps: seq<U.Step>)
    ensures Leads(f, f.(up := U.Run(f.up, steps)))
  {
    if steps == [] {
      assert f == Run(f, []);
    } else {
      var init := steps[..|steps| - 1];
      var f1 := f.(up := U.Run(f.up, init));
      UploadsLead(f, init);
      LeadsStep(f1, Upload(steps[|steps| - 1]));
      LeadsOn(f, f1, Next(f1, Upload(steps[|steps| - 1])));
    }
  }

  lemma {:induction false} AnnouncementsLead(f: Case, steps: seq<A.Step>)
    requires forall i :: 0 <= i < |steps| ==> !steps[i].GetFileMsg?
    ensures Leads(f, f.(desk := A.Run(f.desk, steps)))
  {
    if steps == [] {
      assert f == Run(f, []);
    } else {
      var init := steps[..|steps| - 1];
      var f1 := f.(desk := A.Run(f.desk, init));
      AnnouncementsLead(f, init);
      LeadsStep(f1, Announce(steps[|steps| - 1]));
      LeadsOn(f, f1, Next(f1, Announce(steps[|steps| - 1])));
    }
  }

  lemma {:induction false} RunPartsReachable(desk: A.Desk, steps: seq<Step>)
    requires A.Start(desk)
    ensures U.Reachable(Run(Start(desk), steps).up) && A.Reachable(Run(Start(desk), steps).desk)
  {
    if steps == [] {
      assert U.NO_FILE == U.Run(U.NO_FILE, []);
      assert desk == A.Run(desk, []);
    } else {
      var f, step := Run(Start(desk), steps[..|steps| - 1]), steps[|steps| - 1];
      RunPartsReachable(desk, steps[..|steps| - 1]);
      if step.Upload? {
        U.NextIsReachable(f.up, step.upload);
      } else if step.Announce? {
        A.NextIsReachable(f.desk, step.announce);
      }
    }
  }

  /** So all that holds of either part in any interleaving of its own holds here. */
  lemma PartsReachable(f: Case)
    requires Reachable(f)
    ensures U.Reachable(f.up) && A.Reachable(f.desk)
  {
    var desk, steps :| A.Start(desk) && f == Run(Start(desk), steps);
    RunPartsReachable(desk, steps);
  }

  // ----- what every step keeps

  ghost predicate Inv(f: Case) {
    && U.Inv(f.up) && A.Inv(f.desk)
    && (forall w :: w in f.replied ==> U.Saved(f.up, w))
    && (forall w :: w in f.desk.work ==> MayCall(f, w))
  }

  lemma StepKeeps(f: Case, step: Step)
    requires Inv(f)
    ensures Inv(Next(f, step))
  {
    match step
    case Upload(upload) =>
      U.StepKeeps(f.up, upload);
      forall w | w in f.replied ensures U.Saved(U.Next(f.up, upload), w) {
        U.SavedStays(f.up, upload, w);
      }
    case Reply(_, _) =>
    case Announce(announce) =>
      A.StepKeeps(f.desk, announce);
      A.OnlyLooksAddWork(f.desk, announce);
  }

  lemma {:induction false} RunKeeps(f: Case, steps: seq<Step>)
    requires Inv(f)
    ensures Inv(Run(f, steps))
  {
    if steps != [] {
      RunKeeps(f, steps[..|steps| - 1]);
      StepKeeps(Run(f, steps[..|steps| - 1]), steps[|steps| - 1]);
    }
  }

  lemma LeadsKeeps(f: Case, f': Case)
    requires Inv(f) && Leads(f, f')
    ensures Inv(f')
  {
    var steps :| f' == Run(f, steps);
    RunKeeps(f, steps);
  }

  lemma Reached(f: Case)
    requires Reachable(f)
    ensures Inv(f)
  {
    var desk, steps :| A.Start(desk) && f == Run(Start(desk), steps);
    RunKeeps(Start(desk), steps);
  }

  // ----- who may still announce

  /** This upload's callback has announced the file or still may; or the upload may still get that far. */
  predicate Candidate(f: Case, w: nat) {
    || A.Live(f.desk, w)
    || (!A.Spent(f.desk) && w !in f.desk.work && U.Live(f.up, w) && (w in f.replied ==> f.replied[w]))
  }

  /** Whatever happens from here on, at most one callback will have announced the file. */
  ghost predicate AtMostOneAnnounces(f: Case) {
    forall f', a, b :: Leads(f, f') && A.Announced(f'.desk, a) && A.Announced(f'.desk, b) ==> a == b
  }

  /** No upload can join that would find something to announce. */
  predicate Closed(f: Case) {
    f.up.bytes.Some? || A.Spent(f.desk)
  }

  lemma StepKeepsCandidates(f: Case, step: Step, w: nat)
    requires Inv(f) && Closed(f)
    ensures Closed(Next(f, step)) && (Candidate(Next(f, step), w) ==> Candidate(f, w))
  {
    if step.Announce? {
      A.StepKeepsLive(f.desk, step.announce, w);
    }
  }

  lemma {:induction false} CandidatesOnlyShrink(f: Case, steps: seq<Step>, w: nat)
    requires Inv(f) && Closed(f)
    ensures Closed(Run(f, steps)) && (Candidate(Run(f, steps), w) ==> Candidate(f, w))
  {
    if steps != [] {
      CandidatesOnlyShrink(f, steps[..|steps| - 1], w);
      RunKeeps(f, steps[..|steps| - 1]);
      StepKeepsCandidates(Run(f, steps[..|steps| - 1]), steps[|steps| - 1], w);
    }
  }

  // ----- two candidates can both announce

  /** Other candidates stay candidates, and live callbacks live. */
  ghost predicate OthersStay(f: Case, f': Case, w: nat) {
    && (forall u :: u != w && Candidate(f, u) ==> Candidate(f', u))
    && (forall u :: u != w && A.Live(f.desk, u) ==> A.Live(f'.desk, u))
  }

  lemma CanSave(f: Case, w: nat) returns (f': Case)
    requires Inv(f) && U.Live(f.up, w)
    ensures Leads(f, f') && Inv(f') && U.Saved(f'.up, w) && OthersStay(f, f', w)
    ensures f'.desk == f.desk && f'.replied == f.replied
  {
    var steps := U.LiveCanSave(f.up, w);
    UploadsLead(f, steps);
    f' := f.(up := U.Run(f.up, steps));
    LeadsKeeps(f, f');
  }

  lemma CanReply(f: Case, w: nat) returns (f': Case)
    requires Inv(f) && U.Saved(f.up, w) && (w in f.replied ==> f.replied[w])
    ensures Leads(f, f') && Inv(f') && MayCall(f', w) && OthersStay(f, f', w) && f'.desk == f.desk
  {
    LeadsStep(f, Reply(w, true));
    f' := Next(f, Reply(w, true));
    StepKeeps(f, Reply(w, true));
  }

  lemma CanDefer(f: Case) returns (f': Case)
    requires Inv(f) && !A.Spent(f.desk)
    ensures Leads(f, f') && Inv(f') && f'.up == f.up && f'.replied == f.replied && f'.desk.work == f.desk.work
    ensures !A.Spent(f'.desk) && f'.desk.entry.Some?
  {
    var defer := Announce(A.Defer(Deferred(1, NO_DEFERRED)));
    LeadsStep(f, defer);
    f' := Next(f, defer);
    StepKeeps(f, defer);
  }

  lemma CanFind(f: Case, w: nat) returns (f': Case)
    requires Inv(f) && !A.Spent(f.desk) && f.desk.entry.Some? && MayCall(f, w) && w !in f.desk.work
    ensures Leads(f, f') && Inv(f') && A.Live(f'.desk, w) && OthersStay(f, f', w)
  {
    var look := Announce(A.GetFileMsg(w));
    LeadsStep(f, look);
    f' := Next(f, look);
    StepKeeps(f, look);
  }

  /** A candidate can be brought to the point where only its own callback is left to run. */
  lemma CandidateCanFind(f: Case, w: nat) returns (f': Case)
    requires Inv(f) && Candidate(f, w)
    ensures Leads(f, f') && Inv(f') && A.Live(f'.desk, w) && OthersStay(f, f', w)
  {
    if A.Live(f.desk, w) {
      f' := f;
      assert f == Run(f, []);
    } else {
      var f1 := CanSave(f, w);
      var f2 := CanReply(f1, w);
      var f3 := CanDefer(f2);
      f' := CanFind(f3, w);
      LeadsOn(f, f1, f2);
      LeadsOn(f, f2, f3);
      LeadsOn(f, f3, f');
    }
  }

  lemma TwoCandidatesCanAnnounce(f: Case, a: nat, b: nat) returns (f': Case)
    requires Inv(f) && Candidate(f, a) && Candidate(f, b) && a != b
    ensures Leads(f, f') && A.Announced(f'.desk, a) && A.Announced(f'.desk, b)
  {
    var f1 := CandidateCanFind(f, a);
    var f2 := CandidateCanFind(f1, b);
    var steps := A.TwoLiveCanAnnounce(f2.desk, a, b);
    AnnouncementsLead(f2, steps);
    f' := f2.(desk := A.Run(f2.desk, steps));
    LeadsOn(f, f1, f2);
    LeadsOn(f, f2, f');
  }

  lemma TwoMoreCanJoin(f: Case)
    requires Inv(f) && !Closed(f)
    ensures !AtMostOneAnnounces(f)
  {
    var a := Unused(f.up.uploads.Keys);
    var checks := [U.Check(a, []), U.Check(a + 1, [])];
    U.RunTwo(f.up, checks[0], checks[1]);
    UploadsLead(f, checks);
    var f1 := f.(up := U.Run(f.up, checks));
    LeadsKeeps(f, f1);
    assert Candidate(f1, a) && Candidate(f1, a + 1);
    var f2 := TwoCandidatesCanAnnounce(f1, a, a + 1);
    LeadsOn(f, f1, f2);
  }

  /**
   When a file is announced at most once, over all continuations: exactly if no upload can
   join that would find something to announce, and no two uploads have announced it or still
   may, each by its own success, its reply, and its callback.
   */
  lemma OneAnnouncementIff(f: Case)
    requires Reachable(f)
    ensures AtMostOneAnnounces(f) <==> Closed(f) && forall a, b :: Candidate(f, a) && Candidate(f, b) ==> a == b
  {
    Reached(f);
    if !Closed(f) {
      TwoMoreCanJoin(f);
    } else if a, b :| Candidate(f, a) && Candidate(f, b) && a != b {
      var f' := TwoCandidatesCanAnnounce(f, a, b);
    } else {
      forall f', a, b | Leads(f, f') && A.Announced(f'.desk, a) && A.Announced(f'.desk, b) ensures a == b {
        var steps :| f' == Run(f, steps);
        CandidatesOnlyShrink(f, steps, a);
        CandidatesOnlyShrink(f, steps, b);
      }
    }
  }

  /**
   The ordinary case: once one upload has succeeded and no other still may, its file is
   announced at most once, whether its message is pooled already or not.
   */
  lemma OneUploadAnnouncesOnce(f: Case, w: nat)
    requires Reachable(f) && f.up.bytes.Some? && forall u :: U.Live(f.up, u) ==> u == w
    ensures AtMostOneAnnounces(f)
  {
    Reached(f);
    forall u | Candidate(f, u) ensures u == w {
      assert u in f.desk.work ==> MayCall(f, u) && U.Saved(f.up, u);
      assert U.Live(f.up, u);
    }
    OneAnnouncementIff(f);
  }

  /**
   Two announcements in any interleaving come from two uploads that both succeeded and were
   answered, and from two looks into the pool with no deletion in between.
   */
  lemma TwoAnnouncementsNeedTwoUploads(f: Case, a: nat, b: nat)
    requires Reachable(f) && A.Announced(f.desk, a) && A.Announced(f.desk, b)
    requires f.desk.work[a].at < f.desk.work[b].at
    ensures U.Saved(f.up, a) && U.Saved(f.up, b) && MayCall(f, a) && MayCall(f, b)
    ensures f.desk.work[b].at < |f.desk.acts| && A.NoDelete(f.desk.acts, f.desk.work[a].at, f.desk.work[b].at)
  {
    Reached(f);
    PartsReachable(f);
    assert A.WorkOk(f.desk, a) && A.WorkOk(f.desk, b);
    A.FoundTwiceIff(f.desk, a, b);
  }

  // ----- a run

  lemma LeadsReachable(f: Case, f': Case)
    requires Reachable(f) && Leads(f, f')
    ensures Reachable(f')
  {
    var desk, before :| A.Start(desk) && f == Run(Start(desk), before);
    var steps :| f' == Run(f, steps);
    RunConcat(Start(desk), before, steps);
  }

  lemma NextIsReachable(f: Case, step: Step)
    requires Reachable(f)
    ensures Reachable(Next(f, step))
  {
    LeadsStep(f, step);
    LeadsReachable(f, Next(f, step));
  }

  /** Two uploads of one file have succeeded and been answered, and its message is pooled. */
  lemma BothReplied(desk: A.Desk, entry: Deferred) returns (f: Case)
    requires A.Start(desk)
    ensures Reachable(f) && U.Saved(f.up, 0) && U.Saved(f.up, 1) && f.replied == map[0 := true, 1 := true]
    ensures f.desk.id in f.desk.sys.deferred && f.desk.sys.deferred[f.desk.id] == entry
    ensures f.desk.sys.channels == desk.sys.channels && f.desk.work == map[] && f.desk.acts == [A.Put]
  {
    var up := U.TwoUploadsMix();
    var uploads :| up == U.Run(U.NO_FILE, uploads);
    assert Reachable(Start(desk)) by {
      assert Start(desk) == Run(Start(desk), []);
    }
    UploadsLead(Start(desk), uploads);
    var f1 := Start(desk).(up := up);
    LeadsReachable(Start(desk), f1);
    NextIsReachable(f1, Reply(0, true));
    var f2 := Next(f1, Reply(0, true));
    NextIsReachable(f2, Reply(1, true));
    var f3 := Next(f2, Reply(1, true));
    NextIsReachable(f3, Announce(A.Defer(entry)));
    f := Next(f3, Announce(A.Defer(entry)));
  }

  lemma BothLook(desk: A.Desk, entry: Deferred) returns (f: Case)
    requires A.Start(desk) && entry.receiver != 0
    ensures Reachable(f) && U.Saved(f.up, 0) && U.Saved(f.up, 1) && f.desk.sys.channels == desk.sys.channels
    ensures f.desk.work == map[0 := A.Found(entry, 1), 1 := A.Found(entry, 2)]
  {
    var f1 := BothReplied(desk, entry);
    NextIsReachable(f1, Announce(A.GetFileMsg(0)));
    var f2 := Next(f1, Announce(A.GetFileMsg(0)));
    NextIsReachable(f2, Announce(A.GetFileMsg(1)));
    f := Next(f2, Announce(A.GetFileMsg(1)));
  }

  lemma Announces(f: Case, w: nat) returns (f': Case)
    requires Reachable(f) && w in f.desk.work && f.desk.work[w].Found?
    requires HasSender(f.desk.sys, f.desk.work[w].entry.receiver)
    ensures var entry, at := f.desk.work[w].entry, f.desk.work[w].at;
            && Reachable(f') && f'.up == f.up && f'.desk.work == f.desk.work[w := A.Over(at, true, true)]
            && f'.desk.sys.channels
               == PushTo(f.desk.sys, entry.receiver, ContactMessageListRequest([entry.message])).channels
  {
    NextIsReachable(f, Announce(A.DelFileMsg(w)));
    var f1 := Next(f, Announce(A.DelFileMsg(w)));
    NextIsReachable(f1, Announce(A.AddSendTask(w)));
    f' := Next(f1, Announce(A.AddSendTask(w)));
  }

  /** One file announced twice: two uploads succeed, and both callbacks look before either deletes. */
  lemma AnnouncedTwice(desk: A.Desk, m: Message) returns (f: Case)
    requires A.Start(desk) && m.raw.to != 0 && desk.sys.channels == map[m.raw.to := Open(0)]
    ensures Reachable(f) && U.Saved(f.up, 0) && U.Saved(f.up, 1)
    ensures A.Announced(f.desk, 0) && A.Announced(f.desk, 1)
    ensures f.desk.sys.channels
         == map[m.raw.to := Open(0).Push(ContactMessageListRequest([m])).Push(ContactMessageListRequest([m]))]
  {
    var f1 := BothLook(desk, Deferred(m.raw.to, m));
    var f2 := Announces(f1, 0);
    f := Announces(f2, 1);
  }
}
