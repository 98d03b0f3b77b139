/**
 Logins in any interleaving. The handler reads the challenge, compares and mints, and forgets
 the challenge in critical sections of their own; others run in between. The table of users
 only grows, so it is left as it is.
 */
module LoginRaces {
  import opened Sequences
  import opened Protocol
  import opened Store
  import opened Handlers

  /** A login that has read the challenge, or also compared; `at` is its read in the history. */
  datatype Work =
    | HasRead(user: User, hash: string, challenge: string, at: nat)
    | HasCompared(user: User, reply: Reply, at: nat)
    | Answered(reply: Reply)

  /** The history of challenges and tokens. A token remembers the read its login began with. */
  datatype Act =
    | Issue(uid: int, challenge: string)
    | Read(uid: int, worker: nat, challenge: string)
    | Mint(uid: int, token: string, challenge: string, hash: string, at: nat)
    | Forget(uid: int, worker: nat)

  datatype Desk = Desk(sys: Sys, work: map<nat, Work>, acts: seq<Act>)

  datatype Step =
    | Prepare(username: string, challenge: string)
    | ReadChallenge(worker: nat, username: string, hash: string)
    | Compare(worker: nat, token: string)
    | ForgetChallenge(worker: nat)

  function Next(sha: string -> string, d: Desk, step: Step): Desk {
    match step
    case Prepare(username, challenge) =>
      (match FindName(d.sys.db.users, username)
       case None => d
       case Some(u) => d.(sys := d.sys.(challenges := d.sys.challenges[u.id := challenge]),
                          acts := d.acts + [Issue(u.id, challenge)]))
    case ReadChallenge(w, username, hash) =>
      if w in d.work && !d.work[w].Answered? then d
      else
        (match FindName(d.sys.db.users, username)
         case None => d.(work := d.work[w := Answered(LoginResponse(false, -1, "illegal user"))])
         case Some(u) =>
           d.(work := d.work[w := HasRead(u, hash, ChallengeOf(d.sys.challenges, u.id), |d.acts|)],
              acts := d.acts + [Read(u.id, w, ChallengeOf(d.sys.challenges, u.id))]))
    case Compare(w, token) =>
      if w !in d.work || !d.work[w].HasRead? then d
      else
        var HasRead(u, hash, challenge, at) := d.work[w];
        if sha(u.password + challenge) == hash
        then Desk(d.sys.(tokens := d.sys.tokens[token := u.id]),
                  d.work[w := HasCompared(u, LoginResponse(true, u.id, token), at)],
                  d.acts + [Mint(u.id, token, challenge, hash, at)])
        else d.(work := d.work[w := HasCompared(u, LoginResponse(false, -1, "wrong password"), at)])
    case ForgetChallenge(w) =>
      if w !in d.work || !d.work[w].HasCompared? then d
      else
        var HasCompared(u, reply, _) := d.work[w];
        Desk(d.sys.(challenges := d.sys.challenges - {u.id}), d.work[w := Answered(reply)], d.acts + [Forget(u.id, w)])
  }

  function Run(sha: string -> string, d: Desk, steps: seq<Step>): Desk {
    if steps == [] then d else Next(sha, Run(sha, d, steps[..|steps| - 1]), steps[|steps| - 1])
  }

  /** `d` is the state of some interleaving in a process that began without challenges. */
  ghost predicate Reachable(sha: string -> string, d: Desk) {
    exists sys: Sys, steps :: sys.challenges == map[] && d == Run(sha, Desk(sys, map[], []), steps)
  }

  // ----- the uninterrupted case

  /** A login that nothing interrupts is the handler's one step, reply and all. */
  lemma UninterruptedIsHandler(sha: string -> string, d: Desk, w: nat, username: string, hash: string, env: Env)
    requires w in d.work ==> d.work[w].Answered?
    ensures var read := Next(sha, d, ReadChallenge(w, username, hash));
            var d' := Next(sha, Next(sha, read, Compare(w, env.uuid)), ForgetChallenge(w));
            var o := Login(sha, d.sys, username, hash, env);
            d'.sys == o.sys && w in d'.work && d'.work[w] == Answered(o.reply)
    ensures Next(sha, d, Prepare(username, env.challenge)).sys == LoginPre(d.sys, username, env).sys
  {
    var found := FindName(d.sys.db.users, username);
    if found.Some? {
      var u := found.value;
      var challenge := ChallengeOf(d.sys.challenges, u.id);
      var read := Next(sha, d, ReadChallenge(w, username, hash));
      assert read.sys == d.sys && read.work[w] == HasRead(u, hash, challenge, |d.acts|);
      var compared := Next(sha, read, Compare(w, env.uuid));
      assert compared.work[w].HasCompared? && compared.work[w].user == u;
    }
  }

  // ----- the pending challenge, read off the history

  predicate Touches(a: Act, uid: int) {
    (a.Issue? || a.Forget?) && a.uid == uid
  }

  ghost predicate Untouched(acts: seq<Act>, i: int, j: int, uid: int)
    requires -1 <= i && j <= |acts|
  {
    forall k :: i < k < j ==> !Touches(acts[k], uid)
  }

  /** The position of the issuance that is pending for `uid`, or -1. */
  function Pending(acts: seq<Act>, uid: int): (j: int)
    ensures -1 <= j < |acts|
    ensures j >= 0 ==> acts[j].Issue? && acts[j].uid == uid
  {
    if acts == [] then -1
    else
      var last := acts[|acts| - 1];
      if !Touches(last, uid) then Pending(acts[..|acts| - 1], uid)
      else if last.Issue? then |acts| - 1
      else -1
  }

  function Met(acts: seq<Act>, uid: int): string {
    if Pending(acts, uid) >= 0 then acts[Pending(acts, uid)].challenge else ""
  }

  lemma PendingSnoc(acts: seq<Act>, a: Act, uid: int)
    ensures Pending(acts + [a], uid) == if !Touches(a, uid) then Pending(acts, uid) else if a.Issue? then |acts| else -1
    ensures Met(acts + [a], uid) == if !Touches(a, uid) then Met(acts, uid) else if a.Issue? then a.challenge else ""
  {
    assert (acts + [a])[..|acts|] == acts;
  }

  /** An issuance is pending exactly if it was neither replaced nor forgotten since. */
  lemma {:induction false} PendingIff(acts: seq<Act>, uid: int, j: nat)
    ensures Pending(acts, uid) == j <==>
              j < |acts| && acts[j].Issue? && acts[j].uid == uid && Untouched(acts, j, |acts|, uid)
  {
    if acts != [] {
      var init := acts[..|acts| - 1];
      PendingIff(init, uid, j);
      assert forall k :: 0 <= k < |init| ==> acts[k] == init[k];
    }
  }

  /** What is pending at `a` is so at `b` exactly if nothing touches the challenge from `a` on. */
  lemma StillPendingIff(acts: seq<Act>, a: nat, b: nat, uid: int)
    requires a <= b <= |acts| && Pending(acts[..a], uid) >= 0
    ensures Pending(acts[..b], uid) == Pending(acts[..a], uid) <==> Untouched(acts, a - 1, b, uid)
  {
    var j := Pending(acts[..a], uid);
    PendingIff(acts[..a], uid, j);
    PendingIff(acts[..b], uid, j);
    assert forall i :: 0 <= i < a ==> acts[..a][i] == acts[i];
    assert forall i :: 0 <= i < b ==> acts[..b][i] == acts[i];
  }

  /** Issuance `i` came after position `at` and is still pending. */
  ghost predicate NewerPending(acts: seq<Act>, uid: int, at: nat, i: int) {
    at < i < |acts| && acts[i].Issue? && acts[i].uid == uid && Untouched(acts, i, |acts|, uid)
  }

  lemma NewerPendingIff(acts: seq<Act>, uid: int, at: nat)
    ensures Pending(acts, uid) > at <==> exists i :: NewerPending(acts, uid, at, i)
  {
    if Pending(acts, uid) > at {
      PendingIff(acts, uid, Pending(acts, uid));
      assert NewerPending(acts, uid, at, Pending(acts, uid));
    } else if i :| NewerPending(acts, uid, at, i) {
      PendingIff(acts, uid, i);
    }
  }

  // ----- what every step keeps

  ghost predicate WorkOk(d: Desk, w: nat)
    requires w in d.work
  {
    match d.work[w]
    case HasRead(u, _, challenge, at) => u in d.sys.db.users && at < |d.acts| && d.acts[at] == Read(u.id, w, challenge)
    case HasCompared(u, _, at) => at < |d.acts| && d.acts[at].Read? && d.acts[at].uid == u.id && d.acts[at].worker == w
    case Answered(_) => true
  }

  /** The token at `k` was minted for what its login had read, with a hash that matches it. */
  ghost predicate MintOk(sha: string -> string, d: Desk, k: int)
    requires 0 <= k < |d.acts| && d.acts[k].Mint?
  {
    var a := d.acts[k];
    && a.at < k && d.acts[a.at].Read? && d.acts[a.at].uid == a.uid && d.acts[a.at].challenge == a.challenge
    && exists u :: u in d.sys.db.users && u.id == a.uid && sha(u.password + a.challenge) == a.hash
  }

  ghost predicate Inv(sha: string -> string, d: Desk) {
    && (forall uid :: ChallengeOf(d.sys.challenges, uid) == Met(d.acts, uid))
    && (forall w :: w in d.work ==> WorkOk(d, w))
    && (forall k :: 0 <= k < |d.acts| && d.acts[k].Read? ==> d.acts[k].challenge == Met(d.acts[..k], d.acts[k].uid))
    && (forall k :: 0 <= k < |d.acts| && d.acts[k].Mint? ==> MintOk(sha, d, k))
  }

  /** A step adds at most one entry, and changes the pool only as that entry says. */
  lemma StepAddsOne(sha: string -> string, d: Desk, step: Step, uid: int)
    ensures var d', n := Next(sha, d, step), |d.acts|;
            var was, now := ChallengeOf(d.sys.challenges, uid), ChallengeOf(d'.sys.challenges, uid);
            && d'.sys.db == d.sys.db
            && if |d'.acts| == n then d'.acts == d.acts && now == was
               else |d'.acts| == n + 1 && d'.acts == d.acts + [d'.acts[n]]
                    && now == if !Touches(d'.acts[n], uid) then was
                              else if d'.acts[n].Issue? then d'.acts[n].challenge else ""
  {
  }

  lemma StepKeepsPool(sha: string -> string, d: Desk, step: Step, uid: int)
    requires Inv(sha, d)
    ensures var d' := Next(sha, d, step); ChallengeOf(d'.sys.challenges, uid) == Met(d'.acts, uid)
  {
    var d' := Next(sha, d, step);
    StepAddsOne(sha, d, step, uid);
    if |d'.acts| != |d.acts| {
      PendingSnoc(d.acts, d'.acts[|d.acts|], uid);
    }
  }

  lemma WorkKept(d: Desk, d': Desk, w: nat)
    requires w in d.work && w in d'.work && d'.work[w] == d.work[w] && WorkOk(d, w)
    requires d.acts <= d'.acts && d'.sys.db == d.sys.db
    ensures WorkOk(d', w)
  {
  }

  lemma StepKeepsWork(sha: string -> string, d: Desk, step: Step, w: nat)
    requires Inv(sha, d) && w in Next(sha, d, step).work
    ensures WorkOk(Next(sha, d, step), w)
  {
    var d' := Next(sha, d, step);
    if w in d.work && d'.work[w] == d.work[w] {
      WorkKept(d, d', w);
    } else if !step.ReadChallenge? {
      assert WorkOk(d, w);
    }
  }

  lemma StepKeepsRead(sha: string -> string, d: Desk, step: Step, k: int)
    requires Inv(sha, d)
    requires 0 <= k < |Next(sha, d, step).acts| && Next(sha, d, step).acts[k].Read?
    ensures var acts := Next(sha, d, step).acts; acts[k].challenge == Met(acts[..k], acts[k].uid)
  {
    var acts := Next(sha, d, step).acts;
    StepAddsOne(sha, d, step, acts[k].uid);
    if k < |d.acts| {
      assert acts[..k] == d.acts[..k] && acts[k] == d.acts[k];
    } else {
      assert acts[..k] == d.acts;
    }
  }

  lemma StepKeepsMint(sha: string -> string, d: Desk, step: Step, k: int)
    requires Inv(sha, d)
    requires 0 <= k < |Next(sha, d, step).acts| && Next(sha, d, step).acts[k].Mint?
    ensures MintOk(sha, Next(sha, d, step), k)
  {
    var d' := Next(sha, d, step);
    assert d.acts <= d'.acts;
    if k < |d.acts| {
      assert MintOk(sha, d, k);
    } else {
      assert step.Compare? && WorkOk(d, step.worker);
    }
  }

  lemma StepKeeps(sha: string -> string, d: Desk, step: Step)
    requires Inv(sha, d)
    ensures Inv(sha, Next(sha, d, step))
  {
    var d' := Next(sha, d, step);
    forall uid ensures ChallengeOf(d'.sys.challenges, uid) == Met(d'.acts, uid) {
      StepKeepsPool(sha, d, step, uid);
    }
    forall w | w in d'.work ensures WorkOk(d', w) {
      StepKeepsWork(sha, d, step, w);
    }
    forall k | 0 <= k < |d'.acts| && d'.acts[k].Read?
      ensures d'.acts[k].challenge == Met(d'.acts[..k], d'.acts[k].uid)
    {
      StepKeepsRead(sha, d, step, k);
    }
    forall k | 0 <= k < |d'.acts| && d'.acts[k].Mint? ensures MintOk(sha, d', k) {
      StepKeepsMint(sha, d, step, k);
    }
  }

  lemma {:induction false} RunKeeps(sha: string -> string, d: Desk, steps: seq<Step>)
    requires Inv(sha, d)
    ensures Inv(sha, Run(sha, d, steps))
  {
    if steps != [] {
      RunKeeps(sha, d, steps[..|steps| - 1]);
      StepKeeps(sha, Run(sha, d, steps[..|steps| - 1]), steps[|steps| - 1]);
    }
  }

  lemma Reached(sha: string -> string, d: Desk)
    requires Reachable(sha, d)
    ensures Inv(sha, d)
  {
    var sys: Sys, steps :| sys.challenges == map[] && d == Run(sha, Desk(sys, map[], []), steps);
    RunKeeps(sha, Desk(sys, map[], []), steps);
  }

  // ----- main results

  /** No read has earned two tokens, and none that may still earn one has earned one. */
  ghost predicate OneTokenEach(d: Desk) {
    && (forall k, l :: 0 <= k < l < |d.acts| && d.acts[k].Mint? && d.acts[l].Mint? ==> d.acts[k].at != d.acts[l].at)
    && (forall w, k :: w in d.work && d.work[w].HasRead? && 0 <= k < |d.acts| && d.acts[k].Mint? ==>
          d.acts[k].at != d.work[w].at)
  }

  lemma ReaderHasNoToken(sha: string -> string, d: Desk, step: Step, w: nat, k: int)
    requires Inv(sha, d) && OneTokenEach(d)
    requires var d' := Next(sha, d, step);
             w in d'.work && d'.work[w].HasRead? && 0 <= k < |d'.acts| && d'.acts[k].Mint?
    ensures Next(sha, d, step).acts[k].at != Next(sha, d, step).work[w].at
  {
    if k < |d.acts| {
      assert MintOk(sha, d, k);
    } else {
      assert step.Compare? && WorkOk(d, step.worker) && WorkOk(d, w);
    }
  }

  lemma StepKeepsOneToken(sha: string -> string, d: Desk, step: Step)
    requires Inv(sha, d) && OneTokenEach(d)
    ensures OneTokenEach(Next(sha, d, step))
  {
    var d' := Next(sha, d, step);
    forall w, k | w in d'.work && d'.work[w].HasRead? && 0 <= k < |d'.acts| && d'.acts[k].Mint?
      ensures d'.acts[k].at != d'.work[w].at
    {
      ReaderHasNoToken(sha, d, step, w, k);
    }
    assert forall k :: 0 <= k < |d.acts| ==> d'.acts[k] == d.acts[k];
  }

  lemma {:induction false} RunKeepsOneToken(sha: string -> string, d: Desk, steps: seq<Step>)
    requires Inv(sha, d) && OneTokenEach(d)
    ensures OneTokenEach(Run(sha, d, steps))
  {
    if steps != [] {
      RunKeeps(sha, d, steps[..|steps| - 1]);
      RunKeepsOneToken(sha, d, steps[..|steps| - 1]);
      StepKeepsOneToken(sha, Run(sha, d, steps[..|steps| - 1]), steps[|steps| - 1]);
    }
  }

  /** In any interleaving two tokens come from two reads of the challenge. */
  lemma TokensHaveOwnReads(sha: string -> string, d: Desk, k: int, l: int)
    requires Reachable(sha, d) && 0 <= k < l < |d.acts| && d.acts[k].Mint? && d.acts[l].Mint?
    ensures d.acts[k].at != d.acts[l].at
  {
    var sys: Sys, steps :| sys.challenges == map[] && d == Run(sha, Desk(sys, map[], []), steps);
    RunKeepsOneToken(sha, Desk(sys, map[], []), steps);
  }

  lemma ReadMet(sha: string -> string, d: Desk, k: nat)
    requires Reachable(sha, d) && k < |d.acts| && d.acts[k].Read?
    ensures d.acts[k].challenge == Met(d.acts[..k], d.acts[k].uid)
  {
    Reached(sha, d);
  }

  /**
   When two attempts meet the same issuance, whatever hashes they present: each compares with
   what was pending at its read, and if there was an issuance at the first read, it is the same
   at the second exactly if no challenge of the user was issued or forgotten between the two.
   */
  lemma AttemptsShareIff(sha: string -> string, d: Desk, a: nat, b: nat)
    requires Reachable(sha, d) && a < b < |d.acts| && d.acts[a].Read? && d.acts[b].Read?
    requires d.acts[a].uid == d.acts[b].uid
    ensures var uid := d.acts[a].uid;
            && d.acts[a].challenge == Met(d.acts[..a], uid) && d.acts[b].challenge == Met(d.acts[..b], uid)
            && (Pending(d.acts[..a], uid) >= 0 ==>
                  (Pending(d.acts[..b], uid) == Pending(d.acts[..a], uid) <==> Untouched(d.acts, a, b, uid)))
  {
    ReadMet(sha, d, a);
    ReadMet(sha, d, b);
    if Pending(d.acts[..a], d.acts[a].uid) >= 0 {
      StillPendingIff(d.acts, a, b, d.acts[a].uid);
    }
  }

  /** A login compares with what it read, and with nothing else. */
  lemma ComparesWhatItRead(sha: string -> string, d: Desk, w: nat)
    requires Reachable(sha, d) && w in d.work && d.work[w].HasRead?
    ensures d.work[w].at < |d.acts| && d.acts[d.work[w].at] == Read(d.work[w].user.id, w, d.work[w].challenge)
  {
    Reached(sha, d);
    assert WorkOk(d, w);
  }

  /**
   When one issuance earns two tokens: both logins presented the hash for what they had read,
   and it was the same issuance exactly if no challenge of the user was issued or forgotten
   between the two reads. So the second read came before the first login forgot.
   */
  lemma TokensShareIff(sha: string -> string, d: Desk, k: int, l: int)
    requires Reachable(sha, d) && 0 <= k < |d.acts| && 0 <= l < |d.acts| && d.acts[k].Mint? && d.acts[l].Mint?
    requires d.acts[k].uid == d.acts[l].uid && d.acts[k].at < d.acts[l].at
    ensures var a, b, uid := d.acts[k], d.acts[l], d.acts[k].uid;
            && a.at < k && b.at < l && d.acts[a.at].Read? && d.acts[b.at].Read?
            && a.challenge == Met(d.acts[..a.at], uid) && b.challenge == Met(d.acts[..b.at], uid)
            && (exists u :: u in d.sys.db.users && u.id == uid && sha(u.password + a.challenge) == a.hash)
            && (exists u :: u in d.sys.db.users && u.id == uid && sha(u.password + b.challenge) == b.hash)
            && (Pending(d.acts[..a.at], uid) >= 0 ==>
                  (Pending(d.acts[..b.at], uid) == Pending(d.acts[..a.at], uid) <==>
                     Untouched(d.acts, a.at, b.at, uid)))
  {
    Reached(sha, d);
    assert MintOk(sha, d, k) && MintOk(sha, d, l);
    AttemptsShareIff(sha, d, d.acts[k].at, d.acts[l].at);
  }

  /**
   When a login forgets a challenge that it never met: exactly if a newer one was issued after
   its read and is still pending. That one is what the pool loses; afterwards it has none.
   */
  lemma ForgetsNewerIff(sha: string -> string, d: Desk, w: nat)
    requires Reachable(sha, d) && w in d.work && d.work[w].HasCompared?
    ensures var uid, at, d' := d.work[w].user.id, d.work[w].at, Next(sha, d, ForgetChallenge(w));
            && at < |d.acts| && d.acts[at].Read? && d.acts[at].uid == uid && d.acts[at].worker == w
            && (Pending(d.acts, uid) > at <==> exists i :: NewerPending(d.acts, uid, at, i))
            && (forall i :: NewerPending(d.acts, uid, at, i) ==>
                  i == Pending(d.acts, uid) && ChallengeOf(d.sys.challenges, uid) == d.acts[i].challenge)
            && Pending(d'.acts, uid) == -1 && ChallengeOf(d'.sys.challenges, uid) == ""
  {
    Reached(sha, d);
    assert WorkOk(d, w);
    var uid, at := d.work[w].user.id, d.work[w].at;
    PendingSnoc(d.acts, Forget(uid, w), uid);
    NewerPendingIff(d.acts, uid, at);
    forall i | NewerPending(d.acts, uid, at, i) ensures i == Pending(d.acts, uid) {
      PendingIff(d.acts, uid, i);
    }
  }

  // ----- runs

  lemma NextIsReachable(sha: string -> string, d: Desk, step: Step)
    requires Reachable(sha, d)
    ensures Reachable(sha, Next(sha, d, step))
  {
    var sys: Sys, steps :| sys.challenges == map[] && d == Run(sha, Desk(sys, map[], []), steps);
    assert (steps + [step])[..|steps|] == steps;
    assert Next(sha, d, step) == Run(sha, Desk(sys, map[], []), steps + [step]);
  }

  lemma Prepares(sha: string -> string, d: Desk, u: User, challenge: string) returns (d': Desk)
    requires Reachable(sha, d) && FindName(d.sys.db.users, u.username) == Some(u)
    ensures Reachable(sha, d') && d' == Desk(d.sys.(challenges := d.sys.challenges[u.id := challenge]), d.work,
                                             d.acts + [Issue(u.id, challenge)])
  {
    NextIsReachable(sha, d, Prepare(u.username, challenge));
    d' := Next(sha, d, Prepare(u.username, challenge));
  }

  lemma Reads(sha: string -> string, d: Desk, w: nat, u: User, hash: string) returns (d': Desk)
    requires Reachable(sha, d) && FindName(d.sys.db.users, u.username) == Some(u) && w !in d.work
    ensures Reachable(sha, d')
    ensures d' == Desk(d.sys, d.work[w := HasRead(u, hash, ChallengeOf(d.sys.challenges, u.id), |d.acts|)],
                       d.acts + [Read(u.id, w, ChallengeOf(d.sys.challenges, u.id))])
  {
    NextIsReachable(sha, d, ReadChallenge(w, u.username, hash));
    d' := Next(sha, d, ReadChallenge(w, u.username, hash));
  }

  lemma Mints(sha: string -> string, d: Desk, w: nat, token: string) returns (d': Desk)
    requires Reachable(sha, d) && w in d.work && d.work[w].HasRead?
    requires sha(d.work[w].user.password + d.work[w].challenge) == d.work[w].hash
    ensures var HasRead(u, hash, challenge, at) := d.work[w];
            && Reachable(sha, d')
            && d' == Desk(d.sys.(tokens := d.sys.tokens[token := u.id]),
                          d.work[w := HasCompared(u, LoginResponse(true, u.id, token), at)],
                          d.acts + [Mint(u.id, token, challenge, hash, at)])
  {
    NextIsReachable(sha, d, Compare(w, token));
    d' := Next(sha, d, Compare(w, token));
  }

  lemma Forgets(sha: string -> string, d: Desk, w: nat) returns (d': Desk)
    requires Reachable(sha, d) && w in d.work && d.work[w].HasCompared?
    ensures var HasCompared(u, reply, _) := d.work[w];
            && Reachable(sha, d')
            && d' == Desk(d.sys.(challenges := d.sys.challenges - {u.id}), d.work[w := Answered(reply)],
                          d.acts + [Forget(u.id, w)])
  {
    NextIsReachable(sha, d, ForgetChallenge(w));
    d' := Next(sha, d, ForgetChallenge(w));
  }

  /** A challenge was issued, and one login of the user has read it. */
  lemma OneRead(sha: string -> string, sys: Sys, u: User, challenge: string) returns (d: Desk)
    requires sys.challenges == map[] && FindName(sys.db.users, u.username) == Some(u)
    ensures Reachable(sha, d) && d.sys == sys.(challenges := map[u.id := challenge])
    ensures d.work == map[0 := HasRead(u, sha(u.password + challenge), challenge, 1)]
    ensures d.acts == [Issue(u.id, challenge), Read(u.id, 0, challenge)]
  {
    d := Desk(sys, map[], []);
    assert d == Run(sha, d, []);
    d := Prepares(sha, d, u, challenge);
    d := Reads(sha, d, 0, u, sha(u.password + challenge));
  }

  lemma TwoReads(sha: string -> string, sys: Sys, u: User, challenge: string) returns (d: Desk)
    requires sys.challenges == map[] && FindName(sys.db.users, u.username) == Some(u)
    ensures var hash := sha(u.password + challenge);
            && Reachable(sha, d) && d.sys.tokens == sys.tokens
            && d.acts == [Issue(u.id, challenge), Read(u.id, 0, challenge), Read(u.id, 1, challenge)]
            && d.work == map[0 := HasRead(u, hash, challenge, 1), 1 := HasRead(u, hash, challenge, 2)]
  {
    d := OneRead(sha, sys, u, challenge);
    d := Reads(sha, d, 1, u, sha(u.password + challenge));
  }

  /** One issuance, two tokens: both logins read it before either forgets. */
  lemma OneChallengeTwoTokens(sha: string -> string, sys: Sys, u: User, challenge: string, s: string, t: string)
    returns (d: Desk)
    requires sys.challenges == map[] && FindName(sys.db.users, u.username) == Some(u)
    ensures var hash := sha(u.password + challenge);
            && Reachable(sha, d) && d.sys.tokens == sys.tokens[s := u.id][t := u.id]
            && d.acts == [Issue(u.id, challenge), Read(u.id, 0, challenge), Read(u.id, 1, challenge)]
                         + [Mint(u.id, s, challenge, hash, 1)] + [Mint(u.id, t, challenge, hash, 2)]
  {
    var d0 := TwoReads(sha, sys, u, challenge);
    var d1 := Mints(sha, d0, 0, s);
    d := Mints(sha, d1, 1, t);
  }

  lemma NewerIsPending(sha: string -> string, sys: Sys, u: User, older: string, newer: string) returns (d: Desk)
    requires sys.challenges == map[] && FindName(sys.db.users, u.username) == Some(u)
    ensures Reachable(sha, d) && d.sys.db == sys.db && d.work.Keys == {0}
    ensures d.work[0].HasCompared? && d.work[0].user == u
    ensures d.acts == [Issue(u.id, older), Read(u.id, 0, older), Mint(u.id, "token", older, sha(u.password + older), 1),
                       Issue(u.id, newer)]
  {
    d := OneRead(sha, sys, u, older);
    d := Mints(sha, d, 0, "token");
    d := Prepares(sha, d, u, newer);
  }

  /** A challenge issued before an older login forgets is forgotten with it: the next login misses it. */
  lemma NewerChallengeForgotten(sha: string -> string, sys: Sys, u: User, older: string, newer: string, hash: string)
    returns (d: Desk)
    requires sys.challenges == map[] && FindName(sys.db.users, u.username) == Some(u)
    ensures Reachable(sha, d) && 1 in d.work && d.work[1] == HasRead(u, hash, "", 5)
    ensures |d.acts| == 6 && d.acts[3..] == [Issue(u.id, newer), Forget(u.id, 0), Read(u.id, 1, "")]
  {
    var d0 := NewerIsPending(sha, sys, u, older, newer);
    var d1 := Forgets(sha, d0, 0);
    d := Reads(sha, d1, 1, u, hash);
  }
}
