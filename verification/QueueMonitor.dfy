/**
 The blocking queue as a monitor: every lock, unlock, wait, wake-up and notification is a
 step of its own, and any number of threads push, pop and clear in any interleaving.
 */
module QueueMonitor {
  import opened Sequences

  /** Where a thread stands inside `Push`, `WaitAndPop` or `Clear`. */
  datatype Phase<T> =
    | Idle
    | PushEntering(item: T)
    | PushHolding(item: T)
    | PushStored
    | PushOwesNotify
    | PopEntering
    | PopChecking
    | PopTaking
    | PopLeaving(item: T)
    | Asleep
    | ClearEntering
    | ClearLooping
  {
    /** The thread is between acquiring and releasing the mutex. */
    predicate Holds() {
      PushHolding? || PushStored? || PopChecking? || PopTaking? || PopLeaving? || ClearLooping?
    }

    /** The thread stored an item and has yet to call `notify_all`. */
    predicate OwesNotify() {
      PushStored? || PushOwesNotify?
    }
  }

  datatype Removal<T> = Taken(thread: nat, item: T) | Discarded(item: T)

  /** `pushed` and `removed` record history in lock order; the code has only the other fields. */
  datatype Monitor<T> = Monitor(
    owner: Option<nat>, queue: seq<T>, phases: map<nat, Phase<T>>,
    pushed: seq<T>, removed: seq<Removal<T>>)
  {
    function PhaseOf(t: nat): Phase<T> {
      if t in phases then phases[t] else Idle
    }

    function Move(t: nat, p: Phase<T>): Monitor<T> {
      this.(phases := phases[t := p])
    }
  }

  datatype Action<T> = BeginPush(item: T) | BeginPop | BeginClear | Advance | WakeSpuriously

  datatype Step<T> = Step(thread: nat, action: Action<T>)

  function Empty<T>(): Monitor<T> {
    Monitor(None, [], map[], [], [])
  }

  predicate Enabled<T>(m: Monitor<T>, step: Step<T>) {
    var p := m.PhaseOf(step.thread);
    match step.action
    case BeginPush(_) => p.Idle?
    case BeginPop => p.Idle?
    case BeginClear => p.Idle?
    case WakeSpuriously => p.Asleep?
    case Advance =>
      !p.Idle? && !p.Asleep? && (p.PushEntering? || p.PopEntering? || p.ClearEntering? ==> m.owner.None?)
  }

  /** `notify_all`: every sleeper goes back to acquiring the mutex. */
  function WakeAll<T>(phases: map<nat, Phase<T>>): map<nat, Phase<T>> {
    map t | t in phases :: if phases[t].Asleep? then PopEntering else phases[t]
  }

  function Continue<T>(m: Monitor<T>, t: nat): Monitor<T> {
    match m.PhaseOf(t)
    case Idle => m
    case Asleep => m
    case PushEntering(x) => m.(owner := Some(t)).Move(t, PushHolding(x))
    case PushHolding(x) => m.(queue := m.queue + [x], pushed := m.pushed + [x]).Move(t, PushStored)
    case PushStored => m.(owner := None).Move(t, PushOwesNotify)
    case PushOwesNotify => m.(phases := WakeAll(m.phases)).Move(t, Idle)
    case PopEntering => m.(owner := Some(t)).Move(t, PopChecking)
    case PopChecking =>
      if m.queue == [] then m.(owner := None).Move(t, Asleep) else m.Move(t, PopTaking)
    case PopTaking =>
      if m.queue == [] then m
      else m.(queue := m.queue[1..], removed := m.removed + [Taken(t, m.queue[0])])
            .Move(t, PopLeaving(m.queue[0]))
    case PopLeaving(_) => m.(owner := None).Move(t, Idle)
    case ClearEntering => m.(owner := Some(t)).Move(t, ClearLooping)
    case ClearLooping =>
      if m.queue == [] then m.(owner := None).Move(t, Idle)
      else m.(queue := m.queue[1..], removed := m.removed + [Discarded(m.queue[0])])
  }

  /** One step of one thread; a disabled step changes nothing. */
  function Next<T>(m: Monitor<T>, step: Step<T>): Monitor<T> {
    var t := step.thread;
    if !Enabled(m, step) then m
    else match step.action
      case BeginPush(x) => m.Move(t, PushEntering(x))
      case BeginPop => m.Move(t, PopEntering)
      case BeginClear => m.Move(t, ClearEntering)
      case WakeSpuriously => m.Move(t, PopEntering)
      case Advance => Continue(m, t)
  }

  function Run<T>(steps: seq<Step<T>>): Monitor<T> {
    if steps == [] then Empty()
    else Next(Run(steps[..|steps| - 1]), steps[|steps| - 1])
  }

  function Items<T>(removed: seq<Removal<T>>): (r: seq<T>)
    ensures |r| == |removed|
    ensures forall i :: 0 <= i < |r| ==> r[i] == removed[i].item
  {
    seq(|removed|, i requires 0 <= i < |removed| => removed[i].item)
  }

  ghost predicate MutualExclusion<T>(m: Monitor<T>) {
    forall t: nat :: m.PhaseOf(t).Holds() <==> m.owner == Some(t)
  }

  ghost predicate SomeoneOwes<T>(m: Monitor<T>) {
    exists t: nat :: m.PhaseOf(t).OwesNotify()
  }

  ghost predicate SomeoneSleeps<T>(m: Monitor<T>) {
    exists t: nat :: m.PhaseOf(t).Asleep?
  }

  ghost predicate Inv<T>(m: Monitor<T>) {
    && MutualExclusion(m)
    && (m.queue != [] && SomeoneSleeps(m) ==> SomeoneOwes(m))
    && (forall t: nat :: m.PhaseOf(t).PopTaking? ==> m.queue != [])
    && m.pushed == Items(m.removed) + m.queue
  }

  lemma WakeAllPhases<T>(m: Monitor<T>, t: nat)
    requires m.PhaseOf(t).PushOwesNotify?
    ensures var m' := Continue(m, t);
            forall u: nat :: m'.PhaseOf(u) == if u == t then Idle
                             else if m.PhaseOf(u).Asleep? then PopEntering else m.PhaseOf(u)
  {
  }

  lemma ContinueKeepsWakeups<T>(m: Monitor<T>, t: nat)
    requires Inv(m) && Enabled(m, Step(t, Advance))
    ensures var m' := Continue(m, t); m'.queue != [] && SomeoneSleeps(m') ==> SomeoneOwes(m')
  {
    var m' := Continue(m, t);
    var p := m.PhaseOf(t);
    if p.PushOwesNotify? {
      WakeAllPhases(m, t);
    } else if p.PushHolding? || p.PushStored? {
      assert m'.PhaseOf(t).OwesNotify();
    } else if m'.queue != [] && SomeoneSleeps(m') {
      var s: nat :| m'.PhaseOf(s).Asleep?;
      assert s != t && m.PhaseOf(s).Asleep?;
      var o: nat :| m.PhaseOf(o).OwesNotify();
      assert m'.PhaseOf(o).OwesNotify();
    }
  }

  lemma ContinueConserves<T>(m: Monitor<T>, t: nat)
    requires m.pushed == Items(m.removed) + m.queue
    ensures var m' := Continue(m, t); m'.pushed == Items(m'.removed) + m'.queue
  {
    var m' := Continue(m, t);
    if m'.removed != m.removed {
      assert m.queue == [m.queue[0]] + m.queue[1..];
      assert Items(m'.removed) == Items(m.removed) + [m.queue[0]];
    }
  }

  lemma NextKeepsInv<T>(m: Monitor<T>, step: Step<T>)
    requires Inv(m)
    ensures Inv(Next(m, step))
  {
    var m' := Next(m, step);
    var t := step.thread;
    if !Enabled(m, step) {
    } else if step.action.Advance? {
      ContinueConserves(m, t);
      ContinueKeepsWakeups(m, t);
      if m.PhaseOf(t).PushOwesNotify? {
        WakeAllPhases(m, t);
      } else {
        forall u: nat ensures m'.PhaseOf(u).Holds() <==> m'.owner == Some(u) {
          assert m.PhaseOf(u).Holds() <==> m.owner == Some(u);
          assert m.PhaseOf(t).Holds() <==> m.owner == Some(t);
        }
        forall u: nat | m'.PhaseOf(u).PopTaking? ensures m'.queue != [] {
          assert m.PhaseOf(u).Holds() <==> m.owner == Some(u);
          assert m.PhaseOf(t).Holds() <==> m.owner == Some(t);
        }
      }
    } else {
      forall u: nat | u != t ensures m'.PhaseOf(u) == m.PhaseOf(u) {
      }
      if m'.queue != [] && SomeoneSleeps(m') {
        var s: nat :| m'.PhaseOf(s).Asleep?;
        assert m.PhaseOf(s).Asleep?;
        var o: nat :| m.PhaseOf(o).OwesNotify();
        assert m'.PhaseOf(o).OwesNotify();
      }
    }
  }

  lemma {:induction false} RunKeepsInv<T>(steps: seq<Step<T>>)
    ensures Inv(Run(steps))
  {
    if steps != [] {
      RunKeepsInv(steps[..|steps| - 1]);
      NextKeepsInv(Run(steps[..|steps| - 1]), steps[|steps| - 1]);
    }
  }

  /**
   No lost wake-up: in every interleaving, if an item is waiting while a consumer sleeps,
   some producer still owes a `notify_all`; and once nobody is mid-operation no consumer
   sleeps beside a waiting item.
   */
  lemma NoLostWakeup<T>(steps: seq<Step<T>>)
    ensures var m := Run(steps);
            && (m.queue != [] && SomeoneSleeps(m) ==> SomeoneOwes(m))
            && ((forall t: nat :: m.PhaseOf(t).Idle? || m.PhaseOf(t).Asleep?)
                ==> m.queue == [] || !SomeoneSleeps(m))
  {
    RunKeepsInv(steps);
  }

  /** A consumer past its emptiness check always finds an item, and it is alone in the lock. */
  lemma PopNeverFindsEmpty<T>(steps: seq<Step<T>>, t: nat)
    requires Run(steps).PhaseOf(t).PopTaking?
    ensures Run(steps).queue != []
    ensures forall u: nat :: Run(steps).PhaseOf(u).Holds() ==> u == t
  {
    RunKeepsInv(steps);
    assert Run(steps).PhaseOf(t).Holds();
  }

  /** The monitor never jams: while some thread is mid-operation, some thread can advance. */
  lemma Progress<T>(steps: seq<Step<T>>, t: nat) returns (u: nat)
    requires !Run(steps).PhaseOf(t).Idle? && !Run(steps).PhaseOf(t).Asleep?
    ensures Enabled(Run(steps), Step(u, Advance))
    ensures Next(Run(steps), Step(u, Advance)) != Run(steps)
  {
    RunKeepsInv(steps);
    var m := Run(steps);
    u := if m.owner.Some? then m.owner.value else t;
    assert m.PhaseOf(u).Holds() <==> m.owner == Some(u);
    var m' := Continue(m, u);
    if m.PhaseOf(u).ClearLooping? && m.queue != [] {
      assert |m'.queue| < |m.queue|;
    } else {
      assert m'.PhaseOf(u) != m.PhaseOf(u);
    }
  }

  /**
   Conservation: what left the queue, in lock order, followed by what is still in it, is
   exactly what was pushed, so each pushed item leaves once and in push order.
   */
  lemma {:induction false} Conservation<T>(steps: seq<Step<T>>)
    ensures var m := Run(steps);
            && m.pushed == Items(m.removed) + m.queue
            && (forall i :: 0 <= i < |m.removed| ==> m.removed[i].item == m.pushed[i])
  {
    RunKeepsInv(steps);
  }

  /** While nobody calls `Clear`, every item that left was taken by exactly one consumer. */
  lemma {:induction false} NothingDiscarded<T>(steps: seq<Step<T>>)
    requires forall i :: 0 <= i < |steps| ==> !steps[i].action.BeginClear?
    ensures forall i :: 0 <= i < |Run(steps).removed| ==> Run(steps).removed[i].Taken?
    ensures forall t: nat :: !Run(steps).PhaseOf(t).ClearEntering? && !Run(steps).PhaseOf(t).ClearLooping?
  {
    if steps != [] {
      var before := steps[..|steps| - 1];
      NothingDiscarded(before);
      var m, step := Run(before), steps[|steps| - 1];
      if Enabled(m, step) && m.PhaseOf(step.thread).PushOwesNotify? {
        WakeAllPhases(m, step.thread);
      }
      forall t: nat
        ensures !Run(steps).PhaseOf(t).ClearEntering? && !Run(steps).PhaseOf(t).ClearLooping?
      {
        assert !m.PhaseOf(t).ClearEntering? && !m.PhaseOf(t).ClearLooping?;
      }
    }
  }

  // ----- one thread undisturbed, whatever the others were doing

  /** `n` times the next step of thread `t`. */
  function Advances<T>(m: Monitor<T>, t: nat, n: nat): Monitor<T> {
    if n == 0 then m else Next(Advances(m, t, n - 1), Step(t, Advance))
  }

  lemma FourAdvances<T>(m: Monitor<T>, t: nat)
    ensures var step := Step(t, Advance);
            && Advances(m, t, 1) == Next(m, step)
            && Advances(m, t, 2) == Next(Next(m, step), step)
            && Advances(m, t, 3) == Next(Next(Next(m, step), step), step)
            && Advances(m, t, 4) == Next(Next(Next(Next(m, step), step), step), step)
  {
    assert Advances(m, t, 0) == m;
    assert Advances(m, t, 1) == Next(Advances(m, t, 0), Step(t, Advance));
    assert Advances(m, t, 2) == Next(Advances(m, t, 1), Step(t, Advance));
    assert Advances(m, t, 3) == Next(Advances(m, t, 2), Step(t, Advance));
  }

  /** All other threads are where they were; sleepers may have been woken. */
  ghost predicate OthersStay<T>(m: Monitor<T>, m': Monitor<T>, t: nat, woken: bool) {
    forall u: nat :: u != t ==>
      m'.PhaseOf(u) == if woken && m.PhaseOf(u).Asleep? then PopEntering else m.PhaseOf(u)
  }

  /** A push appends its item, leaves the lock free, and wakes every sleeper. */
  lemma UndisturbedPush<T>(m: Monitor<T>, t: nat, x: T)
    requires m.PhaseOf(t).Idle? && m.owner.None?
    ensures var m' := Advances(Next(m, Step(t, BeginPush(x))), t, 4);
            && m'.queue == m.queue + [x] && m'.pushed == m.pushed + [x] && m'.removed == m.removed
            && m'.owner == None && m'.PhaseOf(t).Idle? && OthersStay(m, m', t, true)
  {
    var m0 := Next(m, Step(t, BeginPush(x)));
    var m1 := Next(m0, Step(t, Advance));
    var m2 := Next(m1, Step(t, Advance));
    var m3 := Next(m2, Step(t, Advance));
    assert m0.PhaseOf(t) == PushEntering(x) && m1.PhaseOf(t) == PushHolding(x) && OthersStay(m, m1, t, false);
    assert m2.PhaseOf(t) == PushStored && m2.queue == m.queue + [x] && OthersStay(m, m2, t, false);
    assert m3.PhaseOf(t) == PushOwesNotify && m3.owner == None && OthersStay(m, m3, t, false);
    WakeAllPhases(m3, t);
    FourAdvances(m0, t);
  }

  /** A pop takes the oldest item and hands it out; without one it falls asleep and frees the lock. */
  lemma UndisturbedPop<T>(m: Monitor<T>, t: nat)
    requires m.PhaseOf(t).Idle? && m.owner.None?
    ensures var begun := Next(m, Step(t, BeginPop));
            if m.queue == [] then
              var m' := Advances(begun, t, 2);
              && m'.PhaseOf(t).Asleep? && m'.owner == None && OthersStay(m, m', t, false)
              && m'.queue == [] && m'.pushed == m.pushed && m'.removed == m.removed
            else
              var leaving, m' := Advances(begun, t, 3), Advances(begun, t, 4);
              && leaving.PhaseOf(t) == PopLeaving(m.queue[0])
              && m'.queue == m.queue[1..] && m'.pushed == m.pushed
              && m'.removed == m.removed + [Taken(t, m.queue[0])]
              && m'.owner == None && m'.PhaseOf(t).Idle? && OthersStay(m, m', t, false)
  {
    var begun := Next(m, Step(t, BeginPop));
    var m1 := Next(begun, Step(t, Advance));
    var m2 := Next(m1, Step(t, Advance));
    FourAdvances(begun, t);
    assert begun.PhaseOf(t) == PopEntering && m1.PhaseOf(t) == PopChecking && OthersStay(m, m1, t, false);
    assert m2.PhaseOf(t) == (if m.queue == [] then Asleep else PopTaking) && OthersStay(m, m2, t, false);
    if m.queue != [] {
      var m3 := Next(m2, Step(t, Advance));
      assert m3.PhaseOf(t) == PopLeaving(m.queue[0]) && OthersStay(m, m3, t, false);
    }
  }

  lemma {:induction false} ClearLoops<T>(m: Monitor<T>, t: nat, n: nat)
    requires m.PhaseOf(t).ClearLooping? && n <= |m.queue|
    ensures var m' := Advances(m, t, n);
            && m'.PhaseOf(t).ClearLooping? && m'.queue == m.queue[n..] && m'.owner == m.owner
            && m'.phases == m.phases && m'.pushed == m.pushed
  {
    if n > 0 {
      ClearLoops(m, t, n - 1);
      assert m.queue[n - 1..][1..] == m.queue[n..];
    }
  }

  lemma {:induction false} AdvancesConcat<T>(m: Monitor<T>, t: nat, a: nat, b: nat)
    ensures Advances(m, t, a + b) == Advances(Advances(m, t, a), t, b)
  {
    if b > 0 {
      AdvancesConcat(m, t, a, b - 1);
    }
  }

  lemma ClearStarts<T>(m: Monitor<T>, t: nat)
    requires m.PhaseOf(t).Idle? && m.owner.None?
    ensures var m' := Next(Next(m, Step(t, BeginClear)), Step(t, Advance));
            && m'.PhaseOf(t) == ClearLooping && m'.queue == m.queue && m'.pushed == m.pushed
            && OthersStay(m, m', t, false)
  {
    assert Next(m, Step(t, BeginClear)).PhaseOf(t) == ClearEntering;
  }

  lemma ClearEnds<T>(m: Monitor<T>, t: nat)
    requires m.PhaseOf(t).ClearLooping? && m.queue == []
    ensures var m' := Next(m, Step(t, Advance));
            && m'.PhaseOf(t).Idle? && m'.owner == None && m'.queue == [] && m'.pushed == m.pushed
            && OthersStay(m, m', t, false)
  {
  }

  /** A clear empties the queue, however long, and leaves the lock free. */
  lemma UndisturbedClear<T>(m: Monitor<T>, t: nat)
    requires m.PhaseOf(t).Idle? && m.owner.None?
    ensures var m' := Advances(Next(m, Step(t, BeginClear)), t, |m.queue| + 2);
            && m'.queue == [] && m'.pushed == m.pushed
            && m'.owner == None && m'.PhaseOf(t).Idle? && OthersStay(m, m', t, false)
  {
    var begun := Next(m, Step(t, BeginClear));
    ClearStarts(m, t);
    FourAdvances(begun, t);
    var looping := Advances(begun, t, 1);
    ClearLoops(looping, t, |m.queue|);
    AdvancesConcat(begun, t, 1, |m.queue|);
    ClearEnds(Advances(looping, t, |m.queue|), t);
  }
}
