/**
 Uploads of one file in any interleaving. The handler checks, opens and writes without a
 lock, and every stream writes on at its own offset, in parts of any size.
 */
module UploadRaces {
  import opened Sequences
  import opened Crypto
  import Handlers

  datatype Upload =
    | Passed(content: seq<Byte>)
    | Opened(content: seq<Byte>, offset: nat)
    | Ended(content: seq<Byte>, saved: bool)

  /**
   The file on disk, if there is one. History: `contenders` are the uploads whose check found
   no file, `writers` those that truncated it, `filled` the places written since the last of these.
   */
  datatype Spot = Spot(
    bytes: Option<seq<Byte>>, contenders: set<nat>, writers: set<nat>, filled: set<nat>, uploads: map<nat, Upload>)

  datatype Step =
    | Check(worker: nat, content: seq<Byte>)
    | OpenFile(worker: nat, ok: bool)
    | Write(worker: nat, n: nat)
    | Close(worker: nat, ok: bool)

  const NO_FILE := Spot(None, {}, {}, {}, map[])

  function Zeros(n: nat): seq<Byte> {
    seq(n, i => 0)
  }

  /** Writing beyond the end leaves a gap that reads as zeros; bytes behind the part stay. */
  function WriteAt(bytes: seq<Byte>, offset: nat, part: seq<Byte>): (r: seq<Byte>)
    requires part != []
    ensures |r| == if |bytes| < offset + |part| then offset + |part| else |bytes|
    ensures forall i :: 0 <= i < |r| ==>
              r[i] == if offset <= i < offset + |part| then part[i - offset] else if i < |bytes| then bytes[i] else 0
  {
    var base := if |bytes| < offset then bytes + Zeros(offset - |bytes|) else bytes;
    base[..offset] + part + if offset + |part| < |base| then base[offset + |part|..] else []
  }

  function Places(offset: nat, n: nat): (r: set<nat>)
    ensures forall i :: i in r <==> offset <= i < offset + n
  {
    if n == 0 then {} else Places(offset, n - 1) + {offset + n - 1}
  }

  /** Opening truncates. An upload succeeds if its whole content is written and no call failed. */
  function Next(s: Spot, step: Step): Spot {
    var w := step.worker;
    match step
    case Check(_, content) =>
      if w in s.uploads then s
      else if s.bytes.Some? then s.(uploads := s.uploads[w := Ended(content, false)])
      else s.(contenders := s.contenders + {w}, uploads := s.uploads[w := Passed(content)])
    case OpenFile(_, ok) =>
      if w !in s.uploads || !s.uploads[w].Passed? then s
      else if ok
      then Spot(Some([]), s.contenders, s.writers + {w}, {}, s.uploads[w := Opened(s.uploads[w].content, 0)])
      else s.(uploads := s.uploads[w := Ended(s.uploads[w].content, false)])
    case Write(_, n) =>
      if w !in s.uploads || !s.uploads[w].Opened? || n == 0 || s.bytes.None? then s
      else
        var content, offset := s.uploads[w].content, s.uploads[w].offset;
        if offset + n > |content| then s
        else s.(bytes := Some(WriteAt(s.bytes.value, offset, content[offset..offset + n])),
                filled := s.filled + Places(offset, n),
                uploads := s.uploads[w := Opened(content, offset + n)])
    case Close(_, ok) =>
      if w !in s.uploads || !s.uploads[w].Opened? then s
      else s.(uploads := s.uploads[w :=
                Ended(s.uploads[w].content, ok && s.uploads[w].offset == |s.uploads[w].content|)])
  }

  function Run(s: Spot, steps: seq<Step>): Spot {
    if steps == [] then s else Next(Run(s, steps[..|steps| - 1]), steps[|steps| - 1])
  }

  lemma {:induction false} RunConcat(s: Spot, a: seq<Step>, b: seq<Step>)
    ensures Run(s, a + b) == Run(Run(s, a), b)
  {
    if b == [] {
      assert a + b == a;
    } else {
      RunConcat(s, a, b[..|b| - 1]);
      assert (a + b)[..|a + b| - 1] == a + b[..|b| - 1];
    }
  }

  /** `s` is a state of some interleaving. */
  ghost predicate Reachable(s: Spot) {
    exists steps :: s == Run(NO_FILE, steps)
  }

  // ----- what every step keeps

  /** Byte `i` of the file is byte `i` of an upload that opened it. */
  ghost predicate FromWriter(s: Spot, i: nat)
    requires s.bytes.Some? && i < |s.bytes.value|
  {
    exists w :: w in s.writers && w in s.uploads && i < |s.uploads[w].content|
                && s.uploads[w].content[i] == s.bytes.value[i]
  }

  ghost predicate UploadOk(s: Spot, w: nat)
    requires w in s.uploads
  {
    match s.uploads[w]
    case Passed(_) => w in s.contenders && w !in s.writers
    case Opened(content, offset) =>
      && w in s.writers && s.bytes.Some? && offset <= |content|
      && (s.writers == {w} ==> s.bytes == Some(content[..offset]))
    case Ended(content, saved) =>
      && (saved ==> w in s.writers && s.bytes.Some?)
      && (s.writers == {w} ==> s.bytes.Some? && s.bytes.value <= content && (saved ==> s.bytes.value == content))
  }

  ghost predicate ByteOk(s: Spot, i: nat)
    requires s.bytes.Some? && i < |s.bytes.value|
  {
    if i in s.filled then FromWriter(s, i) else s.bytes.value[i] == 0
  }

  ghost predicate Inv(s: Spot) {
    && s.writers <= s.contenders <= s.uploads.Keys
    && (s.bytes.Some? <==> s.writers != {})
    && (forall w :: w in s.uploads ==> UploadOk(s, w))
    && (forall i :: i in s.filled ==> s.bytes.Some? && i < |s.bytes.value|)
    && (s.bytes.Some? ==> forall i :: 0 <= i < |s.bytes.value| ==> ByteOk(s, i))
  }

  lemma WriterStays(s: Spot, s': Spot, i: nat)
    requires s.bytes.Some? && i < |s.bytes.value| && FromWriter(s, i)
    requires s.writers <= s'.writers && s'.bytes.Some? && i < |s'.bytes.value| && s'.bytes.value[i] == s.bytes.value[i]
    requires forall u :: u in s.uploads ==> u in s'.uploads && s'.uploads[u].content == s.uploads[u].content
    ensures FromWriter(s', i)
  {
    var u :| u in s.writers && u in s.uploads && i < |s.uploads[u].content|
             && s.uploads[u].content[i] == s.bytes.value[i];
    assert s'.uploads[u].content[i] == s'.bytes.value[i];
  }

  lemma WriteKeepsByte(s: Spot, w: nat, n: nat, i: nat)
    requires Inv(s) && Next(s, Write(w, n)) != s
    requires i < |Next(s, Write(w, n)).bytes.value|
    ensures ByteOk(Next(s, Write(w, n)), i)
  {
    var s' := Next(s, Write(w, n));
    assert UploadOk(s, w);
    if s.uploads[w].offset <= i < s.uploads[w].offset + n {
      assert s'.uploads[w].content[i] == s'.bytes.value[i];
      assert FromWriter(s', i);
    } else if i < |s.bytes.value| {
      assert ByteOk(s, i);
      if i in s.filled {
        WriterStays(s, s', i);
      }
    }
  }

  lemma StepKeepsByte(s: Spot, step: Step, i: nat)
    requires Inv(s)
    requires Next(s, step).bytes.Some? && i < |Next(s, step).bytes.value|
    ensures ByteOk(Next(s, step), i)
  {
    var s' := Next(s, step);
    if step.Write? && s' != s {
      WriteKeepsByte(s, step.worker, step.n, i);
    } else {
      assert s.bytes.Some? && i < |s.bytes.value| && ByteOk(s, i);
      if i in s.filled {
        WriterStays(s, s', i);
      }
    }
  }

  lemma StepKeepsUpload(s: Spot, step: Step, w: nat)
    requires Inv(s) && w in Next(s, step).uploads
    ensures UploadOk(Next(s, step), w)
  {
    assert w in s.uploads ==> UploadOk(s, w);
    assert step.worker in s.uploads ==> UploadOk(s, step.worker);
    if step.Write? && Next(s, step) != s && s.writers == {step.worker} {
      var content, offset := s.uploads[step.worker].content, s.uploads[step.worker].offset;
      assert WriteAt(content[..offset], offset, content[offset..offset + step.n]) == content[..offset + step.n];
    }
  }

  lemma StepKeeps(s: Spot, step: Step)
    requires Inv(s)
    ensures Inv(Next(s, step))
  {
    var s' := Next(s, step);
    forall w | w in s'.uploads ensures UploadOk(s', w) {
      StepKeepsUpload(s, step, w);
    }
    if s'.bytes.Some? {
      forall i | 0 <= i < |s'.bytes.value| ensures ByteOk(s', i) {
        StepKeepsByte(s, step, i);
      }
    }
  }

  lemma {:induction false} RunKeeps(s: Spot, steps: seq<Step>)
    requires Inv(s)
    ensures Inv(Run(s, steps))
  {
    if steps != [] {
      RunKeeps(s, steps[..|steps| - 1]);
      StepKeeps(Run(s, steps[..|steps| - 1]), steps[|steps| - 1]);
    }
  }

  lemma Reached(s: Spot)
    requires Reachable(s)
    ensures Inv(s)
  {
    var steps :| s == Run(NO_FILE, steps);
    RunKeeps(NO_FILE, steps);
  }

  // ----- the uninterrupted case

  /** This upload has succeeded, or still may. */
  predicate Live(s: Spot, w: nat) {
    w in s.uploads && (s.uploads[w].Ended? ==> s.uploads[w].saved)
  }

  predicate Saved(s: Spot, w: nat) {
    w in s.uploads && s.uploads[w].Ended? && s.uploads[w].saved
  }

  /** The four steps in a row; `save` says which of them fail. */
  function Uninterrupted(s: Spot, w: nat, content: seq<Byte>, save: Handlers.SaveResult): Spot {
    var n := match save
      case OpenFails => 0
      case WriteFails(k) => if k < |content| then k else |content|
      case Saves => |content|;
    Next(Next(Next(Next(s, Check(w, content)), OpenFile(w, !save.OpenFails?)), Write(w, n)), Close(w, save.Saves?))
  }

  /** An upload that nothing interrupts does what the handler does with the disk in one step. */
  lemma UninterruptedIsHandler(s: Spot, w: nat, content: seq<Byte>, save: Handlers.SaveResult, id: string)
    requires w !in s.uploads
    ensures var s' := Uninterrupted(s, w, content, save);
            var disk := if s.bytes.Some? then map[id := s.bytes.value] else map[];
            var disk' := if id in disk then disk else Handlers.SaveToDisk(disk, id, content, save);
            && s'.bytes == (if id in disk' then Some(disk'[id]) else None)
            && (Saved(s', w) <==> s.bytes.None? && save.Saves?)
  {
    if s.bytes.None? && !save.OpenFails? {
      var s2 := Next(Next(s, Check(w, content)), OpenFile(w, true));
      var n := if save.WriteFails? && save.written < |content| then save.written else |content|;
      assert s2.uploads[w] == Opened(content, 0) && s2.bytes == Some([]);
      assert n > 0 ==> WriteAt([], 0, content[0..n]) == content[..n];
      assert content[..|content|] == content && content[..0] == [];
      assert Next(s2, Write(w, n)).bytes == Some(content[..n]);
    }
  }

  // ----- who succeeds

  /**
   In any interleaving an upload succeeds only if its check came before the file existed, and
   every byte on disk is one that a writer has at this place, or a zero in a gap: a place
   that nobody has written since the file was last truncated.
   */
  lemma OnlyContendersSave(s: Spot, w: nat)
    requires Reachable(s)
    ensures Saved(s, w) ==> w in s.contenders && s.bytes.Some?
    ensures s.bytes.Some? ==> forall i :: 0 <= i < |s.bytes.value| ==>
              if i in s.filled then FromWriter(s, i) else s.bytes.value[i] == 0
  {
    Reached(s);
    assert w in s.uploads ==> UploadOk(s, w);
    if s.bytes.Some? {
      forall i | 0 <= i < |s.bytes.value| ensures if i in s.filled then FromWriter(s, i) else s.bytes.value[i] == 0 {
        assert ByteOk(s, i);
      }
    }
  }

  lemma SavedStays(s: Spot, step: Step, w: nat)
    requires Saved(s, w)
    ensures Saved(Next(s, step), w)
  {
  }

  /** As soon as the file exists, no upload joins those that may succeed. */
  lemma {:induction false} LiveOnlyShrinks(s: Spot, steps: seq<Step>)
    requires s.bytes.Some?
    ensures Run(s, steps).bytes.Some?
    ensures forall w :: Live(Run(s, steps), w) ==> Live(s, w)
  {
    if steps != [] {
      LiveOnlyShrinks(s, steps[..|steps| - 1]);
    }
  }

  lemma RunTwo(s: Spot, a: Step, b: Step)
    ensures Run(s, [a, b]) == Next(Next(s, a), b)
  {
    assert [a, b][..1] == [a] && [a][..0] == [];
    assert Run(s, [a]) == Next(s, a);
  }

  lemma RunOne(s: Spot, a: Step)
    ensures Run(s, [a]) == Next(s, a)
  {
    assert [a][..0] == [];
  }

  /** Other uploads and their successes are as before. */
  ghost predicate OthersKept(s: Spot, s': Spot, w: nat) {
    forall u :: u != w && u in s.uploads ==> u in s'.uploads && s'.uploads[u] == s.uploads[u]
  }

  lemma OpenedCanSave(s: Spot, w: nat) returns (steps: seq<Step>)
    requires Inv(s) && w in s.uploads && s.uploads[w].Opened?
    ensures Saved(Run(s, steps), w) && OthersKept(s, Run(s, steps), w)
  {
    assert UploadOk(s, w);
    var content, offset := s.uploads[w].content, s.uploads[w].offset;
    if offset == |content| {
      steps := [Close(w, true)];
      RunOne(s, Close(w, true));
    } else {
      steps := [Write(w, |content| - offset), Close(w, true)];
      RunTwo(s, steps[0], steps[1]);
    }
  }

  /** A live upload can succeed next, without any other upload losing its chance. */
  lemma LiveCanSave(s: Spot, w: nat) returns (steps: seq<Step>)
    requires Inv(s) && Live(s, w)
    ensures Saved(Run(s, steps), w) && OthersKept(s, Run(s, steps), w) && Inv(Run(s, steps))
  {
    if s.uploads[w].Passed? {
      var first := OpenFile(w, true);
      StepKeeps(s, first);
      var rest := OpenedCanSave(Next(s, first), w);
      RunOne(s, first);
      RunConcat(s, [first], rest);
      steps := [first] + rest;
    } else if s.uploads[w].Opened? {
      steps := OpenedCanSave(s, w);
    } else {
      steps := [];
    }
    RunKeeps(s, steps);
  }

  lemma TwoLiveCanSave(s: Spot, a: nat, b: nat) returns (steps: seq<Step>)
    requires Inv(s) && Live(s, a) && Live(s, b)
    ensures Saved(Run(s, steps), a) && Saved(Run(s, steps), b)
  {
    var first := LiveCanSave(s, a);
    var second := LiveCanSave(Run(s, first), b);
    RunConcat(s, first, second);
    steps := first + second;
  }

  /** Whatever happens from here on, at most one upload will have succeeded. */
  ghost predicate AtMostOneSucceeds(s: Spot) {
    forall steps, a, b :: Saved(Run(s, steps), a) && Saved(Run(s, steps), b) ==> a == b
  }

  lemma TwoMoreCanJoin(s: Spot)
    requires Inv(s) && s.bytes.None?
    ensures !AtMostOneSucceeds(s)
  {
    var a := Unused(s.uploads.Keys);
    var first := [Check(a, []), Check(a + 1, [])];
    RunTwo(s, first[0], first[1]);
    var s' := Run(s, first);
    RunKeeps(s, first);
    var second := TwoLiveCanSave(s', a, a + 1);
    RunConcat(s, first, second);
    assert Saved(Run(s, first + second), a) && Saved(Run(s, first + second), a + 1);
  }

  /**
   When a file is uploaded successfully at most once, over all continuations: exactly if the
   file exists, so that nobody joins, and no two uploads have succeeded or still may.
   */
  lemma OneSuccessIff(s: Spot)
    requires Reachable(s)
    ensures AtMostOneSucceeds(s) <==> s.bytes.Some? && forall a, b :: Live(s, a) && Live(s, b) ==> a == b
  {
    Reached(s);
    if s.bytes.None? {
      TwoMoreCanJoin(s);
    } else if a, b :| Live(s, a) && Live(s, b) && a != b {
      var steps := TwoLiveCanSave(s, a, b);
    } else {
      forall steps, a, b | Saved(Run(s, steps), a) && Saved(Run(s, steps), b) ensures a == b {
        LiveOnlyShrinks(s, steps);
        assert Live(Run(s, steps), a) && Live(Run(s, steps), b);
      }
    }
  }

  // ----- what the file holds

  /**
   With a single writer so far, a download finds a beginning of what it writes: as much as it
   has written by then, and all of it once the upload has succeeded.
   */
  lemma SoleWriterIsPrefix(s: Spot, w: nat)
    requires Reachable(s) && s.writers == {w}
    ensures w in s.uploads && s.bytes.Some? && s.bytes.value <= s.uploads[w].content
    ensures s.uploads[w].Opened? ==> |s.bytes.value| == s.uploads[w].offset
    ensures Saved(s, w) ==> s.bytes.value == s.uploads[w].content
  {
    Reached(s);
    assert UploadOk(s, w);
  }

  /** Whatever this upload still does leaves `bytes` as they are. */
  predicate Harmless(u: Upload, bytes: seq<Byte>) {
    match u
    case Passed(content) => content == [] && bytes == []
    case Opened(content, offset) =>
      offset >= |content| || (|content| <= |bytes| && content[offset..] == bytes[offset..|content|])
    case Ended(_, _) => true
  }

  ghost predicate Settled(s: Spot, bytes: seq<Byte>) {
    s.bytes == Some(bytes) && forall w :: w in s.uploads ==> Harmless(s.uploads[w], bytes)
  }

  lemma HarmlessWrite(bytes: seq<Byte>, content: seq<Byte>, offset: nat, n: nat)
    requires 0 < n && offset + n <= |content| && Harmless(Opened(content, offset), bytes)
    ensures WriteAt(bytes, offset, content[offset..offset + n]) == bytes
    ensures Harmless(Opened(content, offset + n), bytes)
  {
    assert content[offset..offset + n] == content[offset..][..n];
    assert content[offset + n..] == content[offset..][n..] == bytes[offset..|content|][n..];
    assert forall i :: offset <= i < offset + n ==> bytes[offset..|content|][i - offset] == bytes[i];
  }

  lemma StepKeepsSettled(s: Spot, step: Step, bytes: seq<Byte>)
    requires Settled(s, bytes)
    ensures Settled(Next(s, step), bytes)
  {
    if step.Write? && Next(s, step) != s {
      HarmlessWrite(bytes, s.uploads[step.worker].content, s.uploads[step.worker].offset, step.n);
    }
  }

  lemma {:induction false} SettledStays(s: Spot, steps: seq<Step>, bytes: seq<Byte>)
    requires Settled(s, bytes)
    ensures Settled(Run(s, steps), bytes)
  {
    if steps != [] {
      SettledStays(s, steps[..|steps| - 1], bytes);
      StepKeepsSettled(Run(s, steps[..|steps| - 1]), steps[|steps| - 1], bytes);
    }
  }

  lemma PassedCanChange(s: Spot, w: nat) returns (steps: seq<Step>)
    requires s.bytes.Some? && w in s.uploads && s.uploads[w].Passed?
    requires s.bytes.value != [] || s.uploads[w].content != []
    ensures Run(s, steps).bytes != s.bytes
  {
    var open, write := OpenFile(w, true), Write(w, |s.uploads[w].content|);
    if s.bytes.value != [] {
      steps := [open];
      RunOne(s, open);
    } else {
      steps := [open, write];
      RunTwo(s, open, write);
    }
  }

  lemma WriteChanges(bytes: seq<Byte>, content: seq<Byte>, offset: nat)
    requires !Harmless(Opened(content, offset), bytes)
    ensures WriteAt(bytes, offset, content[offset..]) != bytes
  {
    if |content| <= |bytes| {
      assert content[offset..] != bytes[offset..|content|];
      var i :| 0 <= i < |content| - offset && content[offset..][i] != bytes[offset..|content|][i];
      assert WriteAt(bytes, offset, content[offset..])[offset + i] == content[offset..][i];
    }
  }

  lemma OpenedCanChange(s: Spot, w: nat) returns (steps: seq<Step>)
    requires s.bytes.Some? && w in s.uploads && s.uploads[w].Opened? && !Harmless(s.uploads[w], s.bytes.value)
    ensures Run(s, steps).bytes != s.bytes
  {
    var content, offset, bytes := s.uploads[w].content, s.uploads[w].offset, s.bytes.value;
    var n := |content| - offset;
    steps := [Write(w, n)];
    RunOne(s, Write(w, n));
    assert content[offset..offset + n] == content[offset..];
    WriteChanges(bytes, content, offset);
  }

  /**
   When the bytes on disk stay for good, over all continuations and whoever wrote them: exactly
   if every upload is harmless. One that has passed the check and not opened is so only if it
   would put nothing over nothing; one that has opened, only if it has nothing left to write
   or what is left is there already.
   */
  lemma BytesStayIff(s: Spot, bytes: seq<Byte>)
    requires Reachable(s) && s.bytes == Some(bytes)
    ensures (forall steps :: Run(s, steps).bytes == Some(bytes)) <==>
              forall w :: w in s.uploads ==> Harmless(s.uploads[w], bytes)
  {
    if w :| w in s.uploads && !Harmless(s.uploads[w], bytes) {
      var steps;
      if s.uploads[w].Passed? {
        steps := PassedCanChange(s, w);
      } else {
        steps := OpenedCanChange(s, w);
      }
      assert Run(s, steps).bytes != Some(bytes);
    } else {
      forall steps ensures Run(s, steps).bytes == Some(bytes) {
        SettledStays(s, steps, bytes);
      }
    }
  }

  // ----- runs

  lemma NextIsReachable(s: Spot, step: Step)
    requires Reachable(s)
    ensures Reachable(Next(s, step))
  {
    var steps :| s == Run(NO_FILE, steps);
    RunConcat(NO_FILE, steps, [step]);
    RunOne(s, step);
  }

  /** Two uploads have passed the check, the first has written its beginning, and the second truncates. */
  lemma TwoContenders(a: seq<Byte>, b: seq<Byte>, n: nat) returns (s: Spot)
    requires n <= |a|
    ensures Reachable(s) && s.uploads == map[0 := Opened(a, n), 1 := Opened(b, 0)] && s.bytes == Some([])
  {
    assert NO_FILE == Run(NO_FILE, []);
    NextIsReachable(NO_FILE, Check(0, a));
    var s1 := Next(NO_FILE, Check(0, a));
    NextIsReachable(s1, Check(1, b));
    var s2 := Next(s1, Check(1, b));
    NextIsReachable(s2, OpenFile(0, true));
    var s3 := Next(s2, OpenFile(0, true));
    NextIsReachable(s3, Write(0, n));
    var s4 := Next(s3, Write(0, n));
    NextIsReachable(s4, OpenFile(1, true));
    s := Next(s4, OpenFile(1, true));
  }

  lemma BothClose(s: Spot) returns (s': Spot)
    requires Reachable(s) && s.uploads.Keys == {0, 1} && s.uploads[0].Opened? && s.uploads[1].Opened?
    requires s.uploads[0].offset == |s.uploads[0].content| && s.uploads[1].offset == |s.uploads[1].content|
    ensures Reachable(s') && Saved(s', 0) && Saved(s', 1) && s'.bytes == s.bytes
    ensures s'.uploads[0].content == s.uploads[0].content && s'.uploads[1].content == s.uploads[1].content
  {
    NextIsReachable(s, Close(0, true));
    NextIsReachable(Next(s, Close(0, true)), Close(1, true));
    s' := Next(Next(s, Close(0, true)), Close(1, true));
  }

  lemma WriteRest(s: Spot, w: nat) returns (s': Spot)
    requires Reachable(s) && s.bytes.Some? && w in s.uploads && s.uploads[w].Opened?
    requires s.uploads[w].offset < |s.uploads[w].content|
    ensures var content, offset := s.uploads[w].content, s.uploads[w].offset;
            && Reachable(s') && s'.uploads == s.uploads[w := Opened(content, |content|)]
            && s'.bytes == Some(WriteAt(s.bytes.value, offset, content[offset..]))
  {
    var content, offset := s.uploads[w].content, s.uploads[w].offset;
    NextIsReachable(s, Write(w, |content| - offset));
    s' := Next(s, Write(w, |content| - offset));
    assert content[offset..|content|] == content[offset..];
  }

  /** Two uploads succeed: the first wrote `n` bytes before the other truncated, the rest before it wrote. */
  lemma BothSucceed(a: seq<Byte>, b: seq<Byte>, n: nat) returns (s: Spot)
    requires n < |a| && b != []
    ensures Reachable(s) && Saved(s, 0) && Saved(s, 1) && s.uploads[0].content == a && s.uploads[1].content == b
    ensures s.bytes == Some(WriteAt(WriteAt([], n, a[n..]), 0, b))
  {
    var s0 := TwoContenders(a, b, n);
    var s1 := WriteRest(s0, 0);
    var s2 := WriteRest(s1, 1);
    assert b[0..] == b;
    s := BothClose(s2);
  }

  /** Two uploads succeed, and the file is neither of them. */
  lemma TwoUploadsMix() returns (s: Spot)
    ensures Reachable(s) && Saved(s, 0) && Saved(s, 1) && s.bytes == Some([9, 2, 3])
    ensures s.uploads[0].content == [1, 2, 3] && s.uploads[1].content == [9]
  {
    s := BothSucceed([1, 2, 3], [9], 0);
    assert s.bytes.value == [9, 2, 3];
  }

  /** Again two successes, but one had written a part when the other truncated: byte 1 is nobody's. */
  lemma TwoUploadsLeaveGap() returns (s: Spot)
    ensures Reachable(s) && Saved(s, 0) && Saved(s, 1) && s.bytes == Some([9, 0, 3])
    ensures s.uploads[0].content == [1, 2, 3] && s.uploads[1].content == [9]
  {
    s := BothSucceed([1, 2, 3], [9], 2);
    assert s.bytes.value == [9, 0, 3];
  }
}
