/** Uploaded files over whole runs: bytes are written once, names and hashes are the latest. */
module Files {
  import opened Sequences
  import opened Protocol
  import opened Store
  import opened Handlers
  import opened Machine

  /** Name and hash of a registered file: those of the last upload whose row update succeeded. */
  function LatestRow(log: seq<Event>, id: string): FileRow {
    if log == [] then FileRow("", "")
    else
      var e := log[|log| - 1];
      if e.Uploaded? && e.id == id && e.fileRow.Some? then e.fileRow.value
      else LatestRow(log[..|log| - 1], id)
  }

  predicate Saves(e: Event, id: string) {
    e.Uploaded? && e.id == id && e.saved
  }

  /** The upload left bytes on disk, perhaps not all of them. */
  predicate Writes(e: Event, id: string) {
    e.Uploaded? && e.id == id && e.written.Some?
  }

  ghost predicate Written(log: seq<Event>, id: string) {
    exists i :: 0 <= i < |log| && Writes(log[i], id)
  }

  ghost predicate UploadOk(s: Sys, e: Event)
    requires e.Uploaded?
  {
    && e.id in s.db.files && (e.saved ==> e.written.Some?)
    && (e.written.Some? ==> e.id in s.disk && s.disk[e.id] == e.written.value)
  }

  ghost predicate SavesOnce(log: seq<Event>) {
    forall i, j :: 0 <= i < j < |log| && log[i].Uploaded? && log[j].Uploaded? && log[i].saved && log[j].saved ==>
      log[i].id != log[j].id
  }

  ghost predicate Inv(s: Sys, log: seq<Event>) {
    && s.disk.Keys <= s.db.files.Keys
    && (forall id :: id in s.db.files ==> s.db.files[id] == LatestRow(log, id))
    && (forall id :: id in s.disk ==> Written(log, id))
    && (forall i :: 0 <= i < |log| && log[i].Uploaded? ==> UploadOk(s, log[i]))
    && SavesOnce(log)
  }

  lemma LatestRowSnoc(log: seq<Event>, e: Event, id: string)
    ensures LatestRow(log + [e], id)
         == if e.Uploaded? && e.id == id && e.fileRow.Some? then e.fileRow.value else LatestRow(log, id)
  {
    assert (log + [e])[..|log|] == log;
  }

  lemma {:induction false} LatestRowDefault(log: seq<Event>, id: string)
    requires forall i :: 0 <= i < |log| && log[i].Uploaded? ==> log[i].id != id
    ensures LatestRow(log, id) == FileRow("", "")
  {
    if log != [] {
      LatestRowDefault(log[..|log| - 1], id);
    }
  }

  lemma RowsKept(sha: string -> string, s: Sys, log: seq<Event>, e: Event, id: string)
    requires Inv(s, log) && Legal(sha, s, e) && id in Apply(s, e).db.files
    ensures Apply(s, e).db.files[id] == LatestRow(log + [e], id)
  {
    LatestRowSnoc(log, e, id);
    if id !in s.db.files {
      LatestRowDefault(log, id);
    }
  }

  lemma DiskKept(sha: string -> string, s: Sys, log: seq<Event>, e: Event, id: string)
    requires Inv(s, log) && Legal(sha, s, e) && id in Apply(s, e).disk
    ensures Written(log + [e], id)
  {
    if id in s.disk {
      var i :| 0 <= i < |log| && Writes(log[i], id);
      assert Writes((log + [e])[i], id);
    } else {
      assert Writes((log + [e])[|log|], id);
    }
  }

  lemma UploadsKept(sha: string -> string, s: Sys, log: seq<Event>, e: Event, i: int)
    requires Inv(s, log) && Legal(sha, s, e) && 0 <= i <= |log| && (log + [e])[i].Uploaded?
    ensures UploadOk(Apply(s, e), (log + [e])[i])
  {
    if i < |log| {
      assert UploadOk(s, log[i]);
    }
  }

  lemma SavesOnceKept(sha: string -> string, s: Sys, log: seq<Event>, e: Event)
    requires Inv(s, log) && Legal(sha, s, e)
    ensures SavesOnce(log + [e])
  {
    forall i | 0 <= i < |log| && log[i].Uploaded? && log[i].saved && e.Uploaded? && e.saved
      ensures log[i].id != e.id
    {
      assert UploadOk(s, log[i]);
    }
  }

  lemma ApplyKeeps(sha: string -> string, s: Sys, log: seq<Event>, e: Event)
    requires Inv(s, log) && Legal(sha, s, e)
    ensures Inv(Apply(s, e), log + [e])
  {
    var s', log' := Apply(s, e), log + [e];
    forall id | id in s'.db.files ensures s'.db.files[id] == LatestRow(log', id) {
      RowsKept(sha, s, log, e, id);
    }
    forall id | id in s'.disk ensures Written(log', id) {
      DiskKept(sha, s, log, e, id);
    }
    forall i | 0 <= i < |log'| && log'[i].Uploaded? ensures UploadOk(s', log'[i]) {
      UploadsKept(sha, s, log, e, i);
    }
    SavesOnceKept(sha, s, log, e);
  }

  lemma {:induction false} RunKeeps(sha: string -> string, steps: seq<Step>)
    ensures var m := Run(sha, INIT, steps); DbOk(m.sys.db) && Inv(m.sys, m.log)
  {
    RunsReplay(sha, steps);
    if steps != [] {
      var before, step := steps[..|steps| - 1], steps[|steps| - 1];
      var m := Run(sha, INIT, before);
      RunKeeps(sha, before);
      StepIsEvent(sha, m, step);
      ApplyKeeps(sha, m.sys, m.log, Last(Next(sha, m, step)));
    }
  }

  /** Write-once: bytes on disk never change or vanish, in any continuation and across restarts. */
  lemma {:induction false} BytesNeverChange(sha: string -> string, m: State, steps: seq<Step>, id: string)
    requires DbOk(m.sys.db) && id in m.sys.disk
    ensures var m' := Run(sha, m, steps);
            DbOk(m'.sys.db) && id in m'.sys.disk && m'.sys.disk[id] == m.sys.disk[id]
  {
    if steps != [] {
      var before := Run(sha, m, steps[..|steps| - 1]);
      var step := steps[|steps| - 1];
      BytesNeverChange(sha, m, steps[..|steps| - 1], id);
      StepIsEvent(sha, before, step);
      ApplyKeepsDb(sha, before.sys, Last(Next(sha, before, step)));
    }
  }

  lemma Reached(sha: string -> string, m: State)
    requires Reachable(sha, m)
    ensures DbOk(m.sys.db) && Inv(m.sys, m.log)
  {
    var steps :| m == Run(sha, INIT, steps);
    RunKeeps(sha, steps);
  }

  lemma BytesStay(sha: string -> string, m: State, m': State, id: string)
    requires DbOk(m.sys.db) && id in m.sys.disk && Leads(sha, m, m')
    ensures id in m'.sys.disk && m'.sys.disk[id] == m.sys.disk[id]
  {
    var steps :| m' == Run(sha, m, steps);
    BytesNeverChange(sha, m, steps, id);
  }

  /**
   Which ids are occupied: exactly those for which some earlier upload put bytes on disk,
   whether its write was completed or not; and the bytes are those of that upload.
   */
  lemma OccupiedIffWritten(sha: string -> string, m: State, id: string)
    requires Reachable(sha, m)
    ensures id in m.sys.disk <==> Written(m.log, id)
    ensures forall i :: 0 <= i < |m.log| && Writes(m.log[i], id) ==> m.log[i].written == Some(m.sys.disk[id])
  {
    Reached(sha, m);
  }

  /**
   When an upload succeeds: exactly if the token is somebody's, the file is registered, no
   upload before it has put any bytes on disk, and its own write and row update both work.
   */
  lemma UploadSucceedsIff(sha: string -> string, m: State, token: string, id: string, file: File, hash: string,
                          env: Env)
    requires Reachable(sha, m)
    ensures FileUpload(m.sys, token, id, file, hash, env).reply == FileUploadResponse(true) <==>
              && UserOf(m.sys.tokens, token) != 0 && id in m.sys.db.files
              && !Written(m.log, id) && env.save.Saves? && env.updateOk
  {
    OccupiedIffWritten(sha, m, id);
  }

  /** At most one upload of a file is ever answered with success. */
  lemma UploadSucceedsOnce(sha: string -> string, m: State, token: string, id: string, file: File, hash: string,
                           env: Env)
    requires Reachable(sha, m) && FileUpload(m.sys, token, id, file, hash, env).reply == FileUploadResponse(true)
    ensures forall i :: 0 <= i < |m.log| ==> !Saves(m.log[i], id)
  {
    Reached(sha, m);
  }

  /**
   One write, good or bad: as soon as any bytes are on disk under an id, even those of a write
   that failed half-way, every later upload of it is refused and leaves the bytes alone.
   */
  lemma WrittenOnceRefusedEver(sha: string -> string, m: State, id: string, m': State,
                               token: string, file: File, hash: string, env: Env)
    requires Reachable(sha, m) && id in m.sys.disk && Leads(sha, m, m')
    ensures var o := FileUpload(m'.sys, token, id, file, hash, env);
            && o.reply == FileUploadResponse(false) && o.callback == NoCallback
            && id in o.sys.disk && o.sys.disk[id] == m.sys.disk[id]
  {
    ReachableReplays(sha, m);
    BytesStay(sha, m, m', id);
  }

  /**
   Upload and download over runs: after an upload answered with success, every later
   download returns the bytes of that upload, under the name and hash of the latest upload
   whose row update succeeded, as long as the token is valid and the file can be opened.
   */
  lemma DownloadsReturnUpload(sha: string -> string, m: State, token: string, id: string, file: File, hash: string,
                              fd: int, env: Env, m': State, later: string, env': Env)
    requires Reachable(sha, m) && FileUpload(m.sys, token, id, file, hash, env).reply == FileUploadResponse(true)
    requires Leads(sha, Next(sha, m, Arrive(FileUploadRequest(token, id, file, hash), fd, env)), m')
    requires UserOf(m'.sys.tokens, later) != 0 && env'.openOk
    ensures var row := LatestRow(m'.log, id);
            FileDownload(m'.sys, later, id, env').reply == FileDownloadResponse(File(row.name, file.content), row.hash)
  {
    var upload := Arrive(FileUploadRequest(token, id, file, hash), fd, env);
    var m1 := Next(sha, m, upload);
    assert id in m1.sys.disk && m1.sys.disk[id] == file.content;
    ReachableOn(sha, m, upload, m');
    ReachableReplays(sha, m1);
    BytesStay(sha, m1, m', id);
    Reached(sha, m');
  }
}
