/** How the three parts fit together: what the browser does with each status
    the worker writes and the route reports, what it does with each upload
    reply, and one upload followed by its worker run. */
module Scenarios {
  import opened Wrappers
  import opened Text
  import opened Paths
  import opened Imaging
  import opened StatusStore
  import opened Worker
  import opened Gateway
  import opened Client

  /** What the browser sees of a response: the JSON body, or a parse failure
      with the given message when the body is not JSON. */
  function ReplyOf(resp: Response, parseError: string): Reply {
    match resp
    case Json(_, body) => Body(body)
    case Page(_) => Unreadable(parseError)
  }

  /** The status the worker wrote for outcome `o`, as the browser reacts to
      it: "completed" shows the result at the advertised path, "error:" + m
      alerts with m cut at its first ':'. */
  lemma {:induction false} ClientReadsTerminalStatus(path: string, taskId: string, o: Result<Saved>)
    ensures var a := OnStatus(path, taskId, Body(StatusResponse(taskId, Some(TerminalStatus(o))).body));
      (o.Success? ==> a == ShowResult(path, path, DownloadName)) &&
      (o.Failure? ==> a == ShowError("Error processing image: " +
        (if ':' in o.error then o.error[..Find(o.error, ':')] else o.error))) &&
      HidesLoading(a) && !Continues(a)
  {
    var s := TerminalStatus(o);
    assert StatusResponse(taskId, Some(s)).body["status"] == s;
    if o.Failure? {
      assert s == "error:" + o.error by {
        assert s == s[..6] + s[6..];
      }
      ErrorAlert(path, taskId, o.error);
      assert Body(StatusResponse(taskId, Some(s)).body).fields["status"] == s;
      assert OnStatus(path, taskId, Body(StatusResponse(taskId, Some(s)).body))
          == OnStatus(path, taskId, Body(map["status" := "error:" + o.error]));
    }
  }

  /** While the worker runs the browser keeps polling with the same path and
      id; once the status is gone (expired or never written) the 404 reply
      stops the loop without hiding the loading indicator. */
  lemma ClientReadsOtherStatuses(path: string, taskId: string)
    ensures OnStatus(path, taskId, Body(StatusResponse(taskId, Some("processing")).body)) ==
      Repoll(RepollDelayMs, path, taskId)
    ensures var a := OnStatus(path, taskId, Body(StatusResponse(taskId, None).body));
      a == Stop && !HidesLoading(a)
  {
    assert StatusResponse(taskId, Some("processing")).body["status"] == "processing";
    var nf := "not_found";
    assert StatusResponse(taskId, None).body == map["status" := nf];
    assert nf != "completed" && nf != "processing" by { assert nf[0] != 'c' && nf[0] != 'p'; }
    assert !StartsWith(nf, "error:") by { assert nf[0] != 'e'; }
  }

  /** After a run that started at `t0`, a poll at instant `t` sees its
      terminal status before `t0` + 3600 and "not_found" from then on. */
  lemma {:induction false} PollAfterRun(entries: map<string, Entry>, t0: int, t: int, path: string, taskId: string, o: Result<Saved>)
    ensures var after := entries[StatusKey(taskId) := Entry(TerminalStatus(o), Some(t0 + StatusTtl))];
      var a := OnStatus(path, taskId, Body(StatusResponse(taskId, Visible(after, t, StatusKey(taskId))).body));
      (t < t0 + StatusTtl ==> HidesLoading(a) && (o.Success? <==> a == ShowResult(path, path, DownloadName))) &&
      (t >= t0 + StatusTtl ==> a == Stop)
  {
    ExpiryWindow(entries, StatusKey(taskId), TerminalStatus(o), t0, StatusTtl, t);
    ClientReadsTerminalStatus(path, taskId, o);
    ClientReadsOtherStatuses(path, taskId);
  }

  /** The browser starts polling exactly for an upload the route accepted,
      with the advertised `result_path` and the job's id. A storage failure
      whose message is empty is not seen as an error and sends the browser
      polling for "undefined". */
  lemma {:induction false} ClientReadsUploadReply(req: UploadRequest, taskId: string, secureFilename: string -> string, saveError: Option<string>, parseError: string)
    requires !StartsWith(taskId, "/")
    ensures var s := UploadFile(req, taskId, secureFilename, saveError);
      var step := OnUploadReply(ReplyOf(s.response, parseError));
      (s.started.Some? ==> step == StartPolling("/" + s.started.value.outputPath, taskId)) &&
      (s.started.None? && saveError != Some("") ==> step.UploadFailed? && UploadHidesLoading(step)) &&
      (s.started.None? && saveError == Some("") && s.response.code == 500 ==> step == StartPolling("undefined", "undefined"))
  {
    var s := UploadFile(req, taskId, secureFilename, saveError);
    if s.started.Some? {
      UploadNaming(req, taskId, secureFilename);
    }
  }

  /** The worker's run of a started job, with the upload stored under its
      input path first. Afterwards the input is gone, a successful run leaves
      exactly its output added, and the job's status is the terminal one with
      an hour to live. */
  method RunStarted(w: Worker, job: Job, lib: Library) returns (result: TaskResult, ghost o: Result<Saved>)
    modifies w, w.store
    ensures o == Outcome(old(w.files) + {job.inputPath}, job.inputPath, job.outputPath, lib)
    ensures result == ResultOf(o)
    ensures w.files == (if o.Success? then old(w.files) + {FinalPath(job.outputPath)} else old(w.files)) - {job.inputPath}
    ensures w.store.entries == old(w.store.entries)[StatusKey(job.taskId) := Entry(TerminalStatus(o), Some(old(w.store.now) + StatusTtl))]
    ensures w.store.now == old(w.store.now)
  {
    ghost var before := w.files;
    w.files := w.files + {job.inputPath};
    o := Outcome(w.files, job.inputPath, job.outputPath, lib);
    result := w.ProcessImageTask(job.inputPath, job.outputPath, job.taskId, lib);
    StoredThenCleaned(before, job.inputPath, o, FinalPath(job.outputPath));
  }

  /** Storing the input, running, and deleting the input leaves the files
      from before, plus the output of a successful run, minus the input. */
  lemma StoredThenCleaned(files: set<string>, inputPath: string, o: Result<Saved>, final: string)
    requires o.Success? ==> o.value.path == final
    ensures FilesAfter(files + {inputPath}, inputPath, o) == (if o.Success? then files + {final} else files) - {inputPath}
  {
  }

  /** A status request `elapsed` seconds after a run recorded outcome `o`
      reports "completed" or "error:" + the message, with the job id, for
      the next hour, and "not_found" from then on. */
  lemma StatusAfterRun(entries: map<string, Entry>, taskId: string, o: Result<Saved>, t0: int, elapsed: nat)
    ensures var key := StatusKey(taskId);
      var after := entries[key := Entry(TerminalStatus(o), Some(t0 + StatusTtl))];
      StatusResponse(taskId, Visible(after, t0 + elapsed, key)) ==
        if elapsed < StatusTtl then
          Json(200, map["status" := (if o.Success? then "completed" else "error:" + o.error), "task_id" := taskId])
        else Json(404, map["status" := "not_found"])
  {
    ExpiryWindow(entries, StatusKey(taskId), TerminalStatus(o), t0, StatusTtl, t0 + elapsed);
    if o.Failure? {
      assert TerminalStatus(o) == "error:" + o.error by {
        assert TerminalStatus(o) == TerminalStatus(o)[..6] + TerminalStatus(o)[6..];
      }
    }
  }

  /** A started job never names its input as the file its run writes. */
  lemma StartedJobSeparate(req: UploadRequest, taskId: string, secureFilename: string -> string)
    requires IsUuidText(taskId)
    requires UploadFile(req, taskId, secureFilename, None).started.Some?
    ensures var job := UploadFile(req, taskId, secureFilename, None).started.value;
      FinalPath(job.outputPath) != job.inputPath
  {
    UuidIsRelative(taskId);
    UploadNaming(req, taskId, secureFilename);
    StartedJobKeepsOutput(taskId, secureFilename(req.file.value.filename));
  }

  /** A status request made `elapsed` seconds from now. */
  method StatusLater(store: Store, taskId: string, elapsed: nat) returns (resp: Response)
    modifies store
    ensures resp == StatusResponse(taskId, Visible(old(store.entries), old(store.now) + elapsed, StatusKey(taskId)))
    ensures store.entries == old(store.entries) && store.now == old(store.now) + elapsed
  {
    store.Advance(elapsed);
    resp := GetStatus(store, taskId);
  }

  /** An upload, the worker's run of the job it started, and a status request
      `elapsed` seconds later. Afterwards the input is gone, a successful run
      leaves exactly its output added, and the status request reports the
      run's terminal status within the hour and "not_found" from then on. */
  method UploadAndRun(w: Worker, req: UploadRequest, taskId: string, secureFilename: string -> string, lib: Library, elapsed: nat)
    returns (s: Submission, r: Option<TaskResult>, poll: Option<Response>)
    requires IsUuidText(taskId)
    modifies w, w.store
    ensures s == UploadFile(req, taskId, secureFilename, None)
    ensures r.Some? <==> s.started.Some?
    ensures poll.Some? <==> s.started.Some?
    ensures s.started.None? ==>
      w.files == old(w.files) && w.store.entries == old(w.store.entries) && w.store.now == old(w.store.now)
    ensures s.started.Some? && r.Some? ==>
      var job := s.started.value;
      w.files == (if r.value.TaskSucceeded? then old(w.files) + {FinalPath(job.outputPath)} else old(w.files)) - {job.inputPath}
    ensures s.started.Some? && r.Some? && r.value.TaskSucceeded? ==> FinalPath(s.started.value.outputPath) in w.files
    ensures s.started.Some? ==> w.store.now == old(w.store.now) + elapsed
    ensures s.started.Some? && r.Some? && poll.Some? && elapsed < StatusTtl ==>
      poll.value == Json(200, map["status" := (if r.value.TaskSucceeded? then "completed" else "error:" + r.value.message), "task_id" := taskId])
    ensures s.started.Some? && poll.Some? && elapsed >= StatusTtl ==> poll.value == Json(404, map["status" := "not_found"])
  {
    s := UploadFile(req, taskId, secureFilename, None);
    if s.started.None? {
      return s, None, None;
    }
    var job := s.started.value;
    StartedJobSeparate(req, taskId, secureFilename);
    ghost var t0 := w.store.now;
    ghost var entries0 := w.store.entries;
    var result;
    ghost var o;
    result, o := RunStarted(w, job, lib);
    r := Some(result);
    var resp := StatusLater(w.store, taskId, elapsed);
    poll := Some(resp);
    StatusAfterRun(entries0, taskId, o, t0, elapsed);
  }
}
