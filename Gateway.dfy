/** The two HTTP routes around the worker (app.py): `upload_file`, which
    validates an upload, names the job's files and hands the job to the
    worker, and `get_status`, which reads a job's status from the store. */
module Gateway {
  import opened Wrappers
  import opened Text
  import opened Paths
  import opened Imaging
  import opened StatusStore
  import opened Worker

  const UploadFolder: string := "static/uploads"
  const ResultFolder: string := "static/results"
  /** Largest accepted request body, in bytes. */
  const MaxContentLength: nat := 10 * 1024 * 1024

  /** A response: a JSON object whose values are strings, or a non-JSON
      error page (the framework's own 413 page). */
  datatype Response = Json(code: nat, body: map<string, string>) | Page(code: nat)

  /** The `file` part of a multipart upload: only its client-side name matters. */
  datatype FilePart = FilePart(filename: string)

  /** An upload request: its declared length and its `file` part, if any. */
  datatype UploadRequest = UploadRequest(contentLength: nat, file: Option<FilePart>)

  /** The arguments the route hands to the worker. */
  datatype Job = Job(inputPath: string, outputPath: string, taskId: string)

  /** The route's response, and the job it started, if any. */
  datatype Submission = Submission(response: Response, started: Option<Job>)

  /** The text form of a version-4 UUID: 36 lower-case hex digits and dashes. */
  predicate IsUuidText(t: string) {
    |t| == 36 && forall i :: 0 <= i < |t| ==> t[i] in "0123456789abcdef-"
  }

  /** The stored file name: job id, '_', sanitised client name. */
  function UploadName(taskId: string, safeName: string): (name: string)
    ensures |name| == |taskId| + 1 + |safeName| && name[..|taskId|] == taskId
    ensures name[|taskId|] == '_' && name[|taskId| + 1..] == safeName
  {
    var name := taskId + "_" + safeName;
    assert name[|taskId| + 1..] == safeName;
    name
  }

  /** `upload_file` (app.py:103-134). `taskId` is the fresh UUID text,
      `secureFilename` the sanitiser, and `saveError` the message of the
      exception raised, if any, while storing the upload or handing the job
      to the worker. */
  function UploadFile(req: UploadRequest, taskId: string, secureFilename: string -> string, saveError: Option<string>): (s: Submission)
    ensures req.contentLength > MaxContentLength ==> s == Submission(Page(413), None)
    ensures req.contentLength <= MaxContentLength && req.file.None? ==>
      s == Submission(Json(400, map["error" := "No file part"]), None)
    ensures req.contentLength <= MaxContentLength && req.file.Some? && req.file.value.filename == "" ==>
      s == Submission(Json(400, map["error" := "No selected file"]), None)
    ensures s.started.Some? <==>
      req.contentLength <= MaxContentLength && req.file.Some? && req.file.value.filename != "" && saveError.None?
    ensures req.contentLength <= MaxContentLength && req.file.Some? && req.file.value.filename != "" && saveError.Some? ==>
      s == Submission(Json(500, map["error" := saveError.value]), None)
    ensures s.started.Some? ==> s.response.Json? && s.response.code == 200 && s.started.value.taskId == taskId
    ensures s.started.None? ==> s.response.code != 200
  {
    if req.contentLength > MaxContentLength then Submission(Page(413), None)
    else if req.file.None? then Submission(Json(400, map["error" := "No file part"]), None)
    else if req.file.value.filename == "" then Submission(Json(400, map["error" := "No selected file"]), None)
    else
      var filename := UploadName(taskId, secureFilename(req.file.value.filename));
      var inputPath := Join(UploadFolder, filename);
      var outputPath := Join(ResultFolder, "processed_" + filename);
      if saveError.Some? then
        Submission(Json(500, map["error" := saveError.value]), None)
      else
        Submission(
          Json(200, map["task_id" := taskId, "result_path" := "/static/results/processed_" + filename]),
          Some(Job(inputPath, outputPath, taskId)))
  }

  /** The names a started job gets: the input under the upload folder, the
      output under the result folder with "processed_", and an advertised
      `result_path` that is always "/" + the requested output path. */
  lemma {:induction false} UploadNaming(req: UploadRequest, taskId: string, secureFilename: string -> string)
    requires !StartsWith(taskId, "/")
    requires UploadFile(req, taskId, secureFilename, None).started.Some?
    ensures var s := UploadFile(req, taskId, secureFilename, None);
      var filename := UploadName(taskId, secureFilename(req.file.value.filename));
      s.started.value.inputPath == "static/uploads/" + filename &&
      s.started.value.outputPath == "static/results/processed_" + filename &&
      s.response.body == map["task_id" := taskId, "result_path" := "/" + s.started.value.outputPath]
  {
    var filename := UploadName(taskId, secureFilename(req.file.value.filename));
    assert !StartsWith(filename, "/") by {
      if taskId != "" { assert filename[0] == taskId[0]; assert taskId[..1] != "/"; }
      else { assert filename[0] == '_'; }
    }
    assert ("processed_" + filename)[0] == 'p';
    var output := "static/results/processed_" + filename;
    assert Join(ResultFolder, "processed_" + filename) == output;
    assert "/static/results/processed_" + filename == "/" + output;
  }

  /** UUID text never starts with '/'. */
  lemma UuidIsRelative(t: string)
    requires IsUuidText(t)
    ensures !StartsWith(t, "/")
  {
    assert t[0] in "0123456789abcdef-";
    assert t[..1] == [t[0]];
  }

  /** Two different UUIDs give two different jobs: different status keys,
      different input files and different output files, whatever the two
      uploads were called. */
  lemma DistinctJobs(t1: string, t2: string, n1: string, n2: string)
    requires IsUuidText(t1) && IsUuidText(t2) && t1 != t2
    ensures StatusKey(t1) != StatusKey(t2)
    ensures UploadName(t1, n1) != UploadName(t2, n2)
    ensures "static/uploads/" + UploadName(t1, n1) != "static/uploads/" + UploadName(t2, n2)
    ensures "static/results/processed_" + UploadName(t1, n1) != "static/results/processed_" + UploadName(t2, n2)
  {
    var f1, f2 := UploadName(t1, n1), UploadName(t2, n2);
    assert f1[..36] == t1 && f2[..36] == t2;
    assert StatusKey(t1)[5..] == t1;
    var u1, u2 := "static/uploads/" + f1, "static/uploads/" + f2;
    assert u1[15..] == f1 && u2[15..] == f2;
    var r1, r2 := "static/results/processed_" + f1, "static/results/processed_" + f2;
    assert r1[25..] == f1 && r2[25..] == f2;
  }

  /** The file the worker writes stays in the directory of the requested
      output path. */
  lemma {:induction false} FinalPathKeepsFolder(p: string, dir: string)
    requires StartsWith(p, dir) && |dir| >= 1 && dir[|dir| - 1] == '/'
    ensures StartsWith(FinalPath(p), dir)
  {
    var k := RFind(p, '/');
    assert p[|dir| - 1] == dir[|dir| - 1];
    assert k >= |dir| - 1;
    FinalPathKeepsDirectory(p);
    var f := FinalPath(p);
    assert f[..k + 1] == p[..k + 1];
    assert f[..|dir|] == p[..k + 1][..|dir|] == p[..|dir|];
  }

  /** The worker never deletes a started job's output: the output it writes
      stays under "static/results/", the input lies under "static/uploads/". */
  lemma {:induction false} StartedJobKeepsOutput(taskId: string, safeName: string)
    ensures var filename := UploadName(taskId, safeName);
      var input, output := "static/uploads/" + filename, "static/results/processed_" + filename;
      StartsWith(FinalPath(output), "static/results/") && FinalPath(output) != input
  {
    var filename := UploadName(taskId, safeName);
    var input, output := "static/uploads/" + filename, "static/results/processed_" + filename;
    var dir := "static/results/";
    assert output[..|dir|] == dir;
    assert input[..15] == "static/uploads/";
    FinalPathKeepsFolder(output, dir);
    DiffersAt(FinalPath(output), input, dir, "static/uploads/");
  }

  /** Two strings that start with prefixes differing at some position differ. */
  lemma DiffersAt(f: string, g: string, d: string, e: string)
    requires StartsWith(f, d) && StartsWith(g, e) && |d| == |e| && d != e
    ensures f != g
  {
    assert f[..|d|] == d && g[..|e|] == e;
  }

  /** The advertised `result_path` names the file the worker writes exactly
      when the request is JPEG or already ends in ".png" (lower-case); for
      ".gif", ".webp", ".PNG" or no extension it names a file that is never
      written. */
  lemma AdvertisedPathIff(req: UploadRequest, taskId: string, secureFilename: string -> string)
    requires !StartsWith(taskId, "/")
    requires UploadFile(req, taskId, secureFilename, None).started.Some?
    ensures var s := UploadFile(req, taskId, secureFilename, None);
      var output := s.started.value.outputPath;
      s.response.body["result_path"] == "/" + FinalPath(output) <==>
        OutputFormat(output) == Jpeg || SplitExt(output).1 == ".png"
  {
    var s := UploadFile(req, taskId, secureFilename, None);
    var output := s.started.value.outputPath;
    UploadNaming(req, taskId, secureFilename);
    RewriteKeepsPathIff(output);
    assert "/" + FinalPath(output) == "/" + output <==> FinalPath(output) == output by {
      if "/" + FinalPath(output) == "/" + output {
        assert ("/" + FinalPath(output))[1..] == FinalPath(output);
        assert ("/" + output)[1..] == output;
      }
    }
  }

  /** `get_status` (app.py:136-147) on the value the store returned: a
      non-empty value is reported with code 200; a missing key, or an empty
      value, which Python treats as false, is "not_found" with code 404. */
  function StatusResponse(taskId: string, stored: Option<string>): (resp: Response)
    ensures resp.Json? && "status" in resp.body
    ensures resp.code == 200 <==> stored.Some? && stored.value != ""
    ensures resp.code != 200 ==> resp == Json(404, map["status" := "not_found"])
    ensures resp.code == 200 ==> resp.body == map["status" := stored.value, "task_id" := taskId]
  {
    if stored.Some? && stored.value != "" then
      Json(200, map["status" := stored.value, "task_id" := taskId])
    else
      Json(404, map["status" := "not_found"])
  }

  /** `get_status` against the store. */
  method GetStatus(store: Store, taskId: string) returns (resp: Response)
    ensures resp == StatusResponse(taskId, Visible(store.entries, store.now, StatusKey(taskId)))
  {
    var stored := store.Get(StatusKey(taskId));
    resp := StatusResponse(taskId, stored);
  }

  /** Every value the worker writes is reported as it is: "processing" while
      it runs, and its terminal value until the expiry, after which the job
      reads as "not_found". */
  lemma StatusOfWorkerValues(taskId: string, o: Result<Saved>)
    ensures StatusResponse(taskId, Some("processing")).body["status"] == "processing"
    ensures StatusResponse(taskId, Some(TerminalStatus(o))) ==
      Json(200, map["status" := TerminalStatus(o), "task_id" := taskId])
    ensures StatusResponse(taskId, None) == Json(404, map["status" := "not_found"])
  {
  }
}
