/** The decisions the browser client (static/js/main.js) takes: which
    dropped file it uploads, how it reacts to the upload reply, and how
    each status reply moves its polling loop. The DOM updates are
    represented by the action each decision selects. */
module Client {
  import opened Text

  /** A file the user picked or dropped: its name and its MIME type. */
  datatype FileDesc = FileDesc(name: string, mimeType: string)

  /** What `handleFiles` does with a file list. */
  datatype Selection = Ignore | RejectNonImage(alert: string) | Upload(file: FileDesc)

  const NotAnImageAlert: string := "Please upload an image file"

  /** `handleFiles` (static/js/main.js:40-49). */
  function HandleFiles(files: seq<FileDesc>): (s: Selection)
    ensures s == Ignore <==> files == []
    ensures s.Upload? <==> files != [] && StartsWith(files[0].mimeType, "image/")
    ensures s.Upload? ==> s.file == files[0]
    ensures s.RejectNonImage? ==> s.alert == NotAnImageAlert
  {
    if |files| > 0 then
      var file := files[0];
      if StartsWith(file.mimeType, "image/") then Upload(file) else RejectNonImage(NotAnImageAlert)
    else
      Ignore
  }

  /** Only the first file of a non-empty list is looked at. */
  lemma OnlyFirstFileCounts(first: FileDesc, rest: seq<FileDesc>)
    ensures HandleFiles([first] + rest) == HandleFiles([first])
  {
  }

  /** A reply as `response.json()` delivered it: a JSON object whose fields
      are strings, or a failure (network error or a body that is not JSON,
      such as the 413 page) with its message. */
  datatype Reply = Unreadable(message: string) | Body(fields: map<string, string>)

  /** A JavaScript field read turned into text: a missing field reads as
      `undefined`, which renders as "undefined". */
  function FieldText(fields: map<string, string>, name: string): (t: string)
    ensures name in fields ==> t == fields[name]
    ensures name !in fields ==> t == "undefined"
  {
    if name in fields then fields[name] else "undefined"
  }

  /** What `uploadImage` does once its request settled. */
  datatype UploadStep = UploadFailed(alert: string) | StartPolling(path: string, taskId: string)

  /** The error check of `uploadImage` (static/js/main.js:72-83): a failed
      request or a truthy (non-empty) `error` field alerts and hides the
      loading indicator; anything else starts polling with `result_path`
      and `task_id`. */
  function OnUploadReply(reply: Reply): (step: UploadStep)
    ensures reply.Unreadable? ==> step == UploadFailed("Error: " + reply.message)
    ensures reply.Body? ==>
      (step.UploadFailed? <==> "error" in reply.fields && reply.fields["error"] != "")
    ensures reply.Body? && step.UploadFailed? ==> step.alert == "Error: " + reply.fields["error"]
    ensures step.StartPolling? ==> reply.Body?
    ensures step.StartPolling? && reply.Body? ==>
      step.path == FieldText(reply.fields, "result_path") && step.taskId == FieldText(reply.fields, "task_id")
  {
    match reply
    case Unreadable(message) => UploadFailed("Error: " + message)
    case Body(fields) =>
      if "error" in fields && fields["error"] != "" then UploadFailed("Error: " + fields["error"])
      else StartPolling(FieldText(fields, "result_path"), FieldText(fields, "task_id"))
  }

  /** What one status reply makes `checkProcessedImage` do. */
  datatype StatusAction =
    | ShowResult(imageSrc: string, downloadHref: string, downloadName: string)
    | Repoll(delayMs: nat, path: string, taskId: string)
    | ShowError(alert: string)
    | CheckFailed(alert: string)
    | Stop

  /** Actions after which the loading indicator is hidden. */
  predicate HidesLoading(a: StatusAction) {
    a.ShowResult? || a.ShowError? || a.CheckFailed?
  }

  /** Actions after which the loop goes on. */
  predicate Continues(a: StatusAction) {
    a.Repoll?
  }

  /** An upload step hides the loading indicator exactly when it fails. */
  predicate UploadHidesLoading(step: UploadStep) {
    step.UploadFailed?
  }

  const DownloadName: string := "processed_image.png"
  const RepollDelayMs: nat := 1000
  const CheckFailedAlert: string := "Error checking image status"

  /** The detail shown for an "error:" status: `status.split(':')[1]`, the
      text after the first ':' up to the next ':' or the end. */
  function ErrorDetail(status: string): (d: string)
    requires ':' in status
    ensures ':' !in d
    ensures var rest := status[Find(status, ':') + 1..];
      d == if ':' in rest then rest[..Find(rest, ':')] else rest
  {
    var parts := SplitOn(status, ':');
    assert |parts| >= 2;
    FirstPiece(status[Find(status, ':') + 1..], ':');
    parts[1]
  }

  /** `checkProcessedImage`'s reaction to one reply (static/js/main.js:86-111).
      A body without `status` makes `.startsWith` throw, which lands in the
      catch branch like a failed request. */
  function OnStatus(path: string, taskId: string, reply: Reply): (a: StatusAction)
    ensures (reply.Unreadable? || "status" !in reply.fields) <==> a == CheckFailed(CheckFailedAlert)
    ensures reply.Body? && "status" in reply.fields ==>
      var status := reply.fields["status"];
      (status == "completed" <==> a == ShowResult(path, path, DownloadName)) &&
      (status == "processing" <==> a == Repoll(RepollDelayMs, path, taskId)) &&
      (a.ShowError? <==> StartsWith(status, "error:") && status != "completed" && status != "processing") &&
      (a.Stop? <==> status != "completed" && status != "processing" && !StartsWith(status, "error:"))
  {
    match reply
    case Unreadable(_) => CheckFailed(CheckFailedAlert)
    case Body(fields) =>
      if "status" !in fields then CheckFailed(CheckFailedAlert)
      else
        var status := fields["status"];
        if status == "completed" then ShowResult(path, path, DownloadName)
        else if status == "processing" then Repoll(RepollDelayMs, path, taskId)
        else if StartsWith(status, "error:") then
          assert status[5] == ':';
          ShowError("Error processing image: " + ErrorDetail(status))
        else Stop
  }

  /** The alert for "error:" + m shows m up to its first ':' only: all of m
      exactly when m has no ':'. */
  lemma {:induction false} ErrorAlert(path: string, taskId: string, m: string)
    ensures var a := OnStatus(path, taskId, Body(map["status" := "error:" + m]));
      a.ShowError? &&
      a.alert == "Error processing image: " + (if ':' in m then m[..Find(m, ':')] else m) &&
      (a.alert == "Error processing image: " + m <==> ':' !in m)
  {
    ErrorStatusShape(m);
    ErrorDetailOf(m);
    var detail := if ':' in m then m[..Find(m, ':')] else m;
    var pre := "Error processing image: ";
    if pre + detail == pre + m {
      assert (pre + detail)[|pre|..] == detail;
      assert (pre + m)[|pre|..] == m;
    }
  }

  /** "error:" + m is none of the other statuses the loop tests for. */
  lemma ErrorStatusShape(m: string)
    ensures var status := "error:" + m;
      StartsWith(status, "error:") && status != "completed" && status != "processing"
  {
    var status := "error:" + m;
    assert status[..6] == "error:";
    assert status[0] == 'e';
  }

  /** The detail of "error:" + m is m up to its first ':'. */
  lemma ErrorDetailOf(m: string)
    ensures ':' in "error:" + m
    ensures ErrorDetail("error:" + m) == if ':' in m then m[..Find(m, ':')] else m
  {
    var status := "error:" + m;
    assert status[5] == ':';
    assert status == "error" + [':'] + m;
    SplitAfterPrefix("error", ':', m);
    FirstPiece(m, ':');
  }

  /** How a run of the polling loop over a sequence of replies ended. */
  datatype PollRun = Settled(fetches: nat, last: StatusAction) | StillPolling(fetches: nat)

  /** The polling loop: each reply is one fetch; a `Repoll` fetches again
      with the same path and id, any other action ends the loop. */
  function Poll(path: string, taskId: string, replies: seq<Reply>): (r: PollRun)
    ensures r.fetches <= |replies|
    ensures r.StillPolling? ==> r.fetches == |replies|
    ensures r.Settled? ==> 1 <= r.fetches && !Continues(r.last)
    ensures r.Settled? && 1 <= r.fetches <= |replies| ==>
      r.last == OnStatus(path, taskId, replies[r.fetches - 1])
    ensures forall i :: 0 <= i < (if r.Settled? then r.fetches - 1 else r.fetches) ==>
      Continues(OnStatus(path, taskId, replies[i]))
  {
    if replies == [] then StillPolling(0)
    else
      var a := OnStatus(path, taskId, replies[0]);
      if Continues(a) then
        match Poll(path, taskId, replies[1..])
        case Settled(n, last) => Settled(n + 1, last)
        case StillPolling(n) => StillPolling(n + 1)
      else Settled(1, a)
  }

  /** The "processing" status reply. */
  function Processing(taskId: string): Reply {
    Body(map["status" := "processing", "task_id" := taskId])
  }

  /** k "processing" replies followed by a settling reply settle the loop at
      fetch k + 1 with that reply's action. */
  lemma {:induction false} PollThroughProcessing(path: string, taskId: string, k: nat, last: Reply, rest: seq<Reply>)
    requires !Continues(OnStatus(path, taskId, last))
    ensures Poll(path, taskId, seq(k, _ => Processing(taskId)) + [last] + rest) ==
      Settled(k + 1, OnStatus(path, taskId, last))
  {
    var replies := seq(k, _ => Processing(taskId)) + [last] + rest;
    if k == 0 {
      assert replies[0] == last;
    } else {
      assert replies[0] == Processing(taskId);
      assert OnStatus(path, taskId, Processing(taskId)) == Repoll(RepollDelayMs, path, taskId);
      assert replies[1..] == seq(k - 1, _ => Processing(taskId)) + [last] + rest;
      PollThroughProcessing(path, taskId, k - 1, last, rest);
    }
  }

  /** While the server keeps answering "processing", the loop never ends. */
  lemma {:induction false} PollKeepsWaiting(path: string, taskId: string, k: nat)
    ensures Poll(path, taskId, seq(k, _ => Processing(taskId))) == StillPolling(k)
  {
    var replies := seq(k, _ => Processing(taskId));
    if k > 0 {
      assert replies[0] == Processing(taskId);
      assert OnStatus(path, taskId, Processing(taskId)) == Repoll(RepollDelayMs, path, taskId);
      assert replies[1..] == seq(k - 1, _ => Processing(taskId));
      PollKeepsWaiting(path, taskId, k - 1);
    }
  }
}
