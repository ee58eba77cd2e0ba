/** The background job `process_image_task` (app.py): it records the job's
    status under `task_<id>`, runs the image pipeline, records the terminal
    status with a one-hour expiry, and always deletes the uploaded input. */
module Worker {
  import opened Wrappers
  import opened Imaging
  import opened Paths
  import opened StatusStore

  /** Seconds a terminal status stays readable. */
  const StatusTtl: int := 3600

  /** The store key of a job's status. */
  function StatusKey(taskId: string): (key: string)
    ensures |key| == |taskId| + 5 && key[..5] == "task_" && key[5..] == taskId
  {
    "task_" + taskId
  }

  /** The library calls the worker makes, each of which may raise: opening
      (decoding) an existing file, removing the background, and saving in a
      format, which reports the raised message or nothing. */
  datatype Library = Library(
    decode: string -> Result<Image>,
    removeBackground: Image -> Result<Image>,
    save: (Image, string, Format) -> Option<string>)

  /** `str(e)` of the FileNotFoundError that opening a missing file raises. */
  function MissingFileMessage(path: string): (m: string)
    ensures |m| == 38 + |path| + 1
    ensures m[..38] == "[Errno 2] No such file or directory: '" && m[38..38 + |path|] == path && m[|m| - 1] == '\''
  {
    var m := "[Errno 2] No such file or directory: '" + path + "'";
    assert m[38..38 + |path|] == path;
    m
  }

  /** `Image.open` on the current filesystem. */
  function OpenImage(files: set<string>, path: string, lib: Library): (r: Result<Image>)
    ensures path !in files ==> r == Failure(MissingFileMessage(path))
    ensures path in files ==> r == lib.decode(path)
  {
    if path in files then lib.decode(path) else Failure(MissingFileMessage(path))
  }

  /** The image handed to the background remover: colour-normalised, then
      size-capped; it is always RGB and within the size cap. The resize
      raises when the shorter side of an oversized image would become zero. */
  function Prepare(img: Image): (r: Result<Image>)
    ensures r.Success? ==> r.value.mode == "RGB" && r.value.width <= MaxSide && r.value.height <= MaxSide
    ensures Longest(img.width, img.height) <= MaxSide ==>
      r.Success? && r.value.width == img.width && r.value.height == img.height
    ensures var m := Longest(img.width, img.height);
      r.Failure? <==> m > MaxSide && (img.width * MaxSide < m || img.height * MaxSide < m)
    ensures r.Failure? ==> r.error == ResizeErrorMessage
  {
    CheckedCap(Normalize(img))
  }

  /** What a successful run wrote: the path, the encoding and the image saved. */
  datatype Saved = Saved(path: string, format: Format, image: Image)

  /** The outcome of the pipeline (app.py:42-75) for one job, starting from
      the filesystem `files`. */
  function Outcome(files: set<string>, inputPath: string, outputPath: string, lib: Library): (o: Result<Saved>)
    ensures inputPath !in files ==> o == Failure(MissingFileMessage(inputPath))
    ensures o.Success? ==> inputPath in files
    ensures o.Success? ==> o.value.path == FinalPath(outputPath) && o.value.format == OutputFormat(outputPath)
    ensures o.Success? && o.value.format == Jpeg ==> o.value.image.mode == "RGB"
  {
    match OpenImage(files, inputPath, lib)
    case Failure(e) => Failure(e)
    case Success(img) => Processed(img, outputPath, lib)
  }

  /** The pipeline after a successful open (app.py:44-75): prepare, remove
      the background, encode and save; the first step that raises decides
      the failure message. */
  function Processed(img: Image, outputPath: string, lib: Library): (o: Result<Saved>)
    ensures o.Success? ==> o.value.path == FinalPath(outputPath) && o.value.format == OutputFormat(outputPath)
    ensures o.Success? && o.value.format == Jpeg ==> o.value.image.mode == "RGB"
  {
    match Prepare(img)
    case Failure(e) => Failure(e)
    case Success(prepared) =>
    match lib.removeBackground(prepared)
    case Failure(e) => Failure(e)
    case Success(removed) =>
      var format := OutputFormat(outputPath);
      var encoded := if format == Jpeg then ToRgb(removed) else removed;
      match lib.save(encoded, FinalPath(outputPath), format)
      case Some(e) => Failure(e)
      case None => Success(Saved(FinalPath(outputPath), format, encoded))
  }

  /** Each step of the pipeline that raises ends the run with that step's
      message, in the order the steps run; the run succeeds exactly when no
      step raises, and then it has saved the encoded image at the final path. */
  lemma OutcomeSteps(files: set<string>, inputPath: string, outputPath: string, lib: Library)
    ensures var decoded := OpenImage(files, inputPath, lib);
      decoded.Failure? ==> Outcome(files, inputPath, outputPath, lib) == Failure(decoded.error)
    ensures var decoded := OpenImage(files, inputPath, lib);
      decoded.Success? && Prepare(decoded.value).Failure? ==>
        Outcome(files, inputPath, outputPath, lib) == Failure(ResizeErrorMessage)
    ensures var decoded := OpenImage(files, inputPath, lib);
      decoded.Success? && Prepare(decoded.value).Success? ==>
      var removed := lib.removeBackground(Prepare(decoded.value).value);
      removed.Failure? ==> Outcome(files, inputPath, outputPath, lib) == Failure(removed.error)
    ensures var decoded := OpenImage(files, inputPath, lib);
      decoded.Success? && Prepare(decoded.value).Success? ==>
      var removed := lib.removeBackground(Prepare(decoded.value).value);
      removed.Success? ==>
      var format := OutputFormat(outputPath);
      var encoded := if format == Jpeg then ToRgb(removed.value) else removed.value;
      var saveError := lib.save(encoded, FinalPath(outputPath), format);
      (saveError.Some? ==> Outcome(files, inputPath, outputPath, lib) == Failure(saveError.value)) &&
      (saveError.None? ==> Outcome(files, inputPath, outputPath, lib) == Success(Saved(FinalPath(outputPath), format, encoded)))
    ensures Outcome(files, inputPath, outputPath, lib).Success? <==>
      (var decoded := OpenImage(files, inputPath, lib);
       decoded.Success? && Prepare(decoded.value).Success? &&
       (var removed := lib.removeBackground(Prepare(decoded.value).value);
        removed.Success? &&
        (var format := OutputFormat(outputPath);
         lib.save(if format == Jpeg then ToRgb(removed.value) else removed.value, FinalPath(outputPath), format).None?)))
  {
  }


  /** The status value written when the run ends. */
  function TerminalStatus(o: Result<Saved>): (s: string)
    ensures o.Success? <==> s == "completed"
    ensures o.Failure? <==> |s| >= 6 && s[..6] == "error:"
    ensures o.Failure? ==> s[6..] == o.error
    ensures s != "processing" && s != ""
  {
    if o.Success? then
      assert "completed"[0] == 'c';
      "completed"
    else
      var s := "error:" + o.error;
      assert s[0] == 'e' && s[..6] == "error:" && s[6..] == o.error;
      s
  }

  /** The dictionary the task returns. */
  datatype TaskResult = TaskSucceeded(outputPath: string) | TaskFailed(message: string)

  function ResultOf(o: Result<Saved>): (r: TaskResult)
    ensures r.TaskSucceeded? <==> o.Success?
    ensures o.Success? ==> r.outputPath == o.value.path
    ensures o.Failure? ==> r.message == o.error
  {
    if o.Success? then TaskSucceeded(o.value.path) else TaskFailed(o.error)
  }

  /** The filesystem just before the `finally` clause. */
  function FilesBeforeCleanup(files: set<string>, o: Result<Saved>): (r: set<string>)
    ensures o.Failure? ==> r == files
    ensures o.Success? ==> r == files + {o.value.path}
  {
    if o.Success? then files + {o.value.path} else files
  }

  /** The filesystem after the run: the input is gone on every path, a failed
      run creates no file, and a successful one leaves its output unless the
      output is the input itself. */
  function FilesAfter(files: set<string>, inputPath: string, o: Result<Saved>): (r: set<string>)
    ensures inputPath !in r
    ensures o.Failure? ==> r == files - {inputPath}
    ensures o.Success? && o.value.path != inputPath ==> o.value.path in r
    ensures r <= FilesBeforeCleanup(files, o)
  {
    FilesBeforeCleanup(files, o) - {inputPath}
  }

  /** The observable steps of a run, in order: status writes and expiries on
      the store, the library calls, and the deletion of the input. */
  datatype Event =
    | StatusWritten(key: string, value: string)
    | ExpirySet(key: string, seconds: int)
    | OpenCalled(path: string)
    | RemoveCalled(input: Image)
    | SaveCalled(path: string, format: Format)
    | InputDeleted(path: string)

  /** The library calls after the open, up to the first one that raises. */
  function PipelineCalls(files: set<string>, inputPath: string, outputPath: string, lib: Library): seq<Event> {
    match OpenImage(files, inputPath, lib)
    case Failure(_) => []
    case Success(img) => ProcessedCalls(img, outputPath, lib)
  }

  /** The library calls of `Processed`, up to the first one that raises. */
  function ProcessedCalls(img: Image, outputPath: string, lib: Library): seq<Event> {
    match Prepare(img)
    case Failure(_) => []
    case Success(prepared) =>
      [RemoveCalled(prepared)] +
      if lib.removeBackground(prepared).Failure? then []
      else [SaveCalled(FinalPath(outputPath), OutputFormat(outputPath))]
  }

  /** Every step one run takes, starting from the filesystem `files`. */
  function RunEvents(files: set<string>, inputPath: string, outputPath: string, taskId: string, lib: Library): (events: seq<Event>)
    ensures |events| >= 4
    ensures events[0] == StatusWritten(StatusKey(taskId), "processing") && events[1] == OpenCalled(inputPath)
  {
    var key := StatusKey(taskId);
    var o := Outcome(files, inputPath, outputPath, lib);
    [StatusWritten(key, "processing"), OpenCalled(inputPath)]
    + PipelineCalls(files, inputPath, outputPath, lib)
    + [StatusWritten(key, TerminalStatus(o)), ExpirySet(key, StatusTtl)]
    + (if inputPath in FilesBeforeCleanup(files, o) then [InputDeleted(inputPath)] else [])
  }

  /** The store commands among `events` that concern `key`. */
  function StoreCommands(events: seq<Event>, key: string): (r: seq<Event>)
    ensures forall i :: 0 <= i < |r| ==> r[i] in events && (r[i].StatusWritten? || r[i].ExpirySet?) && r[i].key == key
  {
    if events == [] then [] else Kept(events[0], key) + StoreCommands(events[1..], key)
  }

  /** The one-event case of `StoreCommands`. */
  function Kept(e: Event, key: string): seq<Event> {
    if (e.StatusWritten? || e.ExpirySet?) && e.key == key then [e] else []
  }

  lemma StoreCommandsPair(a: Event, b: Event, key: string)
    ensures StoreCommands([a, b], key) == Kept(a, key) + Kept(b, key)
  {
    assert [a, b][1..] == [b];
    assert [b][1..] == [];
    assert StoreCommands([b], key) == Kept(b, key) + StoreCommands([], key);
    assert StoreCommands([a, b], key) == Kept(a, key) + StoreCommands([b], key);
  }

  lemma {:induction false} StoreCommandsAppend(a: seq<Event>, b: seq<Event>, key: string)
    ensures StoreCommands(a + b, key) == StoreCommands(a, key) + StoreCommands(b, key)
  {
    if a != [] {
      StoreCommandsAppend(a[1..], b, key);
      assert (a + b)[0] == a[0];
      assert (a + b)[1..] == a[1..] + b;
    } else {
      assert a + b == b;
    }
  }

  /** A tail with no store commands. */
  lemma {:induction false} NoStoreCommands(events: seq<Event>, key: string)
    requires forall i :: 0 <= i < |events| ==> !events[i].StatusWritten? && !events[i].ExpirySet?
    ensures StoreCommands(events, key) == []
  {
    if events != [] {
      NoStoreCommands(events[1..], key);
    }
  }

  /** On the store, a run of job `taskId` does exactly this to its own key:
      SET "processing", then SET of the single terminal value, then EXPIRE
      3600; it sends no command about any other key. */
  lemma {:induction false} RunStoreCommands(files: set<string>, inputPath: string, outputPath: string, taskId: string, lib: Library, other: string)
    ensures var key, o := StatusKey(taskId), Outcome(files, inputPath, outputPath, lib);
      StoreCommands(RunEvents(files, inputPath, outputPath, taskId, lib), key) ==
        [StatusWritten(key, "processing"), StatusWritten(key, TerminalStatus(o)), ExpirySet(key, StatusTtl)]
    ensures other != StatusKey(taskId) ==>
      StoreCommands(RunEvents(files, inputPath, outputPath, taskId, lib), other) == []
  {
    var key, o := StatusKey(taskId), Outcome(files, inputPath, outputPath, lib);
    var head := [StatusWritten(key, "processing"), OpenCalled(inputPath)];
    var terminal := [StatusWritten(key, TerminalStatus(o)), ExpirySet(key, StatusTtl)];
    RunCommandsSplit(files, inputPath, outputPath, taskId, lib, key);
    RunCommandsSplit(files, inputPath, outputPath, taskId, lib, other);
    StoreCommandsPair(head[0], head[1], key);
    StoreCommandsPair(terminal[0], terminal[1], key);
    StoreCommandsPair(head[0], head[1], other);
    StoreCommandsPair(terminal[0], terminal[1], other);
  }

  /** Only the status writes and the expiry of a run are store commands. */
  lemma RunCommandsSplit(files: set<string>, inputPath: string, outputPath: string, taskId: string, lib: Library, k: string)
    ensures var key, o := StatusKey(taskId), Outcome(files, inputPath, outputPath, lib);
      StoreCommands(RunEvents(files, inputPath, outputPath, taskId, lib), k) ==
        StoreCommands([StatusWritten(key, "processing"), OpenCalled(inputPath)], k) +
        StoreCommands([StatusWritten(key, TerminalStatus(o)), ExpirySet(key, StatusTtl)], k)
  {
    var key, o := StatusKey(taskId), Outcome(files, inputPath, outputPath, lib);
    var head := [StatusWritten(key, "processing"), OpenCalled(inputPath)];
    var calls := PipelineCalls(files, inputPath, outputPath, lib);
    var terminal := [StatusWritten(key, TerminalStatus(o)), ExpirySet(key, StatusTtl)];
    var cleanup: seq<Event> := if inputPath in FilesBeforeCleanup(files, o) then [InputDeleted(inputPath)] else [];
    assert RunEvents(files, inputPath, outputPath, taskId, lib) == head + calls + terminal + cleanup;
    StoreCommandsAppend(head + calls + terminal, cleanup, k);
    StoreCommandsAppend(head + calls, terminal, k);
    StoreCommandsAppend(head, calls, k);
    PipelineCallsAreLibraryCalls(files, inputPath, outputPath, lib);
    NoStoreCommands(calls, k);
    NoStoreCommands(cleanup, k);
  }

  /** The pipeline's events are library calls, never store commands. */
  lemma PipelineCallsAreLibraryCalls(files: set<string>, inputPath: string, outputPath: string, lib: Library)
    ensures var calls := PipelineCalls(files, inputPath, outputPath, lib);
      forall i :: 0 <= i < |calls| ==> calls[i].RemoveCalled? || calls[i].SaveCalled?
  {
  }

  /** The order of a run: "processing" is written before the input is
      opened, the terminal write is immediately followed by its expiry, and
      the input is deleted last, exactly when it exists at that point. */
  lemma RunOrder(files: set<string>, inputPath: string, outputPath: string, taskId: string, lib: Library)
    ensures var events, key := RunEvents(files, inputPath, outputPath, taskId, lib), StatusKey(taskId);
      var o := Outcome(files, inputPath, outputPath, lib);
      events[0] == StatusWritten(key, "processing") && events[1] == OpenCalled(inputPath) &&
      (exists i :: 1 < i < |events| - 1 &&
         events[i] == StatusWritten(key, TerminalStatus(o)) && events[i + 1] == ExpirySet(key, StatusTtl)) &&
      (InputDeleted(inputPath) in events <==> inputPath in FilesBeforeCleanup(files, o)) &&
      (InputDeleted(inputPath) in events ==> events[|events| - 1] == InputDeleted(inputPath))
  {
    var events, key := RunEvents(files, inputPath, outputPath, taskId, lib), StatusKey(taskId);
    var o := Outcome(files, inputPath, outputPath, lib);
    var n := 2 + |PipelineCalls(files, inputPath, outputPath, lib)|;
    assert events[n] == StatusWritten(key, TerminalStatus(o));
    assert events[n + 1] == ExpirySet(key, StatusTtl);
  }

  /** The background remover only ever sees opaque RGB within the size cap. */
  lemma RemoverInput(files: set<string>, inputPath: string, outputPath: string, taskId: string, lib: Library, e: Event)
    requires e in RunEvents(files, inputPath, outputPath, taskId, lib) && e.RemoveCalled?
    ensures e.input.mode == "RGB" && e.input.width <= MaxSide && e.input.height <= MaxSide
  {
  }

  /** A status written by a run reads back as written for `StatusTtl` seconds
      from the terminal write, and then reads as absent: it never returns
      to "processing". */
  lemma TerminalStatusExpires(entries: map<string, Entry>, now: int, taskId: string, o: Result<Saved>, t: int)
    ensures var after := entries[StatusKey(taskId) := Entry(TerminalStatus(o), Some(now + StatusTtl))];
      Visible(after, t, StatusKey(taskId)) == if t < now + StatusTtl then Some(TerminalStatus(o)) else None
  {
    ExpiryWindow(entries, StatusKey(taskId), TerminalStatus(o), now, StatusTtl, t);
  }

  /** The worker process: the shared status store and the filesystem, seen as
      the set of existing paths. `events` records every step taken. */
  class Worker {
    const store: Store
    var files: set<string>
    ghost var events: seq<Event>

    constructor (store: Store, files: set<string>)
      ensures this.store == store && this.files == files && events == []
    {
      this.store := store;
      this.files := files;
      events := [];
    }

    /** One run of the job (app.py:36-97). */
    method ProcessImageTask(inputPath: string, outputPath: string, taskId: string, lib: Library) returns (r: TaskResult)
      modifies this, store
      ensures r == ResultOf(Outcome(old(files), inputPath, outputPath, lib))
      ensures files == FilesAfter(old(files), inputPath, Outcome(old(files), inputPath, outputPath, lib))
      ensures var o := Outcome(old(files), inputPath, outputPath, lib);
        store.entries == old(store.entries)[StatusKey(taskId) := Entry(TerminalStatus(o), Some(old(store.now) + StatusTtl))]
      ensures store.now == old(store.now)
      ensures var o := Outcome(old(files), inputPath, outputPath, lib); var key := StatusKey(taskId);
        store.log == old(store.log) + [SetCommand(key, "processing"), SetCommand(key, TerminalStatus(o)), ExpireCommand(key, StatusTtl)]
      ensures events == old(events) + RunEvents(old(files), inputPath, outputPath, taskId, lib)
    {
      var key := StatusKey(taskId);
      ghost var files0 := files;
      ghost var outcome, calls;
      r, outcome, calls := Attempt(key, inputPath, outputPath, lib);

      // finally:
      ghost var cleanup := RemoveInput(inputPath);

      ghost var run := [StatusWritten(key, "processing"), OpenCalled(inputPath)] + calls
        + [StatusWritten(key, TerminalStatus(outcome)), ExpirySet(key, StatusTtl)] + cleanup;
      assert run == RunEvents(files0, inputPath, outputPath, taskId, lib);
      events := events + run;
    }

    /** The `try` block with its `except` handler (app.py:37-93): mark the job
        as processing, run the pipeline while that status is visible, and
        record the outcome with its one-hour expiry. */
    method Attempt(key: string, inputPath: string, outputPath: string, lib: Library)
      returns (r: TaskResult, ghost outcome: Result<Saved>, ghost calls: seq<Event>)
      modifies this`files, store
      ensures outcome == Outcome(old(files), inputPath, outputPath, lib)
      ensures r == ResultOf(outcome)
      ensures files == FilesBeforeCleanup(old(files), outcome)
      ensures calls == PipelineCalls(old(files), inputPath, outputPath, lib)
      ensures store.entries == old(store.entries)[key := Entry(TerminalStatus(outcome), Some(old(store.now) + StatusTtl))]
      ensures store.now == old(store.now)
      ensures store.log == old(store.log) + [SetCommand(key, "processing"), SetCommand(key, TerminalStatus(outcome)), ExpireCommand(key, StatusTtl)]
    {
      ghost var entries0, now0 := store.entries, store.now;
      var result;
      result, calls := MarkAndRun(key, inputPath, outputPath, lib);
      outcome := result;
      r := RecordOutcome(key, result);
      Overwrite(entries0, key, Entry("processing", None), Entry(TerminalStatus(outcome), Some(now0 + StatusTtl)));
    }

    /** The first part of the `try` block (app.py:39-75): the "processing"
        status is written, and stays visible while the pipeline runs. */
    method MarkAndRun(key: string, inputPath: string, outputPath: string, lib: Library)
      returns (outcome: Result<Saved>, ghost calls: seq<Event>)
      modifies this`files, store
      ensures outcome == Outcome(old(files), inputPath, outputPath, lib)
      ensures files == FilesBeforeCleanup(old(files), outcome)
      ensures calls == PipelineCalls(old(files), inputPath, outputPath, lib)
      ensures store.entries == old(store.entries)[key := Entry("processing", None)]
      ensures store.now == old(store.now)
      ensures store.log == old(store.log) + [SetCommand(key, "processing")]
    {
      store.Set(key, "processing");
      outcome, calls := RunPipeline(inputPath, outputPath, lib, key);
    }

    /** The status write and expiry that end the try block on success, or
        the except clause on failure (app.py:82-93). */
    method RecordOutcome(key: string, outcome: Result<Saved>) returns (r: TaskResult)
      modifies store
      ensures r == ResultOf(outcome)
      ensures store.entries == old(store.entries)[key := Entry(TerminalStatus(outcome), Some(old(store.now) + StatusTtl))]
      ensures store.now == old(store.now)
      ensures store.log == old(store.log) + [SetCommand(key, TerminalStatus(outcome)), ExpireCommand(key, StatusTtl)]
    {
      if outcome.Success? {
        store.Set(key, "completed");
        var applied := store.Expire(key, StatusTtl);
        r := TaskSucceeded(outcome.value.path);
      } else {
        store.Set(key, "error:" + outcome.error);
        var applied := store.Expire(key, StatusTtl);
        r := TaskFailed(outcome.error);
      }
    }

    /** The finally clause (app.py:94-97): delete the input if it exists. */
    method RemoveInput(inputPath: string) returns (ghost deleted: seq<Event>)
      modifies this`files
      ensures files == old(files) - {inputPath}
      ensures deleted == if inputPath in old(files) then [InputDeleted(inputPath)] else []
    {
      deleted := [];
      if inputPath in files {
        files := files - {inputPath};
        deleted := [InputDeleted(inputPath)];
      }
    }

    /** The image work of the try block (app.py:42-79): open, then process
        the opened image. The only state it changes is the filesystem, by
        the saved file. */
    method RunPipeline(inputPath: string, outputPath: string, lib: Library, ghost key: string)
      returns (outcome: Result<Saved>, ghost calls: seq<Event>)
      requires Visible(store.entries, store.now, key) == Some("processing")
      modifies this`files
      ensures outcome == Outcome(old(files), inputPath, outputPath, lib)
      ensures files == FilesBeforeCleanup(old(files), outcome)
      ensures calls == PipelineCalls(old(files), inputPath, outputPath, lib)
    {
      var loaded := if inputPath in files then lib.decode(inputPath) else Failure(MissingFileMessage(inputPath));
      assert loaded == OpenImage(files, inputPath, lib);
      if loaded.Failure? {
        return Failure(loaded.error), [];
      }
      outcome, calls := ProcessOpened(loaded.value, outputPath, lib);
    }

    /** Normalise, cap, remove the background, pick the format and path, and
        save (app.py:44-75); a successful save adds the written file. */
    method ProcessOpened(img: Image, outputPath: string, lib: Library) returns (outcome: Result<Saved>, ghost calls: seq<Event>)
      modifies this`files
      ensures outcome == Processed(img, outputPath, lib)
      ensures files == FilesBeforeCleanup(old(files), outcome)
      ensures calls == ProcessedCalls(img, outputPath, lib)
    {
      var inputImage := Normalize(img);
      if Longest(inputImage.width, inputImage.height) > MaxSide {
        var resized := CapSize(inputImage);
        if resized.width == 0 || resized.height == 0 {
          return Failure(ResizeErrorMessage), [];
        }
        inputImage := resized;
      }
      assert Prepare(img) == Success(inputImage);
      calls := [RemoveCalled(inputImage)];
      var removed := lib.removeBackground(inputImage);
      if removed.Failure? {
        return Failure(removed.error), calls;
      }
      var outputImage := removed.value;
      var format := OutputFormat(outputPath);
      var path := FinalPath(outputPath);
      if format == Jpeg {
        outputImage := ToRgb(outputImage);
      }
      calls := calls + [SaveCalled(path, format)];
      var saveError := lib.save(outputImage, path, format);
      if saveError.Some? {
        return Failure(saveError.value), calls;
      }
      files := files + {path};
      outcome := Success(Saved(path, format, outputImage));
    }
  }
}
