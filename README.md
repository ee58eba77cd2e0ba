# Background-removal service: a Dafny model

The service takes an uploaded image, removes its background in a background
job and lets the browser poll for the result. This project models its core
and proves properties of that model:

- **The job** `process_image_task` (app.py). It writes `processing` to the status key
  `task_<id>` and opens the input. It normalises the colour mode to RGB and caps the
  longer side at 1500 pixels. It calls the background remover, then picks JPEG or PNG
  from the requested extension, rewriting any non-JPEG path to `.png`, and saves. Last,
  it writes `completed` or `error:<message>` with a one-hour expiry and deletes the input
  in every case. It is modelled as the class `Worker.Worker`, whose method
  `ProcessImageTask` works on a status store (`StatusStore.Store`: keys, values, expiry
  instants and a clock) and a filesystem (the set of existing paths). The store keeps a
  ghost log of the commands it receives, and `ProcessImageTask` states exactly which
  commands one run appends to it. The pipeline runs only while the key reads
  "processing". A ghost trace of the worker interleaves those commands with the
  library calls, in order, for the lemmas about ordering.
- **The routes** `upload_file` and `get_status` (app.py), as functions from a request to
  a response. `upload_file` validates the request, builds the file names and starts the
  job. `get_status` reports a stored status.
- **The browser client** (static/js/main.js), as decision functions:
  - which file of a drop is uploaded;
  - how an upload reply is handled;
  - what each status reply makes the polling loop do;
  - a recursive model of the loop itself.
- **Cross-module scenarios** (`Scenarios`): the client's reaction to every status the
  worker writes, and one upload followed by its job.

Modules:

| Module | Contents |
|---|---|
| `Wrappers` | `Option` and `Result` |
| `Text` | character search, ASCII lower-casing, JavaScript `split` |
| `Paths` | `posixpath.splitext`, `basename` and `join` |
| `Imaging` | image value, colour normalisation, size cap, output format and path |
| `StatusStore` | the key-value store |
| `Worker` | the job |
| `Gateway` | the two routes |
| `Client` | the browser |
| `Scenarios` | cross-module scenarios |

Library calls are parameters of the model. They are collected in the datatype
`Worker.Library`: decoding a file, removing the background and saving, and each of them
may fail with a message. Also passed in as parameters:
- the fresh UUID;
- the filename sanitiser;
- the exception raised while storing an upload;
- the browser's JSON parse error.

Where the code and its design description differ, the model follows the code:

- With integer truncation the longer side of a capped image is at most 1500, and exactly
  1500 only on the side that was longest. The float ratio of app.py:59 can make it 1499.
  `CapSize` promises only "at most 1500". `CapSizeKeepsAspect` proves that each side is
  the floor of `side * 1500 / longest` and that the aspect ratio is kept up to truncation.
- The job rewrites a non-JPEG output path to `.png` (app.py:74). The route advertises
  `result_path` from the unrewritten name (app.py:130). So the result URL the browser
  shows names the written file only for `.jpg`/`.jpeg` (any case) or an exact `.png`
  upload (`Gateway.AdvertisedPathIff` with `Imaging.OutputFormatOfAppended`). For `.gif`, `.webp`, `.PNG` or no extension it
  names a file that is never written.
- `get_status` tests `if status:` (app.py:140), so an empty stored value reads as
  `not_found`.
- A 500 reply whose exception message is empty has a falsy `error` field. The browser
  then starts polling with `undefined` for both the path and the id
  (`Scenarios.ClientReadsUploadReply`).
- Rewriting the output path twice equals rewriting it once exactly when the final path
  component contains a non-dot character (`Imaging.FinalPathIdempotentIff`).

## Model

| member | source | states |
|---|---|---|
| Text.SplitOn | static/js/main.js:103 | `split(':')` yields at least one piece, no piece contains the separator, and joining the pieces with it gives back the string |
| Text.Find | static/js/main.js:103 | the first index of a character, or -1 exactly when it does not occur; no earlier position holds it |
| Text.RFind | app.py:67 | the last index of a character, or -1 exactly when it does not occur; no later position holds it |
| Text.SplitAfterPrefix | static/js/main.js:103 | splitting `prefix + sep + rest`, with no separator in `prefix`, gives `prefix` and then the pieces of `rest` |
| Text.FirstPiece | static/js/main.js:103 | the first piece of a split is the text before the first separator, or all of it when there is none, and is a prefix of the string |
| Text.Lower | app.py:67 | `lower()` keeps the length and lower-cases each ASCII letter, leaving every other character unchanged |
| Paths.BaseName | app.py:67 | the final path component has no '/', is a suffix of the path, and is either the whole path or preceded by a '/' |
| Paths.SplitExt | app.py:67 | `splitext` splits the path into a root and an extension that concatenate back to the path |
| Paths.SplitExtShape | app.py:67 | a non-empty extension starts with its only '.', has no '/' and follows a non-dot character of the final component; an empty one means the final component has no dot after a non-dot character |
| Paths.WithExtension | app.py:67 | when the last '.' follows the last '/', with a non-dot character between them, the extension starts at that dot |
| Paths.NoExtension | app.py:67 | otherwise the extension is empty and the final component has no usable dot |
| Paths.SplitExtOfAppended | app.py:74 | splitting `root + ".ext"` gives back `(root, ".ext")` exactly when the final component of `root` has a non-dot character, and `(root + ".ext", "")` otherwise |
| Paths.SplitExtKeepsDirectory | app.py:74 | the root `splitext` returns still holds the whole directory part of the path |
| Paths.Join | app.py:119-120 | `os.path.join`: an absolute second part replaces the first; otherwise the parts are joined with one '/' |
| Imaging.ColourStepOf | app.py:45-54 | RGBA gets a white canvas pasted with its alpha mask; LA, or P with transparency, a canvas with no mask; RGB is kept; every other mode is converted, each exactly when its condition holds |
| Imaging.ToRgb | app.py:54 | converting gives RGB at the same size |
| Imaging.Normalize | app.py:44-54 | the normalised image is RGB and the same size; an RGB image is untouched; the canvas branch drops transparency; the convert branch is `ToRgb` |
| Imaging.Longest | app.py:58 | `max(size)` is one of the two sides and at least both |
| Imaging.CapSize | app.py:56-61 | the image is unchanged exactly when its longer side is at most 1500; afterwards both sides are at most 1500 and neither side grew; mode and transparency are kept |
| Imaging.CheckedCap | app.py:56-61 | the resize raises "height and width must be > 0" exactly when the image is over the cap and a side would scale to 0 in the integer model; otherwise it gives `CapSize`, with both sides at least 1 when it resized |
| Imaging.ScaledSideBounds | app.py:59-60 | in the integer model, a scaled side is at most 1500 and at most the original side, and the longest side becomes exactly 1500 |
| Imaging.ScaledSide | app.py:59-60 | a scaled side is the floor of `side * 1500 / longest`, and it is 0 exactly when `side * 1500 < longest` |
| Imaging.CapSizeKeepsAspect | app.py:58-61 | both sides of a capped image are those floors, and the cross products `w' * h` and `h' * w` differ by less than the original longer side |
| Imaging.JpegHasExtension | app.py:67-68 | a JPEG request has a non-empty extension and a final component with a non-dot character |
| Imaging.OutputFormat | app.py:67-68 | JPEG is selected only for an extension of 4 or 5 characters that starts with '.' |
| Imaging.OutputFormatOfAppended | app.py:66-75 | for a one-dot extension after a final component with a non-dot character, JPEG is selected exactly for ".jpg" or ".jpeg" in any ASCII case, which keeps the path; any other extension is replaced by ".png" |
| Imaging.NoDotIsPng | app.py:66-75 | a path whose final component has no dot is written as PNG with ".png" appended |
| Imaging.PngRootNonDot | app.py:74 | for a PNG request, the root's final component has a non-dot character exactly when the path's has |
| Imaging.FinalPath | app.py:66-75 | a JPEG request writes to the requested path; a PNG request writes to a path ending in ".png" |
| Imaging.RewriteKeepsPathIff | app.py:66-75 | the written path equals the requested one exactly when the request is JPEG or its extension is exactly ".png" |
| Imaging.FormatStable | app.py:66-75 | rewriting the path never changes the format it selects |
| Imaging.FinalPathIdempotentIff | app.py:74 | rewriting twice equals rewriting once exactly when the final component has a non-dot character |
| Imaging.RewritePngPath | app.py:74 | rewriting `root + ".png"` keeps it when `root`'s final component has a non-dot character and appends another ".png" otherwise |
| Imaging.FinalPathCases | app.py:66-75 | the written path is either the requested path or its `splitext` root followed by ".png" |
| Imaging.FinalPathKeepsDirectory | app.py:74 | the written path keeps the requested path's directory part |
| StatusStore.Visible | app.py:139 | GET returns a value exactly when the key exists and has not expired, and then the stored value |
| StatusStore.Store.Set | app.py:39 | SET stores the value, clears any expiry, touches no other key, makes the value read back at once and logs the command |
| StatusStore.Store.Expire | app.py:83 | EXPIRE sets the expiry instant of a visible key, reports whether it applied, changes nothing otherwise and logs the command |
| StatusStore.Store.Get | app.py:139 | GET reads `Visible` at the current instant |
| StatusStore.Store.Advance | app.py:83 | the clock moves forward, and the entries and the command log stay |
| StatusStore.SetThenGet | app.py:39 | a value just SET reads back, and other keys read as before |
| StatusStore.Overwrite | app.py:39-83 | a second write to a key replaces the first entirely |
| StatusStore.ExpiryWindow | app.py:82-83 | after SET and then EXPIRE `ttl` at `t0`, the value reads back before `t0 + ttl` and is gone from then on |
| Worker.StatusKey | app.py:39 | the status key is "task_" followed by the id, and nothing else |
| Worker.OpenImage | app.py:42 | opening a missing file fails with the FileNotFoundError message; otherwise it is the decoder's result |
| Worker.MissingFileMessage | app.py:42 | the FileNotFoundError message is "[Errno 2] No such file or directory: '" followed by the path in single quotes |
| Worker.Prepare | app.py:44-61 | the remover's input is RGB within the cap, and has the same size when the image was already within the cap; preparing fails with the resize error exactly when an oversized image has a side that scales to 0 in the integer model |
| Worker.Outcome | app.py:42-75 | a missing input fails with the FileNotFoundError message; success needs the input, writes to the rewritten path in the format the request selects, and JPEG output is RGB |
| Worker.Processed | app.py:44-75 | after a successful open, success writes to the rewritten path in the format the request selects, and JPEG output is RGB |
| Worker.OutcomeSteps | app.py:42-93 | each step that raises (open, resize, background removal, save) ends the run with that step's message, in order; the run succeeds exactly when no step raises, and then saves the encoded image at the final path |
| Worker.TerminalStatus | app.py:81-93 | the final status is "completed" exactly on success and "error:" followed by the message exactly on failure; it is never "processing" or empty |
| Worker.ResultOf | app.py:85-93 | the returned dictionary reports success with the written path, or failure with the message |
| Worker.FilesBeforeCleanup | app.py:66-75 | before cleanup, success has added the written file and failure has added none |
| Worker.FilesAfter | app.py:94-97 | after the run the input is gone; a failure adds no file; a success keeps its output unless it is the input |
| Worker.StoreCommands | app.py:39-92 | the filtered store commands are events of the run on that key |
| Worker.StoreCommandsAppend | app.py:39-92 | filtering store commands distributes over concatenation |
| Worker.RunStoreCommands | app.py:39-92 | on its own key a run issues exactly SET "processing", SET of the terminal status, and EXPIRE 3600; on any other key it issues nothing |
| Worker.RunCommandsSplit | app.py:39-97 | the run's store commands are the status writes and the expiry and nothing else |
| Worker.PipelineCallsAreLibraryCalls | app.py:42-75 | the image steps only call the library and send no store command |
| Worker.RunOrder | app.py:39-97 | "processing" is written first and the open comes second; the terminal write is followed at once by the expiry; the input is deleted last, and exactly when it existed |
| Worker.RunEvents | app.py:39-97 | the trace of a run has at least four events, and starts with the "processing" write and then the open |
| Worker.RemoverInput | app.py:63-64 | the background remover only receives RGB images within the cap |
| Worker.TerminalStatusExpires | app.py:82-92 | the terminal status reads back for 3600 seconds and is then gone |
| Worker.Worker.ProcessImageTask | app.py:35-97 | one run returns `ResultOf` its outcome, and leaves the filesystem as `FilesAfter`. It leaves the key holding its terminal status, expiring 3600 seconds from the start, with other keys and the clock untouched. It sends the store exactly SET "processing", SET of the terminal status and EXPIRE 3600, and appends its `RunEvents` to the trace |
| Worker.Worker.Attempt | app.py:37-93 | the `try` block and its handler compute `Outcome`, leave the key holding the terminal status with its expiry, and send exactly the three store commands |
| Worker.Worker.MarkAndRun | app.py:39-75 | "processing" is written and stays visible while the pipeline computes `Outcome` |
| Worker.Worker.RecordOutcome | app.py:81-93 | the terminal SET and EXPIRE, sent in that order, and the returned dictionary |
| Worker.Worker.RemoveInput | app.py:94-97 | the input is removed if it exists, and no error occurs when it is missing |
| Worker.Worker.RunPipeline | app.py:42-75 | the image steps, run only while the key reads "processing", compute `Outcome` and change the filesystem only by the saved file |
| Worker.Worker.ProcessOpened | app.py:44-75 | the steps after the open compute `Processed`, stop at a zero-size resize before calling the remover, and add only the saved file |
| Gateway.UploadName | app.py:116 | the stored name is exactly the id, then '_', then the sanitised name |
| Gateway.UploadFile | app.py:103-134 | an oversized body gives 413; no `file` part gives 400 "No file part"; an empty filename gives 400 "No selected file"; a failure while storing gives 500 with its message; a job starts, with code 200, exactly when none of these happen; otherwise no job starts |
| Gateway.UploadNaming | app.py:116-131 | a started job's input is "static/uploads/" + name and its output is "static/results/processed_" + name; the reply carries the id and "/" + the output path |
| Gateway.UuidIsRelative | app.py:115 | UUID text never starts with '/' |
| Gateway.DistinctJobs | app.py:115-120 | different UUIDs give different status keys, stored names, input paths and output paths |
| Gateway.FinalPathKeepsFolder | app.py:74 | the written file stays in any folder the requested output path lies in |
| Gateway.StartedJobKeepsOutput | app.py:94-97 | the written output lies under "static/results/" and is never the input, so cleanup never deletes it |
| Gateway.AdvertisedPathIff | app.py:128-131 | the advertised `result_path` names the written file exactly when the request is JPEG or ends in exactly ".png" |
| Gateway.StatusResponse | app.py:136-145 | a non-empty stored value gives 200 with that status and the id; a missing or empty one gives 404 "not_found" |
| Gateway.GetStatus | app.py:137-145 | the route reads the job's key from the store and answers with `StatusResponse` |
| Gateway.StatusOfWorkerValues | app.py:139-145 | "processing" and every terminal status are reported as written; a missing key is "not_found" |
| Client.HandleFiles | static/js/main.js:40-49 | an empty list does nothing; `files[0]` is uploaded exactly when its type starts with "image/"; otherwise the user is alerted "Please upload an image file" |
| Client.OnlyFirstFileCounts | static/js/main.js:42 | files after the first never change the decision |
| Client.FieldText | static/js/main.js:78 | a missing field reads as "undefined" |
| Client.OnUploadReply | static/js/main.js:72-83 | a failed request, or a non-empty `error` field, gives the alert "Error: " plus the message, and polling never starts; otherwise polling starts with `result_path` and `task_id` |
| Client.OnStatus | static/js/main.js:86-111 | "completed" shows the result, with image and download both at the path and the download named "processed_image.png"; "processing" re-polls after 1000 ms with the same path and id; "error:…" shows an error; every other status stops; a failed fetch or a missing status alerts "Error checking image status" |
| Client.ErrorStatusShape | static/js/main.js:90-100 | a status "error:" + m is neither "completed" nor "processing" and takes the error branch |
| Client.ErrorDetailOf | static/js/main.js:103 | `split(':')[1]` of "error:" + m is m up to its first ':' |
| Client.ErrorDetail | static/js/main.js:103 | `split(':')[1]` is the text after the first ':' up to the next ':' or the end, and contains no ':' |
| Client.ErrorAlert | static/js/main.js:100-103 | for "error:" + m the alert shows m up to its first ':', which is all of m exactly when m has no ':' |
| Client.Poll | static/js/main.js:86-111 | the loop consumes one reply per fetch; every reply before the last one fetched re-polls; it settles on the first action that is not a re-poll, at that reply |
| Client.PollThroughProcessing | static/js/main.js:97-99 | k "processing" replies followed by a settling reply end the loop at fetch k + 1 with that reply's action |
| Client.PollKeepsWaiting | static/js/main.js:97-99 | while every reply is "processing" the loop never ends |
| Scenarios.ClientReadsTerminalStatus | static/js/main.js:90-103 | the browser shows the result for "completed" and the cut-down message for "error:…", and both hide the loading indicator |
| Scenarios.ClientReadsOtherStatuses | static/js/main.js:97-104 | "processing" re-polls; the 404 "not_found" reply stops the loop and leaves the loading indicator shown |
| Scenarios.PollAfterRun | app.py:82-92 | a poll within an hour of the run sees its outcome; a later one sees "not_found" and stops |
| Scenarios.ClientReadsUploadReply | static/js/main.js:72-83 | the browser polls exactly for an accepted upload, with the advertised path and the id; every rejection alerts, except a 500 with an empty message, which polls for "undefined" |
| Scenarios.StatusAfterRun | app.py:82-145 | a status request within an hour of a run gives 200 with "completed" or "error:" + the message and the id; a later one gives 404 "not_found" |
| Scenarios.StartedJobSeparate | app.py:115-120 | a started job's written output is never its input |
| Scenarios.StoredThenCleaned | app.py:94-97 | storing the input, running and deleting it leaves the old files, plus a success's output, minus the input |
| Scenarios.RunStarted | app.py:35-97 | the run of a stored upload leaves the old files plus a success's output minus the input, and the terminal status with its expiry |
| Scenarios.StatusLater | app.py:136-145 | a later status request reads the entries at the advanced clock and changes no entry |
| Scenarios.UploadAndRun | app.py:103-147 | after an upload, its job and a status request `elapsed` seconds later: the input is gone, a success adds exactly its output, and the request reports the terminal status within the hour and "not_found" afterwards |

## Left out

- Flask routing, `render_template`, `jsonify` and `app.run` are replaced by the status codes and string bodies they produce. The 413 page is only a non-JSON body.
- A `file` part whose `filename` is missing (`None`) makes `upload_file` return nothing, which the framework turns into an error. The model's file part always has a name.
- A job whose dispatch fails after `file.save` leaves the upload on disk. The routes do not model the filesystem; `Scenarios.UploadAndRun` stores the upload only for a started job.
- Celery dispatch is modelled as a direct call: no broker, no retries and no concurrency between jobs. Jobs only interact through their own keys (`Gateway.DistinctJobs`).
- Redis connectivity is left out, and the `except` branch of `get_status` (app.py:146-147) is not modelled: the in-memory store never raises.
- PIL pixel work is left out. Pixel results of `paste`, `convert` and `resize`, JPEG/PNG encoding, `quality` and `optimize`, and `close()` are library internals. An image is its mode, size and whether `info` has `transparency`.
- `Imaging.ToRgb`: `convert` is assumed to carry `info` over. The model does not say what PIL does with a `transparency` entry.
- `paste` and `convert` are taken never to raise. `resize` raises only for a zero side (`Imaging.CheckedCap`). Decoding, background removal and saving can fail with the library's message.
- `Worker.Outcome`: a failed save is taken to leave no file behind.
- The `rembg` call is an opaque function of the image that may fail.
- `Imaging.CheckedCap`: states the integer model, and so does `Worker.Prepare`. When `side * 1500 == longest` exactly (a 49×73500 image, say), the float ratio of app.py:59 can give `int(...) == 0`, so the program's resize raises while the model scales that side to 1 and goes on.
- `Worker.MissingFileMessage`: quotes the path with single quotes as it stands. Python shows `repr(path)`, which uses double quotes for a path holding `'` and escapes `\` and control characters. The paths the routes build (a UUID and a sanitised name) hold none of these.
- `Imaging.ScaledSideBounds`: states the integer model. With the float ratio of app.py:59 the longest side can come out as 1499, not 1500.
- `Imaging.CapSize`: uses integer arithmetic, not the float ratio of app.py:59. It does not claim that the longer side becomes exactly 1500, because the float version can give 1499.
- `Text.Lower` lower-cases ASCII letters only. This is exact for the ".jpg"/".jpeg" test, since no other character lower-cases to one of those letters.
- `uuid.uuid4` and `secure_filename` are parameters. A UUID is only required to be 36 lower-case hex digits or dashes.
- `os.makedirs` and the file bytes are I/O, and are left out.
- The store's clock does not advance during a run. Both terminal commands use the instant at which the run started.
- main.js DOM updates, `FileReader` previews, `fetch`, `setTimeout` timing and CSS changes are left out. They are represented by the action each decision selects. `Client.Poll` models the loop over a finite sequence of replies.
- JSON bodies are maps from string to string. A non-string `status` field, which would also make `.startsWith` throw, is not modelled.
