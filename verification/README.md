# mp4-to-gif: a Dafny model of the conversion pipeline and its decision functions

This project models the deterministic core of the mp4-to-gif system and proves
properties about it:

- **The worker's per-job pipeline** (`processConversionJob`). The record store,
  the filesystem checks, the probe, the transcoder and the storage cleanup are
  oracles whose outcomes are parameters. One attempt is a pure function. It
  returns the ordered record writes, whether the input was probed, transcoded
  and deleted, how often cleanup ran, and how the attempt settled: resolved,
  thrown after `job.discard()`, or thrown for a retry.
- **The transcoder's progress filter** (`convertVideo`). It maps a finite trace
  of raw ffmpeg progress events to callback invocations, including the forced
  100 on end.
- **The limit validator** (`validateVideo`, `getVideoMetadata`), with the
  worker's limits: 1024 by 768 pixels and 10 seconds.
- **The Conversion record.** This covers the schema, the status enum, the
  defaults on creation and the partial updates the worker issues. It also
  models the store those updates are applied to, and the sequence of statuses
  a record goes through, across redeliveries too.
- **The server's pure checks:**
  - the bearer-header parsing of `authenticate`;
  - the email and password rules of `validateRequest`;
  - the error handler's mapping of errors to status, body and log level;
  - the `/app/output/:filename` route: filename normalisation, the
    string-prefix confinement test, and the response.
- **The client's logic:**
  - file pre-validation (both copies);
  - the dashboard counts;
  - the polling state machine of the progress view;
  - both authentication services over the two `localStorage` keys;
  - the route guard;
  - the download button's filename computation.

Modules follow the source files:

| module | source file |
|---|---|
| `Wrappers` | values that can be thrown, optional values, results |
| `Strings` | string helpers |
| `Paths` | Node's `path.join` / `path.basename` |
| `ConversionModel` | `conversion.model.ts` |
| `Converter` | `converter/index.ts` |
| `Validator` | `validator.ts` |
| `Processor` | `processor.ts` |
| `PipelinePaths`, `PipelineRecords` | properties of whole attempts and of the records they leave |
| `ServerAuth`, `ServerErrors`, `DownloadRoute` | the server |
| `FileValidation`, `Dashboard`, `ProgressView`, `ClientSession`, `CoreSession`, `FeatureSession`, `SessionComparison`, `AuthGuard`, `DownloadButton` | the client |

Two flag parameters select between the code as written and a corrected
version:

- **The fatal-phrase test.** `Processor.AsWrittenPhrases` is the list the code
  tests for; `Processor.FixedPhrases` is the corrected list.
- **The confinement test.** `strict` in `DownloadRoute.Download` selects the
  corrected test.

See "Findings" for both.

## Behaviour of the code that the model keeps

- **Status transitions are not forward-only.**
  - Every attempt begins by writing `processing`, progress 0 and no error
    (worker/src/services/queue/processor.ts:55-59). So a retryable failure's
    `failed` record returns to `processing` when the job is redelivered
    (`PipelineRecords.RedeliveryReentersProcessing`,
    `PipelineRecords.RetriedTwiceThenCompleted`).
  - The `completed` write (processor.ts:105-109) and the input cleanup
    (processor.ts:114) share one `try`. A cleanup that throws sends the
    attempt through both handlers, which overwrite `completed` with `failed`
    (`PipelinePaths.CleanupFailsAfterCompleted`).
- **An oversized video is retried.** The comment at processor.ts:122 says
  validation errors should fail without a retry. The test at processor.ts:123
  looks for "exceeds maximum allowed". The dimension message at
  worker/src/utils/validator.ts:20 says "exceed", so an oversized video is
  retried (see Findings).
- **Unreadable input is retried.** A probe failure and "No video stream found"
  (validator.ts:40-51) do not carry the tested phrase, so processor.ts:137-138
  rethrows them for a retry (`PipelinePaths.NoVideoStreamIsRetried`).
- **A fatal failure writes `failed` twice.** The inner handler writes it
  (processor.ts:124-127) and rethrows. The outer handler then writes it again
  (processor.ts:145-148).
- **The input is deleted only after success or a fatal failure.** These are
  the only two `cleanup` calls (processor.ts:114 and 130). A retried attempt
  keeps its input.
- **The worker issues no notification of its own.** The client learns of a
  finished conversion by polling its status
  (client/src/app/features/conversion/components/conversion-progress/conversion-progress.component.ts:110).
- **Progress writes are ordered by callback.**
  - Each progress callback awaits `job.progress` before it issues its store
    write (processor.ts:95-100).
  - The transcoder calls the callback for its forced 100 and fulfils without
    awaiting it (worker/src/services/converter/index.ts:58-64). So the store
    write for that 100 is normally issued after `completed`
    (processor.ts:105).
  - In the same way, progress writes still pending when the transcoder fails
    can follow `failed` (processor.ts:145).
  - The model places every progress write, in callback order, before the
    terminal write. `PipelineRecords.DeferredProgressAfterSuccess` and
    `PipelineRecords.DeferredProgressAfterFailure` prove that any trailing
    run of them issued after the terminal writes, still in callback order,
    leaves the same record.

## Model

| member | source | states |
|---|---|---|
| ConversionModel.ParseStatus | worker/src/models/conversion.model.ts:38-42 | a stored status string is accepted exactly when it names one of the four states of the enum |
| ConversionModel.StatusNameRoundTrip | worker/src/models/conversion.model.ts:38-42 | every status survives the round trip through its stored name |
| ConversionModel.MissingRequired | worker/src/models/conversion.model.ts:22-34 | `userId`, `originalFileName` and `inputPath` are reported missing exactly when they are absent or empty |
| ConversionModel.Create | worker/src/models/conversion.model.ts:21-72 | a record is created exactly when the required paths are present; it then starts `pending` with progress 0, each metadata field the supplied value or 0 when none is supplied, `outputPath` as given and no error |
| ConversionModel.Apply | worker/src/services/queue/processor.ts:55-148 | each update the worker issues sets exactly its own fields: `processing` resets progress and clears the error, `completed` sets progress 100 and the output path, `failed` sets the error and keeps progress; identity fields never change |
| ConversionModel.ApplyWrite | worker/src/services/queue/processor.ts:55-59 | a write changes only the record it names; a write to an unknown id changes nothing |
| ConversionModel.ApplyAll | worker/src/services/queue/processor.ts:55-148 | the worker's `findByIdAndUpdate` calls, applied in order, never create or delete a record: the store keeps exactly its ids |
| ConversionModel.ApplyAllAppend | worker/src/services/queue/processor.ts:42-152 | applying writes in issue order composes: two batches in sequence equal their concatenation |
| ConversionModel.ApplyAllOtherRecords | worker/src/services/queue/processor.ts:42-152 | records not targeted by any write are left alone |
| ConversionModel.ApplyAllKeepsBounds | worker/src/models/conversion.model.ts:64-69 | writes whose progress values respect 0..100 keep every record within the schema's progress bounds |
| ConversionModel.ApplyAllKeepsIdentity | worker/src/models/conversion.model.ts:22-34 | `userId`, `originalFileName` and `inputPath` of a record never change under the worker's writes |
| Converter.Mapped | worker/src/services/converter/index.ts:38 | a raw event maps to min(100, percent), a missing percent to 0 |
| Converter.FilterFrom | worker/src/services/converter/index.ts:25-50 | the values the handler fires are strictly increasing and each lies above the running last value and at most 100 |
| Converter.FilterIsRecords | worker/src/services/converter/index.ts:37-50 | the forward filter with its running `lastProgress` equals the independent definition: event k fires iff its mapped value beats every earlier one and 0 |
| Converter.ConvertVideo | worker/src/services/converter/index.ts:23-74 | callbacks are strictly increasing within 1..100; the promise fulfils iff the run ends and rejects with the transcoder's error otherwise; with a callback, an ended run's last callback is 100; without one, no callback |
| Converter.AtMostHundredCallbacks | worker/src/services/converter/index.ts:25-62 | at most 100 callbacks fire in one conversion, the forced 100 included |
| Converter.EndFiresHundredOnce | worker/src/services/converter/index.ts:58-64 | on end, 100 is forced exactly when the last fired value is below 100, and 100 fires exactly once |
| Converter.ErrorForcesNothing | worker/src/services/converter/index.ts:66-69 | on error the promise rejects and the callbacks are only the filtered events, with no forced 100 |
| Converter.CallbackDoesNotAffectOutcome | worker/src/services/converter/index.ts:36-62 | leaving out `onProgress` fires nothing and does not change how the conversion settles |
| Validator.FirstVideoStream | worker/src/utils/validator.ts:48 | the index found is the first stream whose type is video; none is found exactly when no stream is a video |
| Validator.GetVideoMetadata | worker/src/utils/validator.ts:40-60 | a probe failure is rethrown, no video stream gives "No video stream found", and otherwise the first video stream's width and height and the container duration are returned with missing values as 0 |
| Validator.CheckLimits | worker/src/utils/validator.ts:18-29 | metadata passes iff neither dimension nor duration exceeds its limit, and is then returned unchanged; oversized dimensions are reported before the duration |
| Validator.ValidateVideo | worker/src/utils/validator.ts:15-30 | probe errors propagate; probed metadata is checked against the limits |
| Validator.LimitsAreInclusive | worker/src/utils/validator.ts:19-24 | values equal to the limits pass |
| Validator.MissingValuesPass | worker/src/utils/validator.ts:53-57 | a video stream without width, height or duration passes as 0 x 0 x 0 |
| Validator.DurationMessageIsFatal | worker/src/utils/validator.ts:25 | the duration message contains "exceeds maximum allowed" |
| Validator.DimensionMessageIsNotFatal | worker/src/utils/validator.ts:20 | the dimension message does not contain "exceeds maximum allowed" |
| Validator.DimensionMessageHasSingularPhrase | worker/src/utils/validator.ts:20 | the dimension message contains "exceed maximum allowed" |
| Validator.NoVideoStreamIsNotFatal | worker/src/utils/validator.ts:50 | "No video stream found" carries neither phrase |
| Strings.BeforeFirst | server/app.js:35 | `split(c)[0]`: the result is a prefix without `c`, and when shorter than the input it stops exactly at the first `c` |
| Strings.KeepOnly | client/src/app/download-button.component.ts:26 | the regex `replace` with a negated class: every character left is one the class allows, and the result is no longer than the input |
| Strings.KeepOnlyAppend | client/src/app/download-button.component.ts:26 | the filter distributes over concatenation, so the kept characters keep their order |
| Strings.KeepOnlyCounts | client/src/app/download-button.component.ts:26 | every occurrence of an allowed character is kept and every other character is dropped |
| Strings.Utf16Length | server/src/middleware/auth.ts:79 | `.length` counts UTF-16 units: between one and two per character, and exactly one per character when none lies outside the Basic Multilingual Plane |
| Paths.ResolveFrom | worker/src/services/queue/processor.ts:46-47 | resolving leaves only real segments: none empty, none ".", none with a separator, and no ".." in an absolute path |
| Paths.Normalize | server/app.js:44 | the normalised path is never empty, is absolute exactly when the input is, and ends in a separator exactly when the input does or it is the root |
| Paths.Join | server/app.js:44 | the joined path is never empty and is absolute exactly when the first non-empty argument is |
| Paths.Basename | worker/src/services/queue/processor.ts:46-47 | the basename is the whole last segment: it has no separator, ends the path with its trailing separators removed, and is either all of that path or preceded in it by a separator |
| Paths.JoinPlainName | server/app.js:43-44 | joining a plain name onto a canonical absolute directory appends it after a separator, and the result lies below the directory |
| Paths.BasenameOfChild | worker/src/services/queue/processor.ts:46-47 | the basename of a plain name, or of any directory followed by it, is that name |
| Processor.EnvOr | worker/src/services/queue/processor.ts:46-47 | an unset or empty environment variable gives the built-in directory; otherwise its value is used |
| Processor.ProgressWrites | worker/src/services/queue/processor.ts:95-100 | each callback value issues one progress write of that value, in order |
| Processor.OuterCatch | worker/src/services/queue/processor.ts:140-151 | the outer handler appends one `failed` write with the error's message (or "Unknown error occurred") and rethrows |
| Processor.InnerCatch | worker/src/services/queue/processor.ts:121-139 | a fatal error writes `failed`, cleans up once and is discarded if cleanup succeeds (a cleanup error replaces it otherwise); any other error goes to the outer handler unchanged |
| Processor.AfterTranscode | worker/src/services/queue/processor.ts:104-139 | after the transcoder, the attempt settles with the job's own writes and `completed` last exactly when it resolves; the progress writes are ordered by callback, before the terminal write (see `PipelineRecords.DeferredProgressAfterSuccess` for the order the store can receive them in) |
| Processor.AfterStat | worker/src/services/queue/processor.ts:69-139 | after `fs.stat`, the attempt settles the same way and has probed the input |
| Processor.AfterStart | worker/src/services/queue/processor.ts:61-151 | after the `processing` write, the attempt settles; a missing input is never probed or cleaned up |
| Processor.RunAttempt | worker/src/services/queue/processor.ts:42-152 | every attempt starts with `processing` (progress 0, error cleared), writes only its own record within bounds, never re-enters `processing`, ends in `completed` iff it resolves (input deleted once, after a transcode) and otherwise in `failed` with the thrown error's message; a discarded job's input was deleted |
| PipelinePaths.InputDirectoryPartIgnored | worker/src/services/queue/processor.ts:46 | a directory part in the job's input path never changes the file read |
| PipelinePaths.OutputDirectoryPartIgnored | worker/src/services/queue/processor.ts:47 | a directory part in the job's output path never changes the file written |
| PipelinePaths.InputConfinedToUploadDir | worker/src/services/queue/processor.ts:46 | under a canonical upload directory, an input with a plain basename is read directly inside it |
| PipelinePaths.OutputConfinedToOutputDir | worker/src/services/queue/processor.ts:47 | under a canonical output directory, an output with a plain basename is written directly inside it |
| PipelinePaths.DefaultDirsAreCanonical | worker/src/services/queue/processor.ts:46-47 | "/app/uploads" and "/app/output" are canonical absolute directories |
| PipelinePaths.MissingInputFile | worker/src/services/queue/processor.ts:62-66 | a missing input writes `processing`, then `failed` with "Input file not found at <path>"; nothing is probed, transcoded or deleted, and the error is rethrown for a retry |
| PipelinePaths.StatFailure | worker/src/services/queue/processor.ts:69-150 | a failing `fs.stat` writes `failed` with its message and is rethrown before anything is probed |
| PipelinePaths.FatalValidationFailure | worker/src/services/queue/processor.ts:121-150 | a fatal validation error writes `failed` twice, deletes the input and discards the job; a throwing cleanup replaces the error and the job is retried |
| PipelinePaths.RetryableValidationFailure | worker/src/services/queue/processor.ts:137-150 | any other validation error writes `failed` once, keeps the input and is rethrown for a retry |
| PipelinePaths.ReachedTranscoder | worker/src/services/queue/processor.ts:72-102 | an attempt that passed validation has issued `processing`, the metadata write and one progress write per callback, ordered by callback and placed before whatever follows the transcoder |
| PipelinePaths.TranscodeFailure | worker/src/services/queue/processor.ts:92-150 | a retryable transcoder error appends one `failed` write after the progress writes, ordered by callback, and is rethrown; the input is kept |
| PipelinePaths.FatalTranscodeFailure | worker/src/services/queue/processor.ts:121-150 | a transcoder error with the fatal phrase is handled like a fatal validation error |
| PipelinePaths.SuccessfulRun | worker/src/services/queue/processor.ts:55-120 | on success the writes, with progress ordered by callback, are `processing`, metadata, the progress writes, then `completed` with the job's own output path; the input is deleted exactly once and the attempt resolves |
| PipelinePaths.CleanupFailsAfterCompleted | worker/src/services/queue/processor.ts:104-150 | a cleanup that throws after `completed` appends `failed` (twice if its message is fatal), keeps the input and is rethrown |
| PipelinePaths.ResolvedIffEverythingSucceeds | worker/src/services/queue/processor.ts:42-152 | an attempt resolves exactly when the input exists, `stat`, validation, transcode and cleanup all succeed |
| PipelinePaths.DiscardedIffFatal | worker/src/services/queue/processor.ts:121-135 | a job is discarded exactly when validation or the transcoder raises a fatal error and the cleanup that follows succeeds |
| PipelinePaths.MetadataWrittenIffValidated | worker/src/services/queue/processor.ts:69-85 | the metadata write occurs exactly when validation succeeds, as the second write, with the probed values and the `stat` size |
| PipelinePaths.LimitFailuresFatalWhenFixed | worker/src/utils/validator.ts:19-26 | with the corrected phrase list, every limit violation is classified fatal |
| PipelinePaths.DurationViolationIsDiscarded | worker/src/services/queue/processor.ts:121-135 | a video that is too long is discarded and its input deleted |
| PipelinePaths.DimensionViolationIsRetried | worker/src/services/queue/processor.ts:123 | as written, an oversized video writes `failed` once, keeps its input and is rethrown for a retry |
| PipelinePaths.DimensionViolationDiscardedWhenFixed | worker/src/services/queue/processor.ts:121-135 | with the corrected test, an oversized video is discarded and its input deleted |
| PipelinePaths.NoVideoStreamIsRetried | worker/src/utils/validator.ts:48-51 | a probe without a video stream is retried under either test |
| PipelineRecords.ProgressWritesStoreNoStatus | worker/src/services/queue/processor.ts:98-100 | progress writes never change a record's status |
| PipelineRecords.ProgressWritesEffect | worker/src/services/queue/processor.ts:95-100 | progress writes change nothing but progress, which ends at the last value written |
| PipelineRecords.FinalStatusIsLastTraced | worker/src/services/queue/processor.ts:42-152 | a record's final status is the last status its writes store, or its old status if they store none |
| PipelineRecords.AttemptStatusTrace | worker/src/services/queue/processor.ts:42-152 | one attempt stores `processing` then one of: `completed`; `failed`; `failed` twice; `completed`, `failed`; `completed`, `failed`, `failed` |
| PipelineRecords.RecordAfterAttempt | worker/src/services/queue/processor.ts:42-152 | after an attempt the record is `completed` exactly when the attempt resolved, else `failed` with the message of the error thrown to the queue; other records are untouched |
| PipelineRecords.RecordAfterSuccess | worker/src/services/queue/processor.ts:55-109 | a successful attempt leaves the record `completed`, progress 100, the job's output path, the probed metadata with the `stat` size, no error, identity unchanged |
| PipelineRecords.AttemptKeepsProgressInBounds | worker/src/models/conversion.model.ts:64-69 | an attempt keeps every record's progress within 0..100 |
| PipelineRecords.RedeliveryReentersProcessing | worker/src/services/queue/processor.ts:55-59 | after a failed attempt the redelivery turns the `failed` record back to `processing`, progress 0, error cleared |
| PipelineRecords.AttemptStartsOnce | worker/src/services/queue/processor.ts:55-59 | each attempt writes `processing` exactly once |
| PipelineRecords.LastDeliveryDecides | worker/src/services/queue/processor.ts:42-152 | over any number of deliveries, `processing` is written once per delivery and the record ends `completed` exactly when the last delivery resolves |
| PipelineRecords.RetriedTwiceThenCompleted | worker/src/services/queue/processor.ts:42-152 | missing input, then a transcoder error, then success: the record goes processing, failed, processing, failed, processing, completed and ends with progress 100 |
| PipelineRecords.DeliverAll | worker/src/services/queue/processor.ts:42-152 | the writes of successive deliveries of one job all target that job's record |
| PipelineRecords.DeferredProgressAfterFailure | worker/src/services/queue/processor.ts:95-148 | progress writes still pending when the transcoder fails, issued after the `failed` writes in callback order, leave the same record as the in-order writes |
| PipelineRecords.DeferredProgressAfterSuccess | worker/src/services/converter/index.ts:58-64 | a trailing run of progress writes issued after `completed`, in callback order, leaves the same record as the in-order writes, because on success the last callback is 100 |
| PipelineRecords.FinalRecordAfter | worker/src/services/queue/processor.ts:104-109 | whatever came before, a successful attempt leaves its record `completed` with progress 100 |
| ServerErrors.AsApiError | server/src/middleware/errorHandler.ts:15-19 | a non-`ApiError` becomes a 500 "Internal Server Error" that keeps its stack; an `ApiError` is kept as it is |
| ServerErrors.HandleError | server/src/middleware/errorHandler.ts:13-42 | the status sent equals the body's code; an `ApiError`'s status and message pass through; the stack is in the body only in development; status >= 500 logs at error level with the stack, anything else at warn level without it |
| ServerErrors.ConversionIsIdempotent | server/src/middleware/errorHandler.ts:13-19 | converting an error twice is converting it once, and handling a converted error is handling the original |
| ServerErrors.UnexpectedErrorsAreIndistinguishable | server/src/middleware/errorHandler.ts:15-25 | outside development, any two unexpected errors get the same 500 status and body |
| ServerErrors.ClientErrorPassesThrough | server/src/middleware/errorHandler.ts:34-42 | an `ApiError` below 500 is sent with its own code and message and logged as a client error without its stack |
| ServerAuth.BearerToken | server/src/middleware/auth.ts:41 | the token taken from a bearer header contains no space |
| ServerAuth.ValidateToken | server/src/services/auth/auth.service.ts:71-78 | a token is accepted exactly when the verifier decodes it, with the decoded user id; otherwise 401 "Invalid or expired token" |
| ServerAuth.Authenticate | server/src/middleware/auth.ts:30-49 | no header or one not starting with "Bearer " gives 401 "Authentication required" without validating a token; otherwise the outcome is the token's validation |
| ServerAuth.TokenIsSecondField | server/src/middleware/auth.ts:41 | the token validated is exactly the text between the first and second space, possibly empty |
| ServerAuth.NoBearerNoVerification | server/src/middleware/auth.ts:36-39 | without a bearer header the verifier is never consulted |
| ServerAuth.EmailFormatMatchesPattern | server/src/middleware/auth.ts:73 | the email regular expression holds exactly when the string has no whitespace, exactly one '@' after a non-empty local part, and a '.' in the domain that is neither first nor last |
| ServerAuth.EmailProblem | server/src/middleware/auth.ts:71-75 | an empty or absent email gives "Email is required"; a present one that fails the pattern gives "Invalid email format"; otherwise none |
| ServerAuth.PasswordProblem | server/src/middleware/auth.ts:77-81 | an empty or absent password gives "Password is required"; a present one shorter than 6 UTF-16 units gives "Password must be at least 6 characters long"; otherwise none |
| ServerAuth.ValidateRequest | server/src/middleware/auth.ts:64-88 | the request proceeds exactly when both fields are fine; otherwise a 400 error |
| ServerAuth.RejectionMessage | server/src/middleware/auth.ts:83-85 | the 400 message names the email problem first and the password problem second, joined by ", " |
| ServerAuth.ShortestEmailPasses | server/src/middleware/auth.ts:73 | "a@b.c" passes the email pattern |
| ServerAuth.DotRequired | server/src/middleware/auth.ts:73 | "a@bc" fails it: the domain needs a '.' |
| ServerAuth.SecondAtRejected | server/src/middleware/auth.ts:73 | "a@b@c.d" fails it: a second '@' is refused |
| DownloadRoute.NormalizeFilename | server/app.js:35-40 | the name looked up starts with the parameter up to its first '?', has no '?', and ends in ".gif"; when that part does not already end in ".gif", the result is it followed by exactly ".gif", and otherwise it is that part unchanged |
| DownloadRoute.NormalizeFilenameIdempotent | server/app.js:35-40 | normalising a normalised name changes nothing |
| DownloadRoute.Download | server/app.js:31-104 | 403 exactly when the joined path fails the confinement test; 404 with the listing when the file is absent; otherwise streamed with `image/gif`, the size, and the normalised name in `Content-Disposition`; a 500 through the error handler comes only from a failing listing or a failing `stat` of a file that exists, never for an absent file |
| DownloadRoute.ForbiddenBeforeFilesystem | server/app.js:47-57 | a refused path gets 403 whatever the filesystem holds |
| DownloadRoute.PrefixCheckAdmitsSibling | server/app.js:43-49 | as written, a name such as "../o2/x.gif" under output directory "/o" is streamed from the sibling directory, which does not lie below "/o" |
| DownloadRoute.StrictCheckConfines | server/app.js:47 | with the separator added to the test, every streamed file lies below the output directory |
| DownloadRoute.StrictCheckAdmitsPlainNames | server/app.js:43-49 | the stricter test refuses no name without separators |
| Dashboard.CountActive | client/src/app/features/dashboard/services/dashboard.service.ts:30 | the active count is the number of `pending` plus the number of `processing` conversions |
| Dashboard.ConversionStats | client/src/app/features/dashboard/services/dashboard.service.ts:28-35 | `total` is the number of conversions, `active` counts the pending and processing ones, and active <= total |
| Dashboard.ActiveCountMatchesList | client/src/app/features/dashboard/components/conversion-list/conversion-list.component.ts:162-166 | the dashboard counts an active conversion exactly when the list's `hasActiveConversions` holds |
| Dashboard.AllActiveIffNoneFinished | client/src/app/features/dashboard/services/dashboard.service.ts:30-33 | active equals total exactly when no conversion has finished |
| ProgressView.Run | client/src/app/features/conversion/components/conversion-progress/conversion-progress.component.ts:108-138 | a view that is not polling receives no tick and emits nothing; polling never restarts; a view that emitted `completed` ends showing `completed` and no longer polls |
| ProgressView.OnInit | client/src/app/features/conversion/components/conversion-progress/conversion-progress.component.ts:108-115 | initialisation starts polling and changes nothing else |
| ProgressView.CheckStatus | client/src/app/features/conversion/components/conversion-progress/conversion-progress.component.ts:121-138 | a response overwrites status, progress, error and output path; `completed` is emitted exactly for a completed response; polling stops exactly on a completed or failed response; a failed request changes nothing |
| ProgressView.CompletedEmittedAtMostOnce | client/src/app/features/conversion/components/conversion-progress/conversion-progress.component.ts:129-131 | over any run of polls, `completed` is emitted at most once, and never by a view that is not polling |
| ProgressView.PollingMeansUnfinished | client/src/app/features/conversion/components/conversion-progress/conversion-progress.component.ts:129-134 | a view still polling after a run shows an unfinished conversion |
| ProgressView.NoCompletionNoEmission | client/src/app/features/conversion/components/conversion-progress/conversion-progress.component.ts:129-134 | without a completed answer the view never emits, so a failed conversion stops polling silently |
| ProgressView.FailedRequestsChangeNothing | client/src/app/features/conversion/components/conversion-progress/conversion-progress.component.ts:135-137 | failed requests alone leave the view exactly as it was, still polling |
| ProgressView.StatusText | client/src/app/features/conversion/components/conversion-progress/conversion-progress.component.ts:140-153 | `pending` reads "Preparing conversion...", `processing` "Converting video...", `completed` "Conversion completed!" and `failed` "Conversion failed", each caption for its status only |
| ProgressView.StatusTextIsInjective | client/src/app/features/conversion/components/conversion-progress/conversion-progress.component.ts:140-152 | different statuses get different captions |
| FileValidation.SizeLimitMessage | client/src/app/features/conversion/services/conversion.service.ts:55 | the message states the limit in MB, 10 MiB divided by 1024 * 1024 |
| FileValidation.ValidateFile | client/src/app/features/conversion/services/conversion.service.ts:49-59 | the result is null exactly when the type is video/mp4 and the size is at most the limit; a wrong type gives "Only MP4 videos are allowed" whatever the size; an oversize MP4 gives the size message |
| FileValidation.TypeCheckedBeforeSize | client/src/app/core/services/conversion.service.ts:81-83 | a wrong type is reported the same whatever the size |
| FileValidation.LimitIsInclusive | client/src/app/core/services/conversion.service.ts:85 | exactly 10 MiB passes and one byte more is refused |
| FileValidation.SizeLimitMessageText | client/src/environments/environment.ts:5 | the size message reads "File size must not exceed 10MB" |
| ClientSession.Logout | client/src/app/core/services/auth.service.ts:62-66 | both keys are removed and there is no current user |
| ClientSession.SignedIn | client/src/app/core/services/auth.service.ts:79-82 | both keys are stored, the user as its serialisation, and the user becomes current |
| CoreSession.LoadStoredUser | client/src/app/core/services/auth.service.ts:34-48 | after construction either both keys remain and the current user is the parsed stored user (or null), or both keys are removed and there is no user; a stored user that parses to null keeps both keys with no user; missing or empty keys clear storage and leave no user |
| CoreSession.HandleAuthResponse | client/src/app/core/services/auth.service.ts:78-88 | a response with a non-empty token and a user is stored; any other clears both keys and throws |
| CoreSession.CompleteAuthRequest | client/src/app/core/services/auth.service.ts:50-60 | a failed request propagates without touching state; a response is handled |
| CoreSession.AuthenticatedIffResponseAccepted | client/src/app/core/services/auth.service.ts:72-88 | after a response the service is authenticated exactly when the response was accepted |
| CoreSession.LogoutSignsOut | client/src/app/core/services/auth.service.ts:62-76 | after logout the service is not authenticated and `getToken` returns nothing |
| CoreSession.RestoredSessionIsConsistent | client/src/app/core/services/auth.service.ts:34-48 | a restored session is authenticated exactly when it has a current user |
| CoreSession.LoadStoredUserIsIdempotent | client/src/app/core/services/auth.service.ts:34-48 | restoring again from the storage a restore leaves changes nothing |
| CoreSession.ReloadRestoresSession | client/src/app/core/services/auth.service.ts:78-82 | when parsing reads back what serialising wrote, a reload after an accepted response restores exactly that session |
| AuthGuard.CanActivate | client/src/app/core/guards/auth.guard.ts:15-23 | allows exactly an authenticated session, leaving it unchanged; otherwise logs out and redirects to /auth/login |
| AuthGuard.CanActivateChild | client/src/app/core/guards/auth.guard.ts:25-27 | decides exactly as `canActivate` |
| AuthGuard.GuardIsStable | client/src/app/core/guards/auth.guard.ts:15-23 | asking again in the state the guard leaves gives the same decision and changes nothing |
| AuthGuard.RestoredSessionPassesIffUser | client/src/app/core/guards/auth.guard.ts:16-18 | a session restored from storage passes exactly when a user was restored |
| FeatureSession.Restore | client/src/app/features/auth/services/auth.service.ts:25-32 | construction never changes storage, restores the parsed user only when both keys are non-empty, and throws only when the stored user does not parse |
| FeatureSession.SetAuthData | client/src/app/features/auth/services/auth.service.ts:72-81 | a response with a token and a user is stored; otherwise it throws (a null response with a type error) and leaves the session untouched |
| FeatureSession.CompleteAuthRequest | client/src/app/features/auth/services/auth.service.ts:34-56 | a failed login or register rethrows without touching the session; any failure leaves it unchanged |
| FeatureSession.SignInThenLogout | client/src/app/features/auth/services/auth.service.ts:58-81 | an accepted response signs in, and logout signs out |
| FeatureSession.ReloadRestoresSession | client/src/app/features/auth/services/auth.service.ts:25-32 | when parsing reads back what serialising wrote, construction over the stored keys restores the session |
| SessionComparison.CoreSignedInImpliesFeatureSignedIn | client/src/app/features/auth/services/auth.service.ts:68-70 | whatever the core service counts as signed in, the feature service does too |
| SessionComparison.TokenWithoutUser | client/src/app/features/auth/services/auth.service.ts:27-31 | a stored token without a user: the feature service is signed in without a user, the core service clears storage and is signed out |
| SessionComparison.InvalidResponseHandling | client/src/app/features/auth/services/auth.service.ts:77-80 | an invalid response clears the core service's storage but leaves the feature service's session unchanged |
| DownloadButton.CleanName | client/src/app/download-button.component.ts:24-26 | the cleaned name holds only letters, digits, '-', '_' and '.', keeps every occurrence of those characters before the first '?', and is no longer than the input; a ".gif" ending before the first '?' survives cleaning |
| DownloadButton.CleanNameSplits | client/src/app/download-button.component.ts:25-26 | for a name without '?', the cleaned name of `a + b` is the kept characters of `a` followed by those of `b`, in order |
| DownloadButton.CleanNameKeepsPlainNames | client/src/app/download-button.component.ts:24-26 | a name of allowed characters without '?' is its own cleaned form |
| DownloadButton.FileName | client/src/app/download-button.component.ts:24-27 | as written, the name is the raw input exactly when the cleaned form ends in ".gif", and raw input + ".gif" otherwise; corrected, it is a ".gif" name of allowed characters |
| DownloadButton.DownloadGif | client/src/app/download-button.component.ts:17-29 | an empty name issues no request; otherwise the URL is "/app/output/" + the filename, which is also the saved name |
| DownloadButton.RawNameIsSaved | client/src/app/download-button.component.ts:24-27 | as written, "a.gif?x" is requested and saved as "a.gif?x", without the extension, while the route serves "a.gif" |
| DownloadButton.FixedNameIsServedName | client/src/app/download-button.component.ts:24-29 | corrected, the saved name ends in ".gif", has no '?', and is exactly the name the route serves |

## Left out

- Bull's retry scheduling, attempt counting, backoff and the concurrency ceiling live inside the queue library. Redelivery is modelled only as a sequence of attempts (`PipelineRecords.DeliverAll`).
- The record store, `fs.access`, `fs.stat`, `fs.mkdir`, ffprobe, ffmpeg and the storage `cleanup` are I/O and become oracle parameters. The `mkdir` of the output directory is assumed to succeed, and store writes never fail.
- The storage `cleanup` module is not part of this model. Its outcome is one parameter used for every call within an attempt.
- Progress writes are ordered by callback, not by when the store receives them. The store can receive a trailing run of them after the terminal write; `PipelineRecords.DeferredProgressAfterSuccess` and `PipelineRecords.DeferredProgressAfterFailure` show the record is the same then. The callbacks are not awaited and each awaits `job.progress` first, so in principle writes could also reach the store out of callback order. That reordering is left out.
- Floating point: raw progress percentages are integers that are already rounded, and `Math.round` of an integer callback is the identity. Durations are `real` with comparisons only.
- Timestamps (`createdAt`, `updatedAt`) and the `job.progress` report to Bull are left out.
- The worker's logging is left out.
- The server's second queue processor in `conversion.queue.ts`, socket.io, JWT signing and bcrypt are library behaviour and are not part of this model. `jwt.verify` is a parameter of `ServerAuth.ValidateToken`.
- `ServerAuth.ValidateRequest`: request-body fields are strings or absent. Non-string JSON values are left out.
- `ServerErrors.AsApiError`: the stack is a given optional string. How JavaScript captures it is left out.
- `DownloadRoute.Download`: stream errors after the headers are sent, Express's percent-decoding of the parameter, and the global 500 handler's body are left out. The output directory is a parameter rather than `path.resolve(__dirname, …)`.
- `Paths.Join`: the confinement lemmas about it require a canonical absolute directory and plain names, which leaves out names whose basename is ".." or ".".
- `ProgressView.Run`: `ngOnInit`'s immediate check and the interval ticks are one sequence of polls. A request still in flight when polling stops is left out.
- `ProgressView.StatusText`: the `default` branch is left out. Status is one of the four states, so it cannot be reached.
- `DownloadButton.DownloadGif`: the blob download, object URLs and URL encoding of the name are left out.
- `JSON.parse` and `JSON.stringify` are parameters (`ClientSession.Json`). Stored values other than a user object or `null` are left out.
- Angular templates, modules, routing, forms and the k6 load tests are left out.

## Findings

| source | as written | input that shows it | evidently intended | confidence | as-written member | corrected member |
|---|---|---|---|---|---|---|
| worker/src/services/queue/processor.ts:123 | the fatal test looks for "exceeds maximum allowed", but the dimension message at validator.ts:20 says "dimensions exceed maximum allowed" | a probed video of width 2000: the job writes `failed` once, keeps its input and is retried | both limit violations are validation failures: discard the job and delete the input | high (not executed) | PipelinePaths.DimensionViolationIsRetried | PipelinePaths.DimensionViolationDiscardedWhenFixed |
| server/app.js:47 | the confinement test is a raw string prefix of the output directory | output directory "/o", filename "../o2/x.gif": the path "/o2/x.gif" starts with "/o" and is streamed | only files below the output directory are served: test the prefix "/o/" | high (not executed) | DownloadRoute.PrefixCheckAdmitsSibling | DownloadRoute.StrictCheckConfines |
| client/src/app/download-button.component.ts:24-27 | the ternary binds looser than the method chain, so the cleaned name is used only as the test and the raw name is requested and saved | `gifFileName` "a.gif?x": the button saves "a.gif?x", a name without the extension, while the route serves "a.gif" | request and save the cleaned name, ending in ".gif" | medium (not executed) | DownloadButton.RawNameIsSaved | DownloadButton.FixedNameIsServedName |
