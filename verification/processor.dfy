/**
 * `processConversionJob`: one delivery of one job to the worker. The record
 * store, the filesystem, ffprobe, ffmpeg and the storage cleanup are oracles
 * whose outcomes are parameters; the result is the ordered list of record
 * writes the attempt issues and how the attempt settles for the queue.
 */
module Processor {
  import opened Wrappers
  import opened Strings
  import opened Paths
  import opened ConversionModel
  import opened Validator
  import opened Converter

  /** The job descriptor placed on the queue. */
  datatype ConversionJob = ConversionJob(videoId: string, userId: string, inputPath: string, outputPath: string)

  /** `UPLOAD_DIR` and `OUTPUT_DIR` as read from the process environment. */
  datatype Environment = Environment(uploadDir: Option<string>, outputDir: Option<string>)

  const DefaultUploadDir := "/app/uploads"
  const DefaultOutputDir := "/app/output"

  /** `process.env.X || fallback`: an unset or empty variable gives the fallback. */
  function EnvOr(v: Option<string>, fallback: string): (r: string)
    ensures v.Some? && v.value != "" ==> r == v.value
    ensures v.None? || v.value == "" ==> r == fallback
  {
    if v.Some? && v.value != "" then v.value else fallback
  }

  /** Only the basename of the job's input path is kept, under the upload directory. */
  function AbsoluteInputPath(env: Environment, job: ConversionJob): string {
    Join(EnvOr(env.uploadDir, DefaultUploadDir), Basename(job.inputPath))
  }

  /** Only the basename of the job's output path is kept, under the output directory. */
  function AbsoluteOutputPath(env: Environment, job: ConversionJob): string {
    Join(EnvOr(env.outputDir, DefaultOutputDir), Basename(job.outputPath))
  }

  function InputNotFoundMessage(path: string): string {
    "Input file not found at " + path
  }

  const UnknownErrorMessage := "Unknown error occurred"

  /** What `fs.stat` on the input reports. */
  datatype StatOutcome = Size(bytes: int) | StatFailed(err: Thrown)

  /** The transcoder's raw progress events and how its run ended. */
  datatype TranscodeRun = TranscodeRun(events: seq<RawEvent>, termination: Termination)

  /** What the storage `cleanup` of the input reports; the same on every call. */
  datatype CleanupOutcome = Cleaned | CleanupFailed(err: Thrown)

  /** How the attempt settles: resolved, thrown after `job.discard()`, or thrown for a retry. */
  datatype Disposition = Resolved | DiscardedAndThrown(err: Thrown) | Rethrown(err: Thrown)

  datatype Attempt = Attempt(
    writes: seq<Write>,    // record writes, in the order they are issued
    probed: bool,          // validateVideo ran
    transcoded: bool,      // convertVideo ran
    cleanupCalls: nat,     // calls of cleanup on the input
    inputDeleted: bool,    // some cleanup call succeeded
    disposition: Disposition)

  /**
   * The test that marks a thrown value as a validation failure: an Error
   * whose message contains one of `phrases`.
   */
  predicate IsFatal(phrases: seq<string>, e: Thrown) {
    e.ErrorObject? && exists k | 0 <= k < |phrases| :: Contains(e.message, phrases[k])
  }

  /** The phrase list the worker actually tests for. */
  const AsWrittenPhrases: seq<string> := [FatalPhrase]

  /** The phrase list that matches both limit messages of the validator. */
  const FixedPhrases: seq<string> := [FatalPhrase, SingularPhrase]

  /** The outer handler's write: the error's message, or a fixed text for non-Errors. */
  function FailWrite(id: string, e: Thrown): Write {
    Write(id, MarkFailed(e.MessageOr(UnknownErrorMessage)))
  }

  /** One progress write per callback value (`Math.round` of an integer is itself). */
  function ProgressWrites(id: string, ps: seq<int>): (r: seq<Write>)
    ensures |r| == |ps|
    ensures forall i :: 0 <= i < |r| ==> r[i] == Write(id, SetProgress(ps[i]))
  {
    seq(|ps|, i requires 0 <= i < |ps| => Write(id, SetProgress(ps[i])))
  }

  /**
   * What every way of settling guarantees about the writes issued after
   * `prefix`: they target the job's record, keep progress within bounds, and
   * end in `completed` exactly when the attempt resolves, else in `failed`
   * with the message of the error thrown to the queue.
   */
  predicate SettlesAfter(r: Attempt, job: ConversionJob, prefix: seq<Write>) {
    && |r.writes| > |prefix| && r.writes[..|prefix|] == prefix
    && (forall i :: |prefix| <= i < |r.writes| ==>
          && r.writes[i].id == job.videoId && UpdateInBounds(r.writes[i].update)
          && !r.writes[i].update.MarkProcessing?)
    && (r.disposition.Resolved? ==>
          && r.writes[|r.writes| - 1] == Write(job.videoId, MarkCompleted(job.outputPath))
          && r.inputDeleted && r.cleanupCalls == 1 && r.transcoded)
    && (!r.disposition.Resolved? ==>
          r.writes[|r.writes| - 1] == FailWrite(job.videoId, r.disposition.err))
    && (r.disposition.DiscardedAndThrown? ==> r.inputDeleted)
    && (r.inputDeleted ==> r.cleanupCalls >= 1)
    && (r.transcoded ==> r.probed)
  }

  /** The outer `catch`: write `failed`, then rethrow. */
  function OuterCatch(job: ConversionJob, ws: seq<Write>, probed: bool, transcoded: bool, calls: nat,
                      deleted: bool, discarded: bool, e: Thrown): (r: Attempt)
    requires transcoded ==> probed
    requires deleted ==> calls >= 1
    requires discarded ==> deleted
    ensures SettlesAfter(r, job, ws)
    ensures r.writes == ws + [FailWrite(job.videoId, e)]
    ensures r.probed == probed && r.transcoded == transcoded
    ensures r.cleanupCalls == calls && r.inputDeleted == deleted
    ensures r.disposition == if discarded then DiscardedAndThrown(e) else Rethrown(e)
  {
    Attempt(ws + [FailWrite(job.videoId, e)], probed, transcoded, calls, deleted,
            if discarded then DiscardedAndThrown(e) else Rethrown(e))
  }

  /**
   * The inner `catch`: a validation failure writes `failed`, cleans up the
   * input and discards the job before rethrowing; anything else is rethrown
   * as is. Either way the outer `catch` runs next.
   */
  function InnerCatch(phrases: seq<string>, job: ConversionJob, ws: seq<Write>, probed: bool, transcoded: bool,
                      calls: nat, e: Thrown, cleanup: CleanupOutcome): (r: Attempt)
    requires transcoded ==> probed
    ensures SettlesAfter(r, job, ws)
    ensures !r.disposition.Resolved?
    ensures r.probed == probed && r.transcoded == transcoded
    ensures !IsFatal(phrases, e) ==> r == OuterCatch(job, ws, probed, transcoded, calls, false, false, e)
    ensures IsFatal(phrases, e) ==> r.cleanupCalls == calls + 1
    ensures IsFatal(phrases, e) && cleanup.Cleaned? ==>
              r.writes == ws + [Write(job.videoId, MarkFailed(e.message)), FailWrite(job.videoId, e)]
              && r.disposition == DiscardedAndThrown(e) && r.inputDeleted
  {
    if IsFatal(phrases, e) then
      var marked := ws + [Write(job.videoId, MarkFailed(e.message))];
      match cleanup
      case Cleaned => OuterCatch(job, marked, probed, transcoded, calls + 1, true, true, e)
      case CleanupFailed(c) => OuterCatch(job, marked, probed, transcoded, calls + 1, false, false, c)
    else OuterCatch(job, ws, probed, transcoded, calls, false, false, e)
  }

  /** Writes the settled attempt may be preceded by: the job's own, in bounds, not `processing`. */
  predicate JobWrites(job: ConversionJob, ws: seq<Write>) {
    forall i :: 0 <= i < |ws| ==>
      ws[i].id == job.videoId && UpdateInBounds(ws[i].update) && !ws[i].update.MarkProcessing?
  }

  /** Settling after a longer prefix settles after a shorter one, when the difference is the job's writes. */
  lemma SettlesAfterPrefix(r: Attempt, job: ConversionJob, ws: seq<Write>, extra: seq<Write>)
    requires SettlesAfter(r, job, ws + extra)
    requires JobWrites(job, extra)
    ensures SettlesAfter(r, job, ws)
  {
    var n := |ws + extra|;
    assert r.writes[..|ws|] == r.writes[..n][..|ws|] == ws;
    forall i | |ws| <= i < n
      ensures r.writes[i] == extra[i - |ws|]
    {
      assert r.writes[i] == r.writes[..n][i];
    }
  }

  /** What follows the transcoder: complete and clean up, or handle its error. */
  function AfterTranscode(phrases: seq<string>, job: ConversionJob, ws: seq<Write>, outcome: Outcome,
                          cleanup: CleanupOutcome): (r: Attempt)
    ensures SettlesAfter(r, job, ws)
    ensures r.probed && r.transcoded
  {
    match outcome
    case Rejected(e) => InnerCatch(phrases, job, ws, true, true, 0, e, cleanup)
    case Fulfilled =>
      var done := ws + [Write(job.videoId, MarkCompleted(job.outputPath))];
      match cleanup
      case Cleaned => Attempt(done, true, true, 1, true, Resolved)
      case CleanupFailed(e) =>
        var r := InnerCatch(phrases, job, done, true, true, 1, e, cleanup);
        SettlesAfterPrefix(r, job, ws, [Write(job.videoId, MarkCompleted(job.outputPath))]);
        r
  }

  /** Everything after `fs.stat`: validate, record metadata, transcode, complete, clean up. */
  function AfterStat(phrases: seq<string>, job: ConversionJob, ws: seq<Write>, size: int,
                     validation: Result<VideoMetadata>, run: TranscodeRun, cleanup: CleanupOutcome): (r: Attempt)
    ensures SettlesAfter(r, job, ws)
    ensures r.probed
  {
    var id := job.videoId;
    match validation
    case Throws(e) => InnerCatch(phrases, job, ws, true, false, 0, e, cleanup)
    case Ok(m) =>
      var conv := ConvertVideo(run.events, run.termination, true);
      var extra := [Write(id, SetMetadata(Metadata(m.duration, m.width, m.height, size)))]
                   + ProgressWrites(id, conv.callbacks);
      var r := AfterTranscode(phrases, job, ws + extra, conv.outcome, cleanup);
      SettlesAfterPrefix(r, job, ws, extra);
      r
  }

  /**
   * The shape of every attempt: it starts with the `processing` write, every
   * write targets the job's record and keeps progress in bounds, no later
   * write re-enters `processing`, and the last write is `completed` exactly
   * when the attempt resolves (after a transcode and one successful cleanup),
   * else `failed` with the message of the error thrown to the queue.
   */
  predicate AttemptShape(r: Attempt, job: ConversionJob) {
    && |r.writes| >= 2
    && r.writes[0] == Write(job.videoId, MarkProcessing)
    && (forall i :: 0 <= i < |r.writes| ==> r.writes[i].id == job.videoId)
    && (forall i :: 0 <= i < |r.writes| ==> UpdateInBounds(r.writes[i].update))
    && (forall i :: 1 <= i < |r.writes| ==> !r.writes[i].update.MarkProcessing?)
    && (r.disposition.Resolved? ==>
          && r.writes[|r.writes| - 1] == Write(job.videoId, MarkCompleted(job.outputPath))
          && r.inputDeleted && r.cleanupCalls == 1 && r.transcoded)
    && (!r.disposition.Resolved? ==>
          r.writes[|r.writes| - 1] == FailWrite(job.videoId, r.disposition.err))
    && (r.disposition.DiscardedAndThrown? ==> r.inputDeleted)
    && (r.inputDeleted ==> r.cleanupCalls >= 1)
    && (r.transcoded ==> r.probed)
  }

  /** An attempt that settles after the `processing` write has the shape every attempt has. */
  lemma SettledFromStart(r: Attempt, job: ConversionJob)
    requires SettlesAfter(r, job, [Write(job.videoId, MarkProcessing)])
    ensures AttemptShape(r, job)
  {
    assert r.writes[0] == r.writes[..1][0];
  }

  /**
   * One attempt of the pipeline with a given fatal-phrase list and a given
   * outcome of `validateVideo`.
   */
  function RunAttempt(phrases: seq<string>, env: Environment, job: ConversionJob, inputExists: bool,
                      stat: StatOutcome, validation: Result<VideoMetadata>, run: TranscodeRun,
                      cleanup: CleanupOutcome): (r: Attempt)
    ensures AttemptShape(r, job)
    ensures !inputExists ==> !r.probed && r.cleanupCalls == 0
  {
    var r := AfterStart(phrases, env, job, inputExists, stat, validation, run, cleanup);
    SettledFromStart(r, job);
    r
  }

  /** Everything after the `processing` write: the existence check, `fs.stat`, and the rest. */
  function AfterStart(phrases: seq<string>, env: Environment, job: ConversionJob, inputExists: bool,
                      stat: StatOutcome, validation: Result<VideoMetadata>, run: TranscodeRun,
                      cleanup: CleanupOutcome): (r: Attempt)
    ensures SettlesAfter(r, job, [Write(job.videoId, MarkProcessing)])
    ensures !inputExists ==> !r.probed && r.cleanupCalls == 0
  {
    var started := [Write(job.videoId, MarkProcessing)];
    if !inputExists then
      OuterCatch(job, started, false, false, 0, false, false,
                 ErrorObject(InputNotFoundMessage(AbsoluteInputPath(env, job))))
    else
      match stat
      case StatFailed(e) => OuterCatch(job, started, false, false, 0, false, false, e)
      case Size(size) => AfterStat(phrases, job, started, size, validation, run, cleanup)
  }

  /** `processConversionJob` as written. */
  function ProcessConversionJob(env: Environment, job: ConversionJob, inputExists: bool, stat: StatOutcome,
                                probe: ProbeOutcome, run: TranscodeRun, cleanup: CleanupOutcome): Attempt
  {
    RunAttempt(AsWrittenPhrases, env, job, inputExists, stat, ValidateVideo(probe), run, cleanup)
  }

  /** `processConversionJob` with a failure test that recognises both limit messages. */
  function ProcessConversionJobFixed(env: Environment, job: ConversionJob, inputExists: bool, stat: StatOutcome,
                                     probe: ProbeOutcome, run: TranscodeRun, cleanup: CleanupOutcome): Attempt
  {
    RunAttempt(FixedPhrases, env, job, inputExists, stat, ValidateVideo(probe), run, cleanup)
  }
}
