/**
 * The exact outcome of each path through `processConversionJob`: which
 * writes are issued, whether the input is deleted, and how the attempt
 * settles for the queue.
 */
module PipelinePaths {
  import opened Wrappers
  import opened Strings
  import opened Paths
  import opened ConversionModel
  import opened Validator
  import opened Converter
  import opened Processor

  /** The first write of every attempt: `processing`, progress 0, error cleared. */
  function Started(job: ConversionJob): Write {
    Write(job.videoId, MarkProcessing)
  }

  /** A `failed` write carrying `message`. */
  function FailedWith(job: ConversionJob, message: string): Write {
    Write(job.videoId, MarkFailed(message))
  }

  /** The metadata write: probed duration, width and height plus the `stat` size. */
  function MetadataWrite(job: ConversionJob, m: VideoMetadata, size: int): Write {
    Write(job.videoId, SetMetadata(Metadata(m.duration, m.width, m.height, size)))
  }

  /** The writes of an attempt that reached the transcoder, up to the point where it settled. */
  function TranscodeWrites(job: ConversionJob, m: VideoMetadata, size: int, callbacks: seq<int>): seq<Write> {
    [Started(job), MetadataWrite(job, m, size)] + ProgressWrites(job.videoId, callbacks)
  }

  /** The writes of an attempt whose transcode ended normally, `completed` last. */
  function CompletedWrites(job: ConversionJob, m: VideoMetadata, size: int, events: seq<RawEvent>): seq<Write> {
    TranscodeWrites(job, m, size, ConvertVideo(events, End, true).callbacks)
      + [Write(job.videoId, MarkCompleted(job.outputPath))]
  }

  /** A directory part in the job's input path never changes the file that is read. */
  lemma InputDirectoryPartIgnored(env: Environment, job: ConversionJob, dir: string, name: string)
    requires Plain(name)
    ensures AbsoluteInputPath(env, job.(inputPath := dir + "/" + name))
            == AbsoluteInputPath(env, job.(inputPath := name))
  {
    BasenameOfChild(dir, name);
  }

  /** A directory part in the job's output path never changes the file that is written. */
  lemma OutputDirectoryPartIgnored(env: Environment, job: ConversionJob, dir: string, name: string)
    requires Plain(name)
    ensures AbsoluteOutputPath(env, job.(outputPath := dir + "/" + name))
            == AbsoluteOutputPath(env, job.(outputPath := name))
  {
    BasenameOfChild(dir, name);
  }

  /**
   * Under a canonical upload directory, an input whose basename is a plain
   * name is read from directly inside that directory.
   */
  lemma InputConfinedToUploadDir(env: Environment, job: ConversionJob)
    requires CanonicalAbsolute(EnvOr(env.uploadDir, DefaultUploadDir))
    requires Plain(Basename(job.inputPath))
    ensures var dir := EnvOr(env.uploadDir, DefaultUploadDir);
            && AbsoluteInputPath(env, job) == dir + "/" + Basename(job.inputPath)
            && Below(AbsoluteInputPath(env, job), dir)
  {
    JoinPlainName(EnvOr(env.uploadDir, DefaultUploadDir), Basename(job.inputPath));
  }

  /**
   * Under a canonical output directory, an output whose basename is a plain
   * name is written directly inside that directory.
   */
  lemma OutputConfinedToOutputDir(env: Environment, job: ConversionJob)
    requires CanonicalAbsolute(EnvOr(env.outputDir, DefaultOutputDir))
    requires Plain(Basename(job.outputPath))
    ensures var dir := EnvOr(env.outputDir, DefaultOutputDir);
            && AbsoluteOutputPath(env, job) == dir + "/" + Basename(job.outputPath)
            && Below(AbsoluteOutputPath(env, job), dir)
  {
    JoinPlainName(EnvOr(env.outputDir, DefaultOutputDir), Basename(job.outputPath));
  }

  /** `/a/b` with two plain segments is canonical. */
  lemma TwoLevelCanonical(a: string, b: string)
    requires Plain(a) && Plain(b)
    ensures CanonicalAbsolute("/" + a + "/" + b)
  {
    var dir := "/" + a + "/" + b;
    assert dir[1..] == a + "/" + b;
    SplitAppend(a, b);
    SplitNoSeparator(a);
    SplitNoSeparator(b);
  }

  /** The built-in directories are canonical. */
  lemma DefaultDirsAreCanonical()
    ensures CanonicalAbsolute(DefaultUploadDir)
    ensures CanonicalAbsolute(DefaultOutputDir)
  {
    assert DefaultUploadDir == "/" + "app" + "/" + "uploads";
    TwoLevelCanonical("app", "uploads");
    assert DefaultOutputDir == "/" + "app" + "/" + "output";
    TwoLevelCanonical("app", "output");
  }

  /** A missing input: `processing`, then `failed` naming the path; nothing probed, nothing deleted, retryable. */
  lemma MissingInputFile(phrases: seq<string>, env: Environment, job: ConversionJob, stat: StatOutcome,
                         validation: Result<VideoMetadata>, run: TranscodeRun, cleanup: CleanupOutcome)
    ensures var message := InputNotFoundMessage(AbsoluteInputPath(env, job));
            RunAttempt(phrases, env, job, false, stat, validation, run, cleanup)
              == Attempt([Started(job), FailedWith(job, message)], false, false, 0, false,
                         Rethrown(ErrorObject(message)))
  {
  }

  /** A failing `fs.stat` is rethrown for a retry before anything is probed. */
  lemma StatFailure(phrases: seq<string>, env: Environment, job: ConversionJob, e: Thrown,
                    validation: Result<VideoMetadata>, run: TranscodeRun, cleanup: CleanupOutcome)
    ensures RunAttempt(phrases, env, job, true, StatFailed(e), validation, run, cleanup)
              == Attempt([Started(job), FailWrite(job.videoId, e)], false, false, 0, false, Rethrown(e))
  {
  }

  /**
   * A validation failure with the fatal phrase writes `failed` twice (inner,
   * then outer handler), deletes the input and discards the job. If cleanup
   * itself throws, its error replaces the original one and the job is not
   * discarded.
   */
  lemma FatalValidationFailure(phrases: seq<string>, env: Environment, job: ConversionJob, size: int,
                               e: Thrown, run: TranscodeRun, cleanup: CleanupOutcome)
    requires IsFatal(phrases, e)
    ensures var r := RunAttempt(phrases, env, job, true, Size(size), Throws(e), run, cleanup);
            && (cleanup.Cleaned? ==>
                  r == Attempt([Started(job), FailedWith(job, e.message), FailedWith(job, e.message)],
                               true, false, 1, true, DiscardedAndThrown(e)))
            && (cleanup.CleanupFailed? ==>
                  r == Attempt([Started(job), FailedWith(job, e.message), FailWrite(job.videoId, cleanup.err)],
                               true, false, 1, false, Rethrown(cleanup.err)))
  {
  }

  /** Any other validation failure writes `failed` once, keeps the input and stays retryable. */
  lemma RetryableValidationFailure(phrases: seq<string>, env: Environment, job: ConversionJob, size: int,
                                   e: Thrown, run: TranscodeRun, cleanup: CleanupOutcome)
    requires !IsFatal(phrases, e)
    ensures RunAttempt(phrases, env, job, true, Size(size), Throws(e), run, cleanup)
              == Attempt([Started(job), FailWrite(job.videoId, e)], true, false, 0, false, Rethrown(e))
  {
  }

  /** An attempt that passed validation continues from the metadata and progress writes. */
  lemma ReachedTranscoder(phrases: seq<string>, env: Environment, job: ConversionJob, size: int,
                          m: VideoMetadata, run: TranscodeRun, cleanup: CleanupOutcome)
    ensures var conv := ConvertVideo(run.events, run.termination, true);
            RunAttempt(phrases, env, job, true, Size(size), Ok(m), run, cleanup)
              == AfterTranscode(phrases, job, TranscodeWrites(job, m, size, conv.callbacks), conv.outcome, cleanup)
  {
    var conv := ConvertVideo(run.events, run.termination, true);
    var progress := ProgressWrites(job.videoId, conv.callbacks);
    assert [Started(job)] + ([MetadataWrite(job, m, size)] + progress)
           == [Started(job), MetadataWrite(job, m, size)] + progress;
  }

  /**
   * A transcoder error lands after the metadata and progress writes; unless
   * its message carries a fatal phrase it is rethrown for a retry and the
   * input is kept.
   */
  lemma TranscodeFailure(phrases: seq<string>, env: Environment, job: ConversionJob, size: int,
                         m: VideoMetadata, events: seq<RawEvent>, e: Thrown, cleanup: CleanupOutcome)
    requires !IsFatal(phrases, e)
    ensures RunAttempt(phrases, env, job, true, Size(size), Ok(m), TranscodeRun(events, Error(e)), cleanup)
              == Attempt(TranscodeWrites(job, m, size, Filter(events)) + [FailWrite(job.videoId, e)],
                         true, true, 0, false, Rethrown(e))
  {
    ErrorForcesNothing(events, e);
    ReachedTranscoder(phrases, env, job, size, m, TranscodeRun(events, Error(e)), cleanup);
  }

  /**
   * A transcoder error that carries a fatal phrase is handled like a fatal
   * validation failure: `failed` twice, the input deleted, the job discarded.
   */
  lemma FatalTranscodeFailure(phrases: seq<string>, env: Environment, job: ConversionJob, size: int,
                              m: VideoMetadata, events: seq<RawEvent>, e: Thrown, cleanup: CleanupOutcome)
    requires IsFatal(phrases, e)
    ensures var base := TranscodeWrites(job, m, size, Filter(events));
            var r := RunAttempt(phrases, env, job, true, Size(size), Ok(m), TranscodeRun(events, Error(e)), cleanup);
            && (cleanup.Cleaned? ==>
                  r == Attempt(base + [FailedWith(job, e.message), FailedWith(job, e.message)],
                               true, true, 1, true, DiscardedAndThrown(e)))
            && (cleanup.CleanupFailed? ==>
                  r == Attempt(base + [FailedWith(job, e.message), FailWrite(job.videoId, cleanup.err)],
                               true, true, 1, false, Rethrown(cleanup.err)))
  {
    ErrorForcesNothing(events, e);
    ReachedTranscoder(phrases, env, job, size, m, TranscodeRun(events, Error(e)), cleanup);
    var base := TranscodeWrites(job, m, size, Filter(events));
    assert base + [FailedWith(job, e.message)] + [FailedWith(job, e.message)]
           == base + [FailedWith(job, e.message), FailedWith(job, e.message)];
    if cleanup.CleanupFailed? {
      assert base + [FailedWith(job, e.message)] + [FailWrite(job.videoId, cleanup.err)]
             == base + [FailedWith(job, e.message), FailWrite(job.videoId, cleanup.err)];
    }
  }

  /**
   * A successful attempt: `processing`, metadata, one write per progress
   * callback, `completed` with the job's own output path; then the input is
   * deleted exactly once and the attempt resolves.
   */
  lemma SuccessfulRun(phrases: seq<string>, env: Environment, job: ConversionJob, size: int,
                      m: VideoMetadata, events: seq<RawEvent>)
    ensures RunAttempt(phrases, env, job, true, Size(size), Ok(m), TranscodeRun(events, End), Cleaned)
              == Attempt(CompletedWrites(job, m, size, events), true, true, 1, true, Resolved)
  {
    ReachedTranscoder(phrases, env, job, size, m, TranscodeRun(events, End), Cleaned);
  }

  /**
   * A cleanup that throws after the `completed` write sends the attempt
   * through both handlers, so `completed` is followed by `failed`; the input
   * is not deleted and the job is retried.
   */
  lemma CleanupFailsAfterCompleted(phrases: seq<string>, env: Environment, job: ConversionJob, size: int,
                                   m: VideoMetadata, events: seq<RawEvent>, c: Thrown)
    ensures var r := RunAttempt(phrases, env, job, true, Size(size), Ok(m), TranscodeRun(events, End),
                                CleanupFailed(c));
            var fatal := IsFatal(phrases, c);
            && r.writes == CompletedWrites(job, m, size, events)
                           + (if fatal then [FailedWith(job, c.message)] else [])
                           + [FailWrite(job.videoId, c)]
            && r.disposition == Rethrown(c)
            && !r.inputDeleted
            && r.cleanupCalls == if fatal then 2 else 1
  {
    var done := CompletedWrites(job, m, size, events);
    ReachedTranscoder(phrases, env, job, size, m, TranscodeRun(events, End), CleanupFailed(c));
    assert done + [] == done;
  }

  /** An attempt resolves exactly when every step succeeds. */
  lemma ResolvedIffEverythingSucceeds(phrases: seq<string>, env: Environment, job: ConversionJob,
                                      inputExists: bool, stat: StatOutcome, validation: Result<VideoMetadata>,
                                      run: TranscodeRun, cleanup: CleanupOutcome)
    ensures RunAttempt(phrases, env, job, inputExists, stat, validation, run, cleanup).disposition.Resolved?
            <==> inputExists && stat.Size? && validation.Ok? && run.termination.End? && cleanup.Cleaned?
  {
  }

  /**
   * The job is discarded exactly when an error with a fatal phrase is raised
   * by validation or the transcoder and the cleanup that follows succeeds.
   */
  lemma DiscardedIffFatal(phrases: seq<string>, env: Environment, job: ConversionJob,
                          inputExists: bool, stat: StatOutcome, validation: Result<VideoMetadata>,
                          run: TranscodeRun, cleanup: CleanupOutcome)
    ensures RunAttempt(phrases, env, job, inputExists, stat, validation, run, cleanup).disposition.DiscardedAndThrown?
            <==> && inputExists && stat.Size? && cleanup.Cleaned?
                 && (|| (validation.Throws? && IsFatal(phrases, validation.error))
                     || (validation.Ok? && run.termination.Error? && IsFatal(phrases, run.termination.err)))
  {
  }

  /**
   * The metadata write is issued exactly when validation succeeds, as the
   * second write, carrying the probed values and the `stat` size.
   */
  lemma MetadataWrittenIffValidated(phrases: seq<string>, env: Environment, job: ConversionJob,
                                    inputExists: bool, stat: StatOutcome, validation: Result<VideoMetadata>,
                                    run: TranscodeRun, cleanup: CleanupOutcome)
    ensures var r := RunAttempt(phrases, env, job, inputExists, stat, validation, run, cleanup);
            && ((exists i | 0 <= i < |r.writes| :: r.writes[i].update.SetMetadata?)
                <==> inputExists && stat.Size? && validation.Ok?)
            && (inputExists && stat.Size? && validation.Ok? ==>
                  r.writes[1] == MetadataWrite(job, validation.value, stat.bytes))
  {
    var r := RunAttempt(phrases, env, job, inputExists, stat, validation, run, cleanup);
    if inputExists && stat.Size? && validation.Ok? {
      var m := validation.value;
      var size := stat.bytes;
      var conv := ConvertVideo(run.events, run.termination, true);
      var withProgress := TranscodeWrites(job, m, size, conv.callbacks);
      ReachedTranscoder(phrases, env, job, size, m, run, cleanup);
      assert r.writes[..|withProgress|] == withProgress;
      assert r.writes[1] == withProgress[1];
    } else if !inputExists {
      MissingInputFile(phrases, env, job, stat, validation, run, cleanup);
    } else if stat.StatFailed? {
      StatFailure(phrases, env, job, stat.err, validation, run, cleanup);
    } else if IsFatal(phrases, validation.error) {
      FatalValidationFailure(phrases, env, job, stat.bytes, validation.error, run, cleanup);
    } else {
      RetryableValidationFailure(phrases, env, job, stat.bytes, validation.error, run, cleanup);
    }
  }

  /** Every limit failure carries one of the phrases of the corrected test. */
  lemma LimitFailuresFatalWhenFixed(m: VideoMetadata)
    ensures CheckLimits(m).Throws? ==> IsFatal(FixedPhrases, CheckLimits(m).error)
  {
    if DimensionsTooLarge(m) {
      DimensionMessageHasSingularPhrase();
      assert FixedPhrases[1] == SingularPhrase;
    } else if TooLong(m) {
      DurationMessageIsFatal();
      assert FixedPhrases[0] == FatalPhrase;
    }
  }

  /** A video that is too long is discarded and its input deleted, as intended. */
  lemma DurationViolationIsDiscarded(env: Environment, job: ConversionJob, size: int, probe: ProbeOutcome,
                                     m: VideoMetadata, run: TranscodeRun)
    requires GetVideoMetadata(probe) == Ok(m)
    requires !DimensionsTooLarge(m) && TooLong(m)
    ensures var e := ErrorObject(DurationMessage());
            ProcessConversionJob(env, job, true, Size(size), probe, run, Cleaned)
              == Attempt([Started(job), FailedWith(job, e.message), FailedWith(job, e.message)],
                         true, false, 1, true, DiscardedAndThrown(e))
  {
    DurationMessageIsFatal();
    assert AsWrittenPhrases[0] == FatalPhrase;
    FatalValidationFailure(AsWrittenPhrases, env, job, size, ErrorObject(DurationMessage()), run, Cleaned);
  }

  /**
   * As written, a video whose dimensions exceed the limits is NOT recognised
   * as a validation failure: the job is left for a retry, the input is never
   * deleted, and every redelivery fails the same way.
   */
  lemma DimensionViolationIsRetried(env: Environment, job: ConversionJob, size: int, probe: ProbeOutcome,
                                    m: VideoMetadata, run: TranscodeRun, cleanup: CleanupOutcome)
    requires GetVideoMetadata(probe) == Ok(m)
    requires DimensionsTooLarge(m)
    ensures var e := ErrorObject(DimensionMessage());
            ProcessConversionJob(env, job, true, Size(size), probe, run, cleanup)
              == Attempt([Started(job), FailedWith(job, e.message)], true, false, 0, false, Rethrown(e))
  {
    DimensionMessageIsNotFatal();
    var e := ErrorObject(DimensionMessage());
    assert !IsFatal(AsWrittenPhrases, e) by {
      assert AsWrittenPhrases[0] == FatalPhrase;
    }
    RetryableValidationFailure(AsWrittenPhrases, env, job, size, e, run, cleanup);
  }

  /** With the corrected test, an oversized video is discarded and its input deleted. */
  lemma DimensionViolationDiscardedWhenFixed(env: Environment, job: ConversionJob, size: int, probe: ProbeOutcome,
                                             m: VideoMetadata, run: TranscodeRun)
    requires GetVideoMetadata(probe) == Ok(m)
    requires DimensionsTooLarge(m)
    ensures var e := ErrorObject(DimensionMessage());
            ProcessConversionJobFixed(env, job, true, Size(size), probe, run, Cleaned)
              == Attempt([Started(job), FailedWith(job, e.message), FailedWith(job, e.message)],
                         true, false, 1, true, DiscardedAndThrown(e))
  {
    LimitFailuresFatalWhenFixed(m);
    FatalValidationFailure(FixedPhrases, env, job, size, ErrorObject(DimensionMessage()), run, Cleaned);
  }

  /** A probe without a video stream is retried under either test. */
  lemma NoVideoStreamIsRetried(env: Environment, job: ConversionJob, size: int, data: ProbeData,
                               run: TranscodeRun, cleanup: CleanupOutcome)
    requires FirstVideoStream(data.streams).None?
    ensures var e := ErrorObject(NoVideoStreamMessage);
            && ProcessConversionJob(env, job, true, Size(size), Probed(data), run, cleanup)
                 == Attempt([Started(job), FailedWith(job, e.message)], true, false, 0, false, Rethrown(e))
            && ProcessConversionJobFixed(env, job, true, Size(size), Probed(data), run, cleanup)
                 == Attempt([Started(job), FailedWith(job, e.message)], true, false, 0, false, Rethrown(e))
  {
    NoVideoStreamIsNotFatal();
    var e := ErrorObject(NoVideoStreamMessage);
    assert !IsFatal(AsWrittenPhrases, e) by {
      assert AsWrittenPhrases[0] == FatalPhrase;
    }
    assert !IsFatal(FixedPhrases, e) by {
      assert FixedPhrases[0] == FatalPhrase && FixedPhrases[1] == SingularPhrase;
    }
    RetryableValidationFailure(AsWrittenPhrases, env, job, size, e, run, cleanup);
    RetryableValidationFailure(FixedPhrases, env, job, size, e, run, cleanup);
  }
}
