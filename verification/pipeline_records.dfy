/**
 * What attempts of `processConversionJob` leave in the record store: the
 * statuses they store, the final record of an attempt, and what happens to
 * the record across redeliveries of the same job.
 */
module PipelineRecords {
  import opened Wrappers
  import opened ConversionModel
  import opened Validator
  import opened Converter
  import opened Processor
  import opened PipelinePaths

  /** The status an update stores, if it stores one. */
  function SetsStatus(u: Update): (r: Option<Status>)
    ensures r.Some? <==> u.MarkProcessing? || u.MarkCompleted? || u.MarkFailed?
  {
    match u
    case MarkProcessing => Some(Processing)
    case MarkCompleted(_) => Some(Completed)
    case MarkFailed(_) => Some(Failed)
    case _ => None
  }

  /** The successive statuses a sequence of writes stores, in order. */
  function StatusTrace(ws: seq<Write>): (r: seq<Status>)
    ensures |r| <= |ws|
    decreases |ws|
  {
    if |ws| == 0 then []
    else
      var head := match SetsStatus(ws[0].update) case Some(s) => [s] case None => [];
      head + StatusTrace(ws[1..])
  }

  lemma {:induction false} StatusTraceAppend(a: seq<Write>, b: seq<Write>)
    ensures StatusTrace(a + b) == StatusTrace(a) + StatusTrace(b)
    decreases |a|
  {
    if |a| == 0 {
      assert a + b == b;
    } else {
      assert (a + b)[1..] == a[1..] + b;
      StatusTraceAppend(a[1..], b);
    }
  }

  /** Progress writes store no status. */
  lemma {:induction false} ProgressWritesStoreNoStatus(id: string, ps: seq<int>)
    ensures StatusTrace(ProgressWrites(id, ps)) == []
    decreases |ps|
  {
    if |ps| > 0 {
      var ws := ProgressWrites(id, ps);
      assert ws[1..] == ProgressWrites(id, ps[1..]);
      ProgressWritesStoreNoStatus(id, ps[1..]);
    }
  }

  /**
   * The stored status after a sequence of writes to one record is the last
   * status in their trace, or the original one if they store none.
   */
  lemma {:induction false} FinalStatusIsLastTraced(store: Store, ws: seq<Write>, id: string)
    requires id in store
    requires forall i :: 0 <= i < |ws| ==> ws[i].id == id
    ensures var t := StatusTrace(ws);
            ApplyAll(store, ws)[id].status == if |t| > 0 then t[|t| - 1] else store[id].status
    decreases |ws|
  {
    if |ws| > 0 {
      FinalStatusIsLastTraced(ApplyWrite(store, ws[0]), ws[1..], id);
    }
  }

  /** The writes preceding the transcoder's settling store only `processing`. */
  lemma TranscodeWritesTrace(job: ConversionJob, m: VideoMetadata, size: int, callbacks: seq<int>)
    ensures StatusTrace(TranscodeWrites(job, m, size, callbacks)) == [Processing]
  {
    var head := [Started(job), MetadataWrite(job, m, size)];
    StatusTraceAppend(head, ProgressWrites(job.videoId, callbacks));
    ProgressWritesStoreNoStatus(job.videoId, callbacks);
    assert head[1..] == [MetadataWrite(job, m, size)];
    assert StatusTrace(head) == [Processing];
  }

  /** Appending a status-setting write extends the trace by its status. */
  lemma {:induction false} TraceSnoc(ws: seq<Write>, w: Write)
    requires SetsStatus(w.update).Some?
    ensures StatusTrace(ws + [w]) == StatusTrace(ws) + [SetsStatus(w.update).value]
  {
    StatusTraceAppend(ws, [w]);
    assert [w][1..] == [];
  }

  /** Two status-setting writes store their two statuses. */
  lemma {:induction false} TraceOfTwo(a: Write, b: Write)
    requires SetsStatus(a.update).Some? && SetsStatus(b.update).Some?
    ensures StatusTrace([a, b]) == [SetsStatus(a.update).value, SetsStatus(b.update).value]
  {
    assert [a, b] == [a] + [b];
    TraceSnoc([a], b);
    assert [a][1..] == [];
  }

  /** The traces an attempt may store. */
  predicate AllowedTrace(t: seq<Status>) {
    t in {[Processing, Completed], [Processing, Failed], [Processing, Failed, Failed],
          [Processing, Completed, Failed], [Processing, Completed, Failed, Failed]}
  }

  /** Writes storing `processing` and then one or two `failed` give an allowed trace. */
  lemma {:induction false} FailuresAfterProcessing(base: seq<Write>, tail: seq<Write>)
    requires StatusTrace(base) == [Processing]
    requires 1 <= |tail| <= 2
    requires forall i :: 0 <= i < |tail| ==> tail[i].update.MarkFailed?
    ensures AllowedTrace(StatusTrace(base + tail))
  {
    StatusTraceAppend(base, tail);
    OnlyFailures(tail);
    var t := StatusTrace(tail);
    if |tail| == 1 {
      assert t == [Failed];
      assert [Processing] + t == [Processing, Failed];
      assert AllowedTrace([Processing, Failed]);
    } else {
      assert t == [Failed, Failed];
      assert [Processing] + t == [Processing, Failed, Failed];
      assert AllowedTrace([Processing, Failed, Failed]);
    }
  }

  /** Writes that all store `failed` trace as that many `failed`. */
  lemma {:induction false} OnlyFailures(tail: seq<Write>)
    requires forall i :: 0 <= i < |tail| ==> tail[i].update.MarkFailed?
    ensures |StatusTrace(tail)| == |tail|
    ensures forall i :: 0 <= i < |tail| ==> StatusTrace(tail)[i] == Failed
    decreases |tail|
  {
    if |tail| > 0 {
      OnlyFailures(tail[1..]);
    }
  }

  /** Attempts that fail before the transcoder store `processing`, then one or two `failed`. */
  lemma EarlyFailureTrace(phrases: seq<string>, env: Environment, job: ConversionJob,
                          inputExists: bool, stat: StatOutcome, validation: Result<VideoMetadata>,
                          run: TranscodeRun, cleanup: CleanupOutcome)
    requires !inputExists || stat.StatFailed? || validation.Throws?
    ensures AllowedTrace(StatusTrace(RunAttempt(phrases, env, job, inputExists, stat, validation, run, cleanup).writes))
  {
    var tail := EarlyFailureWrites(phrases, env, job, inputExists, stat, validation, run, cleanup);
    TraceSnoc([], Started(job));
    assert [] + [Started(job)] == [Started(job)];
    FailuresAfterProcessing([Started(job)], tail);
  }

  /** The writes of an attempt that fails before the transcoder, with the handlers' writes named. */
  lemma EarlyFailureWrites(phrases: seq<string>, env: Environment, job: ConversionJob,
                           inputExists: bool, stat: StatOutcome, validation: Result<VideoMetadata>,
                           run: TranscodeRun, cleanup: CleanupOutcome)
    returns (tail: seq<Write>)
    requires !inputExists || stat.StatFailed? || validation.Throws?
    ensures 1 <= |tail| <= 2
    ensures forall i :: 0 <= i < |tail| ==> tail[i].update.MarkFailed?
    ensures RunAttempt(phrases, env, job, inputExists, stat, validation, run, cleanup).writes == [Started(job)] + tail
  {
    var ws := RunAttempt(phrases, env, job, inputExists, stat, validation, run, cleanup).writes;
    if !inputExists {
      MissingInputFile(phrases, env, job, stat, validation, run, cleanup);
    } else if stat.StatFailed? {
      StatFailure(phrases, env, job, stat.err, validation, run, cleanup);
    } else if IsFatal(phrases, validation.error) {
      FatalValidationFailure(phrases, env, job, stat.bytes, validation.error, run, cleanup);
    } else {
      RetryableValidationFailure(phrases, env, job, stat.bytes, validation.error, run, cleanup);
    }
    tail := ws[1..];
  }

  /** A transcoder error stores `processing`, then one or two `failed`. */
  lemma TranscodeErrorTrace(phrases: seq<string>, env: Environment, job: ConversionJob, size: int,
                            m: VideoMetadata, events: seq<RawEvent>, e: Thrown, cleanup: CleanupOutcome)
    ensures AllowedTrace(StatusTrace(RunAttempt(phrases, env, job, true, Size(size), Ok(m),
                                                TranscodeRun(events, Error(e)), cleanup).writes))
  {
    var tail := TranscodeErrorWrites(phrases, env, job, size, m, events, e, cleanup);
    TranscodeWritesTrace(job, m, size, Filter(events));
    FailuresAfterProcessing(TranscodeWrites(job, m, size, Filter(events)), tail);
  }

  /** The writes of an attempt whose transcoder fails, with the handlers' writes named. */
  lemma TranscodeErrorWrites(phrases: seq<string>, env: Environment, job: ConversionJob, size: int,
                             m: VideoMetadata, events: seq<RawEvent>, e: Thrown, cleanup: CleanupOutcome)
    returns (tail: seq<Write>)
    ensures 1 <= |tail| <= 2
    ensures forall i :: 0 <= i < |tail| ==> tail[i].update.MarkFailed?
    ensures RunAttempt(phrases, env, job, true, Size(size), Ok(m), TranscodeRun(events, Error(e)), cleanup).writes
            == TranscodeWrites(job, m, size, Filter(events)) + tail
  {
    if !IsFatal(phrases, e) {
      TranscodeFailure(phrases, env, job, size, m, events, e, cleanup);
      tail := [FailWrite(job.videoId, e)];
    } else {
      FatalTranscodeFailure(phrases, env, job, size, m, events, e, cleanup);
      var last := if cleanup.Cleaned? then FailedWith(job, e.message) else FailWrite(job.videoId, cleanup.err);
      tail := [FailedWith(job, e.message), last];
    }
  }

  /** A transcode that ends normally stores `processing`, `completed`, then `failed` if cleanup throws. */
  lemma TranscodeEndTrace(phrases: seq<string>, env: Environment, job: ConversionJob, size: int,
                          m: VideoMetadata, events: seq<RawEvent>, cleanup: CleanupOutcome)
    ensures AllowedTrace(StatusTrace(RunAttempt(phrases, env, job, true, Size(size), Ok(m),
                                                TranscodeRun(events, End), cleanup).writes))
  {
    if cleanup.Cleaned? {
      SuccessTrace(phrases, env, job, Delivery(true, Size(size), Ok(m), TranscodeRun(events, End), cleanup));
    } else {
      CleanupFailureTrace(phrases, env, job, size, m, events, cleanup.err);
    }
  }

  /** A cleanup that throws after `completed` appends one or two `failed`. */
  lemma CleanupFailureTrace(phrases: seq<string>, env: Environment, job: ConversionJob, size: int,
                            m: VideoMetadata, events: seq<RawEvent>, c: Thrown)
    ensures AllowedTrace(StatusTrace(RunAttempt(phrases, env, job, true, Size(size), Ok(m),
                                                TranscodeRun(events, End), CleanupFailed(c)).writes))
  {
    var tail := CleanupFailureWrites(phrases, env, job, size, m, events, c);
    CompletedThenFailures(job, m, size, ConvertVideo(events, End, true).callbacks, tail);
  }

  /** The transcode writes, `completed`, then one or two `failed` give an allowed trace. */
  lemma {:induction false} CompletedThenFailures(job: ConversionJob, m: VideoMetadata, size: int, cs: seq<int>, tail: seq<Write>)
    requires 1 <= |tail| <= 2
    requires forall i :: 0 <= i < |tail| ==> tail[i].update.MarkFailed?
    ensures AllowedTrace(StatusTrace((TranscodeWrites(job, m, size, cs)
                                      + [Write(job.videoId, MarkCompleted(job.outputPath))]) + tail))
  {
    var base := TranscodeWrites(job, m, size, cs);
    var completed := Write(job.videoId, MarkCompleted(job.outputPath));
    TranscodeWritesTrace(job, m, size, cs);
    TraceSnoc(base, completed);
    FailuresAfterCompleted(base + [completed], tail);
  }

  /** The writes of an attempt whose cleanup throws, with the handlers' writes named. */
  lemma CleanupFailureWrites(phrases: seq<string>, env: Environment, job: ConversionJob, size: int,
                             m: VideoMetadata, events: seq<RawEvent>, c: Thrown)
    returns (tail: seq<Write>)
    ensures 1 <= |tail| <= 2
    ensures forall i :: 0 <= i < |tail| ==> tail[i].update.MarkFailed?
    ensures RunAttempt(phrases, env, job, true, Size(size), Ok(m), TranscodeRun(events, End), CleanupFailed(c)).writes
            == (TranscodeWrites(job, m, size, ConvertVideo(events, End, true).callbacks)
                + [Write(job.videoId, MarkCompleted(job.outputPath))]) + tail
  {
    CleanupFailsAfterCompleted(phrases, env, job, size, m, events, c);
    tail := (if IsFatal(phrases, c) then [FailedWith(job, c.message)] else []) + [FailWrite(job.videoId, c)];
  }

  /** Writes storing `processing`, `completed`, then one or two `failed` give an allowed trace. */
  lemma {:induction false} FailuresAfterCompleted(done: seq<Write>, tail: seq<Write>)
    requires StatusTrace(done) == [Processing, Completed]
    requires 1 <= |tail| <= 2
    requires forall i :: 0 <= i < |tail| ==> tail[i].update.MarkFailed?
    ensures AllowedTrace(StatusTrace(done + tail))
  {
    StatusTraceAppend(done, tail);
    OnlyFailures(tail);
    var t := StatusTrace(tail);
    if |tail| == 1 {
      assert t == [Failed];
      assert [Processing, Completed] + t == [Processing, Completed, Failed];
      assert AllowedTrace([Processing, Completed, Failed]);
    } else {
      assert t == [Failed, Failed];
      assert [Processing, Completed] + t == [Processing, Completed, Failed, Failed];
      assert AllowedTrace([Processing, Completed, Failed, Failed]);
    }
  }

  /**
   * The statuses one attempt stores: `processing` first, then `completed`
   * and/or `failed`; `failed` is stored twice when the inner handler ran on
   * a fatal error, and `completed` is followed by `failed` when cleanup
   * throws.
   */
  lemma AttemptStatusTrace(phrases: seq<string>, env: Environment, job: ConversionJob,
                           inputExists: bool, stat: StatOutcome, validation: Result<VideoMetadata>,
                           run: TranscodeRun, cleanup: CleanupOutcome)
    ensures StatusTrace(RunAttempt(phrases, env, job, inputExists, stat, validation, run, cleanup).writes) in
              {[Processing, Completed], [Processing, Failed], [Processing, Failed, Failed],
               [Processing, Completed, Failed], [Processing, Completed, Failed, Failed]}
  {
    if !inputExists || stat.StatFailed? || validation.Throws? {
      EarlyFailureTrace(phrases, env, job, inputExists, stat, validation, run, cleanup);
    } else if run.termination.Error? {
      TranscodeErrorTrace(phrases, env, job, stat.bytes, validation.value, run.events, run.termination.err, cleanup);
    } else {
      TranscodeEndTrace(phrases, env, job, stat.bytes, validation.value, run.events, cleanup);
    }
  }

  /**
   * The record an attempt leaves: `completed` exactly when the attempt
   * resolves, otherwise `failed` with the message of the error thrown to the
   * queue; every other record is untouched.
   */
  lemma RecordAfterAttempt(store: Store, phrases: seq<string>, env: Environment, job: ConversionJob,
                           inputExists: bool, stat: StatOutcome, validation: Result<VideoMetadata>,
                           run: TranscodeRun, cleanup: CleanupOutcome)
    requires job.videoId in store
    ensures var r := RunAttempt(phrases, env, job, inputExists, stat, validation, run, cleanup);
            var after := ApplyAll(store, r.writes);
            && (after[job.videoId].status == Completed <==> r.disposition.Resolved?)
            && (!r.disposition.Resolved? ==>
                  && after[job.videoId].status == Failed
                  && after[job.videoId].error == Some(r.disposition.err.MessageOr(UnknownErrorMessage)))
            && (forall k :: k in store && k != job.videoId ==> after[k] == store[k])
  {
    var r := RunAttempt(phrases, env, job, inputExists, stat, validation, run, cleanup);
    ShapedAttemptRecord(store, r, job);
  }

  /** The record an attempt of the common shape leaves behind. */
  lemma ShapedAttemptRecord(store: Store, r: Attempt, job: ConversionJob)
    requires job.videoId in store
    requires AttemptShape(r, job)
    ensures var after := ApplyAll(store, r.writes);
            && (after[job.videoId].status == Completed <==> r.disposition.Resolved?)
            && (!r.disposition.Resolved? ==>
                  && after[job.videoId].status == Failed
                  && after[job.videoId].error == Some(r.disposition.err.MessageOr(UnknownErrorMessage)))
            && (forall k :: k in store && k != job.videoId ==> after[k] == store[k])
  {
    LastWriteDecides(store, r.writes, job.videoId);
    forall k | k in store && k != job.videoId
      ensures ApplyAll(store, r.writes)[k] == store[k]
    {
      ApplyAllOtherRecords(store, r.writes, k);
    }
  }

  /** The last write of a sequence is applied to the record as the earlier ones left it. */
  lemma {:induction false} LastWriteDecides(store: Store, ws: seq<Write>, id: string)
    requires id in store
    requires |ws| > 0 && ws[|ws| - 1].id == id
    ensures ApplyAll(store, ws)[id] == Apply(ApplyAll(store, ws[..|ws| - 1])[id], ws[|ws| - 1].update)
  {
    var n := |ws|;
    var before := ApplyAll(store, ws[..n - 1]);
    assert ws == ws[..n - 1] + [ws[n - 1]];
    ApplyAllAppend(store, ws[..n - 1], [ws[n - 1]]);
    assert [ws[n - 1]][1..] == [];
    assert ApplyAll(before, [ws[n - 1]]) == ApplyWrite(before, ws[n - 1]);
  }

  /** Progress writes change nothing but `progress`, which ends at the last value written. */
  lemma {:induction false} ProgressWritesEffect(store: Store, id: string, ps: seq<int>)
    requires id in store
    ensures ApplyAll(store, ProgressWrites(id, ps))[id]
            == store[id].(progress := if |ps| > 0 then ps[|ps| - 1] else store[id].progress)
    decreases |ps|
  {
    if |ps| > 0 {
      var ws := ProgressWrites(id, ps);
      assert ws[1..] == ProgressWrites(id, ps[1..]);
      ProgressWritesEffect(ApplyWrite(store, ws[0]), id, ps[1..]);
    }
  }

  /**
   * The record a successful attempt leaves: `completed`, progress 100, the
   * job's own output path, the probed metadata with the `stat` size, and no
   * error; the identity fields are those it had before.
   */
  lemma RecordAfterSuccess(store: Store, phrases: seq<string>, env: Environment, job: ConversionJob,
                           size: int, m: VideoMetadata, events: seq<RawEvent>)
    requires job.videoId in store
    ensures ApplyAll(store, RunAttempt(phrases, env, job, true, Size(size), Ok(m), TranscodeRun(events, End),
                                       Cleaned).writes)[job.videoId]
            == store[job.videoId].(status := Completed, progress := 100, outputPath := Some(job.outputPath),
                                   error := None, metadata := Metadata(m.duration, m.width, m.height, size))
  {
    SuccessfulRun(phrases, env, job, size, m, events);
    var id := job.videoId;
    var cs := ConvertVideo(events, End, true).callbacks;
    var head := [Started(job), MetadataWrite(job, m, size)];
    var done := [Write(id, MarkCompleted(job.outputPath))];
    assert CompletedWrites(job, m, size, events) == head + ProgressWrites(id, cs) + done;
    ApplyAllAppend(store, head + ProgressWrites(id, cs), done);
    ApplyAllAppend(store, head, ProgressWrites(id, cs));
    var s1 := ApplyAll(store, head);
    var s0 := ApplyWrite(store, head[0]);
    assert head[1..][0] == head[1] && head[1..][1..] == [];
    assert ApplyAll(s0, head[1..]) == ApplyAll(ApplyWrite(s0, head[1]), []);
    assert s1 == ApplyWrite(s0, head[1]);
    assert s1[id] == store[id].(status := Processing, progress := 0, error := None,
                                metadata := Metadata(m.duration, m.width, m.height, size));
    ProgressWritesEffect(s1, id, cs);
  }

  /** Writes in bounds keep every record's progress within the schema bounds. */
  lemma AttemptKeepsProgressInBounds(store: Store, phrases: seq<string>, env: Environment, job: ConversionJob,
                                     inputExists: bool, stat: StatOutcome, validation: Result<VideoMetadata>,
                                     run: TranscodeRun, cleanup: CleanupOutcome)
    requires forall k :: k in store ==> ProgressInBounds(store[k])
    ensures var after := ApplyAll(store, RunAttempt(phrases, env, job, inputExists, stat, validation, run, cleanup).writes);
            forall k :: k in after ==> ProgressInBounds(after[k])
  {
    var r := RunAttempt(phrases, env, job, inputExists, stat, validation, run, cleanup);
    ApplyAllKeepsBounds(store, r.writes);
  }

  /**
   * A redelivery after a retryable failure writes `processing` again over the
   * `failed` record: progress back to 0 and the error cleared.
   */
  lemma RedeliveryReentersProcessing(store: Store, phrases: seq<string>, env: Environment, job: ConversionJob,
                                     first: Delivery, second: Delivery)
    requires job.videoId in store
    requires !Deliver(phrases, env, job, first).disposition.Resolved?
    ensures var failed := ApplyAll(store, Deliver(phrases, env, job, first).writes);
            var again := ApplyWrite(failed, Deliver(phrases, env, job, second).writes[0]);
            && failed[job.videoId].status == Failed
            && again[job.videoId].status == Processing
            && again[job.videoId].progress == 0
            && again[job.videoId].error == None
  {
    var d := first;
    RecordAfterAttempt(store, phrases, env, job, d.inputExists, d.stat, d.validation, d.run, d.cleanup);
  }

  /** The oracle outcomes of one delivery of a job. */
  datatype Delivery = Delivery(inputExists: bool, stat: StatOutcome, validation: Result<VideoMetadata>,
                               run: TranscodeRun, cleanup: CleanupOutcome)

  function Deliver(phrases: seq<string>, env: Environment, job: ConversionJob, d: Delivery): Attempt {
    RunAttempt(phrases, env, job, d.inputExists, d.stat, d.validation, d.run, d.cleanup)
  }

  /** The writes of successive deliveries of one job, in order. */
  function DeliverAll(phrases: seq<string>, env: Environment, job: ConversionJob, ds: seq<Delivery>): (ws: seq<Write>)
    ensures forall i :: 0 <= i < |ws| ==> ws[i].id == job.videoId
    decreases |ds|
  {
    if |ds| == 0 then []
    else DeliverAll(phrases, env, job, ds[..|ds| - 1]) + Deliver(phrases, env, job, ds[|ds| - 1]).writes
  }

  /** How many writes set `processing`. */
  function CountStarts(ws: seq<Write>): nat
    decreases |ws|
  {
    if |ws| == 0 then 0
    else (if ws[0].update.MarkProcessing? then 1 else 0) + CountStarts(ws[1..])
  }

  lemma {:induction false} CountStartsAppend(a: seq<Write>, b: seq<Write>)
    ensures CountStarts(a + b) == CountStarts(a) + CountStarts(b)
    decreases |a|
  {
    if |a| == 0 {
      assert a + b == b;
    } else {
      assert (a + b)[1..] == a[1..] + b;
      CountStartsAppend(a[1..], b);
    }
  }

  lemma {:induction false} NoStartsCountZero(ws: seq<Write>)
    requires forall i :: 0 <= i < |ws| ==> !ws[i].update.MarkProcessing?
    ensures CountStarts(ws) == 0
    decreases |ws|
  {
    if |ws| > 0 {
      NoStartsCountZero(ws[1..]);
    }
  }

  /** Each attempt writes `processing` exactly once. */
  lemma AttemptStartsOnce(phrases: seq<string>, env: Environment, job: ConversionJob, d: Delivery)
    ensures CountStarts(Deliver(phrases, env, job, d).writes) == 1
  {
    var ws := Deliver(phrases, env, job, d).writes;
    NoStartsCountZero(ws[1..]);
  }

  /**
   * Over any number of deliveries, `processing` is written once per delivery,
   * and the record ends `completed` exactly when the last delivery resolves.
   */
  lemma {:induction false} LastDeliveryDecides(store: Store, phrases: seq<string>, env: Environment,
                                               job: ConversionJob, ds: seq<Delivery>)
    requires job.videoId in store
    requires |ds| > 0
    ensures CountStarts(DeliverAll(phrases, env, job, ds)) == |ds|
    ensures ApplyAll(store, DeliverAll(phrases, env, job, ds))[job.videoId].status == Completed
            <==> Deliver(phrases, env, job, ds[|ds| - 1]).disposition.Resolved?
    decreases |ds|
  {
    var init := ds[..|ds| - 1];
    var d := ds[|ds| - 1];
    var earlier := DeliverAll(phrases, env, job, init);
    var last := Deliver(phrases, env, job, d);
    if |init| > 0 {
      LastDeliveryDecides(store, phrases, env, job, init);
    }
    CountStartsAppend(earlier, last.writes);
    AttemptStartsOnce(phrases, env, job, d);
    ApplyAllAppend(store, earlier, last.writes);
    RecordAfterAttempt(ApplyAll(store, earlier), phrases, env, job,
                       d.inputExists, d.stat, d.validation, d.run, d.cleanup);
  }

  /** A missing input stores `processing`, then `failed`. */
  lemma MissingInputTrace(phrases: seq<string>, env: Environment, job: ConversionJob, d: Delivery)
    requires !d.inputExists
    ensures StatusTrace(Deliver(phrases, env, job, d).writes) == [Processing, Failed]
  {
    MissingInputFile(phrases, env, job, d.stat, d.validation, d.run, d.cleanup);
    var ws := Deliver(phrases, env, job, d).writes;
    assert ws[1..][1..] == [];
  }

  /** A retryable transcoder error stores `processing`, then `failed`. */
  lemma TranscodeFailureTrace(phrases: seq<string>, env: Environment, job: ConversionJob, d: Delivery)
    requires d.inputExists && d.stat.Size? && d.validation.Ok? && d.run.termination.Error?
    requires !IsFatal(phrases, d.run.termination.err)
    ensures StatusTrace(Deliver(phrases, env, job, d).writes) == [Processing, Failed]
  {
    var m := d.validation.value;
    var e := d.run.termination.err;
    TranscodeFailure(phrases, env, job, d.stat.bytes, m, d.run.events, e, d.cleanup);
    TranscodeWritesTrace(job, m, d.stat.bytes, Filter(d.run.events));
    TraceSnoc(TranscodeWrites(job, m, d.stat.bytes, Filter(d.run.events)), FailWrite(job.videoId, e));
  }

  /** A successful attempt stores `processing`, then `completed`. */
  lemma SuccessTrace(phrases: seq<string>, env: Environment, job: ConversionJob, d: Delivery)
    requires d.inputExists && d.stat.Size? && d.validation.Ok? && d.run.termination.End? && d.cleanup.Cleaned?
    ensures StatusTrace(Deliver(phrases, env, job, d).writes) == [Processing, Completed]
  {
    var m := d.validation.value;
    var cs := ConvertVideo(d.run.events, End, true).callbacks;
    SuccessfulRun(phrases, env, job, d.stat.bytes, m, d.run.events);
    TranscodeWritesTrace(job, m, d.stat.bytes, cs);
    TraceSnoc(TranscodeWrites(job, m, d.stat.bytes, cs), Write(job.videoId, MarkCompleted(job.outputPath)));
  }

  /** Three deliveries contribute their writes in order. */
  lemma DeliverThree(phrases: seq<string>, env: Environment, job: ConversionJob, d1: Delivery, d2: Delivery,
                     d3: Delivery)
    ensures DeliverAll(phrases, env, job, [d1, d2, d3])
            == Deliver(phrases, env, job, d1).writes + Deliver(phrases, env, job, d2).writes
               + Deliver(phrases, env, job, d3).writes
  {
    var ds := [d1, d2, d3];
    assert ds[..2] == [d1, d2] && [d1, d2][..1] == [d1] && [d1][..0] == [];
    assert DeliverAll(phrases, env, job, [d1]) == Deliver(phrases, env, job, d1).writes;
  }

  /** Traces of consecutive write sequences concatenate. */
  lemma TraceOfThree(w1: seq<Write>, w2: seq<Write>, w3: seq<Write>)
    ensures StatusTrace(w1 + w2 + w3) == StatusTrace(w1) + StatusTrace(w2) + StatusTrace(w3)
  {
    StatusTraceAppend(w1, w2);
    StatusTraceAppend(w1 + w2, w3);
  }

  /** The three deliveries of the scenario below. */
  function RetryScenario(size: int, m: VideoMetadata, failing: seq<RawEvent>, e: Thrown,
                         events: seq<RawEvent>): seq<Delivery>
  {
    [Delivery(false, Size(size), Ok(m), TranscodeRun(failing, Error(e)), Cleaned),
     Delivery(true, Size(size), Ok(m), TranscodeRun(failing, Error(e)), Cleaned),
     Delivery(true, Size(size), Ok(m), TranscodeRun(events, End), Cleaned)]
  }

  /** Three deliveries store the statuses of each, one after the other. */
  lemma ThreeDeliveriesTrace(phrases: seq<string>, env: Environment, job: ConversionJob,
                             d1: Delivery, d2: Delivery, d3: Delivery, t1: seq<Status>, t2: seq<Status>, t3: seq<Status>)
    requires StatusTrace(Deliver(phrases, env, job, d1).writes) == t1
    requires StatusTrace(Deliver(phrases, env, job, d2).writes) == t2
    requires StatusTrace(Deliver(phrases, env, job, d3).writes) == t3
    ensures StatusTrace(DeliverAll(phrases, env, job, [d1, d2, d3])) == t1 + t2 + t3
  {
    DeliverThree(phrases, env, job, d1, d2, d3);
    TraceOfThree(Deliver(phrases, env, job, d1).writes, Deliver(phrases, env, job, d2).writes,
                 Deliver(phrases, env, job, d3).writes);
  }

  /** The statuses the scenario stores, and its three `processing` writes. */
  lemma RetryScenarioTrace(phrases: seq<string>, env: Environment, job: ConversionJob,
                           size: int, m: VideoMetadata, failing: seq<RawEvent>, e: Thrown, events: seq<RawEvent>)
    requires !IsFatal(phrases, e)
    ensures var ws := DeliverAll(phrases, env, job, RetryScenario(size, m, failing, e, events));
            StatusTrace(ws) == [Processing, Failed, Processing, Failed, Processing, Completed]
  {
    var ds := RetryScenario(size, m, failing, e, events);
    MissingInputTrace(phrases, env, job, ds[0]);
    TranscodeFailureTrace(phrases, env, job, ds[1]);
    SuccessTrace(phrases, env, job, ds[2]);
    assert ds == [ds[0], ds[1], ds[2]];
    ThreeDeliveriesTrace(phrases, env, job, ds[0], ds[1], ds[2],
                         [Processing, Failed], [Processing, Failed], [Processing, Completed]);
  }

  /**
   * A job whose input is missing on the first delivery and whose transcoder
   * fails on the second, and which succeeds on the third: the record goes
   * processing, failed, processing, failed, processing, completed, with one
   * `processing` write per delivery, and ends with progress 100.
   */
  lemma RetriedTwiceThenCompleted(store: Store, phrases: seq<string>, env: Environment, job: ConversionJob,
                                  size: int, m: VideoMetadata, failing: seq<RawEvent>, e: Thrown,
                                  events: seq<RawEvent>)
    requires job.videoId in store
    requires !IsFatal(phrases, e)
    ensures var ws := DeliverAll(phrases, env, job, RetryScenario(size, m, failing, e, events));
            && StatusTrace(ws) == [Processing, Failed, Processing, Failed, Processing, Completed]
            && CountStarts(ws) == 3
            && ApplyAll(store, ws)[job.videoId].status == Completed
            && ApplyAll(store, ws)[job.videoId].progress == 100
  {
    var ds := RetryScenario(size, m, failing, e, events);
    var w1 := Deliver(phrases, env, job, ds[0]).writes;
    var w2 := Deliver(phrases, env, job, ds[1]).writes;
    RetryScenarioTrace(phrases, env, job, size, m, failing, e, events);
    LastDeliveryDecides(store, phrases, env, job, ds);
    assert ds == [ds[0], ds[1], ds[2]];
    DeliverThree(phrases, env, job, ds[0], ds[1], ds[2]);
    FinalRecordAfter(store, phrases, env, job, w1 + w2, size, m, events);
  }

  /** Whatever came before, a successful attempt leaves its record `completed` with progress 100. */
  lemma FinalRecordAfter(store: Store, phrases: seq<string>, env: Environment, job: ConversionJob,
                         earlier: seq<Write>, size: int, m: VideoMetadata, events: seq<RawEvent>)
    requires job.videoId in store
    ensures var ws := earlier + RunAttempt(phrases, env, job, true, Size(size), Ok(m), TranscodeRun(events, End),
                                           Cleaned).writes;
            ApplyAll(store, ws)[job.videoId].status == Completed && ApplyAll(store, ws)[job.videoId].progress == 100
  {
    var w3 := RunAttempt(phrases, env, job, true, Size(size), Ok(m), TranscodeRun(events, End), Cleaned).writes;
    ApplyAllAppend(store, earlier, w3);
    RecordAfterSuccess(ApplyAll(store, earlier), phrases, env, job, size, m, events);
  }

  /*
   * Store writes the progress callback issues late. Each callback awaits
   * `job.progress` before it issues its store write, and the transcoder
   * calls the callback for its forced 100 without awaiting it before it
   * fulfils, so a trailing run of progress writes can reach the store after
   * the terminal write. The lemmas below take such a run, still in callback
   * order, and show the record ends as it does with the writes in order.
   */

  /** Progress writes for consecutive callback runs are the writes of the whole run. */
  lemma ProgressWritesAppend(id: string, a: seq<int>, b: seq<int>)
    ensures ProgressWrites(id, a + b) == ProgressWrites(id, a) + ProgressWrites(id, b)
  {
  }

  /** A `failed` write and a progress write set disjoint fields, so their order does not matter. */
  lemma FailedCommutesWithProgress(x: Store, f: Write, p: Write)
    requires f.update.MarkFailed? && p.update.SetProgress?
    ensures ApplyWrite(ApplyWrite(x, f), p) == ApplyWrite(ApplyWrite(x, p), f)
  {
  }

  lemma {:induction false} FailedCommutesWithProgressWrites(x: Store, f: Write, id: string, ps: seq<int>)
    requires f.update.MarkFailed?
    ensures ApplyAll(ApplyWrite(x, f), ProgressWrites(id, ps)) == ApplyWrite(ApplyAll(x, ProgressWrites(id, ps)), f)
    decreases |ps|
  {
    if |ps| > 0 {
      var ws := ProgressWrites(id, ps);
      assert ws[1..] == ProgressWrites(id, ps[1..]);
      FailedCommutesWithProgress(x, f, ws[0]);
      FailedCommutesWithProgressWrites(ApplyWrite(x, ws[0]), f, id, ps[1..]);
    }
  }

  /** A run of `failed` writes may be overtaken by a run of progress writes without changing the store. */
  lemma {:induction false} FailuresCommuteWithProgressWrites(x: Store, fails: seq<Write>, id: string, ps: seq<int>)
    requires forall i :: 0 <= i < |fails| ==> fails[i].update.MarkFailed?
    ensures ApplyAll(x, fails + ProgressWrites(id, ps)) == ApplyAll(x, ProgressWrites(id, ps) + fails)
    decreases |fails|
  {
    var p := ProgressWrites(id, ps);
    if |fails| == 0 {
      assert fails + p == p == p + fails;
    } else {
      assert (fails + p)[1..] == fails[1..] + p;
      FailuresCommuteWithProgressWrites(ApplyWrite(x, fails[0]), fails[1..], id, ps);
      ApplyAllAppend(ApplyWrite(x, fails[0]), p, fails[1..]);
      FailedCommutesWithProgressWrites(x, fails[0], id, ps);
      ApplyAllAppend(x, p, fails);
    }
  }

  /** The writes up to the `k`-th callback, then the progress writes of the rest. */
  lemma TranscodeWritesSplit(job: ConversionJob, m: VideoMetadata, size: int, cs: seq<int>, k: nat)
    requires k <= |cs|
    ensures TranscodeWrites(job, m, size, cs)
            == TranscodeWrites(job, m, size, cs[..k]) + ProgressWrites(job.videoId, cs[k..])
  {
    assert cs == cs[..k] + cs[k..];
    ProgressWritesAppend(job.videoId, cs[..k], cs[k..]);
  }

  /** Writes after a common prefix: equal effects on every store give equal effects after the prefix. */
  lemma SameAfterPrefix(store: Store, a: seq<Write>, b: seq<Write>, c: seq<Write>)
    requires ApplyAll(ApplyAll(store, a), b) == ApplyAll(ApplyAll(store, a), c)
    ensures ApplyAll(store, a + b) == ApplyAll(store, a + c)
  {
    ApplyAllAppend(store, a, b);
    ApplyAllAppend(store, a, c);
  }

  /**
   * A `completed` write overtaken by a run of progress writes that ends in
   * 100 leaves the store as the run followed by `completed` does.
   */
  lemma CompletedThenProgress(x: Store, done: Write, ps: seq<int>)
    requires done.update.MarkCompleted? && done.id in x
    requires |ps| > 0 ==> ps[|ps| - 1] == 100
    ensures ApplyAll(x, [done] + ProgressWrites(done.id, ps)) == ApplyAll(x, ProgressWrites(done.id, ps) + [done])
  {
    var id := done.id;
    var late := ProgressWrites(id, ps);
    ApplyAllAppend(x, [done], late);
    ApplyAllAppend(x, late, [done]);
    assert [done][1..] == [];
    var lhs := ApplyAll(ApplyWrite(x, done), late);
    var rhs := ApplyWrite(ApplyAll(x, late), done);
    ProgressWritesEffect(x, id, ps);
    ProgressWritesEffect(ApplyWrite(x, done), id, ps);
    assert lhs[id] == rhs[id];
    forall j | j in x && j != id
      ensures lhs[j] == rhs[j]
    {
      ApplyAllOtherRecords(ApplyWrite(x, done), late, j);
      ApplyAllOtherRecords(x, late, j);
    }
    StoresAgree(lhs, rhs);
  }

  /** Two stores with the same ids and the same record under each are the same store. */
  lemma StoresAgree(a: Store, b: Store)
    requires a.Keys == b.Keys
    requires forall j :: j in a ==> a[j] == b[j]
    ensures a == b
  {
  }

  /**
   * A failed attempt whose last progress writes reach the store after its
   * `failed` writes leaves the record it leaves with every write in order:
   * `failed` keeps progress, and progress writes keep status and error.
   */
  lemma DeferredProgressAfterFailure(store: Store, job: ConversionJob, m: VideoMetadata, size: int,
                                     cs: seq<int>, k: nat, fails: seq<Write>)
    requires k <= |cs|
    requires forall i :: 0 <= i < |fails| ==> fails[i].update.MarkFailed?
    ensures ApplyAll(store, TranscodeWrites(job, m, size, cs[..k]) + fails + ProgressWrites(job.videoId, cs[k..]))
            == ApplyAll(store, TranscodeWrites(job, m, size, cs) + fails)
  {
    var a := TranscodeWrites(job, m, size, cs[..k]);
    var late := ProgressWrites(job.videoId, cs[k..]);
    TranscodeWritesSplit(job, m, size, cs, k);
    assert a + fails + late == a + (fails + late);
    assert a + late + fails == a + (late + fails);
    FailuresCommuteWithProgressWrites(ApplyAll(store, a), fails, job.videoId, cs[k..]);
    SameAfterPrefix(store, a, fails + late, late + fails);
  }

  /** A run of callbacks that ends in 100, with its trailing writes after `completed`. */
  lemma DeferredProgressAfterCompleted(store: Store, job: ConversionJob, m: VideoMetadata, size: int,
                                       cs: seq<int>, k: nat)
    requires job.videoId in store
    requires k <= |cs| && |cs| > 0 && cs[|cs| - 1] == 100
    ensures var done := Write(job.videoId, MarkCompleted(job.outputPath));
            ApplyAll(store, TranscodeWrites(job, m, size, cs[..k]) + [done] + ProgressWrites(job.videoId, cs[k..]))
            == ApplyAll(store, TranscodeWrites(job, m, size, cs) + [done])
  {
    var a := TranscodeWrites(job, m, size, cs[..k]);
    var done := Write(job.videoId, MarkCompleted(job.outputPath));
    var late := ProgressWrites(job.videoId, cs[k..]);
    TranscodeWritesSplit(job, m, size, cs, k);
    assert a + late + [done] == a + (late + [done]);
    assert a + [done] + late == a + ([done] + late);
    CompletedThenProgress(ApplyAll(store, a), done, cs[k..]);
    SameAfterPrefix(store, a, [done] + late, late + [done]);
  }

  /**
   * A successful attempt whose last progress writes reach the store after
   * `completed` leaves the record it leaves with every write in order: on
   * success the last callback is always 100, the value `completed` stores.
   */
  lemma DeferredProgressAfterSuccess(store: Store, job: ConversionJob, m: VideoMetadata, size: int,
                                     events: seq<RawEvent>, k: nat)
    requires job.videoId in store
    requires k <= |ConvertVideo(events, End, true).callbacks|
    ensures var cs := ConvertVideo(events, End, true).callbacks;
            ApplyAll(store, TranscodeWrites(job, m, size, cs[..k]) + [Write(job.videoId, MarkCompleted(job.outputPath))]
                            + ProgressWrites(job.videoId, cs[k..]))
            == ApplyAll(store, CompletedWrites(job, m, size, events))
  {
    var cs := ConvertVideo(events, End, true).callbacks;
    DeferredProgressAfterCompleted(store, job, m, size, cs, k);
  }
}
