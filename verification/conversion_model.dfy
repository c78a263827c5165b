/**
 * The Conversion record the worker writes into: its fields, the status enum,
 * the defaults applied on creation, and the partial updates the worker issues
 * through `findByIdAndUpdate`.
 */
module ConversionModel {
  import opened Wrappers

  datatype Status = Pending | Processing | Completed | Failed

  /** The strings the schema's `enum` accepts, in declaration order. */
  function StatusName(s: Status): string {
    match s
    case Pending => "pending"
    case Processing => "processing"
    case Completed => "completed"
    case Failed => "failed"
  }

  /** The schema's enum check: a stored status string names one of the four states. */
  function ParseStatus(name: string): (r: Option<Status>)
    ensures r.Some? ==> StatusName(r.value) == name
    ensures r.None? ==> forall s: Status :: StatusName(s) != name
  {
    if name == "pending" then Some(Pending)
    else if name == "processing" then Some(Processing)
    else if name == "completed" then Some(Completed)
    else if name == "failed" then Some(Failed)
    else None
  }

  /** Every status survives a round trip through its stored name. */
  lemma StatusNameRoundTrip(s: Status)
    ensures ParseStatus(StatusName(s)) == Some(s)
  {
  }

  /** Technical metadata; duration is in seconds, size in bytes. */
  datatype Metadata = Metadata(duration: real, width: int, height: int, size: int)

  /** Metadata as supplied on creation: any sub-field may be missing. */
  datatype MetadataInput = MetadataInput(duration: Option<real>, width: Option<int>,
                                         height: Option<int>, size: Option<int>)

  datatype Conversion = Conversion(
    userId: string,
    originalFileName: string,
    inputPath: string,
    outputPath: Option<string>,
    status: Status,
    error: Option<string>,
    metadata: Metadata,
    progress: int)

  /** The schema's declared bounds on `progress` (`min: 0`, `max: 100`). */
  predicate ProgressInBounds(c: Conversion) {
    0 <= c.progress <= 100
  }

  /** A required String path is satisfied only by a present, non-empty string. */
  predicate RequiredPresent(v: Option<string>) {
    v.Some? && v.value != ""
  }

  /** Names of the required paths that are missing, in schema order. */
  function MissingRequired(userId: Option<string>, originalFileName: Option<string>,
                           inputPath: Option<string>): (r: seq<string>)
    ensures |r| <= 3
    ensures ("userId" in r) <==> !RequiredPresent(userId)
    ensures ("originalFileName" in r) <==> !RequiredPresent(originalFileName)
    ensures ("inputPath" in r) <==> !RequiredPresent(inputPath)
  {
    (if RequiredPresent(userId) then [] else ["userId"]) +
    (if RequiredPresent(originalFileName) then [] else ["originalFileName"]) +
    (if RequiredPresent(inputPath) then [] else ["inputPath"])
  }

  datatype CreateResult = Created(record: Conversion) | ValidationFailed(missing: seq<string>)

  /**
   * Creating and validating a new record: required paths must be present,
   * `status` defaults to pending, `progress` to 0, each metadata field to 0,
   * and `outputPath`/`error` stay optional.
   */
  function Create(userId: Option<string>, originalFileName: Option<string>, inputPath: Option<string>,
                  outputPath: Option<string>, metadata: MetadataInput): (r: CreateResult)
    ensures r.Created? <==>
              RequiredPresent(userId) && RequiredPresent(originalFileName) && RequiredPresent(inputPath)
    ensures r.Created? ==>
              && r.record.status == Pending
              && r.record.progress == 0
              && r.record.error == None
              && r.record.outputPath == outputPath
              && r.record.userId == userId.value
              && r.record.originalFileName == originalFileName.value
              && r.record.inputPath == inputPath.value
              && (metadata.duration.None? ==> r.record.metadata.duration == 0.0)
              && (metadata.width.None? ==> r.record.metadata.width == 0)
              && (metadata.height.None? ==> r.record.metadata.height == 0)
              && (metadata.size.None? ==> r.record.metadata.size == 0)
              && (metadata.duration.Some? ==> r.record.metadata.duration == metadata.duration.value)
              && (metadata.width.Some? ==> r.record.metadata.width == metadata.width.value)
              && (metadata.height.Some? ==> r.record.metadata.height == metadata.height.value)
              && (metadata.size.Some? ==> r.record.metadata.size == metadata.size.value)
              && ProgressInBounds(r.record)
    ensures r.ValidationFailed? ==> |r.missing| > 0
  {
    var missing := MissingRequired(userId, originalFileName, inputPath);
    if |missing| > 0 then ValidationFailed(missing)
    else
      Created(Conversion(
        userId.value, originalFileName.value, inputPath.value, outputPath,
        Pending, None,
        Metadata(metadata.duration.GetOr(0.0), metadata.width.GetOr(0),
                 metadata.height.GetOr(0), metadata.size.GetOr(0)),
        0))
  }

  /** The partial updates the worker sends; each names exactly the fields it sets. */
  datatype Update =
    | MarkProcessing              // status 'processing', progress 0, error null
    | SetMetadata(m: Metadata)    // the whole metadata sub-document
    | SetProgress(p: int)         // progress only
    | MarkCompleted(path: string) // status 'completed', progress 100, outputPath
    | MarkFailed(message: string) // status 'failed', error

  /**
   * One update applied to one record. Update validators are not run by
   * `findByIdAndUpdate`, so a progress value is stored as given.
   */
  function Apply(c: Conversion, u: Update): (r: Conversion)
    ensures r.userId == c.userId && r.originalFileName == c.originalFileName && r.inputPath == c.inputPath
    ensures u.MarkProcessing? ==> r.status == Processing && r.progress == 0 && r.error == None
    ensures u.SetProgress? ==> r.progress == u.p && r.status == c.status && r.error == c.error
    ensures u.SetMetadata? ==> r.metadata == u.m && r.status == c.status && r.progress == c.progress
    ensures u.MarkCompleted? ==> r.status == Completed && r.progress == 100 && r.outputPath == Some(u.path)
                                  && r.error == c.error
    ensures u.MarkFailed? ==> r.status == Failed && r.error == Some(u.message) && r.progress == c.progress
    ensures !u.SetMetadata? ==> r.metadata == c.metadata
    ensures !u.MarkCompleted? ==> r.outputPath == c.outputPath
  {
    match u
    case MarkProcessing => c.(status := Processing, progress := 0, error := None)
    case SetMetadata(m) => c.(metadata := m)
    case SetProgress(p) => c.(progress := p)
    case MarkCompleted(path) => c.(status := Completed, progress := 100, outputPath := Some(path))
    case MarkFailed(message) => c.(status := Failed, error := Some(message))
  }

  /** An update keeps `progress` within the schema bounds. */
  predicate UpdateInBounds(u: Update) {
    u.SetProgress? ==> 0 <= u.p <= 100
  }

  /** `Conversion.findByIdAndUpdate(id, update)`, as issued by the worker. */
  datatype Write = Write(id: string, update: Update)

  type Store = map<string, Conversion>

  /** A write to an unknown id finds nothing and changes nothing. */
  function ApplyWrite(store: Store, w: Write): (r: Store)
    ensures r.Keys == store.Keys
    ensures w.id in store ==> r[w.id] == Apply(store[w.id], w.update)
    ensures forall k :: k in store && k != w.id ==> r[k] == store[k]
  {
    if w.id in store then store[w.id := Apply(store[w.id], w.update)] else store
  }

  /** Writes applied in the order they were issued. */
  function ApplyAll(store: Store, ws: seq<Write>): (r: Store)
    ensures r.Keys == store.Keys
    decreases |ws|
  {
    if |ws| == 0 then store else ApplyAll(ApplyWrite(store, ws[0]), ws[1..])
  }

  lemma {:induction false} ApplyAllAppend(store: Store, a: seq<Write>, b: seq<Write>)
    ensures ApplyAll(store, a + b) == ApplyAll(ApplyAll(store, a), b)
    decreases |a|
  {
    if |a| == 0 {
      assert a + b == b;
    } else {
      assert (a + b)[1..] == a[1..] + b;
      ApplyAllAppend(ApplyWrite(store, a[0]), a[1..], b);
    }
  }

  /** Records other than the target of every write are left alone. */
  lemma {:induction false} ApplyAllOtherRecords(store: Store, ws: seq<Write>, k: string)
    requires k in store
    requires forall i :: 0 <= i < |ws| ==> ws[i].id != k
    ensures ApplyAll(store, ws)[k] == store[k]
    decreases |ws|
  {
    if |ws| > 0 {
      ApplyAllOtherRecords(ApplyWrite(store, ws[0]), ws[1..], k);
    }
  }

  /** Writes whose updates respect the bounds keep every record's progress in bounds. */
  lemma {:induction false} ApplyAllKeepsBounds(store: Store, ws: seq<Write>)
    requires forall k :: k in store ==> ProgressInBounds(store[k])
    requires forall i :: 0 <= i < |ws| ==> UpdateInBounds(ws[i].update)
    ensures forall k :: k in ApplyAll(store, ws) ==> ProgressInBounds(ApplyAll(store, ws)[k])
    decreases |ws|
  {
    if |ws| > 0 {
      ApplyAllKeepsBounds(ApplyWrite(store, ws[0]), ws[1..]);
    }
  }

  /** The identity fields of a record never change under the worker's writes. */
  lemma {:induction false} ApplyAllKeepsIdentity(store: Store, ws: seq<Write>, k: string)
    requires k in store
    ensures ApplyAll(store, ws)[k].userId == store[k].userId
    ensures ApplyAll(store, ws)[k].originalFileName == store[k].originalFileName
    ensures ApplyAll(store, ws)[k].inputPath == store[k].inputPath
    decreases |ws|
  {
    if |ws| > 0 {
      ApplyAllKeepsIdentity(ApplyWrite(store, ws[0]), ws[1..], k);
    }
  }
}
