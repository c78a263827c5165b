/**
 * The worker's input check: pick the first video stream of a probe, default
 * missing numbers to zero, and reject videos beyond the configured limits.
 */
module Validator {
  import opened Wrappers
  import opened Strings

  /** The worker's video limits (pixels, pixels, seconds). */
  const MaxWidth: nat := 1024
  const MaxHeight: nat := 768
  const MaxDuration: nat := 10

  datatype VideoMetadata = VideoMetadata(width: int, height: int, duration: real)

  /** One ffprobe stream; absent numbers are `undefined`. */
  datatype Stream = Stream(codecType: string, width: Option<int>, height: Option<int>)

  datatype ProbeData = ProbeData(streams: seq<Stream>, formatDuration: Option<real>)

  /** What ffprobe reports: a failure, or the streams and container format. */
  datatype ProbeOutcome = ProbeFailed(err: Thrown) | Probed(data: ProbeData)

  predicate IsVideo(s: Stream) {
    s.codecType == "video"
  }

  /** `streams.find(s => s.codec_type === 'video')`, as an index. */
  function FirstVideoStream(streams: seq<Stream>): (r: Option<nat>)
    ensures r.Some? ==> r.value < |streams| && IsVideo(streams[r.value])
    ensures r.Some? ==> forall j :: 0 <= j < r.value ==> !IsVideo(streams[j])
    ensures r.None? <==> forall j :: 0 <= j < |streams| ==> !IsVideo(streams[j])
  {
    if |streams| == 0 then None
    else if IsVideo(streams[0]) then Some(0)
    else
      match FirstVideoStream(streams[1..])
      case None => None
      case Some(k) => Some(k + 1)
  }

  const NoVideoStreamMessage := "No video stream found"

  /** `x || 0` for a numeric field: `undefined` (and 0 itself) give 0. */
  function OrZero(x: Option<int>): int {
    x.GetOr(0)
  }

  /** `getVideoMetadata`: the probe's first video stream, with missing values as 0. */
  function GetVideoMetadata(probe: ProbeOutcome): (r: Result<VideoMetadata>)
    ensures probe.ProbeFailed? ==> r == Throws(probe.err)
    ensures probe.Probed? && FirstVideoStream(probe.data.streams).None? ==>
              r == Throws(ErrorObject(NoVideoStreamMessage))
    ensures probe.Probed? && FirstVideoStream(probe.data.streams).Some? ==>
              var s := probe.data.streams[FirstVideoStream(probe.data.streams).value];
              r == Ok(VideoMetadata(OrZero(s.width), OrZero(s.height),
                                    probe.data.formatDuration.GetOr(0.0)))
  {
    match probe
    case ProbeFailed(err) => Throws(err)
    case Probed(data) =>
      match FirstVideoStream(data.streams)
      case None => Throws(ErrorObject(NoVideoStreamMessage))
      case Some(k) =>
        var s := data.streams[k];
        Ok(VideoMetadata(OrZero(s.width), OrZero(s.height), data.formatDuration.GetOr(0.0)))
  }

  /** The dimension message, with the limits interpolated. */
  function DimensionMessage(): string {
    DimensionHead + DimensionLimits()
  }

  /** The fixed wording of the dimension message, up to the limits. */
  const DimensionHead := "Video dimensions " + SingularPhrase + " ("

  /** `${MAX_WIDTH}x${MAX_HEIGHT})`. */
  function DimensionLimits(): string {
    NatToString(MaxWidth) + "x" + NatToString(MaxHeight) + ")"
  }

  /** The duration message, with the limit interpolated. */
  function DurationMessage(): string {
    DurationHead + NatToString(MaxDuration) + " seconds)"
  }

  /** The fixed wording of the duration message, up to the limit. */
  const DurationHead := "Video duration " + FatalPhrase + " ("

  predicate DimensionsTooLarge(m: VideoMetadata) {
    m.width > MaxWidth || m.height > MaxHeight
  }

  predicate TooLong(m: VideoMetadata) {
    m.duration > MaxDuration as real
  }

  /** The limit checks of `validateVideo` applied to probed metadata. */
  function CheckLimits(m: VideoMetadata): (r: Result<VideoMetadata>)
    ensures r.Ok? <==> !DimensionsTooLarge(m) && !TooLong(m)
    ensures r.Ok? ==> r.value == m
    ensures DimensionsTooLarge(m) ==> r == Throws(ErrorObject(DimensionMessage()))
    ensures !DimensionsTooLarge(m) && TooLong(m) ==> r == Throws(ErrorObject(DurationMessage()))
  {
    if DimensionsTooLarge(m) then Throws(ErrorObject(DimensionMessage()))
    else if TooLong(m) then Throws(ErrorObject(DurationMessage()))
    else Ok(m)
  }

  /** `validateVideo`: probe, then check the limits. */
  function ValidateVideo(probe: ProbeOutcome): (r: Result<VideoMetadata>)
    ensures GetVideoMetadata(probe).Throws? ==> r == GetVideoMetadata(probe)
    ensures GetVideoMetadata(probe).Ok? ==> r == CheckLimits(GetVideoMetadata(probe).value)
  {
    match GetVideoMetadata(probe)
    case Throws(e) => Throws(e)
    case Ok(m) => CheckLimits(m)
  }

  /** A value equal to a limit passes: every comparison is a strict `>`. */
  lemma LimitsAreInclusive(m: VideoMetadata)
    requires 0 <= m.width <= MaxWidth && 0 <= m.height <= MaxHeight
    requires 0.0 <= m.duration <= MaxDuration as real
    ensures CheckLimits(m) == Ok(m)
  {
  }

  /** A video stream without width, height or duration passes every limit. */
  lemma MissingValuesPass(data: ProbeData)
    requires FirstVideoStream(data.streams).Some?
    requires data.streams[FirstVideoStream(data.streams).value].width.None?
    requires data.streams[FirstVideoStream(data.streams).value].height.None?
    requires data.formatDuration.None?
    ensures ValidateVideo(Probed(data)) == Ok(VideoMetadata(0, 0, 0.0))
  {
  }

  /** The phrase the worker's pipeline treats as a validation failure. */
  const FatalPhrase := "exceeds maximum allowed"

  /** The duration message carries the phrase. */
  lemma DurationMessageIsFatal()
    ensures Contains(DurationMessage(), FatalPhrase)
  {
    var rest := " (" + NatToString(MaxDuration) + " seconds)";
    assert DurationMessage() == "Video duration " + FatalPhrase + rest;
    ContainsMiddle("Video duration ", FatalPhrase, rest);
  }

  /** The wording the dimension message does use. */
  const SingularPhrase := "exceed maximum allowed"

  /** The dimension message carries the singular wording. */
  lemma DimensionMessageHasSingularPhrase()
    ensures Contains(DimensionMessage(), SingularPhrase)
  {
    assert DimensionMessage() == "Video dimensions " + SingularPhrase + (" (" + DimensionLimits());
    ContainsMiddle("Video dimensions ", SingularPhrase, " (" + DimensionLimits());
  }

  /** "dimensions exceed" lacks the final 's': the phrase does not occur. */
  lemma DimensionMessageIsNotFatal()
    ensures !Contains(DimensionMessage(), FatalPhrase)
  {
    HeadIsNotFatal();
    LimitsHaveNoD();
    NotContainsConcat(DimensionHead, DimensionLimits(), FatalPhrase);
  }

  /** The fixed head cannot hold the phrase at any position. */
  lemma HeadIsNotFatal()
    ensures !Contains(DimensionHead, FatalPhrase)
  {
    forall i | 0 <= i <= |DimensionHead| - |FatalPhrase|
      ensures !OccursAt(DimensionHead, FatalPhrase, i)
    {
      NotFatalAt(i);
    }
  }

  /** Where the head has the phrase's 's', it lacks the phrase's 'x'. */
  lemma NotFatalAt(i: nat)
    requires i <= |DimensionHead| - |FatalPhrase|
    ensures DimensionHead[i..i + |FatalPhrase|] != FatalPhrase
  {
    var w := DimensionHead[i..i + |FatalPhrase|];
    if DimensionHead[i + 6] == 's' {
      SOnlyInDimensions(i + 6);
      assert w[1] == DimensionHead[i + 1] != FatalPhrase[1];
    } else {
      assert w[6] == DimensionHead[i + 6] != FatalPhrase[6];
    }
  }

  /** The interpolated limits are digits, an 'x' and a parenthesis. */
  lemma LimitsHaveNoD()
    ensures 'd' !in DimensionLimits()
  {
    var w := NatToString(MaxWidth);
    var h := NatToString(MaxHeight);
    assert forall k :: 0 <= k < |w| ==> w[k] != 'd';
    assert forall k :: 0 <= k < |h| ==> h[k] != 'd';
    assert DimensionLimits() == w + "x" + h + ")";
  }

  /** In the fixed head of the dimension message, 's' occurs only in "dimensions". */
  lemma SOnlyInDimensions(j: nat)
    requires j < |DimensionHead| && DimensionHead[j] == 's'
    ensures j == 11 || j == 15
  {
  }

  /** "No video stream found" is too short to carry the phrase. */
  lemma NoVideoStreamIsNotFatal()
    ensures !Contains(NoVideoStreamMessage, FatalPhrase)
    ensures !Contains(NoVideoStreamMessage, SingularPhrase)
  {
  }
}
