/**
 * The client's conversion progress view: it polls the conversion's status,
 * copies each answer into its state, and stops polling once the conversion
 * has completed (announcing it) or failed.
 */
module ProgressView {
  import opened Wrappers
  import opened ConversionModel

  /** The body of `GET /convert/:id` as the view reads it. */
  datatype StatusResponse = StatusResponse(status: Status, progress: int, error: Option<string>,
                                           outputPath: Option<string>)

  /** The component's fields, and whether its polling subscription is live. */
  datatype View = View(status: Status, progress: int, error: Option<string>, outputPath: Option<string>,
                       polling: bool)

  /** A freshly created component: `pending`, progress 0, nothing else set, not yet polling. */
  const Initial := View(Pending, 0, None, None, false)

  /** `ngOnInit`: the interval subscription is started. */
  function OnInit(v: View): (r: View)
    ensures r.polling
    ensures r.(polling := v.polling) == v
  {
    v.(polling := true)
  }

  /** A conversion the view stops polling for. */
  predicate IsTerminal(s: Status) {
    s == Completed || s == Failed
  }

  /** The view after one `checkStatus`, and whether it emitted `completed`. */
  datatype Check = Check(view: View, emitted: bool)

  /**
   * `checkStatus()` given what the status request produced: a response, or a
   * failure that is logged and otherwise ignored.
   */
  function CheckStatus(v: View, fetch: Result<StatusResponse>): (r: Check)
    ensures fetch.Throws? ==> r == Check(v, false)
    ensures fetch.Ok? ==> var s := fetch.value;
                          && r.view.status == s.status && r.view.progress == s.progress
                          && r.view.error == s.error && r.view.outputPath == s.outputPath
    ensures r.emitted <==> fetch.Ok? && fetch.value.status == Completed
    ensures r.view.polling <==> v.polling && !(fetch.Ok? && IsTerminal(fetch.value.status))
  {
    match fetch
    case Throws(_) => Check(v, false)
    case Ok(s) =>
      var copied := View(s.status, s.progress, s.error, s.outputPath, v.polling);
      if s.status == Completed then Check(copied.(polling := false), true)
      else if s.status == Failed then Check(copied.(polling := false), false)
      else Check(copied, false)
  }

  /** The view after a run of polls, and how often it emitted `completed`. */
  datatype Trace = Trace(view: View, emissions: nat)

  /**
   * The view after the interval's ticks, each with the outcome of its status
   * request; once the subscription is cancelled no further tick arrives.
   */
  function Run(v: View, fetches: seq<Result<StatusResponse>>): (r: Trace)
    ensures !v.polling ==> r == Trace(v, 0)
    ensures r.view.polling ==> v.polling
    ensures r.emissions > 0 ==> r.view.status == Completed && !r.view.polling
    decreases |fetches|
  {
    if |fetches| == 0 || !v.polling then Trace(v, 0)
    else
      var c := CheckStatus(v, fetches[0]);
      var rest := Run(c.view, fetches[1..]);
      Trace(rest.view, rest.emissions + (if c.emitted then 1 else 0))
  }

  /**
   * `completed` is emitted at most once however many polls there are, and
   * never by a view that is no longer polling.
   */
  lemma {:induction false} CompletedEmittedAtMostOnce(v: View, fetches: seq<Result<StatusResponse>>)
    ensures Run(v, fetches).emissions <= if v.polling then 1 else 0
    decreases |fetches|
  {
    if |fetches| > 0 && v.polling {
      var c := CheckStatus(v, fetches[0]);
      CompletedEmittedAtMostOnce(c.view, fetches[1..]);
    }
  }

  /** A view that is still polling after a run shows a conversion that has not finished. */
  lemma {:induction false} PollingMeansUnfinished(v: View, fetches: seq<Result<StatusResponse>>)
    requires v.polling ==> !IsTerminal(v.status)
    ensures var w := Run(v, fetches).view; w.polling ==> !IsTerminal(w.status)
    decreases |fetches|
  {
    if |fetches| > 0 && v.polling {
      PollingMeansUnfinished(CheckStatus(v, fetches[0]).view, fetches[1..]);
    }
  }

  /** Without a `completed` answer the view never emits; a `failed` answer stops polling silently. */
  lemma {:induction false} NoCompletionNoEmission(v: View, fetches: seq<Result<StatusResponse>>)
    requires forall i | 0 <= i < |fetches| :: !(fetches[i].Ok? && fetches[i].value.status == Completed)
    ensures Run(v, fetches).emissions == 0
    decreases |fetches|
  {
    if |fetches| > 0 && v.polling {
      assert forall i | 0 <= i < |fetches[1..]| :: fetches[1..][i] == fetches[i + 1];
      NoCompletionNoEmission(CheckStatus(v, fetches[0]).view, fetches[1..]);
    }
  }

  /** Failed requests alone leave the view exactly as it was. */
  lemma {:induction false} FailedRequestsChangeNothing(v: View, fetches: seq<Result<StatusResponse>>)
    requires forall i | 0 <= i < |fetches| :: fetches[i].Throws?
    ensures Run(v, fetches) == Trace(v, 0)
    decreases |fetches|
  {
    if |fetches| > 0 && v.polling {
      assert forall i | 0 <= i < |fetches[1..]| :: fetches[1..][i] == fetches[i + 1];
      FailedRequestsChangeNothing(v, fetches[1..]);
    }
  }

  const PreparingText := "Preparing conversion..."
  const ConvertingText := "Converting video..."
  const CompletedText := "Conversion completed!"
  const FailedText := "Conversion failed"

  /** `getStatusText()`: a fixed caption per status. */
  function StatusText(s: Status): (r: string)
    ensures r in {PreparingText, ConvertingText, CompletedText, FailedText}
    ensures r == PreparingText <==> s == Pending
    ensures r == ConvertingText <==> s == Processing
    ensures r == CompletedText <==> s == Completed
    ensures r == FailedText <==> s == Failed
  {
    match s
    case Pending => PreparingText
    case Processing => ConvertingText
    case Completed => CompletedText
    case Failed => FailedText
  }

  /** Different statuses get different captions. */
  lemma StatusTextIsInjective(a: Status, b: Status)
    ensures StatusText(a) == StatusText(b) <==> a == b
  {
    assert |ConvertingText| != |CompletedText| && |CompletedText| != |FailedText|;
    assert |ConvertingText| != |FailedText| && |PreparingText| != |FailedText|;
    assert |PreparingText| != |ConvertingText| && |PreparingText| != |CompletedText|;
  }
}
