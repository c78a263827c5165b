/**
 * The progress filter of `convertVideo`: raw ffmpeg progress events become
 * callback invocations, only on strict increases, with a forced 100 on end.
 */
module Converter {
  import opened Wrappers

  /** One ffmpeg 'progress' event; `percent` is already rounded and may be missing. */
  datatype RawEvent = RawEvent(percent: Option<int>)

  /** How the ffmpeg run finished. */
  datatype Termination = End | Error(err: Thrown)

  /** `Math.min(100, Math.round(progress.percent || 0))` */
  function Mapped(e: RawEvent): (p: int)
    ensures p <= 100
    ensures e.percent.None? ==> p == 0
    ensures e.percent.Some? ==> p == if e.percent.value < 100 then e.percent.value else 100
  {
    var raw := e.percent.GetOr(0);
    if raw < 100 then raw else 100
  }

  predicate StrictlyIncreasing(s: seq<int>) {
    forall i, j :: 0 <= i < j < |s| ==> s[i] < s[j]
  }

  /**
   * The 'progress' handler run over the remaining events, with `last` the
   * value of `lastProgress`: a mapped value fires only if it exceeds `last`.
   */
  function FilterFrom(events: seq<RawEvent>, last: int): (fired: seq<int>)
    ensures StrictlyIncreasing(fired)
    ensures forall i :: 0 <= i < |fired| ==> last < fired[i] <= 100
    decreases |events|
  {
    if |events| == 0 then []
    else
      var p := Mapped(events[0]);
      if p > last then [p] + FilterFrom(events[1..], p)
      else FilterFrom(events[1..], last)
  }

  /** The callbacks the 'progress' handler makes; `lastProgress` starts at 0. */
  function Filter(events: seq<RawEvent>): seq<int> {
    FilterFrom(events, 0)
  }

  /** `lastProgress` after the handler has seen `events`. */
  function LastFired(events: seq<RawEvent>): int {
    var fired := Filter(events);
    if |fired| == 0 then 0 else fired[|fired| - 1]
  }

  datatype Outcome = Fulfilled | Rejected(err: Thrown)

  /** Callback invocations in order, and how the returned promise settles. */
  datatype ConvertResult = ConvertResult(callbacks: seq<int>, outcome: Outcome)

  /**
   * `convertVideo` over a finite event trace. Without an `onProgress`
   * callback no handler is attached; on 'end' the callback gets 100 unless
   * 100 was already its last value; on 'error' the promise rejects.
   */
  function ConvertVideo(events: seq<RawEvent>, termination: Termination, hasCallback: bool): (r: ConvertResult)
    ensures !hasCallback ==> r.callbacks == []
    ensures termination.End? <==> r.outcome == Fulfilled
    ensures termination.Error? ==> r.outcome == Rejected(termination.err)
    ensures StrictlyIncreasing(r.callbacks)
    ensures forall i :: 0 <= i < |r.callbacks| ==> 1 <= r.callbacks[i] <= 100
    ensures hasCallback && termination.End? ==> |r.callbacks| > 0 && r.callbacks[|r.callbacks| - 1] == 100
  {
    var fired := if hasCallback then Filter(events) else [];
    var forced := hasCallback && termination.End? && LastFired(events) < 100;
    var callbacks := if forced then fired + [100] else fired;
    var outcome := match termination
      case End => Fulfilled
      case Error(e) => Rejected(e);
    ConvertResult(callbacks, outcome)
  }

  /** The highest mapped value among `events`, floored at 0. */
  function Ceiling(events: seq<RawEvent>): (c: int)
    ensures 0 <= c <= 100
  {
    if |events| == 0 then 0
    else
      var rest := Ceiling(events[..|events| - 1]);
      var p := Mapped(events[|events| - 1]);
      if p > rest then p else rest
  }

  /**
   * Reference definition of the handler's output, read backwards: event k
   * fires iff its mapped value beats every earlier value and 0.
   */
  function Records(events: seq<RawEvent>): seq<int>
  {
    if |events| == 0 then []
    else
      var init := events[..|events| - 1];
      var p := Mapped(events[|events| - 1]);
      Records(init) + (if p > Ceiling(init) then [p] else [])
  }

  /** The forward filter with a running `last` agrees with the reference definition. */
  lemma {:induction false} FilterSnoc(events: seq<RawEvent>, e: RawEvent, last: int)
    requires 0 <= last
    ensures FilterFrom(events + [e], last) ==
              FilterFrom(events, last) + (if Mapped(e) > Max(last, Ceiling(events)) then [Mapped(e)] else [])
    decreases |events|
  {
    if |events| == 0 {
      assert events + [e] == [e];
      assert Ceiling(events) == 0;
    } else {
      var x := events[0];
      var rest := events[1..];
      assert (events + [e])[1..] == rest + [e];
      assert events + [e] == [x] + (rest + [e]);
      var next := if Mapped(x) > last then Mapped(x) else last;
      FilterSnoc(rest, e, next);
      CeilingCons(x, rest);
      assert events == [x] + rest;
      assert Max(last, Ceiling(events)) == Max(next, Ceiling(rest));
      assert FilterFrom(events, last) ==
               (if Mapped(x) > last then [Mapped(x)] else []) + FilterFrom(rest, next);
      assert FilterFrom(events + [e], last) ==
               (if Mapped(x) > last then [Mapped(x)] else []) + FilterFrom(rest + [e], next);
    }
  }

  function Max(a: int, b: int): int {
    if a > b then a else b
  }

  /** Ceiling read from the front. */
  lemma {:induction false} CeilingCons(x: RawEvent, rest: seq<RawEvent>)
    ensures Ceiling([x] + rest) == Max(Max(0, Mapped(x)), Ceiling(rest))
    decreases |rest|
  {
    if |rest| == 0 {
      assert [x] + rest == [x];
      assert ([x] + rest)[..0] == [];
    } else {
      var init := rest[..|rest| - 1];
      assert ([x] + rest)[..|[x] + rest| - 1] == [x] + init;
      CeilingCons(x, init);
    }
  }

  /** The handler's output is exactly the sequence of running records. */
  lemma {:induction false} FilterIsRecords(events: seq<RawEvent>)
    ensures Filter(events) == Records(events)
    decreases |events|
  {
    if |events| > 0 {
      var init := events[..|events| - 1];
      var e := events[|events| - 1];
      assert events == init + [e];
      FilterIsRecords(init);
      FilterSnoc(init, e, 0);
    }
  }

  /** A strictly increasing sequence inside (lo, hi] has at most hi - lo elements. */
  lemma {:induction false} IncreasingBounded(s: seq<int>, lo: int, hi: int)
    requires StrictlyIncreasing(s)
    requires forall i :: 0 <= i < |s| ==> lo < s[i] <= hi
    ensures |s| <= if hi > lo then hi - lo else 0
    decreases |s|
  {
    if |s| > 0 {
      IncreasingBounded(s[1..], s[0], hi);
    }
  }

  /** At most 100 callbacks fire in one conversion, forced 100 included. */
  lemma AtMostHundredCallbacks(events: seq<RawEvent>, termination: Termination, hasCallback: bool)
    ensures |ConvertVideo(events, termination, hasCallback).callbacks| <= 100
  {
    IncreasingBounded(ConvertVideo(events, termination, hasCallback).callbacks, 0, 100);
  }

  /** On end, 100 is forced exactly when the last fired value is below 100, and fires once. */
  lemma EndFiresHundredOnce(events: seq<RawEvent>)
    ensures var r := ConvertVideo(events, End, true);
            && (r.callbacks == Filter(events) + [100] <==> LastFired(events) < 100)
            && (r.callbacks == Filter(events) <==> LastFired(events) == 100)
            && (forall i :: 0 <= i < |r.callbacks| - 1 ==> r.callbacks[i] < 100)
  {
    var f := Filter(events);
    var r := ConvertVideo(events, End, true);
    if LastFired(events) < 100 {
      assert r.callbacks == f + [100];
      assert |r.callbacks| != |f|;
    } else {
      assert r.callbacks == f;
      assert |f| > 0;
      assert |r.callbacks| != |f + [100]|;
    }
  }

  /** On error, the promise rejects and the callbacks are just the filtered events. */
  lemma ErrorForcesNothing(events: seq<RawEvent>, err: Thrown)
    ensures ConvertVideo(events, Error(err), true) == ConvertResult(Filter(events), Rejected(err))
  {
  }

  /** Leaving out the callback changes nothing about how the conversion settles. */
  lemma CallbackDoesNotAffectOutcome(events: seq<RawEvent>, termination: Termination)
    ensures ConvertVideo(events, termination, false).outcome == ConvertVideo(events, termination, true).outcome
    ensures ConvertVideo(events, termination, false).callbacks == []
  {
  }
}
