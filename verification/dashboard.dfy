/**
 * The client dashboard's conversion statistics: how many conversions the
 * user has, and how many are still active.
 */
module Dashboard {
  import opened ConversionModel

  /** A conversion still in the pipeline: `pending` or `processing`. */
  predicate IsActive(s: Status) {
    s == Pending || s == Processing
  }

  /** `{ total, active }` as `getConversionStats` returns it. */
  datatype Stats = Stats(total: nat, active: nat)

  /**
   * `conversions.filter(c => c.status === 'pending' || c.status === 'processing').length`,
   * for the statuses of the listed conversions in order. The count is the
   * number of `Pending` entries plus the number of `Processing` ones.
   */
  function CountActive(statuses: seq<Status>): (n: nat)
    ensures n <= |statuses|
    ensures n == multiset(statuses)[Pending] + multiset(statuses)[Processing]
  {
    if |statuses| == 0 then 0
    else
      assert statuses == [statuses[0]] + statuses[1..];
      (if IsActive(statuses[0]) then 1 else 0) + CountActive(statuses[1..])
  }

  /** `getConversionStats()` for the statuses of the conversions the history request returned. */
  function ConversionStats(statuses: seq<Status>): (r: Stats)
    ensures r.total == |statuses|
    ensures r.active == multiset(statuses)[Pending] + multiset(statuses)[Processing]
    ensures r.active <= r.total
  {
    Stats(|statuses|, CountActive(statuses))
  }

  /** `hasActiveConversions()` of the conversion list: some listed conversion is active. */
  predicate HasActiveConversions(statuses: seq<Status>) {
    exists i | 0 <= i < |statuses| :: IsActive(statuses[i])
  }

  /** The dashboard counts an active conversion exactly when the list component sees one. */
  lemma {:induction false} ActiveCountMatchesList(statuses: seq<Status>)
    ensures ConversionStats(statuses).active > 0 <==> HasActiveConversions(statuses)
    decreases |statuses|
  {
    if |statuses| > 0 {
      ActiveCountMatchesList(statuses[1..]);
      if HasActiveConversions(statuses[1..]) {
        var i :| 0 <= i < |statuses[1..]| && IsActive(statuses[1..][i]);
        assert IsActive(statuses[i + 1]);
      }
      if HasActiveConversions(statuses) && !IsActive(statuses[0]) {
        var i :| 0 <= i < |statuses| && IsActive(statuses[i]);
        assert IsActive(statuses[1..][i - 1]);
      }
    }
  }

  /** Every conversion is counted as active exactly when none has finished. */
  lemma {:induction false} AllActiveIffNoneFinished(statuses: seq<Status>)
    ensures ConversionStats(statuses).active == ConversionStats(statuses).total
            <==> forall i | 0 <= i < |statuses| :: IsActive(statuses[i])
    decreases |statuses|
  {
    if |statuses| > 0 {
      AllActiveIffNoneFinished(statuses[1..]);
      if forall i | 0 <= i < |statuses| :: IsActive(statuses[i]) {
        assert forall i | 0 <= i < |statuses[1..]| :: IsActive(statuses[1..][i]) by {
          forall i | 0 <= i < |statuses[1..]|
            ensures IsActive(statuses[1..][i])
          {
            assert statuses[1..][i] == statuses[i + 1];
          }
        }
      }
      if forall i | 0 <= i < |statuses[1..]| :: IsActive(statuses[1..][i]) {
        if IsActive(statuses[0]) {
          forall i | 0 <= i < |statuses|
            ensures IsActive(statuses[i])
          {
            if i > 0 {
              assert statuses[i] == statuses[1..][i - 1];
            }
          }
        }
      }
    }
  }
}
