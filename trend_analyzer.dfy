/** The latest observed rate of a series and its direction of change. */
module TrendAnalyzer {
  import opened Wrappers
  import opened SeriesModel

  /** The four outcomes of a trend computation. `Insufficient` stands for a
      comparison in which one side has no observation. */
  datatype Trend = Increasing | Decreasing | NoChange | Insufficient

  /** The greatest index below `bound` that holds an observation, if any. */
  function LastPresentBefore(vals: seq<Option<real>>, bound: nat): (r: Option<nat>)
    requires bound <= |vals|
    ensures r.Some? ==> r.value < bound && vals[r.value].Some?
    ensures r.Some? ==> forall j :: r.value < j < bound ==> vals[j].None?
    ensures r.None? <==> forall j :: 0 <= j < bound ==> vals[j].None?
    decreases bound
  {
    if bound == 0 then None
    else if vals[bound - 1].Some? then Some(bound - 1)
    else LastPresentBefore(vals, bound - 1)
  }

  /** The rightmost observation of one year, or `None` when the year has none. */
  function LatestValue(vals: seq<Option<real>>): (r: Option<real>)
    ensures r.None? <==> forall j :: 0 <= j < |vals| ==> vals[j].None?
    ensures r.Some? ==> exists i :: 0 <= i < |vals| && vals[i] == r && forall j :: i < j < |vals| ==> vals[j].None?
  {
    match LastPresentBefore(vals, |vals|)
    case Some(i) => vals[i]
    case None => None
  }

  /** The values of the most recent year. */
  function FinalValues(series: Series): seq<Option<real>>
    requires |series| > 0
  {
    series[|series| - 1].values
  }

  /** `getLatestRate`: walk the final year backward past the missing entries.
      Only the final year is consulted; an all-missing year gives `None`. */
  method LatestRate(series: Series) returns (rate: Option<real>)
    requires |series| > 0
    ensures rate == LatestValue(FinalValues(series))
  {
    var lastYear := series[|series| - 1];
    var lastIndex := |lastYear.values| - 1;
    while lastIndex >= 0 && lastYear.values[lastIndex].None?
      invariant -1 <= lastIndex < |lastYear.values|
      invariant LastPresentBefore(lastYear.values, lastIndex + 1) == LastPresentBefore(lastYear.values, |lastYear.values|)
    {
      lastIndex := lastIndex - 1;
    }
    rate := if lastIndex >= 0 then lastYear.values[lastIndex] else None;
  }

  /** The raw final entry of the final year (`values[len - 1]`), present or not. */
  function LastEntry(series: Series): Option<real>
    requires |series| > 0
  {
    var vals := FinalValues(series);
    if |vals| == 0 then None else vals[|vals| - 1]
  }

  /** The nearest observation strictly before index `i` of the final year, else the
      rightmost observation of the year before. */
  function PrevBefore(series: Series, i: nat): (r: Option<real>)
    requires |series| > 0 && i <= |FinalValues(series)|
    ensures (exists j :: 0 <= j < i && FinalValues(series)[j].Some?) ==>
      r.Some? &&
      exists j :: 0 <= j < i && FinalValues(series)[j] == r && forall m :: j < m < i ==> FinalValues(series)[m].None?
    ensures (forall j :: 0 <= j < i ==> FinalValues(series)[j].None?) ==>
      r == if |series| > 1 then LatestValue(series[|series| - 2].values) else None
  {
    var vals := FinalValues(series);
    match LastPresentBefore(vals, i)
    case Some(j) => vals[j]
    case None => if |series| > 1 then LatestValue(series[|series| - 2].values) else None
  }

  /** The value `getRateTrend` compares against: the nearest observation strictly
      before the final index of the final year, else the rightmost observation of
      the year before, and never anything older. */
  function PrevValue(series: Series): (r: Option<real>)
    requires |series| > 0
    ensures var vals := FinalValues(series);
      (exists i :: 0 <= i < |vals| - 1 && vals[i].Some?) ==>
        r.Some? &&
        exists i :: 0 <= i < |vals| - 1 && vals[i] == r && forall j :: i < j < |vals| - 1 ==> vals[j].None?
    ensures var vals := FinalValues(series);
      (forall i :: 0 <= i < |vals| - 1 ==> vals[i].None?) ==>
        r == if |series| > 1 then LatestValue(series[|series| - 2].values) else None
  {
    var vals := FinalValues(series);
    PrevBefore(series, if |vals| == 0 then 0 else |vals| - 1)
  }

  /** Direction of `last` against `prev`; a missing side gives `Insufficient`. */
  function Compare(last: Option<real>, prev: Option<real>): (t: Trend)
    ensures t == Insufficient <==> last.None? || prev.None?
    ensures last.Some? && prev.Some? ==>
      && (t == Increasing <==> last.value > prev.value)
      && (t == Decreasing <==> last.value < prev.value)
      && (t == NoChange <==> last.value == prev.value)
  {
    if last.Some? && prev.Some? then
      if last.value > prev.value then Increasing
      else if last.value < prev.value then Decreasing
      else NoChange
    else Insufficient
  }

  /** The trend `getRateTrend` computes: the raw final entry against `PrevValue`. */
  function TrendOf(series: Series): Trend
    requires |series| > 0
  {
    Compare(LastEntry(series), PrevValue(series))
  }

  /** `getRateTrend`, with its two backward searches that stop at the first observation. */
  method RateTrend(series: Series) returns (t: Trend)
    requires |series| > 0
    ensures t == TrendOf(series)
  {
    var thisYear := series[|series| - 1];
    var vals := thisYear.values;
    var prevValue: Option<real> := None;
    var lastIndex := |vals| - 1;
    var i := lastIndex - 1;
    while i >= 0
      invariant -2 <= i < lastIndex
      invariant prevValue.None?
      invariant forall j :: 0 <= j && i < j < lastIndex ==> vals[j].None?
    {
      if vals[i].Some? {
        prevValue := vals[i];
        break;
      }
      i := i - 1;
    }
    if prevValue.None? && |series| > 1 {
      var prevVals := series[|series| - 2].values;
      var k := |prevVals| - 1;
      while k >= 0
        invariant -1 <= k < |prevVals|
        invariant prevValue.None?
        invariant forall j :: k < j < |prevVals| ==> prevVals[j].None?
      {
        if prevVals[k].Some? {
          prevValue := prevVals[k];
          break;
        }
        k := k - 1;
      }
    }
    var lastValue := if lastIndex >= 0 then vals[lastIndex] else None;
    if lastValue.Some? && prevValue.Some? {
      if lastValue.value > prevValue.value { return Increasing; }
      if lastValue.value < prevValue.value { return Decreasing; }
      return NoChange;
    }
    return Insufficient;
  }

  /** Swapping two different observations turns an increase into a decrease and back. */
  lemma CompareAntisymmetric(a: real, b: real)
    requires a != b
    ensures Compare(Some(a), Some(b)) == Increasing <==> Compare(Some(b), Some(a)) == Decreasing
    ensures Compare(Some(a), Some(b)) != NoChange
  {
  }

  /** Only the last two year records take part in the trend: any older years can be
      dropped or replaced without changing it. */
  lemma TrendIgnoresOlderYears(older: Series, recent: Series)
    requires |recent| >= 2
    ensures TrendOf(older + recent) == TrendOf(recent)
  {
  }
}
