/** The trend as the page code actually computes it, with a missing entry read as 0
    by JavaScript's `<` and `>`, and the trend the code evidently intends: the latest
    observation against the nearest observation before it. */
module TrendFinding {
  import opened Wrappers
  import opened SeriesModel
  import opened TrendAnalyzer

  /** `getRateTrend` as written: `null` on either side reads as 0, and an empty final
      year makes the final entry `undefined`, which compares false both ways. */
  function CoercedTrend(series: Series): (t: Trend)
    requires |series| > 0
    ensures t != Insufficient
    ensures LastEntry(series).Some? && PrevValue(series).Some? ==> t == TrendOf(series)
    ensures |FinalValues(series)| == 0 ==> t == NoChange
    ensures |FinalValues(series)| > 0 ==>
      t == Compare(Some(LastEntry(series).GetOr(0.0)), Some(PrevValue(series).GetOr(0.0)))
  {
    var vals := FinalValues(series);
    if |vals| == 0 then NoChange
    else
      var last := vals[|vals| - 1].GetOr(0.0);
      var prev := PrevValue(series).GetOr(0.0);
      if last > prev then Increasing else if last < prev then Decreasing else NoChange
  }

  /** When both compared entries are observations, the coercion plays no part. */
  lemma CoercedAgreesWhenPresent(series: Series)
    requires |series| > 0
    requires LastEntry(series).Some? && PrevValue(series).Some?
    ensures CoercedTrend(series) == TrendOf(series)
  {
  }

  /** The intended trend: the latest observation of the final year against the
      nearest earlier observation, looking back at most one year. */
  function IntendedTrend(series: Series): (t: Trend)
    requires |series| > 0
    ensures LatestValue(FinalValues(series)).None? ==> t == Insufficient
    ensures var vals := FinalValues(series);
      LatestValue(vals).Some? ==>
        exists i :: 0 <= i < |vals| && vals[i] == LatestValue(vals) &&
          (forall j :: i < j < |vals| ==> vals[j].None?) && t == Compare(vals[i], PrevBefore(series, i))
  {
    var vals := FinalValues(series);
    match LastPresentBefore(vals, |vals|)
    case None => Insufficient
    case Some(i) => Compare(vals[i], PrevBefore(series, i))
  }

  /** The final year with one more period that has no observation yet. */
  function PadFinalYear(series: Series, period: string): (padded: Series)
    requires |series| > 0
    ensures |padded| == |series| && padded[..|series| - 1] == series[..|series| - 1]
    ensures FinalValues(padded) == FinalValues(series) + [None]
  {
    var y := series[|series| - 1];
    series[..|series| - 1] + [YearRecord(y.year, y.labels + [period], y.values + [None])]
  }

  /** Extending a sequence does not change the search below an old bound. */
  lemma {:induction false} LastPresentBeforeExtend(vals: seq<Option<real>>, more: seq<Option<real>>, bound: nat)
    requires bound <= |vals|
    ensures LastPresentBefore(vals + more, bound) == LastPresentBefore(vals, bound)
    decreases bound
  {
    if bound > 0 {
      assert (vals + more)[bound - 1] == vals[bound - 1];
      LastPresentBeforeExtend(vals, more, bound - 1);
    }
  }

  /** Padding the final year leaves the search before any old index unchanged. */
  lemma PrevBeforePadded(series: Series, period: string, i: nat)
    requires |series| > 0 && i <= |FinalValues(series)|
    ensures PrevBefore(PadFinalYear(series, period), i) == PrevBefore(series, i)
  {
    var padded := PadFinalYear(series, period);
    LastPresentBeforeExtend(FinalValues(series), [None], i);
    if |series| > 1 {
      assert padded[|padded| - 2] == padded[..|series| - 1][|series| - 2];
    }
  }

  /** The intended property: periods without an observation yet at the end of the
      current year do not change the trend. */
  lemma IntendedTrendIgnoresTrailingGaps(series: Series, period: string)
    requires |series| > 0
    ensures IntendedTrend(PadFinalYear(series, period)) == IntendedTrend(series)
  {
    var padded := PadFinalYear(series, period);
    var vals := FinalValues(series);
    LastPresentBeforeExtend(vals, [None], |vals|);
    assert LastPresentBefore(vals + [None], |vals| + 1) == LastPresentBefore(vals, |vals|);
    match LastPresentBefore(vals, |vals|)
    case None =>
    case Some(i) =>
      PrevBeforePadded(series, period, i);
  }

  /** When the final entry is an observation the intended trend is what the page
      code computes. */
  lemma IntendedAgreesWhenFinalPresent(series: Series)
    requires |series| > 0 && LastEntry(series).Some?
    ensures IntendedTrend(series) == TrendOf(series)
  {
  }

  /** When the final entry and the value before it are both observations, the
      corrected trend is exactly what the page shows, coercion included. */
  lemma IntendedAgreesWithPageWhenBothPresent(series: Series)
    requires |series| > 0 && LastEntry(series).Some? && PrevValue(series).Some?
    ensures IntendedTrend(series) == CoercedTrend(series)
  {
    IntendedAgreesWhenFinalPresent(series);
  }

  /** The intended trend is decided whenever the final year has two observations. */
  lemma IntendedTrendDecidedByTwoObservations(series: Series, a: nat, b: nat)
    requires |series| > 0
    requires a < b < |FinalValues(series)|
    requires FinalValues(series)[a].Some? && FinalValues(series)[b].Some?
    ensures IntendedTrend(series) != Insufficient
  {
  }

  /** The December-2023 / February-2024 example: the refinancing rate stood at 4.5
      through November 2023 and at 4.25 in January and February 2024, the later
      months of 2024 not yet observed. */
  function Months(): seq<string> {
    ["Jan", "Feb", "Mar", "Apr", "May", "Jun", "Jul", "Aug", "Sep", "Oct", "Nov", "Dec"]
  }

  function ExampleSeries(): (s: Series)
    ensures |s| == 2 && WellFormed(s) && YearsIncreasing(s)
  {
    [ YearRecord(2023, Months(), seq(11, _ => Some(4.5)) + [None]),
      YearRecord(2024, Months(), [Some(4.25), Some(4.25)] + seq(10, _ => None)) ]
  }

  /** As written, the example reads as a decrease: the raw December 2024 entry is
      missing, reads as 0 and is below 4.25, although the latest rate equals the one
      before it. */
  lemma CoercedTrendMisreadsExample()
    ensures LatestValue(FinalValues(ExampleSeries())) == Some(4.25)
    ensures PrevBefore(ExampleSeries(), 1) == Some(4.25)
    ensures CoercedTrend(ExampleSeries()) == Decreasing
    ensures IntendedTrend(ExampleSeries()) == NoChange
  {
  }

  /** With a negative rate (the deposit facility rate of 2014 to 2022) a missing final
      entry reads as 0, above the rate, so the page reports an increase. */
  lemma CoercedTrendNegativeRate()
    ensures CoercedTrend([YearRecord(2021, ["Jan", "Feb"], [Some(-0.5), None])]) == Increasing
    ensures IntendedTrend([YearRecord(2021, ["Jan", "Feb"], [Some(-0.5), None])]) == Insufficient
  {
  }
}
