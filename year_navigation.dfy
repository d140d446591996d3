/** The rates-page chart shows one year at a time: which record a requested year
    selects, which navigation buttons are disabled, and how one press moves. */
module YearNavigation {
  import opened Wrappers
  import opened SeriesModel

  /** `series.map((y) => y.year)`. */
  function Years(series: Series): (ys: seq<int>)
    ensures |ys| == |series|
    ensures forall k :: 0 <= k < |series| ==> ys[k] == series[k].year
  {
    seq(|series|, k requires 0 <= k < |series| => series[k].year)
  }

  /** JavaScript's `indexOf`: the first position holding `x`, or -1. */
  function IndexOf(s: seq<int>, x: int): (r: int)
    ensures -1 <= r < |s|
    ensures r >= 0 ==> s[r] == x && forall j :: 0 <= j < r ==> s[j] != x
    ensures r == -1 <==> forall j :: 0 <= j < |s| ==> s[j] != x
  {
    if |s| == 0 then -1
    else if s[0] == x then 0
    else
      var r := IndexOf(s[1..], x);
      if r < 0 then -1 else r + 1
  }

  /** The index `showYearChart` displays: the first record of the requested year,
      or the most recent record when no record has that year. */
  function SelectIndex(series: Series, year: int): (idx: nat)
    requires |series| > 0
    ensures idx < |series|
    ensures (exists k :: 0 <= k < |series| && series[k].year == year) ==>
      series[idx].year == year && forall j :: 0 <= j < idx ==> series[j].year != year
    ensures (forall k :: 0 <= k < |series| ==> series[k].year != year) ==> idx == |series| - 1
  {
    var idx := IndexOf(Years(series), year);
    if idx < 0 then |series| - 1 else idx
  }

  /** A requested year that no record has shows the same chart as the most recent
      year, when years increase along the series. */
  lemma SelectAbsentYearIsLatest(series: Series, year: int)
    requires |series| > 0 && YearsIncreasing(series)
    requires forall k :: 0 <= k < |series| ==> series[k].year != year
    ensures SelectIndex(series, year) == SelectIndex(series, series[|series| - 1].year) == |series| - 1
  {
  }

  /** With increasing years, every record is selected by its own year. */
  lemma SelectOwnYear(series: Series, k: nat)
    requires k < |series| && YearsIncreasing(series)
    ensures SelectIndex(series, series[k].year) == k
  {
  }

  /** Disabled state of the two navigation buttons. The series runs from the oldest
      year to the newest, so "prev" (a higher index) moves to a more recent year and is
      disabled at the newest one; "next" moves to an older year. */
  datatype NavButtons = NavButtons(prevDisabled: bool, nextDisabled: bool)

  function Buttons(idx: int, count: nat): (b: NavButtons)
    ensures 0 <= idx < count ==> (b.prevDisabled <==> idx == count - 1) && (b.nextDisabled <==> idx == 0)
    ensures count == 1 && idx == 0 ==> b.prevDisabled && b.nextDisabled
  {
    NavButtons(idx >= count - 1, idx <= 0)
  }

  /** One press of a navigation button, as `changeYear` moves the index found by
      `indexOf` (-1 when the shown year is unknown): "prev" moves up unless at the
      last index, "next" moves down unless at 0, any other direction stays. */
  function Step(from: int, count: nat, dir: string): (r: int)
    requires -1 <= from < count
    ensures -1 <= r < count
    ensures from >= 0 ==> r >= 0
    ensures from - 1 <= r <= from + 1
    ensures dir == "prev" ==> r >= from
    ensures dir == "next" ==> r <= from
    ensures dir != "prev" && dir != "next" ==> r == from
    ensures dir == "prev" ==> r == if from < count - 1 then from + 1 else from
    ensures dir == "next" && from > 0 ==> r == from - 1
    ensures dir == "next" && from <= 0 ==> r == from
  {
    var up := if dir == "prev" && from < count - 1 then from + 1 else from;
    if dir == "next" && up > 0 then up - 1 else up
  }

  /** A button is disabled exactly when pressing it would leave the index where it
      is, and for a valid index that is exactly at the matching end of the series. */
  lemma ButtonsMatchStep(idx: nat, count: nat)
    requires idx < count
    ensures Buttons(idx, count).prevDisabled <==> Step(idx, count, "prev") == idx
    ensures Buttons(idx, count).prevDisabled <==> idx == count - 1
    ensures Buttons(idx, count).nextDisabled <==> Step(idx, count, "next") == idx
    ensures Buttons(idx, count).nextDisabled <==> idx == 0
  {
  }

  /** At the clamping boundary a further press changes nothing. */
  lemma StepIdempotentAtBounds(count: nat)
    requires count > 0
    ensures Step(count - 1, count, "prev") == count - 1
    ensures Step(0, count, "next") == 0
  {
  }

  /** `n` presses of the same button. */
  function Steps(from: int, count: nat, dir: string, n: nat): int
    requires -1 <= from < count
    decreases n
  {
    if n == 0 then from else Steps(Step(from, count, dir), count, dir, n - 1)
  }

  /** Presses move exactly one year each, clamped at the ends without wrapping. */
  lemma {:induction false} RepeatedSteps(from: nat, count: nat, n: nat)
    requires from < count
    ensures Steps(from, count, "prev", n) == if from + n < count then from + n else count - 1
    ensures Steps(from, count, "next", n) == if from >= n then from - n else 0
    decreases n
  {
    if n > 0 {
      RepeatedSteps(Step(from, count, "prev"), count, n - 1);
      RepeatedSteps(Step(from, count, "next"), count, n - 1);
    }
  }

  /** `changeYear`: find the shown year, move the index in place, and report the
      year to show next; `None` is the `years[-1]` read of an unknown shown year. */
  method ChangeYear(series: Series, current: int, dir: string) returns (shown: Option<int>)
    ensures var idx := Step(IndexOf(Years(series), current), |series|, dir);
      shown == if idx >= 0 then Some(series[idx].year) else None
    ensures (exists k :: 0 <= k < |series| && series[k].year == current) ==>
      shown.Some? && exists k :: 0 <= k < |series| && series[k].year == shown.value
    ensures (forall k :: 0 <= k < |series| ==> series[k].year != current) ==>
      shown == if dir == "prev" && |series| > 0 then Some(series[0].year) else None
  {
    var years := Years(series);
    var idx := IndexOf(years, current);
    if dir == "prev" && idx < |years| - 1 {
      idx := idx + 1;
    }
    if dir == "next" && idx > 0 {
      idx := idx - 1;
    }
    shown := if idx >= 0 then Some(years[idx]) else None;
  }

  /** Starting from the chart of record `k`, a press shows the record one step away:
      the year `changeYear` hands back selects exactly the stepped index. */
  lemma NavigationShowsSteppedRecord(series: Series, k: nat, dir: string)
    requires k < |series| && YearsIncreasing(series)
    ensures IndexOf(Years(series), series[k].year) == k
    ensures var idx := Step(k, |series|, dir);
      0 <= idx < |series| && SelectIndex(series, series[idx].year) == idx
  {
  }
}
