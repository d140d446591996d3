/** The all-years view: every year's periods laid end to end, and the x-axis rule
    that labels only the January ticks. */
module SeriesReshaper {
  import opened Wrappers
  import opened Text
  import opened SeriesModel

  /** The chart label of period `i` of a year: the period name, a space, the year. */
  function PeriodLabel(y: YearRecord, i: nat): string
    requires i < |y.labels|
  {
    y.labels[i] + " " + IntToString(y.year)
  }

  function YearLabels(y: YearRecord): (r: seq<string>)
    requires WellFormedRecord(y)
    ensures |r| == |y.values|
    ensures forall i :: 0 <= i < |r| ==> r[i] == PeriodLabel(y, i)
  {
    seq(|y.values|, i requires 0 <= i < |y.values| => PeriodLabel(y, i))
  }

  /** Number of periods over all years. */
  function TotalPeriods(series: Series): nat {
    if |series| == 0 then 0 else TotalPeriods(series[..|series| - 1]) + |series[|series| - 1].values|
  }

  /** Where year `k` starts in the flattened sequence. */
  function Offset(series: Series, k: nat): nat
    requires k <= |series|
  {
    TotalPeriods(series[..k])
  }

  /** All values in year order, each year's in period order (specification of the loop). */
  function FlatValues(series: Series): seq<Option<real>> {
    if |series| == 0 then [] else FlatValues(series[..|series| - 1]) + series[|series| - 1].values
  }

  /** All period labels in the same order. */
  function FlatLabels(series: Series): seq<string>
    requires WellFormed(series)
  {
    if |series| == 0 then [] else FlatLabels(series[..|series| - 1]) + YearLabels(series[|series| - 1])
  }

  /** The nested loop of `showModalAllYearsChart` that pushes one label and one value
      per period, year after year. */
  method FlattenAllYears(series: Series) returns (labels: seq<string>, values: seq<Option<real>>)
    requires WellFormed(series)
    ensures labels == FlatLabels(series)
    ensures values == FlatValues(series)
  {
    labels, values := [], [];
    var k := 0;
    while k < |series|
      invariant 0 <= k <= |series|
      invariant labels == FlatLabels(series[..k])
      invariant values == FlatValues(series[..k])
    {
      var y := series[k];
      assert WellFormedRecord(y);
      var i := 0;
      while i < |y.values|
        invariant 0 <= i <= |y.values|
        invariant labels == FlatLabels(series[..k]) + YearLabels(y)[..i]
        invariant values == FlatValues(series[..k]) + y.values[..i]
      {
        labels := labels + [y.labels[i] + " " + IntToString(y.year)];
        values := values + [y.values[i]];
        assert YearLabels(y)[..i + 1] == YearLabels(y)[..i] + [PeriodLabel(y, i)];
        assert y.values[..i + 1] == y.values[..i] + [y.values[i]];
        i := i + 1;
      }
      assert series[..k + 1][..k] == series[..k];
      assert YearLabels(y)[..i] == YearLabels(y);
      assert y.values[..i] == y.values;
      k := k + 1;
    }
    assert series[..k] == series;
  }

  /** The flattened sequences have one entry per period of every year. */
  lemma {:induction false} FlatLength(series: Series)
    requires WellFormed(series)
    ensures |FlatValues(series)| == TotalPeriods(series)
    ensures |FlatLabels(series)| == TotalPeriods(series)
    decreases |series|
  {
    if |series| > 0 {
      var init := series[..|series| - 1];
      assert WellFormed(init) by {
        forall k | 0 <= k < |init| ensures WellFormedRecord(init[k]) { assert init[k] == series[k]; }
      }
      FlatLength(init);
    }
  }

  /** Period counts of a prefix add up year by year. */
  lemma OffsetStep(series: Series, k: nat)
    requires k < |series|
    ensures Offset(series, k + 1) == Offset(series, k) + |series[k].values|
  {
    assert series[..k + 1][..k] == series[..k];
  }

  /** Later years start later: year `k` ends no later than year `m > k` starts. */
  lemma {:induction false} OffsetMonotone(series: Series, k: nat, m: nat)
    requires k < m <= |series|
    ensures Offset(series, k) + |series[k].values| <= Offset(series, m)
    decreases m - k
  {
    OffsetStep(series, k);
    if k + 1 < m {
      OffsetMonotone(series, k + 1, m);
      OffsetStep(series, k + 1);
    }
  }

  /** Element `Offset(k) + i` of the flattened values is period `i` of year `k`,
      passed through unchanged, missing entries included. */
  lemma {:induction false} FlatValueAt(series: Series, k: nat, i: nat)
    requires WellFormed(series)
    requires k < |series| && i < |series[k].values|
    ensures Offset(series, k) + i < |FlatValues(series)|
    ensures FlatValues(series)[Offset(series, k) + i] == series[k].values[i]
    decreases |series|
  {
    var n := |series| - 1;
    var init := series[..n];
    assert WellFormed(init) by {
      forall j | 0 <= j < |init| ensures WellFormedRecord(init[j]) { assert init[j] == series[j]; }
    }
    FlatLength(init);
    if k < n {
      FlatValueAt(init, k, i);
      assert init[..k] == series[..k];
      assert init[k] == series[k];
    } else {
      assert series[..k] == init;
    }
  }

  /** Element `Offset(k) + i` of the flattened labels is period `i`'s name followed by
      year `k`. */
  lemma {:induction false} FlatLabelAt(series: Series, k: nat, i: nat)
    requires WellFormed(series)
    requires k < |series| && i < |series[k].values|
    ensures Offset(series, k) + i < |FlatLabels(series)|
    ensures FlatLabels(series)[Offset(series, k) + i] == series[k].labels[i] + " " + IntToString(series[k].year)
    decreases |series|
  {
    var n := |series| - 1;
    var init := series[..n];
    assert WellFormed(init) by {
      forall j | 0 <= j < |init| ensures WellFormedRecord(init[j]) { assert init[j] == series[j]; }
    }
    FlatLength(init);
    assert WellFormedRecord(series[k]);
    if k < n {
      FlatLabelAt(init, k, i);
      assert init[..k] == series[..k];
      assert init[k] == series[k];
    } else {
      assert series[..k] == init;
    }
  }

  /** Every position of the flattened sequence lies in the block of some year. */
  lemma {:induction false} FlatIndexCovered(series: Series, p: nat)
    requires p < TotalPeriods(series)
    ensures exists k :: 0 <= k < |series| && Offset(series, k) <= p < Offset(series, k) + |series[k].values|
    decreases |series|
  {
    var n := |series| - 1;
    var init := series[..n];
    if p < TotalPeriods(init) {
      FlatIndexCovered(init, p);
      var k :| 0 <= k < |init| && Offset(init, k) <= p < Offset(init, k) + |init[k].values|;
      assert init[..k] == series[..k];
      assert init[k] == series[k];
      assert Offset(series, k) <= p < Offset(series, k) + |series[k].values|;
    } else {
      assert series[..n] == init;
      assert Offset(series, n) <= p < Offset(series, n) + |series[n].values|;
    }
  }

  /** No position lies in the blocks of two different years, so each position
      belongs to exactly one (year, period) pair. */
  lemma FlatIndexUnique(series: Series, p: nat, k: nat, m: nat)
    requires k < m < |series|
    requires Offset(series, k) <= p < Offset(series, k) + |series[k].values|
    ensures !(Offset(series, m) <= p < Offset(series, m) + |series[m].values|)
  {
    OffsetMonotone(series, k, m);
  }

  /** The x-tick callback: the label at tick `i` if it exists and starts with "Jan",
      otherwise the empty string. */
  function JanuaryTick(labels: seq<string>, i: int): (r: string)
    ensures r != "" <==> 0 <= i < |labels| && StartsWith(labels[i], "Jan")
    ensures r == "" || r == labels[i]
  {
    if 0 <= i < |labels| && labels[i] != "" && StartsWith(labels[i], "Jan") then labels[i] else ""
  }

  /** Appending a space and a non-empty year to a period name never changes whether
      it starts with "Jan": a shorter name meets the space where "Jan" has a letter. */
  lemma JanuaryPrefixOfPeriodLabel(name: string, yearText: string)
    requires |yearText| > 0
    ensures StartsWith(name + " " + yearText, "Jan") <==> StartsWith(name, "Jan")
  {
    var full := name + " " + yearText;
    if |name| < 3 {
      if |full| >= 3 {
        assert full[..3][|name|] == ' ';
      }
    } else {
      assert full[..3] == name[..3];
    }
  }

  /** On the all-years chart a tick is labelled exactly when its period name starts
      with "Jan". */
  lemma JanuaryTickOfFlatLabels(series: Series, k: nat, i: nat)
    requires WellFormed(series)
    requires k < |series| && i < |series[k].values|
    ensures JanuaryTick(FlatLabels(series), Offset(series, k) + i) != "" <==>
      StartsWith(series[k].labels[i], "Jan")
  {
    FlatLabelAt(series, k, i);
    assert WellFormedRecord(series[k]);
    JanuaryPrefixOfPeriodLabel(series[k].labels[i], IntToString(series[k].year));
  }
}
