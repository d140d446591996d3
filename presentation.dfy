/** What the summary page puts into a rate box: which rate a heading names, the
    trend text and the style class chosen from that text. */
module Presentation {
  import opened Wrappers
  import opened Text
  import opened SeriesModel
  import opened TrendAnalyzer
  import opened TrendFinding

  /** The rate type a box heading names. The three tests run one after another and
      each match overwrites the previous one, so the last phrase in test order wins. */
  function TitleType(title: string): (r: Option<RateType>)
    ensures r == Some(Lending) <==> Contains(title, "Marginal Lending")
    ensures r == Some(Deposit) <==> Contains(title, "Deposit Facility") && !Contains(title, "Marginal Lending")
    ensures r == Some(Refi) <==>
      Contains(title, "Main Refinancing") && !Contains(title, "Deposit Facility") && !Contains(title, "Marginal Lending")
  {
    if Contains(title, "Marginal Lending") then Some(Lending)
    else if Contains(title, "Deposit Facility") then Some(Deposit)
    else if Contains(title, "Main Refinancing") then Some(Refi)
    else None
  }

  /** The sequential assignments of `updateCurrentRatesDisplay`. */
  method ClassifyTitle(title: string) returns (t: Option<RateType>)
    ensures t == TitleType(title)
    ensures t.None? <==>
      !Contains(title, "Main Refinancing") && !Contains(title, "Deposit Facility") && !Contains(title, "Marginal Lending")
  {
    t := None;
    if Contains(title, "Main Refinancing") { t := Some(Refi); }
    if Contains(title, "Deposit Facility") { t := Some(Deposit); }
    if Contains(title, "Marginal Lending") { t := Some(Lending); }
  }

  /** A heading that is exactly a rate's display name is classified as that rate. */
  lemma TitleOfDisplayName(t: RateType)
    ensures TitleType(CapitalizeType(Key(t))) == Some(t)
  {
    var name := CapitalizeType(Key(t));
    match t
    case Lending =>
      ContainsAt(name, "Marginal Lending", 0);
    case Deposit =>
      MissingCharNotContained(name, "Marginal Lending", 9);
      ContainsAt(name, "Deposit Facility", 0);
    case Refi =>
      MissingCharNotContained(name, "Marginal Lending", 9);
      MissingCharNotContained(name, "Deposit Facility", 0);
      ContainsAt(name, "Main Refinancing", 0);
  }

  /** The trend text shown in a box. The page code has no text for `Insufficient`;
      this model shows "Insufficient data". */
  function TrendText(t: Trend): string {
    match t
    case Increasing => "↗ Increasing"
    case Decreasing => "↘ Decreasing"
    case NoChange => "↔ No change"
    case Insufficient => "Insufficient data"
  }

  /** Different trends are shown with different texts. */
  lemma TrendTextDistinct(t: Trend, u: Trend)
    ensures TrendText(t) == TrendText(u) ==> t == u
  {
  }

  /** The style classes of a trend box. */
  datatype TrendClass = Up | Down | Neutral

  /** The class chosen from the trend text: "Increasing" first, then "Decreasing". */
  function ClassOfText(text: string): (c: TrendClass)
    ensures c == Up <==> Contains(text, "Increasing")
    ensures c == Down <==> Contains(text, "Decreasing") && !Contains(text, "Increasing")
    ensures c == Neutral <==> !Contains(text, "Increasing") && !Contains(text, "Decreasing")
  {
    if Contains(text, "Increasing") then Up
    else if Contains(text, "Decreasing") then Down
    else Neutral
  }

  /** The class of each of the four trend texts. */
  lemma ClassOfIncreasingText()
    ensures ClassOfText(TrendText(Increasing)) == Up
  {
    ContainsAt(TrendText(Increasing), "Increasing", 2);
  }

  lemma ClassOfDecreasingText()
    ensures ClassOfText(TrendText(Decreasing)) == Down
  {
    MissingCharNotContained(TrendText(Decreasing), "Increasing", 0);
    ContainsAt(TrendText(Decreasing), "Decreasing", 2);
  }

  lemma ClassOfNeutralTexts()
    ensures ClassOfText(TrendText(NoChange)) == Neutral
    ensures ClassOfText(TrendText(Insufficient)) == Neutral
  {
    MissingCharNotContained(TrendText(NoChange), "Increasing", 0);
    MissingCharNotContained(TrendText(NoChange), "Decreasing", 0);
    MissingCharNotContained(TrendText(Insufficient), "Increasing", 3);
    MissingCharNotContained(TrendText(Insufficient), "Decreasing", 0);
  }

  /** Reading the class back from the text recovers the direction of the trend. */
  lemma ClassOfTrendText(t: Trend)
    ensures ClassOfText(TrendText(t)) == Up <==> t == Increasing
    ensures ClassOfText(TrendText(t)) == Down <==> t == Decreasing
    ensures ClassOfText(TrendText(t)) == Neutral <==> t == NoChange || t == Insufficient
  {
    ClassOfIncreasingText();
    ClassOfDecreasingText();
    ClassOfNeutralTexts();
  }

  /** What one rate box ends up showing. */
  datatype BoxView =
    | Skipped                                   // the heading names no rate
    | Shown(rate: Option<real>, trend: string, css: TrendClass)
    | Failed                                    // the lookup threw: "Error" / "Failed to load"

  /** One rate box of the summary page (`updateCurrentRatesDisplay`): classify the
      heading, then show the latest rate and `getRateTrend`'s text and class, with a
      missing rate type or an empty series caught as a failure. */
  function RateBoxView(title: string, data: RateData): (v: BoxView)
    ensures v.Skipped? <==> TitleType(title).None?
    ensures v.Failed? <==>
      TitleType(title).Some? && (TitleType(title).value !in data || |data[TitleType(title).value]| == 0)
    ensures v.Shown? ==>
      var series := data[TitleType(title).value];
      |series| > 0 &&
      v.rate == LatestValue(FinalValues(series)) &&
      v.trend == TrendText(CoercedTrend(series)) &&
      (v.css == Up <==> CoercedTrend(series) == Increasing) &&
      (v.css == Down <==> CoercedTrend(series) == Decreasing) &&
      (v.css == Neutral <==> CoercedTrend(series) == NoChange)
  {
    match TitleType(title)
    case None => Skipped
    case Some(t) =>
      if t !in data || |data[t]| == 0 then Failed
      else
        var series := data[t];
        var text := TrendText(CoercedTrend(series));
        ClassOfTrendText(CoercedTrend(series));
        Shown(LatestValue(FinalValues(series)), text, ClassOfText(text))
  }

  /** The same box with the corrected trend: the latest observation against the
      observation before it. */
  function CorrectedRateBoxView(title: string, data: RateData): (v: BoxView)
    ensures v.Skipped? <==> TitleType(title).None?
    ensures v.Failed? <==>
      TitleType(title).Some? && (TitleType(title).value !in data || |data[TitleType(title).value]| == 0)
    ensures v.Shown? ==>
      var series := data[TitleType(title).value];
      |series| > 0 &&
      v.rate == LatestValue(FinalValues(series)) &&
      v.trend == TrendText(IntendedTrend(series)) &&
      (v.css == Up <==> IntendedTrend(series) == Increasing) &&
      (v.css == Down <==> IntendedTrend(series) == Decreasing)
  {
    match TitleType(title)
    case None => Skipped
    case Some(t) =>
      if t !in data || |data[t]| == 0 then Failed
      else
        var series := data[t];
        var text := TrendText(IntendedTrend(series));
        ClassOfTrendText(IntendedTrend(series));
        Shown(LatestValue(FinalValues(series)), text, ClassOfText(text))
  }

  /** On the 2023/2024 example the page's box shows a decrease, the corrected box none. */
  lemma RateBoxesOnExample()
    ensures RateBoxView("Main Refinancing Rate", map[Refi := ExampleSeries()]) ==
      Shown(Some(4.25), "↘ Decreasing", Down)
    ensures CorrectedRateBoxView("Main Refinancing Rate", map[Refi := ExampleSeries()]) ==
      Shown(Some(4.25), "↔ No change", Neutral)
  {
    TitleOfDisplayName(Refi);
    CoercedTrendMisreadsExample();
  }
}
