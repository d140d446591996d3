# ECB Lens rate-series model

ECB Lens shows the three policy rates of the European Central Bank (main
refinancing, deposit facility, marginal lending) on two pages: a summary page with
the current rate and a trend arrow per rate, and a rates page with one chart per
year and buttons to move between years. The data is, per rate type, a series of
year records ordered by year; each record holds period labels (month names) and an
index-aligned list of rate values, any of which may be missing.

This project models the data-shaping logic of `script.js` in Dafny and proves what
it computes:

- `SeriesModel` (series_model.dfy): rate types, year records, series, and
  `capitalizeType`.
- `TrendAnalyzer` (trend_analyzer.dfy): `getLatestRate` and `getRateTrend`, as
  loops proved against specification functions.
- `TrendFinding` (trend_finding.dfy): the trend as JavaScript actually evaluates
  it, and the corrected trend (see Findings).
- `SeriesReshaper` (series_reshaper.dfy): the all-years flattening loop of
  `showModalAllYearsChart` and its January-only tick rule.
- `YearNavigation` (year_navigation.dfy): year selection and button state in
  `showYearChart`, and the index step of `changeYear`.
- `Presentation` (presentation.dfy): heading-to-rate classification, trend text,
  trend style class, and what one summary rate box shows.
- `Wrappers` and `Text`: `Option`, and the string tests the page uses (`startsWith`,
  `includes`, rendering a year in a template string).

A missing value (`null` or `undefined`) is `None`. Values are `real`.

## Model

| member | source | states |
|---|---|---|
| SeriesModel.CapitalizeType | script.js:17-24 | each known key gets its display name; every other string comes back unchanged |
| TrendAnalyzer.LastPresentBefore | script.js:32-34 | the backward search finds the greatest observed index below the bound, or reports that none exists |
| TrendAnalyzer.LatestValue | script.js:27-36 | the result is absent exactly when the year has no observation; otherwise it is the observation at the greatest observed index |
| TrendAnalyzer.LatestRate | script.js:27-36 | the while loop returns the latest value of the final year only |
| TrendAnalyzer.PrevValue | script.js:42-60 | the nearest observation strictly before the final index of the final year; if none, the latest value of the year before when there is one, and nothing older |
| TrendAnalyzer.PrevBefore | script.js:42-60 | the nearest observation before a given index of the final year, else the latest of the year before when there is one; `PrevValue` is this search below the final index |
| TrendAnalyzer.Compare | script.js:61-64 | with both sides observed, exactly one of Increasing, Decreasing, NoChange holds, each iff its order relation; a missing side gives Insufficient |
| TrendAnalyzer.RateTrend | script.js:39-65 | the two backward loops with `break` compute the raw final entry compared with PrevValue |
| TrendAnalyzer.CompareAntisymmetric | script.js:62-64 | swapping two distinct observations swaps Increasing and Decreasing and never gives NoChange |
| TrendAnalyzer.TrendIgnoresOlderYears | script.js:40-60 | the trend depends on the last two year records alone |
| TrendFinding.CoercedTrend | script.js:39-65 | the page as written: an empty final year gives NoChange (`undefined` compares false both ways); otherwise the final entry and the previous value, each read as 0 when missing, are compared, so the result is never Insufficient |
| TrendFinding.IntendedTrend | script.js:39-65 | the corrected trend is Insufficient when the final year has no observation, and otherwise compares the latest observation with the nearest observation before it (one year back at most) |
| TrendFinding.CoercedTrendNegativeRate | script.js:61-62 | a negative rate followed by a missing final entry is reported as an increase by the page, and as undecided by the corrected trend |
| TrendFinding.CoercedAgreesWhenPresent | script.js:61-64 | when both compared entries are observed, JavaScript's comparison equals the model's |
| TrendFinding.IntendedAgreesWhenFinalPresent | script.js:39-65 | when the final entry is observed, the corrected trend equals the page's comparison of positions with a missing previous value made Insufficient (`TrendOf`) |
| TrendFinding.IntendedAgreesWithPageWhenBothPresent | script.js:61-64 | when the final entry and the value before it are both observed, the corrected trend equals what the page shows |
| TrendFinding.IntendedTrendIgnoresTrailingGaps | script.js:39-65 | appending an unobserved period to the current year leaves the corrected trend unchanged |
| TrendFinding.IntendedTrendDecidedByTwoObservations | script.js:39-65 | two observations in the final year always decide the corrected trend |
| TrendFinding.CoercedTrendMisreadsExample | script.js:61-64 | on the 2023/2024 example the page reports a decrease while the latest rate equals the previous one; the corrected trend is NoChange |
| SeriesReshaper.YearLabels | script.js:95 | one label per period of the year, each the period name, a space and the year |
| SeriesReshaper.FlattenAllYears | script.js:89-98 | the nested push loop yields exactly all labels and all values in year order, then period order |
| SeriesReshaper.FlatLength | script.js:93-98 | the flattened sequences have as many entries as all years have periods together |
| SeriesReshaper.OffsetStep | script.js:93-94 | each year's block starts where the previous year's block ends |
| SeriesReshaper.OffsetMonotone | script.js:93-94 | an earlier year's block lies wholly before a later year's block |
| SeriesReshaper.FlatValueAt | script.js:96 | the element at year k's offset plus i is period i of year k, passed through unchanged, missing entries included |
| SeriesReshaper.FlatLabelAt | script.js:95 | the label at year k's offset plus i is period i's name followed by year k |
| SeriesReshaper.FlatIndexCovered | script.js:93-98 | every flattened position lies in the block of some year |
| SeriesReshaper.FlatIndexUnique | script.js:93-98 | no position lies in the blocks of two different years, so each position has exactly one (year, period) pair |
| SeriesReshaper.JanuaryTick | script.js:143-147 | a tick shows its label iff the label exists and starts with "Jan"; otherwise it shows the empty string |
| SeriesReshaper.JanuaryPrefixOfPeriodLabel | script.js:95 | a period label starts with "Jan" iff its period name does, whatever the year |
| SeriesReshaper.JanuaryTickOfFlatLabels | script.js:145 | on the all-years chart a tick is labelled iff its period name starts with "Jan" |
| YearNavigation.Years | script.js:170 | the year of every record, in series order |
| YearNavigation.IndexOf | script.js:171 | the first position holding the year, or -1 exactly when no position does |
| YearNavigation.SelectIndex | script.js:169-173 | the first record of the requested year, or the last record when no record has that year |
| YearNavigation.SelectAbsentYearIsLatest | script.js:172 | with increasing years, an absent year selects the same record as the most recent year |
| YearNavigation.SelectOwnYear | script.js:169-173 | with increasing years, every record is selected by its own year |
| YearNavigation.Buttons | script.js:223-224 | for a valid index, prev is disabled iff it is the last index and next iff it is index 0; a one-year series disables both |
| YearNavigation.ButtonsMatchStep | script.js:223-224 | prev is disabled iff the index is the last one iff a prev press stays put; next likewise at index 0 |
| YearNavigation.Step | script.js:248-250 | the index stays in range; "prev" moves it up by exactly one unless it is at the last index, "next" down by exactly one unless it is at 0 or below, and any other direction leaves it |
| YearNavigation.StepIdempotentAtBounds | script.js:249-250 | at the ends a further press changes nothing |
| YearNavigation.RepeatedSteps | script.js:249-250 | n presses move exactly n records, clamped at the ends without wrapping |
| YearNavigation.ChangeYear | script.js:244-252 | the year to show after a press; an unknown shown year goes to the oldest record on "prev" and to nothing on "next" |
| YearNavigation.NavigationShowsSteppedRecord | script.js:244-252 | from record k, the year handed to the chart selects exactly the stepped index |
| Presentation.TitleType | script.js:262-264 | Lending iff the heading contains "Marginal Lending"; Deposit iff it contains "Deposit Facility" but not that; Refi iff it contains "Main Refinancing" and neither of the others |
| Presentation.ClassifyTitle | script.js:261-265 | the sequential tests give the last matching phrase in test order, and nothing iff no phrase occurs |
| Presentation.TitleOfDisplayName | script.js:262-264 | a heading that is exactly a rate's display name is classified as that rate |
| Presentation.TrendTextDistinct | script.js:62-64 | the trend texts of different trends differ, so the shown text identifies the trend |
| Presentation.ClassOfText | script.js:279-281 | up iff the text contains "Increasing"; down iff it contains "Decreasing" but not "Increasing"; neutral iff it contains neither |
| Presentation.ClassOfIncreasingText | script.js:279 | the increasing text gets the up class |
| Presentation.ClassOfDecreasingText | script.js:280 | the decreasing text does not contain "Increasing" and gets the down class |
| Presentation.ClassOfNeutralTexts | script.js:281 | the no-change and insufficient texts contain neither word and get the neutral class |
| Presentation.ClassOfTrendText | script.js:278-281 | the class read from the trend text is up iff Increasing, down iff Decreasing, neutral otherwise |
| Presentation.RateBoxView | script.js:259-288 | a box is skipped iff its heading names no rate, fails iff that rate's series is missing or empty, and otherwise shows the latest value, the text of the trend as the page computes it, and the class matching that trend |
| Presentation.CorrectedRateBoxView | script.js:259-288 | the same box showing the corrected trend's text and class |
| Presentation.RateBoxesOnExample | script.js:275-281 | on the 2023/2024 example the page's box shows 4.25 with "↘ Decreasing" and the down class; the corrected box shows "↔ No change" and the neutral class |

## Left out

- Page structure: element lookups, modal display, `getPageType`, `openModal`,
  `closeModal` and the click-outside handler (DOM plumbing).
- Chart.js: chart construction, the chart registry and `destroy`, colours, and the
  tick and tooltip option objects other than the January rule.
- The asynchronous fetch of the rate data, its fallback, and the built-in fallback
  literal (network I/O and code that is not part of this model).
- Rendering numbers as text (`latestRate + "%"`, tooltip text) and console logging.
- The rates-page cards (script.js:291-307): they use the same classification and
  trend code as the summary boxes but have no `try`/`catch`; they are not modelled
  separately.
- `null` and `undefined` are both `None`. In JavaScript a `null` compares as 0 and an
  `undefined` as NaN; `CoercedTrend` models the `null` reading.
- TrendAnalyzer.RateTrend: a missing side of the comparison gives `Insufficient`
  instead of JavaScript's reading of `null` as 0; `TrendFinding.CoercedTrend` models
  the coerced reading.
- TrendAnalyzer.LatestRate: requires a non-empty series, because `getLatestRate`
  throws on an empty one; `RateBoxView` models that throw as `Failed`.
- YearNavigation.SelectIndex: requires a non-empty series, because on an empty one
  `showYearChart` selects index -1 and throws reading `series[-1].labels`
  (script.js:172-178); that throw is not modelled.
- YearNavigation.ChangeYear: takes the shown year as an integer; reading it from the
  page with `parseInt` is left out.
- Navigation to a neighbouring year is modelled as `changeYear` does it (an index
  step plus button flags), not as a separate function returning the adjacent year.
- SeriesReshaper.FlattenAllYears: requires labels and values of each year to have
  equal length; with fewer labels the page would print "undefined" as a period name.

## Findings

| source | as written | input that shows it | evidently intended | confidence | as-written member | corrected member |
|---|---|---|---|---|---|---|
| script.js:61-64 | the trend compares the raw final entry `values[len-1]` with the previous observation, and a `null` final entry reads as 0 | 2023 = 4.5 for eleven months then `null`; 2024 = 4.25, 4.25, then ten `null`: the page shows "↘ Decreasing" | compare the latest observation with the nearest observation before it, giving "↔ No change" | high; not executed | TrendFinding.CoercedTrendMisreadsExample | TrendFinding.IntendedTrendIgnoresTrailingGaps |

`TrendFinding.IntendedTrend` is the corrected trend, and
`Presentation.CorrectedRateBoxView` is the summary rate box that uses it.
`Presentation.RateBoxView` is the box as the page builds it, from
`TrendFinding.CoercedTrend`. `TrendAnalyzer.RateTrend` keeps the positions the page
compares, so that the page's own computation stays visible.
