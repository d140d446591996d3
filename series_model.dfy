/** The shape of the rate data: per rate type, a series of year records ordered by
    increasing year, each holding index-aligned period labels and optional values. */
module SeriesModel {
  import opened Wrappers

  /** The three policy rates of the European Central Bank. */
  datatype RateType = Refi | Deposit | Lending

  /** The key under which the page code names a rate type. */
  function Key(t: RateType): string {
    match t
    case Refi => "refi"
    case Deposit => "deposit"
    case Lending => "lending"
  }

  /** The display name of a rate type. */
  function DisplayName(t: RateType): string {
    match t
    case Refi => "Main Refinancing Rate"
    case Deposit => "Deposit Facility Rate"
    case Lending => "Marginal Lending Rate"
  }

  /** One calendar year of observations; `None` means "no observation". */
  datatype YearRecord = YearRecord(year: int, labels: seq<string>, values: seq<Option<real>>)

  type Series = seq<YearRecord>

  /** What the fetcher delivers: a series per rate type (`data[type].data`). */
  type RateData = map<RateType, Series>

  /** Labels and values describe the same periods. */
  predicate WellFormedRecord(y: YearRecord) {
    |y.labels| == |y.values|
  }

  predicate WellFormed(series: Series) {
    forall k :: 0 <= k < |series| ==> WellFormedRecord(series[k])
  }

  /** The records are ordered by strictly increasing year. */
  predicate YearsIncreasing(series: Series) {
    forall i, j :: 0 <= i < j < |series| ==> series[i].year < series[j].year
  }

  /** `capitalizeType`: the display name of a known key; any other string passes through. */
  function CapitalizeType(key: string): (r: string)
    ensures forall t :: key == Key(t) ==> r == DisplayName(t)
    ensures key != Key(Refi) && key != Key(Deposit) && key != Key(Lending) ==> r == key
  {
    if key == "refi" then "Main Refinancing Rate"
    else if key == "deposit" then "Deposit Facility Rate"
    else if key == "lending" then "Marginal Lending Rate"
    else key
  }
}
