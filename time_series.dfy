/**
 * The part of getStockPrice that reads the decoded "Time Series (Daily)"
 * object: one entry per `YYYY-MM-DD` key, each a map from field name to the
 * field's text.
 */
module TimeSeries {
  import opened Wrappers

  type DailyFields = map<string, string>

  /** The "Time Series (Daily)" object, keyed by date string. */
  type Series = map<string, DailyFields>

  /** The field whose value is the day's closing price. */
  const CloseField: string := "4. close"

  /** Text-to-number conversion done by `fmt.Sscanf(text, "%f", &v)`; None when nothing is scanned. */
  type Scanner = string -> Option<real>

  /** Outcome of one request to the price service, up to JSON decoding. */
  datatype Feed =
    | Delivered(series: Series)
    | Failed(reason: string)  // transport error, non-200 status, unreadable body or undecodable JSON

  datatype PriceError =
    | NoData(date: string)
    | FetchFailed(reason: string)
  {
    /** The text of the Go error value. */
    function Message(): (m: string)
      ensures NoData? ==> m == NoDataPrefix + date
      ensures FetchFailed? ==> m == reason
    {
      match this
      case NoData(date) => NoDataPrefix + date
      case FetchFailed(reason) => reason
    }
  }

  const NoDataPrefix: string := "no data available for the given date: "

  /**
   * The value Sscanf leaves in a float variable that starts at 0: the scanned
   * number, or 0 when scanning fails (the source discards Sscanf's error).
   */
  function ScanOrZero(scan: Scanner, text: string): (v: real)
    ensures scan(text).None? ==> v == 0.0
    ensures scan(text).Some? ==> v == scan(text).value
  {
    match scan(text)
    case Some(x) => x
    case None => 0.0
  }

  /** The close price stored under exactly `date`, or the "no data" error naming `date`. */
  function ClosePrice(series: Series, date: string, scan: Scanner): (r: Result<real, PriceError>)
    ensures r.Ok? <==> date in series && CloseField in series[date]
    ensures r.Ok? ==> r.value == ScanOrZero(scan, series[date][CloseField])
    ensures r.Err? ==> r.error == NoData(date)
  {
    if date in series && CloseField in series[date] then
      Ok(ScanOrZero(scan, series[date][CloseField]))
    else
      Err(NoData(date))
  }

  /** getStockPrice for one date, given what the service delivered. */
  function GetStockPrice(feed: Feed, date: string, scan: Scanner): (r: Result<real, PriceError>)
    ensures feed.Failed? ==> r == Err(FetchFailed(feed.reason))
    ensures feed.Delivered? ==> r == ClosePrice(feed.series, date, scan)
  {
    match feed
    case Failed(reason) => Err(FetchFailed(reason))
    case Delivered(series) => ClosePrice(series, date, scan)
  }

  /** The lookup reads only the entry stored under the requested date. */
  lemma ClosePriceReadsOnlyDate(s1: Series, s2: Series, date: string, scan: Scanner)
    requires date in s1 <==> date in s2
    requires date in s1 ==> s1[date] == s2[date]
    ensures ClosePrice(s1, date, scan) == ClosePrice(s2, date, scan)
  {
  }

  /** Adding or replacing the entry of another date does not change the lookup. */
  lemma ClosePriceIgnoresOtherDates(series: Series, date: string, other: string, fields: DailyFields, scan: Scanner)
    requires other != date
    ensures ClosePrice(series[other := fields], date, scan) == ClosePrice(series, date, scan)
  {
  }

  /** Storing a close text under a date makes the lookup return its scanned value. */
  lemma ClosePriceAfterStore(series: Series, date: string, fields: DailyFields, scan: Scanner)
    requires CloseField in fields
    ensures ClosePrice(series[date := fields], date, scan) == Ok(ScanOrZero(scan, fields[CloseField]))
  {
  }
}
