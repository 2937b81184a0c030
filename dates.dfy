/**
 * Calendar dates at day granularity. The plugin keeps dates as zero-padded
 * `YYYY-MM-DD` strings and compares them after `time.strptime`, which orders
 * them by year, then month, then day.
 */
module Dates {
  datatype Date = Date(year: int, month: int, day: int)

  /** `strptime(a) < strptime(b)`: strictly earlier, lexicographic on (year, month, day). */
  predicate Before(a: Date, b: Date)
  {
    a.year < b.year
    || (a.year == b.year && (a.month < b.month || (a.month == b.month && a.day < b.day)))
  }
}
