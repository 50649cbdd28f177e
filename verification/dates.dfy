/** Calendar dates as the source's `Date` values are used: a year, a month 1..12 and a day. */
module Dates {

  datatype CivilDate = CivilDate(year: int, month: int, day: int)

  /** The ranges the parsers accept for the month and day fields. */
  predicate ValidMonthDay(month: int, day: int) { 1 <= month <= 12 && 1 <= day <= 31 }

  /** `new Date(y, ...)` reads a year 0..99 as 1900..1999. */
  function FullYear(y: nat): (r: nat)
    ensures y <= 99 ==> r == 1900 + y
    ensures 100 <= y ==> r == y
  {
    if y <= 99 then 1900 + y else y
  }

  /** `a` is an earlier day than `b`. */
  predicate Before(a: CivilDate, b: CivilDate) {
    a.year < b.year ||
    (a.year == b.year && (a.month < b.month || (a.month == b.month && a.day < b.day)))
  }

  /** The sign of `a.getTime() - b.getTime()` for two midnights. */
  function CompareDates(a: CivilDate, b: CivilDate): (c: int)
    ensures -1 <= c <= 1
    ensures c < 0 <==> Before(a, b)
    ensures c > 0 <==> Before(b, a)
    ensures c == 0 <==> a == b
  {
    if a.year != b.year then (if a.year < b.year then -1 else 1)
    else if a.month != b.month then (if a.month < b.month then -1 else 1)
    else if a.day != b.day then (if a.day < b.day then -1 else 1)
    else 0
  }
}
