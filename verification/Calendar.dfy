/** The proleptic Gregorian calendar behind Go's time package, in UTC. An instant is a number of nanoseconds
    since 1970-01-01 00:00 UTC, a day number counts days from the same date, a month number is
    12 * year + (month - 1). */
module Calendar {
  const HOUR: int := 3_600_000_000_000
  const DAY: int := 86_400_000_000_000

  predicate IsLeap(y: int) {
    y % 4 == 0 && (y % 100 != 0 || y % 400 == 0)
  }

  /** Day number of January 1 of year y. */
  function YearStart(y: int): int {
    365 * (y - 1970) + (y - 1) / 4 - (y - 1) / 100 + (y - 1) / 400 - 477
  }

  /** Days before month m (0 to 12) of a year. */
  function DaysBefore(m: int, leap: bool): int
    requires 0 <= m <= 12
  {
    var d := [0, 31, 59, 90, 120, 151, 181, 212, 243, 273, 304, 334, 365][m];
    if leap && m >= 2 then d + 1 else d
  }

  /** Day number of the first day of a month. */
  function MonthStart(k: int): int {
    YearStart(k / 12) + DaysBefore(k % 12, IsLeap(k / 12))
  }

  /** time.Date(year, month, day, hour, 0, 0, 0, UTC), with Go's normalization: the month number carries into
      the year and the day into the month. */
  function Date(month: int, day: int, hour: int): int {
    (MonthStart(month) + day - 1) * DAY + hour * HOUR
  }

  // ---- Lengths of years and months ----

  /** The formula of YearStart agrees with the leap-year rule, and counts from 1970. */
  lemma YearLength(y: int)
    ensures YearStart(1970) == 0
    ensures YearStart(y + 1) - YearStart(y) == if IsLeap(y) then 366 else 365
  {
    assert YearStart(1970) == 0;
    DivStep4(y);
    DivStep100(y);
    DivStep400(y);
    hide *;
    LeapParts(y);
    YearStartParts(y);
    YearStartParts(y + 1);
  }

  lemma DivStep4(y: int)
    ensures y / 4 - (y - 1) / 4 == if y % 4 == 0 then 1 else 0
  {
  }

  lemma DivStep100(y: int)
    ensures y / 100 - (y - 1) / 100 == if y % 100 == 0 then 1 else 0
  {
  }

  lemma DivStep400(y: int)
    ensures y / 400 - (y - 1) / 400 == if y % 400 == 0 then 1 else 0
  {
  }

  lemma YearStartParts(y: int)
    ensures YearStart(y) == 365 * (y - 1970) + (y - 1) / 4 - (y - 1) / 100 + (y - 1) / 400 - 477
  {
  }

  lemma LeapParts(y: int)
    ensures (if IsLeap(y) then 1 else 0)
            == (if y % 4 == 0 then 1 else 0) - (if y % 100 == 0 then 1 else 0) + (if y % 400 == 0 then 1 else 0)
  {
    if y % 400 == 0 { assert y == 100 * (4 * (y / 400)); }
    if y % 100 == 0 { assert y == 4 * (25 * (y / 100)); }
  }

  function MonthLength(m: int, leap: bool): int
    requires 0 <= m < 12
  {
    if m == 1 then (if leap then 29 else 28)
    else if m == 3 || m == 5 || m == 8 || m == 10 then 30
    else 31
  }

  /** Consecutive months are as far apart as the calendar says, across year ends too. */
  lemma MonthStep(k: int)
    ensures MonthStart(k + 1) - MonthStart(k) == MonthLength(k % 12, IsLeap(k / 12))
  {
    if k % 12 == 11 {
      assert (k + 1) / 12 == k / 12 + 1 && (k + 1) % 12 == 0;
      YearLength(k / 12);
    } else {
      assert (k + 1) / 12 == k / 12 && (k + 1) % 12 == k % 12 + 1;
    }
  }

  lemma MonthAtLeast28(k: int)
    ensures MonthStart(k) + 28 <= MonthStart(k + 1)
  {
    MonthStep(k);
  }

  lemma {:induction false} MonthsIncrease(j: int, k: int)
    requires j < k
    ensures MonthStart(j) + 28 * (k - j) <= MonthStart(k)
    decreases k - j
  {
    hide MonthStart;
    MonthAtLeast28(k - 1);
    if j < k - 1 { MonthsIncrease(j, k - 1); }
  }

  /** The month of a day, searched from an estimate: the calendar fields of an instant are the unique ones
      that Date maps back. */
  function MonthFrom(day: int, k: int): (m: int)
    ensures MonthStart(m) <= day < MonthStart(m + 1)
  {
    if day < MonthStart(k) then SearchDown(day, k) else SearchUp(day, k)
  }

  function SearchDown(day: int, k: int): (m: int)
    requires day < MonthStart(k)
    ensures MonthStart(m) <= day < MonthStart(m + 1)
    decreases MonthStart(k) - day
  {
    hide MonthStart;
    MonthAtLeast28(k - 1);
    if MonthStart(k - 1) <= day then k - 1 else SearchDown(day, k - 1)
  }

  function SearchUp(day: int, k: int): (m: int)
    requires MonthStart(k) <= day
    ensures MonthStart(m) <= day < MonthStart(m + 1)
    decreases day - MonthStart(k)
  {
    hide MonthStart;
    MonthAtLeast28(k);
    if day < MonthStart(k + 1) then k else SearchUp(day, k + 1)
  }

  function DayOf(t: int): int {
    t / DAY
  }

  /** The month number of an instant, from t.Year() and t.Month(). */
  function MonthOf(t: int): (m: int)
    ensures MonthStart(m) <= DayOf(t) < MonthStart(m + 1)
  {
    hide MonthStart;
    MonthFrom(DayOf(t), 12 * 1970)
  }

  /** t.Day(), from 1. */
  function DayOfMonth(t: int): (d: int)
    ensures 1 <= d <= 31
  {
    hide MonthStart, IsLeap;
    MonthStep(MonthOf(t));
    DayOf(t) - MonthStart(MonthOf(t)) + 1
  }

  /** t.Hour(). */
  function HourOf(t: int): (h: int)
    ensures 0 <= h < 24
  {
    (t % DAY) / HOUR
  }

  /** t.Weekday(), Sunday is 0; 1970-01-01 was a Thursday. */
  function Weekday(t: int): (w: int)
    ensures 0 <= w < 7
  {
    (DayOf(t) + 4) % 7
  }

  /** t.AddDate(0, months, days): the clock stays, the date is normalized. */
  function AddDate(t: int, months: int, days: int): int {
    Date(MonthOf(t) + months, DayOfMonth(t) + days, 0) + t % DAY
  }

  /** The month of a day is determined by its bounds. */
  lemma MonthUnique(day: int, j: int, k: int)
    requires MonthStart(j) <= day < MonthStart(j + 1)
    requires MonthStart(k) <= day < MonthStart(k + 1)
    ensures j == k
  {
    hide MonthStart;
    if j + 1 <= k { if j + 1 < k { MonthsIncrease(j + 1, k); } }
    if k + 1 <= j { if k + 1 < j { MonthsIncrease(k + 1, j); } }
  }
}
