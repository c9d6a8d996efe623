/** The proleptic Gregorian calendar underneath the send schedule.

Days are numbered from 0001-01-01, which is day 0. `DayNumber` counts the way Go's `time` package
does (a table of days before each month plus a leap-day correction) and `CivilOf` splits a day
number into 400-, 100-, 4- and 1-year cycles. `MonthLength` is the table of section 5.7 of RFC 3339
and shares no definition with either, so the lemmas below tie three independent descriptions.
*/
module Calendar {

  datatype Date = Date(year: int, month: int, day: int)

  predicate IsLeap(y: int) {
    y % 4 == 0 && (y % 100 != 0 || y % 400 == 0)
  }

  /** Section 5.7 of RFC 3339, with the leap-year rule of its Appendix C. */
  function MonthLength(y: int, m: int): int
    requires 1 <= m <= 12
  {
    if m == 2 then (if IsLeap(y) then 29 else 28)
    else if m == 4 || m == 6 || m == 9 || m == 11 then 30
    else 31
  }

  predicate ValidDate(d: Date) {
    1 <= d.month <= 12 && 1 <= d.day <= MonthLength(d.year, d.month)
  }

  function DaysBeforeYear(y: int): int {
    365 * (y - 1) + (y - 1) / 4 - (y - 1) / 100 + (y - 1) / 400
  }

  const DAYS_BEFORE_MONTH: seq<int> := [0, 31, 59, 90, 120, 151, 181, 212, 243, 273, 304, 334, 365]

  /** Days of year `y` before month `m`; month 13 stands for the end of the year. */
  function DaysBeforeMonth(y: int, m: int): int
    requires 1 <= m <= 13
  {
    DAYS_BEFORE_MONTH[m - 1] + (if m > 2 && IsLeap(y) then 1 else 0)
  }

  /** The day number of a month and day, where the day may lie outside the month. */
  function DayNumber(y: int, m: int, d: int): int
    requires 1 <= m <= 12
  {
    DaysBeforeYear(y) + DaysBeforeMonth(y, m) + d - 1
  }

  /** `time.Date` on a date whose month may lie outside 1..12: months carry into the year. */
  function NormalizedDayNumber(y: int, m: int, d: int): int {
    DayNumber(y + (m - 1) / 12, (m - 1) % 12 + 1, d)
  }

  function YearOf(n: int): int {
    var in400 := n % 146097;
    var c100 := if in400 / 36524 > 3 then 3 else in400 / 36524;
    var in100 := in400 - 36524 * c100;
    var in4 := in100 % 1461;
    var c1 := if in4 / 365 > 3 then 3 else in4 / 365;
    400 * (n / 146097) + 100 * c100 + 4 * (in100 / 1461) + c1 + 1
  }

  /** The last month, counting down from `m`, that has started by day `dayOfYear`. */
  function MonthOf(y: int, dayOfYear: int, m: int): (r: int)
    requires 1 <= m <= 12
    requires 0 <= dayOfYear < DaysBeforeMonth(y, m + 1)
    ensures 1 <= r <= m
    ensures DaysBeforeMonth(y, r) <= dayOfYear < DaysBeforeMonth(y, r + 1)
    decreases m
  {
    if m == 1 || DaysBeforeMonth(y, m) <= dayOfYear then m else MonthOf(y, dayOfYear, m - 1)
  }

  lemma DaysBeforeCentury(a: int, b: int, c: int, e: int)
    requires 0 <= b <= 3 && 0 <= c <= 24 && 0 <= e <= 3
    ensures DaysBeforeYear(400 * a + 100 * b + 4 * c + e + 1) == 146097 * a + 36524 * b + 1461 * c + 365 * e
  {
    var p := 400 * a + 100 * b + 4 * c + e;
    assert p / 4 == 100 * a + 25 * b + c;
    assert p / 100 == 4 * a + b;
    assert p / 400 == a;
  }

  lemma LeapYearsUpTo(y: int)
    ensures y / 4 - y / 100 + y / 400 == (y - 1) / 4 - (y - 1) / 100 + (y - 1) / 400 + if IsLeap(y) then 1 else 0
  {
    DivisionStep(y, 4);
    DivisionStep(y, 100);
    DivisionStep(y, 400);
    assert y % 400 == 0 ==> y == 100 * (4 * (y / 400));
    assert y % 100 == 0 ==> y == 4 * (25 * (y / 100));
  }

  lemma DivisionStep(y: int, k: int)
    requires k > 1
    ensures y / k == (y - 1) / k + if y % k == 0 then 1 else 0
  {
    var q, r := y / k, y % k;
    assert y == k * q + r;
    if r == 0 {
      DivisionUnique(y - 1, k, q - 1, k - 1);
    } else {
      DivisionUnique(y - 1, k, q, r - 1);
    }
  }

  lemma MultipleBounds(k: int, e: int)
    requires k > 0
    ensures e >= 1 ==> k * e >= k
    ensures e <= -1 ==> k * e <= -k
  {
  }

  lemma DivisionUnique(n: int, k: int, q: int, r: int)
    requires k > 0 && n == k * q + r && 0 <= r < k
    ensures n / k == q && n % k == r
  {
    var e := q - n / k;
    assert k * e == n % k - r by {
      assert k * e == k * q - k * (n / k);
    }
    MultipleBounds(k, e);
  }

  lemma YearLength(y: int)
    ensures DaysBeforeYear(y + 1) - DaysBeforeYear(y) == DaysBeforeMonth(y, 13)
  {
    LeapYearsUpTo(y);
  }

  lemma FourthYearIsLeap(a: int, b: int, c: int)
    requires 0 <= b <= 3 && 0 <= c <= 24
    requires c == 24 ==> b == 3
    ensures IsLeap(400 * a + 100 * b + 4 * c + 4)
  {
    var y := 400 * a + 100 * b + 4 * c + 4;
    assert y == 4 * (100 * a + 25 * b + c + 1);
    if c == 24 {
      assert y == 400 * (a + 1);
    } else {
      assert y == 100 * (4 * a + b) + (4 * c + 4);
    }
  }

  /** Every day falls in the year that `YearOf` names. */
  lemma YearOfContains(n: int)
    ensures DaysBeforeYear(YearOf(n)) <= n < DaysBeforeYear(YearOf(n)) + DaysBeforeMonth(YearOf(n), 13)
  {
    var a, in400 := n / 146097, n % 146097;
    var b := if in400 / 36524 > 3 then 3 else in400 / 36524;
    var in100 := in400 - 36524 * b;
    var c, in4 := in100 / 1461, in100 % 1461;
    var e := if in4 / 365 > 3 then 3 else in4 / 365;
    DaysBeforeCentury(a, b, c, e);
    if e == 3 && (c == 24 ==> b == 3) {
      FourthYearIsLeap(a, b, c);
    }
  }

  function CivilOf(n: int): (d: Date)
    ensures ValidDate(d)
    ensures DayNumber(d.year, d.month, d.day) == n
  {
    YearOfContains(n);
    var y := YearOf(n);
    var dayOfYear := n - DaysBeforeYear(y);
    var m := MonthOf(y, dayOfYear, 12);
    MonthSpan(y, m);
    Date(y, m, dayOfYear - DaysBeforeMonth(y, m) + 1)
  }

  /** The month table of RFC 3339 is the difference of the cumulative table. */
  lemma MonthSpan(y: int, m: int)
    requires 1 <= m <= 12
    ensures DaysBeforeMonth(y, m + 1) - DaysBeforeMonth(y, m) == MonthLength(y, m)
  {
  }

  predicate Earlier(a: Date, b: Date) {
    || a.year < b.year
    || (a.year == b.year && a.month < b.month)
    || (a.year == b.year && a.month == b.month && a.day < b.day)
  }

  lemma {:induction false} YearsAscend(y: int, y': int)
    requires y <= y'
    ensures DaysBeforeYear(y) <= DaysBeforeYear(y')
    decreases y' - y
  {
  }

  /** Counting days respects the order of dates. */
  lemma DayNumberAscends(a: Date, b: Date)
    requires ValidDate(a) && ValidDate(b) && Earlier(a, b)
    ensures DayNumber(a.year, a.month, a.day) < DayNumber(b.year, b.month, b.day)
  {
    MonthSpan(a.year, a.month);
    YearLength(a.year);
    if a.year < b.year {
      YearsAscend(a.year + 1, b.year);
    }
  }

  /** Day numbers and valid civil dates are in bijection: with the contract of `CivilOf`, each of the
      two maps undoes the other. */
  lemma CivilOfDayNumber(d: Date)
    requires ValidDate(d)
    ensures CivilOf(DayNumber(d.year, d.month, d.day)) == d
  {
    var e := CivilOf(DayNumber(d.year, d.month, d.day));
    if Earlier(d, e) {
      DayNumberAscends(d, e);
    } else if Earlier(e, d) {
      DayNumberAscends(e, d);
    }
  }

  /** A month inside the year needs no carrying. */
  lemma SameMonth(y: int, m: int, d: int)
    requires 1 <= m <= 12
    ensures NormalizedDayNumber(y, m, d) == DayNumber(y, m, d)
  {
  }

  lemma NextMonthStarts(y: int, m: int)
    requires 1 <= m <= 12
    ensures NormalizedDayNumber(y, m + 1, 1) == DayNumber(y, m, MonthLength(y, m) + 1)
  {
    MonthSpan(y, m);
    if m == 12 {
      YearLength(y);
      assert m / 12 == 1 && m % 12 == 0;
    } else {
      assert m / 12 == 0 && m % 12 == m;
    }
  }

  /** "Day 0 of the next month" is the last day of this one, December included. */
  lemma DayZeroOfNextMonth(y: int, m: int)
    requires 1 <= m <= 12
    ensures CivilOf(NormalizedDayNumber(y, m + 1, 0)) == Date(y, m, MonthLength(y, m))
  {
    NextMonthStarts(y, m);
    CivilOfDayNumber(Date(y, m, MonthLength(y, m)));
  }
}
