/** The proleptic Gregorian calendar behind `datetime`: dates, day numbers and
    the fact that the two are ordered alike. */
module Calendar {

  datatype Date = Date(year: int, month: int, day: int)

  /** Day number of 9999-12-31, counting 0001-01-01 as day 1. */
  const MAX_ORDINAL := 3_652_059

  predicate Leap(y: int) {
    y % 4 == 0 && (y % 100 != 0 || y % 400 == 0)
  }

  function DaysInMonth(y: int, m: int): int {
    if m == 2 then (if Leap(y) then 29 else 28)
    else if m == 4 || m == 6 || m == 9 || m == 11 then 30
    else 31
  }

  /** Long and short months take turns, starting over in August. */
  lemma MonthLengths(y: int, m: int)
    requires 1 <= y && 1 <= m <= 12
    ensures m != 2 ==> DaysInMonth(y, m) == 30 + (m + m / 8) % 2
    ensures m == 2 ==> DaysInMonth(y, m) == 28 + DaysBeforeYear(y + 1) - DaysBeforeYear(y) - 365
  {
    YearStep(y);
  }

  function DaysBeforeYear(y: int): int {
    var p := y - 1;
    365 * p + p / 4 - p / 100 + p / 400
  }

  function DaysBeforeMonth(y: int, m: int): int
    decreases m
  {
    if m <= 1 then 0 else DaysBeforeMonth(y, m - 1) + DaysInMonth(y, m - 1)
  }

  predicate ValidDate(d: Date) {
    1 <= d.year <= 9999 && 1 <= d.month <= 12 && 1 <= d.day <= DaysInMonth(d.year, d.month)
  }

  function Ordinal(d: Date): int {
    DaysBeforeYear(d.year) + DaysBeforeMonth(d.year, d.month) + d.day
  }

  /** Year, then month, then day: the order in which date text is compared. */
  predicate DateBefore(a: Date, b: Date) {
    a.year < b.year
    || (a.year == b.year && (a.month < b.month || (a.month == b.month && a.day < b.day)))
  }

  lemma {:induction false} MonthsAscend(y: int, m: int, n: int)
    requires 1 <= m < n
    ensures DaysBeforeMonth(y, m) + DaysInMonth(y, m) <= DaysBeforeMonth(y, n)
    decreases n
  {
    if m < n - 1 {
      MonthsAscend(y, m, n - 1);
    }
  }

  lemma DaysInYear(y: int)
    ensures DaysBeforeMonth(y, 13) == if Leap(y) then 366 else 365
  {}

  lemma {:induction false} YearsAscend(y: int, z: int)
    requires 1 <= y < z
    ensures DaysBeforeYear(y) + DaysBeforeMonth(y, 13) <= DaysBeforeYear(z)
    decreases z
  {
    DaysInYear(z - 1);
    YearStep(z - 1);
    if y < z - 1 {
      YearsAscend(y, z - 1);
    }
  }

  lemma YearStep(y: int)
    requires 1 <= y
    ensures DaysBeforeYear(y + 1) == DaysBeforeYear(y) + if Leap(y) then 366 else 365
  {
    var p := y - 1;
    assert y / 4 == p / 4 + if y % 4 == 0 then 1 else 0;
    assert y / 100 == p / 100 + if y % 100 == 0 then 1 else 0;
    assert y / 400 == p / 400 + if y % 400 == 0 then 1 else 0;
    assert y % 100 == 0 ==> y % 4 == 0;
    assert y % 400 == 0 ==> y % 100 == 0;
  }

  lemma OrdinalAscends(a: Date, b: Date)
    requires ValidDate(a) && ValidDate(b) && DateBefore(a, b)
    ensures Ordinal(a) < Ordinal(b)
  {
    if a.year < b.year {
      YearsAscend(a.year, b.year);
      MonthsAscend(a.year, a.month, 13);
      BeforeMonthNonNegative(b.year, b.month);
    } else if a.month < b.month {
      MonthsAscend(a.year, a.month, b.month);
    }
  }

  lemma BeforeMonthNonNegative(y: int, m: int)
    ensures 0 <= DaysBeforeMonth(y, m)
  {}

  /** Dates compare as their day numbers do. */
  lemma OrdinalOrder(a: Date, b: Date)
    requires ValidDate(a) && ValidDate(b)
    ensures Ordinal(a) < Ordinal(b) <==> DateBefore(a, b)
    ensures Ordinal(a) == Ordinal(b) <==> a == b
  {
    if DateBefore(a, b) {
      OrdinalAscends(a, b);
    } else if DateBefore(b, a) {
      OrdinalAscends(b, a);
    }
  }

  function NextDay(d: Date): Date {
    if d.day < DaysInMonth(d.year, d.month) then d.(day := d.day + 1)
    else if d.month < 12 then Date(d.year, d.month + 1, 1)
    else Date(d.year + 1, 1, 1)
  }

  lemma NextDayOrdinal(d: Date)
    requires ValidDate(d)
    ensures Ordinal(NextDay(d)) == Ordinal(d) + 1
    ensures Ordinal(d) < MAX_ORDINAL ==> ValidDate(NextDay(d))
  {
    if d.day == DaysInMonth(d.year, d.month) && d.month == 12 {
      YearStep(d.year);
      DaysInYear(d.year);
    }
  }

  /** The date with a given day number. */
  function FromOrdinal(n: int): (d: Date)
    requires 1 <= n <= MAX_ORDINAL
    ensures ValidDate(d) && Ordinal(d) == n
    decreases n
  {
    if n == 1 then Date(1, 1, 1)
    else
      var p := FromOrdinal(n - 1);
      NextDayOrdinal(p);
      NextDay(p)
  }
}
