/** Conversion between dates and ordinal days across the change of calendar in 1752 (dconv.c).
  *
  * The reference is counting: Ordinal adds up whole years and whole months. Both directions of the
  * program use closed forms instead, different ones, and are proved against the counting.
  */
module Calendar {

  const NORM_UPTO: seq<int> := [0, 0, 31, 59, 90, 120, 151, 181, 212, 243, 273, 304, 334, 365]
  const LEAP_UPTO: seq<int> := [0, 0, 31, 60, 91, 121, 152, 182, 213, 244, 274, 305, 335, 366]
  const Y1752_UPTO: seq<int> := [0, 0, 31, 60, 91, 121, 152, 182, 213, 244, 263, 294, 324, 355]

  /** Which years are leap years: every fourth before 1752, by the Gregorian rule after it. */
  predicate IsLeap(y: int) {
    if y <= 1752 then y % 4 == 0 else y % 4 == 0 && (y % 100 != 0 || y % 400 == 0)
  }

  function YearLength(y: int): int {
    if y == 1752 then 355 else if IsLeap(y) then 366 else 365
  }

  function MonthLength(m: int, y: int): int
    requires 1 <= m <= 12
  {
    if m == 2 then (if IsLeap(y) then 29 else 28)
    else if m == 9 && y == 1752 then 19
    else if m == 4 || m == 6 || m == 9 || m == 11 then 30
    else 31
  }

  datatype Date = Date(month: int, day: int, year: int)

  /** The dates that exist: 3 to 13 September 1752 do not. */
  predicate Exists(t: Date) {
    t.year >= 1 && 1 <= t.month <= 12 && t.day >= 1 &&
    if t.month == 9 && t.year == 1752 then t.day <= 2 || 14 <= t.day <= 30
    else t.day <= MonthLength(t.month, t.year)
  }

  // The position of a day within its month; only September 1752 has a gap.
  function DayInMonth(t: Date): int {
    if t.month == 9 && t.year == 1752 && t.day >= 14 then t.day - 11 else t.day
  }

  function DaysBeforeYear(y: int): int
    decreases y
  {
    if y <= 1 then 0 else DaysBeforeYear(y - 1) + YearLength(y - 1)
  }

  function DaysBeforeMonth(m: int, y: int): int
    requires 1 <= m <= 13
    decreases m
  {
    if m == 1 then 0 else DaysBeforeMonth(m - 1, y) + MonthLength(m - 1, y)
  }

  /** The ordinal of a date by counting: 1 January of year 1 is day 1. */
  function Ordinal(t: Date): int
    requires 1 <= t.month <= 12
  {
    DaysBeforeYear(t.year) + DaysBeforeMonth(t.month, t.year) + DayInMonth(t)
  }

  /** The day after. */
  function Successor(t: Date): Date
    requires Exists(t)
  {
    if t == Date(9, 2, 1752) then Date(9, 14, 1752)
    else if t.day < (if t.month == 9 && t.year == 1752 then 30 else MonthLength(t.month, t.year))
    then Date(t.month, t.day + 1, t.year)
    else if t.month < 12 then Date(t.month + 1, 1, t.year)
    else Date(1, 1, t.year + 1)
  }

  function UpTo(y: int): seq<int> {
    if y == 1752 then Y1752_UPTO else if IsLeap(y) then LEAP_UPTO else NORM_UPTO
  }

  lemma TableStep(m: int, y: int)
    requires 1 <= m <= 12
    ensures UpTo(y)[m + 1] == UpTo(y)[m] + MonthLength(m, y)
  {
  }

  // The tables are the running totals of the month lengths.
  lemma {:induction false} TablesCount(m: int, y: int)
    requires 1 <= m <= 13
    ensures UpTo(y)[m] == DaysBeforeMonth(m, y)
    decreases m
  {
    if m > 1 {
      TablesCount(m - 1, y);
      TableStep(m - 1, y);
    }
  }

  lemma MonthsMakeYear(y: int)
    ensures DaysBeforeMonth(13, y) == YearLength(y)
  {
    TablesCount(13, y);
  }

  // Month and year ends.
  lemma NextMonth(m: int, y: int)
    requires 1 <= m <= 12
    ensures DaysBeforeMonth(m + 1, y) == DaysBeforeMonth(m, y) + MonthLength(m, y)
  {
  }

  lemma NextYear(y: int)
    requires y >= 1
    ensures DaysBeforeYear(y + 1) == DaysBeforeYear(y) + DaysBeforeMonth(12, y) + 31
  {
    MonthsMakeYear(y);
    NextMonth(12, y);
  }

  /** The next date exists and its ordinal is one larger: ordinals count days. */
  lemma SuccessorCounts(t: Date)
    requires Exists(t)
    ensures Exists(Successor(t)) && Ordinal(Successor(t)) == Ordinal(t) + 1
  {
    NextMonth(t.month, t.year);
    NextYear(t.year);
    SuccessorIs(t, Successor(t));
  }

  // Which of the three parts of the date moves.
  lemma SuccessorIs(t: Date, u: Date)
    requires Exists(t) && u == Successor(t)
    ensures Exists(u)
    ensures u.year == t.year && u.month == t.month ==> DayInMonth(u) == DayInMonth(t) + 1
    ensures u.year == t.year && u.month != t.month ==>
              u.month == t.month + 1 && DayInMonth(u) == 1 && DayInMonth(t) == MonthLength(t.month, t.year)
    ensures u.year != t.year ==>
              u.year == t.year + 1 && u.month == 1 && DayInMonth(u) == 1 && t.month == 12 && DayInMonth(t) == 31
  {
  }

  /** to_day's closed form for the days before a year. */
  function ClosedForm(y: int): int {
    (y - 1) * 365 + (y - 1) / 4
    - (if y > 1800 then (y - 1701) / 100 - (y - 1601) / 400 else 0)
    - (if y > 1752 then 11 else 0)
  }

  lemma {:induction false} ClosedFormCounts(y: int)
    requires y >= 1
    ensures ClosedForm(y) == DaysBeforeYear(y)
    decreases y
  {
    if y > 1 {
      ClosedFormCounts(y - 1);
      ClosedFormStep(y - 1);
    }
  }

  // Counting the multiples of 4, of 100 and of 400 one step further.
  lemma CountMultiples(a: int)
    ensures a / 4 == (a - 1) / 4 + if a % 4 == 0 then 1 else 0
    ensures a / 100 == (a - 1) / 100 + if a % 100 == 0 then 1 else 0
    ensures a / 400 == (a - 1) / 400 + if a % 400 == 0 then 1 else 0
  {
  }

  lemma ShiftCenturies(y: int)
    ensures (y - 1700) % 100 == y % 100 && (y - 1600) % 400 == y % 400
    ensures y % 400 == 0 ==> y % 100 == 0
    ensures y % 100 == 0 ==> y % 4 == 0
  {
    By100(-17, y);
    By400(-4, y);
    By100(4 * (y / 400), 0);
    By4(25 * (y / 100), 0);
  }

  // Whole multiples can be taken out of a division.
  lemma By4(a: int, b: int)
    ensures (4 * a + b) / 4 == a + b / 4 && (4 * a + b) % 4 == b % 4
  {
  }

  lemma By100(a: int, b: int)
    ensures (100 * a + b) / 100 == a + b / 100 && (100 * a + b) % 100 == b % 100
  {
  }

  lemma By400(a: int, b: int)
    ensures (400 * a + b) / 400 == a + b / 400 && (400 * a + b) % 400 == b % 400
  {
  }

  lemma ClosedFormStep(y: int)
    requires y >= 1
    ensures ClosedForm(y + 1) == ClosedForm(y) + YearLength(y)
  {
    if y <= 1800 {
      assert y / 4 == (y - 1) / 4 + if y % 4 == 0 then 1 else 0;
    } else {
      CountMultiples(y);
      CountMultiples(y - 1700);
      CountMultiples(y - 1600);
      ShiftCenturies(y);
      GregorianStep(y);
    }
  }

  lemma GregorianStep(y: int)
    requires y > 1800
    requires y / 4 == (y - 1) / 4 + if y % 4 == 0 then 1 else 0
    requires (y - 1700) / 100 == (y - 1701) / 100 + if y % 100 == 0 then 1 else 0
    requires (y - 1600) / 400 == (y - 1601) / 400 + if y % 400 == 0 then 1 else 0
    requires y % 400 == 0 ==> y % 100 == 0
    requires y % 100 == 0 ==> y % 4 == 0
    ensures ClosedForm(y + 1) == ClosedForm(y) + YearLength(y)
  {
  }

  lemma {:induction false} LaterYearsCountMore(y: int, z: int)
    requires 1 <= y <= z
    ensures DaysBeforeYear(z) >= DaysBeforeYear(y) + 355 * (z - y)
    decreases z - y
  {
    if y < z { LaterYearsCountMore(y, z - 1); }
  }

  lemma {:induction false} LaterMonthsCountMore(m: int, n: int, y: int)
    requires 1 <= m <= n <= 13
    ensures DaysBeforeMonth(m, y) <= DaysBeforeMonth(n, y)
    decreases n - m
  {
    if m < n { LaterMonthsCountMore(m, n - 1, y); }
  }

  // The days of a month lie between its first and the first of the next, and so do those of a year.
  lemma OrdinalInside(t: Date)
    requires Exists(t)
    ensures 0 < DayInMonth(t) <= MonthLength(t.month, t.year)
    ensures DaysBeforeYear(t.year) < Ordinal(t) <= DaysBeforeYear(t.year + 1)
  {
    assert DaysBeforeMonth(t.month + 1, t.year) == DaysBeforeMonth(t.month, t.year) + MonthLength(t.month, t.year);
    LaterMonthsCountMore(1, t.month, t.year);
    LaterMonthsCountMore(t.month + 1, 13, t.year);
    MonthsMakeYear(t.year);
  }

  lemma OrdinalMonotoneInYear(t: Date, u: Date)
    requires Exists(t) && Exists(u) && t.year == u.year && t.month < u.month
    ensures Ordinal(t) < Ordinal(u)
  {
    OrdinalInside(t);
    OrdinalInside(u);
    assert DaysBeforeMonth(t.month + 1, t.year) == DaysBeforeMonth(t.month, t.year) + MonthLength(t.month, t.year);
    LaterMonthsCountMore(t.month + 1, u.month, t.year);
  }

  /** Earlier dates have smaller ordinals. */
  predicate Before(t: Date, u: Date) {
    t.year < u.year || (t.year == u.year && (t.month < u.month || (t.month == u.month && t.day < u.day)))
  }

  lemma OrdinalMonotone(t: Date, u: Date)
    requires Exists(t) && Exists(u)
    ensures Before(t, u) <==> Ordinal(t) < Ordinal(u)
  {
    if t.year < u.year { OrdinalLaterYear(t, u); }
    else if u.year < t.year { OrdinalLaterYear(u, t); }
    else if t.month < u.month { OrdinalMonotoneInYear(t, u); }
    else if u.month < t.month { OrdinalMonotoneInYear(u, t); }
  }

  /** Different dates have different ordinals. */
  lemma OrdinalInjective(t: Date, u: Date)
    requires Exists(t) && Exists(u) && Ordinal(t) == Ordinal(u)
    ensures t == u
  {
    OrdinalMonotone(t, u);
    OrdinalMonotone(u, t);
  }

  lemma OrdinalLaterYear(t: Date, u: Date)
    requires Exists(t) && Exists(u) && t.year < u.year
    ensures Ordinal(t) < Ordinal(u)
  {
    OrdinalInside(t);
    OrdinalInside(u);
    LaterYearsCountMore(t.year + 1, u.year);
  }

  /** to_day: the ordinal of a date that exists in years 1 to 9999, and -1 for anything else. */
  method ToDay(m: int, d0: int, y: int) returns (r: int)
    ensures r == if Exists(Date(m, d0, y)) && y <= 9999 then Ordinal(Date(m, d0, y)) else -1
  {
    var d := d0;
    var upto := NORM_UPTO;
    if y < 1 || y > 9999 || m < 1 || m > 12 || d < 1 || d > 31 {
      return -1;
    }
    TablesCount(m, y);
    TablesCount(m + 1, y);
    ClosedFormCounts(y);
    var day := (y - 1) * 365;
    day := day + (y - 1) / 4;
    if y > 1800 {
      day := day - (y - 1701) / 100;
      day := day + (y - 1601) / 400;
    }
    if y < 1752 {
      if y % 4 == 0 {
        upto := LEAP_UPTO;
      }
    } else if y > 1752 {
      if y % 4 == 0 && (y % 100 != 0 || y % 400 == 0) {
        upto := LEAP_UPTO;
      }
      day := day - 11;
    } else {
      upto := Y1752_UPTO;
      if m == 9 {
        if d > 2 && d < 14 {
          return -1;
        } else if d >= 14 {
          d := d - 11;
        }
      }
    }
    assert upto == UpTo(y);
    if d > upto[m + 1] - upto[m] {
      return -1;
    }
    return day + upto[m] + d;
  }

  // Days in the first n years when leap years come at f, f+4, ...
  function QuadDays(n: int, f: int): int { 365 * n + if n <= f then 0 else (n - f + 3) / 4 }

  predicate QuadLeap(n: int, f: int) { n >= f && (n - f) % 4 == 0 }

  /** doleap: splits days into whole years and a day of the year, leap years coming every fourth year from
    * the firstleap-th on. */
  method DoLeap(days0: int, year0: int, firstleap: int) returns (days: int, year: int)
    requires days0 >= 0 && firstleap >= 0
    ensures year >= year0 && QuadDays(year - year0, firstleap) + days == days0
    ensures 0 <= days < if QuadLeap(year - year0, firstleap) then 366 else 365
  {
    days, year := days0, year0;
    if days < firstleap * 365 {
      year := year + days / 365;
      days := days % 365;
      assert year - year0 < firstleap;
      return;
    }
    year := year + firstleap;
    days := days - 365 * firstleap;
    var nquad := days / (365 * 4 + 1);
    var nrem := days % (365 * 4 + 1);
    var nyear := 0;
    if nrem > 366 - 1 {
      nyear := (nrem - 366) / 365 + 1;
    }
    year := year + nquad * 4 + nyear;
    days := nrem - 365 * nyear - if nyear == 0 then 0 else 1;
    assert 0 <= nyear <= 3;
    assert (nquad * 4 + nyear + 3) / 4 == nquad + if nyear == 0 then 0 else 1;
    assert (nquad * 4 + nyear) % 4 == nyear;
  }

  // Days in the first n years after a year divisible by 100, when no century year is a leap year.
  function CenturyDays(n: int): int { 365 * n + (n + 3) / 4 - (n + 99) / 100 }

  predicate CenturyLeap(n: int) { n % 4 == 0 && n % 100 != 0 }

  // Days in the first n years after a year divisible by 400 in the Gregorian calendar.
  function GregorianDays(n: int): int { 365 * n + (n + 3) / 4 - (n + 99) / 100 + (n + 399) / 400 }

  predicate GregorianLeap(n: int) { n % 4 == 0 && (n % 100 != 0 || n % 400 == 0) }

  /** do100: the same split when century years are not leap years and the first year is one. */
  method Do100(days0: int, year0: int) returns (days: int, year: int)
    requires days0 >= 0
    ensures year >= year0 && CenturyDays(year - year0) + days == days0
    ensures 0 <= days < if CenturyLeap(year - year0) then 366 else 365
  {
    var ncentury := days0 / (100 * 365 + 100 / 4 - 1);
    days := days0 % (100 * 365 + 100 / 4 - 1);
    assert days0 == 36524 * ncentury + days && 0 <= days < 36524;
    year := year0 + 100 * ncentury;
    ghost var y0 := year;
    days, year := DoLeap(days, year, 4);
    CenturySplit(ncentury, year - y0);
  }

  lemma CenturySplit(c: int, n: int)
    requires c >= 0 && n >= 0 && QuadDays(n, 4) < 36524
    ensures n < 100 && CenturyDays(100 * c + n) == 36524 * c + QuadDays(n, 4)
    ensures CenturyLeap(100 * c + n) <==> QuadLeap(n, 4)
  {
    assert n < 100;
    By4(25 * c, n + 3);
    By4(25 * c, n);
    By100(c, n + 99);
    By100(c, n);
  }

  /** do400: the same split in the Gregorian calendar from a year divisible by 400. */
  method Do400(days0: int, year0: int) returns (days: int, year: int)
    requires days0 >= 0
    ensures year >= year0 && GregorianDays(year - year0) + days == days0
    ensures 0 <= days < if GregorianLeap(year - year0) then 366 else 365
  {
    var n100 := 0;
    var n400 := days0 / (400 * 365 + 400 / 4 - 4 + 1);
    days := days0 % (400 * 365 + 400 / 4 - 4 + 1);
    ghost var rest := days;
    if days > 100 * 365 + 100 / 4 {
      n100 := (days - (100 * 365 + 100 / 4)) / (100 * 365 + 100 / 4 - 1) + 1;
      days := days - (n100 * (100 * 365 + 100 / 4 - 1) + 1);
    }
    year := year0 + 100 * n100 + 400 * n400;
    ghost var y0 := year;
    days, year := DoLeap(days, year, if n100 == 0 then 0 else 4);
    if n100 == 0 {
      FirstCentury(n400, year - y0, days);
    } else {
      LaterCentury(n400, n100, year - y0, days);
    }
  }

  // The first century of four has a leap year at its start; its last day may also be read as the first of
  // the next century.
  lemma FirstCentury(q: int, n: int, days: int)
    requires q >= 0 && n >= 0 && days >= 0 && QuadDays(n, 0) + days <= 36525
    requires days < if QuadLeap(n, 0) then 366 else 365
    ensures GregorianDays(400 * q + n) == 146097 * q + QuadDays(n, 0)
    ensures days < if GregorianLeap(400 * q + n) then 366 else 365
  {
    assert n <= 100;
    By4(100 * q, n + 3);
    By4(100 * q, n);
    By100(4 * q, n + 99);
    By100(4 * q, n);
    By400(q, n + 399);
    By400(q, n);
  }

  lemma LaterCentury(q: int, c: int, n: int, days: int)
    requires q >= 0 && 1 <= c <= 3 && n >= 0 && days >= 0 && QuadDays(n, 4) + days < 36524
    requires days < if QuadLeap(n, 4) then 366 else 365
    ensures GregorianDays(400 * q + 100 * c + n) == 146097 * q + 36524 * c + 1 + QuadDays(n, 4)
    ensures days < if GregorianLeap(400 * q + 100 * c + n) then 366 else 365
  {
    assert n < 100;
    LaterCenturyDays(q, c, n);
    By4(100 * q + 25 * c, n);
    By100(4 * q + c, n);
    By400(q, 100 * c + n);
  }

  lemma LaterCenturyDays(q: int, c: int, n: int)
    requires 1 <= c <= 3 && 0 <= n < 100
    ensures GregorianDays(400 * q + 100 * c + n) == 146097 * q + 36524 * c + 1 + QuadDays(n, 4)
  {
    By4(100 * q + 25 * c, n + 3);
    By100(4 * q + c, n + 99);
    By400(q, 100 * c + n + 399);
    LaterQuotients(c, n);
  }

  lemma LaterQuotients(c: int, n: int)
    requires 1 <= c <= 3 && 0 <= n < 100
    ensures (n + 99) / 100 == (if n == 0 then 0 else 1) && (100 * c + n + 399) / 400 == 1
    ensures QuadDays(n, 4) == 365 * n + (n + 3) / 4 - (n + 99) / 100
  {
  }

  // Where each of to_date's five ranges ends up: the year y with the days before it.
  lemma JulianYears(n: int)
    requires n >= 0
    ensures n < 1752 ==> ClosedForm(n + 1) == QuadDays(n, 3) && (IsLeap(n + 1) <==> QuadLeap(n, 3))
    ensures 1752 <= n < 1799 ==> ClosedForm(n + 1) == QuadDays(n, 3) - 11 && (IsLeap(n + 1) <==> QuadLeap(n, 3))
    ensures QuadLeap(n, 3) <==> n % 4 == 3
  {
    By4(1, n - 3);
  }

  lemma CenturyYears(n: int)
    requires 0 <= n < 200
    ensures ClosedForm(1800 + n) == ClosedForm(1800) + CenturyDays(n)
    ensures IsLeap(1800 + n) <==> CenturyLeap(n)
    ensures CenturyLeap(n) <==> (1799 + n) % 4 == 3 && (1799 + n) % 100 != 99
  {
    CenturyForm(n);
    LeapAfter(18, n);
    By400(4, n + 200);
    LastOfFour(449, 17, 4, n, n + 199);
  }

  lemma CenturyForm(n: int)
    requires 0 <= n < 200
    ensures ClosedForm(1800 + n) == ClosedForm(1800) + CenturyDays(n)
  {
    By4(449, n + 3);
  }

  lemma GregorianYears(n: int)
    requires n >= 0
    ensures ClosedForm(2000 + n) == ClosedForm(2000) + GregorianDays(n)
    ensures IsLeap(2000 + n) <==> GregorianLeap(n)
    ensures GregorianLeap(n) <==> (1999 + n) % 4 == 3 && ((1999 + n) % 100 != 99 || (1999 + n) % 400 == 399)
  {
    GregorianForm(n);
    LeapAfter(20, n);
    By400(5, n);
    LastOfFour(499, 19, 4, n, n + 399);
  }

  lemma GregorianForm(n: int)
    requires n >= 0
    ensures ClosedForm(2000 + n) == ClosedForm(2000) + GregorianDays(n)
  {
    By4(499, n + 3);
    By100(2, n + 99);
  }

  // Whole centuries do not change the remainders by 4 and by 100.
  lemma LeapAfter(c: int, n: int)
    ensures (100 * c + n) % 4 == n % 4 && (100 * c + n) % 100 == n % 100
  {
    By4(25 * c, n);
    By100(c, n);
  }

  // The year before one that a number divides is the last of its period.
  lemma LastOfFour(a: int, b: int, c: int, n: int, m: int)
    ensures (4 * a + n + 3) % 4 == 3 <==> n % 4 == 0
    ensures (100 * b + n + 99) % 100 == 99 <==> n % 100 == 0
    ensures (400 * c + m) % 400 == m % 400
    ensures (n + 399) % 400 == 399 <==> n % 400 == 0
  {
    By4(a, n + 3);
    By100(b, n + 99);
    By400(c, m);
    LastOf(n);
  }

  lemma LastOf(n: int)
    ensures (n + 3) % 4 == 3 <==> n % 4 == 0
    ensures (n + 99) % 100 == 99 <==> n % 100 == 0
    ensures (n + 399) % 400 == 399 <==> n % 400 == 0
  {
    LastOf4(n / 4, n % 4);
    LastOf100(n / 100, n % 100);
    LastOf400(n / 400, n % 400);
  }

  lemma LastOf4(q: int, r: int)
    requires 0 <= r < 4
    ensures (4 * q + r + 3) % 4 == 3 <==> r == 0
  {
    By4(q, r + 3);
  }

  lemma LastOf100(q: int, r: int)
    requires 0 <= r < 100
    ensures (100 * q + r + 99) % 100 == 99 <==> r == 0
  {
    By100(q, r + 99);
  }

  lemma LastOf400(q: int, r: int)
    requires 0 <= r < 400
    ensures (400 * q + r + 399) % 400 == 399 <==> r == 0
  {
    By400(q, r + 399);
  }

  /** The first half of to_date: the zero-based year and day of the year, and the table for it. */
  method SplitYear(day0: int) returns (day: int, year: int, upto: seq<int>)
    requires day0 >= 0
    ensures year >= 0 && ClosedForm(year + 1) + day == day0
    ensures 0 <= day < YearLength(year + 1) && upto == UpTo(year + 1)
  {
    day, year, upto := day0, 0, NORM_UPTO;
    if day < (1752 - 1) * 365 + (1752 - 1) / 4 {
      day, year := DoLeap(day, year, 3);
      if year % 4 == 3 {
        upto := LEAP_UPTO;
      }
      JulianYears(year);
      assert year < 1751;
    } else if day < (1753 - 1) * 365 + (1753 - 1) / 4 - 11 {
      day := day - ((1752 - 1) * 365 + (1752 - 1) / 4);
      year := 1752 - 1;
      upto := Y1752_UPTO;
    } else if day < (1800 - 1) * 365 + (1800 - 1) / 4 - 11 {
      day := day + 11;
      day, year := DoLeap(day, year, 1756 - 1753);
      if year % 4 == 3 {
        upto := LEAP_UPTO;
      }
      JulianYears(year);
      assert 1752 <= year < 1799;
    } else {
      day, year, upto := SplitLate(day);
    }
  }

  // to_date's last two ranges.
  method SplitLate(day0: int) returns (day: int, year: int, upto: seq<int>)
    requires day0 >= (1800 - 1) * 365 + (1800 - 1) / 4 - 11
    ensures year >= 1799 && ClosedForm(year + 1) + day == day0
    ensures 0 <= day < YearLength(year + 1) && upto == UpTo(year + 1)
  {
    day, upto := day0, NORM_UPTO;
    if day < (2000 - 1) * 365 + (2000 - 1) / 4 - 2 - 11 {
      day := day - ((1800 - 1) * 365 + (1800 - 1) / 4 - 11);
      year := 1799;
      day, year := Do100(day, year);
      if year % 4 == 3 && year % 100 != 99 {
        upto := LEAP_UPTO;
      }
      assert year - 1799 < 200;
      CenturyYears(year - 1799);
    } else {
      day := day - ((2000 - 1) * 365 + (2000 - 1) / 4 - 2 - 11);
      year := 1999;
      day, year := Do400(day, year);
      if year % 4 == 3 && (year % 100 != 99 || year % 400 == 399) {
        upto := LEAP_UPTO;
      }
      GregorianYears(year - 1999);
    }
  }

  // to_date's search for the month, given the zero-based day of year y and the table for it.
  method FindMonth(d: int, upto: seq<int>, ghost y: int) returns (month: int)
    requires y >= 1 && 0 <= d < YearLength(y) && upto == UpTo(y)
    ensures 1 <= month <= 12 && upto[month] <= d < upto[month + 1]
  {
    TableEnds(y);
    month := 2;
    while d >= upto[month]
      invariant 2 <= month <= 13 && d >= upto[month - 1]
      decreases 13 - month
    {
      month := month + 1;
    }
    month := month - 1;
  }

  lemma TableEnds(y: int)
    requires y >= 1
    ensures |UpTo(y)| == 14 && UpTo(y)[1] == 0 && UpTo(y)[13] == YearLength(y)
  {
    MonthsMakeYear(y);
    TablesCount(13, y);
    TablesCount(1, y);
  }

  /** to_date: the date whose ordinal is day, for every day from 1 on. */
  method ToDate(day0: int) returns (month: int, day: int, year: int)
    requires day0 >= 1
    ensures Exists(Date(month, day, year)) && Ordinal(Date(month, day, year)) == day0
  {
    var d, y, upto := SplitYear(day0 - 1);
    ClosedFormCounts(y + 1);
    month := FindMonth(d, upto, y + 1);
    year := y + 1;
    MonthIs(year, month, d);
    day := d - upto[month] + 1;
    if y == 1751 && month == 9 && day > 2 {
      day := day + 11;
    }
  }

  // The month in whose range the day of the year lies.
  lemma MonthIs(y: int, month: int, d: int)
    requires y >= 1 && 1 <= month <= 12 && UpTo(y)[month] <= d < UpTo(y)[month + 1]
    ensures var k := d - UpTo(y)[month] + 1;
      var t := Date(month, if y == 1752 && month == 9 && k > 2 then k + 11 else k, y);
      Exists(t) && Ordinal(t) == DaysBeforeYear(y) + d + 1
  {
    TablesCount(month, y);
    TableStep(month, y);
  }

  /** There and back: to_date finds the very date that to_day numbered. */
  method DateRoundTrip(m: int, d: int, y: int) returns (m': int, d': int, y': int)
    requires Exists(Date(m, d, y)) && y <= 9999
    ensures (m', d', y') == (m, d, y)
  {
    var day := ToDay(m, d, y);
    OrdinalInside(Date(m, d, y));
    LaterYearsCountMore(1, y);
    m', d', y' := ToDate(day);
    OrdinalInjective(Date(m', d', y'), Date(m, d, y));
  }

  /** Back and there: to_day of the date found is the day again, as long as the year is in its range. */
  method DayRoundTrip(day: int) returns (r: int)
    requires 1 <= day <= DaysBeforeYear(10000)
    ensures r == day
  {
    var m, d, y := ToDate(day);
    OrdinalInside(Date(m, d, y));
    if y > 9999 { LaterYearsCountMore(10000, y); }
    r := ToDay(m, d, y);
  }

  /** weekday: 0 is Sunday, and day 1 is a Saturday. */
  function Weekday(day: int): (w: int)
    requires day >= 1
    ensures 0 <= w < 7
  {
    (day + 5) % 7
  }

  /** The week goes on through the change of calendar: the weekday advances by one from a date to the next. */
  lemma WeekGoesOn(t: Date)
    requires Exists(t)
    ensures Ordinal(t) >= 1 && Ordinal(Successor(t)) >= 1
    ensures Weekday(Ordinal(Successor(t))) == (Weekday(Ordinal(t)) + 1) % 7
  {
    OrdinalInside(t);
    LaterYearsCountMore(1, t.year);
    SuccessorCounts(t);
    NextWeekday(Ordinal(t), Ordinal(Successor(t)));
  }

  /** Day 1 is a Saturday; 2 September 1752 was a Wednesday, and the day after it, the fourteenth, a Thursday. */
  lemma ChangeWeekdays(y: int)
    requires y - 1600 == 152
    ensures Weekday(1) == 6
    ensures Ordinal(Date(9, 2, y)) == 639798 && Weekday(Ordinal(Date(9, 2, y))) == 3
    ensures Ordinal(Date(9, 14, y)) == 639799 && Weekday(Ordinal(Date(9, 14, y))) == 4
  {
    ClosedFormCounts(y);
    TablesCount(9, y);
  }

  /** 1 January 2000 was a Saturday. */
  lemma LateWeekday(y: int)
    requires y - 1600 == 400
    ensures Ordinal(Date(1, 1, y)) == 730122 && Weekday(Ordinal(Date(1, 1, y))) == 6
  {
    ClosedFormCounts(y);
    TablesCount(1, y);
  }

  /** 1700 and 2000 had a 29 February, 1800 and 1900 had none, and 3 to 13 September 1752 did not exist. */
  lemma KnownDates(d: int)
    ensures Exists(Date(2, 29, 1700)) && Exists(Date(2, 29, 2000))
    ensures !Exists(Date(2, 29, 1800)) && !Exists(Date(2, 29, 1900))
    ensures Exists(Date(9, d, 1752)) <==> 1 <= d <= 2 || 14 <= d <= 30
  {
  }

  /** The months of every year but 1752, by the knuckles of the hand. */
  lemma MonthsByKnuckles(m: int, d: int, y: int)
    requires y != 1752 && m != 2
    ensures Exists(Date(m, d, y)) <==> y >= 1 && 1 <= m <= 12 && 1 <= d <= 30 + (m + m / 8) % 2
  {
  }

  /** February has 29 days when four divides the year within its century, but after 1752 in the last year of a
    * century only when four divides the number of the century. */
  lemma Februaries(d: int, y: int, century: int, within: int)
    requires y == 100 * century + within && 0 <= within < 100
    ensures Exists(Date(2, d, y)) <==>
            y >= 1 && 1 <= d <= (if within % 4 == 0 && (y <= 1752 || within != 0 || century % 4 == 0) then 29 else 28)
  {
    assert y % 4 == within % 4 && y % 100 == within;
    assert within == 0 ==> (y % 400 == 0 <==> century % 4 == 0);
  }

  lemma NextWeekday(day: int, next: int)
    requires day >= 1 && next == day + 1
    ensures Weekday(next) == (Weekday(day) + 1) % 7
  {
  }

  /** Every date is reached from 1 January of year 1 by as many successor steps as its ordinal says. */
  function DateAfter(n: nat): (t: Date)
    ensures Exists(t)
  {
    if n == 0 then Date(1, 1, 1)
    else
      SuccessorCounts(DateAfter(n - 1));
      Successor(DateAfter(n - 1))
  }

  lemma FirstDay()
    ensures Ordinal(Date(1, 1, 1)) == 1
  {
    assert DaysBeforeYear(1) == 0 && DaysBeforeMonth(1, 1) == 0;
  }

  lemma {:induction false} DateAfterOrdinal(n: nat)
    ensures Ordinal(DateAfter(n)) == n + 1
  {
    if n == 0 {
      FirstDay();
    } else {
      var before := DateAfter(n - 1);
      DateAfterOrdinal(n - 1);
      SuccessorCounts(before);
      assert DateAfter(n) == Successor(before);
    }
  }

  lemma CountedFromTheStart(t: Date)
    requires Exists(t)
    ensures Ordinal(t) >= 1 && DateAfter(Ordinal(t) - 1) == t
  {
    OrdinalInside(t);
    LaterYearsCountMore(1, t.year);
    DateAfterOrdinal(Ordinal(t) - 1);
    OrdinalInjective(DateAfter(Ordinal(t) - 1), t);
  }
}
