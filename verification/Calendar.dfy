/** The proleptic Gregorian calendar as Python's datetime keeps it: dates, ordinals, and the week
    number of section 4.1.4 of ISO 8601:2004. */
module Calendar {
  import opened Prelude

  const MIN_YEAR := 1
  const MAX_YEAR := 9999

  datatype Date = Date(year: int, month: int, day: int)

  predicate IsLeap(year: int) {
    year % 4 == 0 && (year % 100 != 0 || year % 400 == 0)
  }

  function MonthLength(year: int, month: int): int {
    if month == 2 then (if IsLeap(year) then 29 else 28)
    else if month == 4 || month == 6 || month == 9 || month == 11 then 30
    else 31
  }

  predicate IsMonth(year: int, month: int) {
    year >= MIN_YEAR && 1 <= month <= 12
  }

  predicate IsDate(d: Date) {
    IsMonth(d.year, d.month) && 1 <= d.day <= MonthLength(d.year, d.month)
  }

  /** A date a datetime can hold. */
  predicate IsStorable(d: Date) {
    IsDate(d) && d.year <= MAX_YEAR
  }

  // ---------------------------------------------------------------- ordinals

  function DaysBeforeYear(year: int): int {
    var y := year - 1;
    y * 365 + y / 4 - y / 100 + y / 400
  }

  function DaysBeforeMonth(year: int, month: int): int {
    (if month <= 1 then 0 else if month == 2 then 31 else if month == 3 then 59 else if month == 4 then 90
     else if month == 5 then 120 else if month == 6 then 151 else if month == 7 then 181 else if month == 8 then 212
     else if month == 9 then 243 else if month == 10 then 273 else if month == 11 then 304 else 334)
    + if month > 2 && IsLeap(year) then 1 else 0
  }

  /** date.toordinal: 1 January of year 1 is day 1, a Monday. */
  function Ordinal(d: Date): int {
    DaysBeforeYear(d.year) + DaysBeforeMonth(d.year, d.month) + d.day
  }

  lemma YearLength(year: int)
    ensures DaysBeforeYear(year + 1) == DaysBeforeYear(year) + if IsLeap(year) then 366 else 365
  {
    NextQuotients(year);
    CenturiesDivide(year);
  }

  lemma NextQuotients(year: int)
    ensures year / 4 == (year - 1) / 4 + if year % 4 == 0 then 1 else 0
    ensures year / 100 == (year - 1) / 100 + if year % 100 == 0 then 1 else 0
    ensures year / 400 == (year - 1) / 400 + if year % 400 == 0 then 1 else 0
  {
    NextQuotient(year, 4);
    NextQuotient(year, 100);
    NextQuotient(year, 400);
  }

  lemma NextQuotient(n: int, k: int)
    requires k == 4 || k == 100 || k == 400
    ensures n / k == (n - 1) / k + if n % k == 0 then 1 else 0
  {
    if k == 4 {
      assert n / 4 == (n - 1) / 4 + if n % 4 == 0 then 1 else 0;
    } else if k == 100 {
      assert n / 100 == (n - 1) / 100 + if n % 100 == 0 then 1 else 0;
    } else {
      assert n / 400 == (n - 1) / 400 + if n % 400 == 0 then 1 else 0;
    }
  }

  lemma CenturiesDivide(year: int)
    ensures (year % 100 == 0 ==> year % 4 == 0) && (year % 400 == 0 ==> year % 100 == 0)
  {
    if year % 100 == 0 { Multiples(25 * (year / 100)); }
    if year % 400 == 0 { Multiples(4 * (year / 400)); }
  }

  lemma Multiples(n: int)
    ensures 4 * n % 4 == 0 && 100 * n % 100 == 0
  {
  }

  function NextMonth(year: int, month: int): (int, int) {
    if month == 12 then (year + 1, 1) else (year, month + 1)
  }

  /** A month's first day is its length after the previous month's. */
  lemma MonthFollows(year: int, month: int)
    requires 1 <= month <= 12
    ensures var (y, m) := NextMonth(year, month);
      Ordinal(Date(y, m, 1)) == Ordinal(Date(year, month, 1)) + MonthLength(year, month)
  {
    YearLength(year);
  }

  function NextDay(d: Date): Date {
    if d.day < MonthLength(d.year, d.month) then d.(day := d.day + 1)
    else var (y, m) := NextMonth(d.year, d.month); Date(y, m, 1)
  }

  /** The date of an ordinal, day by day from the first. */
  function FromOrdinal(n: int): (d: Date)
    requires n >= 1
    ensures IsDate(d) && Ordinal(d) == n
    decreases n
  {
    if n == 1 then Date(1, 1, 1)
    else
      var d := FromOrdinal(n - 1);
      NextDayIsNext(d);
      NextDay(d)
  }

  lemma NextDayIsNext(d: Date)
    requires IsDate(d)
    ensures IsDate(NextDay(d)) && Ordinal(NextDay(d)) == Ordinal(d) + 1
  {
    MonthFollows(d.year, d.month);
  }

  // ---------------------------------------------------------------- months and years in order

  function MonthIndex(year: int, month: int): int {
    year * 12 + (month - 1)
  }

  /** The ordinal of the first day of the month with that index. */
  function MonthStart(index: int): int {
    Ordinal(Date(index / 12, index % 12 + 1, 1))
  }

  lemma MonthStartNext(index: int)
    ensures MonthStart(index) + 28 <= MonthStart(index + 1) <= MonthStart(index) + 31
    ensures MonthStart(index + 1) == MonthStart(index) + MonthLength(index / 12, index % 12 + 1)
  {
    hide IsLeap, MonthLength, DaysBeforeYear, DaysBeforeMonth;
    MonthFollows(index / 12, index % 12 + 1);
    NextIndex(index);
    MonthLengths(index / 12, index % 12 + 1);
  }

  lemma NextIndex(index: int)
    ensures NextMonth(index / 12, index % 12 + 1) == ((index + 1) / 12, (index + 1) % 12 + 1)
  {
  }

  lemma MonthLengths(year: int, month: int)
    ensures 28 <= MonthLength(year, month) <= 31
  {
  }

  lemma {:induction false} MonthStartAscends(i: int, j: int)
    requires i < j
    ensures MonthStart(i) < MonthStart(j)
    decreases j - i
  {
    MonthStartNext(j - 1);
    if i < j - 1 { MonthStartAscends(i, j - 1); }
  }

  lemma {:induction false} YearStartAscends(i: int, j: int)
    requires i < j
    ensures DaysBeforeYear(i) + 365 <= DaysBeforeYear(j)
    decreases j - i
  {
    YearLength(j - 1);
    if i < j - 1 { YearStartAscends(i, j - 1); }
  }

  lemma OrdinalIsPositive(d: Date)
    requires IsDate(d)
    ensures Ordinal(d) >= 1
  {
  }

  /** The month with that index is the one whose days the ordinal is among. */
  lemma DateInMonth(d: Date)
    requires IsDate(d)
    ensures MonthStart(MonthIndex(d.year, d.month)) <= Ordinal(d) < MonthStart(MonthIndex(d.year, d.month) + 1)
  {
    hide IsLeap, MonthLength, DaysBeforeYear, DaysBeforeMonth;
    MonthStartNext(MonthIndex(d.year, d.month));
    IndexDivides(d.year, d.month);
  }

  lemma IndexDivides(year: int, month: int)
    requires 1 <= month <= 12
    ensures MonthIndex(year, month) / 12 == year && MonthIndex(year, month) % 12 + 1 == month
  {
  }

  lemma DateInYear(d: Date)
    requires IsDate(d)
    ensures DaysBeforeYear(d.year) < Ordinal(d) <= DaysBeforeYear(d.year + 1)
  {
    YearLength(d.year);
  }

  /** An ordinal names one date. */
  lemma OrdinalIsInjective(a: Date, b: Date)
    requires IsDate(a) && IsDate(b)
    ensures Ordinal(a) == Ordinal(b) <==> a == b
  {
    hide MonthStart, DaysBeforeYear, DaysBeforeMonth, IsLeap, MonthLength, MonthIndex;
    DateInMonth(a);
    DateInMonth(b);
    if Ordinal(a) == Ordinal(b) {
      SameMonth(MonthIndex(a.year, a.month), MonthIndex(b.year, b.month), Ordinal(a));
      IndexIsInjective(a.year, a.month, b.year, b.month);
    }
  }

  lemma SameMonth(i: int, j: int, ordinal: int)
    requires MonthStart(i) <= ordinal < MonthStart(i + 1) && MonthStart(j) <= ordinal < MonthStart(j + 1)
    ensures i == j
  {
    hide MonthStart;
    if i + 1 < j { MonthStartAscends(i + 1, j); }
    if j + 1 < i { MonthStartAscends(j + 1, i); }
  }

  // ---------------------------------------------------------------- months back and forth

  function SubtractMonths(year: int, month: int, n: int): (int, int) {
    var index := MonthIndex(year, month) - n;
    (index / 12, index % 12 + 1)
  }

  /** n months on, one month at a time. */
  function MonthsLater(year: int, month: int, n: nat): (int, int) {
    if n == 0 then (year, month) else var (y, m) := MonthsLater(year, month, n - 1); NextMonth(y, m)
  }

  lemma {:induction false} MonthsLaterIndex(year: int, month: int, n: nat)
    requires 1 <= month <= 12
    ensures var (y, m) := MonthsLater(year, month, n); 1 <= m <= 12 && MonthIndex(y, m) == MonthIndex(year, month) + n
  {
    if n > 0 { MonthsLaterIndex(year, month, n - 1); }
  }

  lemma IndexIsInjective(year: int, month: int, y: int, m: int)
    requires 1 <= month <= 12 && 1 <= m <= 12 && MonthIndex(year, month) == MonthIndex(y, m)
    ensures year == y && month == m
  {
  }

  lemma IndexSplits(index: int)
    ensures 1 <= index % 12 + 1 <= 12 && MonthIndex(index / 12, index % 12 + 1) == index
  {
  }

  /** Subtraction of months and stepping on through the calendar undo each other, across years. */
  lemma SubtractMonthsInverts(year: int, month: int, n: nat)
    requires 1 <= month <= 12
    ensures var (y, m) := MonthsLater(year, month, n); SubtractMonths(y, m, n) == (year, month)
    ensures var (y, m) := SubtractMonths(year, month, n); MonthsLater(y, m, n) == (year, month)
  {
    MonthsLaterIndex(year, month, n);
    hide MonthsLater, MonthIndex;
    var (p, q) := MonthsLater(year, month, n);
    IndexSplits(MonthIndex(year, month));
    IndexIsInjective(SubtractMonths(p, q, n).0, SubtractMonths(p, q, n).1, year, month);
    var (y, m) := SubtractMonths(year, month, n);
    IndexSplits(MonthIndex(year, month) - n);
    MonthsLaterIndex(y, m, n);
    var (a, b) := MonthsLater(y, m, n);
    IndexIsInjective(a, b, year, month);
  }

  // ---------------------------------------------------------------- weeks

  /** date.weekday: 0 is Monday. */
  function Weekday(ordinal: int): int {
    (ordinal + 6) % 7
  }

  lemma WeekdayOf(q: int, r: int)
    requires 0 <= r < 7
    ensures (7 * q + r) / 7 == q && Weekday(7 * q + r + 1) == r
  {
  }

  /** The Monday of a week. */
  lemma WeekStart(ordinal: int)
    ensures Weekday(ordinal - Weekday(ordinal)) == 0 && 0 <= Weekday(ordinal) <= 6
    ensures ordinal - Weekday(ordinal) == 7 * ((ordinal - 1) / 7) + 1
    ensures ordinal >= 1 ==> (ordinal - 1) / 7 >= 0
  {
    var q, r := (ordinal - 1) / 7, (ordinal - 1) % 7;
    WeekdayOf(q, r);
    WeekdayOf(q, 0);
  }

  lemma WeekdayOfShift(ordinal: int, weeks: int)
    ensures Weekday(ordinal - 7 * weeks) == Weekday(ordinal)
    ensures (ordinal - 7 * weeks - 1) / 7 == (ordinal - 1) / 7 - weeks
  {
    var q, r := (ordinal - 1) / 7, (ordinal - 1) % 7;
    WeekdayOf(q, r);
    WeekdayOf(q - weeks, r);
  }

  /** The Monday of the first week: the week of the year's first Thursday. */
  function Week1Monday(year: int): int {
    var first := DaysBeforeYear(year) + 1;
    first - Weekday(first) + if Weekday(first) > 3 then 7 else 0
  }

  /** date.isocalendar: week year and week number. */
  function IsoWeek(d: Date): (int, int) {
    var today := Ordinal(d);
    if today < Week1Monday(d.year) then (d.year - 1, (today - Week1Monday(d.year - 1)) / 7 + 1)
    else if today >= Week1Monday(d.year + 1) then (d.year + 1, (today - Week1Monday(d.year + 1)) / 7 + 1)
    else (d.year, (today - Week1Monday(d.year)) / 7 + 1)
  }

  /** The first week's Thursday is one of the year's first seven days. */
  lemma FirstThursday(year: int)
    ensures Weekday(Week1Monday(year)) == 0
    ensures DaysBeforeYear(year) + 1 <= Week1Monday(year) + 3 <= DaysBeforeYear(year) + 7
  {
    hide DaysBeforeYear;
  }

  /** A Monday is in or after a year's first week exactly when its Thursday is past the previous
      year. */
  lemma MondayInWeekYear(monday: int, year: int)
    requires Weekday(monday) == 0
    ensures monday >= Week1Monday(year) <==> monday + 3 > DaysBeforeYear(year)
    ensures (monday - Week1Monday(year)) % 7 == 0
  {
    FirstThursday(year);
    hide DaysBeforeYear, Week1Monday;
    var gap := monday - Week1Monday(year);
    assert gap % 7 == 0;
  }

  lemma YearIs(d: Date, year: int)
    requires IsDate(d) && DaysBeforeYear(year) < Ordinal(d) <= DaysBeforeYear(year + 1)
    ensures d.year == year
  {
    DateInYear(d);
    hide DaysBeforeYear, Ordinal, IsDate;
    if d.year < year {
      if d.year + 1 < year { YearStartAscends(d.year + 1, year); }
    } else if d.year > year {
      if year + 1 < d.year { YearStartAscends(year + 1, d.year); }
    }
  }

  lemma WeekYearIsThursdays(d: Date)
    requires IsDate(d) && Weekday(Ordinal(d)) == 0
    ensures Ordinal(d) >= 1
    ensures var thursday := FromOrdinal(Ordinal(d) + 3);
      IsoWeek(d) == (thursday.year, (Ordinal(d) - Week1Monday(thursday.year)) / 7 + 1)
  {
    hide DaysBeforeYear, Ordinal, IsDate, Week1Monday, Weekday, FromOrdinal;
    OrdinalIsPositive(d);
    DateInYear(d);
    YearLength(d.year + 1);
    MondayInWeekYear(Ordinal(d), d.year);
    MondayInWeekYear(Ordinal(d), d.year + 1);
    YearIs(FromOrdinal(Ordinal(d) + 3), if Ordinal(d) + 3 > DaysBeforeYear(d.year + 1) then d.year + 1 else d.year);
  }

  /** A week belongs to the year of its Thursday and is numbered by how many Thursdays that year has
      had. */
  lemma WeekIsNumberedByThursday(d: Date)
    requires IsDate(d) && Weekday(Ordinal(d)) == 0
    ensures Ordinal(d) >= 1
    ensures var (y, w) := IsoWeek(d); var thursday := FromOrdinal(Ordinal(d) + 3);
      thursday.year == y && w == (Ordinal(thursday) - DaysBeforeYear(y) - 1) / 7 + 1
  {
    hide DaysBeforeYear, Ordinal, IsDate, Week1Monday, Weekday, FromOrdinal, IsoWeek;
    WeekYearIsThursdays(d);
    var thursday := FromOrdinal(Ordinal(d) + 3);
    FirstThursday(thursday.year);
    MondayInWeekYear(Ordinal(d), thursday.year);
    DateInYear(thursday);
    var gap := Ordinal(d) - Week1Monday(thursday.year);
    assert gap % 7 == 0;
    SameWeekCount(gap, Ordinal(thursday) - DaysBeforeYear(thursday.year) - 1);
  }

  lemma SameWeekCount(gap: int, days: int)
    requires gap % 7 == 0 && gap <= days <= gap + 6
    ensures gap / 7 == days / 7
  {
  }

  /** Two Mondays share a week label exactly when they are the same day. */
  lemma WeekLabelNamesMonday(a: Date, b: Date)
    requires IsDate(a) && IsDate(b) && Weekday(Ordinal(a)) == 0 && Weekday(Ordinal(b)) == 0
    ensures IsoWeek(a) == IsoWeek(b) <==> a == b
  {
    hide DaysBeforeYear, Ordinal, IsDate, Week1Monday, Weekday, FromOrdinal, IsoWeek;
    OrdinalIsPositive(a);
    OrdinalIsPositive(b);
    var p, q := FromOrdinal(Ordinal(a) + 3), FromOrdinal(Ordinal(b) + 3);
    WeekYearIsThursdays(a);
    WeekYearIsThursdays(b);
    MondayInWeekYear(Ordinal(a), p.year);
    MondayInWeekYear(Ordinal(b), q.year);
    if IsoWeek(a) == IsoWeek(b) {
      OrdinalIsInjective(a, b);
    }
  }
}
