/** The fuzzy "played" phrases of scripts/ytmusic_helper.py, resolved to a representative instant
    inside a half-open calendar bucket.  All times are UTC. */
module PlayedAt {
  import opened Prelude
  import opened Calendar
  import opened Clock

  /** 31 December 9999. */
  const MAX_ORDINAL := 3_652_059

  /** The largest timedelta, in days. */
  const MAX_DELTA_DAYS := 999_999_999

  datatype Time = Time(date: Date, micros: int)

  predicate IsTime(t: Time) {
    IsStorable(t.date) && 0 <= t.micros < DAY
  }

  /** Microseconds, counting from the day before the first. */
  function InstantOf(t: Time): Instant {
    Ordinal(t.date) * DAY + t.micros
  }

  lemma StorableIff(n: int)
    requires n >= 1
    ensures IsStorable(FromOrdinal(n)) <==> n <= MAX_ORDINAL
  {
    hide FromOrdinal;
    var d := FromOrdinal(n);
    DateInYear(d);
    LastDay();
    hide DaysBeforeYear, Ordinal, IsDate;
    if d.year < 10000 {
      if d.year + 1 < 10000 { YearStartAscends(d.year + 1, 10000); }
    } else if 10000 < d.year {
      YearStartAscends(10000, d.year);
    }
  }

  lemma LastDay()
    ensures DaysBeforeYear(10000) == MAX_ORDINAL
  {
  }

  /** Arithmetic on datetimes; None is the OverflowError outside years 1 to 9999. */
  function AtInstant(i: Instant): (t: Option<Time>)
    ensures t.Some? ==> IsTime(t.value) && InstantOf(t.value) == i
    ensures t.Some? <==> DAY <= i < (MAX_ORDINAL + 1) * DAY
  {
    if DAY <= i < (MAX_ORDINAL + 1) * DAY then
      StorableIff(i / DAY);
      Some(Time(FromOrdinal(i / DAY), i % DAY))
    else None
  }

  function Midnight(d: Date): Time {
    Time(d, 0)
  }

  // ---------------------------------------------------------------- buckets

  datatype Precision = Minute | Hour | Day | Week | Month | Year

  /** The bucket texts, by what they print. */
  datatype Label =
    | MinuteLabel(date: Date, hour: int, minute: int) | HourLabel(date: Date, hour: int) | DayLabel(date: Date)
    | WeekLabel(isoYear: int, week: int) | MonthLabel(year: int, month: int) | YearLabel(year: int)

  datatype Resolution = Resolution(
      representative: Time, precision: Precision, bucket: Label, sinceComparable: bool, start: Time, end: Time)

  /** A resolution; None; or an uncaught ValueError or OverflowError. */
  datatype Outcome = Resolved(value: Resolution) | NoTime | Raised

  function Finish(rep: Time, p: Precision, bucket: Label, comparable: bool, start: Time, end: Option<Time>): Outcome {
    if end.Some? then Resolved(Resolution(rep, p, bucket, comparable, start, end.value)) else Raised
  }

  function MonthStartTime(year: int, month: int): (t: Option<Time>)
    requires IsMonth(year, month)
    ensures t.Some? ==> IsTime(t.value)
  {
    if year <= MAX_YEAR then Some(Midnight(Date(year, month, 1))) else None
  }

  /** _fuzzy_resolution */
  function Fuzzy(rep: Time, p: Precision, comparable: bool): Outcome
    requires IsTime(rep)
  {
    var d := rep.date;
    match p
    case Minute =>
      var start := Time(d, rep.micros - rep.micros % MINUTE);
      Finish(rep, p, MinuteLabel(d, rep.micros / HOUR, rep.micros % HOUR / MINUTE), comparable, start,
        AtInstant(InstantOf(start) + MINUTE))
    case Hour =>
      var start := Time(d, rep.micros - rep.micros % HOUR);
      Finish(rep, p, HourLabel(d, rep.micros / HOUR), comparable, start, AtInstant(InstantOf(start) + HOUR))
    case Day =>
      Finish(rep, p, DayLabel(d), comparable, Midnight(d), AtInstant(InstantOf(Midnight(d)) + DAY))
    case Week =>
      OrdinalIsPositive(d);
      var start := Midnight(FromOrdinal(Ordinal(d) - Weekday(Ordinal(d))));
      var (year, week) := IsoWeek(start.date);
      Finish(rep, p, WeekLabel(year, week), comparable, start, AtInstant(InstantOf(start) + 7 * DAY))
    case Month =>
      var (year, month) := NextMonth(d.year, d.month);
      Finish(rep, p, MonthLabel(d.year, d.month), comparable, Midnight(Date(d.year, d.month, 1)),
        MonthStartTime(year, month))
    case Year =>
      Finish(rep, p, YearLabel(d.year), comparable, Midnight(Date(d.year, 1, 1)), MonthStartTime(d.year + 1, 1))
  }

  /** The units of a precision, numbered in order, and where each starts. */
  function UnitOf(p: Precision, t: Time): int {
    match p
    case Minute => InstantOf(t) / MINUTE
    case Hour => InstantOf(t) / HOUR
    case Day => Ordinal(t.date)
    case Week => (Ordinal(t.date) - 1) / 7
    case Month => MonthIndex(t.date.year, t.date.month)
    case Year => t.date.year
  }

  function UnitStart(p: Precision, i: int): Instant {
    match p
    case Minute => i * MINUTE
    case Hour => i * HOUR
    case Day => i * DAY
    case Week => (7 * i + 1) * DAY
    case Month => MonthStart(i) * DAY
    case Year => (DaysBeforeYear(i) + 1) * DAY
  }

  lemma UnitsAscend(p: Precision, i: int, j: int)
    requires i < j
    ensures UnitStart(p, i) < UnitStart(p, j)
  {
    hide DaysBeforeYear, MonthStart;
    match p
    case Month => MonthStartAscends(i, j);
    case Year => YearStartAscends(i, j);
    case _ =>
  }

  lemma TimeInUnit(p: Precision, t: Time)
    requires IsTime(t)
    ensures UnitStart(p, UnitOf(p, t)) <= InstantOf(t) < UnitStart(p, UnitOf(p, t) + 1)
  {
    DateInMonth(t.date);
    DateInYear(t.date);
    hide Ordinal, MonthStart, DaysBeforeYear, MonthIndex, IsStorable;
  }

  lemma FirstOfMonth(year: int, month: int)
    requires 1 <= month <= 12
    ensures Ordinal(Date(year, month, 1)) == MonthStart(MonthIndex(year, month))
    ensures var (y, m) := NextMonth(year, month); Ordinal(Date(y, m, 1)) == MonthStart(MonthIndex(year, month) + 1)
    ensures Ordinal(Date(year, 1, 1)) == DaysBeforeYear(year) + 1
  {
    var (y, m) := NextMonth(year, month);
    IndexDivides(year, month);
    IndexDivides(y, m);
    assert MonthIndex(y, m) == MonthIndex(year, month) + 1;
    hide DaysBeforeYear, DaysBeforeMonth, IsLeap, MonthIndex;
    DaysBeforeJanuary(year);
  }

  lemma DaysBeforeJanuary(year: int)
    ensures DaysBeforeMonth(year, 1) == 0
  {
  }

  /** The bucket runs from the start of a unit to the start of the next. */
  predicate Spans(r: Resolution, p: Precision, i: int) {
    IsTime(r.start) && IsTime(r.end) && InstantOf(r.start) == UnitStart(p, i) && InstantOf(r.end) == UnitStart(p, i + 1)
  }

  lemma ClockBucket(rep: Time, p: Precision, comparable: bool)
    requires IsTime(rep) && (p.Minute? || p.Hour?)
    ensures Fuzzy(rep, p, comparable).Resolved? ==> Spans(Fuzzy(rep, p, comparable).value, p, UnitOf(p, rep))
  {
    hide Ordinal, FromOrdinal, AtInstant, IsStorable;
    FloorToMinute(Ordinal(rep.date), rep.micros);
    FloorToHour(Ordinal(rep.date), rep.micros);
  }

  lemma WeekBucket(rep: Time, comparable: bool)
    requires IsTime(rep)
    ensures Fuzzy(rep, Week, comparable).Resolved? ==>
      Spans(Fuzzy(rep, Week, comparable).value, Week, UnitOf(Week, rep))
  {
    hide Ordinal, FromOrdinal, AtInstant, IsoWeek, DaysBeforeYear;
    OrdinalIsPositive(rep.date);
    var o := Ordinal(rep.date);
    WeekStart(o);
    StorableIff(o);
    OrdinalIsInjective(FromOrdinal(o), rep.date);
    StorableIff(o - Weekday(o));
  }

  lemma CivilBucket(rep: Time, p: Precision, comparable: bool)
    requires IsTime(rep) && (p.Day? || p.Month? || p.Year?)
    ensures Fuzzy(rep, p, comparable).Resolved? ==> Spans(Fuzzy(rep, p, comparable).value, p, UnitOf(p, rep))
  {
    hide Ordinal, FromOrdinal, AtInstant, DaysBeforeYear, MonthStart, MonthIndex;
    FirstOfMonth(rep.date.year, rep.date.month);
    FirstOfMonth(rep.date.year, 1);
    FirstOfMonth(rep.date.year + 1, 1);
  }

  /** A bucket is the unit its representative lies in. */
  lemma BucketIsUnit(rep: Time, p: Precision, comparable: bool)
    requires IsTime(rep)
    ensures Fuzzy(rep, p, comparable).Resolved? ==> Spans(Fuzzy(rep, p, comparable).value, p, UnitOf(p, rep))
  {
    hide Fuzzy, Spans;
    match p
    case Week => WeekBucket(rep, comparable);
    case Minute => ClockBucket(rep, p, comparable);
    case Hour => ClockBucket(rep, p, comparable);
    case _ => CivilBucket(rep, p, comparable);
  }

  /** The half-open bucket holds that time. */
  predicate Contains(r: Resolution, t: Time) {
    InstantOf(r.start) <= InstantOf(t) < InstantOf(r.end)
  }

  predicate EqualOrDisjoint(r: Resolution, s: Resolution) {
    || (InstantOf(r.start) == InstantOf(s.start) && InstantOf(r.end) == InstantOf(s.end))
    || InstantOf(r.end) <= InstantOf(s.start) || InstantOf(s.end) <= InstantOf(r.start)
  }

  /** Buckets of one precision are equal or disjoint. */
  lemma BucketsEqualOrDisjoint(a: Time, b: Time, p: Precision, x: bool, y: bool)
    requires IsTime(a) && IsTime(b)
    ensures var f, g := Fuzzy(a, p, x), Fuzzy(b, p, y);
      f.Resolved? && g.Resolved? ==> EqualOrDisjoint(f.value, g.value)
  {
    hide Fuzzy, UnitOf, UnitStart, InstantOf;
    BucketIsUnit(a, p, x);
    BucketIsUnit(b, p, y);
    var i, j := UnitOf(p, a), UnitOf(p, b);
    if i + 1 < j { UnitsAscend(p, i + 1, j); }
    if j + 1 < i { UnitsAscend(p, j + 1, i); }
  }

  // ---------------------------------------------------------------- bucket texts

  lemma InstantIsInjective(a: Time, b: Time)
    requires IsTime(a) && IsTime(b) && InstantOf(a) == InstantOf(b)
    ensures a == b
  {
    hide Ordinal;
    DivideDays(Ordinal(a.date), a.micros);
    DivideDays(Ordinal(b.date), b.micros);
    OrdinalIsInjective(a.date, b.date);
  }

  /** The text of the bucket that starts there. */
  function LabelAt(p: Precision, start: Time): Label {
    match p
    case Minute => MinuteLabel(start.date, start.micros / HOUR, start.micros % HOUR / MINUTE)
    case Hour => HourLabel(start.date, start.micros / HOUR)
    case Day => DayLabel(start.date)
    case Week => var (year, week) := IsoWeek(start.date); WeekLabel(year, week)
    case Month => MonthLabel(start.date.year, start.date.month)
    case Year => YearLabel(start.date.year)
  }

  /** A time a bucket of that precision can start at. */
  predicate Starts(p: Precision, t: Time) {
    && IsTime(t)
    && (p.Minute? ==> t.micros % MINUTE == 0)
    && (p.Hour? ==> t.micros % HOUR == 0)
    && (p.Day? || p.Week? || p.Month? || p.Year? ==> t.micros == 0)
    && (p.Week? ==> Weekday(Ordinal(t.date)) == 0)
    && (p.Month? || p.Year? ==> t.date.day == 1)
    && (p.Year? ==> t.date.month == 1)
  }

  predicate Labelled(r: Resolution, p: Precision) {
    Starts(p, r.start) && r.bucket == LabelAt(p, r.start)
  }

  lemma LabelNamesStart(p: Precision, a: Time, b: Time)
    requires Starts(p, a) && Starts(p, b)
    ensures LabelAt(p, a) == LabelAt(p, b) <==> a == b
  {
    hide Ordinal, IsoWeek, Weekday;
    if p.Week? { WeekLabelNamesMonday(a.date, b.date); }
    SplitHour(a.micros);
    SplitHour(b.micros);
  }

  lemma ClockLabel(rep: Time, p: Precision, comparable: bool)
    requires IsTime(rep) && (p.Minute? || p.Hour?)
    ensures Fuzzy(rep, p, comparable).Resolved? ==> Labelled(Fuzzy(rep, p, comparable).value, p)
  {
    hide Ordinal, FromOrdinal, AtInstant, IsStorable;
    FloorOfHour(rep.micros);
  }

  lemma WeekLabelAtStart(rep: Time, comparable: bool)
    requires IsTime(rep)
    ensures Fuzzy(rep, Week, comparable).Resolved? ==> Labelled(Fuzzy(rep, Week, comparable).value, Week)
  {
    hide Ordinal, FromOrdinal, AtInstant, IsoWeek, Weekday, IsDate, UnitStart, UnitOf, InstantOf;
    WeekBucket(rep, comparable);
    OrdinalIsPositive(rep.date);
    WeekStart(Ordinal(rep.date));
  }

  lemma CivilLabel(rep: Time, p: Precision, comparable: bool)
    requires IsTime(rep) && (p.Day? || p.Month? || p.Year?)
    ensures Fuzzy(rep, p, comparable).Resolved? ==> Labelled(Fuzzy(rep, p, comparable).value, p)
  {
    hide Ordinal, FromOrdinal, AtInstant, IsoWeek, Weekday;
  }

  /** The text of a bucket is that of its start. */
  lemma BucketLabel(rep: Time, p: Precision, comparable: bool)
    requires IsTime(rep)
    ensures Fuzzy(rep, p, comparable).Resolved? ==> Labelled(Fuzzy(rep, p, comparable).value, p)
  {
    hide Fuzzy, Starts, LabelAt;
    match p
    case Week => WeekLabelAtStart(rep, comparable);
    case Minute => ClockLabel(rep, p, comparable);
    case Hour => ClockLabel(rep, p, comparable);
    case _ => CivilLabel(rep, p, comparable);
  }

  // ---------------------------------------------------------------- when there is a bucket

  /** Midnight after 31 December 9999. */
  const END_OF_TIME := (MAX_ORDINAL + 1) * DAY

  /** The unit and the start of the next one are times a datetime can hold. */
  predicate InCalendar(p: Precision, i: int) {
    DAY <= UnitStart(p, i) && UnitStart(p, i + 1) < END_OF_TIME
  }

  /** In numbers: every unit from the first but the last, whose end cannot be held. */
  lemma InCalendarIff(p: Precision, i: int)
    ensures InCalendar(p, i) <==>
      match p
      case Minute => 1440 <= i < 1440 * (MAX_ORDINAL + 1) - 1
      case Hour => 24 <= i < 24 * (MAX_ORDINAL + 1) - 1
      case Day => 1 <= i < MAX_ORDINAL
      case Week => 0 <= i < 521_722
      case Month => MonthIndex(1, 1) <= i < MonthIndex(9999, 12)
      case Year => 1 <= i < 9999
  {
    match p
    case Month => MonthInCalendar(i);
    case Year => YearInCalendar(i);
    case _ =>
  }

  lemma MonthEnds()
    ensures MonthStart(12) == 1 && MonthStart(120_000) == MAX_ORDINAL + 1
  {
    hide MonthStart, Ordinal, DaysBeforeYear;
    FirstOfMonth(1, 1);
    FirstOfMonth(10_000, 1);
    YearEnds();
    assert MonthIndex(1, 1) == 12 && MonthIndex(10_000, 1) == 120_000;
  }

  lemma MonthInCalendar(i: int)
    ensures 1 <= MonthStart(i) <==> 12 <= i
    ensures MonthStart(i + 1) <= MAX_ORDINAL <==> i < 119_999
  {
    MonthEnds();
    hide MonthStart;
    if i < 12 { MonthStartAscends(i, 12); }
    if 12 < i { MonthStartAscends(12, i); }
    if i + 1 < 120_000 { MonthStartAscends(i + 1, 120_000); }
    if 120_000 < i + 1 { MonthStartAscends(120_000, i + 1); }
  }

  lemma YearEnds()
    ensures DaysBeforeYear(1) == 0 && DaysBeforeYear(10_000) == MAX_ORDINAL
  {
  }

  lemma YearInCalendar(i: int)
    ensures 0 <= DaysBeforeYear(i) <==> 1 <= i
    ensures DaysBeforeYear(i + 1) < MAX_ORDINAL <==> i < 9999
  {
    YearEnds();
    hide DaysBeforeYear;
    if i < 1 { YearStartAscends(i, 1); }
    if 1 < i { YearStartAscends(1, i); }
    if i + 1 < 10_000 { YearStartAscends(i + 1, 10_000); }
    if 10_000 < i + 1 { YearStartAscends(10_000, i + 1); }
  }

  lemma UnitNotBeforeCalendar(p: Precision, t: Time)
    requires IsTime(t)
    ensures DAY <= UnitStart(p, UnitOf(p, t))
  {
    hide UnitOf, UnitStart, IsTime;
    match p
    case Minute => ClockNotBeforeCalendar(t);
    case Hour => ClockNotBeforeCalendar(t);
    case Day => DayNotBeforeCalendar(t);
    case Week => DayNotBeforeCalendar(t);
    case _ => CivilNotBeforeCalendar(t);
  }

  lemma DayNotBeforeCalendar(t: Time)
    requires IsTime(t)
    ensures DAY <= UnitStart(Day, UnitOf(Day, t)) && DAY <= UnitStart(Week, UnitOf(Week, t))
  {
    OrdinalIsPositive(t.date);
    WeekStart(Ordinal(t.date));
    hide Ordinal, IsTime, Weekday;
  }

  lemma ClockNotBeforeCalendar(t: Time)
    requires IsTime(t)
    ensures DAY <= UnitStart(Minute, UnitOf(Minute, t)) && DAY <= UnitStart(Hour, UnitOf(Hour, t))
  {
    NotBeforeFirstDay(t);
    CutNotBelowDay(InstantOf(t));
    hide InstantOf, IsTime;
  }

  lemma NotBeforeFirstDay(t: Time)
    requires IsTime(t)
    ensures DAY <= InstantOf(t)
  {
    OrdinalIsPositive(t.date);
    hide Ordinal;
  }

  lemma CivilNotBeforeCalendar(t: Time)
    requires IsTime(t)
    ensures DAY <= UnitStart(Month, UnitOf(Month, t)) && DAY <= UnitStart(Year, UnitOf(Year, t))
  {
    YearIsPositive(t);
    hide MonthStart, DaysBeforeYear, IsTime, MonthIndex;
    MonthInCalendar(MonthIndex(t.date.year, t.date.month));
    YearInCalendar(t.date.year);
  }

  lemma YearIsPositive(t: Time)
    requires IsTime(t)
    ensures t.date.year >= 1 && MonthIndex(t.date.year, t.date.month) >= 12
  {
  }

  /** A time has a bucket of a precision exactly when its unit is not the last of the calendar. */
  lemma FuzzyResolvesIff(rep: Time, p: Precision, comparable: bool)
    requires IsTime(rep)
    ensures Fuzzy(rep, p, comparable).Resolved? <==> UnitStart(p, UnitOf(p, rep) + 1) < END_OF_TIME
    ensures !Fuzzy(rep, p, comparable).NoTime?
  {
    match p
    case Month => CivilResolvesIff(rep, p, comparable);
    case Year => CivilResolvesIff(rep, p, comparable);
    case _ => ClockResolvesIff(rep, p, comparable);
  }

  lemma CivilResolvesIff(rep: Time, p: Precision, comparable: bool)
    requires IsTime(rep) && (p.Month? || p.Year?)
    ensures Fuzzy(rep, p, comparable).Resolved? <==> UnitStart(p, UnitOf(p, rep) + 1) < END_OF_TIME
    ensures !Fuzzy(rep, p, comparable).NoTime?
  {
    MonthInCalendar(UnitOf(Month, rep));
    YearInCalendar(rep.date.year);
    hide Ordinal, MonthStart, DaysBeforeYear;
  }

  lemma ClockResolvesIff(rep: Time, p: Precision, comparable: bool)
    requires IsTime(rep) && !p.Month? && !p.Year?
    ensures Fuzzy(rep, p, comparable).Resolved? <==> UnitStart(p, UnitOf(p, rep) + 1) < END_OF_TIME
    ensures !Fuzzy(rep, p, comparable).NoTime?
  {
    hide IsoWeek, FromOrdinal, IsDate;
    OrdinalIsPositive(rep.date);
    FloorToMinute(Ordinal(rep.date), rep.micros);
    FloorToHour(Ordinal(rep.date), rep.micros);
    WeekStart(Ordinal(rep.date));
    hide Ordinal, Weekday;
  }

  /** The outcome is the i-th unit: a resolution inside that bucket and under its text if the calendar
      holds it, and an error otherwise. */
  predicate Means(o: Outcome, p: Precision, i: int) {
    && !o.NoTime? && (o.Resolved? <==> InCalendar(p, i))
    && (o.Resolved? ==>
          && IsTime(o.value.representative) && o.value.precision == p && UnitOf(p, o.value.representative) == i
          && Spans(o.value, p, i) && Labelled(o.value, p) && Contains(o.value, o.value.representative))
  }

  /** Every time resolves into its half-open bucket, unless that is the last of the calendar. */
  lemma RepresentativeInBucket(rep: Time, p: Precision, comparable: bool)
    requires IsTime(rep)
    ensures Means(Fuzzy(rep, p, comparable), p, UnitOf(p, rep))
  {
    hide Fuzzy, UnitOf, UnitStart, Labelled, Ordinal, IsStorable;
    FuzzyResolvesIff(rep, p, comparable);
    UnitNotBeforeCalendar(p, rep);
    BucketIsUnit(rep, p, comparable);
    BucketLabel(rep, p, comparable);
    TimeInUnit(p, rep);
    FuzzyKeeps(rep, p, comparable);
  }

  lemma FuzzyKeeps(rep: Time, p: Precision, comparable: bool)
    requires IsTime(rep)
    ensures var o := Fuzzy(rep, p, comparable);
      o.Resolved? ==>
        o.value.representative == rep && o.value.precision == p && o.value.sinceComparable == comparable
  {
    hide Ordinal, AtInstant, FromOrdinal, IsoWeek, Weekday;
  }

  /** Buckets of one precision share their text exactly when they are the same bucket. */
  lemma LabelsNameBuckets(a: Time, b: Time, p: Precision, x: bool, y: bool)
    requires IsTime(a) && IsTime(b)
    ensures var f, g := Fuzzy(a, p, x), Fuzzy(b, p, y);
      f.Resolved? && g.Resolved? ==>
        (f.value.bucket == g.value.bucket <==> f.value.start == g.value.start && f.value.end == g.value.end)
  {
    hide Fuzzy, Starts, LabelAt, UnitOf, UnitStart;
    var f, g := Fuzzy(a, p, x), Fuzzy(b, p, y);
    BucketLabel(a, p, x);
    BucketLabel(b, p, y);
    BucketIsUnit(a, p, x);
    BucketIsUnit(b, p, y);
    if f.Resolved? && g.Resolved? {
      LabelNamesStart(p, f.value.start, g.value.start);
      if f.value.start == g.value.start { SameEnd(f.value, g.value, p, UnitOf(p, a), UnitOf(p, b)); }
    }
  }

  lemma SameEnd(r: Resolution, s: Resolution, p: Precision, i: int, j: int)
    requires Spans(r, p, i) && Spans(s, p, j) && r.start == s.start
    ensures r.end == s.end
  {
    hide UnitStart, InstantOf;
    if i < j { UnitsAscend(p, i, j); }
    if j < i { UnitsAscend(p, j, i); }
    InstantIsInjective(r.end, s.end);
  }

  // ---------------------------------------------------------------- phrases

  /** The texts the helper knows, lower-cased and without surrounding space. */
  datatype Phrase =
    | ThisWeek | ThisMonth | NamedMonth(month: int) | NumberedYear(year: int)
    | Today | Yesterday | LastWeek | LastMonth | LastYear
    | Ago(n: nat, unit: Precision)

  predicate IsPhrase(p: Phrase) {
    (p.NamedMonth? ==> 1 <= p.month <= 12) && (p.NumberedYear? ==> 0 <= p.year <= 9999)
  }

  function NoonOf(ordinal: int): (t: Option<Time>)
    ensures t.Some? ==> IsTime(t.value)
  {
    if 1 <= ordinal <= MAX_ORDINAL then
      StorableIff(ordinal);
      Some(Time(FromOrdinal(ordinal), NOON))
    else None
  }

  function FuzzyAt(t: Option<Time>, p: Precision, comparable: bool): Outcome
    requires t.Some? ==> IsTime(t.value)
  {
    if t.Some? then Fuzzy(t.value, p, comparable) else Raised
  }

  /** Wednesday noon of the week of that day; a day before the first is an OverflowError. */
  function WeekOf(ordinal: int): Outcome {
    if ordinal < 1 then Raised else FuzzyAt(NoonOf(ordinal - Weekday(ordinal) + 2), Week, false)
  }

  function DayOf(ordinal: int): Outcome {
    FuzzyAt(NoonOf(ordinal), Day, false)
  }

  /** Noon of the 15th; a year outside the calendar is a ValueError. */
  function MonthOf(year: int, month: int): Outcome {
    if MIN_YEAR <= year <= MAX_YEAR && 1 <= month <= 12
    then Fuzzy(Time(Date(year, month, 15), NOON), Month, false)
    else Raised
  }

  /** Noon of 2 July. */
  function YearOf(year: int): Outcome {
    if MIN_YEAR <= year <= MAX_YEAR then Fuzzy(Time(Date(year, 7, 2), NOON), Year, false) else Raised
  }

  function ClockOf(t: Option<Time>, unit: Precision): Outcome
    requires t.Some? ==> IsTime(t.value)
  {
    if t.None? then Raised
    else
      var length := if unit.Minute? then MINUTE else HOUR;
      Fuzzy(t.value.(micros := t.value.micros - t.value.micros % length), unit, true)
  }

  /** `n unit ago`; the table of timedeltas is built for every unit, so a count whose weeks overflow
      raises whatever the unit is. */
  function ResolveAgo(n: nat, unit: Precision, now: Time): Outcome
    requires IsTime(now)
  {
    if 7 * n > MAX_DELTA_DAYS then Raised
    else match unit
    case Minute => ClockOf(AtInstant(InstantOf(now) - n * MINUTE), Minute)
    case Hour => ClockOf(AtInstant(InstantOf(now) - n * HOUR), Hour)
    case Day => DayOf(Ordinal(now.date) - n)
    case Week => WeekOf(Ordinal(now.date) - 7 * n)
    case Month =>
      var (year, month) := SubtractMonths(now.date.year, now.date.month, n);
      if year < 1 then NoTime else MonthOf(year, month)
    case Year => if now.date.year - n < 1 then NoTime else YearOf(now.date.year - n)
  }

  /** _resolve_played_at_details of a phrase. */
  function Resolve(p: Phrase, now: Time): Outcome
    requires IsPhrase(p) && IsTime(now)
  {
    var d := now.date;
    match p
    case ThisWeek => WeekOf(Ordinal(d))
    case ThisMonth => MonthOf(d.year, d.month)
    case NamedMonth(month) => MonthOf(if month <= d.month then d.year else d.year - 1, month)
    case NumberedYear(year) => if year == 0 || YearOf(year).Raised? then NoTime else YearOf(year)
    case Today => DayOf(Ordinal(d))
    case Yesterday => DayOf(Ordinal(d) - 1)
    case LastWeek => WeekOf(Ordinal(d) - 7)
    case LastMonth => var (year, month) := SubtractMonths(d.year, d.month, 1); MonthOf(year, month)
    case LastYear => YearOf(d.year - 1)
    case Ago(n, unit) => ResolveAgo(n, unit, now)
  }

  /** The unit a phrase counts in. */
  function PhraseUnit(p: Phrase): Precision {
    match p
    case ThisWeek | LastWeek => Week
    case ThisMonth | LastMonth | NamedMonth(_) => Month
    case NumberedYear(_) | LastYear => Year
    case Today | Yesterday => Day
    case Ago(_, unit) => unit
  }

  /** Noon of the week's Wednesday depends on the week alone. */
  lemma WeekOfSameWeek(a: int, b: int, back: nat)
    requires a >= 1 && b >= 1 && (a - 1) / 7 == (b - 1) / 7
    ensures WeekOf(a - 7 * back) == WeekOf(b - 7 * back)
  {
    hide NoonOf, FuzzyAt;
    WeekdayOfShift(a, back);
    WeekdayOfShift(b, back);
    WeekStart(a - 7 * back);
    WeekStart(b - 7 * back);
    WeekStart(a);
    WeekStart(b);
    hide Weekday;
  }

  /** A minute count back from an instant depends on its minute alone. */
  lemma MinuteAgo(a: Instant, b: Instant)
    requires a / MINUTE == b / MINUTE
    ensures ClockOf(AtInstant(a), Minute) == ClockOf(AtInstant(b), Minute)
  {
    hide Fuzzy, FromOrdinal, Ordinal, IsStorable;
    MinuteParts(a, MAX_ORDINAL + 1);
    MinuteParts(b, MAX_ORDINAL + 1);
  }

  lemma HourAgo(a: Instant, b: Instant)
    requires a / HOUR == b / HOUR
    ensures ClockOf(AtInstant(a), Hour) == ClockOf(AtInstant(b), Hour)
  {
    hide Fuzzy, FromOrdinal, Ordinal, IsStorable;
    HourParts(a, MAX_ORDINAL + 1);
    HourParts(b, MAX_ORDINAL + 1);
  }

  lemma AgoInSameUnit(n: nat, unit: Precision, a: Time, b: Time)
    requires IsTime(a) && IsTime(b) && UnitOf(unit, a) == UnitOf(unit, b)
    ensures ResolveAgo(n, unit, a) == ResolveAgo(n, unit, b)
  {
    hide ClockOf, AtInstant, InstantOf, WeekOf, DayOf, MonthOf, YearOf, Ordinal, IsStorable;
    match unit
    case Minute =>
      ShiftMinutes(InstantOf(a), n);
      ShiftMinutes(InstantOf(b), n);
      MinuteAgo(InstantOf(a) - n * MINUTE, InstantOf(b) - n * MINUTE);
    case Hour =>
      ShiftHours(InstantOf(a), n);
      ShiftHours(InstantOf(b), n);
      HourAgo(InstantOf(a) - n * HOUR, InstantOf(b) - n * HOUR);
    case Week =>
      SameWeekAgo(n, a, b);
    case Month =>
      SameMonthAgo(a, b);
    case _ =>
  }

  lemma SameWeekAgo(n: nat, a: Time, b: Time)
    requires IsTime(a) && IsTime(b) && UnitOf(Week, a) == UnitOf(Week, b)
    ensures WeekOf(Ordinal(a.date) - 7 * n) == WeekOf(Ordinal(b.date) - 7 * n)
  {
    hide WeekOf, Ordinal;
    OrdinalIsPositive(a.date);
    OrdinalIsPositive(b.date);
    WeekOfSameWeek(Ordinal(a.date), Ordinal(b.date), n);
  }

  lemma SameMonthAgo(a: Time, b: Time)
    requires IsTime(a) && IsTime(b) && UnitOf(Month, a) == UnitOf(Month, b)
    ensures a.date.year == b.date.year && a.date.month == b.date.month
  {
  }

  /** A phrase read at two instants of the same unit means the same time, bucket and text. */
  lemma SamePhraseSameUnit(p: Phrase, a: Time, b: Time)
    requires IsPhrase(p) && IsTime(a) && IsTime(b) && UnitOf(PhraseUnit(p), a) == UnitOf(PhraseUnit(p), b)
    ensures Resolve(p, a) == Resolve(p, b)
  {
    hide ResolveAgo, MonthOf, YearOf, DayOf, WeekOf, Ordinal;
    match p
    case Ago(n, unit) => AgoInSameUnit(n, unit, a, b);
    case ThisWeek | LastWeek => SameWeekAgo(if p.ThisWeek? then 0 else 1, a, b);
    case ThisMonth | LastMonth | NamedMonth(_) => SameMonthAgo(a, b);
    case _ =>
  }

  // ---------------------------------------------------------------- what a phrase means

  /** The unit a phrase names: so many units back, the latest month of that name, or that year. */
  function NamedUnit(p: Phrase, now: Time): int
    requires IsPhrase(p)
  {
    var i := UnitOf(PhraseUnit(p), now);
    match p
    case ThisWeek | ThisMonth | Today => i
    case LastWeek | LastMonth | LastYear | Yesterday => i - 1
    case NamedMonth(month) => i - (i - (month - 1)) % 12
    case NumberedYear(year) => year
    case Ago(n, _) => i - n
  }

  /** The count's weeks fit a timedelta. */
  predicate CountFits(p: Phrase) {
    p.Ago? ==> 7 * p.n <= MAX_DELTA_DAYS
  }

  /** The helper answers None instead of raising: for a year without a bucket, and for months and
      years before the first. */
  predicate AnswersNone(p: Phrase, now: Time)
    requires IsPhrase(p)
  {
    || (p.NumberedYear? && !InCalendar(Year, p.year))
    || (p.Ago? && CountFits(p) && p.unit.Month? && NamedUnit(p, now) < MonthIndex(1, 1))
    || (p.Ago? && CountFits(p) && p.unit.Year? && NamedUnit(p, now) < 1)
  }

  lemma DayMeans(ordinal: int)
    ensures Means(DayOf(ordinal), Day, ordinal)
  {
    hide FromOrdinal, Fuzzy, Means, Ordinal;
    if 1 <= ordinal <= MAX_ORDINAL {
      RepresentativeInBucket(NoonOf(ordinal).value, Day, false);
    } else {
      RaisedMeans(Day, ordinal);
    }
  }

  lemma RaisedMeans(p: Precision, i: int)
    ensures Means(Raised, p, i) <==> !InCalendar(p, i)
  {
  }

  lemma WeekMeans(ordinal: int)
    ensures Means(WeekOf(ordinal), Week, (ordinal - 1) / 7)
  {
    hide FromOrdinal, Fuzzy, Means, Ordinal, Weekday, InCalendar;
    WeekStart(ordinal);
    var wednesday := ordinal - Weekday(ordinal) + 2;
    if 1 <= ordinal && wednesday <= MAX_ORDINAL {
      RepresentativeInBucket(NoonOf(wednesday).value, Week, false);
    } else {
      WeekOutside(ordinal);
      RaisedMeans(Week, (ordinal - 1) / 7);
    }
  }

  lemma WeekOutside(ordinal: int)
    requires !(1 <= ordinal && ordinal - Weekday(ordinal) + 2 <= MAX_ORDINAL)
    ensures !InCalendar(Week, (ordinal - 1) / 7)
  {
    WeekStart(ordinal);
    hide Weekday;
  }

  lemma MonthMeans(year: int, month: int)
    requires 1 <= month <= 12
    ensures Means(MonthOf(year, month), Month, MonthIndex(year, month))
  {
    hide Fuzzy, Means, Ordinal;
    if MIN_YEAR <= year <= MAX_YEAR {
      RepresentativeInBucket(Time(Date(year, month, 15), NOON), Month, false);
    } else {
      MonthInCalendar(MonthIndex(year, month));
      RaisedMeans(Month, MonthIndex(year, month));
    }
  }

  lemma YearMeans(year: int)
    ensures Means(YearOf(year), Year, year)
  {
    hide Fuzzy, Means, Ordinal;
    if MIN_YEAR <= year <= MAX_YEAR {
      RepresentativeInBucket(Time(Date(year, 7, 2), NOON), Year, false);
    } else {
      YearInCalendar(year);
      RaisedMeans(Year, year);
    }
  }

  /** An instant so many microseconds from the calendar's start, cut to its minute or hour. */
  lemma ClockMeans(i: Instant, unit: Precision)
    requires unit.Minute? || unit.Hour?
    ensures Means(ClockOf(AtInstant(i), unit), unit, if unit.Minute? then i / MINUTE else i / HOUR)
  {
    MinuteParts(i, MAX_ORDINAL + 1);
    HourParts(i, MAX_ORDINAL + 1);
    hide FromOrdinal, Fuzzy, Means, Ordinal, IsStorable;
    var unitIndex := if unit.Minute? then i / MINUTE else i / HOUR;
    if DAY <= i < END_OF_TIME {
      var t := AtInstant(i).value;
      var length := if unit.Minute? then MINUTE else HOUR;
      var rep := t.(micros := t.micros - t.micros % length);
      RepresentativeInBucket(rep, unit, true);
      CutKeepsUnit(t, rep, unit);
    } else {
      ClockOutside(i);
      RaisedMeans(unit, unitIndex);
    }
  }

  lemma ClockOutside(i: Instant)
    requires !(DAY <= i < END_OF_TIME)
    ensures !InCalendar(Minute, i / MINUTE) && !InCalendar(Hour, i / HOUR)
  {
  }

  lemma CutKeepsUnit(t: Time, rep: Time, unit: Precision)
    requires IsTime(t) && (unit.Minute? || unit.Hour?)
    requires rep == t.(micros := t.micros - t.micros % (if unit.Minute? then MINUTE else HOUR))
    ensures UnitOf(unit, rep) == UnitOf(unit, t)
  {
    hide Ordinal, IsDate;
    FloorToMinute(Ordinal(t.date), t.micros);
    FloorToHour(Ordinal(t.date), t.micros);
    DivideMinutes(InstantOf(t) / MINUTE, 0);
    DivideHours(InstantOf(t) / HOUR, 0);
  }

  lemma AgoMeans(n: nat, unit: Precision, now: Time)
    requires IsTime(now)
    ensures 7 * n > MAX_DELTA_DAYS ==> ResolveAgo(n, unit, now) == Raised
    ensures 7 * n <= MAX_DELTA_DAYS ==>
      if (unit.Month? && UnitOf(unit, now) - n < 12) || (unit.Year? && UnitOf(unit, now) - n < 1)
      then ResolveAgo(n, unit, now) == NoTime
      else Means(ResolveAgo(n, unit, now), unit, UnitOf(unit, now) - n)
  {
    hide Means, ClockOf, AtInstant, DayOf, WeekOf, MonthOf, YearOf, Ordinal, MonthIndex, InstantOf;
    match unit
    case Minute =>
      ShiftMinutes(InstantOf(now), n);
      ClockMeans(InstantOf(now) - n * MINUTE, Minute);
    case Hour =>
      ShiftHours(InstantOf(now), n);
      ClockMeans(InstantOf(now) - n * HOUR, Hour);
    case Day => DayMeans(Ordinal(now.date) - n);
    case Week => WeekMeans(Ordinal(now.date) - 7 * n);
    case Month =>
      var index := MonthIndex(now.date.year, now.date.month) - n;
      IndexSplits(index);
      MonthMeans(index / 12, index % 12 + 1);
    case Year => YearMeans(now.date.year - n);
  }

  lemma NamedMeans(p: Phrase, now: Time)
    requires IsPhrase(p) && IsTime(now) && !p.Ago? && !p.NumberedYear?
    ensures Means(Resolve(p, now), PhraseUnit(p), NamedUnit(p, now))
  {
    var d := now.date;
    hide Means, DayOf, WeekOf, MonthOf, YearOf, Ordinal;
    match p
    case ThisWeek => WeekMeans(Ordinal(d));
    case LastWeek => WeekMeans(Ordinal(d) - 7);
    case Today => DayMeans(Ordinal(d));
    case Yesterday => DayMeans(Ordinal(d) - 1);
    case ThisMonth => MonthMeans(d.year, d.month);
    case NamedMonth(month) =>
      LatestMonth(d.year, d.month, month);
      MonthMeans(if month <= d.month then d.year else d.year - 1, month);
    case LastMonth =>
      var index := MonthIndex(d.year, d.month) - 1;
      IndexSplits(index);
      MonthMeans(index / 12, index % 12 + 1);
    case LastYear => YearMeans(d.year - 1);
  }

  /** The latest month of that name is this year's if it has begun, and last year's otherwise. */
  lemma LatestMonth(year: int, current: int, month: int)
    requires 1 <= current <= 12 && 1 <= month <= 12
    ensures var i := MonthIndex(year, current);
      MonthIndex(if month <= current then year else year - 1, month) == i - (i - (month - 1)) % 12
  {
    var gap := MonthIndex(year, current) - (month - 1);
    var back := if month <= current then current - month else current - month + 12;
    assert gap == 12 * (if month <= current then year else year - 1) + back;
  }

  lemma NoneIsOutside(p: Phrase, now: Time)
    requires IsPhrase(p) && IsTime(now) && p.Ago? && AnswersNone(p, now)
    ensures !InCalendar(PhraseUnit(p), NamedUnit(p, now))
  {
    InCalendarIff(PhraseUnit(p), NamedUnit(p, now));
  }

  /** What a phrase resolves to is the unit it names, when its count fits and the calendar holds that
      unit with its end; otherwise the helper answers None or raises, as said. */
  lemma PhraseMeansItsUnit(p: Phrase, now: Time)
    requires IsPhrase(p) && IsTime(now)
    ensures var o := Resolve(p, now);
      && (o.Resolved? <==> CountFits(p) && InCalendar(PhraseUnit(p), NamedUnit(p, now)))
      && (o.NoTime? <==> AnswersNone(p, now))
      && (o.Resolved? ==> Means(o, PhraseUnit(p), NamedUnit(p, now)))
  {
    hide ResolveAgo, InCalendar, UnitOf, UnitStart, Spans, Labelled, Contains, IsStorable;
    if p.Ago? {
      AgoMeans(p.n, p.unit, now);
      if AnswersNone(p, now) { NoneIsOutside(p, now); }
    } else if p.NumberedYear? {
      YearMeans(p.year);
      InCalendarIff(Year, 0);
      hide YearOf;
    } else {
      NamedMeans(p, now);
      hide Resolve;
    }
  }

  /** It is not so that every phrase resolves: a count whose weeks overflow a timedelta raises at any
      time and for any unit, months included. */
  lemma HugeCountsRaise(n: nat, unit: Precision, now: Time)
    requires IsTime(now)
    ensures 7 * n > MAX_DELTA_DAYS ==> Resolve(Ago(n, unit), now).Raised?
    ensures Resolve(Ago(142_857_143, Month), now).Raised?
  {
    hide Resolve, InCalendar, Means;
    PhraseMeansItsUnit(Ago(n, unit), now);
    PhraseMeansItsUnit(Ago(142_857_143, Month), now);
  }

  /** `yesterday` raises on the first day exactly, and `today` on the last. */
  lemma EndDaysRaise(now: Time)
    requires IsTime(now)
    ensures Resolve(Yesterday, now).Raised? <==> Ordinal(now.date) == 1
    ensures Resolve(Today, now).Raised? <==> Ordinal(now.date) == MAX_ORDINAL
  {
    hide Resolve, InCalendar, Ordinal, Means, IsDate;
    PhraseMeansItsUnit(Yesterday, now);
    PhraseMeansItsUnit(Today, now);
    OrdinalInRange(now.date);
    InCalendarIff(Day, Ordinal(now.date) - 1);
    InCalendarIff(Day, Ordinal(now.date));
  }

  /** `this month` raises in the last month exactly. */
  lemma EndMonthRaises(now: Time)
    requires IsTime(now)
    ensures Resolve(ThisMonth, now).Raised? <==> now.date.year == 9999 && now.date.month == 12
  {
    PhraseMeansItsUnit(ThisMonth, now);
    InCalendarIff(Month, MonthIndex(now.date.year, now.date.month));
    hide Resolve, InCalendar, Means;
  }

  lemma OrdinalInRange(d: Date)
    requires IsStorable(d)
    ensures 1 <= Ordinal(d) <= MAX_ORDINAL
  {
    OrdinalIsPositive(d);
    DateInYear(d);
    YearEnds();
    hide Ordinal, DaysBeforeYear, IsDate;
    if d.year + 1 < 10_000 { YearStartAscends(d.year + 1, 10_000); }
  }

  // ---------------------------------------------------------------- the time a phrase is given

  /** The middle of the unit: noon of the day, of the week's Wednesday, of the 15th, of 2 July; a
      minute or an hour is given its start, and only those may be compared with `since`. */
  predicate Midpoint(r: Resolution, unit: Precision) {
    && (r.sinceComparable <==> unit.Minute? || unit.Hour?)
    && (unit.Minute? ==> r.representative.micros % 60_000_000 == 0)
    && (unit.Hour? ==> r.representative.micros % 3_600_000_000 == 0)
    && (!unit.Minute? && !unit.Hour? ==> r.representative.micros == 43_200_000_000)
    && (unit.Week? ==> (Ordinal(r.representative.date) - 1) % 7 == 2)
    && (unit.Month? ==> r.representative.date.day == 15)
    && (unit.Year? ==> r.representative.date.month == 7 && r.representative.date.day == 2)
  }

  lemma DayMidpoint(ordinal: int)
    ensures DayOf(ordinal).Resolved? ==> Midpoint(DayOf(ordinal).value, Day)
  {
    hide Fuzzy, FromOrdinal, Ordinal;
    if 1 <= ordinal <= MAX_ORDINAL { FuzzyKeeps(NoonOf(ordinal).value, Day, false); }
  }

  lemma WeekMidpoint(ordinal: int)
    ensures WeekOf(ordinal).Resolved? ==> Midpoint(WeekOf(ordinal).value, Week)
  {
    hide Fuzzy, Ordinal;
    var wednesday := ordinal - Weekday(ordinal) + 2;
    WeekStart(ordinal);
    if 1 <= ordinal && wednesday <= MAX_ORDINAL {
      FuzzyKeeps(NoonOf(wednesday).value, Week, false);
      WeekdayOf((ordinal - 1) / 7, 2);
      WednesdayIs((ordinal - 1) / 7);
    }
    hide FromOrdinal, Weekday;
  }

  lemma WednesdayIs(q: int)
    ensures (7 * q + 2) % 7 == 2
  {
  }

  lemma MonthMidpoint(year: int, month: int)
    ensures MonthOf(year, month).Resolved? ==> Midpoint(MonthOf(year, month).value, Month)
  {
    hide Fuzzy, Ordinal;
    if MIN_YEAR <= year <= MAX_YEAR && 1 <= month <= 12 {
      FuzzyKeeps(Time(Date(year, month, 15), NOON), Month, false);
    }
  }

  lemma YearMidpoint(year: int)
    ensures YearOf(year).Resolved? ==> Midpoint(YearOf(year).value, Year)
  {
    hide Fuzzy, Ordinal;
    if MIN_YEAR <= year <= MAX_YEAR { FuzzyKeeps(Time(Date(year, 7, 2), NOON), Year, false); }
  }

  lemma ClockMidpoint(t: Option<Time>, unit: Precision)
    requires (t.Some? ==> IsTime(t.value)) && (unit.Minute? || unit.Hour?)
    ensures ClockOf(t, unit).Resolved? ==> Midpoint(ClockOf(t, unit).value, unit)
  {
    hide Fuzzy, Ordinal, IsDate;
    if t.Some? {
      var length := if unit.Minute? then MINUTE else HOUR;
      FloorOfHour(t.value.micros);
      FuzzyKeeps(t.value.(micros := t.value.micros - t.value.micros % length), unit, true);
    }
  }

  /** The time a phrase is given is the middle of the unit it names. */
  lemma PhraseMidpoint(p: Phrase, now: Time)
    requires IsPhrase(p) && IsTime(now)
    ensures Resolve(p, now).Resolved? ==> Midpoint(Resolve(p, now).value, PhraseUnit(p))
  {
    hide Midpoint, DayOf, WeekOf, MonthOf, YearOf, ClockOf, AtInstant, InstantOf, Ordinal, IsStorable, SubtractMonths;
    var d := now.date;
    match p
    case ThisWeek => WeekMidpoint(Ordinal(d));
    case LastWeek => WeekMidpoint(Ordinal(d) - 7);
    case ThisMonth => MonthMidpoint(d.year, d.month);
    case NamedMonth(month) => MonthMidpoint(if month <= d.month then d.year else d.year - 1, month);
    case LastMonth => MonthMidpoint(SubtractMonths(d.year, d.month, 1).0, SubtractMonths(d.year, d.month, 1).1);
    case NumberedYear(year) => YearMidpoint(year);
    case LastYear => YearMidpoint(d.year - 1);
    case Today => DayMidpoint(Ordinal(d));
    case Yesterday => DayMidpoint(Ordinal(d) - 1);
    case Ago(n, unit) => AgoMidpoint(n, unit, now);
  }

  lemma AgoMidpoint(n: nat, unit: Precision, now: Time)
    requires IsTime(now)
    ensures ResolveAgo(n, unit, now).Resolved? ==> Midpoint(ResolveAgo(n, unit, now).value, unit)
  {
    hide Midpoint, DayOf, WeekOf, MonthOf, YearOf, ClockOf, AtInstant, InstantOf, Ordinal, IsStorable, SubtractMonths;
    match unit
    case Minute => ClockMidpoint(AtInstant(InstantOf(now) - n * MINUTE), Minute);
    case Hour => ClockMidpoint(AtInstant(InstantOf(now) - n * HOUR), Hour);
    case Day => DayMidpoint(Ordinal(now.date) - n);
    case Week => WeekMidpoint(Ordinal(now.date) - 7 * n);
    case Month =>
      var (year, month) := SubtractMonths(now.date.year, now.date.month, n);
      MonthMidpoint(year, month);
    case Year => YearMidpoint(now.date.year - n);
  }
}
