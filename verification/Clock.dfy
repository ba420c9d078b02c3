/** Microseconds cut to minutes, hours and days. */
module Clock {

  const MINUTE := 60_000_000
  const HOUR := 3_600_000_000
  const DAY := 86_400_000_000
  const NOON := 43_200_000_000

  lemma DivideMinutes(q: int, r: int)
    requires 0 <= r < MINUTE
    ensures (q * MINUTE + r) / MINUTE == q && (q * MINUTE + r) % MINUTE == r
  {
  }

  lemma DivideHours(q: int, r: int)
    requires 0 <= r < HOUR
    ensures (q * HOUR + r) / HOUR == q && (q * HOUR + r) % HOUR == r
  {
  }

  lemma DivideDays(q: int, r: int)
    requires 0 <= r < DAY
    ensures (q * DAY + r) / DAY == q && (q * DAY + r) % DAY == r
  {
  }

  /** Days, minutes of the day, and the rest. */
  lemma SplitMinutes(i: int) returns (d: int, m: int, r: int)
    ensures i == d * DAY + m * MINUTE + r && 0 <= m < 1440 && 0 <= r < MINUTE
  {
    var q := i / MINUTE;
    d, m, r := q / 1440, q % 1440, i % MINUTE;
  }

  /** Days, hours of the day, and the rest. */
  lemma SplitHours(i: int) returns (d: int, h: int, r: int)
    ensures i == d * DAY + h * HOUR + r && 0 <= h < 24 && 0 <= r < HOUR
  {
    var q := i / HOUR;
    d, h, r := q / 24, q % 24, i % HOUR;
  }

  lemma MinutesOf(d: int, m: int, r: int)
    requires 0 <= m < 1440 && 0 <= r < MINUTE
    ensures var i := d * DAY + m * MINUTE + r;
      i / MINUTE * MINUTE == d * DAY + m * MINUTE && i / DAY == d && i % DAY == m * MINUTE + r
  {
    DivideDays(d, m * MINUTE + r);
    DivideMinutes(d * 1440 + m, r);
  }

  lemma HoursOf(d: int, h: int, r: int)
    requires 0 <= h < 24 && 0 <= r < HOUR
    ensures var i := d * DAY + h * HOUR + r;
      i / HOUR * HOUR == d * DAY + h * HOUR && i / DAY == d && i % DAY == h * HOUR + r
  {
    DivideDays(d, h * HOUR + r);
    DivideHours(d * 24 + h, r);
  }

  /** Cutting an instant to its minute keeps its day, and whether it is from the first day to before
      the last of those days. */
  lemma MinuteParts(i: int, days: int)
    ensures var f := i / MINUTE * MINUTE;
      && f / DAY == i / DAY && f % DAY == i % DAY - i % DAY % MINUTE && f % DAY % MINUTE == 0
      && (DAY <= i < days * DAY <==> DAY <= f < days * DAY)
  {
    var d, m, r := SplitMinutes(i);
    MinutesOf(d, m, r);
    MinutesOf(d, m, 0);
    var f := d * DAY + m * MINUTE;
    assert i / MINUTE * MINUTE == f;
    DivideMinutes(m, r);
    DivideMinutes(m, 0);
    SameDays(i, f, d, days);
  }

  lemma SameDays(i: int, f: int, d: int, days: int)
    requires d * DAY <= i < d * DAY + DAY && d * DAY <= f < d * DAY + DAY
    ensures DAY <= i < days * DAY <==> DAY <= f < days * DAY
  {
  }

  lemma HourParts(i: int, days: int)
    ensures var f := i / HOUR * HOUR;
      && f / DAY == i / DAY && f % DAY == i % DAY - i % DAY % HOUR && f % DAY % HOUR == 0
      && (DAY <= i < days * DAY <==> DAY <= f < days * DAY)
  {
    var d, h, r := SplitHours(i);
    HoursOf(d, h, r);
    HoursOf(d, h, 0);
    var f := d * DAY + h * HOUR;
    assert i / HOUR * HOUR == f;
    DivideHours(h, r);
    DivideHours(h, 0);
    SameDays(i, f, d, days);
  }

  lemma FloorToMinute(day: int, micros: int)
    ensures (day * DAY + micros) / MINUTE * MINUTE == day * DAY + (micros - micros % MINUTE)
  {
    var m, r := micros / MINUTE, micros % MINUTE;
    DivideMinutes(day * 1440 + m, r);
  }

  lemma FloorToHour(day: int, micros: int)
    ensures (day * DAY + micros) / HOUR * HOUR == day * DAY + (micros - micros % HOUR)
  {
    var h, r := micros / HOUR, micros % HOUR;
    DivideHours(day * 24 + h, r);
  }

  /** Hour, minute and rest make up the time of day. */
  lemma SplitHour(micros: int)
    ensures micros == micros / HOUR * HOUR + micros % HOUR / MINUTE * MINUTE + micros % MINUTE
    ensures micros == micros / HOUR * HOUR + micros % HOUR
  {
    var h, r := micros / HOUR, micros % HOUR;
    var m, u := r / MINUTE, r % MINUTE;
    DivideMinutes(h * 60 + m, u);
  }

  /** Cutting to the minute or the hour keeps what is printed of it. */
  lemma FloorOfHour(micros: int)
    ensures var m := micros - micros % MINUTE;
      m / HOUR == micros / HOUR && m % HOUR / MINUTE == micros % HOUR / MINUTE && m % MINUTE == 0
    ensures var h := micros - micros % HOUR; h / HOUR == micros / HOUR && h % HOUR == 0
  {
    var h, r := micros / HOUR, micros % HOUR;
    var m, u := r / MINUTE, r % MINUTE;
    DivideMinutes(h * 60 + m, u);
    DivideHours(h, m * MINUTE);
    DivideHours(h, 0);
    DivideMinutes(m, 0);
    DivideMinutes(h * 60 + m, 0);
  }

  lemma CutNotBelowDay(i: int)
    requires DAY <= i
    ensures DAY <= i / MINUTE * MINUTE && DAY <= i / HOUR * HOUR
  {
    var d, m, r := SplitMinutes(i);
    DivideMinutes(d * 1440 + m, r);
    var e, h, u := SplitHours(i);
    DivideHours(e * 24 + h, u);
  }

  lemma ShiftMinutes(i: int, n: int)
    ensures (i - n * MINUTE) / MINUTE == i / MINUTE - n
  {
    DivideMinutes(i / MINUTE - n, i % MINUTE);
  }

  lemma ShiftHours(i: int, n: int)
    ensures (i - n * HOUR) / HOUR == i / HOUR - n
  {
    DivideHours(i / HOUR - n, i % HOUR);
  }
}
