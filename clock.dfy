/**
 * Local date-times in the restaurant's zone (Asia/Kolkata, a fixed +05:30 offset with no
 * daylight saving). A date is Python's proleptic Gregorian ordinal (`date.toordinal()`,
 * where 0001-01-01 is day 1), so `timedelta(days=1)` adds one to it and "the same
 * calendar date" is equality of ordinals.
 */
module Clock {

  type Hour = h: int | 0 <= h < 24
  type Minute = m: int | 0 <= m < 60
  type Second = s: int | 0 <= s < 60
  type Micro = u: int | 0 <= u < 1000000

  /** Monday = 0 .. Sunday = 6, as Python's `weekday()`. */
  type Weekday = d: int | 0 <= d < 7

  /** An aware `datetime` in the restaurant's zone. */
  datatype LocalDateTime = LocalDateTime(day: int, hour: Hour, minute: Minute, second: Second, micro: Micro)

  /** `a < b` on datetimes in one fixed-offset zone: compare date, then time of day. */
  predicate Before(a: LocalDateTime, b: LocalDateTime)
  {
    if a.day != b.day then a.day < b.day
    else if a.hour != b.hour then a.hour < b.hour
    else if a.minute != b.minute then a.minute < b.minute
    else if a.second != b.second then a.second < b.second
    else a.micro < b.micro
  }

  /** The instant of `t` as microseconds since the start of day 0: the timeline Python compares on. */
  function Ticks(t: LocalDateTime): int
  {
    (((t.day * 24 + t.hour) * 60 + t.minute) * 60 + t.second) * 1000000 + t.micro
  }

  /** A mixed-radix digit below the base cannot outweigh a difference in the higher place. */
  lemma PlaceValue(x1: int, y1: int, x2: int, y2: int, base: int)
    requires 0 <= y1 < base && 0 <= y2 < base
    ensures x1 * base + y1 < x2 * base + y2 <==> x1 < x2 || (x1 == x2 && y1 < y2)
    ensures x1 * base + y1 == x2 * base + y2 <==> x1 == x2 && y1 == y2
  {
    if x1 < x2 {
      MultiplyMonotone(x1 + 1, x2, base);
    } else if x2 < x1 {
      MultiplyMonotone(x2 + 1, x1, base);
    }
  }

  lemma MultiplyMonotone(a: int, b: int, base: int)
    requires a <= b && 0 <= base
    ensures a * base <= b * base
  {
    var d := b - a;
    assert b * base == a * base + d * base;
  }

  /** The lexicographic comparison is the comparison of instants. */
  lemma BeforeIsTimeline(a: LocalDateTime, b: LocalDateTime)
    ensures Before(a, b) <==> Ticks(a) < Ticks(b)
  {
    PlaceValue(a.day, a.hour, b.day, b.hour, 24);
    PlaceValue(a.day * 24 + a.hour, a.minute, b.day * 24 + b.hour, b.minute, 60);
    PlaceValue((a.day * 24 + a.hour) * 60 + a.minute, a.second, (b.day * 24 + b.hour) * 60 + b.minute, b.second, 60);
    PlaceValue(((a.day * 24 + a.hour) * 60 + a.minute) * 60 + a.second, a.micro,
               ((b.day * 24 + b.hour) * 60 + b.minute) * 60 + b.second, b.micro, 1000000);
  }

  /** `a.date() == b.date()`. */
  predicate SameDate(a: LocalDateTime, b: LocalDateTime)
  {
    a.day == b.day
  }

  /** `t + timedelta(days=1)`: same time of day, next date. */
  function NextDay(t: LocalDateTime): (r: LocalDateTime)
    ensures Before(t, r) && !SameDate(t, r)
    ensures r.day == t.day + 1 && r.(day := t.day) == t
  {
    t.(day := t.day + 1)
  }

  /** `date.fromordinal(day).weekday()`: day 1 (0001-01-01) is a Monday. */
  function WeekdayOf(day: int): (r: Weekday)
    ensures r == 0 <==> day % 7 == 1
  {
    (day + 6) % 7
  }

  /** `Before` is a strict total order. */
  lemma BeforeIsStrictTotalOrder(a: LocalDateTime, b: LocalDateTime, c: LocalDateTime)
    ensures !Before(a, a)
    ensures Before(a, b) ==> !Before(b, a)
    ensures Before(a, b) && Before(b, c) ==> Before(a, c)
    ensures a == b || Before(a, b) || Before(b, a)
  {
  }

  /** The day after any date falls on the next weekday, modulo 7. */
  lemma NextDayWeekday(day: int)
    ensures WeekdayOf(day + 1) == (WeekdayOf(day) + 1) % 7
  {
  }
}
