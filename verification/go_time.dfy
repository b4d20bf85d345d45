/** The part of Go's `time` package the schedules use, on instants in UTC.
    An instant is a count of nanoseconds since 1970-01-01 00:00:00 UTC; UTC
    has no daylight saving and Go's `time` ignores leap seconds, so a day is
    always 86400 seconds and calendar fields are plain divisions. */
module GoTime {
  type Time = int
  type Duration = int

  const Second: int := 1_000_000_000
  const Minute: int := 60_000_000_000
  const QuarterHour: int := 900_000_000_000
  const Hour: int := 3_600_000_000_000
  const Day: int := 86_400_000_000_000

  /** `time.Unix(0, 0)`. */
  const Epoch: Time := 0

  /** `time.Time{}`: January 1 of year 1, 00:00:00 UTC. */
  const Zero: Time := -62_135_596_800_000_000_000

  /** `time.Weekday`, Sunday being 0. */
  type Weekday = d: int | 0 <= d < 7

  const Sunday: Weekday := 0
  const Monday: Weekday := 1
  const Friday: Weekday := 5
  const Saturday: Weekday := 6

  /** The day count since the epoch, rounding towards the past. */
  function DayNumber(t: Time): int {
    t / 86_400_000_000_000
  }

  /** `t.Weekday()`: 1970-01-01 was a Thursday. */
  function WeekdayOf(t: Time): Weekday {
    (DayNumber(t) + 4) % 7
  }

  /** `time.Date` on the year, month and day of `t` at midnight. */
  function StartOfDay(t: Time): (r: Time)
    ensures r <= t < r + Day
    ensures r % Day == 0
  {
    t - t % 86_400_000_000_000
  }

  /** `time.Date` on the year, month, day and hour of `t` at minute 0. */
  function StartOfHour(t: Time): (r: Time)
    ensures r <= t < r + Hour
    ensures r % Hour == 0
  {
    t - t % 3_600_000_000_000
  }

  /** `t.Minute()`. */
  function MinuteOf(t: Time): (m: int)
    ensures 0 <= m < 60
  {
    t % 3_600_000_000_000 / 60_000_000_000
  }

  /** `k` days as a duration. */
  function Days(k: int): Duration {
    k * 86_400_000_000_000
  }

  /** Moving by whole days moves the weekday along and keeps the time of day. */
  lemma AddDays(t: Time, k: int)
    ensures DayNumber(t + Days(k)) == DayNumber(t) + k
    ensures WeekdayOf(t + Days(k)) == (WeekdayOf(t) + k) % 7
    ensures (t + Days(k)) % Day == t % Day
  {
  }

  /** The zero time falls on a Monday, as in Go. */
  lemma ZeroIsMonday()
    ensures WeekdayOf(Zero) == Monday
  {
  }

  /** Every instant's minute is the minute in its hour, and the hour starts
      that many minutes before, up to the seconds. */
  lemma MinuteInHour(t: Time)
    ensures StartOfHour(t) + MinuteOf(t) * 60_000_000_000 <= t < StartOfHour(t) + MinuteOf(t) * 60_000_000_000 + 60_000_000_000
  {
  }
}
