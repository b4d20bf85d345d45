/** The schedules of go-chronometer: each gives the next run time after the
    last one, or after the current time (`now`, a parameter) when the job has
    not run yet.  A nil `*time.Time` is `None`. */
module Chronometer {
  import opened Wrappers
  import opened GoTime
  import opened Weekdays

  /** A time of day: the seconds since midnight, which is what the hour,
      minute and second fields of `TimeOfDayUTC` hold. */
  type SecondOfDay = s: int | 0 <= s < 86400

  datatype Schedule =
    | OnDemandSchedule
    | ImmediateSchedule
    | IntervalSchedule(every: Duration, startDelay: Option<Duration>)
    | DailySchedule(dayOfWeekMask: Mask, timeOfDay: SecondOfDay)
    | OnTheQuarterHour
    | OnTheHour

  /** `time.Date(0, 0, 0, hour, minute, second, 0, time.UTC)` normalises
      overflowing fields into the day before or after; its clock is the
      total taken modulo a day. */
  function TimeOfDay(hour: int, minute: int, second: int): (r: SecondOfDay)
    ensures (r - (hour * 3600 + minute * 60 + second)) % 86400 == 0
  {
    (hour * 3600 + minute * 60 + second) % 86400
  }

  /** `WeeklyAt`'s mask: the OR of each listed day's bit. */
  function WeeklyMask(days: seq<int>): (m: Mask)
    ensures forall b: nat :: b in m <==> b < 64 && b in days
    decreases |days|
  {
    if |days| == 0 then {}
    else
      var m := WeeklyMask(days[..|days| - 1]) + DayBit(days[|days| - 1]);
      assert days == days[..|days| - 1] + [days[|days| - 1]];
      m
  }

  function WeeklyAt(hour: int, minute: int, second: int, days: seq<int>): Schedule {
    DailySchedule(WeeklyMask(days), TimeOfDay(hour, minute, second))
  }

  function DailyAt(hour: int, minute: int, second: int): Schedule {
    DailySchedule(AllDaysMask, TimeOfDay(hour, minute, second))
  }

  function WeekdaysAt(hour: int, minute: int, second: int): Schedule {
    DailySchedule(WeekDaysMask, TimeOfDay(hour, minute, second))
  }

  function WeekendsAt(hour: int, minute: int, second: int): Schedule {
    DailySchedule(WeekendDaysMask, TimeOfDay(hour, minute, second))
  }

  /** `checkDayOfWeekMask`: the day's bit is set. */
  predicate CheckDayOfWeekMask(mask: Mask, day: Weekday) {
    DayBit(day) * mask != {}
  }

  /** The mask test is membership of the day's bit. */
  lemma CheckDayIff(mask: Mask, day: Weekday)
    ensures CheckDayOfWeekMask(mask, day) <==> day in mask
  {
    if day in mask {
      assert day in DayBit(day) * mask;
    }
  }

  /** A weekly schedule fires on a weekday exactly when the day was listed. */
  lemma WeeklyAtDays(hour: int, minute: int, second: int, days: seq<int>, day: Weekday)
    ensures CheckDayOfWeekMask(WeeklyAt(hour, minute, second, days).dayOfWeekMask, day) <==> day in days
  {
    var m := WeeklyAt(hour, minute, second, days).dayOfWeekMask;
    if day in days {
      assert day in DayBit(day) * m;
    }
  }

  /** The run that `GetNextRunTime` aims for on the `day`-th day from the
      day of `after`, at the schedule's time of day. */
  function Candidate(after: Time, timeOfDay: SecondOfDay, day: int): Time {
    StartOfDay(after) + timeOfDay * Second + Days(day)
  }

  predicate Accepts(mask: Mask, after: Time, timeOfDay: SecondOfDay, day: int) {
    CheckDayOfWeekMask(mask, WeekdayOf(Candidate(after, timeOfDay, day))) && Candidate(after, timeOfDay, day) > after
  }

  /** The loop of `DailySchedule.GetNextRunTime` from `day` on: the first
      of the days up to 7 whose candidate is on a masked weekday and after
      `after`. */
  function DailySearch(mask: Mask, after: Time, timeOfDay: SecondOfDay, day: nat): (r: Option<nat>)
    requires day <= 8
    ensures r.Some? ==> day <= r.value < 8 && Accepts(mask, after, timeOfDay, r.value)
    ensures r.Some? ==> forall j :: day <= j < r.value ==> !Accepts(mask, after, timeOfDay, j)
    ensures r.None? ==> forall j :: day <= j < 8 ==> !Accepts(mask, after, timeOfDay, j)
    decreases 8 - day
  {
    if day == 8 then None
    else if Accepts(mask, after, timeOfDay, day) then Some(day)
    else DailySearch(mask, after, timeOfDay, day + 1)
  }

  /** `GetNextRunTime` for each schedule. */
  function NextRunTime(s: Schedule, after: Option<Time>, now: Time): (r: Option<Time>)
    ensures r.None? <==> s.OnDemandSchedule?
  {
    match s
    case OnDemandSchedule => None
    case ImmediateSchedule => Some(now)
    case IntervalSchedule(every, startDelay) =>
      if after.None? then
        if startDelay.None? then Some(now + every) else Some(now + startDelay.value + every)
      else Some(after.value + every)
    case DailySchedule(mask, timeOfDay) =>
      var from := if after.Some? then after.value else now;
      (match DailySearch(mask, from, timeOfDay, 0)
       case Some(day) => Some(Candidate(from, timeOfDay, day))
       case None => Some(Epoch))
    case OnTheQuarterHour =>
      var from := if after.Some? then after.value else now;
      Some(QuarterHourAfter(from))
    case OnTheHour =>
      var from := if after.Some? then after.value else now;
      Some(StartOfHour(from) + 3_600_000_000_000)
  }

  /** The quarter-hour choice of `OnTheQuarterHour`, branch by branch. */
  function QuarterHourAfter(t: Time): Time {
    var hour := StartOfHour(t);
    if MinuteOf(t) >= 45 then hour + 45 * 60_000_000_000 + 15 * 60_000_000_000
    else if MinuteOf(t) >= 30 then hour + 30 * 60_000_000_000 + 15 * 60_000_000_000
    else if MinuteOf(t) >= 15 then hour + 15 * 60_000_000_000 + 15 * 60_000_000_000
    else hour + 15 * 60_000_000_000
  }

  /** An interval schedule that has run fires `every` after its last run;
      before its first run it fires `every`, after the start delay if any,
      from now. */
  lemma IntervalNext(every: Duration, startDelay: Option<Duration>, last: Time, now: Time)
    ensures NextRunTime(IntervalSchedule(every, startDelay), Some(last), now) == Some(last + every)
    ensures NextRunTime(IntervalSchedule(every, startDelay), None, now)
      == Some(now + (if startDelay.Some? then startDelay.value else 0) + every)
  {
  }

  /** The next quarter-hour boundary: on a multiple of 15 minutes (so zero
      seconds), strictly after `after` and at most 15 minutes later. */
  lemma QuarterHourNext(after: Option<Time>, now: Time)
    ensures var from := if after.Some? then after.value else now;
      var r := NextRunTime(OnTheQuarterHour, after, now).value;
      from < r <= from + QuarterHour && r % QuarterHour == 0
  {
    var from := if after.Some? then after.value else now;
    var h := StartOfHour(from);
    MinuteInHour(from);
    HourInQuarters(h);
  }

  /** An hour boundary is a quarter-hour boundary. */
  lemma HourInQuarters(h: Time)
    requires h % Hour == 0
    ensures h % QuarterHour == 0
    ensures forall c :: (h + c * 900_000_000_000) % QuarterHour == 0
  {
    var a := h / 3_600_000_000_000;
    assert h == (4 * a) * 900_000_000_000;
    forall c ensures (h + c * 900_000_000_000) % QuarterHour == 0 {
      assert h + c * 900_000_000_000 == (4 * a + c) * 900_000_000_000;
    }
  }

  /** The start of the following hour. */
  lemma OnTheHourNext(after: Option<Time>, now: Time)
    ensures var from := if after.Some? then after.value else now;
      var r := NextRunTime(OnTheHour, after, now).value;
      from < r <= from + Hour && r % Hour == 0 && r - Hour <= from
  {
    var from := if after.Some? then after.value else now;
    var h := StartOfHour(from);
    var a := h / 3_600_000_000_000;
    assert h + 3_600_000_000_000 == (a + 1) * 3_600_000_000_000;
  }

  /** The candidate for a day is that many days after the first one. */
  lemma CandidateDays(after: Time, timeOfDay: SecondOfDay, day: int)
    ensures Candidate(after, timeOfDay, day) == Candidate(after, timeOfDay, 0) + Days(day)
    ensures WeekdayOf(Candidate(after, timeOfDay, day)) == (WeekdayOf(Candidate(after, timeOfDay, 0)) + day) % 7
    ensures Candidate(after, timeOfDay, day) % Day == timeOfDay * Second
  {
    var start := StartOfDay(after);
    var c0 := Candidate(after, timeOfDay, 0);
    assert c0 == start + timeOfDay * Second;
    AddDays(c0, day);
    var q := start / Day;
    assert start == q * Day;
    assert 0 <= timeOfDay * Second < Day;
    assert c0 % Day == timeOfDay * Second;
  }

  /** With a masked weekday some day from 1 to 7 is accepted: each of them
      is after `after`, and they cover the week. */
  lemma SomeDayAccepted(mask: Mask, after: Time, timeOfDay: SecondOfDay, d: Weekday)
    requires d in mask
    ensures exists j :: 1 <= j < 8 && Accepts(mask, after, timeOfDay, j)
  {
    var w := WeekdayOf(Candidate(after, timeOfDay, 0));
    var j := (d - w) % 7;
    if j == 0 { j := 7; }
    assert (w + j) % 7 == d;
    CandidateDays(after, timeOfDay, j);
    CandidateDays(after, timeOfDay, 1);
    assert WeekdayOf(Candidate(after, timeOfDay, j)) == d;
    assert d in DayBit(d) * mask;
    assert Candidate(after, timeOfDay, j) > after;
    assert Accepts(mask, after, timeOfDay, j);
  }

  /** A daily schedule with a masked weekday fires after `after`, on a masked
      weekday, at its time of day, and no earlier instant has all three. */
  lemma DailyNext(mask: Mask, timeOfDay: SecondOfDay, after: Time, now: Time, d: Weekday)
    requires d in mask
    ensures var r := NextRunTime(DailySchedule(mask, timeOfDay), Some(after), now).value;
      r > after && WeekdayOf(r) in mask && r % Day == timeOfDay * Second
      && forall t :: after < t < r && t % Day == timeOfDay * Second ==> WeekdayOf(t) !in mask
  {
    SomeDayAccepted(mask, after, timeOfDay, d);
    var i := DailySearch(mask, after, timeOfDay, 0).value;
    var r := Candidate(after, timeOfDay, i);
    CandidateDays(after, timeOfDay, i);
    assert WeekdayOf(r) in mask by {
      assert DayBit(WeekdayOf(r)) * mask != {};
    }
    forall t | after < t < r && t % Day == timeOfDay * Second
      ensures WeekdayOf(t) !in mask
    {
      EarlierRejected(mask, after, timeOfDay, i, t);
    }
  }

  /** An instant at the time of day between `after` and the chosen candidate
      is a rejected candidate, hence on an unmasked weekday. */
  lemma EarlierRejected(mask: Mask, after: Time, timeOfDay: SecondOfDay, i: nat, t: Time)
    requires i < 8 && forall j :: 0 <= j < i ==> !Accepts(mask, after, timeOfDay, j)
    requires after < t < Candidate(after, timeOfDay, i) && t % Day == timeOfDay * Second
    ensures WeekdayOf(t) !in mask
  {
    var base := Candidate(after, timeOfDay, 0);
    var k := (t - base) / Day;
    assert t == base + Days(k);
    CandidateDays(after, timeOfDay, k);
    CandidateDays(after, timeOfDay, i);
    assert 0 <= k < i;
    assert !Accepts(mask, after, timeOfDay, k);
    CheckDayIff(mask, WeekdayOf(t));
  }

  /** A daily schedule without a weekday bit never finds a day and answers the epoch. */
  lemma DailyEmptyMask(mask: Mask, timeOfDay: SecondOfDay, after: Option<Time>, now: Time)
    requires forall d :: 0 <= d < 7 ==> d !in mask
    ensures NextRunTime(DailySchedule(mask, timeOfDay), after, now) == Some(Epoch)
  {
    var from := if after.Some? then after.value else now;
    forall j | 0 <= j < 8 ensures !Accepts(mask, from, timeOfDay, j) {
      var w := WeekdayOf(Candidate(from, timeOfDay, j));
      assert DayBit(w) * mask == {};
    }
  }

  /** The on-demand schedule never fires; the immediate one fires now. */
  lemma OnDemandNever(after: Option<Time>, now: Time)
    ensures NextRunTime(OnDemandSchedule, after, now) == None
    ensures NextRunTime(ImmediateSchedule, after, now) == Some(now)
  {
  }
}
