/** The schedules of go-sdk's `cron` package that carry state between calls
    (`TimesSchedule` counts down, `ImmediateSchedule` remembers its first
    run), the fixed one-shot schedule, and the package's time helpers.  A
    call of `Next` returns the next run time together with the schedule as
    the call leaves it; the current time (`Now()`) is a parameter. */
module Cron {
  import opened Wrappers
  import opened GoStrings
  import opened GoTime
  import Decimal

  /** `IsZero`. */
  predicate IsZero(t: Time) {
    t == Zero
  }

  /** `Min`: the earlier of two set times; an unset (zero) time is ignored
      unless both are unset. */
  function Min(t1: Time, t2: Time): (r: Time)
    ensures r == t1 || r == t2
    ensures IsZero(r) <==> IsZero(t1) && IsZero(t2)
    ensures !IsZero(t1) && !IsZero(t2) ==> r <= t1 && r <= t2
  {
    if IsZero(t1) && IsZero(t2) then Zero
    else if IsZero(t1) then t2
    else if IsZero(t2) then t1
    else if t1 < t2 then t1
    else t2
  }

  /** `Max`: the later of two times, the zero time counting as an ordinary instant. */
  function Max(t1: Time, t2: Time): (r: Time)
    ensures (r == t1 || r == t2) && r >= t1 && r >= t2
  {
    if t1 < t2 then t2 else t1
  }

  /** Both are symmetric, and `Min` with an unset time gives the other. */
  lemma MinMaxLaws(t1: Time, t2: Time)
    ensures Min(t1, t2) == Min(t2, t1) && Max(t1, t2) == Max(t2, t1)
    ensures Min(Zero, t2) == t2 && Min(t1, Zero) == t1
    ensures !IsZero(t1) && !IsZero(t2) ==> Min(t1, t2) + Max(t1, t2) == t1 + t2
  {
  }

  /** `ConstBool`, `ConstInt`, `ConstDuration` and `ConstLabels`: a provider
      that ignores everything and gives back the captured value. */
  function Const<T>(value: T): (provider: () -> T)
    ensures provider() == value
  {
    () => value
  }

  /** The cron schedules.  `Other` stands for any schedule without state
      of its own (go-sdk's interval, daily and delay schedules), given by its
      next-run function. */
  datatype Schedule =
    | OnceAtUTC(time: Time)
    | TimesSchedule(times: int, left: int, schedule: Schedule)
    | ImmediateSchedule(didRun: bool, continuation: Option<Schedule>)
    | Other(next: Time -> Time)

  /** `Times`: a countdown that starts full. */
  function Times(times: int, schedule: Schedule): (s: Schedule)
    ensures s.TimesSchedule? && s.left == s.times == times && s.schedule == schedule
  {
    TimesSchedule(times, times, schedule)
  }

  /** `Immediately`: a schedule that has not run and has no continuation. */
  function Immediately(): Schedule {
    ImmediateSchedule(false, None)
  }

  /** `Then`: the continuation is stored and the same schedule returned. */
  function Then(i: Schedule, continuation: Schedule): (r: Schedule)
    requires i.ImmediateSchedule?
    ensures r.ImmediateSchedule? && r.didRun == i.didRun && r.continuation == Some(continuation)
  {
    i.(continuation := Some(continuation))
  }

  /** `Next` on each schedule, with the schedule's state after the call. */
  function Next(s: Schedule, after: Time, now: Time): (r: (Time, Schedule))
    decreases s
  {
    match s
    case OnceAtUTC(time) =>
      if IsZero(after) then (time, s)
      else if time > after then (time, s)
      else (Zero, s)
    case TimesSchedule(times, left, inner) =>
      if left > 0 then
        var (t, inner') := Next(inner, after, now);
        (t, TimesSchedule(times, left - 1, inner'))
      else (Zero, s)
    case ImmediateSchedule(didRun, continuation) =>
      if !didRun then (now, ImmediateSchedule(true, continuation))
      else if continuation.Some? then
        var (t, continuation') := Next(continuation.value, after, now);
        (t, ImmediateSchedule(true, Some(continuation')))
      else (Zero, s)
    case Other(next) => (next(after), s)
  }

  /** A one-shot schedule answers its time or the zero time: its time for a
      first run or while it lies ahead, and zero once `after` reaches it. */
  lemma OnceAtNext(time: Time, after: Time, now: Time)
    ensures Next(OnceAtUTC(time), after, now).0 == time || Next(OnceAtUTC(time), after, now).0 == Zero
    ensures IsZero(after) ==> Next(OnceAtUTC(time), after, now).0 == time
    ensures !IsZero(after) ==> (Next(OnceAtUTC(time), after, now).0 == time <==> time > after || time == Zero)
    ensures !IsZero(after) && after >= time ==> Next(OnceAtUTC(time), after, now).0 == Zero
  {
  }

  /** Successive calls of `Next`, each given the previous result as `after`
      (the first is given `start`): the run times it produces. */
  function Run(s: Schedule, start: Time, now: Time, calls: nat): (r: seq<Time>)
    ensures |r| == calls
    decreases calls
  {
    if calls == 0 then []
    else
      var (t, s') := Next(s, start, now);
      [t] + Run(s', t, now, calls - 1)
  }

  /** Successive calls of `Next` on a list of `after` values. */
  function Calls(s: Schedule, afters: seq<Time>, now: Time): (r: seq<Time>)
    ensures |r| == |afters|
    decreases |afters|
  {
    if |afters| == 0 then []
    else
      var (t, s') := Next(s, afters[0], now);
      [t] + Calls(s', afters[1..], now)
  }

  /** A one-shot schedule fires once: once its time is returned, the
      following call answers zero, unless the time is the zero time itself. */
  lemma OnceAtFiresOnce(time: Time, start: Time, now: Time)
    requires time != Zero && (IsZero(start) || time > start)
    ensures Run(OnceAtUTC(time), start, now, 2) == [time, Zero]
  {
    assert Run(OnceAtUTC(time), time, now, 1) == [Zero];
  }

  /** `Times(n, inner)` passes the first `n` calls on to `inner`, counting
      down, and answers zero from then on. */
  lemma {:induction false} TimesCountdown(times: int, left: int, inner: Schedule, afters: seq<Time>, now: Time)
    ensures var k := if left <= 0 then 0 else if left < |afters| then left else |afters|;
      Calls(TimesSchedule(times, left, inner), afters, now)
        == Calls(inner, afters[..k], now) + seq(|afters| - k, _ => Zero)
    decreases |afters|
  {
    if |afters| > 0 {
      var s := TimesSchedule(times, left, inner);
      if left > 0 {
        var (t, inner') := Next(inner, afters[0], now);
        TimesCountdown(times, left - 1, inner', afters[1..], now);
        var k := if left < |afters| then left else |afters|;
        assert afters[..k][0] == afters[0];
        assert afters[..k][1..] == afters[1..][..k - 1];
      } else {
        TimesCountdown(times, left, inner, afters[1..], now);
      }
    }
  }

  /** After its `n` calls, every call of a `Times(n, _)` answers zero. */
  lemma TimesExhausted(times: int, inner: Schedule, afters: seq<Time>, now: Time, i: nat)
    requires 0 <= times <= i < |afters|
    ensures Calls(Times(times, inner), afters, now)[i] == Zero
  {
    TimesCountdown(times, times, inner, afters, now);
  }

  /** `TimesSchedule.String`: "left/times times", after the inner schedule's
      own text when it has one. */
  function TimesString(s: Schedule, inner: Option<String>): (r: String)
    requires s.TimesSchedule?
  {
    var counts := Decimal.FormatInt(s.left) + "/" + Decimal.FormatInt(s.times) + " times";
    if inner.Some? then inner.value + " " + counts else counts
  }

  /** Without an inner text the string reads back as the two counts: the
      text before the first '/' is the number left, and the number of times
      follows it. */
  lemma TimesStringReadsBack(s: Schedule)
    requires s.TimesSchedule?
    ensures var r := TimesString(s, None);
      '/' in r && Decimal.ParseDecimal(r[..FirstIndex(r, '/')]) == Some(s.left)
      && Decimal.ParseDecimal(r[FirstIndex(r, '/') + 1..|r| - 6]) == Some(s.times)
  {
    var left := Decimal.FormatInt(s.left);
    var times := Decimal.FormatInt(s.times);
    var r := TimesString(s, None);
    assert r == left + ['/'] + (times + " times");
    NoSlash(s.left);
    FirstIndexAfter(left, '/', times + " times");
    assert r[..|left|] == left;
    assert r[|left| + 1..|r| - 6] == times;
    Decimal.ParseFormatRoundTrip(s.left);
    Decimal.ParseFormatRoundTrip(s.times);
  }

  /** A formatted integer holds digits and at most a sign, never a '/'. */
  lemma NoSlash(n: int)
    ensures '/' !in Decimal.FormatInt(n)
  {
    var f := Decimal.FormatInt(n);
    if n < 0 {
      assert f == [f[0]] + f[1..];
    }
  }

  /** The immediate schedule fires now on its first call and marks itself
      as run; afterwards it defers to its continuation, or answers zero
      without one. */
  lemma ImmediateNext(continuation: Option<Schedule>, after: Time, now: Time)
    ensures Next(ImmediateSchedule(false, continuation), after, now).0 == now
    ensures Next(ImmediateSchedule(false, continuation), after, now).1.didRun
    ensures continuation.None? ==> Next(ImmediateSchedule(true, continuation), after, now).0 == Zero
    ensures continuation.Some? ==> Next(ImmediateSchedule(true, continuation), after, now).0 == Next(continuation.value, after, now).0
  {
  }

  /** `Immediately().Then(s)` runs now once and then exactly as `s` would. */
  lemma ImmediatelyThen(s: Schedule, afters: seq<Time>, now: Time)
    requires |afters| > 0
    ensures Calls(Then(Immediately(), s), afters, now) == [now] + Calls(s, afters[1..], now)
  {
    ImmediateDefers(s, afters[1..], now);
  }

  lemma {:induction false} ImmediateDefers(s: Schedule, afters: seq<Time>, now: Time)
    ensures Calls(ImmediateSchedule(true, Some(s)), afters, now) == Calls(s, afters, now)
    decreases |afters|
  {
    if |afters| > 0 {
      var (t, s') := Next(s, afters[0], now);
      ImmediateDefers(s', afters[1..], now);
    }
  }
}
