/** The day-of-week masks and predicates that go-chronometer and go-sdk's
    `cron` package both declare, with the same values.  A Go `uint` mask is
    modelled as the set of its bit positions below 64, so `|` is union and
    `&` intersection. */
module Weekdays {
  import opened GoTime

  type Mask = set<nat>

  /** `1<<uint(day)` in a 64-bit word: the day's bit, or no bit at all when
      the shift is 64 or more, as it is for every negative day. */
  function DayBit(day: int): (m: Mask)
    ensures forall b: nat :: b in m <==> b == day && day < 64
  {
    if 0 <= day < 64 then {day} else {}
  }

  const AllDaysMask: Mask := {0, 1, 2, 3, 4, 5, 6}
  const WeekDaysMask: Mask := {1, 2, 3, 4, 5}
  const WeekendDaysMask: Mask := {0, 6}

  /** `DaysOfWeek`, `WeekDays` and `WeekendDays`. */
  const DaysOfWeek: seq<Weekday> := [0, 1, 2, 3, 4, 5, 6]
  const WeekDays: seq<Weekday> := [1, 2, 3, 4, 5]
  const WeekendDays: seq<Weekday> := [0, 6]

  function Pow2(n: nat): (r: nat)
    ensures r >= 1
  {
    if n == 0 then 1 else 2 * Pow2(n - 1)
  }

  /** The numeric value of the mask's bits below `n`. */
  function MaskValue(m: Mask, n: nat): nat {
    if n == 0 then 0 else MaskValue(m, n - 1) + if n - 1 in m then Pow2(n - 1) else 0
  }

  /** `IsWeekendDay`: Saturday or Sunday. */
  predicate IsWeekendDay(day: int) {
    day == Saturday || day == Sunday
  }

  /** `IsWeekDay`: not a weekend day. */
  predicate IsWeekDay(day: int) {
    !IsWeekendDay(day)
  }

  function BitValue(m: Mask, b: nat): nat {
    if b in m then Pow2(b) else 0
  }

  /** A mask's value from its seven day bits. */
  lemma SevenBits(m: Mask)
    ensures MaskValue(m, 7) == BitValue(m, 0) + BitValue(m, 1) + BitValue(m, 2) + BitValue(m, 3)
      + BitValue(m, 4) + BitValue(m, 5) + BitValue(m, 6)
  {
    assert MaskValue(m, 1) == BitValue(m, 0);
    assert MaskValue(m, 2) == MaskValue(m, 1) + BitValue(m, 1);
    assert MaskValue(m, 3) == MaskValue(m, 2) + BitValue(m, 2);
    assert MaskValue(m, 4) == MaskValue(m, 3) + BitValue(m, 3);
    assert MaskValue(m, 5) == MaskValue(m, 4) + BitValue(m, 4);
    assert MaskValue(m, 6) == MaskValue(m, 5) + BitValue(m, 5);
  }

  lemma SmallPowers()
    ensures Pow2(0) == 1 && Pow2(1) == 2 && Pow2(2) == 4 && Pow2(3) == 8
    ensures Pow2(4) == 16 && Pow2(5) == 32 && Pow2(6) == 64
  {
    assert Pow2(1) == 2;
    assert Pow2(2) == 4;
    assert Pow2(3) == 8;
    assert Pow2(4) == 16;
    assert Pow2(5) == 32;
  }

  /** The weekday and weekend masks split the week: they share no day and
      their union is every day. */
  lemma MasksPartition()
    ensures WeekDaysMask !! WeekendDaysMask
    ensures WeekDaysMask + WeekendDaysMask == AllDaysMask
  {
  }

  /** As 64-bit words the masks are 62, 65 and 127. */
  lemma MaskWords()
    ensures MaskValue(WeekDaysMask, 64) == 62
    ensures MaskValue(WeekendDaysMask, 64) == 65
    ensures MaskValue(AllDaysMask, 64) == 127
  {
    MaskWord(WeekDaysMask);
    MaskWord(WeekendDaysMask);
    MaskWord(AllDaysMask);
  }

  /** A mask of days has the same value as a 64-bit word as its seven day bits give. */
  lemma MaskWord(m: Mask)
    requires m <= AllDaysMask
    ensures MaskValue(m, 64) == (if 0 in m then 1 else 0) + (if 1 in m then 2 else 0) + (if 2 in m then 4 else 0)
      + (if 3 in m then 8 else 0) + (if 4 in m then 16 else 0) + (if 5 in m then 32 else 0) + (if 6 in m then 64 else 0)
  {
    SmallPowers();
    HighBitsAddNothing(m, 64);
    SevenBits(m);
  }

  /** Bits from 7 up add nothing to a mask of days. */
  lemma {:induction false} HighBitsAddNothing(m: Mask, n: nat)
    requires m <= AllDaysMask && n >= 7
    ensures MaskValue(m, n) == MaskValue(m, 7)
    decreases n
  {
    if n > 7 {
      HighBitsAddNothing(m, n - 1);
    }
  }

  /** For a real weekday, being a weekday is being in the weekday mask and
      being a weekend day is being Saturday or Sunday, the weekend mask;
      the two exclude each other. */
  lemma WeekDayIff(day: Weekday)
    ensures IsWeekDay(day) <==> day in WeekDaysMask
    ensures IsWeekendDay(day) <==> day in WeekendDaysMask
    ensures IsWeekDay(day) <==> !IsWeekendDay(day)
  {
  }

  /** The day lists hold the days of their masks, each once, in week order. */
  lemma ListsMatchMasks()
    ensures forall d :: d in DaysOfWeek <==> d in AllDaysMask
    ensures forall d :: d in WeekDays <==> d in WeekDaysMask
    ensures forall d :: d in WeekendDays <==> d in WeekendDaysMask
    ensures forall i, j :: 0 <= i < j < |DaysOfWeek| ==> DaysOfWeek[i] < DaysOfWeek[j]
    ensures forall i :: 0 <= i < |WeekDays| ==> IsWeekDay(WeekDays[i])
    ensures forall i :: 0 <= i < |WeekendDays| ==> IsWeekendDay(WeekendDays[i])
  {
  }
}
