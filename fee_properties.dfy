/** What the day/night split of getTimeForBothRates and the price of
    getParkingCost do and do not guarantee. */
module FeeProperties {
  import opened Fees

  // ---------------------------------------------------------------- clock

  /** Euclidean division by a day is determined by quotient and remainder. */
  lemma DayDivision(a: int, q: int, r: int)
    requires a == q * 86400 + r && 0 <= r < 86400
    ensures a % 86400 == r && a / 86400 == q
  {
  }

  /** The clock reading of the instant At(day, hour, minute). */
  lemma {:induction false} ClockAt(day: int, hour: int, minute: int)
    requires 0 <= hour < 24 && 0 <= minute < 60
    ensures TimeOfDay(At(day, hour, minute)) == hour * 3600 + minute * 60
    ensures Hour(At(day, hour, minute)) == hour
  {
    DayDivision(At(day, hour, minute), day, hour * 3600 + minute * 60);
  }

  /** Shifting an instant by whole days keeps its time of day. */
  lemma {:induction false} TimeOfDayShift(t: int, k: int)
    ensures TimeOfDay(t + k * 86400) == TimeOfDay(t)
  {
    var q, r := t / 86400, t % 86400;
    DayDivision(t + k * 86400, q + k, r);
  }

  /** What the window test says about the exit hour: inside the window the
      hour is 8..18, outside it is before 8 or at least 18. */
  predicate WindowAgrees(x: int, inWindow: bool) {
    && 0 <= x < 24
    && (inWindow ==> StartHour <= x <= EndHour)
    && (!inWindow ==> x < StartHour || x >= EndHour)
  }

  lemma ExitClock(t: int)
    ensures WindowAgrees(Hour(t), ExitInRateWindow(t))
    ensures StartHour < Hour(t) < EndHour ==> ExitInRateWindow(t)
  {
  }

  // ------------------------------------------------- what the split reads

  /** The split reads nothing but the entry hour, the exit hour and whether
      the exit is in the window, however long the stays are; full_days
      reads nothing but the distance. */
  lemma DependsOnlyOnClock(entry1: int, now1: int, entry2: int, now2: int)
    requires Hour(entry1) == Hour(entry2) && Hour(now1) == Hour(now2)
    requires ExitInRateWindow(now1) == ExitInRateWindow(now2)
    ensures TimeForBothRates(entry1, now1).dayHours == TimeForBothRates(entry2, now2).dayHours
    ensures TimeForBothRates(entry1, now1).nightHours == TimeForBothRates(entry2, now2).nightHours
    ensures Abs(now1 - entry1) == Abs(now2 - entry2) ==>
              TimeForBothRates(entry1, now1) == TimeForBothRates(entry2, now2)
              && ParkingCost(entry1, now1) == ParkingCost(entry2, now2)
  {
  }

  /** `$end->diffInHours($start->addDay())` is the 14-hour night from 18:00
      to 08:00 the next morning. */
  lemma NightGapValue()
    ensures NightGap == 14 && NightGap == (24 - EndHour) + StartHour
  {
  }

  /** Moving both instants by the same number of days changes nothing: the
      split looks only at times of day. */
  lemma {:induction false} ShiftByDays(entry: int, now: int, k: int)
    ensures TimeForBothRates(entry + k * 86400, now + k * 86400) == TimeForBothRates(entry, now)
    ensures ParkingCost(entry + k * 86400, now + k * 86400) == ParkingCost(entry, now)
  {
    TimeOfDayShift(entry, k);
    TimeOfDayShift(now, k);
    assert (now + k * 86400) - (entry + k * 86400) == now - entry;
  }

  // ------------------------------------------------- the documented cases

  /** Entry between 09:00 and 17:59, exit in the window at a later or equal
      clock hour: only day hours, exit hour minus entry hour. */
  lemma DayEntryDayExit(entry: int, now: int)
    requires StartHour < Hour(entry) < EndHour
    requires ExitInRateWindow(now) && Hour(entry) <= Hour(now)
    ensures TimeForBothRates(entry, now).dayHours == Some(Hour(now) - Hour(entry))
    ensures TimeForBothRates(entry, now).nightHours == None
  {
  }

  /** Entry between 09:00 and 17:59, exit outside the window: day hours up
      to 18:00, night hours from 18:00 to the exit hour. */
  lemma DayEntryNightExit(entry: int, now: int)
    requires StartHour < Hour(entry) < EndHour
    requires !ExitInRateWindow(now)
    ensures TimeForBothRates(entry, now).dayHours == Some(EndHour - Hour(entry))
    ensures TimeForBothRates(entry, now).nightHours
         == Some(if Hour(now) > EndHour then Hour(now) - EndHour else 6 + Hour(now))
  {
  }

  /** The night count ranges over -9..32, and is negative exactly when the
      entry is in the 18:00 hour and the exit hour is 19..23 or 0..3. */
  lemma NightHoursRange(h: int, x: int, inWindow: bool)
    requires 0 <= h < 24 && WindowAgrees(x, inWindow)
    ensures var n := OrZero(SplitBands(h, x, inWindow).nightHours);
      -9 <= n <= 32 && (n < 0 <==> h == EndHour && (x > EndHour || x <= 3))
  {
  }

  /** A negative night count only ever comes with a full ten-hour day. */
  lemma NegativeNightHasFullDay(h: int, x: int, inWindow: bool)
    requires 0 <= h < 24 && WindowAgrees(x, inWindow)
    requires OrZero(SplitBands(h, x, inWindow).nightHours) < 0
    ensures SplitBands(h, x, inWindow).dayHours == Some(EndHour - StartHour)
  {
  }

  /** A stay of zero length is free except in the 08:00 hour and at exactly
      18:00:00, where the branch tree bills a whole cycle. */
  lemma {:induction false} ZeroLengthStay(t: int)
    ensures ParkingCost(t, t) == 0 <==> Hour(t) != StartHour && TimeOfDay(t) != EndHour * 3600
  {
    ExitClock(t);
    if Hour(t) == StartHour {
      assert ExitInRateWindow(t);
      assert ParkingCost(t, t) == NightRate * 24;
    } else if TimeOfDay(t) == EndHour * 3600 {
      assert Hour(t) == EndHour && ExitInRateWindow(t);
      assert ParkingCost(t, t) == DayRate * 10 + NightRate * 14;
    }
  }

  // ------------------------------------- a reference for same-day stays

  /** Length of the overlap of [a, b) and [c, d), in hours. */
  function Overlap(a: int, b: int, c: int, d: int): (n: int)
    ensures n >= 0
    ensures a <= b ==> n <= b - a
    ensures c <= d ==> n <= d - c
    ensures c <= a && b <= d && a <= b ==> n == b - a
  {
    var lo := if a < c then c else a;
    var hi := if b < d then b else d;
    if lo < hi then hi - lo else 0
  }

  /** A stay from hour h to hour x of the same day, h <= x, charged at hour
      granularity: the hours of [h, x) inside [08, 18) are day hours, the
      rest night hours. */
  function SameDaySplit(h: int, x: int): (b: Bands)
    requires h <= x
    ensures b.dayHours.Some? && b.nightHours.Some?
    ensures 0 <= b.dayHours.value && 0 <= b.nightHours.value
    ensures b.dayHours.value + b.nightHours.value == x - h
    ensures StartHour <= h && x <= EndHour ==> b.nightHours.value == 0
    ensures x <= StartHour || EndHour <= h ==> b.dayHours.value == 0
  {
    var day := Overlap(h, x, StartHour, EndHour);
    Bands(Some(day), Some((x - h) - day))
  }

  predicate SameCharge(a: Bands, b: Bands) {
    OrZero(a.dayHours) == OrZero(b.dayHours) && OrZero(a.nightHours) == OrZero(b.nightHours)
  }

  /** For a same-day stay the branch tree charges what SameDaySplit charges
      exactly in these cases; in every other case it charges something else. */
  lemma SameDayAgreement(h: int, x: int, inWindow: bool)
    requires 0 <= h <= x && WindowAgrees(x, inWindow)
    ensures SameCharge(SplitBands(h, x, inWindow), SameDaySplit(h, x)) <==>
      || (inWindow && StartHour < h < EndHour)
      || (!inWindow && x > EndHour && h != EndHour)
      || (!inWindow && x < StartHour)
      || (!inWindow && x == EndHour && h == EndHour)
  {
  }

  /** The instant-level form: a stay that enters between 09:00 and 17:59 and
      leaves the same day before 18:00, at a clock hour no earlier than the
      entry's, is billed at its exact hour-granular day hours (none when the
      two hours are equal, whichever minute comes first). */
  lemma {:induction false} SameDayDaytimeStay(day: int, h: int, hm: int, x: int, xm: int)
    requires StartHour < h <= x < EndHour && 0 <= hm < 60 && 0 <= xm < 60
    ensures TimeForBothRates(At(day, h, hm), At(day, x, xm)) == TimeResult(Some(x - h), None, 0)
    ensures ParkingCost(At(day, h, hm), At(day, x, xm)) == DayRate * (x - h)
  {
    ClockAt(day, h, hm);
    ClockAt(day, x, xm);
  }

  // ------------------------------------------- one example per branch

  /** Window exit, daytime entry, exit hour before entry hour (next day). */
  lemma {:induction false} ExampleOvernightDaytimeEntry(d: int)
    ensures TimeForBothRates(At(d, 15, 0), At(d + 1, 10, 0)) == TimeResult(Some(2), Some(14), 0)
    ensures ParkingCost(At(d, 15, 0), At(d + 1, 10, 0)) == 34
  {
    ClockAt(d, 15, 0);
    ClockAt(d + 1, 10, 0);
  }

  /** Window exit, daytime entry, same day: 09:00 to 17:00 costs 24. */
  lemma {:induction false} ExampleDaytimeStay(d: int)
    ensures TimeForBothRates(At(d, 9, 0), At(d, 17, 0)) == TimeResult(Some(8), None, 0)
    ensures ParkingCost(At(d, 9, 0), At(d, 17, 0)) == 24
  {
    ClockAt(d, 9, 0);
    ClockAt(d, 17, 0);
  }

  /** Window exit, early entry: 07:30 to 10:00 the same day is charged 25
      night hours and 2 day hours, more than the whole stay. */
  lemma {:induction false} ExampleEarlyEntrySameDay(d: int)
    ensures TimeForBothRates(At(d, 7, 30), At(d, 10, 0)) == TimeResult(Some(2), Some(25), 0)
    ensures ParkingCost(At(d, 7, 30), At(d, 10, 0)) == 56
  {
    ClockAt(d, 7, 30);
    ClockAt(d, 10, 0);
  }

  /** Window exit, evening entry: 20:00 to 09:00 next day costs 27. */
  lemma {:induction false} ExampleEveningToMorning(d: int)
    ensures TimeForBothRates(At(d, 20, 0), At(d + 1, 9, 0)) == TimeResult(Some(1), Some(12), 0)
    ensures ParkingCost(At(d, 20, 0), At(d + 1, 9, 0)) == 27
  {
    ClockAt(d, 20, 0);
    ClockAt(d + 1, 9, 0);
  }

  /** Exit outside the window, daytime entry, exit hour after 18. */
  lemma {:induction false} ExampleDaytimeToEvening(d: int)
    ensures TimeForBothRates(At(d, 10, 0), At(d, 20, 0)) == TimeResult(Some(8), Some(2), 0)
    ensures ParkingCost(At(d, 10, 0), At(d, 20, 0)) == 28
  {
    ClockAt(d, 10, 0);
    ClockAt(d, 20, 0);
  }

  /** Exit outside the window, daytime entry, exit after midnight. */
  lemma {:induction false} ExampleDaytimeToNight(d: int)
    ensures TimeForBothRates(At(d, 10, 0), At(d + 1, 2, 0)) == TimeResult(Some(8), Some(8), 0)
    ensures ParkingCost(At(d, 10, 0), At(d + 1, 2, 0)) == 40
  {
    ClockAt(d, 10, 0);
    ClockAt(d + 1, 2, 0);
  }

  /** Evening entry after 18, evening exit the next day at an earlier hour. */
  lemma {:induction false} ExampleEveningToNextEvening(d: int)
    ensures TimeForBothRates(At(d, 22, 0), At(d + 1, 20, 0)) == TimeResult(Some(10), Some(12), 0)
    ensures ParkingCost(At(d, 22, 0), At(d + 1, 20, 0)) == 54
  {
    ClockAt(d, 22, 0);
    ClockAt(d + 1, 20, 0);
  }

  /** Evening entry after 18, later evening exit: night hours only. */
  lemma {:induction false} ExampleEveningStay(d: int)
    ensures TimeForBothRates(At(d, 19, 0), At(d, 21, 0)) == TimeResult(None, Some(2), 0)
    ensures ParkingCost(At(d, 19, 0), At(d, 21, 0)) == 4
  {
    ClockAt(d, 19, 0);
    ClockAt(d, 21, 0);
  }

  /** Entry in the 18:00 hour, exit in the 19:00 hour: night -9, day 10. */
  lemma {:induction false} ExampleSixPmEntry(d: int)
    ensures TimeForBothRates(At(d, 18, 30), At(d, 19, 15)) == TimeResult(Some(10), Some(-9), 0)
    ensures ParkingCost(At(d, 18, 30), At(d, 19, 15)) == 12
  {
    ClockAt(d, 18, 30);
    ClockAt(d, 19, 15);
  }

  /** Early entry, evening exit the same day: the day band plus both nights. */
  lemma {:induction false} ExampleEarlyToEvening(d: int)
    ensures TimeForBothRates(At(d, 6, 0), At(d, 20, 0)) == TimeResult(Some(10), Some(4), 0)
    ensures ParkingCost(At(d, 6, 0), At(d, 20, 0)) == 38
  {
    ClockAt(d, 6, 0);
    ClockAt(d, 20, 0);
  }

  /** Late entry, exit after midnight before 08:00: night hours only. */
  lemma {:induction false} ExampleLateNight(d: int)
    ensures TimeForBothRates(At(d, 23, 0), At(d + 1, 5, 0)) == TimeResult(None, Some(6), 0)
    ensures ParkingCost(At(d, 23, 0), At(d + 1, 5, 0)) == 12
  {
    ClockAt(d, 23, 0);
    ClockAt(d + 1, 5, 0);
  }

  /** Early entry, early exit the next day at an earlier hour. */
  lemma {:induction false} ExampleEarlyToNextEarly(d: int)
    ensures TimeForBothRates(At(d, 7, 0), At(d + 1, 6, 0)) == TimeResult(Some(10), Some(13), 0)
    ensures ParkingCost(At(d, 7, 0), At(d + 1, 6, 0)) == 56
  {
    ClockAt(d, 7, 0);
    ClockAt(d + 1, 6, 0);
  }

  /** Small-hours stay before 08:00: night hours only. */
  lemma {:induction false} ExampleSmallHours(d: int)
    ensures TimeForBothRates(At(d, 1, 0), At(d, 5, 0)) == TimeResult(None, Some(4), 0)
    ensures ParkingCost(At(d, 1, 0), At(d, 5, 0)) == 8
  {
    ClockAt(d, 1, 0);
    ClockAt(d, 5, 0);
  }

  /** Exactly two days, 10:00 to 10:00: two full days and nothing else, 116. */
  lemma {:induction false} ExampleTwoFullDays(d: int)
    ensures TimeForBothRates(At(d, 10, 0), At(d + 2, 10, 0)) == TimeResult(Some(0), None, 2)
    ensures ParkingCost(At(d, 10, 0), At(d + 2, 10, 0)) == 116
  {
    ClockAt(d, 10, 0);
    ClockAt(d + 2, 10, 0);
  }

  /** Staying longer can cost less: leaving at 19:00 instead of 10:00 after
      entering at 07:30. */
  lemma {:induction false} LongerStayCanCostLess(d: int)
    ensures At(d, 10, 0) < At(d, 19, 0)
    ensures ParkingCost(At(d, 7, 30), At(d, 19, 0)) < ParkingCost(At(d, 7, 30), At(d, 10, 0))
  {
    ClockAt(d, 7, 30);
    ClockAt(d, 10, 0);
    ClockAt(d, 19, 0);
  }
}
