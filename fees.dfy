/** The fee engine of ParkingService: the clock arithmetic that Carbon does for
    it, the day/night split of getTimeForBothRates and the price of
    getParkingCost. Instants are whole seconds on one local clock; "now" is
    always an explicit argument. */
module Fees {

  datatype Option<T> = None | Some(value: T)

  /** An absent key of the result array counts as zero (isset(...) ? ... : 0). */
  function OrZero(o: Option<int>): int {
    match o
    case Some(v) => v
    case None => 0
  }

  // The RATE table: the day band starts at 08:00 and ends at 18:00.
  const StartHour: int := 8
  const EndHour: int := 18
  const DayRate: int := 3
  const NightRate: int := 2
  const FullDaysRate: int := 58

  /** Seconds since the last midnight. */
  function TimeOfDay(t: int): (s: int)
    ensures 0 <= s < 86400
    ensures (t - s) % 86400 == 0
  {
    t % 86400
  }

  /** Carbon's ->hour: the clock hour of an instant. */
  function Hour(t: int): (h: int)
    ensures 0 <= h < 24
    ensures h * 3600 <= TimeOfDay(t) < h * 3600 + 3600
  {
    TimeOfDay(t) / 3600
  }

  /** The instant at hour:minute of a given day (day 0 starts at instant 0). */
  function At(day: int, hour: int, minute: int): int {
    day * 86400 + hour * 3600 + minute * 60
  }

  /** `$exit_date->between($start, $end)`: the exit's time of day lies in
      [08:00:00, 18:00:00], both ends included. */
  function ExitInRateWindow(t: int): (inside: bool)
    ensures inside <==> (StartHour <= Hour(t) < EndHour || TimeOfDay(t) == EndHour * 3600)
  {
    StartHour * 3600 <= TimeOfDay(t) <= EndHour * 3600
  }

  function Abs(n: int): nat {
    if n < 0 then -n else n
  }

  /** Carbon's diffInDays: the whole days between two instants, in either order. */
  function DiffInDays(a: int, b: int): (d: nat)
    ensures d * 86400 <= Abs(b - a) < d * 86400 + 86400
  {
    Abs(b - a) / 86400
  }

  /** Carbon's diffInHours: the whole hours between two instants, in either order. */
  function DiffInHours(a: int, b: int): (h: nat)
    ensures h * 3600 <= Abs(b - a) < h * 3600 + 3600
  {
    Abs(b - a) / 3600
  }

  /** `$end->diffInHours($start->addDay())`: from today's 18:00 to tomorrow's 08:00. */
  const NightGap: int := DiffInHours(At(0, EndHour, 0), At(1, StartHour, 0))

  /** The two hourly keys of the result array; None is a key never set. */
  datatype Bands = Bands(dayHours: Option<int>, nightHours: Option<int>)

  /** The whole result array of getTimeForBothRates. */
  datatype TimeResult = TimeResult(dayHours: Option<int>, nightHours: Option<int>, fullDays: nat)

  /** The branch tree of getTimeForBothRates, as written: h is the entry's
      clock hour, x the exit's, and inWindow whether the exit lies in the
      day window. Minutes play no other part. The day key is left unset
      only for an entry outside 09..17 with the exit outside the window, and
      then only when the tree counts just the night between the two hours;
      the night key is left unset only for a daytime stay in clock order. */
  function SplitBands(h: int, x: int, inWindow: bool): (b: Bands)
    ensures b.dayHours.Some? || b.nightHours.Some?
    ensures b.dayHours.None? <==>
      && !inWindow && !(StartHour < h < EndHour)
      && (if x > EndHour then EndHour < h <= x else h <= x || h > EndHour)
    ensures b.nightHours.None? <==> inWindow && StartHour < h < EndHour && h <= x
  {
    if inWindow then
      if StartHour < h < EndHour then
        if h > x then Bands(Some(x - StartHour), Some(NightGap))
        else Bands(Some(x - h), None)
      else
        Bands(Some(x - StartHour), Some((24 - h) + StartHour))
    else if StartHour < h < EndHour then
      Bands(Some(EndHour - h),
            Some(if x > EndHour then x - EndHour else (24 - EndHour) + x))
    else if x > EndHour then
      if h > EndHour then
        if h > x then
          Bands(Some(EndHour - StartHour), Some((24 - h) + StartHour + (x - EndHour)))
        else
          Bands(None, Some(x - h))
      else
        Bands(Some(EndHour - StartHour), Some((StartHour - h) + x - EndHour))
    else if h > x then
      if h > EndHour then
        Bands(None, Some((24 - h) + x))
      else
        Bands(Some(EndHour - StartHour), Some((StartHour - h) + (24 - EndHour) + x))
    else
      Bands(None, Some(x - h))
  }

  /** getTimeForBothRates(entry) evaluated at instant now. */
  function TimeForBothRates(entry: int, now: int): (r: TimeResult)
    ensures r.dayHours.Some? ==> 0 <= r.dayHours.value <= EndHour - StartHour
    ensures r.fullDays == 0 <==> Abs(now - entry) < 86400
    ensures entry <= now ==> r.fullDays * 86400 <= now - entry < r.fullDays * 86400 + 86400
  {
    var b := SplitBands(Hour(entry), Hour(now), ExitInRateWindow(now));
    TimeResult(b.dayHours, b.nightHours, DiffInDays(entry, now))
  }

  /** getParkingCost(entry) evaluated at instant now. Although the night
      hours of the split can be negative, the price never is. */
  function ParkingCost(entry: int, now: int): (c: int)
    ensures c >= 0
    ensures c >= FullDaysRate * DiffInDays(entry, now)
  {
    var r := TimeForBothRates(entry, now);
    DayRate * OrZero(r.dayHours) + NightRate * OrZero(r.nightHours) + FullDaysRate * r.fullDays
  }
}
