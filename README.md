# Parking lot: fee engine, lot state and request guards

A Dafny model of the core of a small Laravel parking service. The lot holds
at most 200 cars. Each car is known by its registration number. The fee for
a stay comes from a day rate (3 per hour, 08:00 to 18:00), a night rate
(2 per hour) and a flat rate of 58 per full day.

- `Fees` (fees.dfy) holds the fee engine of `ParkingService`.
  `getTimeForBothRates` becomes `TimeForBothRates(entry, now)` and
  `getParkingCost` becomes `ParkingCost(entry, now)`. Instants are whole
  seconds, and "now" is an argument. The nested conditionals are
  `SplitBands(h, x, inWindow)`. It reads only the entry hour `h`, the exit
  hour `x`, and whether the exit's time of day lies in [08:00:00, 18:00:00]
  (Carbon's `between`, both ends included). The tree is kept exactly as
  written, so its answers are sometimes surprising. Entering at 07:30 and
  leaving at 10:00 gives 25 night hours and 2 day hours. Entering at 18:30
  and leaving at 19:15 gives −9 night hours and 10 day hours. The hours are
  therefore `int`, and no lemma claims that day plus night hours equal the
  time parked. An absent key of the result array is `None` and counts as 0
  in the price.
- `FeeProperties` (fee_properties.dfy) states what the split does
  guarantee. It depends only on the clock readings. It is unchanged by
  whole-day shifts. Day hours always lie in 0..10. Night hours lie in −9..32
  and are negative only for an entry in the 18:00 hour. A negative night always comes with
  a full 10-hour day, so a price is never negative. A zero-length stay is
  free except in the 08:00 hour and at exactly 18:00:00. The module also has
  one worked example per leaf of the tree, and an example of a longer stay
  that costs less. `SameDaySplit` is an independent hour-granular reference
  for stays within one calendar day. `SameDayAgreement` says exactly when the
  tree agrees with it.
- `ParkingLot` (lot.dfy) models `getFreeParkingSpaces`, `enterParking` and
  `exitParking`. They are pure transitions `Enter` and `Exit` over a
  `LotState`. The state has a map of active sessions (registration number
  to entry instant) and an append-only log of the soft-deleted rows. The
  class `Lot` holds the same state in fields. Its methods are proved equal to
  the transitions, and they keep the invariant: at most 200 active sessions,
  and every logged row was charged `ParkingCost` of its own entry and exit.
  Map keys make registration numbers unique among active sessions. The
  duplicate check of `enterParking` is what keeps a second session for the
  same car from being created.
- `ActionController` (controller.dfy) models the four endpoints.
  `getFreeSpaces` takes no input and only returns the lot's free-space count.
  The other three validate `car_reg_number` with `bail|required|max:10` and
  then delegate to the lot; `checkCost` only reads it.
- `DatabaseSeeder` (seeder.dfy) seeds 200 distinct cars and shows that a
  201st car is refused because the lot is full.

## Model

| member | source | states |
|---|---|---|
| `Fees.TimeOfDay` | app/Services/ParkingService.php:140-142 | the time of day is in [0, 86400) and differs from the instant by whole days |
| `Fees.Hour` | app/Services/ParkingService.php:146-147 | Carbon's `->hour`: an hour 0..23 whose hour-long slot contains the time of day |
| `Fees.DiffInDays` | app/Services/ParkingService.php:206 | `diffInDays`: the whole days between two instants in either order, i.e. the floor of the absolute distance over 86400 |
| `Fees.DiffInHours` | app/Services/ParkingService.php:150 | `diffInHours`: the whole hours between two instants in either order |
| `Fees.ExitInRateWindow` | app/Services/ParkingService.php:145 | the inclusive `between` against today's 08:00 and 18:00: the exit is inside exactly when its clock hour is 8..17 or it is 18:00:00 on the dot |
| `FeeProperties.NightGapValue` | app/Services/ParkingService.php:150 | `$end->diffInHours($start->addDay())` is always 14, the night from 18:00 to 08:00 the next day |
| `Fees.SplitBands` | app/Services/ParkingService.php:145-204 | the branch tree as written; at least one key is set; the day key is unset exactly for an entry outside 09..17 with an exit outside the window in the three night-only leaves; the night key is unset exactly for an entry 09..17 and an exit in the window at a later or equal hour |
| `Fees.TimeForBothRates` | app/Services/ParkingService.php:137-208 | day hours, when the key is set, lie in 0..10; `full_days` is 0 exactly when the instants are less than a day apart, and otherwise is the floor of the elapsed days |
| `Fees.ParkingCost` | app/Services/ParkingService.php:121-127 | the price 3·day + 2·night + 58·full_days, with an absent key counted as 0 by `OrZero`, is never negative and is at least 58 per full day |
| `FeeProperties.ExitClock` | app/Services/ParkingService.php:145 | being in the window at [08:00:00, 18:00:00] puts the exit hour in 8..18, being outside puts it before 8 or at 18 or later, and exit hours 9..17 are always in the window |
| `FeeProperties.DependsOnlyOnClock` | app/Services/ParkingService.php:145-206 | two stays with the same entry hour, exit hour and window test get the same day and night keys whatever their lengths; if they are also equally long, they get the same whole result array and the same price |
| `FeeProperties.ShiftByDays` | app/Services/ParkingService.php:139-206 | moving entry and exit by the same whole number of days changes neither the result array nor the price |
| `FeeProperties.DayEntryDayExit` | app/Services/ParkingService.php:146-153 | entry hour 9..17, exit in the window and no earlier hour: `day_hours = x − h` and no night key |
| `FeeProperties.DayEntryNightExit` | app/Services/ParkingService.php:163-168 | entry hour 9..17, exit outside the window: `day_hours = 18 − h`, `night_hours = x − 18` if `x > 18` and `6 + x` otherwise |
| `FeeProperties.NightHoursRange` | app/Services/ParkingService.php:145-204 | night hours lie in −9..32 and are negative exactly when the entry hour is 18 and the exit hour is 19..23 or 0..3 |
| `FeeProperties.NegativeNightHasFullDay` | app/Services/ParkingService.php:182-196 | whenever night hours are negative, day hours are the full 10 |
| `FeeProperties.ZeroLengthStay` | app/Services/ParkingService.php:145-204 | leaving at the instant of entry is free exactly when that instant is outside the 08:00 hour and is not 18:00:00 |
| `FeeProperties.Overlap` | app/Services/ParkingService.php:16-20 | the overlap of two hour ranges is non-negative, no longer than either range, and the whole first range when it is contained in the second |
| `FeeProperties.SameDaySplit` | app/Services/ParkingService.php:16-28 | reference split of a same-day stay: day and night hours are non-negative and sum to the hours parked; a stay inside 08..18 has no night hours and one outside it no day hours |
| `FeeProperties.SameDayAgreement` | app/Services/ParkingService.php:145-204 | for a same-day stay the tree charges what the reference charges if and only if one of four listed clock conditions holds |
| `FeeProperties.SameDayDaytimeStay` | app/Services/ParkingService.php:146-153 | entering between 09:00 and 17:59 and leaving the same day before 18:00 at a clock hour no earlier than the entry's bills `3 · (x − h)` and nothing else |
| `FeeProperties.ExampleOvernightDaytimeEntry` | app/Services/ParkingService.php:149-151 | 15:00 to 10:00 the next day: day 2, night 14, price 34 |
| `FeeProperties.ExampleDaytimeStay` | app/Services/ParkingService.php:152-154 | 09:00 to 17:00: day 8, no night key, price 24 |
| `FeeProperties.ExampleEarlyEntrySameDay` | app/Services/ParkingService.php:156-158 | 07:30 to 10:00 the same day: night 25, day 2, price 56 |
| `FeeProperties.ExampleEveningToMorning` | app/Services/ParkingService.php:156-158 | 20:00 to 09:00 the next day: night 12, day 1, price 27 |
| `FeeProperties.ExampleDaytimeToEvening` | app/Services/ParkingService.php:165-168 | 10:00 to 20:00: day 8, night 2, price 28 |
| `FeeProperties.ExampleDaytimeToNight` | app/Services/ParkingService.php:165-168 | 10:00 to 02:00 the next day: day 8, night 8, price 40 |
| `FeeProperties.ExampleEveningToNextEvening` | app/Services/ParkingService.php:174-177 | 22:00 to 20:00 the next day: night 12, day 10, price 54 |
| `FeeProperties.ExampleEveningStay` | app/Services/ParkingService.php:178-180 | 19:00 to 21:00: night 2, no day key, price 4 |
| `FeeProperties.ExampleSixPmEntry` | app/Services/ParkingService.php:181-184 | 18:30 to 19:15: night −9, day 10, price 12 |
| `FeeProperties.ExampleEarlyToEvening` | app/Services/ParkingService.php:181-184 | 06:00 to 20:00: night 4, day 10, price 38 |
| `FeeProperties.ExampleLateNight` | app/Services/ParkingService.php:190-192 | 23:00 to 05:00 the next day: night 6, no day key, price 12 |
| `FeeProperties.ExampleEarlyToNextEarly` | app/Services/ParkingService.php:193-196 | 07:00 to 06:00 the next day: night 13, day 10, price 56 |
| `FeeProperties.ExampleSmallHours` | app/Services/ParkingService.php:199-201 | 01:00 to 05:00: night 4, no day key, price 8 |
| `FeeProperties.ExampleTwoFullDays` | app/Services/ParkingService.php:206 | 10:00 to 10:00 two days later: two full days, day 0, no night key, price 116 |
| `FeeProperties.LongerStayCanCostLess` | app/Services/ParkingService.php:121-127 | after entering at 07:30, leaving at 19:00 costs less than leaving at 10:00 |
| `ParkingLot.FreeSpaces` | app/Services/ParkingService.php:34-36 | free spaces plus active sessions is 200, and under the invariant free spaces lie in 0..200 |
| `ParkingLot.Enter` | app/Services/ParkingService.php:43-68 | success exactly when the lot is not full and the car is not parked; a full lot answers "The parking is full" and a parked car "The car is already in the parking", both leaving the state as it was; success adds just that car with entry instant now, returns the new row, lowers free spaces by one, keeps every other session and keeps the invariant |
| `ParkingLot.Exit` | app/Services/ParkingService.php:83-105 | success exactly when the car is parked; otherwise "The car is not in the parking" and no change; on success the session leaves the active map, a row with exit instant now and `ParkingCost(entry, now)` is appended to the log and returned, free spaces rise by one, every other session is kept and the invariant holds |
| `ParkingLot.EnterThenExit` | app/Services/ParkingService.php:43-105 | entering a free car and then letting it out restores the active sessions and logs exactly the one row charged for that stay |
| `ParkingLot.NoDuplicateEntry` | app/Services/ParkingService.php:52-57 | a parked car stays parked with its first entry instant through any sequence of enter and exit calls for other cars, and a second entry for it is then refused and changes nothing |
| `ParkingLot.RunKeepsInvariant` | app/Services/ParkingService.php:43-105 | after any sequence of enter and exit calls the lot still holds at most 200 cars, and every logged row still carries the price of its own stay |
| `ParkingLot.RunOnlyAppendsToLog` | app/Services/ParkingService.php:93-103 | a sequence of calls never removes or rewrites a soft-deleted row; the old log is a prefix of the new one |
| `ParkingLot.StepChangesAtMostOne` | app/Services/ParkingService.php:43-105 | each call either changes nothing; or inserts exactly the named car, which was not parked, with entry instant now, keeping every other session and the log; or removes exactly the named parked car and appends its one row with exit now and `ParkingCost(entry, now)` |
| `ParkingLot.Lot.GetFreeParkingSpaces` | app/Services/ParkingService.php:34-36 | returns 200 minus the active sessions, a number in 0..200 |
| `ParkingLot.Lot.EnterParking` | app/Services/ParkingService.php:43-68 | response and new state are those of `Enter`; a refused car changes nothing |
| `ParkingLot.Lot.ExitParking` | app/Services/ParkingService.php:83-105 | response and new state are those of `Exit`; the log only grows, by one row on success |
| `ActionController.ValidCarRegNumber` | app/Http/Controllers/Parking/ActionController.php:25-28 | an accepted value is present with 1..10 characters; an empty value or one longer than 10 is refused; 1..10 characters not starting with a blank are accepted |
| `ActionController.GetFreeSpaces` | app/Http/Controllers/Parking/ActionController.php:16-18 | replies with the lot's free spaces, a number in 0..200 |
| `ActionController.EnterParking` | app/Http/Controllers/Parking/ActionController.php:24-36 | invalid input gets "Invalid data" and leaves the lot unchanged; valid input gets the service's response and the service's new state |
| `ActionController.ExitParking` | app/Http/Controllers/Parking/ActionController.php:42-54 | invalid input gets "Invalid data" and leaves the lot unchanged; valid input gets the service's response and the service's new state |
| `ActionController.CheckCost` | app/Http/Controllers/Parking/ActionController.php:60-79 | invalid input gets "Invalid data"; a car not parked gets "Car not in the parking"; a parked car gets `due_amount = ParkingCost(entry, now)`, which is non-negative; nothing is modified |
| `DatabaseSeeder.SeedThenEnter` | database/seeds/DatabaseSeeder.php:14-19 | after 200 distinct cars are seeded into an empty lot, any further car gets "The parking is full" |

## Left out

- Carbon parsing, time zones, daylight saving and `Carbon::now()`: instants are whole seconds on one local clock, and "now" is an argument. Sub-second precision is not modelled. With microseconds, an exit at 18:00:00.5 would fall outside the window; here an exit is either at 18:00:00 or at least a second later.
- `Fees.DiffInDays` uses floor(|b − a| / 86400). This is not Carbon's calendar-day difference across DST changes.
- `exitParking` calls `Carbon::now()` twice, once for `exit_date` and once inside the price. The model uses one `now` for both.
- The `try`/`catch` blocks, `\Log::error`, the "Something went wrong" replies and the `exit()` inside `getTimeForBothRates` are not modelled. They handle database and library failures.
- The check-then-insert race between the capacity and duplicate checks and `create` is not modelled. Every operation is atomic.
- Database collation is not modelled. `where('car_reg_number', …)` compares keys exactly, while a case-insensitive collation would also match "abc" against "ABC".
- `ActionController.ValidCarRegNumber` is not Laravel's whole `Validator`. Values that are not strings (arrays, numbers, files) are not modelled. Framework middleware that might trim or null the input before validation is not part of this model.
- JSON construction, routes/api.php and the Eloquent declaration in app/Parking.php are not modelled. The soft delete of app/Parking.php:16 is the move from the active map to the completed log.
- A corrected split is not modelled as what the lot bills. Such a split would cut a stay at every band boundary and bill exact day and night time over stays of several days. The lot bills with the branch tree the source runs. `SameDaySplit` is a reference only for stays within one calendar day, and it is used only to say where the tree is right.
- `DatabaseSeeder.SeedThenEnter` seeds through `EnterParking` instead of a raw `create`, and it requires the 200 registration numbers to be distinct. The seeder draws them at random.
