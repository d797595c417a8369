/** The database seeder, which fills the table with 200 cars, used as the
    "lot is full" scenario. */
module DatabaseSeeder {
  import opened ParkingLot

  /** Seed an empty lot with the given distinct registration numbers at
      instant now, then ask for one more car: the lot is full. */
  method SeedThenEnter(regs: seq<string>, car: string, now: int) returns (res: Response)
    requires |regs| == MaxCapacity
    requires forall i, j :: 0 <= i < j < |regs| ==> regs[i] != regs[j]
    ensures res == Response(ParkingFull, false, NoCar)
  {
    var lot := new Lot();
    var i := 0;
    while i < |regs|
      invariant 0 <= i <= |regs|
      invariant lot.Valid()
      invariant |lot.active| == i
      invariant forall c :: c in lot.active ==> exists j :: 0 <= j < i && regs[j] == c
    {
      var entered := lot.EnterParking(regs[i], now);
      assert entered.success;
      i := i + 1;
    }
    res := lot.EnterParking(car, now);
  }
}
