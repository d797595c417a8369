/** ActionController: validate car_reg_number, then hand the request to the
    lot. The controller keeps no state of its own. */
module ActionController {
  import opened Fees
  import opened ParkingLot

  const InvalidData := "Invalid data"
  const CarNotParked := "Car not in the parking"

  /** The JSON bodies the controller answers with. */
  datatype Reply =
    | Status(response: Response)
    | FreeParkingSpaces(count: int)
    | DueAmount(amount: int)

  /** The characters PHP's trim() removes by default. */
  predicate TrimmedByPhp(c: char) {
    c == ' ' || c == '\t' || c == '\n' || c == '\r' || c == '\0' || c == '\U{B}'
  }

  predicate Blank(s: string) {
    forall i :: 0 <= i < |s| ==> TrimmedByPhp(s[i])
  }

  /** The rule 'bail|required|max:10' on car_reg_number (None: the field is
      missing): required refuses a missing or blank value, max:10 a value of
      more than ten characters. */
  function ValidCarRegNumber(carRegNumber: Option<string>): (ok: bool)
    ensures ok ==> carRegNumber.Some? && 1 <= |carRegNumber.value| <= 10
    ensures carRegNumber == Some("") ==> !ok
    ensures carRegNumber.Some? && |carRegNumber.value| > 10 ==> !ok
    ensures carRegNumber.Some? && 1 <= |carRegNumber.value| <= 10 && !TrimmedByPhp(carRegNumber.value[0]) ==> ok
  {
    carRegNumber.Some? && !Blank(carRegNumber.value) && |carRegNumber.value| <= 10
  }

  const Refused := Status(Response(InvalidData, false, NoCar))

  /** GET /freeSpaces. */
  method GetFreeSpaces(lot: Lot) returns (reply: Reply)
    requires lot.Valid()
    ensures reply == FreeParkingSpaces(FreeSpaces(lot.State()))
    ensures 0 <= reply.count <= MaxCapacity
  {
    var n := lot.GetFreeParkingSpaces();
    reply := FreeParkingSpaces(n);
  }

  /** POST /enterParking. */
  method EnterParking(lot: Lot, carRegNumber: Option<string>, now: int) returns (reply: Reply)
    requires lot.Valid()
    modifies lot
    ensures lot.Valid()
    ensures !ValidCarRegNumber(carRegNumber) ==> reply == Refused && lot.State() == old(lot.State())
    ensures ValidCarRegNumber(carRegNumber) ==>
              reply.Status? && Transition(reply.response, lot.State()) == Enter(old(lot.State()), carRegNumber.value, now)
  {
    if !ValidCarRegNumber(carRegNumber) {
      return Refused;
    }
    var res := lot.EnterParking(carRegNumber.value, now);
    reply := Status(res);
  }

  /** POST /exitParking. */
  method ExitParking(lot: Lot, carRegNumber: Option<string>, now: int) returns (reply: Reply)
    requires lot.Valid()
    modifies lot
    ensures lot.Valid()
    ensures !ValidCarRegNumber(carRegNumber) ==> reply == Refused && lot.State() == old(lot.State())
    ensures ValidCarRegNumber(carRegNumber) ==>
              reply.Status? && Transition(reply.response, lot.State()) == Exit(old(lot.State()), carRegNumber.value, now)
  {
    if !ValidCarRegNumber(carRegNumber) {
      return Refused;
    }
    var res := lot.ExitParking(carRegNumber.value, now);
    reply := Status(res);
  }

  /** GET /checkCost: the amount due if the car left at instant now. It
      changes nothing (the method may modify nothing). */
  method CheckCost(lot: Lot, carRegNumber: Option<string>, now: int) returns (reply: Reply)
    ensures !ValidCarRegNumber(carRegNumber) ==> reply == Refused
    ensures ValidCarRegNumber(carRegNumber) && carRegNumber.value !in lot.active ==>
              reply == Status(Response(CarNotParked, false, NoCar))
    ensures ValidCarRegNumber(carRegNumber) && carRegNumber.value in lot.active ==>
              reply == DueAmount(ParkingCost(lot.active[carRegNumber.value], now))
    ensures reply.DueAmount? ==> reply.amount >= 0
  {
    if !ValidCarRegNumber(carRegNumber) {
      return Refused;
    }
    var car := carRegNumber.value;
    if car !in lot.active {
      return Status(Response(CarNotParked, false, NoCar));
    }
    reply := DueAmount(ParkingCost(lot.active[car], now));
  }
}
