/** The lot side of ParkingService: the set of Parking rows that are not
    soft-deleted (the active sessions, one per registration number) and the
    soft-deleted rows kept as a log of completed stays. */
module ParkingLot {
  import opened Fees

  const MaxCapacity: int := 200

  const ParkingFull := "The parking is full"
  const AlreadyParked := "The car is already in the parking"
  const Entered := "Car entered the parking successfully"
  const NotParked := "The car is not in the parking"
  const Exited := "The car successfully exited the parking"

  /** A row as created on entry. */
  datatype Session = Session(carRegNumber: string, entryDate: int)

  /** A row after exit: exit date and amount paid filled in. */
  datatype Record = Record(carRegNumber: string, entryDate: int, exitDate: int, payedAmount: int)

  /** The row a reply carries, under car_info (entry) or car (exit). */
  datatype Payload = NoCar | CarInfo(session: Session) | Car(record: Record)

  /** The array the service returns: message, success and at most one row. */
  datatype Response = Response(message: string, success: bool, payload: Payload)

  /** Active sessions by registration number (entry instant), and the
      soft-deleted rows in the order they left. */
  datatype LotState = LotState(active: map<string, int>, completed: seq<Record>)

  datatype Transition = Transition(response: Response, after: LotState)

  /** No more than MaxCapacity active sessions, and every completed row was
      charged getParkingCost of its own entry and exit. */
  ghost predicate Invariant(s: LotState) {
    && |s.active| <= MaxCapacity
    && forall i :: 0 <= i < |s.completed| ==>
         s.completed[i].payedAmount == ParkingCost(s.completed[i].entryDate, s.completed[i].exitDate)
  }

  /** getFreeParkingSpaces: capacity minus the rows all() still sees. */
  function FreeSpaces(s: LotState): (n: int)
    ensures n + |s.active| == MaxCapacity
    ensures Invariant(s) ==> 0 <= n <= MaxCapacity
  {
    MaxCapacity - |s.active|
  }

  /** enterParking(car) at instant now. */
  function Enter(s: LotState, car: string, now: int): (t: Transition)
    ensures t.response.success <==> FreeSpaces(s) != 0 && car !in s.active
    ensures FreeSpaces(s) == 0 ==> t == Transition(Response(ParkingFull, false, NoCar), s)
    ensures FreeSpaces(s) != 0 && car in s.active ==>
              t == Transition(Response(AlreadyParked, false, NoCar), s)
    ensures t.response.success ==>
              && t.response == Response(Entered, true, CarInfo(Session(car, now)))
              && t.after.completed == s.completed
              && t.after.active.Keys == s.active.Keys + {car}
              && t.after.active[car] == now
              && FreeSpaces(t.after) == FreeSpaces(s) - 1
    ensures forall c :: c in s.active ==> c in t.after.active && t.after.active[c] == s.active[c]
    ensures Invariant(s) ==> Invariant(t.after)
  {
    if FreeSpaces(s) == 0 then
      Transition(Response(ParkingFull, false, NoCar), s)
    else if car in s.active then
      Transition(Response(AlreadyParked, false, NoCar), s)
    else
      Transition(Response(Entered, true, CarInfo(Session(car, now))),
                 LotState(s.active[car := now], s.completed))
  }

  /** exitParking(car) at instant now. */
  function Exit(s: LotState, car: string, now: int): (t: Transition)
    ensures t.response.success <==> car in s.active
    ensures car !in s.active ==> t == Transition(Response(NotParked, false, NoCar), s)
    ensures car in s.active ==>
              var rec := Record(car, s.active[car], now, ParkingCost(s.active[car], now));
              && t.response == Response(Exited, true, Car(rec))
              && t.after.completed == s.completed + [rec]
              && t.after.active.Keys == s.active.Keys - {car}
              && FreeSpaces(t.after) == FreeSpaces(s) + 1
    ensures forall c :: c in s.active && c != car ==> c in t.after.active && t.after.active[c] == s.active[c]
    ensures car !in t.after.active
    ensures Invariant(s) ==> Invariant(t.after)
  {
    if car !in s.active then
      Transition(Response(NotParked, false, NoCar), s)
    else
      var entry := s.active[car];
      var rec := Record(car, entry, now, ParkingCost(entry, now));
      Transition(Response(Exited, true, Car(rec)),
                 LotState(s.active - {car}, s.completed + [rec]))
  }

  /** Entering and then leaving restores the active sessions and logs
      exactly one row, charged for the stay. */
  lemma EnterThenExit(s: LotState, car: string, t1: int, t2: int)
    requires FreeSpaces(s) != 0 && car !in s.active
    ensures var t := Exit(Enter(s, car, t1).after, car, t2);
      && t.response == Response(Exited, true, Car(Record(car, t1, t2, ParkingCost(t1, t2))))
      && t.after.active == s.active
      && t.after.completed == s.completed + [Record(car, t1, t2, ParkingCost(t1, t2))]
  {
    var mid := Enter(s, car, t1).after;
    assert mid.active - {car} == s.active;
  }

  // ------------------------------------------------ sequences of service calls

  /** One call into the service, with the instant it happened. */
  datatype Call = EnterCall(car: string, now: int) | ExitCall(car: string, now: int)

  function Step(s: LotState, c: Call): LotState {
    match c
    case EnterCall(car, now) => Enter(s, car, now).after
    case ExitCall(car, now) => Exit(s, car, now).after
  }

  /** The state after the calls, one after another. */
  function Run(s: LotState, calls: seq<Call>): LotState
    decreases |calls|
  {
    if calls == [] then s else Run(Step(s, calls[0]), calls[1..])
  }

  /** However the calls come, the lot never holds more than MaxCapacity
      cars and every logged row carries the price of its own stay. */
  lemma {:induction false} RunKeepsInvariant(s: LotState, calls: seq<Call>)
    requires Invariant(s)
    ensures Invariant(Run(s, calls))
    decreases |calls|
  {
    if calls != [] {
      RunKeepsInvariant(Step(s, calls[0]), calls[1..]);
    }
  }

  /** The log of soft-deleted rows only grows: a run keeps every earlier
      row, in place. */
  lemma {:induction false} RunOnlyAppendsToLog(s: LotState, calls: seq<Call>)
    ensures |s.completed| <= |Run(s, calls).completed|
    ensures Run(s, calls).completed[..|s.completed|] == s.completed
    decreases |calls|
  {
    if calls != [] {
      var s1 := Step(s, calls[0]);
      assert s1.completed[..|s.completed|] == s.completed;
      RunOnlyAppendsToLog(s1, calls[1..]);
      var r := Run(s1, calls[1..]).completed;
      assert r[..|s.completed|] == r[..|s1.completed|][..|s.completed|];
    }
  }

  /** Every call either changes nothing, or inserts exactly the car it
      names with entry instant now and keeps every other session and the
      log, or removes exactly that car and logs its one charged row. */
  lemma StepChangesAtMostOne(s: LotState, c: Call)
    ensures var t := Step(s, c);
      || t == s
      || (&& c.EnterCall? && c.car !in s.active
          && t.active.Keys == s.active.Keys + {c.car} && t.active[c.car] == c.now
          && (forall k :: k in s.active ==> t.active[k] == s.active[k])
          && t.completed == s.completed)
      || (&& c.ExitCall? && c.car in s.active
          && t.active == s.active - {c.car}
          && t.completed == s.completed + [Record(c.car, s.active[c.car], c.now, ParkingCost(s.active[c.car], c.now))])
  {
  }

  /** A car that is parked stays parked, with its first entry instant,
      through any calls about other cars, and a second entry for it is then
      refused without changing anything. */
  lemma {:induction false} NoDuplicateEntry(s: LotState, car: string, calls: seq<Call>, now: int)
    requires car in s.active
    requires forall i :: 0 <= i < |calls| ==> calls[i].car != car
    ensures var r := Run(s, calls);
      && car in r.active && r.active[car] == s.active[car]
      && !Enter(r, car, now).response.success && Enter(r, car, now).after == r
    decreases |calls|
  {
    if calls != [] {
      NoDuplicateEntry(Step(s, calls[0]), car, calls[1..], now);
    }
  }

  // ------------------------------------------------------------- the class

  /** The Parking table as the service sees it. */
  class Lot {
    var active: map<string, int>
    var completed: seq<Record>

    function State(): LotState
      reads this
    {
      LotState(active, completed)
    }

    ghost predicate Valid()
      reads this
    {
      Invariant(State())
    }

    /** An empty table. */
    constructor ()
      ensures Valid() && active == map[] && completed == []
    {
      active := map[];
      completed := [];
    }

    /** getFreeParkingSpaces. */
    method GetFreeParkingSpaces() returns (n: int)
      requires Valid()
      ensures n == FreeSpaces(State())
      ensures 0 <= n <= MaxCapacity
    {
      n := MaxCapacity - |active|;
    }

    /** enterParking: refuses a full lot first, then a car already parked,
        and otherwise creates the row with entry_date = now. */
    method EnterParking(car: string, now: int) returns (res: Response)
      requires Valid()
      modifies this
      ensures Valid()
      ensures Transition(res, State()) == Enter(old(State()), car, now)
      ensures !res.success ==> active == old(active) && completed == old(completed)
    {
      var free := GetFreeParkingSpaces();
      if free == 0 {
        return Response(ParkingFull, false, NoCar);
      }
      if car in active {
        return Response(AlreadyParked, false, NoCar);
      }
      active := active[car := now];
      res := Response(Entered, true, CarInfo(Session(car, now)));
    }

    /** exitParking: refuses a car that is not parked; otherwise fills in
        exit_date and payed_amount and soft-deletes the row. */
    method ExitParking(car: string, now: int) returns (res: Response)
      requires Valid()
      modifies this
      ensures Valid()
      ensures Transition(res, State()) == Exit(old(State()), car, now)
      ensures !res.success ==> active == old(active) && completed == old(completed)
      ensures res.success ==> |completed| == |old(completed)| + 1 && completed[..|old(completed)|] == old(completed)
    {
      if car !in active {
        return Response(NotParked, false, NoCar);
      }
      var entry := active[car];
      var rec := Record(car, entry, now, ParkingCost(entry, now));
      res := Response(Exited, true, Car(rec));
      completed := completed + [rec];
      active := active - {car};
    }
  }
}
