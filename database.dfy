/**
 * The store the services write to: one collection per model, each updated
 * in place. Every write method is proved against the pure definition of
 * its service in the per-service modules and keeps the store invariant.
 */
module Store {
  import opened Models
  import opened SeatLedger
  import opened SeatGeneration
  import TrainService
  import CoachService
  import TrainInstanceService
  import TicketService
  import StoreInvariants

  class Database {
    var trains: seq<Train>
    var coaches: seq<Coach>
    var instances: seq<TrainInstance>
    var tickets: seq<Ticket>
    var bookings: seq<Booking>

    /** The collections as one value. */
    function State(): Db
      reads this
    {
      Db(trains, coaches, instances, tickets, bookings)
    }

    ghost predicate Valid()
      reads this
    {
      StoreInvariants.Valid(State())
    }

    /** An empty database. */
    constructor ()
      ensures State() == EmptyDb && Valid()
    {
      trains, coaches, instances, tickets, bookings := [], [], [], [], [];
    }

    /** `addTrain`: the insert is refused when the train number is already in use. */
    method AddTrain(train: Train) returns (r: Result<Train, TrainService.TrainError>)
      modifies this
      ensures var spec := TrainService.AddTrainTo(old(trains), train);
        && (spec.Ok? ==> r == Ok(train) && State() == old(State()).(trains := spec.value))
        && (spec.Err? ==> r == Err(spec.error) && State() == old(State()))
      ensures old(Valid()) ==> Valid()
    {
      ghost var before := State();
      if TrainService.GetTrainByTrainNumber(trains, train.trainNumber).Some? {
        return Err(TrainService.DuplicateTrainNumber);
      }
      trains := trains + [train];
      r := Ok(train);
      if StoreInvariants.Valid(before) {
        StoreInvariants.ApplyKeepsValid(before, StoreInvariants.AddTrain(train));
      }
    }

    /**
     * `addCoach`: generate the seats for the type, build the coach and save
     * it; the schema refuses an unknown type, the unique index a coach
     * number already in use. Returns the saved coach.
     */
    method AddCoach(coachNumber: string, trainNumber: string, coachType: string)
      returns (r: Result<Coach, CoachService.CoachError>)
      modifies this
      ensures var spec := CoachService.AddCoachTo(old(coaches), coachNumber, trainNumber, coachType);
        && (spec.Ok? ==> r.Ok? && State() == old(State()).(coaches := spec.value) && r.value == spec.value[|old(coaches)|])
        && (spec.Err? ==> r == Err(spec.error) && State() == old(State()))
      ensures old(Valid()) ==> Valid()
    {
      ghost var before := State();
      var seats := GenerateSeatsForCoach(coachType);
      var parsed := ParseCoachType(coachType);
      if parsed.None? {
        return Err(CoachService.InvalidCoachType);
      }
      if CoachService.CoachNumberTaken(coaches, coachNumber) {
        return Err(CoachService.DuplicateCoachNumber);
      }
      var coach := Coach(coachNumber, trainNumber, parsed.value, seats);
      coaches := coaches + [coach];
      r := Ok(coach);
      if StoreInvariants.Valid(before) {
        StoreInvariants.ApplyKeepsValid(before, StoreInvariants.AddCoach(coachNumber, trainNumber, coachType));
      }
    }

    /**
     * `updateTrainInstances`: for every journey of the train dated `now` or
     * later, append an entry for the coach, counting its available seats,
     * unless the summary already lists that coach number.
     */
    method UpdateTrainInstances(trainNumber: string, coachNumber: string, coachType: CoachType, seats: seq<Seat>,
                                now: int)
      modifies this
      ensures State() == old(State()).(instances :=
        CoachService.UpdateTrainInstances(old(instances), trainNumber, coachNumber, coachType, seats, now))
      ensures old(Valid()) ==> Valid()
    {
      ghost var before := State();
      var i := 0;
      while i < |instances|
        invariant 0 <= i <= |instances| == |before.instances|
        invariant State() == before.(instances := instances)
        invariant forall j :: 0 <= j < i ==>
          instances[j] == CoachService.UpdateInstance(before.instances[j], trainNumber, coachNumber, coachType, seats, now)
        invariant forall j :: i <= j < |instances| ==> instances[j] == before.instances[j]
      {
        var inst := instances[i];
        if inst.trainNumber == trainNumber && inst.journeyDate >= now {
          var availableSeats := CoachService.CountAvailable(seats);
          var existing := FirstIndex(inst.availableCoaches, (e: CoachSummary) => e.coachNumber == coachNumber);
          if existing.None? {
            var entry := CoachSummary(coachNumber, coachType, availableSeats);
            instances := instances[i := inst.(availableCoaches := inst.availableCoaches + [entry])];
          }
        }
        i := i + 1;
      }
      if StoreInvariants.Valid(before) {
        StoreInvariants.ApplyKeepsValid(before,
          StoreInvariants.UpdateTrainInstances(trainNumber, coachNumber, coachType, seats, now));
      }
    }

    /** `createTrainInstance`: the train must exist and have no journey on that date yet. */
    method CreateTrainInstance(req: TrainInstanceService.InstanceRequest)
      returns (r: Result<TrainInstance, TrainInstanceService.InstanceError>)
      modifies this
      ensures var spec := TrainInstanceService.CreateTrainInstance(old(trains), old(instances), req);
        && (spec.Ok? ==> r.Ok? && State() == old(State()).(instances := spec.value)
                         && r.value == spec.value[|old(instances)|])
        && (spec.Err? ==> r == Err(spec.error) && State() == old(State()))
      ensures old(Valid()) ==> Valid()
    {
      ghost var before := State();
      if TrainService.GetTrainByTrainNumber(trains, req.trainNumber).None? {
        return Err(TrainInstanceService.NoSuchTrain);
      }
      if TrainInstanceService.HasJourney(instances, req.trainNumber, req.journeyDate) {
        return Err(TrainInstanceService.AlreadyScheduled);
      }
      var status := TrainInstanceService.StatusOf(req.status);
      if status.None? {
        return Err(TrainInstanceService.InvalidStatus);
      }
      var inst := TrainInstance(req.trainNumber, req.journeyDate, req.availableCoaches, status.value);
      instances := instances + [inst];
      r := Ok(inst);
      if StoreInvariants.Valid(before) {
        StoreInvariants.ApplyKeepsValid(before, StoreInvariants.CreateTrainInstance(req));
      }
    }

    /** The `reduce` over the created tickets: their fares added up in order. */
    static method TotalFare(issued: seq<Ticket>) returns (total: nat)
      ensures total == TicketService.SumFares(issued)
    {
      total := 0;
      var j := 0;
      while j < |issued|
        invariant 0 <= j <= |issued|
        invariant total == TicketService.SumFares(issued[..j])
      {
        assert issued[..j + 1][..j] == issued[..j];
        total := total + issued[j].ticketFare;
        j := j + 1;
      }
      assert issued[..j] == issued;
    }

    /**
     * The per-passenger step of `bookTickets`: claim the seat on the
     * session's view of the coaches, then create the ticket, checking the
     * schema and the unique index on references against the stored tickets
     * and those the session already created. `TicketService.IssueOne` is its
     * specification, and the method is proved equal to it.
     */
    method IssueTicket(train: Train, req: TicketService.BookingRequest, userId: string, pnrs: seq<string>, i: nat,
                       ledger: seq<Coach>, issued: seq<Ticket>)
      returns (res: Result<TicketService.Work, TicketService.BookingError>)
      requires i < |req.passengers| && |pnrs| == |req.passengers|
      ensures res == TicketService.IssueOne(State(), train, req, userId, pnrs, i, TicketService.Work(ledger, issued))
    {
      var p := req.passengers[i];
      var claimed := ClaimSeat(ledger, TicketService.PassengerKey(train.trainNumber, p));
      if claimed.None? {
        return Err(TicketService.SeatNotAvailable(p.seatNumber, p.coachNumber));
      }
      var gender := ParseGender(p.passengerGender);
      var coachType := ParseCoachType(p.coachType);
      if gender.None? || coachType.None? {
        return Err(TicketService.InvalidTicket(i));
      }
      if TicketService.PnrInUse(tickets + issued, pnrs[i]) {
        return Err(TicketService.DuplicatePnr(pnrs[i]));
      }
      var ticket := Ticket(userId, pnrs[i], train.trainNumber, req.journeyDate, p.passengerName, gender.value,
                           p.coachNumber, coachType.value, p.seatNumber, TicketService.Fare(train, p.coachType),
                           TicketConfirmed, None);
      res := Ok(TicketService.Work(claimed.value, issued + [ticket]));
    }

    /**
     * `bookTickets`: inside one transaction, run the per-passenger step for
     * each passenger in order, then create the booking and commit. Any
     * failure aborts: nothing is written.
     */
    method BookTickets(userId: string, req: TicketService.BookingRequest, pnrs: seq<string>, now: int)
      returns (r: Result<TicketService.Receipt, TicketService.BookingError>)
      requires |pnrs| == |req.passengers|
      modifies this
      ensures var spec := TicketService.Book(old(State()), userId, req, pnrs, now);
        && (spec.Ok? ==> r == Ok(spec.value.receipt) && State() == spec.value.db)
        && (spec.Err? ==> r == Err(spec.error) && State() == old(State()))
      ensures old(Valid()) ==> Valid()
    {
      ghost var before := State();
      var found := TrainService.GetTrainByTrainNumber(trains, req.trainNumber);
      if found.None? {
        return Err(TicketService.TrainNotFound);
      }
      var train := found.value;
      var ledger := coaches;
      var issued: seq<Ticket> := [];
      var i := 0;
      while i < |req.passengers|
        invariant 0 <= i <= |req.passengers|
        invariant State() == before
        invariant TicketService.IssueFirst(before, train, req, userId, pnrs, i) == Ok(TicketService.Work(ledger, issued))
      {
        var step := IssueTicket(train, req, userId, pnrs, i, ledger, issued);
        assert TicketService.IssueFirst(before, train, req, userId, pnrs, i + 1) == step;
        if step.Err? {
          TicketService.FailureSticks(before, train, req, userId, pnrs, i + 1, |req.passengers|);
          return Err(step.error);
        }
        ledger, issued := step.value.coaches, step.value.issued;
        i := i + 1;
      }
      assert TicketService.Book(before, userId, req, pnrs, now).Ok?;
      var totalAmount := TotalFare(issued);
      var booking := Booking(userId, TicketService.Positions(|tickets|, |issued|), totalAmount, Paid, now,
                             BookingConfirmed);
      coaches := ledger;
      tickets := tickets + issued;
      bookings := bookings + [booking];
      r := Ok(TicketService.Receipt(booking, issued));
      if StoreInvariants.Valid(before) {
        StoreInvariants.BookTicketsKeepsValid(before, userId, req, pnrs, now);
      }
    }
  }
}
