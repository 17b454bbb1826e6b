/**
 * What the store keeps true across every write the services make, starting
 * from an empty database: unique train numbers, unique coach numbers and
 * seat numbers, at most one journey per train and date, unique ticket
 * references, and a seat ledger that agrees with the tickets (a seat's flag
 * is cleared exactly when a ticket holds that seat, and no seat is on two
 * tickets).
 */
module StoreInvariants {
  import opened Models
  import opened SeatLedger
  import TrainService
  import CoachService
  import TrainInstanceService
  import TicketService

  /** The seat each ticket holds, ticket by ticket. */
  function TicketKeys(tickets: seq<Ticket>): (keys: seq<SeatKey>)
    ensures |keys| == |tickets| && forall i :: 0 <= i < |tickets| ==> keys[i] == TicketService.TicketKey(tickets[i])
  {
    seq(|tickets|, i requires 0 <= i < |tickets| => TicketService.TicketKey(tickets[i]))
  }

  /** Every ticket's seat is taken, no two tickets hold the same seat, and every taken seat is on a ticket. */
  ghost predicate SeatsMatchTickets(coaches: seq<Coach>, tickets: seq<Ticket>) {
    var keys := TicketKeys(tickets);
    && TicketService.AllHaveStatus(coaches, keys, Taken)
    && TicketService.Distinct(keys)
    && forall k :: Status(coaches, k) == Taken ==> k in keys
  }

  ghost predicate Valid(db: Db) {
    && TrainService.TrainNumbersUnique(db.trains)
    && LedgerWellFormed(db.coaches)
    && TrainInstanceService.InstancesUnique(db.instances)
    && TicketService.PnrsUnique(db.tickets)
    && SeatsMatchTickets(db.coaches, db.tickets)
  }

  /** One call of a service that writes to the store. */
  datatype Op =
    | AddTrain(train: Train)
    | AddCoach(coachNumber: string, trainNumber: string, coachType: string)
    | UpdateTrainInstances(trainNumber: string, coachNumber: string, summaryType: CoachType, seats: seq<Seat>, now: int)
    | CreateTrainInstance(req: TrainInstanceService.InstanceRequest)
    | BookTickets(userId: string, booking: TicketService.BookingRequest, pnrs: seq<string>, now: int)

  /** A booking call is given one reference string per passenger; whether they are unused is the call's to check. */
  predicate WellFormedOp(op: Op) {
    op.BookTickets? ==> |op.pnrs| == |op.booking.passengers|
  }

  /** The store after one call; a call that fails leaves it as it was. */
  function Apply(db: Db, op: Op): Db
    requires WellFormedOp(op)
  {
    match op
    case AddTrain(train) =>
      (match TrainService.AddTrainTo(db.trains, train)
       case Ok(trains) => db.(trains := trains)
       case Err(_) => db)
    case AddCoach(coachNumber, trainNumber, coachType) =>
      (match CoachService.AddCoachTo(db.coaches, coachNumber, trainNumber, coachType)
       case Ok(coaches) => db.(coaches := coaches)
       case Err(_) => db)
    case UpdateTrainInstances(trainNumber, coachNumber, summaryType, seats, now) =>
      db.(instances := CoachService.UpdateTrainInstances(db.instances, trainNumber, coachNumber, summaryType, seats, now))
    case CreateTrainInstance(req) =>
      (match TrainInstanceService.CreateTrainInstance(db.trains, db.instances, req)
       case Ok(instances) => db.(instances := instances)
       case Err(_) => db)
    case BookTickets(userId, booking, pnrs, now) =>
      (match TicketService.Book(db, userId, booking, pnrs, now)
       case Ok(booked) => booked.db
       case Err(_) => db)
  }

  /** The store after a sequence of calls, in order. */
  function Run(db: Db, ops: seq<Op>): Db
    requires forall i :: 0 <= i < |ops| ==> WellFormedOp(ops[i])
    decreases |ops|
  {
    if ops == [] then db else Run(Apply(db, ops[0]), ops[1..])
  }

  /** A seat list with every flag set holds no taken seat. */
  lemma {:induction false} AvailableSeatsNeverTaken(seats: seq<Seat>, n: int)
    requires forall i :: 0 <= i < |seats| ==> seats[i].isAvailable
    ensures SeatStatusIn(seats, n) != Taken
  {
    if seats != [] && seats[0].seatNumber != n {
      assert forall i :: 0 <= i < |seats[1..]| ==> seats[1..][i] == seats[i + 1];
      AvailableSeatsNeverTaken(seats[1..], n);
    }
  }

  /** Appending a coach whose seats are all available takes no seat and frees none. */
  lemma {:induction false} AppendFreeCoach(coaches: seq<Coach>, c: Coach, k: SeatKey)
    requires forall i :: 0 <= i < |c.seats| ==> c.seats[i].isAvailable
    ensures Status(coaches + [c], k) == Taken <==> Status(coaches, k) == Taken
  {
    if coaches == [] {
      AvailableSeatsNeverTaken(c.seats, k.seatNumber);
      assert Status([c][1..], k) == Missing;
    } else {
      assert (coaches + [c])[1..] == coaches[1..] + [c];
      AppendFreeCoach(coaches[1..], c, k);
    }
  }

  lemma AddCoachKeepsValid(db: Db, coachNumber: string, trainNumber: string, coachType: string)
    requires Valid(db)
    ensures Valid(Apply(db, AddCoach(coachNumber, trainNumber, coachType)))
  {
    var r := CoachService.AddCoachTo(db.coaches, coachNumber, trainNumber, coachType);
    if r.Ok? {
      var coaches := r.value;
      var c := coaches[|db.coaches|];
      assert coaches == db.coaches + [c];
      forall k ensures Status(coaches, k) == Taken <==> Status(db.coaches, k) == Taken {
        AppendFreeCoach(db.coaches, c, k);
      }
    }
  }

  lemma CreateTrainInstanceKeepsValid(db: Db, req: TrainInstanceService.InstanceRequest)
    requires Valid(db)
    ensures Valid(Apply(db, CreateTrainInstance(req)))
  {
  }

  lemma UpdateTrainInstancesKeepsValid(db: Db, trainNumber: string, coachNumber: string, summaryType: CoachType,
                                      seats: seq<Seat>, now: int)
    requires Valid(db)
    ensures Valid(Apply(db, UpdateTrainInstances(trainNumber, coachNumber, summaryType, seats, now)))
  {
    var after := CoachService.UpdateTrainInstances(db.instances, trainNumber, coachNumber, summaryType, seats, now);
    assert forall i :: 0 <= i < |after| ==>
      after[i].trainNumber == db.instances[i].trainNumber && after[i].journeyDate == db.instances[i].journeyDate;
  }

  /**
   * The ledger/ticket agreement survives a request's claims: the claimed
   * seats were free, so none was on a ticket, and they are the new tickets'
   * seats.
   */
  lemma ClaimsKeepSeatsMatching(before: seq<Coach>, after: seq<Coach>, held: seq<SeatKey>, claimed: seq<SeatKey>)
    requires TicketService.AllHaveStatus(before, held, Taken) && TicketService.Distinct(held)
    requires forall k :: Status(before, k) == Taken ==> k in held
    requires TicketService.AllHaveStatus(before, claimed, Free) && TicketService.AllHaveStatus(after, claimed, Taken)
    requires TicketService.Distinct(claimed) && TicketService.UnchangedOutside(before, after, claimed)
    ensures var keys := held + claimed;
      && TicketService.AllHaveStatus(after, keys, Taken) && TicketService.Distinct(keys)
      && forall k :: Status(after, k) == Taken ==> k in keys
  {
    var keys := held + claimed;
    forall i, j | 0 <= i < |held| && 0 <= j < |claimed| ensures held[i] != claimed[j] {
      assert Status(before, held[i]) == Taken && Status(before, claimed[j]) == Free;
    }
    forall i | 0 <= i < |held| ensures Status(after, held[i]) == Taken {
      assert held[i] !in claimed;
    }
    forall i | 0 <= i < |keys| ensures Status(after, keys[i]) == Taken {
      if i >= |held| {
        assert keys[i] == claimed[i - |held|];
      }
    }
    forall i, j | 0 <= i < j < |keys| ensures keys[i] != keys[j] {
      if j >= |held| && i < |held| {
        assert keys[j] == claimed[j - |held|];
      } else if i >= |held| {
        assert keys[i] == claimed[i - |held|] && keys[j] == claimed[j - |held|];
      }
    }
    forall k | Status(after, k) == Taken ensures k in keys {
      if k !in claimed {
        assert Status(before, k) == Taken;
      }
    }
  }

  /** References stay unique when each new ticket carries a fresh reference of its own. */
  lemma FreshPnrsKeepUnique(tickets: seq<Ticket>, issued: seq<Ticket>)
    requires TicketService.PnrsUnique(tickets)
    requires forall j :: 0 <= j < |issued| ==> !TicketService.PnrInUse(tickets, issued[j].pnrNumber)
    requires forall i, j :: 0 <= i < j < |issued| ==> issued[i].pnrNumber != issued[j].pnrNumber
    ensures TicketService.PnrsUnique(tickets + issued)
  {
    var all := tickets + issued;
    forall i, j | 0 <= i < j < |all| ensures all[i].pnrNumber != all[j].pnrNumber {
      if i < |tickets| && j >= |tickets| {
        assert all[j] == issued[j - |tickets|];
        assert !TicketService.PnrInUse(tickets, issued[j - |tickets|].pnrNumber);
      } else if i >= |tickets| {
        assert all[i] == issued[i - |tickets|] && all[j] == issued[j - |tickets|];
      }
    }
  }

  /** After a booking the tickets are the old ones and then the request's, holding the request's seats and references. */
  lemma BookedTicketKeys(db: Db, userId: string, req: TicketService.BookingRequest, pnrs: seq<string>, now: int)
    requires |pnrs| == |req.passengers|
    requires TicketService.Book(db, userId, req, pnrs, now).Ok?
    ensures var booked := TicketService.Book(db, userId, req, pnrs, now).value;
      && booked.db.tickets == db.tickets + booked.receipt.tickets
      && TicketKeys(booked.db.tickets) == TicketKeys(db.tickets) + TicketService.Keys(req.trainNumber, req.passengers)
      && forall j :: 0 <= j < |booked.receipt.tickets| ==> booked.receipt.tickets[j].pnrNumber == pnrs[j]
  {
    var booked := TicketService.Book(db, userId, req, pnrs, now).value;
    var after, issued := booked.db, booked.receipt.tickets;
    var train := TrainService.GetTrainByTrainNumber(db.trains, req.trainNumber).value;
    TicketService.BookedTickets(db, userId, req, pnrs, now);
    assert after.tickets == after.tickets[..|db.tickets|] + after.tickets[|db.tickets|..];
    var claimed := TicketService.Keys(req.trainNumber, req.passengers);
    forall j | 0 <= j < |issued|
      ensures TicketService.TicketKey(issued[j]) == claimed[j] && issued[j].pnrNumber == pnrs[j]
    {
      assert TicketService.TicketFor(issued[j], train, req, userId, pnrs, j);
    }
    assert TicketKeys(after.tickets) == TicketKeys(db.tickets) + claimed;
  }

  lemma BookTicketsKeepsValid(db: Db, userId: string, req: TicketService.BookingRequest, pnrs: seq<string>, now: int)
    requires Valid(db) && |pnrs| == |req.passengers|
    ensures var r := TicketService.Book(db, userId, req, pnrs, now); r.Ok? ==> Valid(r.value.db)
  {
    var r := TicketService.Book(db, userId, req, pnrs, now);
    if r.Ok? {
      var after := r.value.db;
      var issued := r.value.receipt.tickets;
      var train := TrainService.GetTrainByTrainNumber(db.trains, req.trainNumber).value;
      TicketService.BookingClaimsExactlyTheSeats(db, userId, req, pnrs, now);
      TicketService.RequestPnrsFresh(db, train, req, userId, pnrs, |req.passengers|);
      BookedTicketKeys(db, userId, req, pnrs, now);
      ClaimsKeepSeatsMatching(db.coaches, after.coaches, TicketKeys(db.tickets),
                              TicketService.Keys(req.trainNumber, req.passengers));
      FreshPnrsKeepUnique(db.tickets, issued);
    }
  }

  /**
   * Booking and lookup round trip: after a booking on a valid store, looking
   * up the reference a passenger got finds that passenger's ticket, and only it.
   */
  lemma BookedReferencesFindTheirTickets(db: Db, userId: string, req: TicketService.BookingRequest, pnrs: seq<string>,
                                         now: int)
    requires Valid(db) && |pnrs| == |req.passengers|
    requires TicketService.Book(db, userId, req, pnrs, now).Ok?
    ensures var booked := TicketService.Book(db, userId, req, pnrs, now).value;
      var after := booked.db;
      forall j :: 0 <= j < |req.passengers| ==>
        && after.tickets[|db.tickets| + j] == booked.receipt.tickets[j]
        && TicketService.GetTicketByPnrNumber(after.tickets, after.trains, pnrs[j])
             == [TicketService.View(booked.receipt.tickets[j], after.trains)]
  {
    var booked := TicketService.Book(db, userId, req, pnrs, now).value;
    var after := booked.db;
    BookTicketsKeepsValid(db, userId, req, pnrs, now);
    BookedTicketKeys(db, userId, req, pnrs, now);
    forall j | 0 <= j < |req.passengers|
      ensures after.tickets[|db.tickets| + j] == booked.receipt.tickets[j]
      ensures TicketService.GetTicketByPnrNumber(after.tickets, after.trains, pnrs[j])
                == [TicketService.View(booked.receipt.tickets[j], after.trains)]
    {
      assert after.tickets[|db.tickets| + j] == after.tickets[|db.tickets|..][j];
      TicketService.LookupFindsTheTicket(after.tickets, after.trains, |db.tickets| + j);
    }
  }

  /** Every call keeps the store valid, whether it succeeds or fails. */
  lemma ApplyKeepsValid(db: Db, op: Op)
    requires Valid(db) && WellFormedOp(op)
    ensures Valid(Apply(db, op))
  {
    match op
    case AddTrain(_) =>
    case AddCoach(coachNumber, trainNumber, coachType) => AddCoachKeepsValid(db, coachNumber, trainNumber, coachType);
    case UpdateTrainInstances(trainNumber, coachNumber, summaryType, seats, now) =>
      UpdateTrainInstancesKeepsValid(db, trainNumber, coachNumber, summaryType, seats, now);
    case CreateTrainInstance(req) => CreateTrainInstanceKeepsValid(db, req);
    case BookTickets(userId, booking, pnrs, now) => BookTicketsKeepsValid(db, userId, booking, pnrs, now);
  }

  lemma {:induction false} RunKeepsValid(db: Db, ops: seq<Op>)
    requires Valid(db) && forall i :: 0 <= i < |ops| ==> WellFormedOp(ops[i])
    ensures Valid(Run(db, ops))
    decreases |ops|
  {
    if ops != [] {
      ApplyKeepsValid(db, ops[0]);
      assert forall i :: 0 <= i < |ops[1..]| ==> ops[1..][i] == ops[i + 1];
      RunKeepsValid(Apply(db, ops[0]), ops[1..]);
    }
  }

  /**
   * Over any sequence of calls from an empty store, every seat is on at
   * most one ticket, a seat's flag is cleared exactly when a ticket holds
   * it, and ticket references, coach numbers and train numbers stay unique.
   */
  lemma ReachableStoresValid(ops: seq<Op>)
    requires forall i :: 0 <= i < |ops| ==> WellFormedOp(ops[i])
    ensures Valid(Run(EmptyDb, ops))
    ensures var db := Run(EmptyDb, ops);
      forall i, j :: 0 <= i < j < |db.tickets| ==> TicketService.TicketKey(db.tickets[i]) != TicketService.TicketKey(db.tickets[j])
  {
    RunKeepsValid(EmptyDb, ops);
    var db := Run(EmptyDb, ops);
    var keys := TicketKeys(db.tickets);
    forall i, j | 0 <= i < j < |db.tickets|
      ensures TicketService.TicketKey(db.tickets[i]) != TicketService.TicketKey(db.tickets[j])
    {
      assert keys[i] != keys[j];
    }
  }
}
