/**
 * Ticket booking and ticket queries (src/services/ticket.service.js).
 *
 * `Book` is the booking transaction as one all-or-nothing step on the store:
 * resolve the train, then passenger by passenger claim the seat, price the
 * ticket and create it, then create one booking over all the tickets. Any
 * failure discards every write of the request. Passengers are processed in
 * list order; each ticket gets its reference from `pnrs`, one string per
 * passenger; a reference already in use fails the request.
 */
module TicketService {
  import opened Models
  import opened SeatLedger
  import opened Sorting
  import TrainService

  datatype Passenger = Passenger(
    passengerName: string,
    passengerGender: string,
    coachNumber: string,
    coachType: string,
    seatNumber: int)

  datatype BookingRequest = BookingRequest(trainNumber: string, journeyDate: int, passengers: seq<Passenger>)

  datatype BookingError =
    | TrainNotFound                                   // "Train not found"
    | SeatNotAvailable(seatNumber: int, coachNumber: string)
                                                      // "Seat S in coach C is not available"
    | InvalidTicket(passengerIndex: nat)              // the ticket schema rejects gender or coach type
    | DuplicatePnr(pnrNumber: string)                 // the unique index on ticket references

  /** What a successful call returns: the booking and its tickets. */
  datatype Receipt = Receipt(booking: Booking, tickets: seq<Ticket>)

  datatype Booked = Booked(db: Db, receipt: Receipt)

  /** The fare follows the coach type the passenger declared, never the coach record. */
  function Fare(train: Train, declaredType: string): (fare: nat)
    ensures declaredType == "AC" ==> fare == train.acTicketFare
    ensures declaredType != "AC" ==> fare == train.sleeperTicketFare
  {
    if declaredType == "AC" then train.acTicketFare else train.sleeperTicketFare
  }

  function PassengerKey(trainNumber: string, p: Passenger): SeatKey {
    SeatKey(trainNumber, p.coachNumber, p.seatNumber)
  }

  function TicketKey(t: Ticket): SeatKey {
    SeatKey(t.trainNumber, t.coachNumber, t.seatNumber)
  }

  predicate PnrInUse(tickets: seq<Ticket>, pnr: string) {
    exists i :: 0 <= i < |tickets| && tickets[i].pnrNumber == pnr
  }

  /** The ticket schema accepts the passenger's gender and declared coach type. */
  predicate PassengerValid(p: Passenger) {
    ParseGender(p.passengerGender).Some? && ParseCoachType(p.coachType).Some?
  }

  /** The writes of the request so far: the ledger as claimed, the tickets created. */
  datatype Work = Work(coaches: seq<Coach>, issued: seq<Ticket>)

  /** The ticket the `j`-th passenger gets: that passenger's data, the request's train and date, that fare. */
  predicate TicketFor(t: Ticket, train: Train, req: BookingRequest, userId: string, pnrs: seq<string>, j: nat)
    requires j < |req.passengers| && |pnrs| == |req.passengers|
  {
    var p := req.passengers[j];
    && t.userId == userId && t.pnrNumber == pnrs[j]
    && t.trainNumber == train.trainNumber && t.journeyDate == req.journeyDate
    && t.passengerName == p.passengerName && ParseGender(p.passengerGender) == Some(t.passengerGender)
    && t.coachNumber == p.coachNumber && ParseCoachType(p.coachType) == Some(t.coachType)
    && t.seatNumber == p.seatNumber && t.ticketFare == Fare(train, p.coachType)
    && t.bookingStatus == TicketConfirmed && t.cancellationTimestamp == None
  }

  /**
   * One passenger: claim the seat, then create the ticket, which the schema
   * validates before the unique index on its reference is consulted.
   */
  function IssueOne(db: Db, train: Train, req: BookingRequest, userId: string, pnrs: seq<string>, i: nat, w: Work)
    : (r: Result<Work, BookingError>)
    requires i < |req.passengers| && |pnrs| == |req.passengers|
    ensures ClaimSeat(w.coaches, PassengerKey(train.trainNumber, req.passengers[i])).None? ==>
      r == Err(SeatNotAvailable(req.passengers[i].seatNumber, req.passengers[i].coachNumber))
    ensures ClaimSeat(w.coaches, PassengerKey(train.trainNumber, req.passengers[i])).Some? ==>
      && (!PassengerValid(req.passengers[i]) ==> r == Err(InvalidTicket(i)))
      && (PassengerValid(req.passengers[i]) && PnrInUse(db.tickets + w.issued, pnrs[i]) ==> r == Err(DuplicatePnr(pnrs[i])))
      && (PassengerValid(req.passengers[i]) && !PnrInUse(db.tickets + w.issued, pnrs[i]) ==> r.Ok?)
    ensures r.Ok? ==> ClaimSeat(w.coaches, PassengerKey(train.trainNumber, req.passengers[i])) == Some(r.value.coaches)
    ensures r.Ok? ==> && |r.value.issued| == |w.issued| + 1 && r.value.issued[..|w.issued|] == w.issued
                      && TicketFor(r.value.issued[|w.issued|], train, req, userId, pnrs, i)
    ensures r.Ok? ==> !PnrInUse(db.tickets + w.issued, pnrs[i])
    ensures r.Err? ==> !r.error.TrainNotFound?
  {
    var p := req.passengers[i];
    match ClaimSeat(w.coaches, PassengerKey(train.trainNumber, p))
    case None => Err(SeatNotAvailable(p.seatNumber, p.coachNumber))
    case Some(claimed) =>
      var gender := ParseGender(p.passengerGender);
      var coachType := ParseCoachType(p.coachType);
      if gender.None? || coachType.None? then Err(InvalidTicket(i))
      else if PnrInUse(db.tickets + w.issued, pnrs[i]) then Err(DuplicatePnr(pnrs[i]))
      else
        var ticket := Ticket(userId, pnrs[i], train.trainNumber, req.journeyDate, p.passengerName, gender.value,
                             p.coachNumber, coachType.value, p.seatNumber, Fare(train, p.coachType),
                             TicketConfirmed, None);
        var issued := w.issued + [ticket];
        assert issued[..|w.issued|] == w.issued;
        Ok(Work(claimed, issued))
  }

  /** The first `n` passengers, in order; the first failure ends the request. */
  function IssueFirst(db: Db, train: Train, req: BookingRequest, userId: string, pnrs: seq<string>, n: nat)
    : (r: Result<Work, BookingError>)
    requires n <= |req.passengers| && |pnrs| == |req.passengers|
    ensures r.Ok? ==> |r.value.issued| == n
    ensures r.Err? ==> !r.error.TrainNotFound?
  {
    if n == 0 then Ok(Work(db.coaches, []))
    else match IssueFirst(db, train, req, userId, pnrs, n - 1)
      case Err(e) => Err(e)
      case Ok(w) => IssueOne(db, train, req, userId, pnrs, n - 1, w)
  }

  /** The total of the fares, added up in ticket order. */
  function SumFares(tickets: seq<Ticket>): (total: nat)
    ensures tickets == [] ==> total == 0
    ensures forall i :: 0 <= i < |tickets| ==> tickets[i].ticketFare <= total
  {
    if tickets == [] then 0
    else
      var init := tickets[..|tickets| - 1];
      assert forall i :: 0 <= i < |init| ==> init[i] == tickets[i];
      SumFares(init) + tickets[|tickets| - 1].ticketFare
  }

  /** A single ticket totals its own fare. */
  lemma SumFaresSingle(t: Ticket)
    ensures SumFares([t]) == t.ticketFare
  {
    assert [t][..0] == [];
  }

  /** The total of two ticket lists laid end to end is the sum of their totals. */
  lemma {:induction false} SumFaresAppend(a: seq<Ticket>, b: seq<Ticket>)
    ensures SumFares(a + b) == SumFares(a) + SumFares(b)
  {
    if b == [] {
      assert a + b == a;
    } else {
      var ab, init := a + b, b[..|b| - 1];
      assert ab[..|ab| - 1] == a + init;
      assert ab[|ab| - 1] == b[|b| - 1];
      SumFaresAppend(a, init);
      assert SumFares(ab) == SumFares(a + init) + b[|b| - 1].ticketFare;
      assert SumFares(b) == SumFares(init) + b[|b| - 1].ticketFare;
    }
  }

  /** Positions `from`, `from + 1`, ... of `n` consecutive documents. */
  function Positions(from: nat, n: nat): (ids: seq<nat>)
    ensures |ids| == n && forall j :: 0 <= j < n ==> ids[j] == from + j
  {
    seq(n, j requires 0 <= j < n => from + j)
  }

  /**
   * The booking transaction. On success the new store holds the claimed
   * ledger, the old tickets followed by one ticket per passenger, and the
   * old bookings followed by the new booking, stamped `now`; the journeys
   * and their availability summaries are left as they were.
   */
  function Book(db: Db, userId: string, req: BookingRequest, pnrs: seq<string>, now: int)
    : (r: Result<Booked, BookingError>)
    requires |pnrs| == |req.passengers|
    ensures r == Err(TrainNotFound) <==> TrainService.GetTrainByTrainNumber(db.trains, req.trainNumber).None?
    ensures r.Ok? ==> var after := r.value.db;
      && after.trains == db.trains && after.instances == db.instances
      && |after.tickets| == |db.tickets| + |req.passengers| && after.tickets[..|db.tickets|] == db.tickets
      && after.tickets[|db.tickets|..] == r.value.receipt.tickets
      && after.bookings == db.bookings + [r.value.receipt.booking]
  {
    match TrainService.GetTrainByTrainNumber(db.trains, req.trainNumber)
    case None => Err(TrainNotFound)
    case Some(train) =>
      match IssueFirst(db, train, req, userId, pnrs, |req.passengers|)
      case Err(e) => Err(e)
      case Ok(w) =>
        var booking := Booking(userId, Positions(|db.tickets|, |w.issued|), SumFares(w.issued), Paid, now,
                               BookingConfirmed);
        var tickets := db.tickets + w.issued;
        assert tickets[..|db.tickets|] == db.tickets && tickets[|db.tickets|..] == w.issued;
        Ok(Booked(db.(coaches := w.coaches, tickets := tickets, bookings := db.bookings + [booking]),
                  Receipt(booking, w.issued)))
  }

  /**
   * A request that got through `n` passengers got through the first `n - 1`;
   * the `n`-th claimed its seat on the ledger they left and appended its
   * ticket, whose reference no earlier ticket carries.
   */
  lemma IssueStep(db: Db, train: Train, req: BookingRequest, userId: string, pnrs: seq<string>, n: nat)
    requires 0 < n <= |req.passengers| && |pnrs| == |req.passengers|
    requires IssueFirst(db, train, req, userId, pnrs, n).Ok?
    ensures IssueFirst(db, train, req, userId, pnrs, n - 1).Ok?
    ensures var w := IssueFirst(db, train, req, userId, pnrs, n - 1).value;
      var w' := IssueFirst(db, train, req, userId, pnrs, n).value;
      && ClaimSeat(w.coaches, PassengerKey(train.trainNumber, req.passengers[n - 1])) == Some(w'.coaches)
      && w'.issued[..n - 1] == w.issued
      && TicketFor(w'.issued[n - 1], train, req, userId, pnrs, n - 1)
      && !PnrInUse(db.tickets + w.issued, pnrs[n - 1])
  {
  }

  /** Once a passenger fails, the whole request fails with that passenger's error. */
  lemma {:induction false} FailureSticks(db: Db, train: Train, req: BookingRequest, userId: string,
                                         pnrs: seq<string>, n: nat, m: nat)
    requires n <= m <= |req.passengers| && |pnrs| == |req.passengers|
    requires IssueFirst(db, train, req, userId, pnrs, n).Err?
    ensures IssueFirst(db, train, req, userId, pnrs, m) == IssueFirst(db, train, req, userId, pnrs, n)
    decreases m - n
  {
    if n < m {
      FailureSticks(db, train, req, userId, pnrs, n, m - 1);
    }
  }

  /** One ticket per passenger processed, in passenger order. */
  lemma {:induction false} IssuedInPassengerOrder(db: Db, train: Train, req: BookingRequest, userId: string,
                                                  pnrs: seq<string>, n: nat)
    requires n <= |req.passengers| && |pnrs| == |req.passengers|
    requires IssueFirst(db, train, req, userId, pnrs, n).Ok?
    ensures var issued := IssueFirst(db, train, req, userId, pnrs, n).value.issued;
      forall j :: 0 <= j < n ==> TicketFor(issued[j], train, req, userId, pnrs, j)
  {
    if n > 0 {
      IssueStep(db, train, req, userId, pnrs, n);
      IssuedInPassengerOrder(db, train, req, userId, pnrs, n - 1);
      var before := IssueFirst(db, train, req, userId, pnrs, n - 1).value.issued;
      var issued := IssueFirst(db, train, req, userId, pnrs, n).value.issued;
      assert forall j :: 0 <= j < n - 1 ==> issued[j] == before[j] by {
        assert issued[..n - 1] == before;
      }
    }
  }

  /** The seats a request names, passenger by passenger. */
  function Keys(trainNumber: string, ps: seq<Passenger>): (keys: seq<SeatKey>)
    ensures |keys| == |ps| && forall j :: 0 <= j < |ps| ==> keys[j] == PassengerKey(trainNumber, ps[j])
  {
    seq(|ps|, j requires 0 <= j < |ps| => PassengerKey(trainNumber, ps[j]))
  }

  predicate AllHaveStatus(coaches: seq<Coach>, keys: seq<SeatKey>, st: SeatStatus) {
    forall j :: 0 <= j < |keys| ==> Status(coaches, keys[j]) == st
  }

  predicate Distinct(keys: seq<SeatKey>) {
    forall i, j :: 0 <= i < j < |keys| ==> keys[i] != keys[j]
  }

  /** Every seat not in `keys` has the same status in both ledgers. */
  ghost predicate UnchangedOutside(a: seq<Coach>, b: seq<Coach>, keys: seq<SeatKey>) {
    forall k :: k !in keys ==> Status(b, k) == Status(a, k)
  }

  /**
   * One more successful claim keeps the account of a request's claims: the
   * new seat was free before the request and is distinct from the earlier
   * ones, and every named seat is taken afterwards.
   */
  lemma ExtendClaims(before: seq<Coach>, w: seq<Coach>, after: seq<Coach>, earlier: seq<SeatKey>, key: SeatKey)
    requires LedgerWellFormed(before) && SameLayout(before, w)
    requires AllHaveStatus(before, earlier, Free) && AllHaveStatus(w, earlier, Taken)
    requires Distinct(earlier) && UnchangedOutside(before, w, earlier)
    requires ClaimSeat(w, key) == Some(after)
    ensures var keys := earlier + [key];
      && SameLayout(before, after)
      && AllHaveStatus(before, keys, Free) && AllHaveStatus(after, keys, Taken)
      && Distinct(keys) && UnchangedOutside(before, after, keys)
  {
    var keys := earlier + [key];
    SameLayoutKeepsWellFormed(before, w);
    ClaimTakesOnlyThatSeat(w, key, after);
    SameLayoutTransitive(before, w, after);
    assert key !in earlier by {
      forall j | 0 <= j < |earlier| ensures earlier[j] != key {
        assert Status(w, earlier[j]) == Taken;
      }
    }
    assert Status(before, key) == Free;
    forall k | k !in keys ensures Status(after, k) == Status(before, k) {
      assert k != key && k !in earlier;
    }
    assert AllHaveStatus(after, keys, Taken) by {
      forall j | 0 <= j < |keys| ensures Status(after, keys[j]) == Taken {
        if j < |earlier| {
          assert keys[j] == earlier[j] != key;
        }
      }
    }
  }

  /**
   * What the claims of the first `n` passengers did to the ledger: every
   * passenger's seat was free before the request, the seats are pairwise
   * distinct, they are all taken now, and no other seat changed status.
   */
  lemma {:induction false} ClaimsOfRequest(db: Db, train: Train, req: BookingRequest, userId: string,
                                           pnrs: seq<string>, n: nat)
    requires n <= |req.passengers| && |pnrs| == |req.passengers|
    requires LedgerWellFormed(db.coaches)
    requires IssueFirst(db, train, req, userId, pnrs, n).Ok?
    ensures var w := IssueFirst(db, train, req, userId, pnrs, n).value;
      var keys := Keys(train.trainNumber, req.passengers)[..n];
      && SameLayout(db.coaches, w.coaches)
      && AllHaveStatus(db.coaches, keys, Free)
      && AllHaveStatus(w.coaches, keys, Taken)
      && Distinct(keys)
      && UnchangedOutside(db.coaches, w.coaches, keys)
  {
    if n > 0 {
      IssueStep(db, train, req, userId, pnrs, n);
      ClaimsOfRequest(db, train, req, userId, pnrs, n - 1);
      var w := IssueFirst(db, train, req, userId, pnrs, n - 1).value.coaches;
      var after := IssueFirst(db, train, req, userId, pnrs, n).value.coaches;
      var all := Keys(train.trainNumber, req.passengers);
      assert all[n - 1] == PassengerKey(train.trainNumber, req.passengers[n - 1]);
      ExtendClaims(db.coaches, w, after, all[..n - 1], all[n - 1]);
      assert all[..n] == all[..n - 1] + [all[n - 1]];
    }
  }

  /**
   * What a successful booking did to the seat ledger: the layout is the
   * same, every seat the passengers named was free before and is taken now,
   * no seat was named twice, and every other seat kept its status.
   */
  lemma BookingClaimsExactlyTheSeats(db: Db, userId: string, req: BookingRequest, pnrs: seq<string>, now: int)
    requires |pnrs| == |req.passengers| && LedgerWellFormed(db.coaches)
    requires Book(db, userId, req, pnrs, now).Ok?
    ensures var after := Book(db, userId, req, pnrs, now).value.db.coaches;
      var keys := Keys(req.trainNumber, req.passengers);
      && SameLayout(db.coaches, after) && LedgerWellFormed(after)
      && AllHaveStatus(db.coaches, keys, Free) && AllHaveStatus(after, keys, Taken)
      && Distinct(keys) && UnchangedOutside(db.coaches, after, keys)
  {
    var train := TrainService.GetTrainByTrainNumber(db.trains, req.trainNumber).value;
    var all := Keys(train.trainNumber, req.passengers);
    ClaimsOfRequest(db, train, req, userId, pnrs, |req.passengers|);
    assert all[..|req.passengers|] == all;
    SameLayoutKeepsWellFormed(db.coaches, Book(db, userId, req, pnrs, now).value.db.coaches);
  }

  /** A seat named twice in one request makes the whole request fail. */
  lemma RepeatedSeatFails(db: Db, userId: string, req: BookingRequest, pnrs: seq<string>, now: int, i: nat, j: nat)
    requires |pnrs| == |req.passengers| && LedgerWellFormed(db.coaches)
    requires i < j < |req.passengers|
    requires req.passengers[i].coachNumber == req.passengers[j].coachNumber
    requires req.passengers[i].seatNumber == req.passengers[j].seatNumber
    ensures Book(db, userId, req, pnrs, now).Err?
  {
    if Book(db, userId, req, pnrs, now).Ok? {
      BookingClaimsExactlyTheSeats(db, userId, req, pnrs, now);
    }
  }

  /** A seat that is missing or already taken makes the whole request fail. */
  lemma UnavailableSeatFails(db: Db, userId: string, req: BookingRequest, pnrs: seq<string>, now: int, j: nat)
    requires |pnrs| == |req.passengers| && LedgerWellFormed(db.coaches)
    requires j < |req.passengers|
    requires Status(db.coaches, PassengerKey(req.trainNumber, req.passengers[j])) != Free
    ensures Book(db, userId, req, pnrs, now).Err?
  {
    if Book(db, userId, req, pnrs, now).Ok? {
      BookingClaimsExactlyTheSeats(db, userId, req, pnrs, now);
    }
  }

  /** No reference is carried by a stored ticket, and no two passengers get the same one. */
  predicate PnrsFresh(tickets: seq<Ticket>, pnrs: seq<string>) {
    && (forall j :: 0 <= j < |pnrs| ==> !PnrInUse(tickets, pnrs[j]))
    && (forall i, j :: 0 <= i < j < |pnrs| ==> pnrs[i] != pnrs[j])
  }

  /**
   * What a request needs to go through: the train exists, the named seats
   * are free and pairwise distinct, every passenger passes the schema, and
   * the references are unused and pairwise distinct.
   */
  predicate CanBook(db: Db, req: BookingRequest, pnrs: seq<string>) {
    var keys := Keys(req.trainNumber, req.passengers);
    && TrainService.GetTrainByTrainNumber(db.trains, req.trainNumber).Some?
    && AllHaveStatus(db.coaches, keys, Free) && Distinct(keys)
    && (forall j :: 0 <= j < |req.passengers| ==> PassengerValid(req.passengers[j]))
    && PnrsFresh(db.tickets, pnrs)
  }

  /** A seat none of the earlier claims named still has the status it had before the request. */
  lemma NextSeatStillFree(before: seq<Coach>, w: seq<Coach>, keys: seq<SeatKey>, m: nat)
    requires m < |keys| && AllHaveStatus(before, keys, Free) && Distinct(keys)
    requires UnchangedOutside(before, w, keys[..m])
    ensures Status(w, keys[m]) == Free
  {
    var prefix := keys[..m];
    forall j | 0 <= j < m ensures prefix[j] != keys[m] {
      assert prefix[j] == keys[j];
    }
    assert keys[m] !in prefix;
  }

  /** The next passenger's reference is neither stored nor on a ticket the request already created. */
  lemma NextPnrUnused(tickets: seq<Ticket>, issued: seq<Ticket>, pnrs: seq<string>)
    requires |issued| < |pnrs| && PnrsFresh(tickets, pnrs)
    requires forall j :: 0 <= j < |issued| ==> issued[j].pnrNumber == pnrs[j]
    ensures !PnrInUse(tickets + issued, pnrs[|issued|])
  {
    var seen := tickets + issued;
    forall k | 0 <= k < |seen| ensures seen[k].pnrNumber != pnrs[|issued|] {
      if k < |tickets| {
        assert seen[k] == tickets[k];
      } else {
        assert seen[k] == issued[k - |tickets|];
      }
    }
  }

  /** Passengers whose seats are free and distinct, who pass the schema and get fresh references all get through. */
  lemma {:induction false} IssueFirstSucceeds(db: Db, train: Train, req: BookingRequest, userId: string,
                                              pnrs: seq<string>, n: nat)
    requires n <= |req.passengers| && |pnrs| == |req.passengers| && LedgerWellFormed(db.coaches)
    requires AllHaveStatus(db.coaches, Keys(train.trainNumber, req.passengers), Free)
    requires Distinct(Keys(train.trainNumber, req.passengers))
    requires forall j :: 0 <= j < |req.passengers| ==> PassengerValid(req.passengers[j])
    requires PnrsFresh(db.tickets, pnrs)
    ensures IssueFirst(db, train, req, userId, pnrs, n).Ok?
  {
    if n > 0 {
      IssueFirstSucceeds(db, train, req, userId, pnrs, n - 1);
      ClaimsOfRequest(db, train, req, userId, pnrs, n - 1);
      IssuedInPassengerOrder(db, train, req, userId, pnrs, n - 1);
      var w := IssueFirst(db, train, req, userId, pnrs, n - 1).value;
      var all := Keys(train.trainNumber, req.passengers);
      NextSeatStillFree(db.coaches, w.coaches, all, n - 1);
      SameLayoutKeepsWellFormed(db.coaches, w.coaches);
      ClaimSucceedsIffFree(w.coaches, all[n - 1]);
      forall j | 0 <= j < |w.issued| ensures w.issued[j].pnrNumber == pnrs[j] {
        assert TicketFor(w.issued[j], train, req, userId, pnrs, j);
      }
      NextPnrUnused(db.tickets, w.issued, pnrs);
    }
  }

  /**
   * On a well-formed ledger a booking goes through exactly when the train
   * exists, the named seats are free and distinct, every passenger passes
   * the schema, and the references are unused and distinct.
   */
  lemma BookSucceedsIff(db: Db, userId: string, req: BookingRequest, pnrs: seq<string>, now: int)
    requires |pnrs| == |req.passengers| && LedgerWellFormed(db.coaches)
    ensures Book(db, userId, req, pnrs, now).Ok? <==> CanBook(db, req, pnrs)
  {
    var found := TrainService.GetTrainByTrainNumber(db.trains, req.trainNumber);
    if Book(db, userId, req, pnrs, now).Ok? {
      var train := found.value;
      var receipt := Book(db, userId, req, pnrs, now).value.receipt;
      BookingClaimsExactlyTheSeats(db, userId, req, pnrs, now);
      RequestPnrsFresh(db, train, req, userId, pnrs, |req.passengers|);
      BookedTickets(db, userId, req, pnrs, now);
      forall j | 0 <= j < |req.passengers| ensures PassengerValid(req.passengers[j]) {
        assert TicketFor(receipt.tickets[j], train, req, userId, pnrs, j);
      }
    }
    if CanBook(db, req, pnrs) {
      IssueFirstSucceeds(db, found.value, req, userId, pnrs, |req.passengers|);
    }
  }

  /**
   * A successful booking: one confirmed ticket per passenger in passenger
   * order, a paid and confirmed booking listing exactly the new tickets'
   * positions, with the sum of their fares as its total.
   */
  lemma BookedTickets(db: Db, userId: string, req: BookingRequest, pnrs: seq<string>, now: int)
    requires |pnrs| == |req.passengers|
    requires Book(db, userId, req, pnrs, now).Ok?
    ensures var receipt := Book(db, userId, req, pnrs, now).value.receipt;
      var train := TrainService.GetTrainByTrainNumber(db.trains, req.trainNumber).value;
      && train.trainNumber == req.trainNumber
      && |receipt.tickets| == |req.passengers|
      && (forall j :: 0 <= j < |req.passengers| ==> TicketFor(receipt.tickets[j], train, req, userId, pnrs, j))
      && receipt.booking.userId == userId
      && receipt.booking.tickets == Positions(|db.tickets|, |req.passengers|)
      && receipt.booking.totalAmount == SumFares(receipt.tickets)
      && receipt.booking.paymentStatus == Paid && receipt.booking.status == BookingConfirmed
  {
    var train := TrainService.GetTrainByTrainNumber(db.trains, req.trainNumber).value;
    IssuedInPassengerOrder(db, train, req, userId, pnrs, |req.passengers|);
  }

  /**
   * The references a request got through with: none was carried by a ticket
   * already in the store, and no two passengers got the same one.
   */
  lemma {:induction false} RequestPnrsFresh(db: Db, train: Train, req: BookingRequest, userId: string,
                                            pnrs: seq<string>, n: nat)
    requires n <= |req.passengers| && |pnrs| == |req.passengers|
    requires IssueFirst(db, train, req, userId, pnrs, n).Ok?
    ensures forall j :: 0 <= j < n ==> !PnrInUse(db.tickets, pnrs[j])
    ensures forall i, j :: 0 <= i < j < n ==> pnrs[i] != pnrs[j]
  {
    if n > 0 {
      IssueStep(db, train, req, userId, pnrs, n);
      RequestPnrsFresh(db, train, req, userId, pnrs, n - 1);
      var issued := IssueFirst(db, train, req, userId, pnrs, n - 1).value.issued;
      IssuedInPassengerOrder(db, train, req, userId, pnrs, n - 1);
      var all := db.tickets + issued;
      forall k | 0 <= k < |db.tickets| ensures db.tickets[k].pnrNumber != pnrs[n - 1] {
        assert all[k] == db.tickets[k];
      }
      forall i | 0 <= i < n - 1 ensures pnrs[i] != pnrs[n - 1] {
        assert all[|db.tickets| + i] == issued[i];
        assert TicketFor(issued[i], train, req, userId, pnrs, i);
      }
    }
  }

  /** A reference already on a stored ticket, or handed to two passengers, makes the whole request fail. */
  lemma DuplicatePnrFails(db: Db, userId: string, req: BookingRequest, pnrs: seq<string>, now: int, j: nat)
    requires |pnrs| == |req.passengers| && j < |req.passengers|
    requires PnrInUse(db.tickets, pnrs[j]) || exists i :: 0 <= i < j && pnrs[i] == pnrs[j]
    ensures Book(db, userId, req, pnrs, now).Err?
  {
    if Book(db, userId, req, pnrs, now).Ok? {
      var train := TrainService.GetTrainByTrainNumber(db.trains, req.trainNumber).value;
      RequestPnrsFresh(db, train, req, userId, pnrs, |req.passengers|);
    }
  }

  /** How many of the passengers declared an AC coach. */
  function DeclaredAc(ps: seq<Passenger>): (n: nat)
    ensures n <= |ps|
  {
    if ps == [] then 0 else DeclaredAc(ps[..|ps| - 1]) + (if ps[|ps| - 1].coachType == "AC" then 1 else 0)
  }

  /**
   * Fares priced by declared type, counted independently: the AC fare for
   * each passenger who declared "AC", the sleeper fare for everyone else.
   */
  lemma {:induction false} FaresByDeclaredType(tickets: seq<Ticket>, train: Train, ps: seq<Passenger>)
    requires |tickets| == |ps|
    requires forall j :: 0 <= j < |ps| ==> tickets[j].ticketFare == Fare(train, ps[j].coachType)
    ensures SumFares(tickets) == DeclaredAc(ps) * train.acTicketFare + (|ps| - DeclaredAc(ps)) * train.sleeperTicketFare
  {
    if ps != [] {
      var n := |ps|;
      var prefix, last := ps[..n - 1], ps[n - 1];
      FaresByDeclaredType(tickets[..n - 1], train, prefix);
      var ac := DeclaredAc(prefix);
      var fa, fs := train.acTicketFare, train.sleeperTicketFare;
      assert SumFares(tickets) == ac * fa + (n - 1 - ac) * fs + Fare(train, last.coachType);
      if last.coachType == "AC" {
        assert DeclaredAc(ps) == ac + 1;
        MultiplyStep(ac, fa);
      } else {
        assert DeclaredAc(ps) == ac;
        MultiplyStep(n - 1 - ac, fs);
      }
    }
  }

  lemma MultiplyStep(a: int, f: int)
    ensures (a + 1) * f == a * f + f
  {
  }

  /** The booking's total, counted by declared coach type. */
  lemma BookingTotal(db: Db, userId: string, req: BookingRequest, pnrs: seq<string>, now: int)
    requires |pnrs| == |req.passengers|
    requires Book(db, userId, req, pnrs, now).Ok?
    ensures var train := TrainService.GetTrainByTrainNumber(db.trains, req.trainNumber).value;
      var ac := DeclaredAc(req.passengers);
      Book(db, userId, req, pnrs, now).value.receipt.booking.totalAmount
        == ac * train.acTicketFare + (|req.passengers| - ac) * train.sleeperTicketFare
  {
    var train := TrainService.GetTrainByTrainNumber(db.trains, req.trainNumber).value;
    var receipt := Book(db, userId, req, pnrs, now).value.receipt;
    BookedTickets(db, userId, req, pnrs, now);
    forall j | 0 <= j < |req.passengers|
      ensures receipt.tickets[j].ticketFare == Fare(train, req.passengers[j].coachType)
    {
      assert TicketFor(receipt.tickets[j], train, req, userId, pnrs, j);
    }
    FaresByDeclaredType(receipt.tickets, train, req.passengers);
  }

  /** An empty passenger list is accepted: a booking with no tickets and a total of 0. */
  lemma EmptyRequestBooksNothing(db: Db, userId: string, req: BookingRequest, now: int)
    requires req.passengers == []
    requires TrainService.GetTrainByTrainNumber(db.trains, req.trainNumber).Some?
    ensures Book(db, userId, req, [], now).Ok?
    ensures Book(db, userId, req, [], now).value.receipt.tickets == []
    ensures Book(db, userId, req, [], now).value.receipt.booking.totalAmount == 0
    ensures Book(db, userId, req, [], now).value.db.coaches == db.coaches
  {
  }

  datatype TicketTrain = TicketTrain(
    trainName: string,
    sourceStationName: string,
    destinationStationName: string,
    sourceDepartureTime: string,
    journeyDuration: string)

  datatype TicketView = TicketView(
    pnrNumber: string,
    passengerName: string,
    passengerGender: Gender,
    coachNumber: string,
    seatNumber: int,
    bookingStatus: TicketStatus,
    trainDetails: seq<TicketTrain>)

  /** The train fields a ticket view carries. */
  function TicketTrainOf(t: Train): TicketTrain {
    TicketTrain(t.trainName, t.sourceStationName, t.destinationStationName, t.sourceDepartureTime, t.journeyDuration)
  }

  /** Every stored train with that number, in store order, as a ticket view shows it. */
  function TrainsNumbered(trains: seq<Train>, trainNumber: string): (r: seq<TicketTrain>)
    ensures |r| <= |trains|
    ensures forall x :: x in r <==>
      exists k :: 0 <= k < |trains| && trains[k].trainNumber == trainNumber && x == TicketTrainOf(trains[k])
  {
    if trains == [] then []
    else
      var t := trains[0];
      assert forall k :: 1 <= k < |trains| ==> trains[k] == trains[1..][k - 1];
      (if t.trainNumber == trainNumber then [TicketTrainOf(t)] else [])
      + TrainsNumbered(trains[1..], trainNumber)
  }

  function View(t: Ticket, trains: seq<Train>): TicketView {
    TicketView(t.pnrNumber, t.passengerName, t.passengerGender, t.coachNumber, t.seatNumber, t.bookingStatus,
               TrainsNumbered(trains, t.trainNumber))
  }

  /** Every ticket with that reference, in store order, each joined with its train. */
  function GetTicketByPnrNumber(tickets: seq<Ticket>, trains: seq<Train>, pnr: string): (r: seq<TicketView>)
    ensures |r| <= |tickets|
    ensures forall v :: v in r ==> v.pnrNumber == pnr
    ensures r == [] <==> !PnrInUse(tickets, pnr)
  {
    if tickets == [] then []
    else
      var rest := GetTicketByPnrNumber(tickets[1..], trains, pnr);
      assert forall i :: 1 <= i < |tickets| ==> tickets[i] == tickets[1..][i - 1];
      if tickets[0].pnrNumber == pnr then [View(tickets[0], trains)] + rest else rest
  }

  predicate PnrsUnique(tickets: seq<Ticket>) {
    forall i, j :: 0 <= i < j < |tickets| ==> tickets[i].pnrNumber != tickets[j].pnrNumber
  }

  /** With unique references, the lookup finds exactly the ticket that carries it. */
  lemma {:induction false} LookupFindsTheTicket(tickets: seq<Ticket>, trains: seq<Train>, i: nat)
    requires PnrsUnique(tickets) && i < |tickets|
    ensures GetTicketByPnrNumber(tickets, trains, tickets[i].pnrNumber) == [View(tickets[i], trains)]
  {
    var pnr := tickets[i].pnrNumber;
    if i == 0 {
      assert forall k :: 0 <= k < |tickets[1..]| ==> tickets[1..][k] == tickets[k + 1];
    } else {
      assert tickets[0].pnrNumber != pnr;
      assert PnrsUnique(tickets[1..]) by {
        forall a, b | 0 <= a < b < |tickets[1..]| ensures tickets[1..][a].pnrNumber != tickets[1..][b].pnrNumber {
          assert tickets[1..][a] == tickets[a + 1] && tickets[1..][b] == tickets[b + 1];
        }
      }
      assert tickets[1..][i - 1] == tickets[i];
      LookupFindsTheTicket(tickets[1..], trains, i - 1);
    }
  }

  /** The tickets whose positions a booking lists, in ticket-store order. */
  function TicketsListed(tickets: seq<Ticket>, ids: seq<nat>): (r: seq<Ticket>)
    ensures |r| <= |tickets|
    ensures forall t :: t in r <==> exists k :: 0 <= k < |tickets| && k in ids && t == tickets[k]
  {
    if tickets == [] then []
    else
      var init := tickets[..|tickets| - 1];
      assert forall k :: 0 <= k < |init| ==> init[k] == tickets[k];
      TicketsListed(init, ids) + (if |tickets| - 1 in ids then [tickets[|tickets| - 1]] else [])
  }

  /** Some ticket is on the train with that number. */
  predicate Serves(tickets: seq<Ticket>, trainNumber: string) {
    exists k :: 0 <= k < |tickets| && tickets[k].trainNumber == trainNumber
  }

  /** The stored trains that some ticket is on, in store order. */
  function TrainsOf(trains: seq<Train>, tickets: seq<Ticket>): (r: seq<Train>)
    ensures forall t :: t in r <==> t in trains && Serves(tickets, t.trainNumber)
  {
    var r := Filter(trains, (t: Train) => Serves(tickets, t.trainNumber));
    assert forall t :: t in r <==> t in trains && Serves(tickets, t.trainNumber) by {
      forall t ensures t in r <==> t in trains && Serves(tickets, t.trainNumber) {
        if t in trains && Serves(tickets, t.trainNumber) {
          var i :| 0 <= i < |trains| && trains[i] == t;
        }
      }
    }
    r
  }

  datatype UserBooking = UserBooking(booking: Booking, ticketDetails: seq<Ticket>, trainDetails: seq<Train>)

  /** A booking with its tickets, and the trains of those tickets. */
  function Joined(b: Booking, tickets: seq<Ticket>, trains: seq<Train>): UserBooking {
    var listed := TicketsListed(tickets, b.tickets);
    UserBooking(b, listed, TrainsOf(trains, listed))
  }

  /** Sorting by this key puts the most recent booking first. */
  function Latest(u: UserBooking): int { -u.booking.bookingTimestamp }

  /** Each of the bookings joined, in the same order. */
  function JoinAll(bs: seq<Booking>, tickets: seq<Ticket>, trains: seq<Train>): (r: seq<UserBooking>)
    ensures |r| == |bs|
    ensures forall i :: 0 <= i < |bs| ==> r[i] == Joined(bs[i], tickets, trains)
  {
    seq(|bs|, i requires 0 <= i < |bs| => Joined(bs[i], tickets, trains))
  }

  /** The user's bookings, in store order. */
  function UserBookings(bookings: seq<Booking>, userId: string): seq<Booking> {
    Filter(bookings, (b: Booking) => b.userId == userId)
  }

  /** Joining the user's bookings gives one entry per booking of the user, each joined. */
  lemma JoinedBookings(bookings: seq<Booking>, tickets: seq<Ticket>, trains: seq<Train>, userId: string)
    ensures var mine := UserBookings(bookings, userId);
      var joined := JoinAll(mine, tickets, trains);
      && |joined| == |mine| <= |bookings|
      && (forall i :: 0 <= i < |joined| ==> joined[i].booking == mine[i])
      && (forall u :: u in joined ==> u.booking in bookings && u.booking.userId == userId && u == Joined(u.booking, tickets, trains))
      && (forall b :: b in bookings && b.userId == userId ==> Joined(b, tickets, trains) in joined)
  {
    var mine := UserBookings(bookings, userId);
    var joined := JoinAll(mine, tickets, trains);
    forall b | b in bookings && b.userId == userId ensures Joined(b, tickets, trains) in joined {
      var m :| 0 <= m < |mine| && mine[m] == b;
      assert joined[m] == Joined(b, tickets, trains);
    }
  }

  /** The user's bookings, each joined with its tickets and their trains, most recent first. */
  function GetUserTickets(bookings: seq<Booking>, tickets: seq<Ticket>, trains: seq<Train>, userId: string)
    : (r: seq<UserBooking>)
    ensures |r| <= |bookings|
    ensures SortedBy(r, Latest)
    ensures multiset(r) == multiset(JoinAll(UserBookings(bookings, userId), tickets, trains))
    ensures forall u :: u in r ==> u.booking in bookings && u.booking.userId == userId && u == Joined(u.booking, tickets, trains)
    ensures forall b :: b in bookings && b.userId == userId ==> Joined(b, tickets, trains) in r
  {
    var joined := JoinAll(UserBookings(bookings, userId), tickets, trains);
    var r := SortBy(joined, Latest);
    JoinedBookings(bookings, tickets, trains, userId);
    SortByKeepsMembers(joined, Latest);
    forall u | u in r
      ensures u.booking in bookings && u.booking.userId == userId && u == Joined(u.booking, tickets, trains)
    {
      assert u in joined;
    }
    forall b | b in bookings && b.userId == userId ensures Joined(b, tickets, trains) in r {
      assert Joined(b, tickets, trains) in joined;
    }
    r
  }
}
