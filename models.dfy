/**
 * The records held by the train-booking store: trains, coaches with their
 * seat ledger, train instances (journeys) with their availability summary,
 * tickets and bookings. Document ids are modelled as positions in their
 * collection (nothing is ever deleted), dates as integer day numbers.
 */
module Models {

  datatype Option<+T> = None | Some(value: T)

  datatype Result<+R, +E> = Ok(value: R) | Err(error: E)

  /** A catalog entry; `trainNumber` is unique across the store. */
  datatype Train = Train(
    trainNumber: string,
    trainName: string,
    sourceStationName: string,
    destinationStationName: string,
    sourceDepartureTime: string,
    journeyDuration: string,
    acTicketFare: nat,
    sleeperTicketFare: nat)

  /** The enumeration the coach, summary and ticket schemas accept. */
  datatype CoachType = AC | Sleeper

  /** Reads a declared coach type the way the schema enum does. */
  function ParseCoachType(s: string): (r: Option<CoachType>)
    ensures r == Some(AC) <==> s == "AC"
    ensures r == Some(Sleeper) <==> s == "Sleeper"
    ensures r.None? <==> s != "AC" && s != "Sleeper"
  {
    if s == "AC" then Some(AC) else if s == "Sleeper" then Some(Sleeper) else None
  }

  datatype Seat = Seat(seatNumber: int, isAvailable: bool)

  /** No two seats of one coach share a seat number. */
  predicate SeatNumbersUnique(seats: seq<Seat>) {
    forall i, j :: 0 <= i < j < |seats| ==> seats[i].seatNumber != seats[j].seatNumber
  }

  /** A coach document: it is the seat ledger, one flag per physical seat. */
  datatype Coach = Coach(
    coachNumber: string,
    trainNumber: string,
    coachType: CoachType,
    seats: seq<Seat>)

  /** One entry of a journey's `availableCoaches` summary. */
  datatype CoachSummary = CoachSummary(
    coachNumber: string,
    coachType: CoachType,
    seatsAvailable: int)

  datatype InstanceStatus = Scheduled | Running | Cancelled | Completed

  /** Reads a status string the way the instance schema enum does. */
  function ParseStatus(s: string): (r: Option<InstanceStatus>)
    ensures r.Some? <==> s in {"Scheduled", "Running", "Cancelled", "Completed"}
    ensures r == Some(Scheduled) <==> s == "Scheduled"
    ensures r == Some(Running) <==> s == "Running"
    ensures r == Some(Cancelled) <==> s == "Cancelled"
    ensures r == Some(Completed) <==> s == "Completed"
  {
    if s == "Scheduled" then Some(Scheduled)
    else if s == "Running" then Some(Running)
    else if s == "Cancelled" then Some(Cancelled)
    else if s == "Completed" then Some(Completed)
    else None
  }

  /** A journey: one train on one date. */
  datatype TrainInstance = TrainInstance(
    trainNumber: string,
    journeyDate: int,
    availableCoaches: seq<CoachSummary>,
    status: InstanceStatus)

  datatype Gender = Male | Female | Other

  function ParseGender(s: string): (r: Option<Gender>)
    ensures r.Some? <==> s in {"Male", "Female", "Other"}
    ensures r == Some(Male) <==> s == "Male"
    ensures r == Some(Female) <==> s == "Female"
    ensures r == Some(Other) <==> s == "Other"
  {
    if s == "Male" then Some(Male)
    else if s == "Female" then Some(Female)
    else if s == "Other" then Some(Other)
    else None
  }

  datatype TicketStatus = TicketConfirmed | TicketCancelled

  datatype Ticket = Ticket(
    userId: string,
    pnrNumber: string,
    trainNumber: string,
    journeyDate: int,
    passengerName: string,
    passengerGender: Gender,
    coachNumber: string,
    coachType: CoachType,
    seatNumber: int,
    ticketFare: nat,
    bookingStatus: TicketStatus,
    cancellationTimestamp: Option<int>)

  datatype PaymentStatus = Paid | Failed | Pending

  datatype BookingStatus = BookingConfirmed | PartiallyCancelled | BookingCancelled

  /** A booking groups the tickets (by position in the ticket collection) of one request. */
  datatype Booking = Booking(
    userId: string,
    tickets: seq<nat>,
    totalAmount: nat,
    paymentStatus: PaymentStatus,
    bookingTimestamp: int,
    status: BookingStatus)

  /** The whole store at one moment. */
  datatype Db = Db(
    trains: seq<Train>,
    coaches: seq<Coach>,
    instances: seq<TrainInstance>,
    tickets: seq<Ticket>,
    bookings: seq<Booking>)

  const EmptyDb := Db([], [], [], [], [])

  /** The position of the first element of `s` that satisfies `p`. */
  function FirstIndex<T>(s: seq<T>, p: T -> bool): (r: Option<nat>)
    ensures r.Some? ==> r.value < |s| && p(s[r.value])
    ensures r.Some? ==> forall j :: 0 <= j < r.value ==> !p(s[j])
    ensures r.None? <==> forall j :: 0 <= j < |s| ==> !p(s[j])
  {
    if s == [] then None
    else if p(s[0]) then Some(0)
    else match FirstIndex(s[1..], p)
      case None => None
      case Some(k) => Some(k + 1)
  }

  /**
   * The elements of `s` that satisfy `p`, in order; `FilterAppend` and
   * `FilterSingle` pin the result down element by element.
   */
  function Filter<T>(s: seq<T>, p: T -> bool): (r: seq<T>)
    ensures |r| <= |s|
    ensures forall i :: 0 <= i < |r| ==> r[i] in s && p(r[i])
    ensures forall i :: 0 <= i < |s| && p(s[i]) ==> s[i] in r
    ensures multiset(r) <= multiset(s)
  {
    if s == [] then []
    else
      assert s == [s[0]] + s[1..];
      if p(s[0]) then [s[0]] + Filter(s[1..], p) else Filter(s[1..], p)
  }

  /** Filtering a concatenation filters each part and keeps them in order. */
  lemma {:induction false} FilterAppend<T>(a: seq<T>, b: seq<T>, p: T -> bool)
    ensures Filter(a + b, p) == Filter(a, p) + Filter(b, p)
  {
    if a == [] {
      assert a + b == b;
    } else {
      var ab := a + b;
      assert ab[0] == a[0] && ab[1..] == a[1..] + b;
      FilterAppend(a[1..], b, p);
    }
  }

  /** A single element is kept exactly when it passes; with `FilterAppend` this fixes the result. */
  lemma FilterSingle<T>(x: T, p: T -> bool)
    ensures Filter([x], p) == if p(x) then [x] else []
  {
    assert [x][1..] == [];
  }

}
