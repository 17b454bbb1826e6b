/**
 * Train catalog queries (src/services/train.service.js): lookup by number,
 * the per-train information page with its bookable journeys, the list of
 * trains in their active booking window, the list of cities, and the insert
 * of a new train.
 */
module TrainService {
  import opened Models
  import opened Sorting

  /** Journeys open for booking lie at most this many days ahead. */
  const BookingWindowDays := 30

  datatype TrainError = TrainNotFound | DuplicateTrainNumber

  /** The first train with that number, or nothing. */
  function GetTrainByTrainNumber(trains: seq<Train>, trainNumber: string): (r: Option<Train>)
    ensures r.Some? ==> r.value in trains && r.value.trainNumber == trainNumber
    ensures r.None? <==> forall i :: 0 <= i < |trains| ==> trains[i].trainNumber != trainNumber
  {
    match FirstIndex(trains, (t: Train) => t.trainNumber == trainNumber)
    case None => None
    case Some(i) => Some(trains[i])
  }

  predicate TrainNumbersUnique(trains: seq<Train>) {
    forall i, j :: 0 <= i < j < |trains| ==> trains[i].trainNumber != trains[j].trainNumber
  }

  /** With the unique index in place, the lookup returns THE train with that number. */
  lemma GetTrainByTrainNumberIsTheOne(trains: seq<Train>, i: nat)
    requires TrainNumbersUnique(trains) && i < |trains|
    ensures GetTrainByTrainNumber(trains, trains[i].trainNumber) == Some(trains[i])
  {
  }

  /** Insert with the unique index on `trainNumber`. */
  function AddTrainTo(trains: seq<Train>, train: Train): (r: Result<seq<Train>, TrainError>)
    ensures r.Err? <==> exists i :: 0 <= i < |trains| && trains[i].trainNumber == train.trainNumber
    ensures r.Ok? ==> r.value == trains + [train]
    ensures TrainNumbersUnique(trains) && r.Ok? ==> TrainNumbersUnique(r.value)
  {
    if GetTrainByTrainNumber(trains, train.trainNumber).Some? then Err(DuplicateTrainNumber)
    else Ok(trains + [train])
  }

  datatype Fares = Fares(ac: nat, sleeper: nat)

  datatype TrainDetails = TrainDetails(
    trainNumber: string,
    trainName: string,
    sourceStation: string,
    destinationStation: string,
    departureTime: string,
    duration: string,
    fares: Fares)

  datatype CoachAvailability = CoachAvailability(coachNumber: string, coachType: CoachType, availableSeats: int)

  datatype BookableJourney = BookableJourney(
    instanceId: nat,
    journeyDate: int,
    status: InstanceStatus,
    availableCoaches: seq<CoachAvailability>)

  datatype TrainInfo = TrainInfo(trainDetails: TrainDetails, availableBookings: seq<BookableJourney>)

  function Details(t: Train): TrainDetails {
    TrainDetails(t.trainNumber, t.trainName, t.sourceStationName, t.destinationStationName,
                 t.sourceDepartureTime, t.journeyDuration, Fares(t.acTicketFare, t.sleeperTicketFare))
  }

  /** The summary entries as the information page shows them. */
  function Availability(summary: seq<CoachSummary>): (r: seq<CoachAvailability>)
    ensures |r| == |summary|
    ensures forall i :: 0 <= i < |r| ==>
      r[i].coachNumber == summary[i].coachNumber && r[i].coachType == summary[i].coachType
      && r[i].availableSeats == summary[i].seatsAvailable
  {
    if summary == [] then []
    else [CoachAvailability(summary[0].coachNumber, summary[0].coachType, summary[0].seatsAvailable)]
         + Availability(summary[1..])
  }

  /** Which journeys the information page lists: upcoming and not cancelled. */
  predicate Bookable(inst: TrainInstance, trainNumber: string, now: int) {
    inst.trainNumber == trainNumber && inst.journeyDate >= now && inst.status != Cancelled
  }

  function Journey(instances: seq<TrainInstance>, id: nat): BookableJourney
    requires id < |instances|
  {
    BookableJourney(id, instances[id].journeyDate, instances[id].status, Availability(instances[id].availableCoaches))
  }

  /** The bookable journeys among `instances[..n]`, in store order. */
  function BookableAmong(instances: seq<TrainInstance>, trainNumber: string, now: int, n: nat)
    : (r: seq<BookableJourney>)
    requires n <= |instances|
    ensures forall b :: b in r ==>
      b.instanceId < n && Bookable(instances[b.instanceId], trainNumber, now) && b == Journey(instances, b.instanceId)
    ensures forall id :: 0 <= id < n && Bookable(instances[id], trainNumber, now) ==> Journey(instances, id) in r
    ensures forall a, b :: 0 <= a < b < |r| ==> r[a].instanceId < r[b].instanceId
  {
    if n == 0 then []
    else
      var earlier := BookableAmong(instances, trainNumber, now, n - 1);
      if Bookable(instances[n - 1], trainNumber, now) then earlier + [Journey(instances, n - 1)] else earlier
  }

  function JourneyDate(j: BookableJourney): int { j.journeyDate }

  /** The bookable journeys of a train, by ascending date, each exactly as stored. */
  function BookableJourneys(instances: seq<TrainInstance>, trainNumber: string, now: int)
    : (r: seq<BookableJourney>)
    ensures SortedBy(r, JourneyDate)
    ensures multiset(r) == multiset(BookableAmong(instances, trainNumber, now, |instances|))
    ensures forall b :: b in r ==>
      b.instanceId < |instances| && Bookable(instances[b.instanceId], trainNumber, now)
      && b == Journey(instances, b.instanceId)
    ensures forall id :: 0 <= id < |instances| && Bookable(instances[id], trainNumber, now) ==>
      Journey(instances, id) in r
  {
    var journeys := BookableAmong(instances, trainNumber, now, |instances|);
    var sorted := SortBy(journeys, JourneyDate);
    SameElements(journeys, sorted);
    sorted
  }

  lemma SameElements<T>(a: seq<T>, b: seq<T>)
    requires multiset(a) == multiset(b)
    ensures forall x :: x in a <==> x in b
  {
    forall x ensures x in a <==> x in b {
      assert x in a <==> x in multiset(a);
      assert x in b <==> x in multiset(b);
    }
  }

  /**
   * The information page of the train with document id `trainId`: its
   * details and fares, and its bookable journeys by ascending date.
   */
  function GetTrainInfo(trains: seq<Train>, instances: seq<TrainInstance>, trainId: int, now: int)
    : (r: Result<TrainInfo, TrainError>)
    ensures r.Err? <==> !(0 <= trainId < |trains|)
    ensures r.Err? ==> r.error == TrainNotFound
    ensures r.Ok? ==> var t, d := trains[trainId], r.value.trainDetails;
      d.trainNumber == t.trainNumber && d.trainName == t.trainName
      && d.sourceStation == t.sourceStationName && d.destinationStation == t.destinationStationName
      && d.departureTime == t.sourceDepartureTime && d.duration == t.journeyDuration
      && d.fares == Fares(t.acTicketFare, t.sleeperTicketFare)
    ensures r.Ok? ==> SortedBy(r.value.availableBookings, JourneyDate)
    ensures r.Ok? ==>
      multiset(r.value.availableBookings) == multiset(BookableAmong(instances, trains[trainId].trainNumber, now, |instances|))
    ensures r.Ok? ==> forall b :: b in r.value.availableBookings ==>
      b.instanceId < |instances| && Bookable(instances[b.instanceId], trains[trainId].trainNumber, now)
      && b == Journey(instances, b.instanceId)
    ensures r.Ok? ==> forall id :: 0 <= id < |instances| && Bookable(instances[id], trains[trainId].trainNumber, now) ==>
      Journey(instances, id) in r.value.availableBookings
  {
    if !(0 <= trainId < |trains|) then Err(TrainNotFound)
    else Ok(TrainInfo(Details(trains[trainId]), BookableJourneys(instances, trains[trainId].trainNumber, now)))
  }

  /** The journeys that keep a train in the active list. */
  predicate InWindow(inst: TrainInstance, now: int) {
    inst.status == Scheduled && now <= inst.journeyDate <= now + BookingWindowDays
  }

  datatype DateAvailability = DateAvailability(date: int, availableSeats: int)

  datatype ActiveTrain = ActiveTrain(
    trainNumber: string,
    trainName: string,
    sourceStationName: string,
    destinationStationName: string,
    sourceDepartureTime: string,
    journeyDuration: string,
    fares: Fares,
    availableDates: seq<DateAvailability>)

  /** The sum of the per-coach counts of a journey's summary. */
  function TotalSeats(summary: seq<CoachSummary>): (r: int)
    ensures summary == [] ==> r == 0
    ensures (forall i :: 0 <= i < |summary| ==> summary[i].seatsAvailable >= 0) ==>
      r >= 0 && forall i :: 0 <= i < |summary| ==> summary[i].seatsAvailable <= r
  {
    if summary == [] then 0
    else
      var init := summary[..|summary| - 1];
      assert forall i :: 0 <= i < |init| ==> init[i] == summary[i];
      TotalSeats(init) + summary[|summary| - 1].seatsAvailable
  }

  /** A one-entry summary totals that entry's count. */
  lemma TotalSeatsSingle(e: CoachSummary)
    ensures TotalSeats([e]) == e.seatsAvailable
  {
    assert [e][..0] == [];
  }

  /** The total of two summaries laid end to end is the sum of their totals; with `TotalSeatsSingle` this fixes the sum. */
  lemma {:induction false} TotalSeatsAppend(a: seq<CoachSummary>, b: seq<CoachSummary>)
    ensures TotalSeats(a + b) == TotalSeats(a) + TotalSeats(b)
  {
    if b == [] {
      assert a + b == a;
    } else {
      var ab, init := a + b, b[..|b| - 1];
      assert ab[..|ab| - 1] == a + init;
      assert ab[|ab| - 1] == b[|b| - 1];
      TotalSeatsAppend(a, init);
      assert TotalSeats(ab) == TotalSeats(a + init) + b[|b| - 1].seatsAvailable;
      assert TotalSeats(b) == TotalSeats(init) + b[|b| - 1].seatsAvailable;
    }
  }

  /** `d` stands for an in-window journey of the train, with that journey's seat total. */
  predicate ListedDate(instances: seq<TrainInstance>, trainNumber: string, now: int, d: DateAvailability) {
    exists i :: 0 <= i < |instances| && instances[i].trainNumber == trainNumber && InWindow(instances[i], now)
                && d == DateAvailability(instances[i].journeyDate, TotalSeats(instances[i].availableCoaches))
  }

  /** The in-window journeys of one train, in store order, each with its seat total. */
  function AvailableDates(instances: seq<TrainInstance>, trainNumber: string, now: int): (r: seq<DateAvailability>)
    ensures |r| <= |instances|
    ensures forall d :: d in r <==> ListedDate(instances, trainNumber, now, d)
  {
    if instances == [] then []
    else
      var inst := instances[0];
      var rest := AvailableDates(instances[1..], trainNumber, now);
      assert forall i :: 0 < i < |instances| ==> instances[i] == instances[1..][i - 1];
      if inst.trainNumber == trainNumber && InWindow(inst, now) then
        [DateAvailability(inst.journeyDate, TotalSeats(inst.availableCoaches))] + rest
      else rest
  }

  /** The in-window journeys of one train, in store order: what the `$lookup` and `$filter` keep. */
  function WindowJourneys(instances: seq<TrainInstance>, trainNumber: string, now: int): seq<TrainInstance> {
    Filter(instances, (inst: TrainInstance) => inst.trainNumber == trainNumber && InWindow(inst, now))
  }

  /** How one journey appears among the available dates. */
  function DateOf(inst: TrainInstance): DateAvailability {
    DateAvailability(inst.journeyDate, TotalSeats(inst.availableCoaches))
  }

  lemma WindowJourneysCons(instances: seq<TrainInstance>, trainNumber: string, now: int)
    requires instances != []
    ensures WindowJourneys(instances, trainNumber, now)
      == (if instances[0].trainNumber == trainNumber && InWindow(instances[0], now) then [instances[0]] else [])
         + WindowJourneys(instances[1..], trainNumber, now)
  {
    var keep := (inst: TrainInstance) => inst.trainNumber == trainNumber && InWindow(inst, now);
    assert instances == [instances[0]] + instances[1..];
    FilterAppend([instances[0]], instances[1..], keep);
    FilterSingle(instances[0], keep);
  }

  /** One date per in-window journey of the train, position by position, in store order. */
  lemma {:induction false} DatesInStoreOrder(instances: seq<TrainInstance>, trainNumber: string, now: int)
    ensures var r := AvailableDates(instances, trainNumber, now);
      var mine := WindowJourneys(instances, trainNumber, now);
      |r| == |mine| && forall k :: 0 <= k < |r| ==> r[k] == DateOf(mine[k])
  {
    if instances != [] {
      DatesInStoreOrder(instances[1..], trainNumber, now);
      WindowJourneysCons(instances, trainNumber, now);
      var r, rest := AvailableDates(instances, trainNumber, now), AvailableDates(instances[1..], trainNumber, now);
      var mine, tail := WindowJourneys(instances, trainNumber, now), WindowJourneys(instances[1..], trainNumber, now);
      if instances[0].trainNumber == trainNumber && InWindow(instances[0], now) {
        assert mine == [instances[0]] + tail;
        assert r == [DateOf(instances[0])] + rest;
        MappedCons(r, rest, mine, tail, instances[0], DateOf);
      } else {
        assert mine == tail && r == rest;
      }
    }
  }

  /** The numbers of the trains that have at least one in-window journey. */
  function ActiveTrainNumbers(instances: seq<TrainInstance>, now: int): (r: set<string>)
    ensures forall n :: n in r <==> exists i :: 0 <= i < |instances| && InWindow(instances[i], now)
                                     && instances[i].trainNumber == n
  {
    set i | 0 <= i < |instances| && InWindow(instances[i], now) :: instances[i].trainNumber
  }

  function Active(t: Train, instances: seq<TrainInstance>, now: int): ActiveTrain {
    ActiveTrain(t.trainNumber, t.trainName, t.sourceStationName, t.destinationStationName,
                t.sourceDepartureTime, t.journeyDuration, Fares(t.acTicketFare, t.sleeperTicketFare),
                AvailableDates(instances, t.trainNumber, now))
  }

  predicate ListedTrain(trains: seq<Train>, instances: seq<TrainInstance>, now: int, a: ActiveTrain) {
    exists i :: 0 <= i < |trains| && a == Active(trains[i], instances, now)
                && trains[i].trainNumber in ActiveTrainNumbers(instances, now)
  }

  /** The trains, in store order, with a scheduled journey in the next thirty days. */
  function GetActiveTrains(trains: seq<Train>, instances: seq<TrainInstance>, now: int): (r: seq<ActiveTrain>)
    ensures |r| <= |trains|
    ensures forall a :: a in r ==> a.availableDates != []
    ensures forall a :: a in r <==> ListedTrain(trains, instances, now, a)
  {
    var numbers := ActiveTrainNumbers(instances, now);
    if trains == [] then []
    else
      var rest := GetActiveTrains(trains[1..], instances, now);
      assert forall i :: 0 < i < |trains| ==> trains[i] == trains[1..][i - 1];
      if trains[0].trainNumber in numbers then
        var i :| 0 <= i < |instances| && InWindow(instances[i], now) && instances[i].trainNumber == trains[0].trainNumber;
        assert DateAvailability(instances[i].journeyDate, TotalSeats(instances[i].availableCoaches))
          in AvailableDates(instances, trains[0].trainNumber, now);
        [Active(trains[0], instances, now)] + rest
      else rest
  }

  /** The trains the `$match` keeps, in store order. */
  function ActiveTrainsOf(trains: seq<Train>, instances: seq<TrainInstance>, now: int): seq<Train> {
    Filter(trains, (t: Train) => t.trainNumber in ActiveTrainNumbers(instances, now))
  }

  lemma ActiveTrainsOfCons(trains: seq<Train>, instances: seq<TrainInstance>, now: int)
    requires trains != []
    ensures ActiveTrainsOf(trains, instances, now)
      == (if trains[0].trainNumber in ActiveTrainNumbers(instances, now) then [trains[0]] else [])
         + ActiveTrainsOf(trains[1..], instances, now)
  {
    var keep := (t: Train) => t.trainNumber in ActiveTrainNumbers(instances, now);
    assert trains == [trains[0]] + trains[1..];
    FilterAppend([trains[0]], trains[1..], keep);
    FilterSingle(trains[0], keep);
  }

  /** One entry per active train, position by position, in store order. */
  lemma {:induction false} ActiveTrainsInStoreOrder(trains: seq<Train>, instances: seq<TrainInstance>, now: int)
    ensures var r := GetActiveTrains(trains, instances, now);
      var mine := ActiveTrainsOf(trains, instances, now);
      |r| == |mine| && forall k :: 0 <= k < |r| ==> r[k] == Active(mine[k], instances, now)
  {
    if trains != [] {
      ActiveTrainsInStoreOrder(trains[1..], instances, now);
      ActiveTrainsOfCons(trains, instances, now);
      var r, rest := GetActiveTrains(trains, instances, now), GetActiveTrains(trains[1..], instances, now);
      var mine, tail := ActiveTrainsOf(trains, instances, now), ActiveTrainsOf(trains[1..], instances, now);
      if trains[0].trainNumber in ActiveTrainNumbers(instances, now) {
        assert mine == [trains[0]] + tail;
        assert r == [Active(trains[0], instances, now)] + rest;
        MappedCons(r, rest, mine, tail, trains[0], (t: Train) => Active(t, instances, now));
      } else {
        assert mine == tail && r == rest;
      }
    }
  }

  /** Mapping element by element survives putting one more element in front. */
  lemma MappedCons<A, B>(r: seq<B>, rest: seq<B>, mine: seq<A>, tail: seq<A>, x: A, f: A -> B)
    requires |rest| == |tail| && forall k :: 0 <= k < |rest| ==> rest[k] == f(tail[k])
    requires r == [f(x)] + rest && mine == [x] + tail
    ensures |r| == |mine| && forall k :: 0 <= k < |r| ==> r[k] == f(mine[k])
  {
    forall k | 1 <= k < |r| ensures r[k] == f(mine[k]) {
      assert r[k] == rest[k - 1] && mine[k] == tail[k - 1];
    }
  }

  /** Some train starts or ends at `c`. */
  predicate IsStation(trains: seq<Train>, c: string) {
    exists i :: 0 <= i < |trains| && (c == trains[i].sourceStationName || c == trains[i].destinationStationName)
  }

  /** Every station name, source then destination, train by train. */
  function StationNames(trains: seq<Train>): (r: seq<string>)
    ensures forall c :: c in r <==> IsStation(trains, c)
  {
    if trains == [] then []
    else
      assert forall i :: 0 < i < |trains| ==> trains[i] == trains[1..][i - 1];
      [trains[0].sourceStationName, trains[0].destinationStationName] + StationNames(trains[1..])
  }

  /** Each city that some train starts or ends at, once, in ascending order. */
  function GetAllCities(trains: seq<Train>): (r: seq<string>)
    ensures StrictlyIncreasing(r)
    ensures forall c :: c in r <==> IsStation(trains, c)
  {
    SortedDistinct(StationNames(trains))
  }
}
