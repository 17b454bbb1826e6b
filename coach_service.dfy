/**
 * Coach provisioning and coach queries (src/services/coach.service.js):
 * inserting a coach with its generated seats, adding the coach to the
 * availability summaries of upcoming journeys, listing a train's coaches and
 * looking one coach up.
 */
module CoachService {
  import opened Models
  import opened SeatGeneration
  import opened SeatLedger

  datatype CoachError = InvalidCoachType | DuplicateCoachNumber

  predicate CoachNumberTaken(coaches: seq<Coach>, coachNumber: string) {
    exists i :: 0 <= i < |coaches| && coaches[i].coachNumber == coachNumber
  }

  /**
   * Builds the coach document with freshly generated seats and saves it: the
   * schema rejects a type other than "AC" and "Sleeper", the unique index a
   * coach number already in use. Whether the train exists is not checked.
   */
  function AddCoachTo(coaches: seq<Coach>, coachNumber: string, trainNumber: string, coachType: string)
    : (r: Result<seq<Coach>, CoachError>)
    ensures r == Err(InvalidCoachType) <==> ParseCoachType(coachType).None?
    ensures r == Err(DuplicateCoachNumber) <==>
      ParseCoachType(coachType).Some? && CoachNumberTaken(coaches, coachNumber)
    ensures r.Ok? ==> |r.value| == |coaches| + 1 && r.value[..|coaches|] == coaches
    ensures r.Ok? ==> var c := r.value[|coaches|];
      && c.coachNumber == coachNumber && c.trainNumber == trainNumber
      && ParseCoachType(coachType) == Some(c.coachType)
      && c.seats == FreshSeats(coachType)
      && |c.seats| == 10 && forall i :: 0 <= i < |c.seats| ==> c.seats[i].isAvailable
    ensures r.Ok? && LedgerWellFormed(coaches) ==> LedgerWellFormed(r.value)
  {
    match ParseCoachType(coachType)
    case None => Err(InvalidCoachType)
    case Some(t) =>
      if CoachNumberTaken(coaches, coachNumber) then Err(DuplicateCoachNumber)
      else
        var added := coaches + [Coach(coachNumber, trainNumber, t, FreshSeats(coachType))];
        assert added[..|coaches|] == coaches;
        Ok(added)
  }

  predicate IsAvailable(s: Seat) {
    s.isAvailable
  }

  /** The number of seats whose flag is set. */
  function CountAvailable(seats: seq<Seat>): (n: nat)
    ensures n <= |seats|
    ensures n == |seats| <==> forall i :: 0 <= i < |seats| ==> seats[i].isAvailable
    ensures n == 0 <==> forall i :: 0 <= i < |seats| ==> !seats[i].isAvailable
  {
    if seats == [] then 0
    else
      var rest := CountAvailable(seats[1..]);
      assert forall i :: 1 <= i < |seats| ==> seats[i] == seats[1..][i - 1];
      (if seats[0].isAvailable then 1 else 0) + rest
  }

  /** The count is the number of seats the `filter` on the flag keeps. */
  lemma {:induction false} CountAvailableIsFilterLength(seats: seq<Seat>)
    ensures CountAvailable(seats) == |Filter(seats, IsAvailable)|
  {
    if seats != [] {
      assert seats == [seats[0]] + seats[1..];
      FilterAppend([seats[0]], seats[1..], IsAvailable);
      FilterSingle(seats[0], IsAvailable);
      CountAvailableIsFilterLength(seats[1..]);
    }
  }

  /** Which journeys a new coach is added to: those of the train dated today or later, whatever their status. */
  predicate Upcoming(inst: TrainInstance, trainNumber: string, now: int) {
    inst.trainNumber == trainNumber && inst.journeyDate >= now
  }

  predicate Lists(summary: seq<CoachSummary>, coachNumber: string) {
    exists i :: 0 <= i < |summary| && summary[i].coachNumber == coachNumber
  }

  /**
   * One journey after the update: the coach is appended to its summary,
   * counted from the seats passed in, unless the summary already lists a
   * coach with that number.
   */
  function UpdateInstance(inst: TrainInstance, trainNumber: string, coachNumber: string, coachType: CoachType,
                          seats: seq<Seat>, now: int): (r: TrainInstance)
    ensures r.trainNumber == inst.trainNumber && r.journeyDate == inst.journeyDate && r.status == inst.status
    ensures Upcoming(inst, trainNumber, now) ==> Lists(r.availableCoaches, coachNumber)
  {
    if Upcoming(inst, trainNumber, now) && FirstIndex(inst.availableCoaches,
         (e: CoachSummary) => e.coachNumber == coachNumber).None?
    then
      var entry := CoachSummary(coachNumber, coachType, CountAvailable(seats));
      var summary := inst.availableCoaches + [entry];
      assert summary[|summary| - 1] == entry;
      inst.(availableCoaches := summary)
    else inst
  }

  /** Every journey of the store after `updateTrainInstances`. */
  function UpdateTrainInstances(instances: seq<TrainInstance>, trainNumber: string, coachNumber: string,
                                coachType: CoachType, seats: seq<Seat>, now: int): (r: seq<TrainInstance>)
    ensures |r| == |instances|
    ensures forall i :: 0 <= i < |r| ==> r[i] == UpdateInstance(instances[i], trainNumber, coachNumber, coachType, seats, now)
  {
    seq(|instances|, i requires 0 <= i < |instances| =>
      UpdateInstance(instances[i], trainNumber, coachNumber, coachType, seats, now))
  }

  /**
   * What the update does to one journey: journeys of other trains and past
   * journeys are untouched, a summary that already lists the coach keeps its
   * entry (stale count included), otherwise one entry counting the available
   * seats is appended after the existing ones.
   */
  lemma UpdateInstanceEffect(inst: TrainInstance, trainNumber: string, coachNumber: string, coachType: CoachType,
                             seats: seq<Seat>, now: int)
    ensures !Upcoming(inst, trainNumber, now) ==> UpdateInstance(inst, trainNumber, coachNumber, coachType, seats, now) == inst
    ensures Lists(inst.availableCoaches, coachNumber) ==> UpdateInstance(inst, trainNumber, coachNumber, coachType, seats, now) == inst
    ensures Upcoming(inst, trainNumber, now) && !Lists(inst.availableCoaches, coachNumber) ==>
      UpdateInstance(inst, trainNumber, coachNumber, coachType, seats, now).availableCoaches
        == inst.availableCoaches + [CoachSummary(coachNumber, coachType, CountAvailable(seats))]
  {
    var found := FirstIndex(inst.availableCoaches, (e: CoachSummary) => e.coachNumber == coachNumber);
    if Lists(inst.availableCoaches, coachNumber) {
      var i :| 0 <= i < |inst.availableCoaches| && inst.availableCoaches[i].coachNumber == coachNumber;
      assert found.Some?;
    }
  }

  /** Running the update a second time with the same coach changes nothing. */
  lemma {:induction false} UpdateTrainInstancesIdempotent(instances: seq<TrainInstance>, trainNumber: string,
                                         coachNumber: string, coachType: CoachType, seats: seq<Seat>,
                                         seats': seq<Seat>, now: int)
    ensures var once := UpdateTrainInstances(instances, trainNumber, coachNumber, coachType, seats, now);
      UpdateTrainInstances(once, trainNumber, coachNumber, coachType, seats', now) == once
  {
    var once := UpdateTrainInstances(instances, trainNumber, coachNumber, coachType, seats, now);
    var twice := UpdateTrainInstances(once, trainNumber, coachNumber, coachType, seats', now);
    forall i | 0 <= i < |once|
      ensures twice[i] == once[i]
    {
      UpdateInstanceEffect(once[i], trainNumber, coachNumber, coachType, seats', now);
    }
  }

  /** A freshly generated coach counts all its seats as available. */
  lemma FreshCoachFullyAvailable(coachType: string)
    ensures CountAvailable(FreshSeats(coachType)) == SeatCount(coachType)
  {
  }

  datatype CoachListing = CoachListing(coachNumber: string, coachType: CoachType)

  function Listing(c: Coach): CoachListing {
    CoachListing(c.coachNumber, c.coachType)
  }

  /** The coaches of the train, in store order: what the query by train number finds. */
  function CoachesOf(coaches: seq<Coach>, trainNumber: string): seq<Coach> {
    Filter(coaches, (c: Coach) => c.trainNumber == trainNumber)
  }

  /** Number and type of each coach of the train, in store order. */
  function GetCoachesForTrain(coaches: seq<Coach>, trainNumber: string): (r: seq<CoachListing>)
    ensures |r| <= |coaches|
    ensures forall x :: x in r <==> exists i :: 0 <= i < |coaches| && coaches[i].trainNumber == trainNumber
                                              && x == CoachListing(coaches[i].coachNumber, coaches[i].coachType)
  {
    if coaches == [] then []
    else
      var rest := GetCoachesForTrain(coaches[1..], trainNumber);
      assert forall i :: 1 <= i < |coaches| ==> coaches[i] == coaches[1..][i - 1];
      if coaches[0].trainNumber == trainNumber
      then [Listing(coaches[0])] + rest
      else rest
  }

  /** The coaches of a train are its first coach, if it belongs, then those of the rest. */
  lemma CoachesOfCons(coaches: seq<Coach>, trainNumber: string)
    requires coaches != []
    ensures CoachesOf(coaches, trainNumber)
      == (if coaches[0].trainNumber == trainNumber then [coaches[0]] else []) + CoachesOf(coaches[1..], trainNumber)
  {
    var of := (c: Coach) => c.trainNumber == trainNumber;
    assert coaches == [coaches[0]] + coaches[1..];
    FilterAppend([coaches[0]], coaches[1..], of);
    FilterSingle(coaches[0], of);
  }

  /** One listing per coach of the train, position by position, in store order. */
  lemma {:induction false} CoachesListedInStoreOrder(coaches: seq<Coach>, trainNumber: string)
    ensures var r := GetCoachesForTrain(coaches, trainNumber);
      var mine := CoachesOf(coaches, trainNumber);
      |r| == |mine| && forall i :: 0 <= i < |r| ==> r[i] == Listing(mine[i])
  {
    if coaches != [] {
      CoachesListedInStoreOrder(coaches[1..], trainNumber);
      CoachesOfCons(coaches, trainNumber);
      var r, rest := GetCoachesForTrain(coaches, trainNumber), GetCoachesForTrain(coaches[1..], trainNumber);
      var mine, tail := CoachesOf(coaches, trainNumber), CoachesOf(coaches[1..], trainNumber);
      if coaches[0].trainNumber == trainNumber {
        assert mine == [coaches[0]] + tail;
        assert r == [Listing(coaches[0])] + rest;
        forall i | 1 <= i < |r|
          ensures r[i] == Listing(mine[i])
        {
          assert r[i] == rest[i - 1] && mine[i] == tail[i - 1];
        }
      } else {
        assert mine == tail && r == rest;
      }
    }
  }

  /** The first coach with that number, whatever its train. */
  function GetCoachDetails(coaches: seq<Coach>, coachNumber: string): (r: Option<Coach>)
    ensures r.Some? ==> r.value in coaches && r.value.coachNumber == coachNumber
    ensures r.None? <==> !CoachNumberTaken(coaches, coachNumber)
  {
    match FirstIndex(coaches, (c: Coach) => c.coachNumber == coachNumber)
    case None => None
    case Some(i) => Some(coaches[i])
  }
}
