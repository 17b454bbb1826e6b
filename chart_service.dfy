/**
 * The reservation chart of one journey (src/services/chart.service.js): the
 * journey record joined with its train and, per summary entry, with the seat
 * list of the train's coach of that number.
 */
module ChartService {
  import opened Models
  import opened SeatLedger
  import TrainService

  datatype ChartTrain = ChartTrain(
    trainNumber: string,
    trainName: string,
    sourceStation: string,
    destinationStation: string,
    departureTime: string,
    journeyDuration: string)

  datatype ChartCoach = ChartCoach(
    coachNumber: string,
    coachType: CoachType,
    availableSeats: int,
    seatDetails: seq<Seat>)

  datatype Chart = Chart(trainDetails: ChartTrain, status: InstanceStatus, coaches: seq<ChartCoach>)

  /** "No train scheduled for this date". */
  datatype ChartError = NothingScheduled

  predicate OnDate(inst: TrainInstance, trainNumber: string, journeyDate: int) {
    inst.trainNumber == trainNumber && inst.journeyDate == journeyDate
  }

  predicate IsCoach(c: Coach, trainNumber: string, coachNumber: string) {
    c.trainNumber == trainNumber && c.coachNumber == coachNumber
  }

  /**
   * The seats of the first coach of the train with that number; an empty
   * list when the train has no such coach. Looking among the train's coaches
   * for the first with the number is looking for the first coach with both.
   */
  function SeatDetails(coaches: seq<Coach>, trainNumber: string, coachNumber: string): (r: seq<Seat>)
    ensures (forall j :: 0 <= j < |coaches| ==> !IsCoach(coaches[j], trainNumber, coachNumber)) ==> r == []
    ensures forall j ::
      (0 <= j < |coaches| && IsCoach(coaches[j], trainNumber, coachNumber)
       && forall k :: 0 <= k < j ==> !IsCoach(coaches[k], trainNumber, coachNumber))
      ==> r == coaches[j].seats
  {
    match CoachOf(coaches, trainNumber, coachNumber)
    case None => []
    case Some(j) => coaches[j].seats
  }

  /** One chart entry per summary entry, in the summary's order. */
  function ChartCoaches(summary: seq<CoachSummary>, coaches: seq<Coach>, trainNumber: string): (r: seq<ChartCoach>)
    ensures |r| == |summary|
    ensures forall k :: 0 <= k < |r| ==>
      && r[k].coachNumber == summary[k].coachNumber
      && r[k].coachType == summary[k].coachType
      && r[k].availableSeats == summary[k].seatsAvailable
      && r[k].seatDetails == SeatDetails(coaches, trainNumber, summary[k].coachNumber)
  {
    if summary == [] then []
    else
      var e := summary[0];
      [ChartCoach(e.coachNumber, e.coachType, e.seatsAvailable, SeatDetails(coaches, trainNumber, e.coachNumber))]
        + ChartCoaches(summary[1..], coaches, trainNumber)
  }

  function ChartTrainOf(t: Train): ChartTrain {
    ChartTrain(t.trainNumber, t.trainName, t.sourceStationName, t.destinationStationName,
               t.sourceDepartureTime, t.journeyDuration)
  }

  /** `instances[i]` is the first stored journey of the train on that date. */
  predicate FirstOnDate(instances: seq<TrainInstance>, trainNumber: string, journeyDate: int, i: int) {
    && 0 <= i < |instances| && OnDate(instances[i], trainNumber, journeyDate)
    && forall j :: 0 <= j < i ==> !OnDate(instances[j], trainNumber, journeyDate)
  }

  /** The chart shows the journey's status and one entry per summary entry of it. */
  predicate ChartedFrom(chart: Chart, inst: TrainInstance, coaches: seq<Coach>) {
    chart.status == inst.status && chart.coaches == ChartCoaches(inst.availableCoaches, coaches, inst.trainNumber)
  }

  /**
   * The chart of the first stored journey of that train on that date. A
   * journey whose train record is missing yields no row, and with no row
   * the call fails.
   */
  function GetReservationChart(trains: seq<Train>, coaches: seq<Coach>, instances: seq<TrainInstance>,
                               trainNumber: string, journeyDate: int): (r: Result<Chart, ChartError>)
    ensures r.Err? <==>
      TrainService.GetTrainByTrainNumber(trains, trainNumber).None?
      || forall i :: 0 <= i < |instances| ==> !OnDate(instances[i], trainNumber, journeyDate)
    ensures r.Ok? ==> exists i :: FirstOnDate(instances, trainNumber, journeyDate, i) && ChartedFrom(r.value, instances[i], coaches)
    ensures r.Ok? ==> exists t :: t in trains && t.trainNumber == trainNumber && r.value.trainDetails == ChartTrainOf(t)
  {
    match FirstIndex(instances, (inst: TrainInstance) =>
      OnDate(inst, trainNumber, journeyDate) && TrainService.GetTrainByTrainNumber(trains, inst.trainNumber).Some?)
    case None => Err(NothingScheduled)
    case Some(i) =>
      var inst := instances[i];
      var train := TrainService.GetTrainByTrainNumber(trains, inst.trainNumber).value;
      Ok(Chart(ChartTrainOf(train), inst.status, ChartCoaches(inst.availableCoaches, coaches, trainNumber)))
  }

  /**
   * The chart copies the summary's count and never recounts the flags: with
   * a well-formed ledger, the seat list shown for an entry is the ledger's
   * own, whatever count the entry carries.
   */
  lemma ChartSeatsAreLedgerSeats(coaches: seq<Coach>, trainNumber: string, e: CoachSummary, ci: nat)
    requires CoachNumbersUnique(coaches)
    requires ci < |coaches| && coaches[ci].trainNumber == trainNumber && coaches[ci].coachNumber == e.coachNumber
    ensures ChartCoaches([e], coaches, trainNumber)[0].seatDetails == coaches[ci].seats
    ensures ChartCoaches([e], coaches, trainNumber)[0].availableSeats == e.seatsAvailable
  {
    CoachOfUnique(coaches, SeatKey(trainNumber, e.coachNumber, 0), ci);
  }
}
