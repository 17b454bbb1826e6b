/**
 * Journey creation (src/services/train_instance.service.js): check that the
 * train exists and that it has no journey on that date yet, then insert.
 */
module TrainInstanceService {
  import opened Models
  import TrainService

  /**
   * The request body. `status` is the empty string when the caller gave none
   * (any falsy value falls back to the default).
   */
  datatype InstanceRequest = InstanceRequest(
    trainNumber: string,
    journeyDate: int,
    availableCoaches: seq<CoachSummary>,
    status: string)

  datatype InstanceError =
    | NoSuchTrain        // "Train not found"
    | AlreadyScheduled   // "Train instance already exists for this date"
    | InvalidStatus      // the schema rejects a status outside its enumeration

  predicate HasJourney(instances: seq<TrainInstance>, trainNumber: string, journeyDate: int) {
    exists i :: 0 <= i < |instances| && instances[i].trainNumber == trainNumber && instances[i].journeyDate == journeyDate
  }

  /** At most one journey per train and date. */
  predicate InstancesUnique(instances: seq<TrainInstance>) {
    forall i, j :: 0 <= i < j < |instances| ==>
      instances[i].trainNumber != instances[j].trainNumber || instances[i].journeyDate != instances[j].journeyDate
  }

  /** The status the new journey gets: the given one, or "Scheduled" when none is given. */
  function StatusOf(status: string): (r: Option<InstanceStatus>)
    ensures r.Some? <==> status in {"", "Scheduled", "Running", "Cancelled", "Completed"}
    ensures r == Some(Scheduled) <==> status == "" || status == "Scheduled"
    ensures r == Some(Running) <==> status == "Running"
    ensures r == Some(Cancelled) <==> status == "Cancelled"
    ensures r == Some(Completed) <==> status == "Completed"
  {
    if status == "" then Some(Scheduled) else ParseStatus(status)
  }

  /**
   * The instance collection after the call, or the reason it was refused.
   * The summary is stored exactly as given; it is not checked against the
   * coaches of the train.
   */
  function CreateTrainInstance(trains: seq<Train>, instances: seq<TrainInstance>, req: InstanceRequest)
    : (r: Result<seq<TrainInstance>, InstanceError>)
    ensures r == Err(NoSuchTrain) <==> TrainService.GetTrainByTrainNumber(trains, req.trainNumber).None?
    ensures r == Err(AlreadyScheduled) <==>
      TrainService.GetTrainByTrainNumber(trains, req.trainNumber).Some?
      && HasJourney(instances, req.trainNumber, req.journeyDate)
    ensures r == Err(InvalidStatus) <==>
      TrainService.GetTrainByTrainNumber(trains, req.trainNumber).Some?
      && !HasJourney(instances, req.trainNumber, req.journeyDate)
      && StatusOf(req.status).None?
    ensures r.Ok? ==> |r.value| == |instances| + 1 && r.value[..|instances|] == instances
    ensures r.Ok? ==> var inst := r.value[|instances|];
      && inst.trainNumber == req.trainNumber && inst.journeyDate == req.journeyDate
      && inst.availableCoaches == req.availableCoaches
      && (req.status == "" ==> inst.status == Scheduled)
      && (req.status != "" ==> ParseStatus(req.status) == Some(inst.status))
    ensures r.Ok? && InstancesUnique(instances) ==> InstancesUnique(r.value)
  {
    if TrainService.GetTrainByTrainNumber(trains, req.trainNumber).None? then Err(NoSuchTrain)
    else if HasJourney(instances, req.trainNumber, req.journeyDate) then Err(AlreadyScheduled)
    else match StatusOf(req.status)
      case None => Err(InvalidStatus)
      case Some(status) =>
        var added := instances + [TrainInstance(req.trainNumber, req.journeyDate, req.availableCoaches, status)];
        assert added[..|instances|] == instances;
        Ok(added)
  }
}
