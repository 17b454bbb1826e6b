/**
 * Seat generation for a newly provisioned coach
 * (src/utils/generateSeatsForCoach.util.js).
 */
module SeatGeneration {
  import opened Models

  /**
   * The number of seats the per-type configuration gives a coach type. The
   * configuration knows only "AC" and "Sleeper"; any other type looks up an
   * undefined bound, against which the loop condition is never true.
   */
  function SeatCount(coachType: string): (n: nat)
    ensures n == 10 <==> coachType == "AC" || coachType == "Sleeper"
    ensures n == 0 <==> coachType != "AC" && coachType != "Sleeper"
  {
    if coachType == "AC" then 10
    else if coachType == "Sleeper" then 10
    else 0
  }

  /** The seats a freshly generated coach of type `coachType` holds. */
  function FreshSeats(coachType: string): (seats: seq<Seat>)
    ensures |seats| == SeatCount(coachType)
    ensures SeatNumbersUnique(seats)
    ensures forall i :: 0 <= i < |seats| ==> seats[i].isAvailable
  {
    seq(SeatCount(coachType), i => Seat(i + 1, true))
  }

  /** Builds the seat list one seat at a time, numbering from 1. */
  method GenerateSeatsForCoach(coachType: string) returns (seats: seq<Seat>)
    ensures |seats| == SeatCount(coachType)
    ensures forall i :: 0 <= i < |seats| ==> seats[i].seatNumber == i + 1
    ensures forall i :: 0 <= i < |seats| ==> seats[i].isAvailable
    ensures seats == FreshSeats(coachType)
  {
    var totalSeats := SeatCount(coachType);
    seats := [];
    var i := 1;
    while i <= totalSeats
      invariant 1 <= i <= totalSeats + 1
      invariant |seats| == i - 1
      invariant forall k :: 0 <= k < |seats| ==> seats[k] == Seat(k + 1, true)
    {
      seats := seats + [Seat(i, true)];
      i := i + 1;
    }
  }
}
