/**
 * The seat ledger: the availability flags held on coach documents, and the
 * conditional claim that `bookTickets` issues per passenger
 * (src/services/ticket.service.js, the findOneAndUpdate on coaches). A seat is
 * identified by train number, coach number and seat number only: there is no
 * journey date in the ledger, so a claimed seat is unavailable for every date.
 */
module SeatLedger {
  import opened Models

  datatype SeatKey = SeatKey(trainNumber: string, coachNumber: string, seatNumber: int)

  datatype SeatStatus = Missing | Free | Taken

  /** The unique index on coach numbers. */
  predicate CoachNumbersUnique(coaches: seq<Coach>) {
    forall i, j :: 0 <= i < j < |coaches| ==> coaches[i].coachNumber != coaches[j].coachNumber
  }

  /** What the store guarantees of its coaches: unique coach numbers, unique seat numbers per coach. */
  predicate LedgerWellFormed(coaches: seq<Coach>) {
    && CoachNumbersUnique(coaches)
    && forall i :: 0 <= i < |coaches| ==> SeatNumbersUnique(coaches[i].seats)
  }

  /** The coach is the one `k` names: same train, same coach number. */
  predicate Names(c: Coach, k: SeatKey) {
    c.trainNumber == k.trainNumber && c.coachNumber == k.coachNumber
  }

  /** Position of the first coach of train `train` numbered `coach`. */
  function CoachOf(coaches: seq<Coach>, train: string, coach: string): Option<nat> {
    FirstIndex(coaches, (c: Coach) => c.trainNumber == train && c.coachNumber == coach)
  }

  /** Whether a seat numbered `n` exists, and if so whether the first one's flag is set. */
  function SeatStatusIn(seats: seq<Seat>, n: int): SeatStatus {
    if seats == [] then Missing
    else if seats[0].seatNumber == n then (if seats[0].isAvailable then Free else Taken)
    else SeatStatusIn(seats[1..], n)
  }

  /** The status of the seat `k` names, read from the first coach it names. */
  function Status(coaches: seq<Coach>, k: SeatKey): SeatStatus {
    if coaches == [] then Missing
    else if Names(coaches[0], k) then SeatStatusIn(coaches[0].seats, k.seatNumber)
    else Status(coaches[1..], k)
  }

  predicate HasFreeSeat(seats: seq<Seat>, n: int) {
    exists i :: 0 <= i < |seats| && seats[i].seatNumber == n && seats[i].isAvailable
  }

  /** Clears the flag of the first available seat numbered `n` (the positional update). */
  function TakeSeat(seats: seq<Seat>, n: int): (r: seq<Seat>)
    ensures |r| == |seats|
  {
    if seats == [] then []
    else if seats[0].seatNumber == n && seats[0].isAvailable then [seats[0].(isAvailable := false)] + seats[1..]
    else [seats[0]] + TakeSeat(seats[1..], n)
  }

  /**
   * The conditional update: select the first coach of the train with that
   * number whose seat list holds an available seat with that number, and
   * clear the flag of the first such seat. `None` when no document matches.
   */
  function ClaimSeat(coaches: seq<Coach>, k: SeatKey): (r: Option<seq<Coach>>)
    ensures r.Some? ==> |r.value| == |coaches|
  {
    if coaches == [] then None
    else if Names(coaches[0], k) && HasFreeSeat(coaches[0].seats, k.seatNumber)
    then Some([coaches[0].(seats := TakeSeat(coaches[0].seats, k.seatNumber))] + coaches[1..])
    else match ClaimSeat(coaches[1..], k)
      case None => None
      case Some(rest) => Some([coaches[0]] + rest)
  }

  predicate SameSeatNumbers(a: seq<Seat>, b: seq<Seat>) {
    |a| == |b| && forall j :: 0 <= j < |a| ==> a[j].seatNumber == b[j].seatNumber
  }

  /** The ledgers differ at most in availability flags. */
  predicate SameLayout(a: seq<Coach>, b: seq<Coach>) {
    && |a| == |b|
    && forall i :: 0 <= i < |a| ==>
      && a[i].coachNumber == b[i].coachNumber
      && a[i].trainNumber == b[i].trainNumber
      && a[i].coachType == b[i].coachType
      && SameSeatNumbers(a[i].seats, b[i].seats)
  }

  /** In a well-formed ledger the coach named by `k` is the only one with that number. */
  lemma CoachOfUnique(coaches: seq<Coach>, k: SeatKey, ci: nat)
    requires CoachNumbersUnique(coaches)
    requires ci < |coaches| && coaches[ci].trainNumber == k.trainNumber && coaches[ci].coachNumber == k.coachNumber
    ensures CoachOf(coaches, k.trainNumber, k.coachNumber) == Some(ci)
  {
  }

  lemma WellFormedTail(coaches: seq<Coach>)
    requires LedgerWellFormed(coaches) && coaches != []
    ensures LedgerWellFormed(coaches[1..])
    ensures Names(coaches[0], SeatKey(coaches[0].trainNumber, coaches[0].coachNumber, 0)) ==>
      forall i :: 0 <= i < |coaches[1..]| ==> coaches[1..][i].coachNumber != coaches[0].coachNumber
  {
    assert forall i :: 0 <= i < |coaches[1..]| ==> coaches[1..][i] == coaches[i + 1];
  }

  lemma UniqueSeatsTail(seats: seq<Seat>)
    requires SeatNumbersUnique(seats) && seats != []
    ensures SeatNumbersUnique(seats[1..])
    ensures forall i :: 0 <= i < |seats[1..]| ==> seats[1..][i].seatNumber != seats[0].seatNumber
  {
    assert forall i :: 0 <= i < |seats[1..]| ==> seats[1..][i] == seats[i + 1];
  }

  /** A ledger in which no coach is the one `k` names has no such seat and rejects the claim. */
  lemma {:induction false} NotNamed(coaches: seq<Coach>, k: SeatKey)
    requires forall i :: 0 <= i < |coaches| ==> coaches[i].coachNumber != k.coachNumber
    ensures Status(coaches, k) == Missing && ClaimSeat(coaches, k).None?
  {
    if coaches != [] {
      assert forall i :: 0 <= i < |coaches[1..]| ==> coaches[1..][i] == coaches[i + 1];
      NotNamed(coaches[1..], k);
    }
  }

  /** With unique seat numbers, the seat is free exactly when an available seat carries its number. */
  lemma {:induction false} SeatFreeIffAvailable(seats: seq<Seat>, n: int)
    requires SeatNumbersUnique(seats)
    ensures SeatStatusIn(seats, n) == Free <==> HasFreeSeat(seats, n)
  {
    if seats != [] {
      UniqueSeatsTail(seats);
      SeatFreeIffAvailable(seats[1..], n);
      assert forall i :: 0 <= i < |seats[1..]| ==> seats[1..][i] == seats[i + 1];
      if seats[0].seatNumber != n {
        if HasFreeSeat(seats, n) {
          var i :| 0 <= i < |seats| && seats[i].seatNumber == n && seats[i].isAvailable;
          assert seats[1..][i - 1] == seats[i];
        }
      }
    }
  }

  /**
   * Clearing the flag of a free seat: the numbers stay, that seat is taken
   * afterwards, and every other seat number keeps its status.
   */
  lemma {:induction false} TakeSeatEffect(seats: seq<Seat>, n: int)
    requires SeatNumbersUnique(seats) && HasFreeSeat(seats, n)
    ensures SameSeatNumbers(seats, TakeSeat(seats, n))
    ensures SeatStatusIn(seats, n) == Free && SeatStatusIn(TakeSeat(seats, n), n) == Taken
    ensures forall m :: m != n ==> SeatStatusIn(TakeSeat(seats, n), m) == SeatStatusIn(seats, m)
  {
    SeatFreeIffAvailable(seats, n);
    var r := TakeSeat(seats, n);
    UniqueSeatsTail(seats);
    assert forall i :: 0 <= i < |seats[1..]| ==> seats[1..][i] == seats[i + 1];
    if seats[0].seatNumber == n && seats[0].isAvailable {
      assert r[1..] == seats[1..];
    } else {
      assert seats[0].seatNumber != n;
      var i :| 0 <= i < |seats| && seats[i].seatNumber == n && seats[i].isAvailable;
      assert seats[1..][i - 1] == seats[i];
      TakeSeatEffect(seats[1..], n);
      assert r[1..] == TakeSeat(seats[1..], n);
    }
    assert forall j :: 1 <= j < |r| ==> r[j] == r[1..][j - 1];
  }

  /** A claim goes through exactly when the seat exists and is available. */
  lemma {:induction false} ClaimSucceedsIffFree(coaches: seq<Coach>, k: SeatKey)
    requires LedgerWellFormed(coaches)
    ensures ClaimSeat(coaches, k).Some? <==> Status(coaches, k) == Free
  {
    if coaches != [] {
      WellFormedTail(coaches);
      if Names(coaches[0], k) {
        SeatFreeIffAvailable(coaches[0].seats, k.seatNumber);
        NotNamed(coaches[1..], k);
      } else {
        ClaimSucceedsIffFree(coaches[1..], k);
      }
    }
  }

  /**
   * A successful claim clears the flag of exactly the named seat: the layout
   * is unchanged, that seat was free and is now taken, every other seat
   * keeps its status.
   */
  lemma {:induction false} ClaimTakesOnlyThatSeat(coaches: seq<Coach>, k: SeatKey, after: seq<Coach>)
    requires LedgerWellFormed(coaches)
    requires ClaimSeat(coaches, k) == Some(after)
    ensures SameLayout(coaches, after)
    ensures Status(coaches, k) == Free && Status(after, k) == Taken
    ensures forall k' :: k' != k ==> Status(after, k') == Status(coaches, k')
  {
    WellFormedTail(coaches);
    var head := coaches[0];
    assert forall i :: 1 <= i < |coaches| ==> coaches[i] == coaches[1..][i - 1] && after[i] == after[1..][i - 1];
    if Names(head, k) && HasFreeSeat(head.seats, k.seatNumber) {
      TakeSeatEffect(head.seats, k.seatNumber);
      assert after[1..] == coaches[1..];
      forall k' | k' != k ensures Status(after, k') == Status(coaches, k') {
        if Names(head, k') {
          assert k'.seatNumber != k.seatNumber;
        }
      }
    } else if Names(head, k) {
      NotNamed(coaches[1..], k);
    } else {
      ClaimTakesOnlyThatSeat(coaches[1..], k, after[1..]);
      assert after[0] == head;
    }
  }

  /** Flags never change the uniqueness of numbers. */
  lemma SameLayoutKeepsWellFormed(a: seq<Coach>, b: seq<Coach>)
    requires SameLayout(a, b) && LedgerWellFormed(a)
    ensures LedgerWellFormed(b)
  {
    forall i | 0 <= i < |b|
      ensures SeatNumbersUnique(b[i].seats)
    {
      assert SameSeatNumbers(a[i].seats, b[i].seats);
    }
  }

  lemma SameLayoutTransitive(a: seq<Coach>, b: seq<Coach>, c: seq<Coach>)
    requires SameLayout(a, b) && SameLayout(b, c)
    ensures SameLayout(a, c)
  {
    forall i | 0 <= i < |a|
      ensures SameSeatNumbers(a[i].seats, c[i].seats)
    {
      assert SameSeatNumbers(a[i].seats, b[i].seats) && SameSeatNumbers(b[i].seats, c[i].seats);
    }
  }
}
