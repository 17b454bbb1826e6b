# Train ticket booking: seat reservation and journey availability

A Dafny model of the service layer of a train-ticket booking backend. The
backend keeps five collections: trains, coaches (each coach is a seat ledger
of `(seatNumber, isAvailable)` flags), train instances (one journey of one
train on one date, with an `availableCoaches` summary), tickets and bookings.

The model replaces the database with an in-memory store (`Models.Db`, and the
class `Store.Database`, whose fields are the five collections). Each write
service is a method of that class. Each method is proved against a pure
definition in the module of its source file:

- `TicketService.Book` is the booking transaction. It resolves the train,
  then goes passenger by passenger: a conditional check-and-set on one seat
  flag, the fare chosen by the declared coach type, and the ticket insert
  under the schema and the unique reference index. It then inserts one
  booking. Any failure leaves the store as it was.
- `CoachService.AddCoachTo` and `CoachService.UpdateTrainInstances` provision
  a coach, and `SeatGeneration.GenerateSeatsForCoach` builds its seats.
- `TrainInstanceService.CreateTrainInstance` schedules a journey.
- `TrainService.AddTrainTo` inserts a train.

The read side is pure functions over the collections:
- the train information page, active trains and cities (`TrainService`);
- the reservation chart (`ChartService`);
- the ticket and booking lookups (`TicketService`);
- the role check in front of administrative routes (`RoleMiddleware`).

`StoreInvariants` states what the store keeps true across any sequence of
writes from an empty database:
- train numbers, coach numbers, seat numbers within a coach, journeys per
  `(train, date)` and ticket references are all unique;
- the seat ledger agrees with the tickets: no seat is on two tickets, and a
  seat's flag is cleared exactly when a ticket holds that seat.

Modelling conventions:
- Document ids are positions in their collection, since nothing is ever
  deleted.
- Dates are integer day numbers. "Now" is a parameter.
- The ticket references a request receives come as a parameter `pnrs`, one
  string per passenger.

Where the code and its documentation disagree, the model follows the code:
- An empty passenger list is accepted. It produces a booking with no tickets
  and a total of 0 (`TicketService.EmptyRequestBooksNothing`).
- The ticket lookup by reference returns a possibly empty list rather than a
  "not found" error (`TicketService.GetTicketByPnrNumber`).

Gaps in the code's behaviour that the model keeps:
- A booking never decrements the `seatsAvailable` counts of the journey
  summary.
- Seat flags belong to the coach, not to a journey date, so a claimed seat is
  unavailable on every date.
- The fare follows the coach type the passenger declared, not the coach
  record.

## Model

| member | source | states |
|---|---|---|
| Models.ParseCoachType | src/models/coach.model.js:15-19 | exactly "AC" and "Sleeper" are accepted, each mapped to its own type; every other string is rejected |
| Models.ParseStatus | src/models/train_instance.model.js:29-33 | exactly the four journey statuses are accepted, and each maps to its own status and no other |
| Models.ParseGender | src/models/ticket.model.js:28-32 | exactly "Male", "Female" and "Other" are accepted, and each maps to its own gender and no other |
| Models.FirstIndex | src/services/coach.service.js:34-36 | the result is the position of the first element satisfying the test, or nothing exactly when no element does |
| Models.Filter | src/services/ticket.service.js:134 | the result keeps every element that passes the test and only such elements, and is no longer than the input |
| Models.FilterAppend | src/services/ticket.service.js:134 | filtering two sequences laid end to end gives the filtered first followed by the filtered second, so the filter keeps store order |
| Models.FilterSingle | src/services/ticket.service.js:134 | a single element is kept exactly when it passes the test; with `FilterAppend` this fixes the result element by element |
| SeatGeneration.SeatCount | src/utils/generateSeatsForCoach.util.js:3-8 | "AC" and "Sleeper" get 10 seats each; any other type gets an undefined bound and so 0 seats |
| SeatGeneration.FreshSeats | src/utils/generateSeatsForCoach.util.js:2-19 | the generated coach has `SeatCount` seats, with pairwise distinct numbers, all available |
| SeatGeneration.GenerateSeatsForCoach | src/utils/generateSeatsForCoach.util.js:11-16 | the loop numbers the seats 1..N in order, all available, and produces exactly `FreshSeats` |
| SeatLedger.TakeSeat | src/services/ticket.service.js:32 | the positional update keeps the seat list's length |
| SeatLedger.ClaimSeat | src/services/ticket.service.js:20-38 | a successful conditional update keeps the number of coaches |
| SeatLedger.CoachOfUnique | src/models/coach.model.js:4-9 | with unique coach numbers, the lookup of a coach by train and number finds the one coach with them |
| SeatLedger.NotNamed | src/services/ticket.service.js:20-30 | when no coach carries the coach number, the seat is missing and the claim matches no document |
| SeatLedger.SeatFreeIffAvailable | src/services/ticket.service.js:24-29 | with unique seat numbers, the seat's status is free exactly when an available seat carries its number, as the element match tests |
| SeatLedger.TakeSeatEffect | src/services/ticket.service.js:32 | clearing the flag keeps every seat number, turns that seat from free to taken and leaves every other seat number's status unchanged |
| SeatLedger.ClaimSucceedsIffFree | src/services/ticket.service.js:20-42 | on a well-formed ledger the claim matches a document exactly when the named seat exists and is available |
| SeatLedger.ClaimTakesOnlyThatSeat | src/services/ticket.service.js:20-38 | a successful claim keeps the ledger's layout, turns the named seat from free to taken and changes the status of no other seat |
| SeatLedger.SameLayoutKeepsWellFormed | src/models/coach.model.js:4-24 | flipping flags cannot break the uniqueness of coach and seat numbers |
| SeatLedger.SameLayoutTransitive | src/services/ticket.service.js:18-42 | successive claims compose: each keeps the layout, so together they keep it |
| Sorting.InsertBy | src/services/train.service.js:47 | inserting into a sorted list keeps it sorted and adds exactly that element |
| Sorting.SortBy | src/services/train.service.js:47 | the result is sorted by the key and is a permutation of the input |
| Sorting.SortByKeepsMembers | src/services/ticket.service.js:152 | sorting keeps the length and exactly the members of the input |
| Sorting.StrLessIrreflexive | src/services/train.service.js:179 | no string sorts strictly before itself |
| Sorting.StrLessTransitive | src/services/train.service.js:179 | the string order is transitive |
| Sorting.StrLessTotal | src/services/train.service.js:179 | any two different strings are ordered one way or the other |
| Sorting.InsertDistinct | src/services/train.service.js:177-179 | adding a name to a strictly increasing list keeps it strictly increasing, with exactly the old names and the new one |
| Sorting.SortedDistinct | src/services/train.service.js:175-179 | grouping then sorting yields each name of the input once, in strictly increasing order |
| Sorting.StrictlyIncreasingDistinct | src/services/train.service.js:177 | a strictly increasing list repeats no name |
| TrainService.GetTrainByTrainNumber | src/services/train.service.js:14-16 | the result is a stored train with the requested number, and nothing exactly when no train has that number |
| TrainService.GetTrainByTrainNumberIsTheOne | src/models/train.model.js:4-9 | with unique train numbers, the lookup returns the one train with that number |
| TrainService.AddTrainTo | src/services/train.service.js:32-34 | the insert fails exactly when the number is in use; otherwise the train is appended, and the train numbers stay unique |
| TrainService.Availability | src/services/train.service.js:67-71 | the coaches map one to one, in order, with the number, the type and the stored seat count |
| TrainService.BookableAmong | src/services/train.service.js:43-47 | the listed journeys are exactly the train's journeys dated now or later and not cancelled, each shown as stored, in store order and so each once |
| TrainService.BookableJourneys | src/services/train.service.js:43-72 | a permutation of those journeys, in non-decreasing date order |
| TrainService.GetTrainInfo | src/services/train.service.js:37-75 | the call fails with "Train not found" exactly when no train has that id; otherwise the details (number, name, stations, departure, duration, fares) are the train's, and the bookings are a permutation of the train's upcoming non-cancelled journeys, sorted by date |
| TrainService.TotalSeats | src/services/train.service.js:151-155 | an empty summary totals 0; with non-negative counts the total is non-negative and at least each entry's count |
| TrainService.TotalSeatsSingle | src/services/train.service.js:151-155 | a one-entry summary totals that entry's count |
| TrainService.TotalSeatsAppend | src/services/train.service.js:151-155 | the total of two summaries laid end to end is the sum of their totals, so the total is the sum of the counts |
| TrainService.AvailableDates | src/services/train.service.js:117-158 | a date is listed exactly when it is a scheduled journey of the train within the next 30 days, with the sum of its coaches' seat counts |
| TrainService.WindowJourneysCons | src/services/train.service.js:117-129 | a train's in-window journeys are the first journey, when it qualifies, followed by those among the rest |
| TrainService.DatesInStoreOrder | src/services/train.service.js:117-158 | one date per in-window scheduled journey of the train, position by position, in store order, each with its seat total |
| TrainService.ActiveTrainNumbers | src/services/train.service.js:83-89 | a train number is active exactly when some scheduled journey of it lies within the next 30 days |
| TrainService.GetActiveTrains | src/services/train.service.js:78-164 | exactly the trains with an in-window scheduled journey are listed, each with at least one available date |
| TrainService.ActiveTrainsOfCons | src/services/train.service.js:93-98 | the matched trains are the first train, when its number is active, followed by those among the rest |
| TrainService.ActiveTrainsInStoreOrder | src/services/train.service.js:93-158 | one entry per train with an active number, position by position, in store order, each with its details and available dates |
| TrainService.StationNames | src/services/train.service.js:168-175 | a name appears exactly when some train starts or ends there |
| TrainService.GetAllCities | src/services/train.service.js:167-189 | the cities are exactly the source and destination names, each once, in ascending order |
| CoachService.AddCoachTo | src/services/coach.service.js:9-16 | an unknown type and a coach number in use are refused, each exactly in its case; otherwise the coach is appended with the given numbers and type and the generated seats, numbered 1 to 10 and all available, and the ledger stays well formed; the train is not checked |
| CoachService.CountAvailable | src/services/coach.service.js:32 | the count is at most the number of seats; it equals it exactly when every seat is available, and is 0 exactly when none is |
| CoachService.CountAvailableIsFilterLength | src/services/coach.service.js:32 | the count is the number of seats whose flag is set |
| CoachService.UpdateInstance | src/services/coach.service.js:31-47 | a journey keeps its train, date and status, and an upcoming journey lists the coach afterwards |
| CoachService.UpdateTrainInstances | src/services/coach.service.js:19-50 | every journey is updated on its own, and the number of journeys is unchanged |
| CoachService.UpdateInstanceEffect | src/services/coach.service.js:25-45 | past journeys, other trains' journeys and summaries already listing the coach are untouched, stale count included; otherwise one entry counting the available seats is appended after the existing ones |
| CoachService.UpdateTrainInstancesIdempotent | src/services/coach.service.js:34-44 | running the update a second time for the same coach changes nothing |
| CoachService.FreshCoachFullyAvailable | src/services/coach.service.js:32 | a freshly generated coach counts all its seats as available |
| CoachService.GetCoachesForTrain | src/services/coach.service.js:53-59 | the listing holds exactly the number and type of each coach of the train |
| CoachService.CoachesOfCons | src/services/coach.service.js:53-59 | the train's coaches are the first coach, when it belongs to the train, followed by the train's coaches among the rest |
| CoachService.CoachesListedInStoreOrder | src/services/coach.service.js:53-59 | one listing per coach of the train, position by position, in store order |
| CoachService.GetCoachDetails | src/services/coach.service.js:62-64 | the result is a coach with that number, and nothing exactly when no coach has it |
| TrainInstanceService.StatusOf | src/services/train_instance.service.js:23 | no status gives "Scheduled"; otherwise exactly the four enumerated statuses are accepted, each mapped to its own status |
| TrainInstanceService.CreateTrainInstance | src/services/train_instance.service.js:4-26 | "Train not found", "already exists for this date" and a status outside the enumeration each fail exactly in their case, leaving the store unchanged; otherwise one journey is appended with the given train, date and summary, the status defaults to "Scheduled", and journeys stay unique per train and date |
| ChartService.SeatDetails | src/services/chart.service.js:56-80 | the seats of the first coach with that train and coach number, and no seats when the train has no such coach |
| ChartService.ChartCoaches | src/services/chart.service.js:48-84 | one entry per summary entry, in order, with the summary's count (not recounted) and the seats of the first coach of the train with that number |
| ChartService.GetReservationChart | src/services/chart.service.js:3-93 | the call fails with "No train scheduled for this date" exactly when the train record is missing or no journey matches the train and date; otherwise it charts the first matching journey and takes its details from the train record |
| ChartService.ChartSeatsAreLedgerSeats | src/services/chart.service.js:56-80 | with unique coach numbers, the seats shown are that coach's seats, whatever count the summary carries |
| RoleMiddleware.Normalise | src/middlewares/role.middleware.js:2-4 | a single role becomes a one-element list; a list is kept |
| RoleMiddleware.CheckRole | src/middlewares/role.middleware.js:1-21 | 401 exactly when there is no account; 403 exactly when the list is non-empty and lacks the account's role; otherwise the next handler runs |
| TicketService.Fare | src/services/ticket.service.js:43-46 | the AC fare when the declared type is "AC", the sleeper fare for anything else |
| TicketService.IssueOne | src/services/ticket.service.js:19-69 | a passenger whose seat cannot be claimed fails with "Seat S in coach C is not available"; after a successful claim, a gender or coach type the schema rejects fails as an invalid ticket, a reference in use fails on the unique index, and otherwise the passenger goes through; on success the claim produced the new ledger, one ticket with that passenger's data was appended, and its reference was unused |
| TicketService.IssueFirst | src/services/ticket.service.js:18-70 | after `n` passengers there are exactly `n` tickets; no failure is "Train not found" |
| TicketService.SumFares | src/services/ticket.service.js:71 | no tickets total 0, and every ticket's fare is at most the total |
| TicketService.SumFaresSingle | src/services/ticket.service.js:71 | a single ticket totals its own fare |
| TicketService.SumFaresAppend | src/services/ticket.service.js:71 | the total of two ticket lists laid end to end is the sum of their totals, so the total is the sum of the fares |
| TicketService.Positions | src/services/ticket.service.js:76 | the booking lists `n` consecutive ticket ids starting at the first new one |
| TicketService.Book | src/services/ticket.service.js:8-92 | "Train not found" exactly when no train has the number; on success the trains and journeys are unchanged, the old tickets are followed by one new ticket per passenger, and the new booking is appended |
| TicketService.IssueStep | src/services/ticket.service.js:19-69 | each passenger's claim is made on the ledger the previous passengers left, and that passenger's ticket is appended after theirs |
| TicketService.FailureSticks | src/services/ticket.service.js:86-88 | once a passenger fails, the whole request fails with that passenger's error |
| TicketService.IssuedInPassengerOrder | src/services/ticket.service.js:48-66 | the j-th ticket carries the j-th passenger's data, the request's train and date, the fare for the declared type, "Confirmed" and the caller |
| TicketService.Keys | src/services/ticket.service.js:21-27 | one seat per passenger, in order, named by the train, coach and seat |
| TicketService.ExtendClaims | src/services/ticket.service.js:20-42 | one more successful claim keeps the layout, keeps the claimed seats distinct and taken, and changes no other seat |
| TicketService.ClaimsOfRequest | src/services/ticket.service.js:18-42 | after `n` passengers, their seats were free before the request, are pairwise distinct and are taken now, and no other seat changed |
| TicketService.BookingClaimsExactlyTheSeats | src/services/ticket.service.js:18-42 | a successful booking found every named seat free, names no seat twice, takes exactly those seats and keeps the ledger well formed |
| TicketService.RepeatedSeatFails | src/services/ticket.service.js:39-42 | a seat named twice in one request makes the whole request fail |
| TicketService.UnavailableSeatFails | src/services/ticket.service.js:39-42 | a seat that is missing or taken makes the whole request fail |
| TicketService.BookedTickets | src/services/ticket.service.js:48-85 | success gives one ticket per passenger in passenger order, and a paid, confirmed booking of the caller listing exactly the new tickets, with the sum of their fares as total |
| TicketService.RequestPnrsFresh | src/models/ticket.model.js:9-14 | a request that went through used references that no stored ticket carries, and no two of its passengers got the same one |
| TicketService.DuplicatePnrFails | src/models/ticket.model.js:12 | a reference already in use, or given to two passengers, aborts the whole booking |
| TicketService.DeclaredAc | src/services/ticket.service.js:44 | the number of passengers who declared "AC" is at most the number of passengers |
| TicketService.FaresByDeclaredType | src/services/ticket.service.js:43-46 | the fares priced by declared type add up to the AC fare per AC passenger plus the sleeper fare per other passenger |
| TicketService.BookingTotal | src/services/ticket.service.js:71-77 | the booking total counts the AC fare for each passenger who declared "AC" and the sleeper fare for every other passenger |
| TicketService.EmptyRequestBooksNothing | src/services/ticket.service.js:18-83 | an empty passenger list is accepted: a booking with no tickets, a total of 0 and an unchanged ledger |
| TicketService.NextSeatStillFree | src/services/ticket.service.js:20-38 | a seat none of the earlier passengers named is still free on the ledger they left |
| TicketService.NextPnrUnused | src/models/ticket.model.js:9-14 | a fresh reference is carried neither by a stored ticket nor by a ticket the request already created |
| TicketService.IssueFirstSucceeds | src/services/ticket.service.js:18-70 | passengers whose seats are free and distinct, who pass the schema and get fresh references all get their tickets |
| TicketService.BookSucceedsIff | src/services/ticket.service.js:8-92 | on a well-formed ledger a booking succeeds exactly when the train exists, the named seats are free and distinct, every passenger passes the schema, and the references are unused and distinct |
| TicketService.TrainsNumbered | src/services/ticket.service.js:104-109 | the join shows exactly the stored trains with that number, name, stations, departure and duration, and at most as many as are stored |
| TicketService.GetTicketByPnrNumber | src/services/ticket.service.js:96-129 | every ticket shown carries the reference; the result is empty exactly when no ticket carries it |
| TicketService.LookupFindsTheTicket | src/services/ticket.service.js:96-100 | with unique references, the lookup yields exactly the one ticket that carries the reference |
| TicketService.TicketsListed | src/services/ticket.service.js:136-141 | the joined tickets are exactly the stored tickets whose ids the booking lists, no more than the store holds |
| TicketService.TrainsOf | src/services/ticket.service.js:144-149 | the joined trains are exactly the stored trains that some joined ticket is on |
| TicketService.JoinAll | src/services/ticket.service.js:135-150 | each booking is joined on its own, in order |
| TicketService.JoinedBookings | src/services/ticket.service.js:133-150 | one joined entry per booking of the user, position by position in store order, each with its tickets and their trains |
| TicketService.GetUserTickets | src/services/ticket.service.js:132-155 | a permutation of the user's joined bookings, most recent first |
| StoreInvariants.TicketKeys | src/models/ticket.model.js:15-45 | one seat per ticket, in ticket order |
| StoreInvariants.AvailableSeatsNeverTaken | src/utils/generateSeatsForCoach.util.js:14 | a coach whose flags are all set holds no taken seat |
| StoreInvariants.AppendFreeCoach | src/services/coach.service.js:9-16 | inserting a freshly generated coach neither takes nor frees any seat |
| StoreInvariants.AddCoachKeepsValid | src/services/coach.service.js:9-16 | a coach insert keeps the store invariant |
| StoreInvariants.CreateTrainInstanceKeepsValid | src/services/train_instance.service.js:12-18 | scheduling a journey keeps the store invariant, with journeys unique per train and date |
| StoreInvariants.UpdateTrainInstancesKeepsValid | src/services/coach.service.js:19-50 | the summary update keeps the store invariant |
| StoreInvariants.ClaimsKeepSeatsMatching | src/services/ticket.service.js:20-66 | when the claimed seats were free and become the new tickets' seats, no seat is on two tickets and a seat is taken exactly when a ticket holds it |
| StoreInvariants.FreshPnrsKeepUnique | src/models/ticket.model.js:12 | tickets with fresh, pairwise different references keep references unique |
| StoreInvariants.BookedTicketKeys | src/services/ticket.service.js:48-66 | after a booking the tickets hold the old seats followed by the request's seats, with the request's references |
| StoreInvariants.BookTicketsKeepsValid | src/services/ticket.service.js:8-92 | a successful booking keeps the store invariant |
| StoreInvariants.BookedReferencesFindTheirTickets | src/services/ticket.service.js:8-129 | after a booking on a valid store, looking up the reference a passenger got yields exactly that passenger's new ticket |
| StoreInvariants.ApplyKeepsValid | src/services/ticket.service.js:84-88 | every write, whether it succeeds or fails, keeps the store invariant |
| StoreInvariants.RunKeepsValid | src/services/ticket.service.js:84-88 | any sequence of writes keeps the store invariant |
| StoreInvariants.ReachableStoresValid | src/services/ticket.service.js:20-42 | from an empty store, after any sequence of writes, no seat is on two tickets, a seat's flag is cleared exactly when a ticket holds it, and train numbers, coach numbers, journeys and references stay unique |
| Store.Database.AddTrain | src/services/train.service.js:32-34 | the collections change exactly as `AddTrainTo` says, the result is the train or the duplicate error, and the invariant is kept |
| Store.Database.AddCoach | src/services/coach.service.js:9-16 | the generated seats go into the new coach; the collections change exactly as `AddCoachTo` says; the saved coach is returned; the invariant is kept |
| Store.Database.UpdateTrainInstances | src/services/coach.service.js:19-50 | the loop over the journeys leaves exactly the journeys `UpdateTrainInstances` describes, nothing else changes, and the invariant is kept |
| Store.Database.CreateTrainInstance | src/services/train_instance.service.js:4-26 | the collections change exactly as `CreateTrainInstance` says, the new journey is returned, and the invariant is kept |
| Store.Database.TotalFare | src/services/ticket.service.js:71 | the reduce adds up the tickets' fares in order |
| Store.Database.IssueTicket | src/services/ticket.service.js:19-69 | the per-passenger step computes exactly `IssueOne` on the current store |
| Store.Database.BookTickets | src/services/ticket.service.js:8-92 | on success the store becomes exactly `Book`'s new store and the receipt is returned; on any failure the error is returned and the store is unchanged; the invariant is kept |

## Left out

- Field presence and `trim`: the schemas' `required` and `trim` options on strings are not modelled. Only the enumerations and the unique indexes are.
- Concurrency: `Promise.all` over the passengers is modelled as processing them in list order, with the first failure ending the request. Under concurrent callers the database guarantees per-seat atomicity; the code itself does not implement it.
- Sessions and transactions: they are modelled as one all-or-nothing step on the store.
- Time of day: dates are whole days, and "now" and the booking timestamp are parameters. A journey dated today therefore counts as upcoming all day; the code compares a midnight journey date with the current instant, so it drops such a journey once the day has begun.
- Malformed ids: the cast error for an id that is not an ObjectId is out of scope. `getTrainInfo` takes a position, and a position outside the store is "Train not found".
- Ticket references: how a reference is built from a fresh ObjectId is not modelled. References arrive as a parameter, and only the unique index is modelled. The code keeps the first 10 hex digits of the ObjectId, which are the timestamp and one byte of the per-process value, so two passengers booked in the same second by one process get the same reference; `TicketService.DuplicatePnrFails` shows that such a booking fails as a whole.
- Other train lookups: `getAllTrains`, `getTrainById`, `getTrainBySourceAndDestination` and `getTrainByDayOfOperation` in src/services/train.service.js are single store queries with no logic of their own. `getTrainById` appears only as the position lookup inside `GetTrainInfo`.
- Booking service: src/services/booking.service.js is not part of this model. It populates a field the booking schema lacks.
- Cancellation: the schemas have cancellation fields but no code path uses them.
- Authentication and accounts are not part of this model.
- Controllers and routes are not part of this model: they do HTTP wiring and status-code mapping only.
- TrainInstanceService.CreateTrainInstance: the summary entries arrive with their coach type already parsed (`CoachType`). The schema's rejection of an entry whose type is outside "AC" and "Sleeper" is therefore not modelled, and the listed errors are exact only among requests whose entries are well typed.
- Store.Database.UpdateTrainInstances: the coach type arrives already parsed (`CoachType`). A type string outside the enumeration, which the journey schema would reject on save, is not modelled.
- ChartService.GetReservationChart: with several train records of the same number, the unwind would give one row per record. The model uses the first record; the unique index on train numbers rules the case out in any reachable store.
- TicketService.Book: the `availableCoaches` counts are never decremented by a booking, matching the code. The summary therefore drifts from the ledger.
