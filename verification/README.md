# Verification of the room booking service

A Dafny model of the room booking service: bookings of half-hour slots, a waitlist for each slot, reservations that
hand a freed slot to the next person in line for a limited time, the generator that keeps a rolling window of slots
stored, the creation of room schedules, and the hub that pushes events to connected clients. `dafny verify
dfyconfig.toml` checks everything.

## How it is built

**The booking protocol.** `Domain` and `Tables` hold the rows of the three tables and the meaning of the queries on
them. `Protocol` gives each transactional operation as a function from the tables before it to the tables, the result
and the published events after it. `Repositories` and `Services` are the imperative side: a `Store` class whose methods
change the tables in place and can be made to fail at any call, and the three service classes, each method of which is
proved to do what its `Protocol` function says or, when a call failed, to have changed no row and published nothing.
`Application` wires them together over one database and shows that any sequence of requests, whichever calls fail on the
way, is a run of the protocol, to which the results below apply.

On the functions the main results are proved. No single table says who holds a slot, yet the tables together are, for
each slot, a first-in first-out lock (`SlotLock`): free, booked, or reserved until a deadline, with a queue.
`Invariants` states what every reachable state satisfies; `Simulation`, `Expiry` and `Refinement` show that every
operation is one step of the lock on each slot it touches and nothing on the others. The expiry batch is the hard one:
it marks all rows first and promotes afterwards, so slots are free in between; `Expiry` shows that the batch equals
dealing with the due rows one at a time, in any order. `Evolution`, `Fairness`, `Cascade`, `Replay`, `Notices`,
`Availability` and `Atomicity` draw the consequences over whole runs. What one operation does is also stated without
its function, from the rows it finds: `Answers` has a table of answers for each operation, `Effects` the rows it adds
and changes, field by field, and `EventLog` and `EventOrder` the events it publishes, which are the difference between
the tables before and after, each told once, to the right room and in order. `RowLocks` drops the atomicity of transactions and
interleaves them call by call under row locks.

**The slot generator.** `Calendar` and `SlotGrid` define the grid a timetable describes, independently of any loop, and
the starts the loops visit; `SlotStorage` has the table with its constraints and the reused batch buffer; `Generator`
has the loops, of one run and of any sequence of runs; `Resumption` shows that resuming after the last stored slot loses
nothing over any history of runs, some of which stopped anywhere on the way. `Schedules` and `Tiling` cover the creation of schedules and how they are cut.

**The realtime hub.** `Subscriptions` is a map of non-empty sets and the pairs it stands for; `Realtime` has the hub and
client classes with their two-way index, bounded queues and eviction, and any sequence of requests to them.

Times are whole nanoseconds since the epoch. The clock is a parameter of every operation, and where the database stamps
a row with its own clock that instant is a separate parameter.

## What turned out false

- The listing of available slots does not look at the clock: a slot that has started is listed but cannot be booked.
  `Availability.ListedButPast` gives such a state, `Availability.ListedIsBookable` the exact condition.
- A subscription that reaches a client after it was closed puts the closed client back into the room.
  `Realtime.LateSubscription` exhibits it; by `Realtime.Client.Subscribe` closed clients stay out of all rooms exactly
  when the subscribing client is open. Only an unsubscription takes the client out again
  (`Realtime.LateUnsubscription`): broadcasts and further closes leave it where it is.
- An operation that answers with an error does not always leave the database exactly as it was: a join that the unique
  index refuses, and one interrupted after its insert, have used up a position, because the sequence is not rolled back.
  `Atomicity.RefusalLeavesPositions` gives the exact condition - which refusals do it can be checked before the call -
  and `Atomicity.RefusedJoinMovesOn` a run in which it happens. Every row is left alone in all cases
  (`Atomicity.RefusalChangesNothing`).

## Model

| member | source | states |
|---|---|---|
| Refinement.ReachableInv | internal/usecase/reservation/service.go:354-402 | In every state of every run, a slot has at most one active booking, at most one active reservation, never both; positions grow; entries with a claim stamp match reservations one to one; the holder is not in the queue; no slot with waiters is free |
| Refinement.OperationKeepsInv | internal/usecase/booking/service.go:143-268 | Each operation, refused or not, keeps that invariant |
| Refinement.RunRefinesLock | internal/usecase/booking/service.go:127-310 | Every run of the operations is, slot by slot, a run of the first-in first-out lock, and the lock is sound in every state, the last one included |
| Refinement.OperationSteps | internal/usecase/reservation/service.go:145-448 | Each operation is one enabled step of the lock of each slot it touches and leaves every other lock alone |
| Refinement.CreateBookingSteps | internal/usecase/booking/service.go:143-185 | A booking acquires the lock exactly when the slot is free, and otherwise changes no lock |
| Refinement.CancelBookingSteps | internal/usecase/booking/service.go:210-268 | Cancelling an active booking hands the slot to the head of the queue until now + TTL, or frees it |
| Refinement.ConfirmReservationSteps | internal/usecase/reservation/service.go:158-219 | Confirming turns the reservation of the slot into a booking of the same user, queue unchanged |
| Refinement.CancelReservationSteps | internal/usecase/reservation/service.go:246-308 | Cancelling an active reservation hands the slot on or frees it |
| Refinement.JoinWaitlistSteps | internal/usecase/waitlist/service.go:47-86 | Joining puts the user at the tail of the queue of a slot booked by somebody else |
| Refinement.LeaveWaitlistSteps | internal/usecase/waitlist/service.go:108-119 | Leaving takes the user out of the queue and keeps the order of the others |
| Refinement.ExpireDueSteps | internal/usecase/reservation/service.go:354-402 | One expiry batch hands on or frees exactly the slots of the rows it picked |
| SlotLock.StepKeepsSound | migrations/0003_add_waitlist_entries.up.sql:11-13 | No step of the lock puts a user into a queue twice, or its holder into it, or leaves a free slot with waiters |
| Simulation.LockIsSound | migrations/0004_add_slot_reservations.up.sql:13-15 | The lock read off a reachable state is sound |
| Simulation.ClaimTakesHead | internal/repository/postgres/waitlist_repo.go:63-91 | Claiming the smallest position takes the head off the queue of its slot, and touches no other queue |
| Simulation.LeaveAbandons | internal/repository/postgres/waitlist_repo.go:41-61 | Leaving removes the leaver's place from the queue and no one else's |
| Simulation.PromoteGrants | internal/usecase/booking/service.go:240-262 | Claim and reservation together grant the lock to the head of the queue |
| Expiry.BatchIsSequence | internal/usecase/reservation/service.go:355-400 | Marking the whole batch and then promoting slot by slot comes to the same as expiring and promoting one row at a time |
| Expiry.ExpireDueKeepsInv | internal/usecase/reservation/service.go:354-402 | A batch never fails on its own and keeps the invariant, although slots are free between its two halves |
| Expiry.ExpireDueReleases | internal/usecase/reservation/service.go:360-400 | The lock of each slot after a batch: granted to its head if a due row was picked for it, unchanged otherwise |
| Expiry.OrderDoesNotMatter | internal/repository/postgres/reservation_repo.go:204-241 | Holders, deadlines and queues after a batch do not depend on the order in which the rows are returned |
| Tables.NextWaiting | internal/repository/postgres/waitlist_repo.go:63-75 | The claimed entry is an active one of the slot with the least position; none only when nobody waits |
| Evolution.RunEvolves | internal/repository/postgres/reservation_repo.go:163-241 | Over any stretch of a run no row goes back: entries never become active again and are claimed at most once, ended reservations never change |
| Evolution.OneOutcome | internal/usecase/reservation/service.go:169-217 | A reservation has one outcome: confirmed before its deadline into a booking of that user made at that instant, expired at or after it, or cancelled; and it keeps it |
| Evolution.ConfirmableOrDue | internal/usecase/reservation/service.go:172-174 | At any instant an active reservation is due for expiry, or can be confirmed by its user provided that its slot has not started, never both; one whose slot has started before its deadline is neither |
| Fairness.Conservation | internal/repository/postgres/waitlist_repo.go:63-91 | While an entry waits, those queued before it wait, were claimed or left, and nobody behind it was claimed |
| Fairness.QueueAdvances | internal/repository/postgres/waitlist_repo.go:63-91 | Between two states of a run the entries ahead of a waiter dropped by exactly the claims made and the departures ahead of it, whatever else happened |
| Fairness.ClaimedInTurn | migrations/0003_add_waitlist_entries.up.sql:6 | A waiting entry with k waiters ahead of it is the next to be claimed if and only if k of them, since then, were claimed or left |
| Fairness.ClaimsInOrder | internal/repository/postgres/waitlist_repo.go:63-91 | Along any run the positions claimed for a slot are strictly increasing, and no operation claims two entries of one slot |
| Fairness.OneClaimPerSlot | internal/usecase/reservation/service.go:360-400 | One operation, an expiry batch included, claims at most one entry of a slot |
| Fairness.NoBargingIn | internal/usecase/booking/service.go:154-162 | No booking succeeds for a slot somebody waits for |
| Cascade.OperationWindsDown | internal/usecase/reservation/service.go:271-307 | Cancelling, expiring, confirming and leaving change nothing or strictly decrease 4 x waiting + notified + 2 x active reservations + active bookings |
| Cascade.CascadeIsBounded | internal/usecase/booking/service.go:223-265 | Any cascade of those operations is no longer than that sum |
| Cascade.RunIsBounded | internal/usecase/booking/service.go:223-265 | Over any run at all, those operations change something no more often than that sum at the start, plus one for each successful booking and four for each successful join |
| Cascade.ExpireDueCatchesUp | internal/repository/postgres/reservation_repo.go:204-241 | A batch leaves as many due reservations as were due, less the limit |
| Cascade.CallsCatchUp | internal/usecase/reservation/service.go:338-402 | With n due at a fixed instant, k batches leave at most n - k x limit, so ceil(n / limit) calls leave none |
| Replay.OperationReplays | internal/usecase/reservation/service.go:410-445 | Folding an operation's events turns the occupancy of every slot before it into the one after it |
| Replay.RunReplays | internal/usecase/booking/service.go:194-308 | A subscriber who hears one room's events only, from the first, knows the occupancy of each of its slots at every point of every run |
| Replay.FeedReplays | internal/usecase/booking/service.go:194-308 | The same from all events, for any slot |
| Replay.QuietWhenUnchanged | internal/usecase/reservation/service.go:312-334 | An operation that changes no row publishes nothing |
| Availability.SlotsOfDayExist | internal/repository/postgres/slot_repo.go:40-142 | Every table has a listing of the slots of a room and day, each once, by start time |
| Availability.ListAllIsExact | internal/repository/postgres/slot_repo.go:76-142 | The outer joins return each slot of the day exactly once, with the status, booking and reservation of its lock, and the reservation's waitlist entry exactly when it is reserved |
| Availability.ListAvailableIsExact | internal/repository/postgres/slot_repo.go:40-74 | Of the same joins, the rows without partners are the slots of the day that nobody holds, each once, by start time |
| Availability.AvailableIsBookable | internal/usecase/booking/service.go:143-185 | A slot is shown as available exactly when a user's booking at that instant succeeds |
| Availability.BookedIsJoinable | internal/usecase/waitlist/service.go:47-86 | Joining succeeds exactly when the slot is shown as booked, by somebody else, and the user has no active or notified entry |
| Availability.ListedIsBookable | internal/repository/postgres/slot_repo.go:40-75 | A listed slot is bookable if and only if it has not started |
| Availability.ListedButPast | internal/repository/postgres/slot_repo.go:40-75 | Empty tables with one slot that has started: it is listed and cannot be booked |
| Atomicity.RefusalChangesNothing | internal/repository/postgres/tx_manager.go:18-36 | An operation that returns an error leaves every row as it was and publishes nothing |
| Atomicity.RefusalLeavesPositions | internal/repository/postgres/waitlist_repo.go:23-39 | An operation that answers with an error, refused or interrupted, leaves the position sequence alone too if and only if it is not a join of an open slot booked by somebody else by a user who has a pending entry there, nor a transaction interrupted after it had taken positions |
| Atomicity.RefusedJoinMovesOn | migrations/0003_add_waitlist_entries.up.sql:6-13 | A run in which a second join is refused and the sequence has moved on |
| Atomicity.PromotionNeverRefused | internal/usecase/reservation/service.go:285-306 | In a reachable state a promotion's reservation never hits the unique index: internal errors come from the infrastructure only |
| Answers.CreateAnswers | internal/usecase/booking/service.go:133-185 | A booking is refused as forbidden, unknown, past, reserved or already booked if and only if the rows say so, and succeeds if and only if none of these holds |
| Answers.CancelAnswers | internal/usecase/booking/service.go:199-268 | Cancelling one's own booking, active or not, succeeds; the error of every other case, internal only where a booked slot were reserved too |
| Answers.JoinAnswers | internal/usecase/waitlist/service.go:41-86 | The error of every refused join in terms of slot, holder and pending entries, and success exactly otherwise |
| Answers.LeaveAnswers | internal/usecase/waitlist/service.go:101-119 | Leaving one's own entry, pending or not, succeeds; another's is not found |
| Answers.ConfirmAnswers | internal/usecase/reservation/service.go:150-219 | The error of every refused confirmation, and success exactly for one's own active reservation before its deadline, of a slot that is not booked and has not started |
| Answers.DeclineAnswers | internal/usecase/reservation/service.go:236-269 | Cancelling one's own reservation, active or not, succeeds; the error of every other case |
| Answers.EveryAnswer | internal/domain/errors.go:11-27 | Where every slot has one holder, each operation answers with the error of its table and no other, and succeeds exactly when it has none; an expiry never fails |
| Answers.HolderTells | migrations/0004_add_slot_reservations.up.sql:13-15 | Booked, booked for a user and reserved, as the answers use them, say the same as the holder of the slot's lock |
| Answers.CancelShowsRow | internal/usecase/booking/service.go:215-268 | The answer is the stored row of the caller's booking; one cancelled before is returned as it is, with nothing changed and nothing published |
| Answers.LeaveShowsRow | internal/repository/postgres/waitlist_repo.go:41-61 | The answer is the stored row of the caller's entry; an ended one is returned as it is |
| Answers.DeclineShowsRow | internal/usecase/reservation/service.go:266-314 | The answer is the stored row of the caller's reservation; an ended one is returned as it is, with nothing changed and nothing published |
| Answers.TakenShowsRow | internal/usecase/reservation/service.go:196-217 | Bookings, joins and confirmations answer with the rows they have stored |
| Answers.TwiceIsOnce | internal/usecase/reservation/service.go:266-269 | Cancelling or leaving again, at any later instant, succeeds again, changes nothing and publishes nothing |
| Effects.BookingsExact | internal/repository/postgres/booking_repo.go:104-125 | Which bookings an operation adds or changes, and every field of them |
| Effects.EntriesExact | internal/repository/postgres/waitlist_repo.go:41-91 | Which waitlist entries an operation adds or changes, and every field: the leaver's, and the first in line of every slot given up |
| Effects.ReservationsExact | internal/repository/postgres/reservation_repo.go:163-241 | Which reservations an operation confirms, cancels, expires or adds, and every field of them |
| Effects.PromotedIsReserved | internal/usecase/booking/service.go:240-262 | Whoever is first in line for a slot an operation gives up gets a reservation |
| Effects.RestExact | migrations/0003_add_waitlist_entries.up.sql:6 | Slots are only added, by the generator; a position is used up exactly by a join that came to its insert |
| Effects.InstantsExact | internal/usecase/booking/service.go:249-258 | Every instant written: rows made, confirmed or expired at the service's clock, reservations running out exactly the time to live later, claims at the database's clock |
| EventLog.EventsNameTheRoom | internal/usecase/reservation/service.go:194-227 | Every event of every operation names a known slot and that slot's room |
| EventLog.EventsExact | internal/usecase/reservation/service.go:410-445 | Every event is published once if the tables before and after warrant it, and not at all otherwise: bookings made, bookings released and reservations offered with nobody waiting, reservations made, reservations expired |
| EventLog.ExpiryEventsExact | internal/usecase/reservation/service.go:410-420 | A batch tells the holder and the room of each expired row once, and offers its slot once if and only if nobody waits for it |
| EventLog.OfferedWhenNobodyWaits | internal/usecase/reservation/service.go:332-334 | A cancelled reservation offers its slot once if and only if it was the caller's active one and nobody waits |
| EventLog.TakingPublishes | internal/usecase/booking/service.go:194-196 | A booking made, directly or by confirming, is the one event, in the room of its slot |
| EventLog.CancelPublishes | internal/usecase/booking/service.go:274-308 | The events of a cancelled booking, in order: the room hears of the new reservation before its user, or of the release |
| EventLog.DeclinePublishes | internal/usecase/reservation/service.go:316-334 | The same for a cancelled reservation |
| EventOrder.BatchTellsInOrder | internal/usecase/reservation/service.go:410-445 | A batch tells of all expired rows first, in the order of the query, holder before room before offer, and then of the new reservations in the order they were made |
| EventOrder.GrantsFollowRows | internal/usecase/reservation/service.go:360-400 | The reservations of a batch are made in the order of its expired rows |
| Application.App.Serve | cmd/app/main.go:90-103 | Each request to the wired services is one operation of the protocol on the tables, the log and the answer, or after a fault a rolled back transaction; the invariant is kept |
| Application.App.ServeAll | internal/repository/postgres/tx_manager.go:18-36 | Any sequence of requests to the services is a run of the protocol, whichever calls fail and whatever the expiry query answers: each request is the operation asked for or, only while faults are still to come, a rolled back transaction; the invariant holds after each, every lock is sound, and whoever heard one room's part of the published log knows who has each of its slots |
| Application.AsAskedOnceFaultless | internal/repository/postgres/tx_manager.go:18-36 | Once no fault is left, every later request is exactly the operation asked for |
| Application.ServeFromStart | cmd/app/main.go:90-103 | The same from the first start, for every set of slots, faults, requests and query answers |
| Application.SomeQueryAnswers | internal/repository/postgres/reservation_repo.go:204-241 | The expiry query has an answer for every table, instant and limit |
| Notices.EveryReservationAnnounced | internal/usecase/reservation/service.go:422-436 | Every reservation an operation makes is announced to its user with its slot, entry and deadline, and nothing else is |
| Notices.ExpiredAreTold | internal/usecase/reservation/service.go:410-420 | The holders of the rows a batch expires are told, and nobody else |
| Notices.ReleasedWhenNobodyWaits | internal/usecase/booking/service.go:274-308 | Cancelling a booking publishes the release of its slot if and only if the caller owns the active booking and nobody waits for the slot |
| Notices.ReservedWhenSomebodyWaits | internal/usecase/booking/service.go:275-296 | A run in which somebody waits: the slot is published as reserved and not as released |
| Notices.OnlyOwnRowsChange | internal/usecase/booking/service.go:215-220 | A user's operation changes no booking or reservation of others, and of others' entries only the first in line, to notify it; an administrator's changes nothing |
| Services.BookingService.CreateBooking | internal/usecase/booking/service.go:127-197 | Does what the protocol says, or on an injected failure nothing; answers with the stored active booking of the caller, and publishes it to the room of its slot |
| Services.BookingService.CancelBooking | internal/usecase/booking/service.go:199-310 | Same, including the promotion and the choice of events after the commit; answers with the stored cancelled row |
| Services.WaitlistService.JoinWaitlist | internal/usecase/waitlist/service.go:41-99 | Same; answers with the stored active entry of the caller |
| Services.WaitlistService.LeaveWaitlist | internal/usecase/waitlist/service.go:101-127 | Same; answers with the stored entry, ended |
| Services.ReservationService.ConfirmReservation | internal/usecase/reservation/service.go:145-229 | Same; answers with the stored confirmed reservation and the new booking of the caller, and publishes it to the room of its slot |
| Services.ReservationService.CancelReservation | internal/usecase/reservation/service.go:231-336 | Same; answers with the stored reservation, ended |
| Services.ReservationService.ExpireDue | internal/usecase/reservation/service.go:338-448 | Same, with the loops over the expired rows and over the replacements |
| Services.PromoteNext | internal/usecase/booking/service.go:239-263 | Claims the next waiter, stamped by the database's clock, and reserves the slot for them from now until now + TTL, or fails as a whole |
| Repositories.Store.CreateBooking | internal/repository/postgres/booking_repo.go:23-39 | Inserts unless the slot has an active booking, and says which |
| Repositories.Store.SetBookingCancelled | internal/repository/postgres/booking_repo.go:104-125 | Cancels an active row only, and returns the row either way |
| Repositories.Store.Join | internal/repository/postgres/waitlist_repo.go:23-39 | Inserts with the next position unless the user has a pending entry; the position is used up in both cases |
| Repositories.Store.Leave | internal/repository/postgres/waitlist_repo.go:41-61 | Cancels an active or notified entry of that user, returns any entry of that user |
| Repositories.Store.ClaimNextForNotify | internal/repository/postgres/waitlist_repo.go:63-91 | Stamps and notifies the first waiter, or does nothing |
| Repositories.Store.CreateReservation | internal/repository/postgres/reservation_repo.go:24-54 | Inserts unless the slot has an active reservation |
| Repositories.Store.SetConfirmed | internal/repository/postgres/reservation_repo.go:163-182 | Confirms an active row only, and returns the row either way |
| Repositories.Store.SetReservationCancelled | internal/repository/postgres/reservation_repo.go:184-202 | Cancels an active row only, and returns the row either way |
| Repositories.Store.ExpireBatch | internal/repository/postgres/reservation_repo.go:204-241 | Expires exactly the picked rows and returns them in the picked order |
| Repositories.Store.Commit | internal/repository/postgres/tx_manager.go:32-35 | Keeps the transaction's changes, or restores every table |
| RowLocks.AtMostOneWins | internal/repository/postgres/reservation_repo.go:163-241 | However transactions interleave call by call and roll back, a reservation that is no longer active was ended by exactly one committed transaction and a notified entry was claimed by exactly one |
| RowLocks.NoSecondEnder | internal/repository/postgres/reservation_repo.go:74-91 | While one transaction has ended a reservation no other has, and none can lock it |
| RowLocks.StepKeepsInv | internal/repository/postgres/waitlist_repo.go:63-91 | Every single call keeps locks disjoint, writes locked, and the committed counts right |
| Calendar.WeekdayIsIso | internal/app/slotgen/time.go:26-35 | The weekday test is ISO numbering, Monday 1 to Sunday 7, for every instant, before 1970 too |
| Calendar.ComputeLowerBound | internal/app/slotgen/time.go:68-73 | A run starts no earlier than now and no earlier than half an hour after the last stored slot, and at one of the two |
| SlotGrid.GridSpaced | migrations/0001_init.up.sql:41-46 | Two different slots of one room's grid never overlap |
| SlotGrid.EmissionExact | internal/app/slotgen/generator.go:113-182 | The nested loops visit a start if and only if it is on the grid and in [lowerBound, target) |
| SlotGrid.EmissionSpaced | internal/app/slotgen/generator.go:97-132 | They visit them in strictly increasing order, half an hour or more apart |
| SlotGrid.SortRules | internal/app/slotgen/generator.go:97-111 | Sorting by weekday, start and id gives an ordered permutation |
| SlotStorage.SlotTable.InsertBatchIgnoreConflicts | internal/repository/postgres/slot_repo.go:164-186 | Stores the rows in order, skipping duplicates; a failing call has stored a beginning of them, and fails only for a fault or a row the overlap constraint refuses |
| SlotStorage.SlotTable.GetLastSlotStartByRoomID | internal/repository/postgres/slot_repo.go:144-162 | The greatest stored start of the room, if there is one |
| SlotStorage.Batch.Append | internal/app/slotgen/generator.go:195-201 | The reused buffer loses nothing: sent batches and buffer together are what was emitted, and every batch sent here is full |
| SlotStorage.Batch.Flush | internal/app/slotgen/generator.go:203-213 | What was buffered is sent as one batch; an empty buffer sends nothing |
| SlotStorage.Sent | internal/app/slotgen/generator.go:195-213 | One more batch keeps the batches a cut of the emitted rows into full pieces, the last one possibly shorter |
| Generator.SlotGenerator.GenerateForSchedule | internal/app/slotgen/generator.go:137-183 | Emits exactly the rule's starts, or a beginning of them when it fails |
| Generator.SlotGenerator.GenerateForRoom | internal/app/slotgen/generator.go:89-135 | Stores and sends a beginning of the room's emission, all of it on success, in non-empty batches of maxBatch except the last |
| Generator.SlotGenerator.Generate | internal/app/slotgen/generator.go:44-87 | A run keeps the table sound whatever happens, fails only for a reason outside, on success leaves every listed room's window filled, and in any case adds only rows of listed rooms inside the window, in batches of at most maxBatch |
| Generator.SlotGenerator.GenerateInTurn | internal/app/slotgen/generator.go:44-87 | The generator itself, run any number of times from an empty table at a clock that does not go back, with schedules added in between and any cancellation, failing call or failing query: the table is sound after every run, a run fails only when something went wrong, adds only rows of its rooms inside its window, and each one that succeeds leaves the windows of its rooms exactly filled |
| Resumption.HistoryFills | internal/app/slotgen/generator.go:89-135 | After any history of runs at a clock that does not go back, some stopped anywhere, nothing off the grid is stored and a completed run at t leaves exactly the grid in [t, t + window) |
| Resumption.ResumingEqualsRegenerating | internal/app/slotgen/time.go:68-73 | Resuming after the last slot fills the window as generating it afresh would |
| Resumption.RunLeavesNoGap | internal/app/slotgen/generator.go:113-182 | However far a run got, no grid slot between now and the last stored one is missing |
| Resumption.NeverRefused | migrations/0001_init.up.sql:41-46 | The overlap constraint never refuses a generated row |
| Resumption.NothingReinserted | internal/app/slotgen/time.go:68-73 | Every row a run sends is new: conflicts are never hit |
| Tiling.WindowCovered | internal/app/slotgen/generator.go:155-180 | Every instant of a rule's window lies in exactly one generated slot when the window is a whole number of half hours |
| Tiling.RuleTiled | internal/app/slotgen/generator.go:158-180 | A rule yields as many slots as fit, back to back from its start; a shorter remainder is dropped |
| Schedules.AcceptedTilesExactly | internal/usecase/schedule/service.go:83-88 | An accepted schedule yields exactly (end - start) / 30 min slots on each matching day, the last ending with the rule |
| Schedules.AlignedIsHalfHours | internal/usecase/schedule/service.go:142-150 | The minute arithmetic accepts exactly the non-negative multiples of thirty minutes |
| Schedules.ScheduleService.CreateSchedule | internal/usecase/schedule/service.go:29-121 | An administrator's input for a known room without a schedule is accepted if and only if its days are 1 to 7 and its times are half hours, the first before the second; then one rule is stored for each different day in strictly increasing order, keeping every room's rules a timetable. Each error says why, both ways, and changes nothing |
| Schedules.ScheduleService.DistinctDays | internal/usecase/schedule/service.go:61-73 | The different days of the input in strictly increasing order, or the finding that one is no weekday |
| Schedules.NewRulesKeepTimetables | migrations/0001_init.up.sql:20-29 | A first schedule of a room leaves every room with a timetable, and the new room with exactly these rules |
| Schedules.ScheduleStore.CreateBatch | internal/repository/postgres/schedule_repo.go:40-66 | Inserts all rows or none; refuses a second rule for a room's weekday |
| Realtime.Hub.Broadcast | internal/realtime/hub.go:87-108 | Each open subscriber of the room gets the message once at the tail of its queue, or is closed when the queue is full; all other clients are untouched |
| Realtime.Hub.SendToUser | internal/realtime/hub.go:110-129 | The same for the open clients of a user |
| Realtime.Hub.UnsubscribeAll | internal/realtime/hub.go:49-59 | The client is taken out of every set, and sets left empty are dropped |
| Realtime.Hub.GaugeCountsBothWays | internal/realtime/client.go:54-62 | The subscription gauge is the sum of the rooms' sizes and the sum of the clients' numbers of subscriptions |
| Realtime.Hub.ClosedIsGone | internal/realtime/client.go:54-70 | A closed client is under no user, and in no room exactly when its own list is empty |
| Realtime.Client.Subscribe | internal/realtime/client.go:143-163 | Both sides of the index and the gauge agree afterwards, up to 100 rooms, acknowledged or refused or evicted; closed clients stay out of all rooms exactly when this one is open |
| Realtime.Client.Unsubscribe | internal/realtime/client.go:165-180 | Takes the room off both sides of the index and off the gauge, on an open client and on one closed before, or does nothing when not subscribed |
| Realtime.LateSubscription | internal/realtime/client.go:143-163 | A client that was run, closed and then subscribed is in the room |
| Realtime.LateUnsubscription | internal/realtime/client.go:165-180 | Unsubscribing it takes it out again and restores the agreement |
| Realtime.Client.Close | internal/realtime/client.go:54-70 | The first close removes the client everywhere and takes its subscriptions off the gauge; a second does nothing |
| Realtime.Client.Enqueue | internal/realtime/client.go:200-216 | Takes the message exactly when the queue is open and has room |
| Realtime.Carry | internal/realtime/hub.go:23-108 | One connection, subscription, unsubscription, disconnection, writing, broadcast or message does what it says to its client or targets and nothing to the others, keeps the two-way index and the gauge in agreement, and keeps closed clients out of all rooms unless it subscribed one |
| Realtime.Session | internal/realtime/hub.go:23-108 | The same after any sequence of these on a new hub |
| Subscriptions.SameTotal | internal/realtime/hub.go:10-14 | Two maps of sets that record the same pairs, each from its side, have the same total |

## Left out

- Services.BookingService.CancelBooking: the code reads its booking without a row lock, so all statements across tables are about transactions that run one after the other; only `RowLocks` speaks about interleaved calls.
- Services.ReservationService.ExpireDue: the rows picked by the expiry query are a parameter, any answer the query may give.
- Repositories.Store.Rollback: a rollback that fails itself is not modelled; the database then drops the transaction anyway.
- Generator.SlotGenerator.Generate: each run is given its own instant. The constructor in the code binds the clock function to the moment of construction (internal/app/slotgen/generator.go:38); what a clock that stands still does to the window is not modelled.
- Generator.SlotGenerator.GenerateForRoom: the rules are sorted as a value, not inside the slice the query returned; ids are compared as numbers in place of their texts.
- SlotStorage.SlotTable.InsertBatchIgnoreConflicts: a failing call may leave any beginning of its rows, which includes the none-or-all of a driver that wraps a batch in a transaction.
- Schedules.ScheduleService.CreateSchedule: the check that no schedule exists and the insert are one step, so the answer to a concurrent insert is not shown; times of day come parsed.
- Realtime.Client.Subscribe: operations of clients and hub are atomic; the interleavings their mutexes allow are not modelled beyond the late subscription.
- The generator's table and the booking tables are two models: the booking protocol only knows that slots are added and never change.
- Primary keys are table indices and slot ids are numbers; UUIDs and hashed slot ids are taken to be fresh and injective.
- Foreign keys to users and deletion of rooms (which cascades to schedules and slots).
- Services without a waitlist or reservation repository; the application wires both.
- Postgres snapshots at READ COMMITTED beyond row locks and skipped rows; deadlocks and lock waits.
- Rounding of timestamps to microseconds by the database.
- HTTP, JSON, authentication, room administration, pagination, configuration, logging and all metrics but the subscription gauge: thin plumbing.
- Redis, sockets, read and write pumps and their timers, the forwarding manager: input and output. Only the order of events and queue contents is kept.
