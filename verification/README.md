# Hotel booking: a verified model

A Dafny model of the reservation-to-room pipeline of a multi-property hotel booking system, with proofs
about it. `dafny verify dfyconfig.toml` checks the whole project.

What is modelled, in the system's own terms:

- **The anti-oversell ledger.** A slot per tenant, property, room type and night counts units sold,
  reserved, blocked and out of service. Reservations hold windows of nights, then release or convert
  them; a converted reservation fans out into booking lines. Every mutation runs under an idempotency
  record, and `reserve` and `convert` nest further guarded calls inside their own. `Slots`, `Store` and
  `Reservations` say what each operation does to the tables; `HotelDatabase` has the same operations as
  they run (lock the rows, check each, change each, roll back); `Ledger`, `Effects`, `LedgerRuns`,
  `Progress` and `Guarantees` hold what is true after every run. `TableEffects` says of each operation, in
  the columns alone and without the vocabulary the operations are written in, when it succeeds, what it
  raises otherwise and what it leaves in every row.
- **Interleaving.** `WindowLocks` interleaves transactions of any number of repository calls at the
  grain of one row lock, read, write or commit, and `AllocationLocks` does so for room allocation.
  `WindowProgress` and `Deadlocks` say which transactions can deadlock and which always finish,
  `CrossedLines` spells that out for two reservations of two lines; `LockOrder` holds the ordering and
  cycle arguments.
- **Rooms, booking lines and housekeeping tasks**, three state machines that move together without one
  owner of their joint invariant: `RoomFloor`, `RoomFloorInvariant`, and `FrontDesk` as it runs.
- **Event and delivery protocols.** `Outbox` and `OutboxService` (relay), `EventLog` (checkpointed
  projectors), `RoomProjection` and `Projectors` (out-of-service counters), `NotificationJobs`
  (one job per event and channel), `Delivery`, `DeliveryGuarantees`, `DeliveryTiming` and
  `NotificationService` (claim, external call, record, with crashes and a reaper).
- **Pricing.** `Money` (percentages in 28-digit decimal arithmetic), `Pricing`, `PriceTerms` (a price term
  by term) and `PricingService`.
- **Optimistic versioning** (`Versioning`) and the **partition calendar** (`Calendar`, `Partitions`).

Times and dates are integers (day numbers, seconds) except in `Calendar`, which has year, month and day.
Primary keys are positions in a table, in insertion order. A failed transaction is rolled back, and a
CHECK or UNIQUE constraint shows as an `IntegrityError`. Clocks, provider failures, crashes, prices and
who steps next are inputs, so every theorem is about all of them.

## What turned out false, and exactly when it holds

- Overbooking is possible when `sell` is given a negative quantity, which its check lets through;
  it is impossible if and only if quantities of direct sales are not negative (`Guarantees.OverbookingThreshold`).
- Reservations of several lines can deadlock. Transactions always finish, from every reachable state on
  every good table of the rows, if and only if there is no ring: two or more of them at places where they
  have locked nothing in common and each next asks for a row locked by the following one
  (`Deadlocks.DeadlockFreeExactly`). Two reservations of two one-night lines deadlock exactly when the
  first row of each is the second row of the other (`CrossedLines.TwoLinesExactly`); single calls, which
  lock by date, never do (`Deadlocks.SingleCallsFinish`).
- The preview `is_sellable` and the write agree for every quantity of at least one. For zero they agree
  exactly when every night has a slot (`Slots.PreviewAtZero`). Below zero the preview is always true, and
  the write succeeds exactly when every night has a slot whose counter stays at zero or above
  (`Slots.PreviewBelowZero`).
- A constraint violation inside a guarded call is answered as a missing idempotency record. A first
  `reserve` is answered so exactly when its rows cannot be stored (`Effects.ReserveHidesExactly`), a first
  `sell` exactly when it passes its check and would leave a night with less than nothing sold
  (`Effects.SellHidesExactly`); `cancel` and `confirm` never hide one (`Effects.CancelHidesExactly`,
  `Effects.ConfirmHidesExactly`).
- A room transition applied outside its service keeps the joint invariant exactly for five of the twelve
  transitions (`RoomFloorInvariant.HarmlessExactly`); taking an occupied room out of order is not one of them.
- After a failed inspection the room stays in cleaning for good: nothing opens another task
  (`RoomFloorInvariant.FailedInspectionStrands`, `StrandedForever`); a room being cleaned can come back
  exactly while a task for it is open (`RoomFloorInvariant.RecoverableExactly`).
- A message may be sent for a job that ends dead-lettered. It cannot, over all runs, if and only if no job
  is reaped, however many workers crash (`DeliveryGuarantees.SentInVainExactly`); a job is delivered iff
  sent, save while a worker has it, over all runs if and only if there is neither crash nor reaping
  (`DeliveryGuarantees.DeliveredIffSentExactly`).
- The out-of-service counter of a night follows its rooms only from the first event folded while the
  horizon reached the night (`RoomProjection.CountersFollowRooms`). So bringing a room back can break the
  CHECK constraint and stop the projector: it is refused exactly when the horizon of that day holds a row
  that is new since the room was taken out, or was beyond the horizon then, and has no other room out
  (`RoomProjection.RestoreExactly`, `RestoreByDays`).
- The projectors are documented as safe to run concurrently. Each event is folded at most once exactly
  when no two projectors run under one name (`EventLog.AtMostOnceExactly`), and none is passed over
  exactly when events arrive in the order they occurred (`EventLog.NothingLostExactly`).
- A dead-lettered outbox row can have its event, exactly when two relays run at once
  (`Outbox.EventsMatchExactly`).
- Saving again after a concurrency error without reloading takes back another writer's update
  (`Versioning.RetryLosesAnUpdate`); a save overwrites exactly what its instance reflects if and only if
  none of its saves since has failed (`Versioning.SaveOverwritesWhatItKnows`).
- `percentage_of` is within half a minor unit of the exact value for products below 10^28; beyond that
  `Money.FaithfulExactly` says for which products, and from 10^30 - 50 on there is no result.
- `ensure_partitions` raises when the range ends in December 9999; `iter_months` also yields the month
  its exclusive end falls in, even on its first day (`Calendar.IterMonths`).

## Model

| member | source | states |
|---|---|---|
| Slots.PreviewAgreesWithWrite | apps/availability/services.py:123-146 | for quantity >= 1 the preview is true iff the locked consume succeeds, which lowers remaining by the quantity on exactly those nights |
| Slots.PreviewAtZero | apps/availability/services.py:99-146 | for quantity 0 preview and write agree iff every night has a slot |
| Slots.PreviewBelowZero | apps/availability/services.py:99-146 | for a negative quantity the preview is always true, and the write succeeds iff every night has a slot whose counter does not go below zero |
| Slots.ApplyKeepsGood | apps/availability/models.py:103-130 | every successful repository call leaves the CHECK constraints true of every row and the set of rows unchanged |
| Text.LineKeyInjective | apps/reservations/services.py:182-190 | the per-line hold key determines the request key and the line number |
| Text.ConvertKeyInjective | apps/reservations/services.py:342-349 | the per-line conversion key determines the reservation and the line number |
| Text.KeysSpelled | apps/reservations/services.py:182-349 | how the two composite keys are written |
| Store.RunOnce | apps/shared/services/idempotency.py:29-91 | while the record of a successful call exists, the same request repeats its answer and changes nothing, whatever mutation it brings, and a different request is refused |
| Store.RunInProgress | apps/shared/services/idempotency.py:81-85 | while another call holds the key the guard refuses, whatever the request |
| Lines.HoldLinesExact | apps/reservations/services.py:182-190 | holding lines one after the other succeeds iff every night is open and the lines together fit; then reserved grows by their sum per night |
| Lines.ReleaseLinesExact | apps/availability/repository.py:105-137 | releasing lines that are on hold gives back exactly their units; the cap never bites |
| Lines.ConvertLinesExact | apps/availability/repository.py:139-170 | converting lines on hold always succeeds and moves exactly their units from reserved to sold |
| Ledger.UnsettledIsOnHold | apps/availability/repository.py:123-137 | in every reachable state the units of an unsettled reservation are within reserved on every night |
| Ledger.FirstReserveHasFreshKeys | apps/reservations/services.py:182-190 | a first-time reserve finds none of its line keys used, so no line hold is answered from replay |
| Ledger.ReserveExact | apps/reservations/services.py:82-198 | a first-time reserve succeeds iff the request is well formed and its lines together fit every night; then exactly its units are held, with one row and one event |
| Ledger.ReleaseExact | apps/reservations/services.py:204-227 | expiring or cancelling an unsettled reservation always succeeds and returns exactly what it held |
| Ledger.ConfirmBodyExact | apps/bookings/services.py:67-112 | the mutation inside confirm succeeds iff the reservation is the tenant's, awaiting payment and not overdue; then units are sold, the reservation converted, one booking and two events written |
| Ledger.PresentFanOut | apps/bookings/services.py:90-107 | the fanned-out booking lines put on each night as many lines of a room type as the reservation had units |
| Ledger.FanOutNumbered | apps/bookings/services.py:90-107 | fan-out numbers its lines consecutively, as many as the summed quantities |
| Ledger.FirstToLast | apps/bookings/services.py:70-72 | the booking's arrival is the least arrival of any line and its departure the greatest departure of any line |
| Effects.ExpireExact | apps/reservations/services.py:204-227 | expire succeeds iff the reservation exists; an unsettled one gives back exactly its units, a settled one is left alone |
| Effects.CancelExact | apps/reservations/services.py:265-304 | a first cancel succeeds iff the reservation is the tenant's; held units come back, settled ones are left alone, nothing else changes |
| Effects.RequestPaymentExact | apps/reservations/services.py:229-259 | payment can be asked for iff the reservation is held and not past its expiry, and only its status moves |
| Effects.SellExact | apps/availability/services.py:170-212 | a first direct sale succeeds iff every night has the quantity to spare and no count goes negative; sold grows by it on exactly those nights |
| Effects.ConfirmExact | apps/bookings/services.py:48-117 | a first confirm succeeds iff the reservation is awaiting payment and not overdue; it leaves every old record, its own and those of the converted lines |
| Effects.ReserveHidesExactly | apps/shared/services/idempotency.py:73-79 | reserve is answered with a missing record iff it is a first one, priced and with lines, whose rows cannot be stored |
| Effects.SellHidesExactly | apps/shared/services/idempotency.py:73-79 | sell is answered so iff it is a first one with the quantity to spare on every night that would leave some night below zero sold |
| Effects.CancelHidesExactly | apps/shared/services/idempotency.py:73-79 | cancel is answered so iff it is a first one and the tenant has no such reservation: it never hides a violation |
| Effects.ConfirmHidesExactly | apps/shared/services/idempotency.py:73-79 | confirm is answered so iff it is a first one and the tenant has no such reservation: it never hides a violation |
| TableEffects.ReserveInTables | apps/reservations/services.py:82-198 | a first reserve succeeds iff it has lines, a quote, a positive hold time and lines with units and nights, every night of every line has a row and all lines together fit what is left there; the four errors otherwise; reserved grows per row by what the lines ask of it, with one row and one event |
| TableEffects.ExpireInTables | apps/reservations/services.py:204-227 | expire raises iff there is no such reservation, leaves a settled one alone, and takes exactly the units of a held or awaiting one off hold |
| TableEffects.CancelInTables | apps/reservations/services.py:265-304 | the same for a first cancel by the tenant, which announces nothing |
| TableEffects.RequestPaymentInTables | apps/reservations/services.py:359-371 | the two errors and otherwise the one status that moves |
| TableEffects.ConfirmInTables | apps/bookings/services.py:48-117 | the two errors of a first confirm; otherwise exactly the units asked for move from reserved to sold, the reservation is converted, and one booking is added |
| TableEffects.BookingOfIsFor | apps/bookings/services.py:67-112 | that booking spans the earliest arrival to the latest departure and has one numbered line per unit, as many on each night of each room type as were asked for |
| TableEffects.ConfirmGuards | apps/bookings/services.py:67-89 | in any tables whatever a reservation with a booking or without lines is refused, and a booking's days are not inverted |
| TableEffects.SellInTables | apps/availability/services.py:170-212 | a first sell succeeds iff every night has a row with the quantity to spare and no sold count would fall below zero; the two errors otherwise; sold moves on exactly those nights |
| TableEffects.HoldInTables | apps/availability/services.py:214-255 | the same for hold and the reserved count, for any quantity |
| TableEffects.ConvertHoldInTables | apps/availability/services.py:257-296 | a first conversion succeeds iff every night has the quantity reserved and no sold count would fall below zero; it moves the quantity on exactly those nights |
| TableEffects.HorizonInTables | apps/availability/services.py:36-93 | opening a horizon adds rows for exactly the missing nights, with the total asked for and nothing used, and is refused iff that total is negative and some night is missing |
| TableEffects.AdjustInTables | apps/availability/repository.py:172-209 | out_of_service moves by the delta on exactly the existing rows of the window, or is refused iff some row would leave zero to total |
| TableEffects.ReleaseInTables | apps/availability/repository.py:105-137 | a release takes off at most what is counted, on exactly the nights of the window, and is refused iff a night has no row |
| TableEffects.MoveInTables | apps/reservations/models.py:107-164 | from which status each transition is allowed, where it leads and which event it records |
| TableEffects.DraftInTables | apps/reservations/services.py:213-304 | in any tables whatever expire leaves a draft alone and a first cancel of one moves its status only |
| LedgerRuns.NextKeepsInv | apps/reservations/services.py:75-371 | every operation, successful or rolled back, keeps the ledger invariant |
| LedgerRuns.RunKeepsInv | apps/availability/models.py:103-130 | the ledger invariant holds after every run from the empty tables |
| Guarantees.ConservationOverRuns | apps/availability/repository.py:71-170 | after every run reserved equals the units of unsettled reservations, sold equals booking lines plus direct sales, every reserved night has a slot, no part is negative and the parts never exceed the total |
| Guarantees.EventsOverRuns | apps/shared/workflows/runner.py:109-134 | after every run the outbox holds each event exactly as often as the state change it belongs to happened |
| Guarantees.BookingsOverRuns | apps/bookings/services.py:67-112 | after every run a reservation is converted iff it has a booking; it has one, from its lines' earliest arrival to their latest departure, numbered 1..N with N the summed quantities and matching per room type and night |
| Guarantees.NeverOverbooked | apps/availability/models.py:109-130 | with non-negative direct sales no run puts more booking lines on a night than total minus blocked minus out of service |
| Guarantees.NegativeSaleOverbooks | apps/availability/services.py:170-212 | a concrete run with a sale of -1 that puts two booking lines on a night with one unit |
| Guarantees.OverbookingThreshold | apps/availability/repository.py:82-103 | overbooking is impossible over all runs iff the quantities of direct sales are bounded below by zero |
| Progress.SettledIsFinal | apps/reservations/models.py:107-164 | expired, cancelled and converted reservations never change again over any run |
| Progress.OverdueNeverConverts | apps/reservations/services.py:229-259 | over every run whose clock does not go back, an overdue hold never converts |
| Progress.NextAdvances | apps/reservations/services.py:331-340 | one operation changes only the status of a reservation, only out of an unsettled one, and converts only at a time not after the hold expiry |
| Progress.RecordsAreFinal | apps/shared/services/idempotency.py:60-79 | a committed idempotency record is never changed or dropped |
| Progress.RetriesHaveOneEffect | apps/shared/services/idempotency.py:29-91 | after any further run a retry of a successful keyed request gives the same response and changes nothing; another payload is refused and changes nothing |
| Progress.ReserveRetries | apps/reservations/services.py:108-113 | after any further run a reserve under the same key repeats the first response iff property, guest, party and lines all agree, is a key conflict otherwise, and changes nothing either way |
| Progress.SaleRetries | apps/availability/services.py:187-195 | the same for sell: property, room type, nights and quantity |
| Progress.CancelRetries | apps/reservations/services.py:274-299 | the same for cancel: the reservation |
| Progress.ConfirmRetries | apps/bookings/services.py:64-117 | the same for confirm: the reservation |
| Progress.HoldRetries | apps/availability/services.py:231-255 | a hold under the key of an earlier one repeats its response iff window and quantity agree, and is a key conflict otherwise |
| Progress.ConvertHoldRetries | apps/availability/services.py:271-296 | the same for the conversion of a hold |
| Progress.SweepLeavesNoneOverdue | apps/reservations/tasks.py:15-26 | an uninterrupted sweep expires exactly the overdue reservations and leaves none |
| Progress.OverdueOnce | apps/reservations/services.py:377-383 | the sweep collects each overdue reservation once |
| Progress.SweepExpiresOnlyOverdue | apps/reservations/services.py:377-383 | however other transactions interleave with the sweep, what it expires was strictly past its expiry |
| HotelDatabase.Database.LockWindow | apps/availability/repository.py:35-69 | locks in date order; fails iff some night has no row |
| HotelDatabase.Database.ConsumeWindow | apps/availability/repository.py:71-103 | the row-by-row write is the all-or-nothing change of the whole window |
| HotelDatabase.Database.ReleaseWindow | apps/availability/repository.py:105-137 | the capped row-by-row release is the change of the whole window |
| HotelDatabase.Database.ConvertReservedToSold | apps/availability/repository.py:139-170 | the row-by-row conversion is the all-or-nothing change of the whole window |
| HotelDatabase.Database.AdjustOutOfServiceWindow | apps/availability/repository.py:172-209 | adjusts exactly the existing rows or none, and counts them |
| HotelDatabase.RowsCounted | apps/availability/repository.py:190-209 | the answer counts each night that has a row once |
| HotelDatabase.Database.InitializeHorizon | apps/availability/services.py:36-93 | adds zeroed rows for exactly the missing nights and answers how many nights had none |
| HotelDatabase.Database.IsSellable | apps/availability/services.py:123-146 | true iff every night has at least the quantity remaining, a missing night counting as zero |
| HotelDatabase.Database.Begin | apps/shared/services/idempotency.py:44-91 | answers from an existing record, or opens a new one |
| HotelDatabase.Database.Sell | apps/availability/services.py:170-212 | leaves the tables and the answer the specification gives, or rolls back |
| HotelDatabase.Database.Hold | apps/availability/services.py:214-255 | leaves the tables and the answer the specification gives, or rolls back |
| HotelDatabase.Database.ConvertHoldToSold | apps/availability/services.py:257-296 | leaves the tables and the answer the specification gives, or rolls back |
| HotelDatabase.Database.RunTransition | apps/shared/workflows/runner.py:94-135 | status and event change together along a declared transition, or not at all |
| HotelDatabase.Database.Reserve | apps/reservations/services.py:82-198 | leaves the tables and the answer the specification gives, or rolls back |
| HotelDatabase.Database.Expire | apps/reservations/services.py:204-227 | leaves the tables and the answer the specification gives, or rolls back |
| HotelDatabase.Database.Cancel | apps/reservations/services.py:265-304 | leaves the tables and the answer the specification gives, or rolls back |
| HotelDatabase.Database.RequestPayment | apps/reservations/services.py:359-371 | leaves the tables and the answer the specification gives, or rolls back |
| HotelDatabase.Database.Convert | apps/reservations/services.py:310-352 | the expiry check, the line conversions and the transition, as specified |
| HotelDatabase.Database.Confirm | apps/bookings/services.py:48-117 | leaves the tables and the answer the specification gives, or rolls back |
| HotelDatabase.Database.FanOutLines | apps/bookings/services.py:90-107 | the nested loop with its running line number is the specified fan-out |
| HotelDatabase.Database.SweepExpiredHolds | apps/reservations/tasks.py:15-26 | the loop is one expiry per overdue id, and counts them |
| LockOrder.SomeoneCanRun | apps/availability/repository.py:35-69 | when every party waits for something ranked above all it holds, some party can run |
| WindowLocks.InterleavingIsSerial | apps/availability/repository.py:35-170 | any interleaving of transactions of any number of repository calls ends in the rows of running the finished ones serially in commit order, each with the same outcome, and no row is oversold |
| WindowLocks.ApplyAllLocal | apps/availability/repository.py:49-69 | a transaction depends only on the rows of its windows and changes no other |
| WindowProgress.NeverStuck | apps/availability/repository.py:58-69 | while a transaction is unfinished some unfinished one can step, unless there is a ring |
| WindowProgress.EverythingFinishes | apps/availability/repository.py:35-69 | without a ring a schedule finishes all transactions from every reachable state; every enabled step uses up finite work |
| WindowProgress.DeadlockLasts | apps/availability/repository.py:58-69 | transactions that wait for each other's rows wait for ever, whatever is scheduled |
| Deadlocks.DeadlockFreeExactly | apps/availability/repository.py:35-170 | transactions of any number of repository calls can always be run to their end, from every reachable state on every good table, iff no ring of them exists |
| Deadlocks.AscendingHasNoRing | apps/availability/repository.py:58-69 | calls that ascend in one order of the rows make no ring |
| Deadlocks.SingleCallsFinish | apps/availability/repository.py:71-209 | transactions of one repository call each finish from every reachable state, whatever their windows |
| CrossedLines.TwoLinesExactly | apps/reservations/services.py:182-190 | two transactions of two one-night lines can deadlock iff the first row of each is the second row of the other |
| RoomFloor.BestIsLeast | apps/allocation/services.py:74-87 | the chosen room is the least by stay continuity then id among the vacant clean candidates, and none is chosen only if there is no candidate |
| RoomFloorInvariant.OccupiedExactlyByOne | apps/allocation/services.py:193-208 | a room is occupied iff exactly one checked-in line points to it |
| RoomFloorInvariant.AllocateLineExact | apps/allocation/services.py:119-238 | allocation succeeds iff the line is confirmed and some room is vacant clean, not deleted, and of its tenant, property and type; the three errors otherwise; it gives the preferred room, and its uniqueness constraint is never what fails |
| RoomFloorInvariant.BestIsPreferred | apps/allocation/services.py:74-108 | for a guest the lowest suitable room given to another line of that guest, if there is one; otherwise, and without a guest, the lowest suitable room |
| RoomFloorInvariant.CheckOutExact | apps/housekeeping/services.py:53-93 | once the line is checked in, check-out fails exactly when its room is due for service or there is a departure task for that room and that very day; what it leaves otherwise |
| RoomFloorInvariant.AssignExact | apps/housekeeping/models.py:117-127 | assigning takes exactly a planned task and moves nothing else |
| RoomFloorInvariant.StartExact | apps/housekeeping/services.py:120-139 | starting always succeeds on a planned or assigned task and only there: its room turns from dirty to cleaning with it |
| RoomFloorInvariant.CompleteExact | apps/housekeeping/services.py:145-168 | completing always succeeds on a task in progress and only there: its room turns from cleaning to inspected with it |
| RoomFloorInvariant.InspectExact | apps/housekeeping/services.py:175-224 | inspecting a task in quality check always succeeds: passed, task verified and room vacant clean; failed, task rejected and room in cleaning; the errors otherwise |
| RoomFloorInvariant.JointOverRuns | apps/housekeeping/services.py:45-224 | over every run of allocate, check-out, assign, start, complete, inspect and in-stay service rooms, lines, tasks, inspections and allocation records stay in step |
| RoomFloorInvariant.HarmlessExactly | apps/rooms/models.py:150-268 | a room transition on its own keeps the joint invariant of every floor iff it is one of service, service complete, defect, restore, restore direct |
| RoomFloorInvariant.ChangesAreDeclared | apps/rooms/models.py:150-268 | over every run each event of a room is one of the twelve declared pairs of states |
| RoomFloorInvariant.TurnsAlongDeclared | apps/rooms/services.py:19-59 | a room can be turned to another state iff the pair is declared |
| RoomFloorInvariant.FailedInspectionStrands | apps/housekeeping/services.py:214-220 | a failed inspection leaves its room in cleaning with no open task |
| RoomFloorInvariant.StrandedForever | apps/rooms/models.py:190-228 | such a room never changes again, over any run |
| RoomFloorInvariant.RecoverableExactly | apps/housekeeping/services.py:120-224 | a room in cleaning can be vacant clean again iff a task for it is open |
| RoomFloorInvariant.UniqueOnAnyFloor | apps/allocation/services.py:193-208 | on any floor whatever no line gets a second allocation record and no task a second inspection |
| RoomFloorInvariant.BookingExact | apps/bookings/services.py:90-107 | a booking line begins confirmed, for its guest and without a room |
| FrontDesk.Desk.OrderedRoomIds | apps/allocation/services.py:86-87 | a permutation of the candidates, sorted by the key |
| FrontDesk.Desk.FirstVacant | apps/allocation/services.py:181-185 | the least by sort key among the rooms found vacant under lock |
| FrontDesk.Desk.ChooseRoom | apps/allocation/services.py:151-191 | candidates, scores, ascending locks and re-check together choose the specified room |
| FrontDesk.Desk.AllocateLine | apps/allocation/services.py:119-238 | leaves the floor the specification gives and answers with the row it wrote, or rolls back |
| FrontDesk.Desk.TurnRoom | apps/rooms/services.py:19-59 | state and event change together along a declared transition, or not at all |
| FrontDesk.Desk.CheckOut | apps/housekeeping/services.py:53-93 | leaves the floor the specification gives and answers with the row it wrote, or rolls back |
| FrontDesk.Desk.StartCleaning | apps/housekeeping/services.py:120-139 | leaves the floor the specification gives, or changes nothing |
| FrontDesk.Desk.CompleteCleaning | apps/housekeeping/services.py:145-168 | leaves the floor the specification gives, or changes nothing |
| FrontDesk.Desk.Inspect | apps/housekeeping/services.py:175-224 | leaves the floor the specification gives, or rolls back |
| AllocationLocks.InterleavingIsSerial | apps/allocation/services.py:119-191 | any interleaving of allocate_line calls ends in the floor of running the finished ones serially in commit order with the same outcomes, so each took the least candidate still vacant |
| AllocationLocks.NoRoomTwice | apps/allocation/services.py:171-208 | no room is given to two lines |
| AllocationLocks.NeverStuck | apps/allocation/services.py:127-140 | while a call is unfinished some unfinished call can step, whatever the guests' score orders |
| AllocationLocks.EverythingFinishes | apps/allocation/services.py:127-140 | from every reachable state a schedule finishes all calls |
| Delivery.SendKeyInjective | apps/notifications/services.py:38-40 | two jobs never share a provider key |
| Delivery.ExecuteKeeps | apps/notifications/services.py:42-155 | every action of any worker, crash or reaper keeps the delivery invariant |
| DeliveryGuarantees.RetriesAreFailures | apps/notifications/services.py:42-155 | over every run retry_count equals the failed attempts, is below the ceiling while delivering and never above it |
| DeliveryGuarantees.DeliveredMeansSent | apps/notifications/services.py:83-90 | a job is delivered iff it has one succeeded attempt, never more, and then the provider has recorded its send |
| DeliveryGuarantees.SentAtMostOnce | apps/notifications/providers.py:53-68 | the provider records at most one send per job |
| DeliveryGuarantees.FewTransitions | apps/notifications/models.py:178-209 | a job makes at most 2 * ceiling + 1 transitions, and its version counts them |
| DeliveryGuarantees.FinalIsFinal | apps/notifications/models.py:178-209 | delivered and dead-lettered jobs never change again and get no further attempts |
| DeliveryTiming.CreateExact | apps/notifications/projectors.py:111-121 | a job begins pending, never tried and stamped with its creation |
| DeliveryTiming.ClaimExact | apps/notifications/services.py:52-64 | a claim begins a delivery stamped with its own time, dead-letters a job at the ceiling, or does nothing |
| DeliveryTiming.ReapExact | apps/notifications/services.py:137-155 | one look of the reaper fails a job iff it has been in delivery for longer than the timeout |
| DeliveryTiming.ReapedExactlyAfter | apps/notifications/services.py:101-155 | over any run, while a delivery begun at time c is still that delivery, the reaper leaves it alone up to c plus the timeout and takes it back at every later time |
| DeliveryGuarantees.SentInVainExactly | apps/notifications/services.py:42-155 | no run dead-letters a job whose message was sent iff reaping is not among the actions; crashes alone never do |
| DeliveryGuarantees.DeliveredIffSentExactly | apps/notifications/services.py:64-99 | delivered iff sent, except while a worker has the job, over all runs iff neither crash nor reaping is among the actions |
| DeliveryGuarantees.ReapingDeadLetters | apps/notifications/services.py:101-155 | a run without a crash in which reaping dead-letters a sent job |
| DeliveryGuarantees.CrashLosesTheAnswer | apps/notifications/services.py:64-99 | a run without reaping in which a crash leaves a sent job undelivered with no worker at it |
| NotificationService.FakeEmailProvider.SendMessage | apps/notifications/providers.py:53-68 | a repeated key returns the same reference and records nothing; a failing key is refused once |
| NotificationService.Service.Deliver | apps/notifications/services.py:42-99 | an uninterrupted call leaves the state of one worker's steps taken in order |
| NotificationService.DeliverExact | apps/notifications/services.py:42-99 | an uninterrupted deliver does nothing, ends the retries, or makes one attempt, which succeeds iff the message can be made up and the provider takes it |
| NotificationService.Service.ReapStuckDelivering | apps/notifications/services.py:101-155 | the scan and loop reap exactly the stuck jobs and count them |
| NotificationService.ReapsExact | apps/notifications/services.py:127-155 | reaping fails each stuck job once, with one failed attempt, and touches no other |
| NotificationService.SweepReaps | apps/notifications/services.py:127-155 | the sweep fails exactly the jobs in delivery for longer than the timeout, each once |
| EventLog.AtMostOnceExactly | apps/availability/projectors.py:46-82 | every event is folded at most once over all runs iff at most one projector runs |
| EventLog.OverlapFoldsTwice | apps/availability/projectors.py:55-59 | two overlapping projectors fold one event twice |
| EventLog.NothingLostExactly | apps/availability/projectors.py:88-99 | a single projector never passes over an event, however its batches fall, iff events arrive in the order they occurred |
| EventLog.FoldedIsPrefix | apps/notifications/projectors.py:38-86 | with events in order, those folded so far are exactly the first ones, each once |
| EventLog.LostForever | apps/availability/projectors.py:91-98 | an event below the checkpoint that was not folded never will be |
| EventLog.RoundsFoldEverything | apps/availability/projectors.py:46-82 | from every reachable state with an ordered log, n batches without a failure fold the next n * size events, or all that are left, each once and in order |
| EventLog.BatchIsARun | apps/availability/projectors.py:46-82 | a batch that ends after n events leaves the checkpoint at the n-th, as the run of its steps does |
| RoomProjection.FoldChangesExact | apps/availability/projectors.py:101-122 | folding, each event on its own day, succeeds iff no prefix breaks a constraint; then every slot has moved by what its rooms have on the days whose horizon reached it |
| RoomProjection.FoldInTables | apps/availability/projectors.py:101-122 | one event moves the rows of the room's type from its fold day on by one unit when the room goes out or comes back, by nothing otherwise, and is refused iff some row would leave zero to total |
| RoomProjection.CountersMove | apps/availability/projectors.py:101-122 | among holds, sales and new rows a slot's counter moves by exactly the folds that reach it |
| RoomProjection.OpenedLater | apps/availability/services.py:36-93 | a slot opened later counts only what is folded after it |
| RoomProjection.CountersFollowRooms | apps/availability/projectors.py:101-122 | folding all events of any run, on whatever days and among whatever else, changes a slot's out_of_service by exactly the change in its rooms out of order or service over the stretch of the run folded while the horizon reached it |
| RoomProjection.RestoreExactly | apps/availability/projectors.py:101-122 | after a take-out and any bookings and new rows, the fold that restores the room succeeds iff every row it reaches was reached by the take-out or had another room out |
| RoomProjection.RestoreByDays | apps/availability/projectors.py:115-122 | the same as a comparison of the two fold days with the last nights then and now |
| RoomProjection.ChangesAreLinked | apps/rooms/services.py:37-57 | each room's events form a linked chain from its first state to its present one |
| Projectors.RoomStateProjector.ProcessBatch | apps/availability/projectors.py:46-82 | folds exactly the longest foldable beginning of the batch, each event on the day it is folded, leaves the checkpoint at its last event and does not pass the failing one; the table stays what all folds so far make of it |
| Projectors.RoomStateProjector.CaughtUp | apps/availability/projectors.py:46-122 | a projector that has folded an ordered log of a floor's events has every counter moved by the change in its rooms over the stretch folded while the horizon reached it |
| Projectors.RoomStateProjector.BatchesCatchUp | apps/availability/projectors.py:46-82 | repeating batches in which no event fails folds every event of an ordered log |
| Projectors.CountedStays | apps/availability/repository.py:71-209 | nothing else that happens to the slot table disturbs what the projector has counted |
| Projectors.RoomStateProjector.ApplyChange | apps/availability/projectors.py:101-122 | adjusts the window by one for a change across the boundary, and by nothing otherwise |
| NotificationJobs.JobsExact | apps/notifications/projectors.py:88-126 | for any history of foldings there is one job per event and channel, and exactly where one was ever wanted |
| NotificationJobs.RefoldIsNoop | apps/notifications/models.py:145-150 | folding an event again, its recipient being the same, changes nothing |
| NotificationJobs.NotificationProjector.ProcessBatch | apps/notifications/projectors.py:38-67 | folds exactly the events before the first whose recipient cannot be resolved, each with the recipient it then has, and does not pass the failing one |
| Outbox.OneEventPerRow | apps/shared/services/outbox.py:92-119 | under any interleaving of relays each outbox row has at most one event, and a published row has one |
| Outbox.SettledStays | apps/shared/services/outbox.py:108-142 | published and dead-lettered rows stay so |
| Outbox.OldestFirst | apps/shared/services/outbox.py:73-90 | a batch is the oldest pending rows in order, as many as there are up to its size |
| Outbox.RecordExact | apps/shared/services/outbox.py:41-58 | a row is recorded pending and never tried, for its tenant, and has no event yet |
| Outbox.CrashExact | apps/shared/services/outbox.py:73-90 | a relay that dies forgets its batch and leaves the tables alone |
| Outbox.EventsMatchExactly | apps/shared/services/outbox.py:121-142 | exactly the published rows have events, over all runs, iff at most one relay runs |
| Outbox.AttemptsLeftExactly | apps/shared/services/outbox.py:121-142 | pending implies attempts below the maximum, over all runs, iff at most one relay runs or the maximum is one |
| Outbox.BatchesDrain | apps/shared/services/outbox.py:73-90 | a single relay repeating its batch has nothing pending after as many batches as failures are left, whatever fails |
| OutboxService.OutboxRelay.PublishBatch | apps/shared/services/outbox.py:73-82 | promotes or counts each row of the batch, keeps the invariant, and uses up at least one possible failure per row |
| OutboxService.SucceedingCounted | apps/shared/services/outbox.py:73-82 | the answer counts each row that does not fail once |
| Versioning.Model.SaveRow | apps/shared/models/mixins.py:69-108 | guard, version bump and conditional update leave row, memory and outcome as specified |
| Versioning.SaveExact | apps/shared/models/mixins.py:69-108 | when a save goes through; it writes exactly the listed columns, or all without a list, and only then is the status in memory taken as saved |
| Versioning.VersionCountsSaves | apps/shared/models/mixins.py:100-108 | over every run the row's version counts the successful saves |
| Versioning.SaveOverwritesWhatItKnows | apps/shared/models/mixins.py:69-108 | a save that goes through overwrites exactly the row its instance reflects iff none of its saves since failed or was rolled back |
| Versioning.NothingElseIsOverwritten | apps/shared/models/mixins.py:205-217 | such a save changes only fields its own instance changed, and the status only inside a workflow |
| Versioning.RetryLosesAnUpdate | apps/shared/models/mixins.py:79-84 | a repeated save without reload takes another instance's update back |
| Money.FaithfulExactly | apps/shared/value_objects/money.py:91-93 | for which products the result is within half a minor unit of the exact percentage |
| Money.TiesAwayFromZero | apps/shared/value_objects/money.py:77-93 | ties go away from zero |
| Money.OddInBoth | apps/shared/value_objects/money.py:77-93 | odd in amount and in percent, also in where it fails |
| Money.MonotoneInAmount | apps/shared/value_objects/money.py:77-93 | monotone in the amount for a percent that is not negative |
| Money.AddsWithinCurrency | apps/shared/value_objects/money.py:47-51 | amounts of one currency add up, amounts of two do not |
| Pricing.ClampedExact | apps/pricing/services.py:408-413 | the total is the subtotal brought within the bounds, the floor winning when they contradict each other |
| Pricing.DisjointOverRuns | apps/pricing/services.py:267-290 | over every run of add_override the active ranges stay pairwise disjoint |
| Pricing.OverlapsExactly | apps/pricing/services.py:191-193 | two ranges overlap iff they have a night in common |
| Pricing.OnlyMatch | apps/pricing/services.py:175-179 | with disjoint overrides the first match is the only one |
| Pricing.PriceIsOrderIndependent | apps/pricing/services.py:363-413 | listing overrides and modifiers in another order changes no night, subtotal or total, nor whether there is a price |
| Pricing.StayRounding | apps/pricing/services.py:369-395 | the nightly subtotal is off by at most half a minor unit per percentage applied |
| PriceTerms.WeekGoesRound | apps/pricing/services.py:159-160 | day 1 is a Monday, weekdays run 1 to 7 and then begin again |
| PriceTerms.WeekendAdds | apps/pricing/services.py:159-160 | a weekend modifier adds its percentage on exactly the nights a whole number of weeks from one of its weekdays |
| PriceTerms.NightMatchesExactly | apps/pricing/services.py:153-163 | on which nights each calendar modifier counts |
| PriceTerms.StayMatchesExactly | apps/pricing/services.py:166-172 | for which stays each segment modifier counts |
| PriceTerms.ShareIsHundredth | apps/shared/value_objects/money.py:77-93 | for products below 10^28 a percentage is the hundredth rounded half away from zero |
| PriceTerms.PercentageDefined | apps/shared/value_objects/money.py:91-93 | a percentage is defined iff the product is below 10^30 - 50 |
| PriceTerms.NightInFull | apps/pricing/services.py:369-395 | a night costs the base, what the first override over it adds, and a percentage of the base for each modifier that counts |
| PriceTerms.StayInFull | apps/pricing/services.py:395-413 | the subtotal is the nights plus a percentage of them for each segment modifier; the total keeps to the bounds |
| PriceTerms.ItemsNameModifiers | apps/pricing/services.py:381-387 | the itemised adjustments name the counting modifiers in list order |
| PriceTerms.ItemsNameOverride | apps/pricing/services.py:374-380 | the override of a night comes first among its adjustments, named by its id |
| PriceTerms.NightComesOutExactly | apps/pricing/services.py:369-395 | a night has a price iff every percentage that counts on it is in range and it does not come out negative |
| PriceTerms.PriceComesOutExactly | apps/pricing/services.py:355-422 | a price comes out iff the plan is active, every night comes out, every stay percentage is in range, and subtotal and total are not negative |
| PriceTerms.NightChecked | apps/shared/value_objects/price_breakdown.py:63-85 | what a night's price is checked for |
| PriceTerms.BreakdownChecked | apps/shared/value_objects/price_breakdown.py:117-155 | what the finished price is checked for |
| PriceTerms.AddOverrideExact | apps/pricing/services.py:267-290 | an override is refused iff its days meet those of one on the plan, or else it is inverted or adjusts nothing |
| PricingService.RatePlan.AddOverride | apps/pricing/services.py:267-290 | refuses exactly the overlapping ones and those that do not pass validation, each with its error, and keeps the ranges disjoint |
| PricingService.EntriesInTables | apps/pricing/services.py:370-393 | the entries are consecutive nights from the arrival, each with the base, its adjustments and its total |
| PricingService.RatePlan.Compute | apps/pricing/services.py:355-422 | a price comes out iff the plan is active, every percentage is defined and nothing is negative; one entry per night in order, and the sum and currency checks never fail |
| Calendar.IterMonths | apps/availability/partitioning.py:40-46 | yields every month from the start's to the end's, in order; raises iff it would pass December 9999 |
| Calendar.MonthsTile | apps/availability/partitioning.py:23-46 | the months are disjoint and cover each date of the range exactly once |
| Calendar.LeapYearsCounted | apps/availability/partitioning.py:23-32 | leap years of the calendar dates are counted in: one in four, less one in a hundred, and one in four hundred |
| Calendar.MonthsAddUp | apps/availability/partitioning.py:23-32 | the lengths of its months and years |
| Partitions.ParsePrinted | apps/availability/partitioning.py:35-37 | parsing a printed partition name gives the month back |
| Partitions.NameSpelled | apps/availability/partitioning.py:35-37 | a partition is named after the table, the year in four digits and the month in two |
| Partitions.MonthsAsWritten | apps/availability/partitioning.py:117-128 | which characters of a name are read and which are ignored |
| Partitions.IntegersAsWritten | apps/availability/partitioning.py:117-128 | what is read as a number besides plain digits |
| Partitions.RemovedExactly | apps/availability/partitioning.py:84-128 | whatever names exist, exactly the partitions named after earlier months are dropped |
| Partitions.PartitionedTable.EnsurePartitions | apps/availability/partitioning.py:64-81 | returns the names of the months of the range in order and adds just those; every date of the range is then in its month's partition; among monthly partitions it raises iff the range ends in December 9999 |
| Partitions.PartitionedTable.DropPartitionsBefore | apps/availability/partitioning.py:84-115 | returns the existing names that parse to earlier months, in order; removes exactly the partitions of earlier months, and no date on or after the cutoff |
| Partitions.PartitionedTable.Manage | apps/availability/tasks.py:26-36 | after ensure and drop every date from today to the horizon is in exactly one partition |

## Left out

- Idempotency under concurrency: two first calls with one key racing on the record's insert; `Store.Run` models calls one at a time. Key length limits and record expiry are not modelled either.
- The idempotency records around allocation and housekeeping calls: the guard is modelled once, in `Store`.
- SHA-256 fingerprints and UUIDv5 are the payload and the outbox row id themselves.
- Prices, policies, guests and snapshots inside `reserve` are one input saying whether the quote succeeded; the reservation's total is not modelled.
- The order of `reservation.lines.all()`, which the source leaves open, is the order of the request.
- A transaction reads one clock value; the source reads the clock at several points of it.
- WindowLocks.InterleavingIsSerial: interleaves the slot rows only; the other tables a reservation writes in the same transaction and a horizon being opened meanwhile are not interleaved.
- AllocationLocks.InterleavingIsSerial: interleaves allocations only; check-out and housekeeping, which take no room lock, run whole in `RoomFloorInvariant`.
- Channels other than the direct one, inventory blocks and channel allocations, which have no behaviour yet.
- `release_hold` and `release_sold` as entry points of their own: no service calls them outside the operations modelled, and a caller could release what it never held.
- Audit rows, permission checks and transition conditions, except the audit rows counted in `Delivery`.
- The events of allocation and housekeeping tasks (`room.allocated`, `hk.task_completed`, `hk.defect_reported`) and of rate changes; `room.state_changed` and the reservation and booking events are modelled.
- Room, guest and rate-plan administration, and retiring room types.
- The in-memory provider is one object shared by all workers; the source has one per process, and calls it a stand-in for a real provider that honours keys.
- DeliveryGuarantees.DeliveredIffSentExactly: says nothing about a message a provider sent without answering, which a crash stands for.
- EventLog.NothingLostExactly: event ids are positions in the log of one projection's events; other event types are not in it.
- NotificationJobs.NotificationProjector.ProcessBatch: what the resolver answers or raises for an event is an input; failures other than the resolver's are not modelled.
- Forced and bulk updates, which skip the version check by design.
- Modifier configuration checks in `add_modifier`, which only reject malformed input.
- `percentage_of` for non-integers, and amounts outside the database column's range, are not distinguished.
- Partitions.PartitionedTable.EnsurePartitions: names all months before it creates the first partition, so a range that ends in December 9999 creates none; the source has by then created those before.
- Partitions and the ledger are separate: dropping a partition does not remove slots from the ledger model. The horizon's end is given as a date, so date overflow in adding days is not modelled, nor is parsing of digits and spaces outside ASCII.
- Partition DDL, row-level security, Celery, Redis, HTTP, accounts, tenancy middleware and the frontend.
