# Fleet operations: a verified model

The repository is a fleet-operations server. This project models the parts of it that are state machines,
concurrent protocols or algorithms over tables, and proves what they promise for every input, every run and
every interleaving.

| file | what it models |
|---|---|
| `Arithmetic.dfy` | powers of two |
| `Text.dfy` | truck-number and technician-id normal forms, character by character |
| `WriteThrough.dfy` | one write-through: the TPMS planner, the caches, the canonical row, the history, the log, in one transaction |
| `Assignments.dfy` | what any sequence of write-throughs keeps: one technician per truck, a history that replays to the table |
| `LegCaches.dfy` | the Holman and AMS caches and the operation log over runs of write-throughs |
| `FleetOperations.dfy` | the tables as mutable state; `assignTech` (up to three write-throughs) and `unassignTech` |
| `AssignmentRuns.dfy` | what whole runs of these, and the whole service, keep |
| `Mirrors.dfy` | when last-known (truck to technician) and profiles (technician to truck) stay inverse |
| `WholeRuns.dfy` | what one `assignTech` or `unassignTech` leaves in every table, in terms of the request and the answers |
| `VehicleLock.dfy` | the two-minute leased lock, with operations interleaved |
| `OperationEvents.dfy` | logging, bounded retry with backoff, and the two clean-ups, each as a whole |
| `OverlappingPasses.dfy` | any number of retry passes and clean-ups side by side, read and written row by row |
| `DependencyOrder.dfy` | the depth-first ordering of tables by foreign keys |
| `DatabaseCopy.dfy` | the copy loop whose steps truncate with CASCADE, and the creation loop |
| `ForeignKeys.dfy` | the foreign-key check of each INSERT of the copy, row by row |
| `FleetMirror.dfy` | the All Vehicles mirror: build, guard, swap, read back, and its agreement with the live joins |
| `MirrorSwap.dfy` | refreshers under a session advisory lock, interleaved with readers |
| `AmsCache.dfy` | the paged AMS walk, the fleet population, labels, the three-source status merge |
| `AmsReverify.dfy` | the compare-and-swap sweep: workers and outside writers interleaved |
| `DeclinedCheck.dfy` | the daily declined-repair diff over any sequence of days, re-runs, deletions and restorations |
| `DeclinedCodes.dfy` | which AMS status code that check counts |
| `TruckDrivenRefresh.dfy` | the truck-driven repair pass over the TPMS mirrors |
| `QuietHours.dfy` | the next instant at which a message may go out |
| `Witnesses.dfy` | concrete inputs, most of them at which the code does less than it says |

Tables are maps and sequences, mutable in a class where the source updates them. Answers of TPMS, Holman, AMS
and Snowflake, clocks, commits and failures are inputs: a datatype such as `AssignWorld` or `RefreshWorld` holds
what one operation finds out from outside. A method is tied by its `ensures` to a function of the old state (or
states the property outright), and the lemmas are about that function. Concurrent code is a transition system:
`Enabled`, `After`, and theorems over every list of steps.

`dafny verify dfyconfig.toml` checks everything.

## What the proofs found

Where the code does less than it says, the model follows the code. Each item names a lemma with an input that
shows it and, after the semicolon, the lemma that says exactly when the promise holds.

- Padding a truck number to six and stripping it again loses the number when zeros hide a space ("0 61385"):
  `RoundTripFails`; `PaddedRoundTrip`.
- A completed `assignTech` leaves two technicians on a truck if the occupant lookup missed the holder:
  `MissedOccupantSharesTruck`; `AssignRunExclusiveIff` for the run, `AssignKeepsExclusive` for one write-through.
- The two TPMS mirrors stop being inverse if the previous holder or truck is not the one they record:
  `MissedOccupantBreaksMirrors`; `AssignRunKeepsMirrors` over every run of `assignTech`, and for one write-through
  `AssignKeepsMirrors`, `UnassignKeepsMirrors`, `CrossTruckSparesTheRest`.
- `unassignTech` purges the profile of a truck's holder before it asks TPMS, and if TPMS then refuses, or the
  write-through rolls back, the last-known row stays behind: `RefusedUnassignBreaksMirrors`;
  `UnassignRunKeepsMirrors` over every answer, `PurgeKeepsMirrors` for the purge alone.
- A cross-truck unassign that leaves a technician's row alone still records a history row labelled "unassigned",
  with the truck the technician keeps: `CrossTruckIsLabelledUnassigned`; `LabelsTellTheMove`.
- One operation outliving its two-minute lease breaks the lock for two later ones that do not:
  `OverrunBreaksSuccessors`; `ExclusiveIffNeverSteals`.
- A clean-up and a retry pass that overlap on a row undo each other: `OverlapUndoesWriteOff`, for every event and
  answer; `WriteOffsStayIff`, `SuccessesStayIff`, and `AlwaysSoundIff` for events resolved exactly when terminal.
- Two overlapping retry passes call downstream twice for one counted attempt, and one can reopen what the other
  resolved, although `server/fleet-scope-routes.ts:15465-15467` calls overlapping ticks safe:
  `OverlappingPassesLoseCount`; `CountsIffApart` for the count, `SuccessesStayIff` for the reopened successes.
- The copy script announces that dev-only tables are left untouched; CASCADE empties those that reference a
  copied table: `DevOnlyTableIsEmptied`; `UntouchedIff`. Such a table can also hide a dependence from the sort, so
  that a copied table ends empty: `HiddenTableLosesRows`; `SurvivesIff`.
- Parents-first order is not enough for a table that references itself and has more than 500 rows:
  `LongSelfReferenceFails`; `CopyAll`.
- A reader of the mirror can pair one refresh's vehicles with the next one's unassigned list: `TornRead`;
  `ReadsOneRosterIff`.
- A same-day re-run with another status map can add findings that the kept snapshot contradicts:
  `SecondMapOfTheDayDisagrees`; `RunKeepsExactIff`, and `FindingsStayExactIff` over any sequence of days.
- The truck-driven pass compares ids in upper case and writes upper-case keys, so a row that a write-through
  stored under the lower-case id is neither updated nor cleared: `OneTechnicianTwoRows`; `AloneIff`.
- `localHourToUtc` is right for whole hours from -12 to +11 and for no other offset (its callers pass zones of US
  states only, which are all among these): `TwelveHoursAheadIsADayLate`; `LocalHourToUtc`.

## Model

| member | source | states |
|---|---|---|
| Text.PaddedRoundTrip | shared/vehicle-number-utils.ts:13-28 | stripping a padded number gives the number back exactly when no zero hides a space |
| Text.RoundTripFails | shared/vehicle-number-utils.ts:13-28 | the exception occurs |
| Text.SameKeySameTruck | shared/vehicle-number-utils.ts:13-16 | two spellings share a padded key exactly when they are the same truck |
| Text.StrippedKeyMeetsOnlyItself | server/fleet-operations-service.ts:1647-1652 | a stripped number used as a key can only hit the padded key of the same truck |
| Text.NumericRoundTrips | shared/vehicle-number-utils.ts:23-28 | numbers of one to six digits always round-trip |
| Text.StoredTruckKey | server/ams-declined-repair-check.ts:92-103 | a truck stored padded compares equal to the number it came from, whatever that looked like |
| Text.SameTruckSameNumber | shared/vehicle-number-utils.ts:23-28 | two truck numbers written in digits are the same truck exactly when they are the same number |
| Text.SameKeySameNumber | server/fleet-scope-all-vehicles-mirror.ts:184-193 | the join key of the mirror and the key of the declined-repair check are equal exactly when the digits of two texts are the same number; only the first has a key for no number |
| Text.DigitsSkip | server/ams-declined-repair-check.ts:95-98 | a character that is no digit may as well not be there |
| Text.SameTechnician | shared/vehicle-number-utils.ts:3-6 | an enterprise id is the same technician in any case and with any space around it |
| Text.NormalizeIsIdempotent | shared/vehicle-number-utils.ts:3-6 | normalising an enterprise id twice is normalising it once |
| Assignments.AssignMoves | server/fleet-operations-service.ts:1883-1958 | an unblocked assign puts the technician active on the truck, takes it from the named holder if that holder claims it, and touches no other row |
| Assignments.UnassignOnlyClears | server/fleet-operations-service.ts:1883-1915 | an unassign can only clear the row of the technician it acts on |
| Assignments.AssignKeepsExclusive | server/fleet-operations-service.ts:1936-1958 | after an unblocked assign no two rows share a truck, exactly when every claimant was the incoming technician or the named holder |
| Assignments.OtherwiseKeepsExclusive | server/fleet-operations-service.ts:1874-1915 | refused assigns and all unassigns never create a claim and keep trucks exclusive |
| Assignments.WriteThroughExplains | server/fleet-operations-service.ts:1883-1958 | the history rows of one write-through extend a history that replays to the old table to one that replays to the new |
| Assignments.WriteThroughKeepsActivity | server/fleet-operations-service.ts:1890-1915 | a row is active exactly when it has a truck, kept by every write-through |
| Assignments.RunExplains | server/fleet-operations-service.ts:1883-1958 | over any sequence of write-throughs, each history row starts where the technician's previous one ended and the last gives the current truck |
| Assignments.RunKeepsExclusive | server/fleet-operations-service.ts:1936-1958 | any run of write-throughs that name the true holder keeps every truck with at most one technician |
| Assignments.LabelsTellTheMove | server/fleet-operations-service.ts:1917-1934 | a conflict and a failure at TPMS are told apart and keep the truck, "changed" and "assigned" tell whether the stored number is another one, and "unassigned" is an unrefused unassign, which leaves a truck exactly on a preserved cross-truck row |
| Assignments.ChangedTellsTheTruck | server/fleet-operations-service.ts:1917-1921 | on padded rows an unblocked assign is labelled "changed" exactly if the technician comes from another truck |
| Assignments.WriteThroughKeepsPadded | server/fleet-operations-service.ts:1890-1947 | and every write-through keeps the rows padded |
| LegCaches.RunCaches | server/fleet-operations-service.ts:1817-1872 | over any run the Holman and AMS caches show, for every key, the last confirmed and committed answer |
| LegCaches.CompletedMeansApplied | server/fleet-operations-service.ts:1961-1987 | a completed log row carries the statuses of a write-through whose every write was committed with it |
| FleetOperations.NexusTables.ApplyTpmsPlan | server/fleet-operations-service.ts:1764-1815 | the three statement loops leave the two TPMS mirrors as the plan says and nothing else changed |
| FleetOperations.NexusTables.WriteAssignment | server/fleet-operations-service.ts:1883-1958 | the canonical row, the displaced row and their history rows, with every refusal and cross-truck branch |
| FleetOperations.NexusTables.WriteThroughCaches | server/fleet-operations-service.ts:1686-1987 | every table moves to the committed value, or none does |
| FleetOperations.NexusTables.AssignTech | server/fleet-operations-service.ts:1990-2266 | lock, relocation, displacement and assign in order, stopping at the first transaction that fails, with the outcome returned |
| FleetOperations.NexusTables.UnassignTech | server/fleet-operations-service.ts:2268-2345 | lock, purge, one write-through |
| AssignmentRuns.Preparation | server/fleet-operations-service.ts:2006-2103 | the two preparatory unassigns only take trucks away, and only from technicians the run names or TPMS reports |
| AssignmentRuns.AssignRunKeepsExclusive | server/fleet-operations-service.ts:1990-2266 | if the occupant found is the true holder, a whole run keeps trucks exclusive whatever TPMS, Holman, AMS and the database do |
| AssignmentRuns.AssignRunExclusiveIff | server/fleet-operations-service.ts:2184-2195 | a completed, unrefused run keeps trucks exclusive exactly when, at its main assign, nobody but the incoming technician and the occupant found claims the truck |
| AssignmentRuns.AssignRunExclusiveIffTrueHolder | server/fleet-operations-service.ts:1990-2266 | if TPMS acted on whom it was asked, that is decided by the rows before the run: the occupant found is the true holder |
| AssignmentRuns.AssignRunPlaces | server/fleet-operations-service.ts:1990-2266 | a run that completes unrefused ends with the technician active on the truck, the displaced one inactive, and rows of nobody else changed |
| AssignmentRuns.FailedAssignOnlyTakesAway | server/fleet-operations-service.ts:1990-2266 | a run that is locked out, refused or rolled back puts nobody on a truck |
| AssignmentRuns.ServiceExplains | server/fleet-operations-service.ts:1989-2345 | over any sequence of assigns and unassigns the history replays to the table and activity follows trucks |
| AssignmentRuns.ServiceKeepsExclusive | server/fleet-operations-service.ts:1989-2345 | over any sequence in which each assign learns the true holder, no truck ever has two technicians |
| Mirrors.AssignKeepsMirrors | server/fleet-operations-service.ts:1618-1653 | a confirmed assign keeps the mirrors inverse exactly when the left truck is another one and the mirrors agree with the named holder and left truck |
| Mirrors.SweepSparesNewRow | server/fleet-operations-service.ts:1642-1652 | deleting the left truck under both spellings spares the row just written exactly when they are different trucks |
| Mirrors.UnassignKeepsMirrors | server/fleet-operations-service.ts:1655-1670 | a carried-out unassign keeps the mirrors inverse exactly when TPMS acted on the technician they have on that truck |
| Mirrors.CrossTruckSparesTheRest | server/fleet-operations-service.ts:1663-1670 | a cross-truck unassign drops one last-known row and leaves every profile alone |
| Mirrors.MirrorsFollowConfirmations | server/fleet-operations-service.ts:1587-1603 | over any run the mirrors are those of the committed, TPMS-confirmed write-throughs alone: all others may as well not have happened |
| Mirrors.PlanIsIdempotent | server/fleet-operations-service.ts:1577-1672 | applying a plan twice is applying it once, for any arguments and tables |
| Mirrors.BothSpellingsGo | server/fleet-operations-service.ts:1643-1661 | on any table, padded or not, a confirmed plan deletes a truck's row under both spellings and no other |
| Mirrors.AnswersActAsAsked | server/fleet-operations-service.ts:1605-1610 | the two unassigns act on whom they were asked if TPMS named them or nobody and found neither on another truck |
| Mirrors.AssignRunKeepsMirrors | server/fleet-operations-service.ts:1990-2266 | a whole assign, whatever TPMS answers, whomever it acted on and wherever the run stops, keeps the mirrors inverse exactly if the trucks it takes off or fills are those on which they have the technicians it takes off or places |
| Mirrors.AgreeingRunMatches | server/fleet-operations-service.ts:2007-2054 | which holds, however each step ends, if the lookups say what the mirrors say and TPMS acts on whom it was asked |
| Mirrors.PurgeKeepsMirrors | server/fleet-operations-service.ts:2284-2290 | the purge alone keeps the mirrors inverse exactly when nobody is recorded on the truck, or it is truck "0" |
| Mirrors.PurgeRecognises | server/fleet-operations-service.ts:2287-2289 | among padded keys the purge matches exactly the truck it was asked about, and truck "0" never |
| Mirrors.BTrimOfPadded | server/fleet-operations-service.ts:2289-2289 | and spaces around a stored number do not hide it |
| Mirrors.UnassignRunKeepsMirrors | server/fleet-operations-service.ts:2268-2345 | a whole unassign, purge included, whatever TPMS answers and whether or not it commits, keeps the mirrors inverse exactly under a condition on the tables before it |
| WholeRuns.StagesAre | server/fleet-operations-service.ts:2007-2103 | the old truck is left exactly if the technician is found on one with another padded number, and somebody is displaced exactly if somebody else is found on the truck; the run completes exactly if every stage it reaches commits |
| WholeRuns.AssignLeavesMirrors | server/fleet-operations-service.ts:1990-2266 | both mirrors after any assign, wherever it stops: which trucks' rows and which technicians' profiles are taken, and who is placed, by the numbers and ids of the request, the lookups and the answers |
| WholeRuns.AssignFollowsTheMirrors | server/fleet-operations-service.ts:1990-2266 | if the lookups return what inverse mirrors record and all goes well, the run ends with inverse mirrors that have the technician on the truck and on no other, the former keeper on none, and everything else as it was |
| WholeRuns.AssignTellsTheStages | server/fleet-operations-service.ts:2007-2195 | then the technician ends active on the truck and the one found on it inactive, no other row moves, and the history has one entry for each stage, in order, with its source; who left another truck first is entered as "assigned" |
| WholeRuns.AssignLogs | server/fleet-operations-service.ts:2028-2195 | the operation log gets one row for each stage reached, with the answers of that stage if it committed, pending if not; an assign to the technician's own truck is logged as skipped at TPMS |
| WholeRuns.AssignCaches | server/fleet-operations-service.ts:1817-1872 | under every key the Holman and AMS caches show what the last committed stage of the run confirmed, or what they showed before |
| WholeRuns.RefusalWrites | server/fleet-operations-service.ts:1874-1934 | a write-through that TPMS refuses moves no row, and its entry says conflict or failure |
| WholeRuns.UnassignWrites | server/fleet-operations-service.ts:1605-1610 | an unassign clears the row of the technician TPMS names, or else of the one asked about, and no other |
| WholeRuns.CrossTruckWrites | server/fleet-operations-service.ts:1876-1889 | unless TPMS has that technician elsewhere and the row has not this truck: then it stays, and the entry keeps its truck |
| WholeRuns.AssignWrites | server/fleet-operations-service.ts:1890-1958 | an assign puts the row on the padded truck, takes the truck from the previous holder's row if it has it, and enters both |
| WholeRuns.UnassignActs | server/fleet-operations-service.ts:2268-2345 | a whole unassign that is not refused: the technician TPMS names, or else the one asked about, loses the truck, every other row stays, the requester's included, and history and log say so |
| WholeRuns.UnassignSpares | server/fleet-operations-service.ts:2268-2345 | one that is refused, or whose technician is elsewhere by answer and row, moves no row and says which |
| WholeRuns.UnassignClears | server/fleet-operations-service.ts:2284-2330 | in the mirrors a carried-out unassign takes the truck's last-known row and the named technician's profile; the purge empties exactly the profiles with the truck |
| WholeRuns.UnassignCaches | server/fleet-operations-service.ts:1817-1872 | and its legs the caches, if they confirmed and it committed |
| VehicleLock.VehicleLocks.Acquire | server/fleet-operations-service.ts:1433-1448 | one step of the protocol; once granted, nobody else is inside exactly if no holder of the vehicle had overrun |
| VehicleLock.VehicleLocks.Release | server/fleet-operations-service.ts:1451-1458 | one step of the protocol, which keeps exclusion and the timestamps of all other holders |
| VehicleLock.StepKeepsInvIff | server/fleet-operations-service.ts:1433-1458 | a step breaks exclusion exactly when it takes a vehicle from a holder that has overrun |
| VehicleLock.ExclusiveIffNeverSteals | server/fleet-operations-service.ts:1433-1458 | in every interleaving, no vehicle ever has two operations inside exactly if none is acquired while its holder has overrun |
| VehicleLock.PromptRunsExclude | server/fleet-operations-service.ts:1993-2003 | so it is enough that every holder releases within its lease |
| VehicleLock.GrantedOverHolderIff | server/fleet-operations-service.ts:1434-1444 | the lock is granted over a holder's head exactly when that holder has overrun |
| VehicleLock.RefusedOnlyWhileHeld | server/fleet-operations-service.ts:1433-1458 | in every run an acquire of a cached vehicle is refused only while some operation is inside on it within its lease: a release frees it at once |
| VehicleLock.OverrunBreaksSuccessors | server/fleet-operations-service.ts:1451-1458 | one overrun puts two prompt operations inside together |
| OperationEvents.EventTable.LogOperationEvent | server/fleet-operations-service.ts:901-937 | the logged event is sound, has one of three attempts behind it and the outcome of its status, is resolved at once exactly if success or skipped, and is due five minutes later exactly if failed |
| OperationEvents.EventTable.RetryOne | server/fleet-operations-service.ts:2471-2564 | the row update of one event and whether downstream was called and accepted |
| OperationEvents.EventTable.RetryFailed | server/fleet-operations-service.ts:2458-2568 | a pass updates exactly the chosen rows, each from what it read, and its three counters are those of the events it could retry, got accepted and got refused |
| OperationEvents.EventTable.GiveUp | server/fleet-operations-service.ts:2591-2601 | a clean-up writes off exactly the chosen rows, as exhausted, resolved now and never due |
| OperationEvents.RetryReschedules | server/fleet-operations-service.ts:2494-2563 | after a retry an event is due again exactly if it was refused with attempts left, from the update plus five minutes times two to the attempts, at most an hour; any other answer ends it with that answer's outcome, resolved exactly if success or skipped |
| OperationEvents.RefusedUntilUsedUp | server/fleet-operations-service.ts:2471-2561 | an event that keeps being refused is retried until its attempts are used up, not once more and not once less |
| OperationEvents.NoAttemptsLeft | server/fleet-operations-service.ts:2472-2477 | an event due with no attempt left would be written off without a call and without being resolved |
| OverlappingPasses.RetryUses | server/fleet-operations-service.ts:2471-2564 | a due event always has an attempt left, so the exhausted branch never fires; whatever the row has become, the write takes the outcome of the answer, and a sound row stays sound unless it is terminal and refused |
| OverlappingPasses.StaleIff | server/fleet-operations-service.ts:2570-2587 | an event can be written off as stale exactly if it is pending or failed and a day old |
| OverlappingPasses.ParentTerminalIff | server/fleet-operations-service.ts:2607-2634 | and because of its operation exactly if it is pending or failed and that operation has ended |
| OverlappingPasses.PassesMayEnd | server/fleet-operations-service.ts:2471-2565 | a pass can end before any of its writes, with the call lost or between rows; the rows keep what they had and are due again |
| OverlappingPasses.ApartCounts | server/fleet-operations-service.ts:2458-2568 | passes that keep off each other's rows count every row update, finished or not, beside any clean-ups |
| OverlappingPasses.CountsIffApart | server/fleet-operations-service.ts:2458-2568 | over any run whose passes finish, every row update raises the row's attempts by one exactly when no pass reads a row another has read and not yet written |
| OverlappingPasses.RetriesAreBounded | server/fleet-operations-service.ts:2458-2568 | as long as row updates count, calls downstream are the attempts counted plus the row updates lost; without losses a fresh event is retried at most maxRetries - 1 times |
| OverlappingPasses.WriteOffsStayIff | server/fleet-operations-service.ts:2591-2601 | over runs whose passes finish, write-offs stay exactly when no clean-up writes off a row that a pass has read and not yet written |
| OverlappingPasses.SuccessesStayIff | server/fleet-operations-service.ts:2498-2510 | over runs whose clean-ups finish, resolved outcomes stay exactly when no pass resolves a row that a clean-up has selected and not yet written off, or that another pass has read and later writes unresolved |
| OverlappingPasses.ApartKeepsTerminal | server/fleet-operations-service.ts:2458-2638 | passes and clean-ups that touch no row another has in hand, finished or not, keep every terminal outcome, and every event resolved exactly when terminal |
| OverlappingPasses.AlwaysSoundIff | server/fleet-operations-service.ts:2497-2563 | over any run every event is always resolved exactly when terminal, exactly when no refusal is written over a terminal row |
| OverlappingPasses.PassAlone | server/fleet-operations-service.ts:2458-2568 | a pass alone, over any events that failed and are due, read and then written row by row, is the pass as a whole |
| OverlappingPasses.CleanUpAlone | server/fleet-operations-service.ts:2570-2605 | and so is a clean-up of any pending or failed events a day old |
| OverlappingPasses.WritesMakeProgress | server/fleet-operations-service.ts:2496-2563 | a row update takes one from the attempts left in the table exactly if it counts, and nothing else but logging changes them |
| OperationEvents.BackoffGrows | server/fleet-operations-service.ts:2553-2559 | later attempts wait no less, between five and sixty minutes |
| OverlappingPasses.OverlapUndoesWriteOff | server/fleet-operations-service.ts:2591-2601 | for every due event and every answer, a write over a write-off undoes it, and leaves an unsound event exactly when the answer is a refusal |
| OverlappingPasses.OverlappingPassesLoseCount | server/fleet-scope-routes.ts:15465-15480 | a run of two passes over any due event that calls twice, counts one attempt, and reopens a resolved event if the second is refused after the first succeeded |
| DependencyOrder.BuildDependencies | scripts/refreshDevFromProd.js:85-100 | the graph has exactly the references among the chosen tables, each once |
| DependencyOrder.Sorter.Visit | scripts/refreshDevFromProd.js:106-115 | terminates on any graph, keeps what is output ordered, and outputs everything visited that is not still open |
| DependencyOrder.Sorter.Sort | scripts/refreshDevFromProd.js:102-118 | each table exactly once, each parent before its child unless they depend on each other |
| DependencyOrder.ParentsFirstIffAcyclic | scripts/createMissingTablesInDev.js:328-337 | every parent comes first exactly when no cycle goes through two or more tables |
| DatabaseCopy.BuildInsert | scripts/refreshDevFromProd.js:218-238 | the numbered placeholders make the statement add exactly the rows of the chunk |
| DatabaseCopy.DevDatabase.Truncate | scripts/refreshDevFromProd.js:192-193 | empties exactly the table and all that reference it, directly or through others |
| DatabaseCopy.DevDatabase.CopyTable | scripts/refreshDevFromProd.js:132-244 | the chunk loop leaves exactly prod's rows in the table, and empties what references it |
| DatabaseCopy.DevDatabase.Refresh | scripts/refreshDevFromProd.js:272-288 | the whole loop, or no change at all after an error |
| DatabaseCopy.SurvivesIff | scripts/refreshDevFromProd.js:275-277 | a copied table ends with prod's rows exactly when there are none or no later step truncates a table it references |
| DatabaseCopy.CascadeSafe | scripts/refreshDevFromProd.js:275-277 | in the sorted order of an acyclic graph no step can reach a table copied before it |
| DatabaseCopy.RefreshDevFromProd | scripts/refreshDevFromProd.js:69-294 | discovery to commit: each copied table ends with prod's rows exactly when there are none or no table copied after it is one it references; all of them do if the references are acyclic and the sort saw every cascade |
| DatabaseCopy.UntouchedIff | scripts/refreshDevFromProd.js:43-46 | a table outside the copy keeps its rows exactly when it had none or references no copied table |
| DatabaseCopy.SameKeysVisible | scripts/refreshDevFromProd.js:71-100 | the sort sees every cascade if each synced table references in dev only what it does in prod, whatever the dev-only tables reference |
| DatabaseCopy.HiddenTableLosesRows | scripts/refreshDevFromProd.js:193-193 | a dev-only table in between makes a table copied in the order of names end empty |
| DatabaseCopy.Catalogue.CreateAll | scripts/createMissingTablesInDev.js:378-408 | the loop succeeds exactly when each table finds its references there, and then all are created |
| DatabaseCopy.CreateMissing | scripts/createMissingTablesInDev.js:371-408 | sort and creation succeed exactly when the references are acyclic and all others exist already |
| ForeignKeys.SortedParents | scripts/refreshDevFromProd.js:102-118 | the sorted order copies every row's parents in other tables earlier |
| ForeignKeys.CheckedCopy.CopyTable | scripts/refreshDevFromProd.js:217-243 | the chunk loop fails no foreign key exactly when every row finds its references in tables copied before or up to its own chunk |
| ForeignKeys.CopyAll | scripts/refreshDevFromProd.js:275-277 | the copy fails no foreign key exactly when no reference within a table points past the chunk of its row |
| ForeignKeys.LongSelfReferenceFails | scripts/createMissingTablesInDev.js:289-307 | a self-referencing table of 501 rows that cannot be copied |
| FleetMirror.LastWinsKeys | server/fleet-scope-all-vehicles-mirror.ts:169-208 | a built map has exactly the keys of its rows |
| FleetMirror.LastWinsValues | server/fleet-scope-all-vehicles-mirror.ts:169-208 | each with its last row's value |
| FleetMirror.BuildOdometerMap | server/fleet-scope-all-vehicles-mirror.ts:169-182 | a VIN, trimmed and in upper case, has the odometer of the last row with that VIN, and none exactly if there is no such row |
| FleetMirror.BuildStatusMap | server/fleet-scope-all-vehicles-mirror.ts:184-193 | a number, digits only and without leading zeros, has the trimmed status of the last row with that number and a status, or none |
| FleetMirror.BuildTechMap | server/fleet-scope-all-vehicles-mirror.ts:195-208 | and likewise the technician of the last row with that truck |
| FleetMirror.FoldRecords | server/fleet-scope-all-vehicles-mirror.ts:501-544 | the records of a refresh, in order and numbered per kind |
| FleetMirror.StoredTellsSources | server/fleet-scope-all-vehicles-mirror.ts:501-532 | the i-th stored row is the roster's i-th under its normalised number, with status, technician and odometer of the last source rows about it; without a VIN it has no odometer |
| FleetMirror.StoredUnassigned | server/fleet-scope-all-vehicles-mirror.ts:534-546 | and the i-th unassigned one is the source's under its raw number |
| FleetMirror.MirrorTable.WriteMirror | server/fleet-scope-all-vehicles-mirror.ts:568-607 | the whole new table or the whole old one, with one retry after a transient drop |
| FleetMirror.MirrorTable.RefreshMirror | server/fleet-scope-all-vehicles-mirror.ts:459-563 | which guard stops a refresh: lock, empty roster, one of less than half; one of at least half is installed if the write succeeds, and every other outcome leaves the table alone |
| FleetMirror.AscendingIsUnique | server/fleet-scope-all-vehicles-mirror.ts:348-353 | a table has one listing by sequence number |
| FleetMirror.ReadMirror | server/fleet-scope-all-vehicles-mirror.ts:347-413 | the reader's view of the ordered rows |
| FleetMirror.ViewOfFolded | server/fleet-scope-all-vehicles-mirror.ts:368-393 | reading back folded rows finds for every row what the source maps hold, duplicates included |
| FleetMirror.RefreshThenRead | server/fleet-scope-all-vehicles-mirror.ts:347-563 | refresh then read gives the handler what the live joins give: the rows in order, the unassigned list, and for every row the odometer, status and technician of the last source row with the same VIN or number |
| MirrorSwap.StepKeepsInv | server/fleet-scope-all-vehicles-mirror.ts:459-563 | every step keeps: who is past acquire on a living connection holds the lock, who is about to write measured the present table, and what readers have came from it |
| MirrorSwap.RunKeepsInv | server/fleet-scope-all-vehicles-mirror.ts:459-563 | so does every run, and rosters are only appended |
| MirrorSwap.MutualExclusion | server/fleetscope-snowflake-sync-lock.ts:61-88 | at most one session is past acquire on a living connection, with lost unlocks and the re-entrant lock; a refresh whose connection died runs on beside it and never writes |
| MirrorSwap.CutOffOnlyFails | server/fleet-scope-all-vehicles-mirror.ts:548-563 | a refresh whose connection died can only fail, which touches neither table nor lock, before its session asks again |
| MirrorSwap.OneSwapPerAcquire | server/fleet-scope-all-vehicles-mirror.ts:459-563 | over any run a session replaces the table at most once for each time it asks for the lock |
| MirrorSwap.GrantedIff | server/fleetscope-snowflake-sync-lock.ts:61-75 | in every run a session that asks gets the lock exactly if no other one is past acquire on a living connection or has lost an unlock on one |
| MirrorSwap.LostUnlockLingers | server/fleetscope-snowflake-sync-lock.ts:68-75 | after a lost unlock no other session gets the lock, the same one does, and the end of the connection frees it |
| MirrorSwap.ShrinksByHalves | server/fleet-scope-all-vehicles-mirror.ts:486-499 | size times 2^k is at least the initial size after k swaps |
| MirrorSwap.NeverWiped | server/fleet-scope-all-vehicles-mirror.ts:486-499 | in every run the mirror shrinks no faster and is never empty once it was not |
| MirrorSwap.ReadsOneRosterIff | server/fleet-scope-all-vehicles-mirror.ts:347-413 | both lists of a read are whole lists of installed rosters, as many apart as swaps fell between the two queries, so of one roster exactly if none did |
| MirrorSwap.TornRead | server/fleet-scope-all-vehicles-mirror.ts:395-403 | the two can come from different refreshes |
| AmsCache.Walk | server/ams-truck-status-cache.ts:112-189 | a walk that ends naturally has exactly the paged list; a truncated one a run of whole pages from its start |
| AmsCache.FirstArrayCounts | server/ams-truck-status-cache.ts:34-44 | the first of the four properties that is an array gives the page, even an empty one; without any it is malformed |
| AmsCache.PopulationNumbers | server/ams-truck-status-cache.ts:53-61 | the population lists exactly the digit-only numbers of the unsold rows, each once |
| AmsCache.PopulationVins | server/ams-truck-status-cache.ts:152-156 | each with the first non-null VIN among its rows |
| AmsCache.PopulationIsFleet | server/ams-truck-status-cache.ts:53-61 | row by row: a number is listed once exactly if some unsold row has these digits, with the VIN of the first such row that has one |
| AmsCache.LabelsAreNeverNumbers | server/ams-truck-status-labels.ts:86-107 | for any lookup map a label exists exactly when a status does, and is never a bare number |
| AmsCache.LabelPrecedence | server/ams-truck-status-labels.ts:86-107 | the label is the live lookup's if that is text, else the canonical one of a known code, else the status if that is text, else "Unknown" |
| AmsCache.KnownCodes | server/ams-truck-status-labels.ts:12-24 | eleven codes have a canonical label |
| AmsCache.StatusPrecedence | server/ams-truck-status-cache.ts:148-274 | a VIN's label is the first non-null of its last AMS row, first database label, first Snowflake label |
| AmsCache.FirstKnownIsLabelled | server/ams-truck-status-cache.ts:148-274 | row by row: the last AMS row of the VIN, else the first database row of it with a label, else the first Snowflake row of it with a status |
| AmsCache.SweepCache.Absorb | server/ams-truck-status-cache.ts:148-184 | the row loop builds statuses and population as specified |
| AmsCache.SweepCache.Supplement | server/ams-truck-status-cache.ts:208-290 | the two supplement loops, each skipped as in the source |
| AmsCache.SweepCache.Build | server/ams-truck-status-cache.ts:76-295 | a whole build: exactly when the population is replaced and by which trucks and VINs, and the label of every VIN, whichever sources could be read |
| AmsCache.CompleteIsNeverClobbered | server/ams-truck-status-cache.ts:69-74 | over any run of builds a complete population only gives way to a later complete one |
| AmsReverify.StepKeepsInv | server/ams-mismatch-reverify.ts:103-159 | every step of a worker or outside writer keeps counters in step with details and targets in one hand each |
| AmsReverify.OnlyListedValuesReplaced | server/ams-mismatch-reverify.ts:141-150 | the sweep writes only in apply mode, on an unfenced target, over the listed value |
| AmsReverify.RunKeepsInv | server/ams-mismatch-reverify.ts:100-161 | the same over every interleaving |
| AmsReverify.SweepAccountsForAll | server/ams-mismatch-reverify.ts:100-167 | when the workers have ended each target is reported once or was in the hands of a worker whose update threw, and checked is the sum of the six actions and those |
| AmsReverify.SweepReportsAll | server/ams-mismatch-reverify.ts:100-167 | if none threw, every target is reported exactly once and checked is the sum of the six actions |
| AmsReverify.QuietRunsWriteNothing | server/ams-mismatch-reverify.ts:111-139 | dry runs and fenced trucks write nothing |
| AmsReverify.WorkersMakeProgress | server/ams-mismatch-reverify.ts:103-159 | every worker step brings the sweep strictly nearer its end |
| AmsReverify.TargetsAre | server/ams-mismatch-reverify.ts:76-79 | the targets are exactly the candidates with a VIN and a technician other than "unknown" |
| AmsReverify.TakingDecides | server/ams-mismatch-reverify.ts:103-115 | a target is reported as fenced at once exactly if its number, without leading zeros and in any case, is fenced |
| AmsReverify.HearingDecides | server/ams-mismatch-reverify.ts:117-139 | the answer decides: error, unchanged, would-refresh in a dry run, or on to the swap |
| AmsReverify.SwapsWhatWasHeard | server/ams-mismatch-reverify.ts:117-158 | whatever others do meanwhile, the swap stores the technician this answer named exactly if the row still shows the listed one, and reports refreshed exactly then and cas-lost otherwise |
| AmsReverify.OutsideWriterWins | server/ams-mismatch-reverify.ts:141-158 | a writer between answer and swap wins, unless it wrote what was listed |
| DeclinedCheck.DeclinedRepairCheck.PreviousDay | server/ams-declined-repair-check.ts:258-265 | the latest snapshot day before today, or none |
| DeclinedCheck.DeclinedRepairCheck.Run | server/ams-declined-repair-check.ts:247-405 | one run over the tables: refusal, baseline, or diff and dedup |
| DeclinedCheck.DeclinedRepairCheck.RecordAll | server/ams-declined-repair-check.ts:340-405 | the dedup loop with its growing key set |
| DeclinedCheck.CandidatesAre | server/ams-declined-repair-check.ts:311-327 | the candidates are exactly the VINs declined now and not declined before |
| DeclinedCheck.RerunAddsNothing | server/ams-declined-repair-check.ts:360-374 | a same-day re-run with the same status map changes nothing, whatever the lists, trucks and purchase orders have become |
| DeclinedCheck.RunAddsOnce | server/ams-declined-repair-check.ts:335-392 | a run adds a truck at most once, and only if it is on neither list and no purchase order covers it |
| DeclinedCheck.AddsExactly | server/ams-declined-repair-check.ts:311-392 | a run adds a truck, once, exactly if it is on neither list, no purchase order covers it and a VIN of it is newly declined and not found today yet |
| DeclinedCheck.RunExplains | server/ams-declined-repair-check.ts:311-374 | a run gives every VIN newly declined and not found today yet its finding: the truck, and the reason it was added or not, list before exclusion before purchase order, in the light of the VINs before it in the status map |
| DeclinedCheck.RunStoresPadded | server/ams-declined-repair-check.ts:95-103 | what a run puts on the list is stored padded to six and is the truck of a VIN it found |
| DeclinedCheck.ListsComeBack | server/fleet-scope-storage.ts:1608-1666 | deleting excludes a truck that has a number, entering it again or renumbering it there and back leaves both lists as they were |
| DeclinedCheck.StaysCovered | server/fleet-scope-storage.ts:1608-1678 | a truck on either list stays on one of them and is not added again, over runs, deletions, entries and edits, until an operator restores it or gives its row another number |
| DeclinedCheck.AddedOncePerFreeing | server/ams-declined-repair-check.ts:376-392 | over any sequence of these, a truck is added at most once more than it was freed so, however it is spelled |
| DeclinedCheck.RunKeepsExactIff | server/ams-declined-repair-check.ts:258-374 | a run leaves the findings exactly the day-over-day differences exactly when its map newly declines no VIN that the day's snapshot already has otherwise |
| DeclinedCheck.FindingsStayExactIff | server/ams-declined-repair-check.ts:258-374 | over any sequence of days and re-runs the findings are always exact exactly when every re-run is harmless in that sense |
| DeclinedCheck.OneMapIsHarmless | server/ams-declined-repair-check.ts:267-283 | which one status map a day always is |
| DeclinedCheck.SecondMapOfTheDayDisagrees | server/ams-declined-repair-check.ts:267-283 | a second map of the day that is not |
| DeclinedCheck.DeclinedSpellings | server/ams-declined-repair-check.ts:88-90 | a label is declined in upper case, and with blanks around it, exactly if it is without |
| DeclinedCodes.DeclinedCode | server/ams-truck-status-labels.ts:12-24 | of the known codes 5 alone has a label that counts as declined |
| TruckDrivenRefresh.TpmsMirror.Refresh | server/fleet-scope-truck-driven-refresh.ts:33-62 | the loop over any answers and any failing statements, and counters that account for every truck |
| TruckDrivenRefresh.TpmsMirror.Confirm | server/fleet-scope-truck-driven-refresh.ts:39-58 | one truck: upsert, sweep, last-known, stopping at the statement that fails |
| TruckDrivenRefresh.StepClaims | server/fleet-scope-truck-driven-refresh.ts:47-53 | who claims which truck after one step, for every row and truck |
| TruckDrivenRefresh.StatementsInOrder | server/fleet-scope-truck-driven-refresh.ts:39-58 | a truck whose statements fail part way keeps those before, for every row and truck: own row, then other rows, then last-known |
| TruckDrivenRefresh.StepSettles | server/fleet-scope-truck-driven-refresh.ts:43-58 | a truck is settled by its own step exactly when TPMS answered about that truck |
| TruckDrivenRefresh.LaterStepKeeps | server/fleet-scope-truck-driven-refresh.ts:37-60 | exactly which later steps undo a settled truck |
| TruckDrivenRefresh.StableAnswersAreSteady | server/fleet-scope-truck-driven-refresh.ts:41-45 | stable TPMS answers with one truck per technician make the scanned technicians and trucks one to one |
| TruckDrivenRefresh.SettledClaims | server/fleet-scope-truck-driven-refresh.ts:33-62 | after a pass, every row that claims a truck with a live technician |
| TruckDrivenRefresh.OtherClaims | server/fleet-scope-truck-driven-refresh.ts:33-62 | a truck with no live answer gains no claim and loses only those of technicians found elsewhere |
| TruckDrivenRefresh.LastKnownAgrees | server/fleet-scope-truck-driven-refresh.ts:54-58 | last-known names each live technician; other rows are as they were |
| TruckDrivenRefresh.PassSettles | server/fleet-scope-truck-driven-refresh.ts:33-62 | no iteration undoes an earlier truck |
| TruckDrivenRefresh.RowsStay | server/fleet-scope-truck-driven-refresh.ts:33-62 | a pass removes no profile row and adds one only for a technician it finds |
| TruckDrivenRefresh.AloneIff | server/fleet-scope-truck-driven-refresh.ts:52-52 | a truck ends with one claiming row exactly when no row held it under the same id in another case |
| TruckDrivenRefresh.WriteThroughRowIsDoubled | server/fleet-scope-truck-driven-refresh.ts:52-52 | the row of a write-through for that very technician stays beside the new one |
| QuietHours.LocalHourToUtc | server/fleet-scope-reg-messaging.ts:85-106 | for every offset, how many days and minutes off the wanted wall clock the answer is: none exactly for whole hours from -12 to +11 |
| QuietHours.MorningIsNext | server/fleet-scope-reg-messaging.ts:135-161 | from a quiet instant the least allowed one is the next local 07:00, at most ten hours away |
| QuietHours.GetNextAllowedSendTime | server/fleet-scope-reg-messaging.ts:109-165 | null exactly from 07:00 until 21:00 local in any zone; otherwise the least allowed instant, exactly in the supported zones |
| Witnesses.MissedOccupantSharesTruck | server/fleet-operations-service.ts:2053-2195 | a completed run whose lookup missed the occupant: both hold the truck |
| Witnesses.MissedOccupantBreaksMirrors | server/fleet-operations-service.ts:1635-1640 | and the occupant keeps the profile |
| Witnesses.RefusedUnassignBreaksMirrors | server/fleet-operations-service.ts:2284-2325 | an unassign that TPMS refuses leaves a last-known row without a profile |
| Witnesses.MovesInBothMirrors | server/fleet-operations-service.ts:1990-2266 | where the lookups are right, a technician recorded on one truck and assigned to an empty one moves in both mirrors |
| Witnesses.CrossTruckIsLabelledUnassigned | server/fleet-operations-service.ts:1917-1934 | a history row "unassigned" with the truck kept |
| Witnesses.DevOnlyTableIsEmptied | scripts/refreshDevFromProd.js:43-46 | a dev-only table ends empty |
| Witnesses.TwelveHoursAheadIsADayLate | server/fleet-scope-reg-messaging.ts:85-106 | twelve hours ahead of UTC, which no state is, the answer is the next day's |
| Witnesses.OneTechnicianTwoRows | server/fleet-scope-truck-driven-refresh.ts:47-52 | two rows for one technician and one truck |

## Left out

- Duplicate `tech_vehicle_assignments` rows for one technician: that table is modelled as a map by technician.
- The warehouse leg, and the `tpms_cached_assignments` writes that the freeze flag disables.
- Names, districts, notes and message texts that no branch depends on; the regular expression on a skip message is a boolean input.
- Operations on a vehicle without a Holman cache row, which run without the lock.
- The insides of `callTpms`, `callHolman`, `callAms` and `callWms`, the occupant and current-truck lookups, and mail: their answers are inputs.
- An ambiguous COMMIT: a transaction happens or does not.
- The write-throughs made by retries and reconciliation inside a run of passes: they name no previous holder, and `AssignKeepsExclusive` says what that costs.
- A retry's or clean-up's choice among more than twenty or two hundred candidates: any selection of that size or smaller is allowed.
- What the manual retry does to an event before its pass: it reopens it with one attempt fewer (server/routes.ts:22994-22996).
- Foreign keys to tables that are not copied, and rows that dev had there before. The check of each INSERT is modelled beside the copy loop, on positions of rows; an INSERT that fails it is an error there, which rolls the refresh back.
- List edits that fall inside a run of the declined-repair check, between its reading the lists and its last write.
- The empty-mirror live fallback, the response snapshot and the scheduler around the mirror; the polling and deadline of `runUnderAdvisoryLock`.
- The lifetime, sharing and de-duplication of AMS builds, the out-of-service and in-repair maps, per-VIN caches, and the extraction of labels from lookup items.
- Property names that JavaScript objects inherit ("constructor" as a status or VIN).
- The single-flight and minimum-interval guards of the re-verification sweep; a sweep is modelled from its queue on.
- A crash between recording a declined finding and adding its truck, and the location lookup made in between.
- QuietHours.GetNextAllowedSendTime: the offset is constant over the window, so daylight-saving transitions are not modelled; the state-to-zone table is data.
- Seconds and leap seconds in the wall clock beyond what the minute decides.
- JSON casts of cell values, excluded tables and columns, sequences, enums and indexes in the two scripts; foreign keys joined by constraint name.
- Case folding and `\d` beyond ASCII; numeric arguments where the source accepts a number for a truck.
- Technician ids, names and districts written by the truck-driven pass, and the query that selects its trucks.
- Scheduling, HTTP, Snowflake, Twilio and SendGrid.
