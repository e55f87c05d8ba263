# Leyla scheduler: a verified model of `leyla-core`

`leyla-core` is a durable run scheduler. Jobs are materialised into runs, workers lease runs from a
shared store, and a recovery loop gives back what crashed workers left behind. The store exists twice,
in memory and on SQLite. This project models the store, the three loops, the engine around them and the
policy functions beside them, and proves what they keep.

`dafny verify dfyconfig.toml` checks everything; each proof is meant to stay within
`--resource-limit 2000000`.

| file | what it models |
|---|---|
| `Calendar.dfy`, `Timestamps.dfy` | the UTC calendar, and RFC 3339 timestamps as text: printing, byte order, parsing |
| `Types.dfy`, `Wrappers.dfy`, `Collections.dfy` | the records, optional values and results, finite collections and sorting |
| `StoreSpec.dfy` | what each run operation of a store means, on a map from id to run |
| `MemoryStores.dfy` | the in-memory store, proved against `StoreSpec` |
| `Rows.dfy`, `SqliteStores.dfy` | the text columns and the SQL statements, proved against `StoreSpec` |
| `Refinement.dfy` | the two stores admit the same traces |
| `Lifecycle.dfy` | the graph of status changes and its progress measure |
| `Recovery.dfy`, `Claiming.dfy`, `Materialize.dfy` | the three loops, one tick at a time |
| `LeaseProtocol.dfy` | workers, executors and one recoverer as a step system, store call by store call; leases in time |
| `NonInterference.dfy` | why recovery's unchecked writes stay inside the lifecycle graph, and when they do not |
| `RecoverySteps.dfy` | the separate steps of a recovery refine the one-shot function |
| `SqliteProtocol.dfy` | the lease protocol with its store calls made on the SQLite table; its theorems carried over |
| `TickProtocol.dfy` | a materialisation tick store call by store call, with other writers of jobs in between |
| `Engine.dfy`, `Slots.dfy`, `EngineLoop.dfy` | whole runs of the engine: conservation, slots of a job, the engine object and its loop |
| `TickSlots.dfy` | the slots of a job when ticks are taken apart |
| `Doubles.dfy`, `Retry.dfy`, `Misfire.dfy` | rounding to double precision, and the policy functions |

## What is assumed

- An instant is a whole number of nanoseconds without leap seconds. What the date library prints is
  RFC 3339 (section 5.6) with the offset `+00:00` and a fraction of 0, 3, 6 or 9 digits, as few as are
  needed; a year past 9999 or before 0 gets a sign. Section 5.1 of RFC 3339 warns that texts with different fraction
  lengths need not sort by time; `OrderEmbedding` shows that these do.
- Among years 0000 to 9999 the text order is the order of time. Compared with such a year, an earlier text
  still sorts right and one past 9999 sorts before (`OrderEmbeddingLimit`). Claims and stale scans on SQLite
  are modelled for clocks in years 0000 to 9999, `now + 30 s` and `now - threshold` included, and for all
  stored instants; listings for stored instants in those years; inserts, updates and reads of one run for all.
- Double precision is modelled by its rounding, to the nearest with ties to even (`Doubles.dfy`), without the
  limits of the exponent. A product of a delay and a jitter factor comes nowhere near them.
- The date library (chrono 0.4.44) holds times from the start of year -262143 to the end of year 262142
  and stops the program when a sum leaves that range, or when a duration would be -2^63 ms. The model has
  that outcome where the next run of an interval is computed; the clock itself is assumed to stay well
  inside the range, so that `now + 30 s` and `now - threshold` do.
- Run ids are fresh. Ids and JSON payloads are kept as their texts, which are assumed to round-trip.
- `HashMap` order and SQLite row order are arbitrary: an operation that picks or lists runs may return
  any selection its specification admits, and everything is proved for all of them.
- There is one shared clock, which never runs backwards. In the step systems reading the clock and the
  store call it is read for are one step. `JobRun::new_scheduled` and `update_run` read the system
  clock on their own; those times are parameters (`wall`) wherever a tick is one step.
- One materialiser and one recoverer; their ticks are not cut short by a crash, other than by the date
  library.
- In `Engine.dfy`, `Slots.dfy` and `EngineLoop.dfy` a tick of materialisation is one step: nobody writes a
  job between the tick's listing and its writes. `TickProtocol.dfy` drops this, and says when a change
  made during a tick survives it; `TickSlots.dfy` keeps the results about slots without it.
- The cron library answers with a time strictly after the given one, or with none.
- `pause` and `resume` as methods are one step each. Split into a read and a later write they are harmless
  exactly as long as the stored record still differs from the one read in at most `enabled`
  (`Slots.SplitWriteHarmless`); the theorems about slots allow any number of such writes.

## Where code and documentation disagree

The model follows the code.

- The repository's README says that orphaned runs go to `retry_wait` or to the dead letter queue. Recovery
  sends them to `scheduled` or `dead_letter`, in the same tick, and a run that is only leased goes back to
  `scheduled` even when its attempts are used up.
- `lease_ttl_ms` is documented as the lease time. It is handed on but never used: both stores grant 30 s.
- The interval anchor and the cron time zone are never read; an interval counts from the tick that made the
  last run (`Slots.SlotDrift`).
- Misfire policies are documented as deciding how many runs are made up for. Nothing calls
  `resolve_misfires`: a tick makes one run per due job, whatever it missed. Nor does anything call
  `compute_delay` or `should_retry`: recovery reschedules every retry after one second.
- `RunImmediately` returns every overdue time, unsorted.
- Exponential delays are documented as `base_delay_ms` times 2^attempt, capped at `max_delay_ms`. The
  exponent is attempt - 1, and jitter is applied after the cap and can pass it (`Retry.PassesCap`).
- A one-off job is not disabled after its run; it only has no next time any more.

## What turned out to fail

- An empty patch is seen differently by the two stores: `Refinement.EmptyPatchDiffers`.
- With a heartbeat limit under 30 s recovery takes runs from live workers: `LeaseProtocol.ExclusiveThresholds`.
- Recovery acting on an old snapshot can leave the lifecycle graph: `NonInterference.ExecutorRace`.
- An interval that is zero, that wraps to a negative number, or whose end leaves the range of the date
  library makes ticks repeat a slot, or make an earlier one. In the first two cases the job is due again at
  once; in the last the program stops after inserting the run and before advancing the job, so the next
  tick after a restart inserts the same slot again. `Slots.SlotsIncreaseWhen` and
  `Materialize.MaterializeIdempotent` give the exact condition.
- A resume that writes back a record from before a tick makes the slot of that tick again:
  `Slots.StaleWriteRepeats`. A pause or removal made while a tick has the job pending is undone by the
  tick: `TickProtocol.WriteSurvivesTick`.
- A product that wraps below the cap makes the retry delay fall: `Retry.DelaysRiseWhen`, with attempt 62 of
  the default delays waiting nothing (`Retry.WrappedDelayVanishes`).
- Jitter passes the cap at some clock reading exactly if 1.499 times the capped delay does:
  `Retry.CapKept`. At a single reading rounding may decide it (`Retry.RoundingDecides`).
- A run scheduled for a year past 9999 is due at once for SQLite, and cannot be read back
  (`Rows.WhereDueMeaning`). A batch of more than 32 766 runs is leased on SQLite, and then the call fails
  (`SqliteStores.SqliteStore.ClaimDueRuns`).

## Model

| member | source | states |
|---|---|---|
| `Timestamps.OrderEmbedding` | crates/leyla-core/src/store/sqlite.rs:16-18 | for all instants in years 0000-9999 the byte order of the printed texts, with 0, 3, 6 or 9 fraction digits, is the order of time, for less, at most and equal |
| `Timestamps.OrderEmbeddingLimit` | crates/leyla-core/src/store/sqlite.rs:16-18 | compared with a four-digit year, the text of any instant, earlier or later, sorts by time exactly if its year is not past 9999; a later one sorts before |
| `Timestamps.TimestampRoundTrip` | crates/leyla-core/src/store/sqlite.rs:20-24 | parsing a printed instant gives it back exactly if its year has four digits; a later or a negative year is an error |
| `Calendar.CivilOfInstant` | crates/leyla-core/src/store/sqlite.rs:16-18 | the calendar fields that are printed are valid and denote the instant they were computed from |
| `Calendar.InstantOfCivil` | crates/leyla-core/src/store/sqlite.rs:20-24 | valid calendar fields, as read from a text, denote the instant that has exactly these fields |
| `Calendar.CivilOrder` | crates/leyla-core/src/store/sqlite.rs:16-18 | the calendar order of two dates, field by field, is the order of their instants |
| `Calendar.LatestDate` | crates/leyla-core/src/scheduler/due.rs:64-65 | the last instant of the date library is the last nanosecond of year 262142 |
| `Calendar.EarliestDate` | crates/leyla-core/src/scheduler/due.rs:64-65 | the first one is the start of year -262143 |
| `Rows.StatusRoundTrip` | crates/leyla-core/src/store/sqlite.rs:30-35 | the status text is read back as the same status, and two statuses have the same text only if they are the same |
| `Rows.RowRoundTrip` | crates/leyla-core/src/store/sqlite.rs:37-106 | reading back the columns that an insert writes gives the same run, absent fields included, exactly if all its instants have four-digit years, and is an error otherwise |
| `Rows.WhereDueMeaning` | crates/leyla-core/src/store/sqlite.rs:275 | for every run: the text condition of the claim query is the in-memory test, exactly unless the run is scheduled for a year past 9999, which the query takes for due and which cannot be read back |
| `Rows.WhereStaleMeaning` | crates/leyla-core/src/store/sqlite.rs:437 | for every run: the text condition of the stale scan, with SQL's three-valued OR and a NULL lease, is the in-memory test, exactly unless only a lease or an update past year 9999 makes it hold |
| `Rows.PatchRowApplies` | crates/leyla-core/src/store/sqlite.rs:340-359 | updating column by column is the one record update, for every patch that is not empty and all times |
| `Rows.PatchRowMeaning` | crates/leyla-core/src/store/sqlite.rs:340-359 | with an empty patch the two agree exactly if the run already carries the time of the call |
| `SqliteStores.SqliteStore.InsertRun` | crates/leyla-core/src/store/sqlite.rs:225-259 | a new id is stored, whatever its times, a known one is a conflict that changes nothing: the outcome of the in-memory store on the runs the table holds |
| `SqliteStores.SqliteStore.SelectDueIds` | crates/leyla-core/src/store/sqlite.rs:274-282 | distinct ids of due rows, as many as there are up to the limit, or all of them for a negative limit |
| `SqliteStores.SqliteStore.UpdateLeases` | crates/leyla-core/src/store/sqlite.rs:284-290 | the updates, guarded by the status, lease exactly the selected rows |
| `SqliteStores.SqliteStore.ClaimDueRuns` | crates/leyla-core/src/store/sqlite.rs:261-317 | leases as many of the runs that are due by their text as the limit, cast to a signed number, lets through; succeeds exactly if they fit the placeholders of one statement and can be read back, with the batch as it now is; on a table that can be read that is the in-memory claim |
| `SqliteStores.SqliteStore.PatchColumns` | crates/leyla-core/src/store/sqlite.rs:350-359 | the sequence of column updates is one row update, which sets `updated_at` only if some column is patched |
| `SqliteStores.SqliteStore.UpdateRun` | crates/leyla-core/src/store/sqlite.rs:319-365 | the outcome of the in-memory update for a patch that is not empty, whatever its times; an empty one changes nothing; an unknown id is an error |
| `SqliteStores.SqliteStore.GetRun` | crates/leyla-core/src/store/sqlite.rs:367-376 | the stored run, or not found; an internal error if one of its instants has no four-digit year |
| `SqliteStores.SqliteStore.ListRuns` | crates/leyla-core/src/store/sqlite.rs:378-423 | the newest matching runs, newest first, up to the limit, although the rows are ordered by the text of the time |
| `SqliteStores.SqliteStore.GetStaleRuns` | crates/leyla-core/src/store/sqlite.rs:425-453 | each run that is stale by its texts once and no other, or an error exactly if one cannot be read back; on a table that can be read these are the stale runs |
| `SqliteStores.SqliteStore.CountActiveRuns` | crates/leyla-core/src/store/sqlite.rs:508-518 | the number of leased, dispatched and running runs of the job |
| `MemoryStores.MemoryStore.ListJobs` | crates/leyla-core/src/store/memory.rs:48-53 | every job once, oldest first |
| `MemoryStores.MemoryStore.InsertRun` | crates/leyla-core/src/store/memory.rs:63-71 | a new id is stored, a known one is a conflict that changes nothing |
| `MemoryStores.MemoryStore.DueIds` | crates/leyla-core/src/store/memory.rs:82-88 | distinct due ids, as many as there are up to the limit, whatever order the map yields them in |
| `MemoryStores.MemoryStore.ClaimDueRuns` | crates/leyla-core/src/store/memory.rs:73-101 | leases min(limit, due) due runs to the caller for 30 s, returns exactly these as they now are, and leaves all others alone |
| `MemoryStores.MemoryStore.UpdateRun` | crates/leyla-core/src/store/memory.rs:103-142 | each present field of the patch replaces the stored one and `updated_at` is set; no other run changes; an unknown id is an error |
| `MemoryStores.MemoryStore.ListRuns` | crates/leyla-core/src/store/memory.rs:152-182 | the newest matching runs, newest first, up to the limit; no run left out is newer than one returned |
| `MemoryStores.MemoryStore.GetStaleRuns` | crates/leyla-core/src/store/memory.rs:184-210 | each leased or running run whose lease is over or that was not updated for the threshold, once, and no other |
| `MemoryStores.MemoryStore.CountActiveRuns` | crates/leyla-core/src/store/memory.rs:219-233 | the number of leased, dispatched and running runs of the job |
| `Refinement.NextMeaning` | crates/leyla-core/src/store/sqlite.rs:225-365 | after any call the table holds the in-memory runs, exactly unless the call is an empty patch of a run with another `updated_at` |
| `Refinement.AllowsMeaning` | crates/leyla-core/src/store/sqlite.rs:225-453 | the result of a call is possible on the table exactly if it is possible in memory and no claimed batch has more runs than a statement has placeholders |
| `Refinement.SameTraces` | crates/leyla-core/src/store/sqlite.rs:225-518 | for every finite sequence of calls and results whose empty patches change no `updated_at`: SQLite admits it exactly if the in-memory store does and every claimed batch fits a statement |
| `Refinement.EmptyPatchDiffers` | crates/leyla-core/src/store/memory.rs:109-138 | for every run stale only for lack of updates, however many others are stale: after an empty patch a stale scan leaves it out in memory and not on SQLite |
| `Lifecycle.TerminalStates` | crates/leyla-core/src/lifecycle.rs:4-33 | exactly Succeeded, DeadLetter and Cancelled have no way out |
| `Lifecycle.PathLength` | crates/leyla-core/src/lifecycle.rs:4-25 | a path that enters Scheduled k times has at most 6 (k + 1) steps, less the rank of its end |
| `Lifecycle.PathLengthTight` | crates/leyla-core/src/lifecycle.rs:4-25 | for every k some path reaches that bound |
| `Lifecycle.InfinitePathReschedules` | crates/leyla-core/src/lifecycle.rs:4-25 | an infinite path enters Scheduled within seven steps of any point |
| `Recovery.RecoveryManager.RecoverStale` | crates/leyla-core/src/scheduler/recovery.rs:34-105 | the one or two writes to a stale run turn it into its recovered form and touch no other run |
| `Recovery.RecoveryManager.RecoverStaleRuns` | crates/leyla-core/src/scheduler/recovery.rs:29-106 | the first phase recovers exactly the stale runs and counts them |
| `Recovery.RecoveryManager.AdvanceRetries` | crates/leyla-core/src/scheduler/recovery.rs:108-139 | the second phase reschedules exactly the retries whose delay is over and counts them |
| `Recovery.RecoveryManager.Recover` | crates/leyla-core/src/scheduler/recovery.rs:25-142 | returns the number of stale runs plus ready retries at the start, and leaves every run in the form `Recovered` gives it |
| `Recovery.RecoveryComplete` | crates/leyla-core/src/scheduler/recovery.rs:25-142 | afterwards nothing is stale and no retry is ready at that time |
| `Recovery.RecoveryIdempotent` | crates/leyla-core/src/scheduler/recovery.rs:25-142 | a second recovery at the same time changes nothing |
| `Recovery.RecoveryVerdict` | crates/leyla-core/src/scheduler/recovery.rs:34-136 | a stale running run is dead-lettered exactly if its attempts are used up, other stale runs and ready retries are rescheduled, all else is untouched, nothing is left orphaned, each change follows edges of the graph |
| `Claiming.LeaseManager.ClaimBatch` | crates/leyla-core/src/scheduler/claim.rs:33-38 | one claim in the name of this instance, up to its batch size |
| `Claiming.BatchSizes` | crates/leyla-core/src/scheduler/claim.rs:33-38 | in a row of claims at one time, each takes a full batch, then what is left, then nothing: exactly ceil(due / limit) are not empty |
| `Claiming.ClaimedOnce` | crates/leyla-core/src/store/memory.rs:73-101 | no run is in two batches of such a row; a run in none is unchanged; a run in one is leased by that claim |
| `Claiming.Drained` | crates/leyla-core/src/store/memory.rs:73-101 | claims with room for all due runs leave each of them leased by the claim that took it, and nothing else changed |
| `Claiming.NoWorkLost` | crates/leyla-core/src/scheduler/recovery.rs:73-105 | a leased run with an expired lease, after recovery and ceil(due / limit) claims, is leased by the claiming worker, whatever order the claims take runs in |
| `LeaseProtocol.InvStep` | crates/leyla-core/src/scheduler/recovery.rs:25-142 | every step of workers, executors and the recoverer keeps the invariant: what recovery has yet to write is not Scheduled, waiting retries are as seen, a leased run is not ahead of its time |
| `LeaseProtocol.LeaseExclusive` | crates/leyla-core/src/store/memory.rs:80-97 | in every interleaving, two claims of a run whose end was not reported in between are more than the smaller of 30 s and the stale threshold apart |
| `LeaseProtocol.ExclusiveThresholds` | crates/leyla-core/src/store/memory.rs:192-204 | claims are always more than 30 s apart exactly if the stale threshold is at least 30 s |
| `NonInterference.StepKeepsLifecycle` | crates/leyla-core/src/store/memory.rs:103-112 | a step changes every status along an edge of the graph or not at all, exactly if recovery's write, when it is one, still fits the status of its run |
| `NonInterference.LifecycleKept` | crates/leyla-core/src/scheduler/recovery.rs:30-139 | in every interleaving in which no executor acts on a run between recovery's snapshot and its write, each change is an edge, finished runs are left alone, no retry is rescheduled before its second is over |
| `NonInterference.TerminalAbsorbing` | crates/leyla-core/src/lifecycle.rs:4-25 | a finished run stays as it is, lease fields included, over any number of such steps |
| `NonInterference.ChangesBounded` | crates/leyla-core/src/lifecycle.rs:4-25 | a run that is rescheduled n times changes its status at most 6 (n + 1) times |
| `NonInterference.StepKeepsIdentity` | crates/leyla-core/src/store/memory.rs:103-142 | no step changes a run's job, time or attempt limit, and only an executor changes its attempt |
| `NonInterference.RunsConserved` | crates/leyla-core/src/store/memory.rs:63-71 | no step removes a run and only an insert adds one, over any interleaving |
| `NonInterference.ClaimedTwiceReturned` | crates/leyla-core/src/scheduler/recovery.rs:56-136 | between two claims of a run there is a recovery write to this run that made it Scheduled again |
| `NonInterference.ReachedRunIsReclaimed` | crates/leyla-core/src/scheduler/recovery.rs:73-105 | no work is lost from any state an interleaving can reach, executor interference included |
| `NonInterference.ExecutorRace` | crates/leyla-core/src/scheduler/recovery.rs:29-105 | a run dispatched between snapshot and write goes from Dispatched straight to Scheduled |
| `RecoverySteps.UninterruptedRecovery` | crates/leyla-core/src/scheduler/recovery.rs:25-142 | the store calls of a recovery, with nothing in between, do exactly what the one-shot function says |
| `SqliteProtocol.TableRefines` | crates/leyla-core/src/store/sqlite.rs:261-453 | every behaviour of workers, executors and recoverer whose store calls go to the table is a behaviour of the lease protocol, with the same steps at the same times |
| `SqliteProtocol.TableLeaseExclusive` | crates/leyla-core/src/store/sqlite.rs:261-317 | on SQLite too, two claims of a run whose end was not reported in between are more than the smaller of 30 s and the stale threshold apart |
| `SqliteProtocol.TableLifecycleKept` | crates/leyla-core/src/store/sqlite.rs:319-365 | on SQLite too, without executor interference every change of a stored status is an edge of the graph, finished rows stay, no retry is rescheduled early |
| `Materialize.DueRunMaterializer.MaterializeJob` | crates/leyla-core/src/scheduler/due.rs:24-52 | a due job gets a run for the time it was waiting for and then its next time, unless computing that stops the program with the run inserted and the job as it was; a job that is disabled, manual, without a time or early is left alone |
| `Materialize.DueRunMaterializer.Materialize` | crates/leyla-core/src/scheduler/due.rs:19-56 | one tick does this for exactly the due jobs and returns how many there were, or stops at one whose next time is out of range, the oldest jobs first |
| `Materialize.MaterializeExact` | crates/leyla-core/src/scheduler/due.rs:42-45 | the runs grow by the number of jobs materialised, and each new run belongs to one of them, for its old next time, at attempt 1 |
| `Materialize.NextRunLater` | crates/leyla-core/src/scheduler/due.rs:59-72 | the next time is later or never exactly for the schedules that advance: those whose interval, if any, is not zero and ends in range |
| `Materialize.JobsAfterTick` | crates/leyla-core/src/scheduler/due.rs:47-51 | a job that is advanced is stamped with the time of the tick, keeps its settings, and moves on to a later time or none exactly if its schedule advances; no other job changes |
| `Materialize.StillDue` | crates/leyla-core/src/scheduler/due.rs:59-72 | after a tick exactly the due jobs it did not come to, and those it advanced whose schedule does not advance, are due |
| `Materialize.MaterializeIdempotent` | crates/leyla-core/src/scheduler/due.rs:19-72 | a tick comes to its end and leaves nothing due exactly if the interval of each due job is not zero and ends in range; a second tick at the same time then changes nothing |
| `Materialize.HaltedStillDue` | crates/leyla-core/src/scheduler/due.rs:42-51 | the job a tick stopped at has a run for its time and still waits for that time |
| `Engine.RunsKept` | crates/leyla-core/src/engine.rs:94-118 | over any sequence of ticks, triggers, pauses and upserts no run is lost, changes its job, time or attempts, or leaves a finished state |
| `Engine.StepKeepsRun` | crates/leyla-core/src/scheduler/recovery.rs:117-138 | a waiting retry changes only to Scheduled, and not before its second is over |
| `Engine.NewRunClaimed` | crates/leyla-core/src/engine.rs:147-159 | a triggered or materialised run is taken by the next claim with room for all due runs, whether or not its job is enabled |
| `Engine.Conservation` | crates/leyla-core/src/engine.rs:94-118 | runs = initial + materialised + triggered; active runs = initial + claimed - found stale by recovery; over any run of the engine |
| `Engine.CountsPartition` | crates/leyla-core/src/store/memory.rs:219-233 | the counts of active runs, summed over the jobs, give each active run once |
| `Slots.SlotRuns` | crates/leyla-core/src/scheduler/due.rs:42-45 | each materialised slot of a job has a run of its own in the store, of this job and for this time |
| `Slots.SlotsApart` | crates/leyla-core/src/scheduler/due.rs:34-52 | over any run of the engine with room for one more interval at its end, the i-th and j-th slot of a job are at least (j - i) intervals apart; cron slots strictly increase |
| `Slots.RateBound` | crates/leyla-core/src/scheduler/due.rs:34-66 | of all runs ever materialised for a job, at most 1 + (last - first) / interval are for a time from first to last |
| `Slots.SlotDrift` | crates/leyla-core/src/scheduler/due.rs:63-66 | each slot of an interval job is exactly one interval after the tick that made the one before |
| `Slots.OnceAtMostOnce` | crates/leyla-core/src/scheduler/due.rs:62 | a one-off job gets at most one materialised run, ever |
| `Slots.SlotsIncreaseWhen` | crates/leyla-core/src/scheduler/due.rs:63-66 | the slots of a schedule increase in all runs of the engine up to a horizon exactly if its interval, if any, is at least 1 ms and, started at the horizon, ends in the range of the date library |
| `Slots.SplitWriteHarmless` | crates/leyla-core/src/engine.rs:135-145 | for any run of the engine, a pause or resume that read the job at any step may write it back at the end without touching the distance of slots exactly if no slot was made since, which is so exactly if the stored record differs from the one read in at most `enabled` |
| `Slots.StaleWriteRepeats` | crates/leyla-core/src/engine.rs:141-145 | otherwise writing it back enabled makes the next tick that comes to the job repeat the first slot made since the read |
| `Slots.SplitResumeRepeats` | crates/leyla-core/src/engine.rs:141-145 | this happens for every schedule but manual: a run of the engine that makes one slot twice |
| `TickProtocol.WriteSurvivesTick` | crates/leyla-core/src/scheduler/due.rs:21-51 | a pause or removal made at any point of a tick is in force after it exactly if the tick did not have the job pending: listed as due and not yet written back |
| `TickProtocol.ChangeSurvivesTick` | crates/leyla-core/src/scheduler/due.rs:21-51 | any change of a job made after the tick listed the jobs stands if the job was not pending; otherwise the tick puts the listed record back, advanced, with its old schedule and settings |
| `TickProtocol.UninterruptedTick` | crates/leyla-core/src/scheduler/due.rs:19-56 | the store calls of a tick, with nobody in between, do exactly what a whole tick is said to do, and stop early exactly if the date library stops it |
| `TickSlots.TickSlotsApart` | crates/leyla-core/src/scheduler/due.rs:21-51 | with pauses and resumes between the store calls of ticks, the i-th and j-th slot of a job are still at least (j - i) intervals apart |
| `TickSlots.TickRateBound` | crates/leyla-core/src/scheduler/due.rs:21-66 | so are the rate bound and the single run of a one-off job kept |
| `EngineLoop.LeylaEngine.Start` | crates/leyla-core/src/engine.rs:71-121 | whatever order the tickers fire in, what the loop does to the store is a run of the step system, up to the first poll in which the date library stops the program |
| `EngineLoop.LeylaEngine.OnPoll` | crates/leyla-core/src/engine.rs:101-110 | a poll is a materialise step and then a claim step of this instance, or ends with the first if the date library stops the program |
| `EngineLoop.LeylaEngine.OnRecoveryPoll` | crates/leyla-core/src/engine.rs:111-116 | a recovery poll is a recovery step with the configured threshold |
| `EngineLoop.LeylaEngine.Pause` | crates/leyla-core/src/engine.rs:135-139 | disables the job and changes nothing else; not found for an unknown job |
| `EngineLoop.LeylaEngine.Resume` | crates/leyla-core/src/engine.rs:141-145 | enables the job and changes nothing else; not found for an unknown job |
| `EngineLoop.LeylaEngine.Trigger` | crates/leyla-core/src/engine.rs:147-159 | adds one run of the job for now with the given input; not found for an unknown job, conflict for a known id, and then nothing changes |
| `EngineLoop.HeartbeatLimit` | crates/leyla-core/src/engine.rs:28-38 | workers keep their leases for 30 s exactly if the configured heartbeat limit is at least 30 000 ms |
| `Retry.CapExact` | crates/leyla-core/src/policies/retry.rs:4-12 | the delay never exceeds the cap, and is the smaller of product and cap exactly if the product fits 64 bits or what wrapping leaves reaches the cap |
| `Retry.DelayMonotone` | crates/leyla-core/src/policies/retry.rs:4-12 | for all strategies, while the product fits, later attempts wait no less, a delay at the cap stays there, and the delay is the smaller of product and cap |
| `Retry.DelaysRiseWhen` | crates/leyla-core/src/policies/retry.rs:4-12 | for all policies, the delays of the attempts up to n never fall exactly if the product of each of them fits 64 bits or reaches the cap after wrapping |
| `Retry.WrappedDelayVanishes` | crates/leyla-core/src/policies/retry.rs:7-11 | with the default delays attempt 62 waits nothing, although attempt 7 waits as long as the cap |
| `Retry.RetryBudget` | crates/leyla-core/src/policies/retry.rs:20-22 | a run is retried max(max_attempts, 1) - 1 times and waits in total at most that often the cap |
| `Retry.TotalWaitClosed` | crates/leyla-core/src/policies/retry.rs:4-22 | below the cap the total wait is linear, quadratic or exponential in the number of retries, in closed form |
| `Doubles.DoubleError` | crates/leyla-core/src/policies/retry.rs:32-33 | rounding to double precision moves a number by at most its 2^53rd part |
| `Doubles.DoubleKeepsOrder` | crates/leyla-core/src/policies/retry.rs:32-33 | rounding passes no whole number up to 2^53 |
| `Retry.JitterExact` | crates/leyla-core/src/policies/retry.rs:24-33 | for delays up to 2^40 ms the double-precision result is the exact product with its fraction cut off, or one less when that product is a whole number of milliseconds |
| `Retry.JitterBounds` | crates/leyla-core/src/policies/retry.rs:24-33 | in double precision the jittered delay is at least half of a delay up to 2^53 ms, and at most one and a half times any delay |
| `Retry.DelayBounds` | crates/leyla-core/src/policies/retry.rs:4-18 | every computed delay is within half and one and a half times the capped one, for any clock reading; without jitter it is the capped one |
| `Retry.PassesCap` | crates/leyla-core/src/policies/retry.rs:13-33 | a clock reading passes the cap if there is jitter and its share of the capped delay goes beyond the next whole millisecond after the cap, and only if it reaches it |
| `Retry.RoundingDecides` | crates/leyla-core/src/policies/retry.rs:32-33 | where the share just reaches it rounding decides: 1000 times 1.001 gives 1000, 100 times 1.01 gives 101 |
| `Retry.CapKept` | crates/leyla-core/src/policies/retry.rs:13-33 | no clock reading below a second passes the cap exactly if there is no jitter or 1.499 times the capped delay stays within the cap |
| `Misfire.ReplaySelects` | crates/leyla-core/src/policies/misfire.rs:17-28 | a bounded replay returns min(k, n) of the overdue times, oldest first, and none left out is later than one kept |
| `Misfire.OrderIrrelevant` | crates/leyla-core/src/policies/misfire.rs:5-31 | the result depends only on which times are overdue and how often; only RunImmediately keeps their order |
| `Misfire.ReplayGrows` | crates/leyla-core/src/policies/misfire.rs:20-27 | the replay with limit k is a suffix of the one with limit k + 1, which has at most one time more |
| `Misfire.ReplayOneCoalesces` | crates/leyla-core/src/policies/misfire.rs:16-27 | a replay of one is the coalesced run |
| `Misfire.ReplayEverything` | crates/leyla-core/src/policies/misfire.rs:15-28 | a replay is a sorted permutation of RunImmediately exactly if it has no limit or one that is large enough |

## Left out

- `SqliteStores.SqliteStore.UpdateRun`: for an empty patch the contract follows the SQLite code, which does not set `updated_at`; the in-memory store does.
- `Refinement.SameTraces`: for instants in years 0000 to 9999; outside them the text order is not the order of time.
- `Engine.Conservation`: executor steps are not part of this system; with them a run also stops being active when its end is reported.
- `Materialize.DueRunMaterializer.Materialize`: job writes by others during a tick are not part of this contract; `TickProtocol` takes the tick apart.
- `EngineLoop.LeylaEngine.Start`: other callers and instances do not act between or during the firings; in the step systems they do.
- `EngineLoop.LeylaEngine.Pause`: the read and the write are one step; `Slots.SplitWriteHarmless` says when they may be two.
- `EngineLoop.LeylaEngine.Resume`: the read and the write are one step, as for `Pause`.
- `SqliteStores.SqliteStore.ClaimDueRuns`: for clocks in years 0000 to 9999, the end of the lease included; a call that fails after its updates leaves a transaction open, and what later calls on that connection do is not modelled.
- `SqliteStores.SqliteStore.GetStaleRuns`: for clocks in years 0000 to 9999, the cut-off included.
- `SqliteStores.SqliteStore.ListRuns`: for stored instants in years 0000 to 9999.
- `Retry.JitterBounds`: the lower bound is for delays up to 2^53 ms, beyond which the conversion to a double may lose more than half a millisecond.
- `Retry.DelayBounds`: the lower bound is for capped delays up to 2^53 ms, as for `JitterBounds`.
- `Retry.PassesCap`: for capped delays up to 2^40 ms, about 35 years; beyond, rounding may also lift a product over the next millisecond.
- `Retry.CapKept`: for capped delays up to 2^40 ms, as for `PassesCap`.
- `Retry.CapExact`: models a build without overflow checks; a build with them stops where the product does not fit.
- `Retry.TotalWaitClosed`: for the exponential strategy up to attempt 64, after which the factor saturates.
- The command line, its output, PID files and signals. Its `cancel` and `retry` commands also take edges outside the lifecycle graph (leased to cancelled, failed, dead-lettered or cancelled to scheduled), so they are not steps of the model.
- Executors: they appear as a step that moves a run forward along the lifecycle graph and never shortens its lease.
- A second recoverer or materialiser, a tick cut short by a crash between two store calls, and a worker that claims with a clock reading it took long before.
- `filter_by_concurrency` and `can_dispatch`: nothing calls them.
- The `jobs` table of the SQLite store, which keeps each job as one JSON text, and the `dead_letters` table, which is never written.
- Fields of a job that no modelled operation reads: executor, concurrency, timeout, tags, metadata, version and the last success and failure times.
- SQL parsing, transactions that fail half way, write-ahead logging and locking between processes, migrations; each store method is one step.
- Parsing of cron expressions and time zones: one function from expression and time to the next time.
- The async runtime, logging, and ticker timing: `EngineLoop.LeylaEngine.Start` takes the firings in any order and at any times.
- A stale threshold beyond the range of the date library: both stores return an error if its milliseconds do not fit a signed 64-bit number, and stop the program otherwise.
