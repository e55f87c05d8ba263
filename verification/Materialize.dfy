/** Materialisation: each enabled job whose time has come gets one run, and its next time is set.

    What a tick reads from outside is in its `Tick`: the time on the shared clock, the ids of the new
    runs (assumed fresh), the times `JobRun::new_scheduled` reads from the system clock, and the cron
    library's answer (the next time after a given one, if the expression parses and there is one). */
module Materialize {
  import opened Calendar
  import opened Collections
  import opened Types
  import opened Wrappers
  import opened StoreSpec
  import opened MemoryStores

  type Jobs = map<JobId, LeylaJob>
  type CronNext = (string, Instant) -> Option<Instant>

  /** The cron library's promise. */
  ghost predicate StrictlyAfter(cron: CronNext) {
    forall expression, after :: cron(expression, after).Some? ==> after < cron(expression, after).value
  }

  /** The end of an interval, or none if the date library stops the program: it has no duration of
      -2^63 ms, and no time outside its range. */
  function IntervalEnd(everyMs: u64, after: Instant): Option<Instant> {
    var end := after + AsI64(everyMs) * NANOS_PER_MILLI;
    if AsI64(everyMs) == -TWO_63 || !InRange(end) then None else Some(end)
  }

  datatype NextRun = Never | At(time: Instant) | OutOfRange {

    function ToOption(): Option<Instant> {
      if At? then Some(time) else None
    }
  }

  function ComputeNextRun(schedule: Schedule, after: Instant, cron: CronNext): NextRun {
    match schedule
    case Manual => Never
    case Once(_) => Never
    case Interval(everyMs, _) =>
      var end := IntervalEnd(everyMs, after);
      if end.Some? then At(end.value) else OutOfRange
    case Cron(expression, _) =>
      var next := cron(expression, after);
      if next.Some? then At(next.value) else Never
  }

  /** Computing the next run at this time stops the program. */
  predicate Overflows(schedule: Schedule, now: Instant) {
    schedule.Interval? && IntervalEnd(schedule.everyMs, now).None?
  }

  predicate IsDueJob(job: LeylaJob, now: Instant) {
    job.enabled && !job.schedule.Manual? && job.nextRunAt.Some? && job.nextRunAt.value <= now
  }

  function DueJobs(jobs: Jobs, now: Instant): set<JobId> {
    set id | id in jobs && IsDueJob(jobs[id], now)
  }

  /** The record written back for a materialised job, unless computing its next run stops the program. */
  function Advanced(job: LeylaJob, now: Instant, cron: CronNext): LeylaJob {
    job.(nextRunAt := ComputeNextRun(job.schedule, now, cron).ToOption(), lastRunAt := Some(now), updatedAt := now)
  }

  /** The jobs after those in `ids` were materialised. */
  function AdvancedJobs(jobs: Jobs, ids: set<JobId>, now: Instant, cron: CronNext): Jobs {
    map id | id in jobs :: if id in ids then Advanced(jobs[id], now, cron) else jobs[id]
  }

  function RunOf(job: LeylaJob, runId: RunId, wall: Instant): JobRun
    requires job.nextRunAt.Some?
  {
    NewScheduled(runId, job.id, job.nextRunAt.value, job.retry.maxAttempts, wall)
  }

  ghost predicate FreshIds(jobs: set<JobId>, runs: Runs, newId: JobId -> RunId) {
    && (forall j :: j in jobs ==> newId(j) !in runs)
    && (forall j, k :: j in jobs && k in jobs && newId(j) == newId(k) ==> j == k)
  }

  ghost function Images(ids: set<JobId>, newId: JobId -> RunId): set<RunId> {
    set j | j in ids :: newId(j)
  }

  /** Exactly one run was added for each job in `ids`, for the time that job was waiting for. */
  ghost predicate RunsAdded(runs: Runs, runs': Runs, jobs: Jobs, ids: set<JobId>, newId: JobId -> RunId,
                            wall: JobId -> Instant) {
    && runs'.Keys == runs.Keys + Images(ids, newId)
    && (forall id :: id in runs ==> runs'[id] == runs[id])
    && (forall j :: j in ids ==> j in jobs && jobs[j].nextRunAt.Some? && newId(j) in runs'
                                 && runs'[newId(j)] == RunOf(jobs[j], newId(j), wall(j)))
  }

  /** What one tick reads: the shared clock, the system clock, fresh ids, the cron library. */
  datatype Tick = Tick(now: Instant, newId: JobId -> RunId, wall: JobId -> Instant, cron: CronNext)

  /** The jobs a tick has inserted a run for: those it also advanced, and the one it stopped at. */
  function MadeFor(advanced: set<JobId>, halted: Option<JobId>): set<JobId> {
    advanced + if halted.Some? then {halted.value} else {}
  }

  /** The tick has inserted the runs of the jobs in `made`, advanced those in `advanced`, and done
      nothing else. */
  ghost predicate TickDone(jobs: Jobs, runs: Runs, jobs': Jobs, runs': Runs, made: set<JobId>, advanced: set<JobId>,
                           tick: Tick) {
    && jobs' == AdvancedJobs(jobs, advanced, tick.now, tick.cron)
    && RunsAdded(runs, runs', jobs, made, tick.newId, tick.wall)
  }

  /** How far a tick gets. It comes to its end exactly if the next run of every due job is in range;
      otherwise it stops at such a job, with the run inserted and the job not advanced. Older jobs
      come first. */
  ghost predicate TickExtent(jobs: Jobs, now: Instant, advanced: set<JobId>, halted: Option<JobId>) {
    var due := DueJobs(jobs, now);
    && (forall j :: j in advanced ==> j in due && !Overflows(jobs[j].schedule, now))
    && (halted.None? ==> advanced == due)
    && (halted.Some? ==>
          var p := halted.value;
          && p in due && Overflows(jobs[p].schedule, now)
          && (forall j :: j in advanced ==> JobAge(jobs[j]) <= JobAge(jobs[p]))
          && (forall j :: j in due - advanced ==> JobAge(jobs[p]) <= JobAge(jobs[j])))
  }

  lemma {:induction false} MadeAreDue(jobs: Jobs, now: Instant, advanced: set<JobId>, halted: Option<JobId>)
    requires TickExtent(jobs, now, advanced, halted)
    ensures MadeFor(advanced, halted) <= DueJobs(jobs, now) <= jobs.Keys
  {
    hide Overflows, IsDueJob;
  }

  /** One whole tick. */
  ghost predicate TickOutcome(jobs: Jobs, runs: Runs, jobs': Jobs, runs': Runs, advanced: set<JobId>,
                              halted: Option<JobId>, tick: Tick) {
    && TickExtent(jobs, tick.now, advanced, halted)
    && TickDone(jobs, runs, jobs', runs', MadeFor(advanced, halted), advanced, tick)
  }

  /** What becomes of one job; `Panicked` is the date library stopping the program. */
  datatype JobOutcome = Skipped | Materialised | Panicked

  // ---------------------------------------------------------------------------------------------
  // The loop
  // ---------------------------------------------------------------------------------------------

  class DueRunMaterializer {
    const store: MemoryStore

    constructor (store: MemoryStore)
      ensures this.store == store
    {
      this.store := store;
    }

    /** Inserts the run of one job and advances the job, if it is due. */
    method MaterializeJob(listed: LeylaJob, tick: Tick) returns (result: Result<JobOutcome>)
      requires store.Valid() && tick.newId(listed.id) !in store.runs
      modifies store
      ensures store.Valid()
      ensures result == Ok(if !IsDueJob(listed, tick.now) then Skipped
                           else if Overflows(listed.schedule, tick.now) then Panicked else Materialised)
      ensures result.value.Skipped? ==> store.runs == old(store.runs)
      ensures !result.value.Skipped? ==>
                && listed.nextRunAt.Some?
                && store.runs == old(store.runs)[tick.newId(listed.id) :=
                                                 RunOf(listed, tick.newId(listed.id), tick.wall(listed.id))]
      ensures store.jobs == if result.value.Materialised?
                            then old(store.jobs)[listed.id := Advanced(listed, tick.now, tick.cron)]
                            else old(store.jobs)
    {
      var job := listed;
      if !job.enabled {
        return Ok(Skipped);
      }
      if job.schedule.Manual? {
        return Ok(Skipped);
      }
      if job.nextRunAt.None? {
        return Ok(Skipped);
      }
      var nextRunAt := job.nextRunAt.value;
      if nextRunAt > tick.now {
        return Ok(Skipped);
      }
      var run := NewScheduled(tick.newId(job.id), job.id, nextRunAt, job.retry.maxAttempts, tick.wall(job.id));
      var inserted := store.InsertRun(run);
      if inserted.Err? { return inserted.Then(Skipped); }
      var next := ComputeNextRun(job.schedule, tick.now, tick.cron);
      if next.OutOfRange? { return Ok(Panicked); }
      job := job.(nextRunAt := next.ToOption());
      job := job.(lastRunAt := Some(tick.now));
      job := job.(updatedAt := tick.now);
      store.UpsertJob(job);
      result := Ok(Materialised);
    }

    /** One tick: `count` says how many jobs were due, each of which got its run, unless the tick
        stopped at `halted`. */
    method Materialize(tick: Tick)
      returns (count: Result<nat>, halted: Option<JobId>, ghost advanced: set<JobId>)
      requires store.Valid() && FreshIds(store.jobs.Keys, store.runs, tick.newId)
      modifies store
      ensures store.Valid()
      ensures TickOutcome(old(store.jobs), old(store.runs), store.jobs, store.runs, advanced, halted, tick)
      ensures halted.None? ==> count == Ok(|DueJobs(old(store.jobs), tick.now)|)
    {
      hide IsDueJob, DueJobs, Advanced, RunOf, Names, Distinct, Lists, SortedBy;
      hide FreshIds, TickDone, TickExtent, Overflows;
      ghost var jobs0, runs0, due := store.jobs, store.runs, DueJobs(store.jobs, tick.now);
      var jobs := store.ListJobs();
      ListedJobs(jobs0, tick.now, jobs);
      advanced, halted := {}, None;
      NothingDone(jobs0, runs0, tick, jobs);
      var made: nat := 0;
      for k := 0 to |jobs|
        invariant store.Valid() && TickDone(jobs0, runs0, store.jobs, store.runs, advanced, advanced, tick)
        invariant Scanned(jobs0, tick.now, jobs, k, advanced) && made == |advanced|
      {
        var job := jobs[k];
        ScanStep(jobs0, tick.now, jobs, k, advanced);
        TickStep(jobs0, runs0, store.jobs, store.runs, advanced, job.id, tick);
        var outcome := MaterializeJob(job, tick);
        if outcome.Err? { return outcome.Then(made), halted, advanced; }
        match outcome.value {
          case Skipped =>
          case Materialised => made, advanced := made + 1, advanced + {job.id};
          case Panicked =>
            halted := Some(job.id);
            assert MadeFor(advanced, halted) == advanced + {job.id};
            return Ok(made), halted, advanced;
        }
      }
      ScanEnds(jobs0, tick.now, jobs, advanced);
      assert MadeFor(advanced, None) == advanced;
      count := Ok(made);
    }
  }

  /** The first `k` jobs have been looked at, and the due ones among them advanced. */
  ghost predicate Scanned(jobs: Jobs, now: Instant, out: seq<LeylaJob>, k: nat, advanced: set<JobId>)
    requires k <= |out|
  {
    && advanced == Names(JobKey, out[..k]) * DueJobs(jobs, now)
    && forall j :: j in advanced ==> j in jobs && !Overflows(jobs[j].schedule, now)
  }

  lemma {:induction false} NothingDone(jobs: Jobs, runs: Runs, tick: Tick, out: seq<LeylaJob>)
    ensures TickDone(jobs, runs, jobs, runs, {}, {}, tick)
    ensures Scanned(jobs, tick.now, out, 0, {})
  {
    NoNames(JobKey, out[..0]);
  }

  lemma {:induction false} ListedJobs(jobs: Jobs, now: Instant, out: seq<LeylaJob>)
    requires Lists(jobs, JobKey, jobs.Keys, out)
    ensures Distinct(JobKey, out) && DueJobs(jobs, now) <= Names(JobKey, out)
    ensures forall k :: 0 <= k < |out| ==>
              && out[k].id in jobs && jobs[out[k].id] == out[k]
              && (out[k].id in DueJobs(jobs, now) <==> IsDueJob(out[k], now))
  {
    DistinctByCount(JobKey, out);
    forall k | 0 <= k < |out|
      ensures out[k].id in jobs && jobs[out[k].id] == out[k]
    {
      assert out[k] in out && JobKey(out[k]) in Names(JobKey, out);
    }
  }

  lemma {:induction false} ScanStep(jobs: Jobs, now: Instant, out: seq<LeylaJob>, k: nat, advanced: set<JobId>)
    requires Lists(jobs, JobKey, jobs.Keys, out) && SortedBy(JobAge, out)
    requires k < |out| && Scanned(jobs, now, out, k, advanced)
    ensures out[k].id !in advanced
    ensures !IsDueJob(out[k], now) ==> Scanned(jobs, now, out, k + 1, advanced)
    ensures IsDueJob(out[k], now) && !Overflows(out[k].schedule, now) ==>
              Scanned(jobs, now, out, k + 1, advanced + {out[k].id})
    ensures IsDueJob(out[k], now) && Overflows(out[k].schedule, now) ==>
              TickExtent(jobs, now, advanced, Some(out[k].id))
  {
    hide Overflows, IsDueJob, Lists, SortedBy;
    ListedJobs(jobs, now, out);
    NamesPrefixStep(JobKey, out, k);
    ListedInOrder(jobs, now, out, k);
  }

  /** Jobs listed before are at least as old, those listed after at most. */
  lemma {:induction false} ListedInOrder(jobs: Jobs, now: Instant, out: seq<LeylaJob>, k: nat)
    requires Lists(jobs, JobKey, jobs.Keys, out) && SortedBy(JobAge, out) && k < |out|
    ensures forall j :: j in Names(JobKey, out[..k]) ==> j in jobs && JobAge(jobs[j]) <= JobAge(out[k])
    ensures forall j :: j in jobs && j !in Names(JobKey, out[..k]) ==> JobAge(out[k]) <= JobAge(jobs[j])
  {
    forall j | j in Names(JobKey, out[..k])
      ensures j in jobs && JobAge(jobs[j]) <= JobAge(out[k])
    {
      var job :| job in out[..k] && JobKey(job) == j;
      var i :| 0 <= i < k && out[i] == job;
    }
    forall j | j in jobs && j !in Names(JobKey, out[..k])
      ensures JobAge(out[k]) <= JobAge(jobs[j])
    {
      assert j in Names(JobKey, out);
      var job :| job in out && JobKey(job) == j;
      var i :| 0 <= i < |out| && out[i] == job;
      assert forall n :: 0 <= n < k ==> JobKey(out[..k][n]) in Names(JobKey, out[..k]);
      assert k <= i;
    }
  }

  lemma {:induction false} ScanEnds(jobs: Jobs, now: Instant, out: seq<LeylaJob>, advanced: set<JobId>)
    requires Lists(jobs, JobKey, jobs.Keys, out) && Scanned(jobs, now, out, |out|, advanced)
    ensures TickExtent(jobs, now, advanced, None) && advanced == DueJobs(jobs, now)
  {
    ListedJobs(jobs, now, out);
    assert out[..|out|] == out;
  }

  lemma {:induction false} IdUnused(jobs: Jobs, runs: Runs, runs': Runs, done: set<JobId>, job: JobId,
                                    newId: JobId -> RunId, wall: JobId -> Instant)
    requires job in jobs && job !in done && FreshIds(jobs.Keys, runs, newId)
    requires RunsAdded(runs, runs', jobs, done, newId, wall)
    ensures newId(job) !in runs'
  {
    hide RunOf;
  }

  lemma {:induction false} RunAdded(jobs: Jobs, runs: Runs, runs': Runs, done: set<JobId>, job: JobId,
                                    newId: JobId -> RunId, wall: JobId -> Instant)
    requires job in jobs && jobs[job].nextRunAt.Some? && newId(job) !in runs'
    requires RunsAdded(runs, runs', jobs, done, newId, wall)
    ensures RunsAdded(runs, runs'[newId(job) := RunOf(jobs[job], newId(job), wall(job))],
                      jobs, done + {job}, newId, wall)
  {
    hide RunOf;
    assert Images(done + {job}, newId) == Images(done, newId) + {newId(job)};
  }

  lemma {:induction false} JobAdvanced(jobs: Jobs, done: set<JobId>, job: JobId, now: Instant, cron: CronNext)
    requires job in jobs
    ensures AdvancedJobs(jobs, done, now, cron)[job := Advanced(jobs[job], now, cron)]
            == AdvancedJobs(jobs, done + {job}, now, cron)
  {
    hide Advanced;
  }

  /** Inserting the run of one more job, and then advancing it. */
  lemma {:induction false} TickStep(jobs: Jobs, runs: Runs, jobs': Jobs, runs': Runs, done: set<JobId>, job: JobId,
                                    tick: Tick)
    requires job in jobs && job !in done && FreshIds(jobs.Keys, runs, tick.newId)
    requires TickDone(jobs, runs, jobs', runs', done, done, tick)
    ensures tick.newId(job) !in runs'
    ensures jobs[job].nextRunAt.Some? ==>
              var added := runs'[tick.newId(job) := RunOf(jobs[job], tick.newId(job), tick.wall(job))];
              && TickDone(jobs, runs, jobs', added, done + {job}, done, tick)
              && TickDone(jobs, runs, jobs'[job := Advanced(jobs[job], tick.now, tick.cron)], added,
                          done + {job}, done + {job}, tick)
  {
    hide RunsAdded, Advanced, RunOf, AdvancedJobs, FreshIds;
    IdUnused(jobs, runs, runs', done, job, tick.newId, tick.wall);
    JobAdvanced(jobs, done, job, tick.now, tick.cron);
    if jobs[job].nextRunAt.Some? {
      RunAdded(jobs, runs, runs', done, job, tick.newId, tick.wall);
    }
  }

  // ---------------------------------------------------------------------------------------------
  // Complete, exact, idempotent
  // ---------------------------------------------------------------------------------------------

  lemma {:induction false} ImagesCount(ids: set<JobId>, newId: JobId -> RunId)
    requires forall j, k :: j in ids && k in ids && newId(j) == newId(k) ==> j == k
    ensures |Images(ids, newId)| == |ids|
    decreases |ids|
  {
    if ids != {} {
      var j :| j in ids;
      ImagesCount(ids - {j}, newId);
      assert Images(ids, newId) == Images(ids - {j}, newId) + {newId(j)};
      assert newId(j) !in Images(ids - {j}, newId);
    }
  }

  /** Exact: one new run for each job materialised, all of them due, and no other. */
  lemma {:induction false} MaterializeExact(jobs: Jobs, runs: Runs, runs': Runs, now: Instant, made: set<JobId>,
                                            newId: JobId -> RunId, wall: JobId -> Instant)
    requires FreshIds(jobs.Keys, runs, newId) && made <= DueJobs(jobs, now)
    requires RunsAdded(runs, runs', jobs, made, newId, wall)
    ensures |runs'| == |runs| + |made|
    ensures forall id :: id in runs'.Keys - runs.Keys ==>
              exists j :: j in made && newId(j) == id && runs'[id].jobId == jobs[j].id
                          && runs'[id].scheduledFor == jobs[j].nextRunAt.value <= now && runs'[id].status.Scheduled?
                          && runs'[id].attempt == 1 && runs'[id].maxAttempts == jobs[j].retry.maxAttempts
  {
    ImagesCount(made, newId);
    assert runs.Keys !! Images(made, newId);
    assert |runs'| == |runs'.Keys| == |runs.Keys + Images(made, newId)|;
  }

  /** An interval, if there is one, is not zero and ends within the range of the date library. */
  predicate Advances(schedule: Schedule, now: Instant) {
    schedule.Interval? ==> 1 <= schedule.everyMs && now + schedule.everyMs * NANOS_PER_MILLI <= LATEST
  }

  /** The next run of such a schedule, and of no other, is later than now or never. */
  lemma {:induction false} NextRunLater(schedule: Schedule, now: Instant, cron: CronNext)
    requires StrictlyAfter(cron) && InRange(now)
    ensures var next := ComputeNextRun(schedule, now, cron);
            && (Advances(schedule, now) <==> next.Never? || (next.At? && now < next.time))
            && (Overflows(schedule, now) <==> next.OutOfRange?)
            && (schedule.Interval? && Advances(schedule, now) ==>
                  next == At(now + schedule.everyMs * NANOS_PER_MILLI))
  {
  }

  /** A job that is advanced is stamped with the time of the tick and keeps its settings; its next
      time is later, or there is none, exactly if its schedule advances. No other job changes. */
  lemma {:induction false} JobsAfterTick(jobs: Jobs, advanced: set<JobId>, now: Instant, cron: CronNext, id: JobId)
    requires id in jobs && StrictlyAfter(cron) && InRange(now)
    ensures var after := AdvancedJobs(jobs, advanced, now, cron);
            && after.Keys == jobs.Keys
            && (id !in advanced ==> after[id] == jobs[id])
            && (id in advanced ==>
                  && after[id].lastRunAt == Some(now) && after[id].updatedAt == now
                  && jobs[id] == after[id].(nextRunAt := jobs[id].nextRunAt, lastRunAt := jobs[id].lastRunAt,
                                            updatedAt := jobs[id].updatedAt)
                  && (!Overflows(jobs[id].schedule, now) ==>
                        (Advances(jobs[id].schedule, now) <==>
                         after[id].nextRunAt.None? || now < after[id].nextRunAt.value)))
  {
    hide ComputeNextRun, Advances, Overflows;
    NextRunLater(jobs[id].schedule, now, cron);
  }

  /** What is due after a tick: the jobs it did not come to, and of those it advanced exactly the
      ones whose schedule does not advance. */
  lemma {:induction false} StillDue(jobs: Jobs, now: Instant, cron: CronNext, advanced: set<JobId>,
                                    halted: Option<JobId>)
    requires StrictlyAfter(cron) && InRange(now) && TickExtent(jobs, now, advanced, halted)
    ensures var after := AdvancedJobs(jobs, advanced, now, cron);
            DueJobs(after, now) ==
            set id | id in DueJobs(jobs, now) && (id in advanced ==> !Advances(jobs[id].schedule, now))
  {
    hide ComputeNextRun, Advances, Overflows;
    var after := AdvancedJobs(jobs, advanced, now, cron);
    forall id | id in jobs
      ensures id in DueJobs(after, now) <==>
              id in DueJobs(jobs, now) && (id in advanced ==> !Advances(jobs[id].schedule, now))
    {
      JobsAfterTick(jobs, advanced, now, cron, id);
    }
  }

  /** Complete and idempotent: a tick comes to its end and leaves nothing due exactly if the interval
      of each due job is not zero and ends within the range of the date library. A second tick at the
      same time then changes nothing. */
  lemma {:induction false} MaterializeIdempotent(jobs: Jobs, now: Instant, cron: CronNext, advanced: set<JobId>,
                                                 halted: Option<JobId>)
    requires StrictlyAfter(cron) && InRange(now) && TickExtent(jobs, now, advanced, halted)
    ensures var after := AdvancedJobs(jobs, advanced, now, cron);
            && (halted.None? && DueJobs(after, now) == {} <==>
                  forall id :: id in DueJobs(jobs, now) ==> Advances(jobs[id].schedule, now))
            && (DueJobs(after, now) == {} ==> forall a, h :: TickExtent(after, now, a, h) ==>
                  h.None? && a == {} && AdvancedJobs(after, a, now, cron) == after)
  {
    hide Advances, Overflows, IsDueJob;
    StillDue(jobs, now, cron, advanced, halted);
    var after := AdvancedJobs(jobs, advanced, now, cron);
    forall id | id in DueJobs(jobs, now)
      ensures id in DueJobs(after, now) <==> (id in advanced ==> !Advances(jobs[id].schedule, now))
      ensures Advances(jobs[id].schedule, now) ==> !Overflows(jobs[id].schedule, now)
    {
      NextRunLater(jobs[id].schedule, now, cron);
    }
  }

  /** A job the tick stopped at has its run but still waits for the same time. */
  lemma {:induction false} HaltedStillDue(jobs: Jobs, runs: Runs, jobs': Jobs, runs': Runs, advanced: set<JobId>,
                                          job: JobId, tick: Tick)
    requires TickOutcome(jobs, runs, jobs', runs', advanced, Some(job), tick)
    ensures job in jobs && tick.newId(job) in runs' && jobs[job].nextRunAt.Some?
    ensures runs'[tick.newId(job)].scheduledFor == jobs[job].nextRunAt.value
    ensures job in DueJobs(jobs', tick.now) && jobs'[job] == jobs[job]
  {
    hide IntervalEnd;
  }
}
