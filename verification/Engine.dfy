/** Whole runs of the engine: any sequence of ticks of its loops, on any number of instances that
    claim, mixed with triggers, pauses and resumes.

    A tick of materialisation or recovery is one step here (one materialiser, one recoverer, and
    nobody else in between); `NonInterference` takes recovery apart into its store calls, and
    `TickProtocol` materialisation. */
module Engine {
  import opened Calendar
  import opened Collections
  import opened Types
  import opened Wrappers
  import opened Lifecycle
  import opened StoreSpec
  import opened Recovery
  import opened Materialize

  datatype State = State(jobs: Jobs, runs: Runs, clock: Instant)

  datatype Event =
    | Pass(until: Instant)
    | Materialise(tick: Tick, advanced: set<JobId>, halted: Option<JobId>)
    | Claim(owner: string, limit: nat, picked: set<RunId>)
    | Recover(wall: RunId -> Instant)
    | Trigger(job: JobId, runId: RunId, input: Option<Json>, at: Instant)
    | SetEnabled(job: JobId, enabled: bool)
    | Upsert(record: LeylaJob)
    | Remove(job: JobId)

  function TriggeredRun(job: LeylaJob, runId: RunId, input: Option<Json>, now: Instant, wall: Instant): JobRun {
    NewScheduled(runId, job.id, now, job.retry.maxAttempts, wall).(inputJson := input)
  }

  ghost predicate Next(threshold: Instant, s: State, e: Event, s': State) {
    match e
    case Pass(until) => s.clock <= until <= LATEST && s' == s.(clock := until)
    case Materialise(tick, advanced, halted) =>
      && tick.now == s.clock == s'.clock && FreshIds(s.jobs.Keys, s.runs, tick.newId)
      && TickOutcome(s.jobs, s.runs, s'.jobs, s'.runs, advanced, halted, tick)
    case Claim(owner, limit, picked) =>
      ValidPick(s.runs, s.clock, limit, picked) && s' == s.(runs := ClaimAll(s.runs, picked, s.clock, owner))
    case Recover(wall) => s' == s.(runs := Recovered(s.runs, s.clock, threshold, wall))
    case Trigger(id, runId, input, wall) =>
      && id in s.jobs && runId !in s.runs
      && s' == s.(runs := s.runs[runId := TriggeredRun(s.jobs[id], runId, input, s.clock, wall)])
    case SetEnabled(id, enabled) => id in s.jobs && s' == s.(jobs := s.jobs[id := s.jobs[id].(enabled := enabled)])
    case Upsert(record) => s' == s.(jobs := s.jobs[record.id := record])
    case Remove(id) => s' == s.(jobs := s.jobs - {id})
  }

  ghost predicate Inv(s: State) {
    && Keyed(s.runs) && InRange(s.clock)
    && forall id :: id in s.jobs ==> s.jobs[id].id == id
  }

  ghost predicate Behaviour(threshold: Instant, states: seq<State>, events: seq<Event>) {
    && |states| == |events| + 1 && Inv(states[0])
    && forall k :: 0 <= k < |events| ==> Next(threshold, states[k], events[k], states[k + 1])
  }

  /** The cron library keeps its promise at each tick. */
  ghost predicate HonestCron(events: seq<Event>) {
    forall k :: 0 <= k < |events| && events[k].Materialise? ==> StrictlyAfter(events[k].tick.cron)
  }

  // ---------------------------------------------------------------------------------------------
  // What steps keep
  // ---------------------------------------------------------------------------------------------

  lemma {:induction false} InvStep(threshold: Instant, s: State, e: Event, s': State)
    requires Inv(s) && Next(threshold, s, e, s')
    ensures Inv(s')
  {
    hide IsDue, RetryReady, IsStale, IsDueJob;
    match e
    case Materialise(tick, advanced, halted) => TickKeepsKeys(s, tick, advanced, halted, s');
    case Claim(owner, _, picked) => ClaimKeepsKeys(s.runs, picked, s.clock, owner);
    case _ =>
  }

  lemma {:induction false} TickKeepsKeys(s: State, tick: Tick, advanced: set<JobId>, halted: Option<JobId>, s': State)
    requires Inv(s) && TickOutcome(s.jobs, s.runs, s'.jobs, s'.runs, advanced, halted, tick) && s'.clock == s.clock
    ensures Inv(s')
  {
    hide IsDueJob;
    forall id | id in s'.runs
      ensures s'.runs[id].runId == id
    {
      if id !in s.runs {
        assert id in Images(MadeFor(advanced, halted), tick.newId);
      }
    }
  }

  lemma {:induction false} InvAlways(threshold: Instant, states: seq<State>, events: seq<Event>, k: nat)
    requires Behaviour(threshold, states, events) && k <= |events|
    ensures Inv(states[k])
  {
    hide Inv, Next;
    if k != 0 {
      InvAlways(threshold, states, events, k - 1);
      InvStep(threshold, states[k - 1], events[k - 1], states[k]);
    }
  }

  /** What no step changes about a run, and what it may do to its status. */
  predicate RunKept(clock: Instant, before: JobRun, after: JobRun) {
    && after.jobId == before.jobId && after.scheduledFor == before.scheduledFor
    && after.attempt == before.attempt && after.maxAttempts == before.maxAttempts
    && (Terminal(before.status) ==> after == before)
    && (before.status.RetryWait? && after != before ==>
          after.status.Scheduled? && (before.finishedAt.Some? ==> before.finishedAt.value + NANOS_PER_SECOND <= clock))
  }

  lemma {:induction false} StepKeepsRun(threshold: Instant, s: State, e: Event, s': State, id: RunId)
    requires Next(threshold, s, e, s') && id in s.runs
    ensures id in s'.runs && RunKept(s.clock, s.runs[id], s'.runs[id])
  {
    hide RunOf, IsDueJob;
  }

  /** A finished run stays as it is over any number of ticks, and no run ever changes its job, the
      time it was scheduled for or its attempts. */
  lemma {:induction false} RunsKept(threshold: Instant, states: seq<State>, events: seq<Event>,
                                    i: nat, j: nat, id: RunId)
    requires Behaviour(threshold, states, events) && i <= j <= |events| && id in states[i].runs
    ensures id in states[j].runs
    ensures var (before, after) := (states[i].runs[id], states[j].runs[id]);
            && after.jobId == before.jobId && after.scheduledFor == before.scheduledFor
            && after.attempt == before.attempt && after.maxAttempts == before.maxAttempts
            && (Terminal(before.status) ==> after == before)
    decreases j - i
  {
    hide Inv, Next;
    if i < j {
      StepKeepsRun(threshold, states[i], events[i], states[i + 1], id);
      RunsKept(threshold, states, events, i + 1, j, id);
    }
  }

  /** What a new run is due for: a triggered or materialised run can be claimed at once, and the
      next claim with room for all due runs takes it, whether or not its job is enabled. */
  lemma {:induction false} NewRunClaimed(threshold: Instant, s: State, e: Event, s': State, id: RunId,
                                         owner: string, limit: nat, picked: set<RunId>, s'': State)
    requires Next(threshold, s, e, s') && (e.Trigger? || e.Materialise?) && id in s'.runs.Keys - s.runs.Keys
    requires Next(threshold, s', Claim(owner, limit, picked), s'') && |Due(s'.runs, s'.clock)| <= limit
    ensures id in s''.runs && s''.runs[id].status.Leased? && s''.runs[id].leaseOwner == Some(owner)
  {
    hide FreshIds;
    CardinalityAtMost(picked, Due(s'.runs, s'.clock));
    assert picked == Due(s'.runs, s'.clock);
    if e.Materialise? {
      assert id in Images(MadeFor(e.advanced, e.halted), e.tick.newId);
    }
    assert id in picked;
  }

  // ---------------------------------------------------------------------------------------------
  // Conservation
  // ---------------------------------------------------------------------------------------------

  /** How many runs a step adds. */
  ghost function Added(s: State, e: Event): nat {
    match e
    case Materialise(_, advanced, halted) => |MadeFor(advanced, halted)|
    case Trigger(_, _, _, _) => 1
    case _ => 0
  }

  ghost function AddedUpTo(states: seq<State>, events: seq<Event>, k: nat): nat
    requires k <= |events| <= |states|
  {
    if k == 0 then 0 else AddedUpTo(states, events, k - 1) + Added(states[k - 1], events[k - 1])
  }

  ghost function Active(runs: Runs): set<RunId> {
    set id | id in runs && IsActive(runs[id].status)
  }

  /** How a step changes the number of active runs: claims add to it, recovery takes from it. */
  ghost function Activated(threshold: Instant, s: State, e: Event): int {
    match e
    case Claim(_, _, picked) => |picked|
    case Recover(_) => -|Stale(s.runs, s.clock, threshold)|
    case _ => 0
  }

  ghost function ActivatedUpTo(threshold: Instant, states: seq<State>, events: seq<Event>, k: nat): int
    requires k <= |events| <= |states|
  {
    if k == 0 then 0
    else ActivatedUpTo(threshold, states, events, k - 1) + Activated(threshold, states[k - 1], events[k - 1])
  }

  lemma {:induction false} StepAdds(threshold: Instant, s: State, e: Event, s': State)
    requires Next(threshold, s, e, s')
    ensures s.runs.Keys <= s'.runs.Keys && |s'.runs| == |s.runs| + Added(s, e)
  {
    hide ClaimAll, Recovered, ValidPick, TickOutcome, FreshIds, MadeFor, TriggeredRun;
    match e
    case Materialise(tick, advanced, halted) => TickAdds(s, s', advanced, halted, tick);
    case Claim(owner, _, picked) =>
      ClaimKeepsKeys(s.runs, picked, s.clock, owner);
      SameSize(s.runs, s'.runs);
    case Recover(wall) =>
      RecoveryKeepsKeys(s.runs, s.clock, threshold, wall);
      SameSize(s.runs, s'.runs);
    case Trigger(id, runId, input, at) =>
      OneMoreRun(s.runs, runId, TriggeredRun(s.jobs[id], runId, input, s.clock, at));
    case _ =>
  }

  lemma {:induction false} SameSize(runs: Runs, runs': Runs)
    requires runs.Keys == runs'.Keys
    ensures |runs| == |runs'|
  {
    assert |runs| == |runs.Keys| && |runs'| == |runs'.Keys|;
  }

  lemma {:induction false} OneMoreRun(runs: Runs, id: RunId, run: JobRun)
    requires id !in runs
    ensures runs.Keys <= runs[id := run].Keys && |runs[id := run]| == |runs| + 1
  {
    assert runs[id := run].Keys == runs.Keys + {id};
    assert |runs| == |runs.Keys| && |runs[id := run]| == |runs[id := run].Keys|;
  }

  lemma {:induction false} RecoveryKeepsKeys(runs: Runs, now: Instant, threshold: Instant, wall: RunId -> Instant)
    ensures Recovered(runs, now, threshold, wall).Keys == runs.Keys
  {
    hide RecoverRun;
  }

  lemma {:induction false} TickAdds(s: State, s': State, advanced: set<JobId>, halted: Option<JobId>, tick: Tick)
    requires tick.now == s.clock && FreshIds(s.jobs.Keys, s.runs, tick.newId)
    requires TickOutcome(s.jobs, s.runs, s'.jobs, s'.runs, advanced, halted, tick)
    ensures s.runs.Keys <= s'.runs.Keys && |s'.runs| == |s.runs| + |MadeFor(advanced, halted)|
    ensures Active(s'.runs) == Active(s.runs)
  {
    hide FreshIds, RunsAdded, TickExtent, MadeFor, DueJobs, AdvancedJobs, Active;
    MadeAreDue(s.jobs, s.clock, advanced, halted);
    TickGrows(s.jobs, s.runs, s'.runs, MadeFor(advanced, halted), tick);
    NewNotActive(s.jobs, s.runs, s'.runs, MadeFor(advanced, halted), tick);
  }

  lemma {:induction false} NewNotActive(jobs: Jobs, runs: Runs, runs': Runs, ids: set<JobId>, tick: Tick)
    requires RunsAdded(runs, runs', jobs, ids, tick.newId, tick.wall)
    ensures Active(runs') == Active(runs)
  {
  }

  lemma {:induction false} TickGrows(jobs: Jobs, runs: Runs, runs': Runs, ids: set<JobId>, tick: Tick)
    requires FreshIds(jobs.Keys, runs, tick.newId) && ids <= jobs.Keys
    requires RunsAdded(runs, runs', jobs, ids, tick.newId, tick.wall)
    ensures runs.Keys <= runs'.Keys && |runs'| == |runs| + |ids|
  {
    hide RunOf;
    ImagesCount(ids, tick.newId);
    assert runs.Keys !! Images(ids, tick.newId);
    assert |runs'| == |runs'.Keys| == |runs.Keys + Images(ids, tick.newId)|;
  }

  lemma {:induction false} StepActivates(threshold: Instant, s: State, e: Event, s': State)
    requires Next(threshold, s, e, s')
    ensures |Active(s'.runs)| == |Active(s.runs)| + Activated(threshold, s, e)
  {
    hide TickOutcome, FreshIds, ClaimAll, Recovered, IsStale, IsDue, MadeFor;
    match e
    case Claim(owner, _, picked) => ClaimActivates(s.runs, picked, s.clock, owner);
    case Recover(wall) => RecoveryDeactivates(s.runs, s.clock, threshold, wall);
    case Materialise(tick, advanced, halted) => TickAdds(s, s', advanced, halted, tick);
    case _ => assert Active(s'.runs) == Active(s.runs);
  }

  lemma {:induction false} ClaimActivates(runs: Runs, picked: set<RunId>, now: Instant, owner: string)
    requires picked <= Due(runs, now)
    ensures |Active(ClaimAll(runs, picked, now, owner))| == |Active(runs)| + |picked|
  {
    assert Active(ClaimAll(runs, picked, now, owner)) == Active(runs) + picked;
    assert Active(runs) !! picked;
  }

  /** A run that recovery touches is active before exactly if it is stale, and not afterwards. */
  lemma {:induction false} RecoveryReleases(run: JobRun, now: Instant, threshold: Instant, wall: Instant)
    ensures IsActive(RecoverRun(run, now, threshold, wall).status)
            <==> IsActive(run.status) && !IsStale(run, now, threshold)
    ensures IsStale(run, now, threshold) ==> IsActive(run.status)
  {
  }

  lemma {:induction false} RecoveryDeactivates(runs: Runs, now: Instant, threshold: Instant, wall: RunId -> Instant)
    ensures |Active(Recovered(runs, now, threshold, wall))| == |Active(runs)| - |Stale(runs, now, threshold)|
  {
    hide IsStale, RecoverRun, IsActive;
    forall run: JobRun, at: Instant { RecoveryReleases(run, now, threshold, at); }
    var (active, stale) := (Active(runs), Stale(runs, now, threshold));
    assert Active(Recovered(runs, now, threshold, wall)) == active - stale;
    assert stale <= active;
    assert active == (active - stale) + stale;
  }

  /** Conservation over a whole run of the engine: the runs there are were there before, or were
      materialised, or were triggered; the active ones were active before or claimed, and not
      taken back by recovery. */
  lemma {:induction false} Conservation(threshold: Instant, states: seq<State>, events: seq<Event>, k: nat)
    requires Behaviour(threshold, states, events) && k <= |events|
    ensures states[0].runs.Keys <= states[k].runs.Keys
    ensures |states[k].runs| == |states[0].runs| + AddedUpTo(states, events, k)
    ensures |Active(states[k].runs)| == |Active(states[0].runs)| + ActivatedUpTo(threshold, states, events, k)
  {
    hide Inv, Next, Active, Added, Activated;
    if k != 0 {
      Conservation(threshold, states, events, k - 1);
      StepAdds(threshold, states[k - 1], events[k - 1], states[k]);
      StepActivates(threshold, states[k - 1], events[k - 1], states[k]);
    }
  }

  // ---------------------------------------------------------------------------------------------
  // Active runs, job by job
  // ---------------------------------------------------------------------------------------------

  /** The sum of what `count_active_runs` says for the given jobs. */
  ghost function SumActive(runs: Runs, jobs: seq<JobId>): nat {
    if jobs == [] then 0 else SumActive(runs, jobs[..|jobs| - 1]) + |ActiveRuns(runs, jobs[|jobs| - 1])|
  }

  ghost function ActiveOf(runs: Runs, jobs: seq<JobId>): set<RunId> {
    set id | id in Active(runs) && runs[id].jobId in jobs
  }

  lemma {:induction false} SumActiveCounts(runs: Runs, jobs: seq<JobId>)
    requires forall i, j :: 0 <= i < j < |jobs| ==> jobs[i] != jobs[j]
    ensures SumActive(runs, jobs) == |ActiveOf(runs, jobs)|
  {
    if jobs == [] {
      assert ActiveOf(runs, jobs) == {};
    } else {
      var (init, last) := (jobs[..|jobs| - 1], jobs[|jobs| - 1]);
      SumActiveCounts(runs, init);
      assert jobs == init + [last];
      assert ActiveOf(runs, jobs) == ActiveOf(runs, init) + ActiveRuns(runs, last);
      assert ActiveOf(runs, init) !! ActiveRuns(runs, last);
    }
  }

  /** Summed over all jobs that have runs, the counts give each active run once. */
  lemma {:induction false} CountsPartition(runs: Runs, jobs: seq<JobId>)
    requires forall i, j :: 0 <= i < j < |jobs| ==> jobs[i] != jobs[j]
    requires forall id :: id in runs ==> runs[id].jobId in jobs
    ensures SumActive(runs, jobs) == |Active(runs)|
  {
    SumActiveCounts(runs, jobs);
    assert ActiveOf(runs, jobs) == Active(runs);
  }
}
