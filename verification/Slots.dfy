/** The times a job's runs are materialised for. */
module Slots {
  import opened Calendar
  import opened Collections
  import opened Types
  import opened Wrappers
  import opened StoreSpec
  import opened Materialize
  import opened Engine

  /** A run materialised for a job, the time it is for, and the time of the tick that made it. */
  datatype Slot = Slot(runId: RunId, at: Instant, madeAt: Instant)

  /** The step materialises a run for the job. */
  predicate Makes(s: State, e: Event, id: JobId) {
    e.Materialise? && id in MadeFor(e.advanced, e.halted) && id in s.jobs && s.jobs[id].nextRunAt.Some?
  }

  function Extended(made: seq<Slot>, s: State, e: Event, id: JobId): seq<Slot> {
    if Makes(s, e, id) then made + [Slot(e.tick.newId(id), s.jobs[id].nextRunAt.value, s.clock)] else made
  }

  /** What materialisation has made for the job in the first `k` steps, in that order. */
  ghost function Made(states: seq<State>, events: seq<Event>, k: nat, id: JobId): seq<Slot>
    requires k <= |events| <= |states|
  {
    if k == 0 then [] else Extended(Made(states, events, k - 1, id), states[k - 1], events[k - 1], id)
  }

  /** The step leaves the record of the job in place, and whoever writes it back changes the stored
      one in at most `enabled`. */
  predicate WritesBack(s: State, e: Event, id: JobId) {
    && (e.Upsert? && e.record.id == id ==>
          id in s.jobs && e.record == s.jobs[id].(enabled := e.record.enabled))
    && (e.Remove? ==> e.job != id)
  }

  /** A run of the engine in which nobody redefines the job, and whose last time leaves room for one
      more interval of it. */
  ghost predicate Regular(threshold: Instant, states: seq<State>, events: seq<Event>, id: JobId) {
    && Engine.Behaviour(threshold, states, events) && HonestCron(events)
    && (forall k :: 0 <= k < |events| ==> WritesBack(states[k], events[k], id))
    && id in states[0].jobs && Advances(states[0].jobs[id].schedule, states[|events|].clock)
  }

  lemma {:induction false} ClockMonotone(threshold: Instant, states: seq<State>, events: seq<Event>, i: nat, j: nat)
    requires Engine.Behaviour(threshold, states, events) && i <= j <= |events|
    ensures states[i].clock <= states[j].clock
  {
    hide Engine.Inv, TickOutcome;
    if i < j {
      ClockMonotone(threshold, states, events, i, j - 1);
      assert Engine.Next(threshold, states[j - 1], events[j - 1], states[j]);
    }
  }

  /** An earlier time leaves room as well. */
  lemma {:induction false} AdvancesBefore(schedule: Schedule, now: Instant, later: Instant)
    requires Advances(schedule, later) && now <= later
    ensures Advances(schedule, now)
  {
  }

  // ---------------------------------------------------------------------------------------------
  // One run for each slot
  // ---------------------------------------------------------------------------------------------

  /** Each slot has a run of its own in the store, of this job and for that time. */
  ghost predicate Backed(runs: Runs, made: seq<Slot>, id: JobId) {
    && (forall i :: 0 <= i < |made| ==>
          made[i].runId in runs && runs[made[i].runId].jobId == id && runs[made[i].runId].scheduledFor == made[i].at)
    && (forall i, j :: 0 <= i < j < |made| ==> made[i].runId != made[j].runId)
  }

  lemma {:induction false} BackedStep(threshold: Instant, s: State, e: Event, s': State, made: seq<Slot>, id: JobId)
    requires Engine.Inv(s) && Engine.Next(threshold, s, e, s') && Backed(s.runs, made, id)
    ensures Backed(s'.runs, Extended(made, s, e, id), id)
  {
    hide TickExtent, MadeFor, AdvancedJobs;
    forall i | 0 <= i < |made|
      ensures made[i].runId in s'.runs && s'.runs[made[i].runId].jobId == id
      ensures s'.runs[made[i].runId].scheduledFor == made[i].at
    {
      StepKeepsRun(threshold, s, e, s', made[i].runId);
    }
    if Makes(s, e, id) {
      assert e.tick.newId(id) !in s.runs;
      assert s'.runs[e.tick.newId(id)] == RunOf(s.jobs[id], e.tick.newId(id), e.tick.wall(id));
    }
  }

  /** The slots are real: each stands for a different run in the store. */
  lemma {:induction false} SlotRuns(threshold: Instant, states: seq<State>, events: seq<Event>, k: nat, id: JobId)
    requires Engine.Behaviour(threshold, states, events) && k <= |events|
    ensures Backed(states[k].runs, Made(states, events, k, id), id)
  {
    hide Engine.Inv, Engine.Next, Extended, Backed;
    if k == 0 {
      NoSlots(states[0].runs, id);
    } else {
      SlotRuns(threshold, states, events, k - 1, id);
      Engine.InvAlways(threshold, states, events, k - 1);
      BackedStep(threshold, states[k - 1], events[k - 1], states[k], Made(states, events, k - 1, id), id);
    }
  }

  lemma {:induction false} NoSlots(runs: Runs, id: JobId)
    ensures Backed(runs, [], id)
  {
  }

  // ---------------------------------------------------------------------------------------------
  // What one step does to a job
  // ---------------------------------------------------------------------------------------------

  /** A step either materialises the job, which was due, or changes at most `enabled`. */
  lemma {:induction false} JobStep(threshold: Instant, s: State, e: Event, s': State, id: JobId)
    requires Engine.Inv(s) && Engine.Next(threshold, s, e, s') && id in s.jobs && WritesBack(s, e, id)
    requires Advances(s.jobs[id].schedule, s.clock)
    ensures id in s'.jobs && s'.jobs[id].schedule == s.jobs[id].schedule
    ensures Makes(s, e, id) ==>
              IsDueJob(s.jobs[id], s.clock) && s'.jobs[id] == Advanced(s.jobs[id], s.clock, e.tick.cron)
    ensures !Makes(s, e, id) ==> s'.jobs[id] == s.jobs[id].(enabled := s'.jobs[id].enabled)
  {
    hide RunsAdded, FreshIds, Advances, Recovery.Recovered, Overflows, ComputeNextRun, ClaimAll;
    RoomToAdvance(s.jobs[id].schedule, s.clock);
  }

  lemma {:induction false} RoomToAdvance(schedule: Schedule, now: Instant)
    requires InRange(now) && Advances(schedule, now)
    ensures !Overflows(schedule, now)
  {
  }

  // ---------------------------------------------------------------------------------------------
  // Slots of a job lie apart
  // ---------------------------------------------------------------------------------------------

  /** The least distance between slots: the interval, or one nanosecond on a cron schedule. */
  function Gap(schedule: Schedule): (gap: Instant)
    ensures 0 < gap
  {
    if schedule.Interval? && 1 <= schedule.everyMs then schedule.everyMs * NANOS_PER_MILLI else 1
  }

  ghost predicate Chained(made: seq<Slot>, gap: Instant) {
    forall i :: 0 <= i < |made| - 1 ==> made[i].at + gap <= made[i + 1].at
  }

  /** Slots follow each other at this distance, and the next one is not due before that. */
  ghost predicate Spaced(made: seq<Slot>, job: LeylaJob) {
    && Chained(made, Gap(job.schedule))
    && (made != [] && job.nextRunAt.Some? ==> made[|made| - 1].at + Gap(job.schedule) <= job.nextRunAt.value)
    && (made != [] && job.schedule.Once? ==> job.nextRunAt.None? && |made| == 1)
  }

  lemma {:induction false} TickSpaces(job: LeylaJob, now: Instant, cron: CronNext, made: seq<Slot>, runId: RunId)
    requires StrictlyAfter(cron) && InRange(now) && Spaced(made, job) && IsDueJob(job, now)
    requires Advances(job.schedule, now)
    ensures Spaced(made + [Slot(runId, job.nextRunAt.value, now)], Advanced(job, now, cron))
  {
    hide IntervalEnd;
    NextRunLater(job.schedule, now, cron);
  }

  lemma {:induction false} SameSpacing(made: seq<Slot>, job: LeylaJob, enabled: bool)
    ensures Spaced(made, job.(enabled := enabled)) <==> Spaced(made, job)
  {
  }

  lemma {:induction false} SpacedStep(threshold: Instant, s: State, e: Event, s': State, made: seq<Slot>, id: JobId)
    requires Engine.Inv(s) && Engine.Next(threshold, s, e, s') && id in s.jobs && WritesBack(s, e, id)
    requires Advances(s.jobs[id].schedule, s.clock) && (e.Materialise? ==> StrictlyAfter(e.tick.cron))
    requires Spaced(made, s.jobs[id])
    ensures id in s'.jobs && s'.jobs[id].schedule == s.jobs[id].schedule
    ensures Spaced(Extended(made, s, e, id), s'.jobs[id])
  {
    hide Engine.Next, WritesBack, Advances, Spaced, StrictlyAfter, IsDueJob, Advanced, MadeFor;
    JobStep(threshold, s, e, s', id);
    if Makes(s, e, id) {
      TickSpaces(s.jobs[id], s.clock, e.tick.cron, made, e.tick.newId(id));
    } else {
      SameSpacing(made, s.jobs[id], s'.jobs[id].enabled);
    }
  }

  lemma {:induction false} SpacedAlways(threshold: Instant, states: seq<State>, events: seq<Event>, k: nat, id: JobId)
    requires Regular(threshold, states, events, id) && k <= |events|
    ensures id in states[k].jobs && states[k].jobs[id].schedule == states[0].jobs[id].schedule
    ensures Advances(states[k].jobs[id].schedule, states[k].clock)
    ensures Spaced(Made(states, events, k, id), states[k].jobs[id])
  {
    hide Engine.Inv, Engine.Next, WritesBack, Extended, Spaced, StrictlyAfter, Advances;
    ClockMonotone(threshold, states, events, k, |events|);
    if k == 0 {
      NothingSpaced(states[0].jobs[id]);
    } else {
      SpacedAlways(threshold, states, events, k - 1, id);
      Engine.InvAlways(threshold, states, events, k - 1);
      SpacedStep(threshold, states[k - 1], events[k - 1], states[k], Made(states, events, k - 1, id), id);
    }
    AdvancesBefore(states[0].jobs[id].schedule, states[k].clock, states[|events|].clock);
  }

  lemma {:induction false} NothingSpaced(job: LeylaJob)
    ensures Spaced([], job)
  {
  }

  lemma {:induction false} ChainedApart(made: seq<Slot>, gap: Instant, i: nat, j: nat)
    requires Chained(made, gap) && i <= j < |made|
    ensures made[i].at + (j - i) * gap <= made[j].at
  {
    if i < j {
      ChainedApart(made, gap, i, j - 1);
      OneMoreGap(j - 1 - i, gap);
      assert j - 1 - i + 1 == j - i;
    }
  }

  lemma {:induction false} OneMoreGap(n: int, gap: int)
    ensures (n + 1) * gap == n * gap + gap
  {
  }

  /** No slot is materialised twice: over any run of the engine, the i-th and j-th slot of a job lie
      at least j - i intervals apart (on a cron schedule they increase). */
  lemma {:induction false} SlotsApart(threshold: Instant, states: seq<State>, events: seq<Event>, id: JobId,
                                      i: nat, j: nat)
    requires Regular(threshold, states, events, id) && i <= j < |Made(states, events, |events|, id)|
    ensures var made := Made(states, events, |events|, id);
            made[i].at + (j - i) * Gap(states[0].jobs[id].schedule) <= made[j].at
  {
    hide Engine.Inv, Engine.Next, WritesBack, Chained, Gap, Advances, StrictlyAfter;
    SpacedAlways(threshold, states, events, |events|, id);
    ChainedApart(Made(states, events, |events|, id), Gap(states[0].jobs[id].schedule), i, j);
  }

  /** A one-off job gets at most one materialised run, ever. */
  lemma {:induction false} OnceAtMostOnce(threshold: Instant, states: seq<State>, events: seq<Event>, id: JobId)
    requires Regular(threshold, states, events, id) && states[0].jobs[id].schedule.Once?
    ensures |Made(states, events, |events|, id)| <= 1
  {
    hide Engine.Inv, Engine.Next, WritesBack;
    SpacedAlways(threshold, states, events, |events|, id);
  }

  // ---------------------------------------------------------------------------------------------
  // Drift
  // ---------------------------------------------------------------------------------------------

  /** The next slot of an interval job is one interval after the tick that made the last one. */
  ghost predicate Drifts(made: seq<Slot>, job: LeylaJob)
    requires job.schedule.Interval?
  {
    var step := job.schedule.everyMs * NANOS_PER_MILLI;
    && (forall i :: 0 <= i < |made| ==> made[i].at <= made[i].madeAt)
    && (forall i :: 0 <= i < |made| - 1 ==> made[i + 1].at == made[i].madeAt + step)
    && (made != [] ==> job.nextRunAt == Some(made[|made| - 1].madeAt + step))
  }

  lemma {:induction false} DriftStep(threshold: Instant, s: State, e: Event, s': State, made: seq<Slot>, id: JobId)
    requires Engine.Inv(s) && Engine.Next(threshold, s, e, s') && id in s.jobs && WritesBack(s, e, id)
    requires Advances(s.jobs[id].schedule, s.clock) && (e.Materialise? ==> StrictlyAfter(e.tick.cron))
    requires s.jobs[id].schedule.Interval? && Drifts(made, s.jobs[id])
    ensures id in s'.jobs && s'.jobs[id].schedule == s.jobs[id].schedule
    ensures Drifts(Extended(made, s, e, id), s'.jobs[id])
  {
    hide Engine.Next, WritesBack, Advances, StrictlyAfter, IntervalEnd, MadeFor;
    JobStep(threshold, s, e, s', id);
    if Makes(s, e, id) {
      NextRunLater(s.jobs[id].schedule, s.clock, e.tick.cron);
    }
  }

  /** The interval counts from the tick that made the last run, whatever the schedule's anchor says,
      so the lateness of each tick is added to the schedule for good. */
  lemma {:induction false} SlotDrift(threshold: Instant, states: seq<State>, events: seq<Event>, k: nat, id: JobId)
    requires Regular(threshold, states, events, id) && k <= |events|
    requires states[0].jobs[id].schedule.Interval?
    ensures id in states[k].jobs && states[k].jobs[id].schedule == states[0].jobs[id].schedule
    ensures Drifts(Made(states, events, k, id), states[k].jobs[id])
  {
    hide Engine.Inv, Engine.Next, WritesBack, Extended, Drifts, StrictlyAfter, Advances;
    if k == 0 {
      NothingDrifts(states[0].jobs[id]);
    } else {
      SlotDrift(threshold, states, events, k - 1, id);
      SpacedAlways(threshold, states, events, k - 1, id);
      Engine.InvAlways(threshold, states, events, k - 1);
      DriftStep(threshold, states[k - 1], events[k - 1], states[k], Made(states, events, k - 1, id), id);
    }
  }

  lemma {:induction false} NothingDrifts(job: LeylaJob)
    requires job.schedule.Interval?
    ensures Drifts([], job)
  {
  }

  // ---------------------------------------------------------------------------------------------
  // Rate bound
  // ---------------------------------------------------------------------------------------------

  lemma {:induction false} SpanBound(indices: set<nat>, lo: nat, span: nat)
    requires forall i :: i in indices ==> lo <= i <= lo + span
    ensures |indices| <= span + 1
    decreases span
  {
    var rest := indices - {lo + span};
    if span == 0 {
      assert indices <= {lo};
      CardinalityAtMost(indices, {lo});
    } else {
      SpanBound(rest, lo, span - 1);
      assert indices <= rest + {lo + span};
      CardinalityAtMost(indices, rest + {lo + span});
    }
  }

  lemma {:induction false} Least(indices: set<nat>) returns (lo: nat)
    requires indices != {}
    ensures lo in indices && forall i :: i in indices ==> lo <= i
    decreases |indices|
  {
    lo :| lo in indices;
    var rest := indices - {lo};
    assert forall i :: i in indices ==> i == lo || i in rest;
    if rest != {} {
      var other := Least(rest);
      lo := if other < lo then other else lo;
    }
  }

  lemma {:induction false} TimesMonotone(a: int, b: int, gap: int)
    requires 0 < gap && a <= b
    ensures a * gap <= b * gap
  {
  }

  lemma {:induction false} QuotientBounds(n: nat, gap: Instant, width: Instant)
    requires 0 < gap && n * gap <= width
    ensures n <= width / gap
  {
    var q := width / gap;
    assert width == q * gap + width % gap;
    if q + 1 <= n {
      TimesMonotone(q + 1, n, gap);
    }
  }

  /** How many slots of a chain fit into a window. */
  lemma {:induction false} WindowCount(made: seq<Slot>, gap: Instant, first: Instant, last: Instant)
    requires Chained(made, gap) && 0 < gap && first <= last
    ensures |InWindow(made, first, last)| <= 1 + (last - first) / gap
  {
    hide Chained;
    var inWindow := InWindow(made, first, last);
    if inWindow != {} {
      var lo := Least(inWindow);
      forall j | j in inWindow
        ensures lo <= j <= lo + (last - first) / gap
      {
        ChainedApart(made, gap, lo, j);
        QuotientBounds(j - lo, gap, last - first);
      }
      SpanBound(inWindow, lo, (last - first) / gap);
    }
  }

  /** Which slots are for a time from `first` to `last`. */
  ghost function InWindow(made: seq<Slot>, first: Instant, last: Instant): set<nat> {
    set i: nat | i < |made| && first <= made[i].at <= last
  }

  /** Rate bound: of all the runs the engine ever materialised for a job, at most
      1 + (last - first) / interval are scheduled for a time from `first` to `last`. */
  lemma {:induction false} RateBound(threshold: Instant, states: seq<State>, events: seq<Event>, id: JobId,
                                     first: Instant, last: Instant)
    requires Regular(threshold, states, events, id) && first <= last
    ensures |InWindow(Made(states, events, |events|, id), first, last)|
            <= 1 + (last - first) / Gap(states[0].jobs[id].schedule)
  {
    hide Engine.Inv, Engine.Next, WritesBack, Chained, Gap, Made, Advances, StrictlyAfter, InWindow;
    SpacedAlways(threshold, states, events, |events|, id);
    WindowCount(Made(states, events, |events|, id), Gap(states[0].jobs[id].schedule), first, last);
  }

  // ---------------------------------------------------------------------------------------------
  // Which schedules repeat slots
  // ---------------------------------------------------------------------------------------------

  /** The slots of every job with this schedule strictly increase, in every run of the engine up to
      the time `horizon`. */
  ghost predicate SlotsIncrease(threshold: Instant, schedule: Schedule, horizon: Instant) {
    forall states: seq<State>, events: seq<Event>, id: JobId, i: nat, j: nat ::
      MadeBoth(threshold, states, events, schedule, horizon, id, i, j) ==>
        Made(states, events, |events|, id)[i].at < Made(states, events, |events|, id)[j].at
  }

  ghost predicate MadeBoth(threshold: Instant, states: seq<State>, events: seq<Event>, schedule: Schedule,
                           horizon: Instant, id: JobId, i: nat, j: nat) {
    && Engine.Behaviour(threshold, states, events) && HonestCron(events)
    && (forall k :: 0 <= k < |events| ==> WritesBack(states[k], events[k], id))
    && id in states[0].jobs && states[0].jobs[id].schedule == schedule && states[|events|].clock <= horizon
    && i < j < |Made(states, events, |events|, id)|
  }

  /** Slots increase exactly for the schedules whose interval, if any, is not zero and still ends
      within the range of the date library when it starts at the horizon. */
  lemma {:induction false} SlotsIncreaseWhen(threshold: Instant, schedule: Schedule, horizon: Instant)
    requires InRange(horizon)
    ensures SlotsIncrease(threshold, schedule, horizon) <==> Advances(schedule, horizon)
  {
    hide Engine.Inv, Engine.Next, HonestCron, WritesBack, Advances;
    if !Advances(schedule, horizon) {
      var states, events := StuckRepeats(threshold, schedule, horizon);
      assert MadeBoth(threshold, states, events, schedule, horizon, "j", 0, 1);
    } else {
      forall states: seq<State>, events: seq<Event>, id: JobId, i: nat, j: nat |
        MadeBoth(threshold, states, events, schedule, horizon, id, i, j)
        ensures Made(states, events, |events|, id)[i].at < Made(states, events, |events|, id)[j].at
      {
        LaterSlot(threshold, states, events, schedule, horizon, id, i, j);
      }
    }
  }

  lemma {:induction false} LaterSlot(threshold: Instant, states: seq<State>, events: seq<Event>, schedule: Schedule,
                                     horizon: Instant, id: JobId, i: nat, j: nat)
    requires MadeBoth(threshold, states, events, schedule, horizon, id, i, j) && Advances(schedule, horizon)
    ensures Made(states, events, |events|, id)[i].at < Made(states, events, |events|, id)[j].at
  {
    hide Engine.Inv, Engine.Next, WritesBack, HonestCron, Made, Gap, Advances;
    AdvancesBefore(schedule, states[|events|].clock, horizon);
    SlotsApart(threshold, states, events, id, i, j);
    TimesMonotone(1, j - i, Gap(schedule));
  }

  const EXAMPLE_RETRY := RetryPolicy(1, Fixed, 0, 0, false)

  function ExampleJob(schedule: Schedule, now: Instant): LeylaJob {
    LeylaJob("j", "j", true, schedule, EXAMPLE_RETRY, Skip, Some(now), None, now, now)
  }

  function ExampleTick(runId: RunId, now: Instant): Tick {
    Tick(now, (j: JobId) => runId, (j: JobId) => now, (e: string, t: Instant) => None)
  }

  /** The record of a job after a tick came to it. */
  function AfterTick(job: LeylaJob, now: Instant): LeylaJob {
    if Overflows(job.schedule, now) then job else Advanced(job, now, ExampleTick("", now).cron)
  }

  /** The step of a tick of an engine that has a single job, which is due. */
  function LoneEvent(job: LeylaJob, runId: RunId, now: Instant): Event {
    if Overflows(job.schedule, now) then Materialise(ExampleTick(runId, now), {}, Some("j"))
    else Materialise(ExampleTick(runId, now), {"j"}, None)
  }

  lemma {:induction false} LoneTick(threshold: Instant, job: LeylaJob, runs: Runs, runId: RunId, now: Instant)
    returns (s': State)
    requires job.id == "j" && IsDueJob(job, now) && runId !in runs
    ensures var s := State(map["j" := job], runs, now);
            && Engine.Next(threshold, s, LoneEvent(job, runId, now), s')
            && Makes(s, LoneEvent(job, runId, now), "j")
    ensures s' == State(map["j" := AfterTick(job, now)], runs[runId := RunOf(job, runId, now)], now)
  {
    hide Advanced, RunOf, Overflows;
    s' := State(map["j" := AfterTick(job, now)], runs[runId := RunOf(job, runId, now)], now);
    var e := LoneEvent(job, runId, now);
    assert DueJobs(map["j" := job], now) == {"j"};
    assert MadeFor(e.advanced, e.halted) == {"j"};
    assert Images({"j"}, e.tick.newId) == {runId};
  }

  /** An interval that is zero, wraps to an earlier time or leaves the range of the date library is
      due again at once, for a time no later. */
  lemma {:induction false} StuckRepeats(threshold: Instant, schedule: Schedule, now: Instant)
    returns (states: seq<State>, events: seq<Event>)
    requires InRange(now) && !Advances(schedule, now)
    ensures MadeBoth(threshold, states, events, schedule, now, "j", 0, 1)
    ensures Made(states, events, |events|, "j")[1].at <= Made(states, events, |events|, "j")[0].at
  {
    var job := ExampleJob(schedule, now);
    NextRunLater(schedule, now, ExampleTick("", now).cron);
    states, events := TwoTicks(threshold, job, AfterTick(job, now), now);
  }

  lemma {:induction false} TwoTicks(threshold: Instant, job: LeylaJob, again: LeylaJob, now: Instant)
    returns (states: seq<State>, events: seq<Event>)
    requires InRange(now) && job.id == again.id == "j" && IsDueJob(job, now) && IsDueJob(again, now)
    requires again == AfterTick(job, now)
    ensures MadeBoth(threshold, states, events, job.schedule, now, "j", 0, 1) && |events| == 2
    ensures Made(states, events, 2, "j")[0].at == job.nextRunAt.value
    ensures Made(states, events, 2, "j")[1].at == again.nextRunAt.value
  {
    hide Advanced, RunOf, Engine.Next, Overflows, Makes;
    var s0 := State(map["j" := job], map[], now);
    var s1 := LoneTick(threshold, job, s0.runs, "1", now);
    var s2 := LoneTick(threshold, again, s1.runs, "2", now);
    states, events := [s0, s1, s2], [LoneEvent(job, "1", now), LoneEvent(again, "2", now)];
    assert Made(states, events, 1, "j") == [Slot("1", job.nextRunAt.value, now)];
    assert Made(states, events, 2, "j") == [Slot("1", job.nextRunAt.value, now), Slot("2", again.nextRunAt.value, now)];
  }

  // ---------------------------------------------------------------------------------------------
  // Reading a job, and writing it back later
  // ---------------------------------------------------------------------------------------------

  /** What has become of the record read at step `r`: nothing but `enabled` has changed as long as no
      slot was made; otherwise it still waits for the first slot made since, and the stored one for a
      later time or none. */
  lemma {:induction false} SinceRead(threshold: Instant, states: seq<State>, events: seq<Event>, id: JobId,
                                     r: nat, k: nat)
    requires Regular(threshold, states, events, id) && r <= k <= |events|
    ensures id in states[r].jobs && id in states[k].jobs
    ensures var (before, made) := (Made(states, events, r, id), Made(states, events, k, id));
            var (read, stored) := (states[r].jobs[id], states[k].jobs[id]);
            && before <= made
            && (made == before ==> stored == read.(enabled := stored.enabled))
            && (made != before ==>
                  && !read.schedule.Manual? && read.nextRunAt == Some(made[|before|].at)
                  && made[|before|].at <= states[k].clock)
    decreases k
  {
    hide Engine.Inv, Engine.Next, WritesBack, Spaced, StrictlyAfter, Advances, Advanced, MadeFor;
    SpacedAlways(threshold, states, events, r, id);
    SpacedAlways(threshold, states, events, k, id);
    if r < k {
      SinceRead(threshold, states, events, id, r, k - 1);
      SpacedAlways(threshold, states, events, k - 1, id);
      Engine.InvAlways(threshold, states, events, k - 1);
      ClockMonotone(threshold, states, events, k - 1, k);
      JobStep(threshold, states[k - 1], events[k - 1], states[k], id);
    }
  }

  /** When a pause or resume may be split into a read and a later write: writing the record read at
      step `r` back at the end keeps the slots apart exactly if no slot was made since, and that is so
      exactly if the stored record differs from the one read in at most `enabled`. */
  lemma {:induction false} SplitWriteHarmless(threshold: Instant, states: seq<State>, events: seq<Event>, id: JobId,
                                              r: nat, enabled: bool)
    requires Regular(threshold, states, events, id) && r <= |events|
    ensures id in states[r].jobs && id in states[|events|].jobs
    ensures var (before, made) := (Made(states, events, r, id), Made(states, events, |events|, id));
            var (read, stored) := (states[r].jobs[id], states[|events|].jobs[id]);
            && (Spaced(made, read.(enabled := enabled)) <==> made == before)
            && (stored == read.(enabled := stored.enabled) <==> made == before)
  {
    hide Engine.Inv, Engine.Next, WritesBack, StrictlyAfter, Advances, Gap;
    var (before, made) := (Made(states, events, r, id), Made(states, events, |events|, id));
    SinceRead(threshold, states, events, id, r, |events|);
    SpacedAlways(threshold, states, events, r, id);
    SpacedAlways(threshold, states, events, |events|, id);
    SameSpacing(made, states[r].jobs[id], enabled);
    if made != before {
      ChainedApart(made, Gap(states[0].jobs[id].schedule), |before|, |made| - 1);
      TimesMonotone(0, |made| - 1 - |before|, Gap(states[0].jobs[id].schedule));
    }
  }

  lemma {:induction false} MadeOfPrefix(states: seq<State>, events: seq<Event>, more: seq<State>, steps: seq<Event>,
                                        k: nat, id: JobId)
    requires k <= |events| <= |states| && |events| + |steps| <= |states| + |more|
    ensures Made(states + more, events + steps, k, id) == Made(states, events, k, id)
  {
    hide Extended;
    if k != 0 {
      MadeOfPrefix(states, events, more, steps, k - 1, id);
    }
  }

  /** And otherwise the slot repeats: once a slot was made since the read, writing the record back
      enabled lets the next tick that comes to the job make the first of those slots again. */
  lemma {:induction false} StaleWriteRepeats(threshold: Instant, states: seq<State>, events: seq<Event>, id: JobId,
                                             r: nat, written: State, tick: Event, after: State)
    requires Regular(threshold, states, events, id) && r <= |events| && id in states[r].jobs
    requires Made(states, events, |events|, id) != Made(states, events, r, id)
    requires Engine.Next(threshold, states[|events|], Upsert(states[r].jobs[id].(enabled := true)), written)
    requires Engine.Next(threshold, written, tick, after) && tick.Materialise?
    requires tick.halted.Some? ==> id in MadeFor(tick.advanced, tick.halted)
    ensures var (before, made) := (Made(states, events, r, id), Made(states, events, |events|, id));
            var (states', events') := (states + [written, after],
                                       events + [Upsert(states[r].jobs[id].(enabled := true)), tick]);
            && Engine.Behaviour(threshold, states', events') && |before| < |made|
            && Made(states', events', |events'|, id)
               == made + [Slot(tick.tick.newId(id), made[|before|].at, states[|events|].clock)]
  {
    hide Engine.Inv, Engine.Next, WritesBack, StrictlyAfter, Advances, Spaced, Makes;
    var n, last := |events|, states[|events|];
    var read := states[r].jobs[id].(enabled := true);
    var (states', events') := (states + [written, after], events + [Upsert(read), tick]);
    Engine.InvAlways(threshold, states, events, r);
    SinceRead(threshold, states, events, id, r, n);
    KeptUnderId(states[r], id);
    StaleTick(threshold, last, read, written, tick, after);
    MadeOfPrefix(states, events, [written, after], [Upsert(read), tick], n, id);
    assert Made(states', events', n + 1, id) == Made(states, events, n, id);
    forall k | 0 <= k < |events'|
      ensures Engine.Next(threshold, states'[k], events'[k], states'[k + 1])
    {
    }
  }

  /** A due record that is written is materialised by a tick that comes to it. */
  lemma {:induction false} StaleTick(threshold: Instant, s: State, record: LeylaJob, written: State, tick: Event,
                                     after: State)
    requires IsDueJob(record, s.clock) && tick.Materialise?
    requires Engine.Next(threshold, s, Upsert(record), written) && Engine.Next(threshold, written, tick, after)
    requires tick.halted.Some? ==> record.id in MadeFor(tick.advanced, tick.halted)
    ensures written.clock == s.clock && record.id in written.jobs && written.jobs[record.id] == record
    ensures Makes(written, tick, record.id) && !Makes(s, Upsert(record), record.id)
  {
    hide TickDone, FreshIds, Overflows;
    assert record.id in DueJobs(written.jobs, written.clock);
  }

  lemma {:induction false} KeptUnderId(s: State, id: JobId)
    requires Engine.Inv(s) && id in s.jobs
    ensures s.jobs[id].id == id
  {
  }

  /** This does happen: a tick between the read and the write of a resume. */
  lemma {:induction false} SplitResumeRepeats(threshold: Instant, schedule: Schedule, now: Instant)
    returns (states: seq<State>, events: seq<Event>)
    requires InRange(now) && !schedule.Manual?
    ensures Engine.Behaviour(threshold, states, events) && HonestCron(events) && |events| == 3
    ensures "j" in states[0].jobs && events[1] == Upsert(states[0].jobs["j"].(enabled := true))
    ensures states[0].jobs["j"].schedule == schedule
    ensures var made := Made(states, events, |events|, "j");
            |made| == 2 && made[0].runId != made[1].runId && made[0].at == made[1].at
  {
    hide Advanced, RunOf, Engine.Next, Overflows, Makes;
    var job := ExampleJob(schedule, now);
    var s0 := State(map["j" := job], map[], now);
    var s1 := LoneTick(threshold, job, s0.runs, "1", now);
    var s2 := State(map["j" := job], s1.runs, now);
    var s3 := LoneTick(threshold, job, s2.runs, "2", now);
    states, events := [s0, s1, s2, s3], [LoneEvent(job, "1", now), Upsert(job), LoneEvent(job, "2", now)];
    assert s1.jobs["j" := job] == map["j" := job];
    assert Engine.Next(threshold, s1, Upsert(job), s2) by { Restored(threshold, s1, job); }
    assert !Makes(s1, Upsert(job), "j") by { WriteMakesNothing(s1, job); }
    assert Made(states, events, 1, "j") == [Slot("1", now, now)];
    assert Made(states, events, 2, "j") == [Slot("1", now, now)];
    assert Made(states, events, 3, "j") == [Slot("1", now, now), Slot("2", now, now)];
  }

  lemma {:induction false} WriteMakesNothing(s: State, job: LeylaJob)
    ensures !Makes(s, Upsert(job), "j")
  {
  }

  lemma {:induction false} Restored(threshold: Instant, s: State, job: LeylaJob)
    ensures Engine.Next(threshold, s, Upsert(job), s.(jobs := s.jobs[job.id := job]))
  {
  }
}
