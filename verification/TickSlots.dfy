/** The slots of a job when ticks are taken apart: between the store calls of a tick, anybody may pause
    or resume the job, in one step or by writing back a record that still is the stored one but for
    `enabled`. The slots stay as far apart as with whole ticks. */
module TickSlots {
  import opened Calendar
  import opened Types
  import opened Wrappers
  import opened Materialize
  import opened TickProtocol
  import Slots

  /** The step inserts a run of the job. */
  predicate Makes(s: State, e: Event, id: JobId) {
    && e.InsertRun? && s.phase.Scanning? && s.phase.todo != []
    && s.phase.todo[0].id == id && s.phase.todo[0].nextRunAt.Some?
  }

  function Extended(made: seq<Slots.Slot>, s: State, e: Event, id: JobId): seq<Slots.Slot> {
    if Makes(s, e, id)
    then made + [Slots.Slot(e.runId, s.phase.todo[0].nextRunAt.value, s.phase.now)]
    else made
  }

  ghost function Made(states: seq<State>, events: seq<Event>, k: nat, id: JobId): seq<Slots.Slot>
    requires k <= |events| <= |states|
  {
    if k == 0 then [] else Extended(Made(states, events, k - 1, id), states[k - 1], events[k - 1], id)
  }

  predicate SameButEnabled(a: LeylaJob, b: LeylaJob) {
    a == b.(enabled := a.enabled)
  }

  /** Whoever writes the job changes the stored record in at most `enabled`. */
  predicate WritesBack(s: State, e: Event, id: JobId) {
    && (e.Upsert? && e.record.id == id ==> id in s.jobs && SameButEnabled(e.record, s.jobs[id]))
    && (e.Remove? ==> e.job != id)
  }

  /** A run of ticks in which nobody redefines the job, from outside a tick on, and whose last time
      leaves room for one more interval of it. */
  ghost predicate Regular(states: seq<State>, events: seq<Event>, id: JobId) {
    && Behaviour(states, events) && states[0].phase.Idle?
    && (forall k :: 0 <= k < |events| ==>
          WritesBack(states[k], events[k], id) && (events[k].WriteJob? ==> StrictlyAfter(events[k].cron)))
    && id in states[0].jobs && Advances(states[0].jobs[id].schedule, states[|events|].clock)
  }

  /** While the tick has the job before it, the listed record still is the stored one. */
  ghost predicate ListedHolds(s: State, id: JobId) {
    forall job :: job in Todo(s.phase) && job.id == id ==> id in s.jobs && SameButEnabled(job, s.jobs[id])
  }

  /** Between the insert and the write back the last slot is the one the record still waits for. */
  ghost predicate Spacing(made: seq<Slots.Slot>, s: State, id: JobId)
    requires id in s.jobs
  {
    if s.phase.Writing? && s.phase.job.id == id then
      && made != [] && s.phase.job.nextRunAt == Some(made[|made| - 1].at)
      && made[|made| - 1].madeAt == s.phase.now
      && Slots.Spaced(made[..|made| - 1], s.jobs[id])
    else Slots.Spaced(made, s.jobs[id])
  }

  ghost predicate Steady(made: seq<Slots.Slot>, s: State, id: JobId) {
    id in s.jobs && ListedHolds(s, id) && Spacing(made, s, id)
  }

  lemma {:induction false} SpacedLike(made: seq<Slots.Slot>, a: LeylaJob, b: LeylaJob)
    requires SameButEnabled(a, b) && Slots.Spaced(made, b)
    ensures Slots.Spaced(made, a)
  {
    Slots.SameSpacing(made, b, a.enabled);
  }

  lemma {:induction false} SteadyList(made: seq<Slots.Slot>, s: State, listed: seq<LeylaJob>, s': State, id: JobId)
    requires Inv(s) && Next(s, ListJobs(listed), s') && Steady(made, s, id)
    ensures Steady(made, s', id) && s'.jobs[id].schedule == s.jobs[id].schedule
  {
    hide Slots.Spaced;
    ListedJobs(s.jobs, s.phase.now, listed);
  }

  lemma {:induction false} SteadySkip(made: seq<Slots.Slot>, s: State, s': State, id: JobId)
    requires Inv(s) && Next(s, SkipJob, s') && Steady(made, s, id)
    ensures Steady(made, s', id) && s'.jobs[id].schedule == s.jobs[id].schedule
  {
    hide Slots.Spaced, IsDueJob;
    SplitTodo(s.phase.todo);
  }

  lemma {:induction false} SteadyInsert(made: seq<Slots.Slot>, s: State, e: Event, s': State, id: JobId)
    requires Inv(s) && e.InsertRun? && Next(s, e, s') && Steady(made, s, id)
    ensures Steady(Extended(made, s, e, id), s', id) && s'.jobs[id].schedule == s.jobs[id].schedule
  {
    hide Slots.Spaced, RunOf;
    assert Todo(s'.phase) == Todo(s.phase);
    var made' := Extended(made, s, e, id);
    if s.phase.todo[0].id == id {
      assert made'[..|made'| - 1] == made;
    }
  }

  lemma {:induction false} SteadyWrite(made: seq<Slots.Slot>, s: State, cron: CronNext, s': State, id: JobId)
    requires Inv(s) && Next(s, WriteJob(cron), s') && Steady(made, s, id) && StrictlyAfter(cron)
    requires Advances(s.jobs[id].schedule, s.clock)
    ensures Steady(made, s', id) && s'.jobs[id].schedule == s.jobs[id].schedule
  {
    hide Slots.Spaced, Advances, IsDueJob, ComputeNextRun, StrictlyAfter, Overflows;
    var job := s.phase.job;
    SplitTodo(Todo(s.phase));
    assert Todo(s.phase)[1..] == Todo(s'.phase);
    if job.id == id {
      assert job in Todo(s.phase);
      var (before, last) := (made[..|made| - 1], made[|made| - 1]);
      SpacedLike(before, job, s.jobs[id]);
      Slots.AdvancesBefore(job.schedule, s.phase.now, s.clock);
      DueHasTime(job, s.phase.now);
      Slots.TickSpaces(job, s.phase.now, cron, before, last.runId);
      assert before + [Slots.Slot(last.runId, job.nextRunAt.value, s.phase.now)] == made;
    }
  }

  lemma {:induction false} SteadyUpsert(made: seq<Slots.Slot>, s: State, record: LeylaJob, s': State, id: JobId)
    requires Inv(s) && Next(s, Upsert(record), s') && Steady(made, s, id) && WritesBack(s, Upsert(record), id)
    ensures Steady(made, s', id) && s'.jobs[id].schedule == s.jobs[id].schedule
  {
    hide Slots.Spaced, IsDueJob;
    if record.id == id {
      if s.phase.Writing? && s.phase.job.id == id {
        SpacedLike(made[..|made| - 1], record, s.jobs[id]);
      } else {
        SpacedLike(made, record, s.jobs[id]);
      }
    }
  }

  lemma {:induction false} SteadyStep(made: seq<Slots.Slot>, s: State, e: Event, s': State, id: JobId)
    requires Inv(s) && Next(s, e, s') && Steady(made, s, id) && WritesBack(s, e, id)
    requires e.WriteJob? ==> StrictlyAfter(e.cron)
    requires Advances(s.jobs[id].schedule, s.clock)
    ensures Steady(Extended(made, s, e, id), s', id) && s'.jobs[id].schedule == s.jobs[id].schedule
  {
    hide Advances, StrictlyAfter, Steady, Next, Inv;
    match e
    case ListJobs(listed) => SteadyList(made, s, listed, s', id);
    case SkipJob => SteadySkip(made, s, s', id);
    case InsertRun(_, _) => SteadyInsert(made, s, e, s', id);
    case WriteJob(cron) => SteadyWrite(made, s, cron, s', id);
    case Upsert(record) => SteadyUpsert(made, s, record, s', id);
    case _ => SteadyOther(made, s, e, s', id);
  }

  lemma {:induction false} SteadyOther(made: seq<Slots.Slot>, s: State, e: Event, s': State, id: JobId)
    requires Inv(s) && Next(s, e, s') && Steady(made, s, id) && Advances(s.jobs[id].schedule, s.clock)
    requires e.Pass? || e.BeginTick? || e.Halt? || e.EndTick? || e.Runs? || (e.Remove? && e.job != id)
    ensures Steady(made, s', id) && s'.jobs[id].schedule == s.jobs[id].schedule
  {
    hide Slots.Spaced, Advances, IsDueJob, Overflows;
    if e.Halt? {
      HaltElsewhere(s, id);
    }
  }

  /** The date library does not stop a tick at this job. */
  lemma {:induction false} HaltElsewhere(s: State, id: JobId)
    requires Inv(s) && s.phase.Writing? && id in s.jobs && ListedHolds(s, id)
    requires Advances(s.jobs[id].schedule, s.clock)
    ensures s.phase.job.id == id ==> !Overflows(s.phase.job.schedule, s.phase.now)
  {
    hide IsDueJob, Overflows, Advances;
    if s.phase.job.id == id {
      assert s.phase.job in Todo(s.phase);
      Slots.AdvancesBefore(s.phase.job.schedule, s.phase.now, s.clock);
      Slots.RoomToAdvance(s.phase.job.schedule, s.phase.now);
    }
  }

  lemma {:induction false} ClockMonotone(states: seq<State>, events: seq<Event>, i: nat, j: nat)
    requires Behaviour(states, events) && i <= j <= |events|
    ensures states[i].clock <= states[j].clock
  {
    hide Inv;
    if i < j {
      ClockMonotone(states, events, i, j - 1);
      assert Next(states[j - 1], events[j - 1], states[j]);
    }
  }

  lemma {:induction false} SteadyAlways(states: seq<State>, events: seq<Event>, k: nat, id: JobId)
    requires Regular(states, events, id) && k <= |events|
    ensures Steady(Made(states, events, k, id), states[k], id)
    ensures states[k].jobs[id].schedule == states[0].jobs[id].schedule
    ensures Advances(states[k].jobs[id].schedule, states[k].clock)
  {
    hide Inv, Next, WritesBack, Extended, Spacing, ListedHolds, StrictlyAfter, Advances;
    ClockMonotone(states, events, k, |events|);
    if k == 0 {
      NothingMade(states[0], id);
    } else {
      SteadyAlways(states, events, k - 1, id);
      InvAlways(states, events, k - 1);
      SteadyStep(Made(states, events, k - 1, id), states[k - 1], events[k - 1], states[k], id);
    }
    Slots.AdvancesBefore(states[0].jobs[id].schedule, states[k].clock, states[|events|].clock);
  }

  lemma {:induction false} NothingMade(s: State, id: JobId)
    requires s.phase.Idle? && id in s.jobs
    ensures Steady([], s, id)
  {
    Slots.NothingSpaced(s.jobs[id]);
  }

  /** Also between an insert and its write back the slots made so far form a chain. */
  lemma {:induction false} SteadyChained(made: seq<Slots.Slot>, s: State, id: JobId)
    requires Inv(s) && Steady(made, s, id)
    ensures Slots.Chained(made, Slots.Gap(s.jobs[id].schedule))
    ensures s.jobs[id].schedule.Once? ==> |made| <= 1
  {
    hide Slots.Chained, Slots.Gap, IsDueJob;
    if s.phase.Writing? && s.phase.job.id == id {
      assert s.phase.job in Todo(s.phase);
      hide Todo;
      ChainGrows(made, s.jobs[id]);
    }
  }

  /** A slot for the time the record waits for is far enough from those before. */
  lemma {:induction false} ChainGrows(made: seq<Slots.Slot>, job: LeylaJob)
    requires made != [] && job.nextRunAt == Some(made[|made| - 1].at)
    requires Slots.Spaced(made[..|made| - 1], job)
    ensures Slots.Chained(made, Slots.Gap(job.schedule)) && (job.schedule.Once? ==> |made| <= 1)
  {
    hide Slots.Gap;
    var before := made[..|made| - 1];
    assert forall i :: 0 <= i < |before| ==> before[i] == made[i];
  }

  /** No slot is materialised twice, whatever comes between the store calls of the ticks: the i-th and
      j-th slot of a job lie at least j - i intervals apart. */
  lemma {:induction false} TickSlotsApart(states: seq<State>, events: seq<Event>, id: JobId, i: nat, j: nat)
    requires Regular(states, events, id) && i <= j < |Made(states, events, |events|, id)|
    ensures var made := Made(states, events, |events|, id);
            made[i].at + (j - i) * Slots.Gap(states[0].jobs[id].schedule) <= made[j].at
  {
    hide Inv, Next, WritesBack, Steady, Slots.Gap, Slots.Chained, Advances, StrictlyAfter, Made;
    SteadyAlways(states, events, |events|, id);
    InvAlways(states, events, |events|);
    SteadyChained(Made(states, events, |events|, id), states[|events|], id);
    Slots.ChainedApart(Made(states, events, |events|, id), Slots.Gap(states[0].jobs[id].schedule), i, j);
  }

  /** And the rate bound and the single run of a one-off job hold as well. */
  lemma {:induction false} TickRateBound(states: seq<State>, events: seq<Event>, id: JobId,
                                         first: Instant, last: Instant)
    requires Regular(states, events, id) && first <= last
    ensures |Slots.InWindow(Made(states, events, |events|, id), first, last)|
            <= 1 + (last - first) / Slots.Gap(states[0].jobs[id].schedule)
    ensures states[0].jobs[id].schedule.Once? ==> |Made(states, events, |events|, id)| <= 1
  {
    hide Inv, Next, WritesBack, Steady, Slots.Gap, Slots.Chained, Slots.InWindow, Advances, StrictlyAfter, Made;
    SteadyAlways(states, events, |events|, id);
    InvAlways(states, events, |events|);
    SteadyChained(Made(states, events, |events|, id), states[|events|], id);
    Slots.WindowCount(Made(states, events, |events|, id), Slots.Gap(states[0].jobs[id].schedule), first, last);
  }
}
