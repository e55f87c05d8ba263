/** One tick of materialisation, store call by store call, with other writers of jobs in between.

    A tick reads the clock, lists all jobs, and then, for each due job of that list, inserts a run and
    writes the job back as the list showed it, advanced. It checks nothing when it writes, so a pause
    or a removal made in between may be lost. */
module TickProtocol {
  import opened Calendar
  import opened Collections
  import opened Types
  import opened Wrappers
  import opened StoreSpec
  import opened MemoryStores
  import opened Materialize

  datatype Phase =
    | Idle
    | Began(now: Instant)
    | Scanning(now: Instant, todo: seq<LeylaJob>)
    | Writing(now: Instant, job: LeylaJob, todo: seq<LeylaJob>)

  datatype State = State(jobs: Jobs, runs: Runs, clock: Instant, phase: Phase)

  /** `Halt` is the date library stopping the program; `Runs` is any other step on the runs. */
  datatype Event =
    | Pass(until: Instant)
    | BeginTick
    | ListJobs(listed: seq<LeylaJob>)
    | SkipJob
    | InsertRun(runId: RunId, wall: Instant)
    | WriteJob(cron: CronNext)
    | Halt
    | EndTick
    | Upsert(record: LeylaJob)
    | Remove(job: JobId)
    | Runs(runs: Runs)

  ghost predicate Next(s: State, e: Event, s': State) {
    match e
    case Pass(until) => s.clock <= until <= LATEST && s' == s.(clock := until)
    case BeginTick => s.phase.Idle? && s' == s.(phase := Began(s.clock))
    case ListJobs(listed) =>
      && s.phase.Began? && Lists(s.jobs, JobKey, s.jobs.Keys, listed) && SortedBy(JobAge, listed)
      && s' == s.(phase := Scanning(s.phase.now, listed))
    case SkipJob =>
      && s.phase.Scanning? && s.phase.todo != [] && !IsDueJob(s.phase.todo[0], s.phase.now)
      && s' == s.(phase := Scanning(s.phase.now, s.phase.todo[1..]))
    case InsertRun(runId, wall) =>
      && s.phase.Scanning? && s.phase.todo != [] && IsDueJob(s.phase.todo[0], s.phase.now) && runId !in s.runs
      && var (job, rest) := (s.phase.todo[0], s.phase.todo[1..]);
         s' == s.(runs := s.runs[runId := RunOf(job, runId, wall)], phase := Writing(s.phase.now, job, rest))
    case WriteJob(cron) =>
      && s.phase.Writing? && !Overflows(s.phase.job.schedule, s.phase.now)
      && s' == s.(jobs := s.jobs[s.phase.job.id := Advanced(s.phase.job, s.phase.now, cron)],
                  phase := Scanning(s.phase.now, s.phase.todo))
    case Halt =>
      s.phase.Writing? && Overflows(s.phase.job.schedule, s.phase.now) && s' == s.(phase := Idle)
    case EndTick => s.phase.Scanning? && s.phase.todo == [] && s' == s.(phase := Idle)
    case Upsert(record) => s' == s.(jobs := s.jobs[record.id := record])
    case Remove(id) => s' == s.(jobs := s.jobs - {id})
    case Runs(runs) => s.runs.Keys <= runs.Keys && s' == s.(runs := runs)
  }

  /** The listed jobs that the tick has not done with. */
  function Todo(phase: Phase): seq<LeylaJob> {
    match phase
    case Scanning(_, todo) => todo
    case Writing(_, job, todo) => [job] + todo
    case _ => []
  }

  ghost predicate Inv(s: State) {
    && (forall id :: id in s.jobs ==> s.jobs[id].id == id)
    && InRange(s.clock) && (!s.phase.Idle? ==> EARLIEST <= s.phase.now <= s.clock)
    && Distinct(JobKey, Todo(s.phase))
    && (s.phase.Writing? ==> IsDueJob(s.phase.job, s.phase.now))
  }

  ghost predicate Behaviour(states: seq<State>, events: seq<Event>) {
    && |states| == |events| + 1 && Inv(states[0])
    && forall k :: 0 <= k < |events| ==> Next(states[k], events[k], states[k + 1])
  }

  lemma {:induction false} TailDistinct(todo: seq<LeylaJob>)
    requires todo != [] && Distinct(JobKey, todo)
    ensures Distinct(JobKey, todo[1..])
  {
  }

  lemma {:induction false} ListDistinct(jobs: Jobs, listed: seq<LeylaJob>)
    requires Lists(jobs, JobKey, jobs.Keys, listed)
    ensures Distinct(JobKey, listed)
  {
    DistinctByCount(JobKey, listed);
  }

  lemma {:induction false} InvStep(s: State, e: Event, s': State)
    requires Inv(s) && Next(s, e, s')
    ensures Inv(s')
  {
    hide ComputeNextRun, RunOf, IsDueJob, Overflows, SortedBy, Distinct, Lists;
    match e
    case ListJobs(listed) => ListDistinct(s.jobs, listed);
    case SkipJob => TailDistinct(Todo(s.phase));
    case InsertRun(_, _) => assert Todo(s'.phase) == Todo(s.phase);
    case WriteJob(_) =>
      TailDistinct(Todo(s.phase));
      assert Todo(s'.phase) == Todo(s.phase)[1..];
    case _ => assert e.Halt? || e.EndTick? || e.BeginTick? ==> Distinct(JobKey, Todo(s'.phase)) by { NoneDistinct(); }
  }

  lemma {:induction false} NoneDistinct()
    ensures Distinct(JobKey, [])
  {
  }

  lemma {:induction false} InvAlways(states: seq<State>, events: seq<Event>, k: nat)
    requires Behaviour(states, events) && k <= |events|
    ensures Inv(states[k])
  {
    hide Inv, Next;
    if k != 0 {
      InvAlways(states, events, k - 1);
      InvStep(states[k - 1], events[k - 1], states[k]);
    }
  }

  // ---------------------------------------------------------------------------------------------
  // When a pause or a removal survives
  // ---------------------------------------------------------------------------------------------

  /** The tick has listed the job as due and has yet to write it back. */
  ghost predicate Pending(phase: Phase, id: JobId) {
    exists job :: job in Todo(phase) && job.id == id && IsDueJob(job, phase.now)
  }

  predicate OutOfUse(jobs: Jobs, id: JobId) {
    id !in jobs || !jobs[id].enabled
  }

  predicate WritesTo(e: Event, id: JobId) {
    (e.Upsert? && e.record.id == id) || (e.Remove? && e.job == id)
  }

  /** The listing makes only jobs in use pending, the write takes its job away, and no other step
      of a tick changes which jobs are pending. */
  lemma {:induction false} PendingStep(s: State, e: Event, s': State, id: JobId)
    requires Inv(s) && Next(s, e, s')
    requires !e.BeginTick? && !e.Halt? && !e.EndTick?
    ensures e.ListJobs? ==> !Pending(s.phase, id) && (Pending(s'.phase, id) ==> !OutOfUse(s.jobs, id))
    ensures !e.ListJobs? ==> (Pending(s'.phase, id) <==> Pending(s.phase, id) && !(e.WriteJob? && s.phase.job.id == id))
  {
    hide RunOf, Overflows, Distinct;
    match e
    case ListJobs(listed) => ListedJobs(s.jobs, s.phase.now, listed);
    case SkipJob => SplitTodo(s.phase.todo);
    case InsertRun(_, _) => assert Todo(s'.phase) == Todo(s.phase);
    case WriteJob(_) =>
      SplitTodo(Todo(s.phase));
      assert Todo(s.phase)[1..] == Todo(s'.phase);
    case _ =>
  }

  /** While a tick lasts: a job that is out of use and not pending stays so, and a pending one is in
      use again once the tick has written it. */
  lemma {:induction false} UseStep(s: State, e: Event, s': State, id: JobId)
    requires Inv(s) && Next(s, e, s') && !WritesTo(e, id)
    requires !e.BeginTick? && !e.Halt? && !e.EndTick?
    ensures OutOfUse(s.jobs, id) && !Pending(s.phase, id) ==> OutOfUse(s'.jobs, id) && !Pending(s'.phase, id)
    ensures Pending(s.phase, id) ==> Pending(s'.phase, id) || !OutOfUse(s'.jobs, id)
    ensures !s.phase.Began? && !Pending(s.phase, id) ==>
              !s'.phase.Began? && !Pending(s'.phase, id) && (OutOfUse(s'.jobs, id) <==> OutOfUse(s.jobs, id))
  {
    hide RunOf, Overflows, Distinct, Pending, SortedBy, Lists;
    PendingStep(s, e, s', id);
    if e.WriteJob? && s.phase.job.id == id {
      HeadIsPending(s, id);
    }
  }

  /** The job being written is pending, and in use. */
  lemma {:induction false} HeadIsPending(s: State, id: JobId)
    requires Inv(s) && s.phase.Writing? && s.phase.job.id == id
    ensures Pending(s.phase, id) && s.phase.job.enabled
  {
    assert s.phase.job in Todo(s.phase);
  }

  lemma {:induction false} SplitTodo(todo: seq<LeylaJob>)
    requires todo != [] && Distinct(JobKey, todo)
    ensures forall job :: job in todo <==> job == todo[0] || job in todo[1..]
    ensures forall job :: job in todo[1..] ==> job.id != todo[0].id
  {
    assert todo == [todo[0]] + todo[1..];
    forall job | job in todo[1..]
      ensures job.id != todo[0].id
    {
      var i :| 0 <= i < |todo| - 1 && todo[1..][i] == job;
      assert JobKey(todo[0]) != JobKey(todo[i + 1]);
    }
  }

  /** The steps from `first` up to `last` belong to one tick, and nobody else writes the job. */
  ghost predicate WithinTick(states: seq<State>, events: seq<Event>, first: nat, last: nat, id: JobId) {
    && Behaviour(states, events) && first <= last <= |events|
    && forall k :: first <= k < last ==>
         !WritesTo(events[k], id) && !events[k].BeginTick? && !events[k].Halt? && !events[k].EndTick?
  }

  lemma {:induction false} UseWithinTick(states: seq<State>, events: seq<Event>, first: nat, last: nat, id: JobId)
    requires WithinTick(states, events, first, last, id) && OutOfUse(states[first].jobs, id)
    ensures !Pending(states[first].phase, id) ==> OutOfUse(states[last].jobs, id) && !Pending(states[last].phase, id)
    ensures Pending(states[first].phase, id) ==>
              !states[last].phase.Began? && (Pending(states[last].phase, id) || !OutOfUse(states[last].jobs, id))
    decreases last
  {
    hide Inv, Next, Pending, OutOfUse;
    if first != last {
      UseWithinTick(states, events, first, last - 1, id);
      InvAlways(states, events, last - 1);
      UseStep(states[last - 1], events[last - 1], states[last], id);
      NotBegun(states[last - 1], events[last - 1], states[last]);
    } else {
      PendingMeansListed(states[first].phase, id);
    }
  }

  lemma {:induction false} PendingMeansListed(phase: Phase, id: JobId)
    ensures Pending(phase, id) ==> !phase.Began? && !phase.Idle?
  {
  }

  lemma {:induction false} NotBegun(s: State, e: Event, s': State)
    requires Next(s, e, s') && !e.BeginTick?
    ensures !s.phase.Began? ==> !s'.phase.Began?
  {
  }

  /** A pause or removal made during a tick, at step `write`, is still in force when the tick comes to
      its end exactly if the job was not pending: either the tick had not yet listed the jobs, or did
      not list this one as due, or had already written it back. Otherwise the tick undoes it. */
  lemma {:induction false} WriteSurvivesTick(states: seq<State>, events: seq<Event>, write: nat, end: nat, id: JobId)
    requires WithinTick(states, events, write + 1, end, id) && write < end < |events| && events[end].EndTick?
    requires WritesTo(events[write], id) && (events[write].Upsert? ==> !events[write].record.enabled)
    ensures OutOfUse(states[end + 1].jobs, id) <==> !Pending(states[write].phase, id)
  {
    hide Inv, Pending;
    assert Next(states[write], events[write], states[write + 1]);
    assert Next(states[end], events[end], states[end + 1]);
    UseWithinTick(states, events, write + 1, end, id);
    assert !Pending(states[end].phase, id) by { NothingPending(states[end].phase, id); }
  }

  function Stored(jobs: Jobs, id: JobId): Option<LeylaJob> {
    if id in jobs then Some(jobs[id]) else None
  }

  /** The tick will write back this record, advanced, or has done so already. */
  ghost predicate WrittenBack(s: State, job: LeylaJob, now: Instant) {
    || (Todo(s.phase) != [] && s.phase.now == now && job in Todo(s.phase))
    || (!Pending(s.phase, job.id) && exists cron :: Stored(s.jobs, job.id) == Some(Advanced(job, now, cron)))
  }

  lemma {:induction false} UnpendingStep(s: State, e: Event, s': State, id: JobId)
    requires Inv(s) && Next(s, e, s') && !WritesTo(e, id) && !s.phase.Began? && !Pending(s.phase, id)
    requires !e.BeginTick? && !e.Halt? && !e.EndTick?
    ensures !s'.phase.Began? && !Pending(s'.phase, id) && Stored(s'.jobs, id) == Stored(s.jobs, id)
  {
    hide RunOf, Overflows, Advanced, IsDueJob;
    match e
    case SkipJob => SplitTodo(s.phase.todo);
    case InsertRun(_, _) => assert Todo(s'.phase) == Todo(s.phase);
    case WriteJob(_) =>
      SplitTodo(Todo(s.phase));
      assert Todo(s.phase)[1..] == Todo(s'.phase);
    case _ =>
  }

  lemma {:induction false} WrittenBackStep(s: State, e: Event, s': State, job: LeylaJob, now: Instant)
    requires Inv(s) && Next(s, e, s') && !WritesTo(e, job.id) && !s.phase.Began?
    requires !e.BeginTick? && !e.Halt? && !e.EndTick?
    requires IsDueJob(job, now) && WrittenBack(s, job, now)
    ensures !s'.phase.Began? && WrittenBack(s', job, now)
  {
    hide RunOf, Overflows, Advanced, IsDueJob;
    if !Pending(s.phase, job.id) {
      UnpendingStep(s, e, s', job.id);
    }
    match e
    case SkipJob => SplitTodo(s.phase.todo);
    case InsertRun(_, _) => assert Todo(s'.phase) == Todo(s.phase);
    case WriteJob(_) =>
      SplitTodo(Todo(s.phase));
      assert Todo(s.phase)[1..] == Todo(s'.phase);
    case _ =>
  }

  lemma {:induction false} UnpendingWithinTick(states: seq<State>, events: seq<Event>, first: nat, last: nat, id: JobId)
    requires WithinTick(states, events, first, last, id)
    requires !states[first].phase.Began? && !Pending(states[first].phase, id)
    ensures !states[last].phase.Began? && !Pending(states[last].phase, id)
    ensures Stored(states[last].jobs, id) == Stored(states[first].jobs, id)
    decreases last
  {
    hide Inv, Next, Pending, Stored;
    if first != last {
      UnpendingWithinTick(states, events, first, last - 1, id);
      InvAlways(states, events, last - 1);
      UnpendingStep(states[last - 1], events[last - 1], states[last], id);
    }
  }

  lemma {:induction false} WrittenBackWithinTick(states: seq<State>, events: seq<Event>, first: nat, last: nat,
                                                 job: LeylaJob, now: Instant)
    requires WithinTick(states, events, first, last, job.id) && !states[first].phase.Began?
    requires IsDueJob(job, now) && WrittenBack(states[first], job, now)
    ensures !states[last].phase.Began? && WrittenBack(states[last], job, now)
    decreases last
  {
    hide Inv, Next, WrittenBack, IsDueJob;
    if first != last {
      WrittenBackWithinTick(states, events, first, last - 1, job, now);
      InvAlways(states, events, last - 1);
      WrittenBackStep(states[last - 1], events[last - 1], states[last], job, now);
    }
  }

  /** Any change of a job that is made after the tick has listed the jobs, and is the last one: if the
      job was not pending it stands as it was made, and otherwise the tick puts the listed record back,
      advanced, with whatever schedule and settings that had. */
  lemma {:induction false} ChangeSurvivesTick(states: seq<State>, events: seq<Event>, write: nat, end: nat, id: JobId)
    requires WithinTick(states, events, write + 1, end, id) && write < end < |events| && events[end].EndTick?
    requires WritesTo(events[write], id) && !states[write].phase.Began?
    ensures !Pending(states[write].phase, id) ==>
              Stored(states[end + 1].jobs, id) == Stored(states[write + 1].jobs, id)
    ensures forall job :: job in Todo(states[write].phase) && job.id == id && IsDueJob(job, states[write].phase.now) ==>
              exists cron :: Stored(states[end + 1].jobs, id) == Some(Advanced(job, states[write].phase.now, cron))
  {
    hide Inv, IsDueJob, Stored, Advanced, Pending;
    assert Next(states[write], events[write], states[write + 1]);
    assert Next(states[end], events[end], states[end + 1]);
    if !Pending(states[write].phase, id) {
      UnpendingWithinTick(states, events, write + 1, end, id);
    }
    forall job | job in Todo(states[write].phase) && job.id == id && IsDueJob(job, states[write].phase.now)
      ensures exists cron :: Stored(states[end + 1].jobs, id) == Some(Advanced(job, states[write].phase.now, cron))
    {
      WrittenBackWithinTick(states, events, write + 1, end, job, states[write].phase.now);
    }
  }

  lemma {:induction false} NothingPending(phase: Phase, id: JobId)
    requires Todo(phase) == []
    ensures !Pending(phase, id)
  {
  }

  // ---------------------------------------------------------------------------------------------
  // A tick with nobody in between
  // ---------------------------------------------------------------------------------------------

  /** The step belongs to this tick, and uses its ids, times and cron library. */
  ghost predicate StepOfTick(s: State, e: Event, tick: Tick) {
    match e
    case ListJobs(_) => true
    case SkipJob => true
    case InsertRun(runId, wall) =>
      && s.phase.Scanning? && s.phase.todo != []
      && runId == tick.newId(s.phase.todo[0].id) && wall == tick.wall(s.phase.todo[0].id)
    case WriteJob(cron) => cron == tick.cron
    case _ => false
  }

  /** How far the tick that started at `start` has come, having listed `listed`. */
  ghost predicate Partial(start: State, tick: Tick, s: State, listed: seq<LeylaJob>, advanced: set<JobId>) {
    match s.phase
    case Began(now) => now == tick.now && s.jobs == start.jobs && s.runs == start.runs
    case Scanning(now, todo) =>
      && now == tick.now && Lists(start.jobs, JobKey, start.jobs.Keys, listed) && SortedBy(JobAge, listed)
      && |todo| <= |listed| && todo == listed[|listed| - |todo|..]
      && TickDone(start.jobs, start.runs, s.jobs, s.runs, advanced, advanced, tick)
      && Scanned(start.jobs, now, listed, |listed| - |todo|, advanced)
    case Writing(now, job, todo) =>
      && now == tick.now && Lists(start.jobs, JobKey, start.jobs.Keys, listed) && SortedBy(JobAge, listed)
      && |todo| < |listed| && [job] + todo == listed[|listed| - |todo| - 1..] && IsDueJob(job, now)
      && TickDone(start.jobs, start.runs, s.jobs, s.runs, advanced + {job.id}, advanced, tick)
      && Scanned(start.jobs, now, listed, |listed| - |todo| - 1, advanced)
    case Idle => false
  }

  lemma {:induction false} PartialList(start: State, tick: Tick, s: State, listed: seq<LeylaJob>, s': State)
    requires Partial(start, tick, s, [], {}) && Next(s, ListJobs(listed), s')
    ensures Partial(start, tick, s', listed, {})
  {
    hide TickDone, Scanned, Lists, SortedBy;
    NothingDone(start.jobs, start.runs, tick, listed);
    assert listed[0..] == listed;
  }

  lemma {:induction false} PartialSkip(start: State, tick: Tick, s: State, s': State, listed: seq<LeylaJob>,
                                       advanced: set<JobId>)
    requires Partial(start, tick, s, listed, advanced) && Next(s, SkipJob, s')
    ensures Partial(start, tick, s', listed, advanced)
  {
    hide TickDone, Scanned, IsDueJob, Lists, SortedBy, Overflows, TickExtent;
    var k := |listed| - |s.phase.todo|;
    HeadOfRest(listed, s.phase.todo, k);
    ScanStep(start.jobs, tick.now, listed, k, advanced);
  }

  lemma {:induction false} PartialInsert(start: State, tick: Tick, s: State, e: Event, s': State,
                                         listed: seq<LeylaJob>, advanced: set<JobId>)
    requires FreshIds(start.jobs.Keys, start.runs, tick.newId)
    requires Partial(start, tick, s, listed, advanced) && e.InsertRun? && Next(s, e, s') && StepOfTick(s, e, tick)
    ensures Partial(start, tick, s', listed, advanced)
  {
    hide TickDone, Scanned, IsDueJob, Advanced, RunOf, Lists, SortedBy, FreshIds, Overflows, TickExtent;
    var k := |listed| - |s.phase.todo|;
    var job := s.phase.todo[0];
    HeadOfRest(listed, s.phase.todo, k);
    ListedJobs(start.jobs, tick.now, listed);
    ScanStep(start.jobs, tick.now, listed, k, advanced);
    DueHasTime(job, tick.now);
    TickStep(start.jobs, start.runs, s.jobs, s.runs, advanced, job.id, tick);
    assert [job] + s.phase.todo[1..] == s.phase.todo;
  }

  lemma {:induction false} PartialWrite(start: State, tick: Tick, s: State, s': State, listed: seq<LeylaJob>,
                                        advanced: set<JobId>)
    requires Partial(start, tick, s, listed, advanced) && Next(s, WriteJob(tick.cron), s')
    ensures s.phase.Writing? && Partial(start, tick, s', listed, advanced + {s.phase.job.id})
  {
    hide TickDone, Scanned, IsDueJob, Advanced, RunOf, Lists, SortedBy, Overflows, TickExtent;
    var (job, todo) := (s.phase.job, s.phase.todo);
    var k := |listed| - |todo| - 1;
    HeadOfRest(listed, [job] + todo, k);
    assert ([job] + todo)[1..] == todo;
    ListedJobs(start.jobs, tick.now, listed);
    ScanStep(start.jobs, tick.now, listed, k, advanced);
    WriteDone(start.jobs, start.runs, s.jobs, s.runs, advanced, job.id, tick);
  }

  lemma {:induction false} HeadOfRest(listed: seq<LeylaJob>, todo: seq<LeylaJob>, k: nat)
    requires k < |listed| && todo == listed[k..]
    ensures todo[0] == listed[k] && todo[1..] == listed[k + 1..]
  {
  }

  lemma {:induction false} PartialStep(start: State, tick: Tick, s: State, e: Event, s': State,
                                       listed: seq<LeylaJob>, advanced: set<JobId>)
    returns (listed': seq<LeylaJob>, advanced': set<JobId>)
    requires FreshIds(start.jobs.Keys, start.runs, tick.newId)
    requires Partial(start, tick, s, listed, advanced) && Next(s, e, s') && StepOfTick(s, e, tick)
    ensures Partial(start, tick, s', listed', advanced')
  {
    listed', advanced' := listed, advanced;
    match e
    case ListJobs(jobs) =>
      hide TickDone, FreshIds;
      PartialList(start, tick, s, jobs, s');
      listed', advanced' := jobs, {};
    case SkipJob =>
      hide Partial, FreshIds;
      PartialSkip(start, tick, s, s', listed, advanced);
    case InsertRun(_, _) =>
      hide Partial, Next, StepOfTick, FreshIds;
      PartialInsert(start, tick, s, e, s', listed, advanced);
    case WriteJob(_) =>
      hide Partial, FreshIds;
      PartialWrite(start, tick, s, s', listed, advanced);
      advanced' := advanced + {s.phase.job.id};
  }

  lemma {:induction false} DueHasTime(job: LeylaJob, now: Instant)
    requires IsDueJob(job, now)
    ensures job.nextRunAt.Some?
  {
  }

  /** Writing back the job whose run is in. */
  lemma {:induction false} WriteDone(jobs: Jobs, runs: Runs, jobs': Jobs, runs': Runs, advanced: set<JobId>, job: JobId,
                                     tick: Tick)
    requires job in jobs && TickDone(jobs, runs, jobs', runs', advanced + {job}, advanced, tick)
    ensures TickDone(jobs, runs, jobs'[job := Advanced(jobs[job], tick.now, tick.cron)], runs',
                     advanced + {job}, advanced + {job}, tick)
  {
    hide RunsAdded, AdvancedJobs, Advanced;
    JobAdvanced(jobs, advanced, job, tick.now, tick.cron);
  }

  lemma {:induction false} PartialAlways(states: seq<State>, events: seq<Event>, i: nat, j: nat, tick: Tick)
    returns (listed: seq<LeylaJob>, advanced: set<JobId>)
    requires Behaviour(states, events) && i < j <= |events| && events[i].BeginTick?
    requires tick.now == states[i].clock && FreshIds(states[i].jobs.Keys, states[i].runs, tick.newId)
    requires forall k :: i < k < j ==> StepOfTick(states[k], events[k], tick)
    ensures Partial(states[i], tick, states[j], listed, advanced)
  {
    hide Inv, Partial, FreshIds, StepOfTick;
    assert Next(states[j - 1], events[j - 1], states[j]);
    if j == i + 1 {
      listed, advanced := [], {};
      assert Partial(states[i], tick, states[j], [], {}) by { Begun(states[i], states[j], tick); }
    } else {
      var l, a := PartialAlways(states, events, i, j - 1, tick);
      listed, advanced := PartialStep(states[i], tick, states[j - 1], events[j - 1], states[j], l, a);
    }
  }

  lemma {:induction false} Begun(s: State, s': State, tick: Tick)
    requires s' == s.(phase := Began(s.clock)) && tick.now == s.clock
    ensures Partial(s, tick, s', [], {})
  {
  }

  /** With nobody in between, the store calls of a tick do exactly what a whole tick does; it stops
      early exactly if the date library stops it. */
  lemma {:induction false} UninterruptedTick(states: seq<State>, events: seq<Event>, i: nat, j: nat, tick: Tick)
    returns (advanced: set<JobId>, halted: Option<JobId>)
    requires Behaviour(states, events) && i < j < |events|
    requires events[i].BeginTick? && (events[j].EndTick? || events[j].Halt?)
    requires tick.now == states[i].clock && FreshIds(states[i].jobs.Keys, states[i].runs, tick.newId)
    requires forall k :: i < k < j ==> StepOfTick(states[k], events[k], tick)
    ensures TickOutcome(states[i].jobs, states[i].runs, states[j + 1].jobs, states[j + 1].runs, advanced, halted, tick)
    ensures halted.Some? <==> events[j].Halt?
  {
    hide Inv, FreshIds, StepOfTick, TickDone, TickExtent, Scanned, IsDueJob, Overflows, Lists, SortedBy;
    var start := states[i];
    var listed, a := PartialAlways(states, events, i, j, tick);
    assert Next(states[j], events[j], states[j + 1]);
    advanced := a;
    if events[j].EndTick? {
      halted := None;
      ScanEnds(start.jobs, tick.now, listed, advanced);
      assert MadeFor(advanced, halted) == advanced;
    } else {
      var (job, todo) := (states[j].phase.job, states[j].phase.todo);
      halted := Some(job.id);
      assert ([job] + todo)[0] == listed[|listed| - |todo| - 1];
      ScanStep(start.jobs, tick.now, listed, |listed| - |todo| - 1, advanced);
      assert MadeFor(advanced, halted) == advanced + {job.id};
    }
  }
}
