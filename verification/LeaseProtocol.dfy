/** Workers, executors and one recoverer acting on the shared store, one store call at a time.

    A step reads the shared clock and makes one store call. Recovery is not one step: it reads the
    clock, takes a snapshot of the stale runs, writes them one by one, takes a snapshot of the runs
    waiting for a retry, and writes those. Any other step may come in between, and `update_run`
    checks nothing, so what recovery writes is only as good as its snapshot still is. */
module LeaseProtocol {
  import opened Calendar
  import opened Collections
  import opened Types
  import opened Wrappers
  import opened Lifecycle
  import opened StoreSpec
  import opened Recovery

  datatype Phase =
    | Idle
    | Began(now: Instant)
    | StaleLoop(now: Instant, todo: seq<JobRun>)
    | Rescuing(now: Instant, run: JobRun, todo: seq<JobRun>)
    | RetryLoop(now: Instant, todo: seq<JobRun>)

  datatype State = State(runs: Runs, clock: Instant, phase: Phase)

  datatype Event =
    | Pass(until: Instant)
    | Insert(run: JobRun)
    | Claim(owner: string, limit: nat, picked: set<RunId>)
    | Execute(id: RunId, patch: RunPatch)
    | BeginRecovery
    | TakeStale(stale: seq<JobRun>)
    | RecoverNext
    | FinishRescue
    | TakeRetries(retries: seq<JobRun>)
    | AdvanceNext
    | EndRecovery

  const RETRY_FILTER := RunFilter(None, Some(RetryWait), None)

  predicate Held(status: RunStatus) {
    status.Leased? || status.Dispatched? || status.Running?
  }

  /** An executor moves its run forward along the lifecycle graph and never shortens the lease. */
  predicate ExecutorMay(run: JobRun, patch: RunPatch) {
    && (Held(run.status) || run.status.Failed? || run.status.TimedOut?)
    && (patch.status.Some? ==> CanTransition(run.status, patch.status.value)
                               && !patch.status.value.Scheduled? && !patch.status.value.Orphaned?)
    && (patch.leaseExpiresAt.Some? && run.leaseExpiresAt.Some? ==>
          run.leaseExpiresAt.value <= patch.leaseExpiresAt.value)
  }

  function Updated(s: State, id: RunId, patch: RunPatch): Runs
    requires id in s.runs
  {
    s.runs[id := ApplyPatch(s.runs[id], patch, s.clock)]
  }

  /** What recovery writes first for a stale run, and then for a running one. */
  function FirstPatch(run: JobRun, now: Instant): RunPatch {
    if run.status.Running? then ORPHAN_PATCH else ReleasePatch(now)
  }

  function SecondPatch(run: JobRun): RunPatch {
    if Exhausted(run) then DEAD_LETTER_PATCH else RESCHEDULE_PATCH
  }

  ghost predicate Next(threshold: Instant, s: State, e: Event, s': State) {
    match e
    case Pass(until) =>
      s.clock <= until && s' == s.(clock := until)
    case Insert(run) =>
      run.runId !in s.runs && run.status.Scheduled? && s' == s.(runs := s.runs[run.runId := run])
    case Claim(owner, limit, picked) =>
      ValidPick(s.runs, s.clock, limit, picked) && s' == s.(runs := ClaimAll(s.runs, picked, s.clock, owner))
    case Execute(id, patch) =>
      id in s.runs && ExecutorMay(s.runs[id], patch) && s' == s.(runs := Updated(s, id, patch))
    case BeginRecovery =>
      s.phase.Idle? && s' == s.(phase := Began(s.clock))
    case TakeStale(stale) =>
      && s.phase.Began? && IsListing(s.runs, Stale(s.runs, s.phase.now, threshold), stale)
      && s' == s.(phase := StaleLoop(s.phase.now, stale))
    case RecoverNext =>
      && s.phase.StaleLoop? && s.phase.todo != [] && s.phase.todo[0].runId in s.runs
      && var (run, rest) := (s.phase.todo[0], s.phase.todo[1..]);
         s' == s.(runs := Updated(s, run.runId, FirstPatch(run, s.phase.now)),
                  phase := if run.status.Running? then Rescuing(s.phase.now, run, rest)
                           else StaleLoop(s.phase.now, rest))
    case FinishRescue =>
      && s.phase.Rescuing? && s.phase.run.runId in s.runs
      && s' == s.(runs := Updated(s, s.phase.run.runId, SecondPatch(s.phase.run)),
                  phase := StaleLoop(s.phase.now, s.phase.todo))
    case TakeRetries(retries) =>
      && s.phase.StaleLoop? && s.phase.todo == [] && IsListing(s.runs, Matching(s.runs, RETRY_FILTER), retries)
      && s' == s.(phase := RetryLoop(s.phase.now, retries))
    case AdvanceNext =>
      && s.phase.RetryLoop? && s.phase.todo != [] && s.phase.todo[0].runId in s.runs
      && var (run, rest) := (s.phase.todo[0], s.phase.todo[1..]);
         s' == s.(runs := if RetryReady(run, s.phase.now) then Updated(s, run.runId, RESCHEDULE_PATCH) else s.runs,
                  phase := RetryLoop(s.phase.now, rest))
    case EndRecovery =>
      s.phase.RetryLoop? && s.phase.todo == [] && s' == s.(phase := Idle)
  }

  // ---------------------------------------------------------------------------------------------
  // Invariant
  // ---------------------------------------------------------------------------------------------

  function Todo(phase: Phase): seq<JobRun> {
    match phase
    case StaleLoop(_, todo) => todo
    case Rescuing(_, run, todo) => [run] + todo
    case RetryLoop(_, todo) => todo
    case _ => []
  }

  /** The runs recovery is still going to write, from a snapshot it has already taken. */
  ghost function Targets(phase: Phase): set<RunId> {
    Names(RunKey, Todo(phase))
  }

  ghost predicate Inv(s: State) {
    && Keyed(s.runs)
    && (!s.phase.Idle? ==> s.phase.now <= s.clock)
    && Distinct(RunKey, Todo(s.phase))
    && (forall run :: run in Todo(s.phase) ==> run.runId in s.runs && !s.runs[run.runId].status.Scheduled?)
    && (s.phase.RetryLoop? ==> forall run :: run in Todo(s.phase) ==> s.runs[run.runId] == run && run.status.RetryWait?)
    && (forall id :: id in s.runs && s.runs[id].status.Leased? ==> s.runs[id].scheduledFor <= s.clock)
  }

  lemma {:induction false} EmptyStoreInv(clock: Instant)
    ensures Inv(State(map[], clock, Idle))
  {
  }

  lemma {:induction false} ListedRuns(runs: Runs, ids: set<RunId>, out: seq<JobRun>)
    requires IsListing(runs, ids, out)
    ensures Distinct(RunKey, out)
    ensures forall run :: run in out ==> run.runId in ids && run.runId in runs && runs[run.runId] == run
  {
    DistinctByCount(RunKey, out);
    forall run | run in out
      ensures run.runId in ids
    {
      assert RunKey(run) in Names(RunKey, out);
    }
  }

  lemma {:induction false} InvSnapshot(threshold: Instant, s: State, e: Event, s': State)
    requires Inv(s) && Next(threshold, s, e, s') && (e.TakeStale? || e.TakeRetries?)
    ensures Inv(s')
  {
    hide ApplyPatch;
    if e.TakeStale? {
      ListedRuns(s.runs, Stale(s.runs, s.phase.now, threshold), e.stale);
    } else {
      ListedRuns(s.runs, Matching(s.runs, RETRY_FILTER), e.retries);
    }
  }

  /** A recovery write touches only the first target; the others stay distinct from it. */
  lemma {:induction false} HeadIsNotInTail(todo: seq<JobRun>)
    requires todo != [] && Distinct(RunKey, todo)
    ensures Distinct(RunKey, todo[1..])
    ensures forall run :: run in todo[1..] ==> run in todo && run.runId != todo[0].runId
  {
    assert forall i :: 0 <= i < |todo| - 1 ==> RunKey(todo[1..][i]) != RunKey(todo[0]);
  }

  lemma {:induction false} PatchKeeps(run: JobRun, patch: RunPatch, now: Instant)
    ensures var after := ApplyPatch(run, patch, now);
            after.runId == run.runId && after.scheduledFor == run.scheduledFor
            && (patch.status.Some? ==> after.status == patch.status.value)
  {
  }

  /** A recovery write puts a status other than Leased. */
  lemma {:induction false} RecoveryPatches(run: JobRun, now: Instant)
    ensures FirstPatch(run, now).status == Some(if run.status.Running? then Orphaned else Scheduled)
    ensures SecondPatch(run).status == Some(if Exhausted(run) then DeadLetter else Scheduled)
    ensures RESCHEDULE_PATCH.status == Some(Scheduled)
  {
  }

  /** A recovery write changes its target only, to a status that is neither Leased nor, for the run
      being rescued, Scheduled. */
  lemma {:induction false} WriteEffect(threshold: Instant, s: State, e: Event, s': State)
    requires Inv(s) && Next(threshold, s, e, s') && (e.RecoverNext? || e.FinishRescue? || e.AdvanceNext?)
    ensures Todo(s.phase) != [] && Todo(s.phase)[0].runId in s.runs && s'.runs.Keys == s.runs.Keys
    ensures forall id :: id in s.runs && id != Todo(s.phase)[0].runId ==> s'.runs[id] == s.runs[id]
    ensures var (before, after) := (s.runs[Todo(s.phase)[0].runId], s'.runs[Todo(s.phase)[0].runId]);
            && after.runId == before.runId && after.scheduledFor == before.scheduledFor
            && (after.status.Leased? ==> after == before)
            && (s'.phase.Rescuing? ==> after.status.Orphaned?)
  {
    hide ApplyPatch, FirstPatch, SecondPatch, RetryReady, IsStale, IsListing;
    var target := Todo(s.phase)[0];
    assert target in Todo(s.phase);
    var run := s.runs[target.runId];
    RecoveryPatches(target, s.phase.now);
    PatchKeeps(run, FirstPatch(target, s.phase.now), s.clock);
    PatchKeeps(run, SecondPatch(target), s.clock);
    PatchKeeps(run, RESCHEDULE_PATCH, s.clock);
  }

  /** It is done with its target, unless that is a run still to be rescued. */
  lemma {:induction false} WritePhase(threshold: Instant, s: State, e: Event, s': State)
    requires Next(threshold, s, e, s') && (e.RecoverNext? || e.FinishRescue? || e.AdvanceNext?)
    ensures Todo(s.phase) != [] && s'.clock == s.clock
    ensures !s.phase.Idle? && !s'.phase.Idle? && s'.phase.now == s.phase.now
    ensures Todo(s'.phase) == if s'.phase.Rescuing? then Todo(s.phase) else Todo(s.phase)[1..]
    ensures s'.phase.RetryLoop? <==> s.phase.RetryLoop?
    ensures s.phase.RetryLoop? ==> !s'.phase.Rescuing?
  {
    hide ApplyPatch, FirstPatch, SecondPatch, RetryReady;
    if e.FinishRescue? {
      assert Todo(s.phase)[1..] == s.phase.todo;
    } else if e.RecoverNext? && s.phase.todo[0].status.Running? {
      assert Todo(s'.phase) == Todo(s.phase);
    }
  }

  lemma {:induction false} InvWrite(threshold: Instant, s: State, e: Event, s': State)
    requires Inv(s) && Next(threshold, s, e, s') && (e.RecoverNext? || e.FinishRescue? || e.AdvanceNext?)
    ensures Inv(s')
  {
    hide Next, Todo, Distinct;
    WriteEffect(threshold, s, e, s');
    WritePhase(threshold, s, e, s');
    HeadIsNotInTail(Todo(s.phase));
    assert Todo(s.phase)[0] in Todo(s.phase);
  }

  lemma {:induction false} InvStep(threshold: Instant, s: State, e: Event, s': State)
    requires Inv(s) && Next(threshold, s, e, s')
    ensures Inv(s')
  {
    hide IsStale, IsListing, RetryReady, FirstPatch, SecondPatch;
    match e
    case TakeStale(_) => InvSnapshot(threshold, s, e, s');
    case TakeRetries(_) => InvSnapshot(threshold, s, e, s');
    case RecoverNext => InvWrite(threshold, s, e, s');
    case FinishRescue => InvWrite(threshold, s, e, s');
    case AdvanceNext => InvWrite(threshold, s, e, s');
    case _ =>
  }

  // ---------------------------------------------------------------------------------------------
  // Behaviours
  // ---------------------------------------------------------------------------------------------

  /** Any interleaving of steps, from any state that meets the invariant. */
  ghost predicate Behaviour(threshold: Instant, states: seq<State>, events: seq<Event>) {
    && |states| == |events| + 1
    && Inv(states[0])
    && forall k :: 0 <= k < |events| ==> Next(threshold, states[k], events[k], states[k + 1])
  }

  lemma {:induction false} InvAlways(threshold: Instant, states: seq<State>, events: seq<Event>, k: nat)
    requires Behaviour(threshold, states, events) && k <= |events|
    ensures Inv(states[k])
  {
    hide Inv, Next;
    if k != 0 {
      InvAlways(threshold, states, events, k - 1);
      InvStep(threshold, states[k - 1], events[k - 1], states[k]);
    }
  }

  predicate Claims(e: Event, id: RunId) {
    e.Claim? && id in e.picked
  }

  /** The executor reports the end of the run: its worker no longer holds it. */
  predicate Releases(e: Event, id: RunId) {
    e.Execute? && e.id == id && e.patch.status.Some? && !Held(e.patch.status.value)
  }

  // ---------------------------------------------------------------------------------------------
  // Lease exclusivity in time
  // ---------------------------------------------------------------------------------------------

  /** How long a claim is safe from recovery. */
  function Margin(threshold: Instant): Instant {
    if threshold < LEASE then threshold else LEASE
  }

  /** The claim made at `since` still shields the run, or its time is over. */
  ghost predicate Shielded(threshold: Instant, s: State, id: RunId, since: Instant) {
    && id in s.runs && since <= s.clock
    && (since + Margin(threshold) < s.clock ||
        (var run := s.runs[id];
         && Held(run.status) && id !in Targets(s.phase)
         && run.leaseExpiresAt.Some? && since + LEASE <= run.leaseExpiresAt.value && since <= run.updatedAt))
  }

  lemma {:induction false} ClaimShields(threshold: Instant, s: State, e: Event, s': State, id: RunId)
    requires Inv(s) && Next(threshold, s, e, s') && Claims(e, id)
    ensures Shielded(threshold, s', id, s.clock)
  {
    assert id in Due(s.runs, s.clock);
    assert forall run :: run in Todo(s.phase) ==> RunKey(run) != id;
  }

  /** The snapshot of stale runs spares a run whose claim is recent. */
  lemma {:induction false} SnapshotSpares(threshold: Instant, s: State, e: Event, s': State, id: RunId, since: Instant)
    requires Inv(s) && Next(threshold, s, e, s') && (e.TakeStale? || e.TakeRetries?)
    requires Shielded(threshold, s, id, since)
    ensures Shielded(threshold, s', id, since)
  {
  }

  lemma {:induction false} TodoTail(todo: seq<JobRun>)
    requires todo != []
    ensures Names(RunKey, todo) == {todo[0].runId} + Names(RunKey, todo[1..])
  {
    assert todo == [todo[0]] + todo[1..];
    NamesOfConcat(RunKey, [todo[0]], todo[1..]);
    NamesAppend(RunKey, [], todo[0]);
    assert [] + [todo[0]] == [todo[0]];
  }

  lemma {:induction false} WriteSpares(threshold: Instant, s: State, e: Event, s': State, id: RunId, since: Instant)
    requires Inv(s) && Next(threshold, s, e, s') && (e.RecoverNext? || e.FinishRescue? || e.AdvanceNext?)
    requires Shielded(threshold, s, id, since)
    ensures Shielded(threshold, s', id, since)
  {
    hide Inv, ApplyPatch;
    TodoTail(Todo(s.phase));
    if e.FinishRescue? {
      assert Todo(s.phase)[1..] == s.phase.todo;
    } else if e.RecoverNext? && s.phase.todo[0].status.Running? {
      assert Todo(s'.phase) == Todo(s.phase);
    }
  }

  lemma {:induction false} ShieldHolds(threshold: Instant, s: State, e: Event, s': State, id: RunId, since: Instant)
    requires Inv(s) && Next(threshold, s, e, s') && Shielded(threshold, s, id, since)
    requires !Releases(e, id) && !Claims(e, id)
    ensures Shielded(threshold, s', id, since)
  {
    match e
    case TakeStale(_) => SnapshotSpares(threshold, s, e, s', id, since);
    case TakeRetries(_) => SnapshotSpares(threshold, s, e, s', id, since);
    case RecoverNext => WriteSpares(threshold, s, e, s', id, since);
    case FinishRescue => WriteSpares(threshold, s, e, s', id, since);
    case AdvanceNext => WriteSpares(threshold, s, e, s', id, since);
    case _ =>
  }

  lemma {:induction false} ShieldUntil(threshold: Instant, states: seq<State>, events: seq<Event>,
                                       i: nat, j: nat, id: RunId)
    requires Behaviour(threshold, states, events) && i < j <= |events|
    requires Claims(events[i], id)
    requires forall k :: i < k < j ==> !Releases(events[k], id) && !Claims(events[k], id)
    ensures Shielded(threshold, states[j], id, states[i].clock)
    decreases j
  {
    hide Inv, Next, Shielded;
    InvAlways(threshold, states, events, j - 1);
    if j == i + 1 {
      ClaimShields(threshold, states[i], events[i], states[j], id);
    } else {
      ShieldUntil(threshold, states, events, i, j - 1, id);
      ShieldHolds(threshold, states[j - 1], events[j - 1], states[j], id, states[i].clock);
    }
  }

  /** Steps `i` and `j` of a behaviour claim the same run, whose end was not reported in between. */
  ghost predicate ClaimedAgain(threshold: Instant, states: seq<State>, events: seq<Event>, i: nat, j: nat, id: RunId) {
    && Behaviour(threshold, states, events) && i < j < |events|
    && Claims(events[i], id) && Claims(events[j], id)
    && forall k :: i < k < j ==> !Releases(events[k], id)
  }

  /** Mutual exclusion in time: in every behaviour of any number of workers and executors and one
      recoverer, a worker that has not reported the end of its run keeps it for more than 30 s, or
      for more than the stale threshold if that is shorter, before any worker can claim it again. */
  lemma {:induction false} LeaseExclusive(threshold: Instant, states: seq<State>, events: seq<Event>,
                                          i: nat, j: nat, id: RunId)
    requires ClaimedAgain(threshold, states, events, i, j, id)
    ensures states[i].clock + Margin(threshold) < states[j].clock
    decreases j - i
  {
    hide Inv, Shielded;
    if k :| i < k < j && Claims(events[k], id) {
      ClockMonotone(threshold, states, events, i, k);
      LeaseExclusive(threshold, states, events, k, j, id);
    } else {
      ShieldUntil(threshold, states, events, i, j, id);
      assert Next(threshold, states[j], events[j], states[j + 1]);
      ShieldedNotScheduled(threshold, states[j], id, states[i].clock);
    }
  }

  lemma {:induction false} ShieldedNotScheduled(threshold: Instant, s: State, id: RunId, since: Instant)
    requires Shielded(threshold, s, id, since) && id in Due(s.runs, s.clock)
    ensures since + Margin(threshold) < s.clock
  {
  }

  lemma {:induction false} ClockMonotone(threshold: Instant, states: seq<State>, events: seq<Event>, i: nat, j: nat)
    requires Behaviour(threshold, states, events) && i <= j <= |events|
    ensures states[i].clock <= states[j].clock
  {
    hide Inv;
    if i < j {
      ClockMonotone(threshold, states, events, i, j - 1);
      assert Next(threshold, states[j - 1], events[j - 1], states[j]);
    }
  }

  // ---------------------------------------------------------------------------------------------
  // Which thresholds are long enough
  // ---------------------------------------------------------------------------------------------

  /** Any two such claims are over 30 s apart. */
  ghost predicate Exclusive(threshold: Instant) {
    forall states: seq<State>, events: seq<Event>, i: nat, j: nat, id: RunId ::
      ClaimedAgain(threshold, states, events, i, j, id) ==> states[i].clock + LEASE < states[j].clock
  }

  /** A lease of 30 s keeps its promise exactly when the stale threshold is at least 30 s. */
  lemma {:induction false} ExclusiveThresholds(threshold: Instant)
    requires 0 <= threshold
    ensures Exclusive(threshold) <==> LEASE <= threshold
  {
    hide Inv, Next;
    if LEASE <= threshold {
      forall states: seq<State>, events: seq<Event>, i: nat, j: nat, id: RunId |
        ClaimedAgain(threshold, states, events, i, j, id)
        ensures states[i].clock + LEASE < states[j].clock
      {
        LeaseExclusive(threshold, states, events, i, j, id);
      }
    } else {
      var states, events := EarlyReclaim(threshold);
      assert ClaimedAgain(threshold, states, events, 1, 6, "r");
    }
  }

  /** With a shorter threshold, recovery takes the run from its worker while the lease is running. */
  lemma {:induction false} EarlyReclaim(threshold: Instant) returns (states: seq<State>, events: seq<Event>)
    requires 0 <= threshold < LEASE
    ensures ClaimedAgain(threshold, states, events, 1, 6, "r")
    ensures states[1].clock == 0 && states[6].clock == threshold + 1
  {
    var run := NewScheduled("r", "j", 0, 1, 0);
    var late := threshold + 1;
    states, events := Reclaim(threshold, run, ClaimRun(run, 0, "first"), late);
  }

  lemma {:induction false} Reclaim(threshold: Instant, run: JobRun, leased: JobRun, late: Instant)
    returns (states: seq<State>, events: seq<Event>)
    requires run.runId == leased.runId == "r" && IsDue(run, 0) && run.status.Scheduled?
    requires leased == ClaimRun(run, 0, "first")
    requires 0 <= late && IsStale(leased, late, threshold) && leased.status.Leased?
    requires IsDue(ApplyPatch(leased, ReleasePatch(late), late), late)
    ensures ClaimedAgain(threshold, states, events, 1, 6, "r")
    ensures states[1].clock == 0 && states[6].clock == late
  {
    hide Inv, ApplyPatch, ClaimRun, IsDue, IsStale, ValidPick, IsListing;
    var released := ApplyPatch(leased, ReleasePatch(late), late);
    assert released.runId == "r" by {
      PatchKeepsId(leased, ReleasePatch(late), late);
    }
    events := [Insert(run), Claim("first", 1, {"r"}), Pass(late), BeginRecovery, TakeStale([leased]), RecoverNext,
               Claim("second", 1, {"r"})];
    states := [State(map[], 0, Idle),
               State(map["r" := run], 0, Idle),
               State(map["r" := leased], 0, Idle),
               State(map["r" := leased], late, Idle),
               State(map["r" := leased], late, Began(late)),
               State(map["r" := leased], late, StaleLoop(late, [leased])),
               State(map["r" := released], late, StaleLoop(late, [])),
               State(map["r" := ClaimRun(released, late, "second")], late, StaleLoop(late, []))];
    LoneClaim(threshold, run, "first", states[1]);
    LoneClaim(threshold, released, "second", states[6]);
    LoneSnapshot(threshold, leased, states[4]);
    EmptyStoreInv(0);
    assert states[6].phase.todo == [leased][1..];
    forall k | 0 <= k < |events|
      ensures Next(threshold, states[k], events[k], states[k + 1])
    {
    }
  }

  lemma {:induction false} PatchKeepsId(run: JobRun, patch: RunPatch, now: Instant)
    ensures ApplyPatch(run, patch, now).runId == run.runId
  {
  }

  lemma {:induction false} LoneClaim(threshold: Instant, run: JobRun, owner: string, s: State)
    requires IsDue(run, s.clock) && s.runs == map[run.runId := run]
    ensures Next(threshold, s, Claim(owner, 1, {run.runId}),
                 s.(runs := map[run.runId := ClaimRun(run, s.clock, owner)]))
  {
    assert Due(s.runs, s.clock) == {run.runId};
  }

  lemma {:induction false} LoneSnapshot(threshold: Instant, run: JobRun, s: State)
    requires s.phase.Began? && IsStale(run, s.phase.now, threshold) && s.runs == map[run.runId := run]
    ensures Next(threshold, s, TakeStale([run]), s.(phase := StaleLoop(s.phase.now, [run])))
  {
    assert Stale(s.runs, s.phase.now, threshold) == {run.runId};
    NamesAppend(RunKey, [], run);
    assert [] + [run] == [run];
  }
}
