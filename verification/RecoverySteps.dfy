/** The store calls of one recovery, when no other step comes in between, amount to the one-shot
    function that the recovery loop is proved to compute. */
module RecoverySteps {
  import opened Calendar
  import opened Collections
  import opened Types
  import opened StoreSpec
  import opened Recovery
  import opened LeaseProtocol

  predicate RecoveryCall(e: Event) {
    e.TakeStale? || e.RecoverNext? || e.FinishRescue? || e.TakeRetries? || e.AdvanceNext?
  }

  /** The runs after all of `start` but the runs in `todo` was dealt with. */
  ghost function Done(start: Runs, ids: set<RunId>, now: Instant, threshold: Instant): Runs {
    RecoveredOn(start, ids, now, threshold, _ => now)
  }

  ghost predicate Pending(start: Runs, ids: set<RunId>, todo: seq<JobRun>) {
    && Distinct(RunKey, todo)
    && forall run :: run in todo ==> run.runId in ids && run.runId in start && start[run.runId] == run
  }

  /** How far an uninterrupted recovery of `start` has come. */
  ghost predicate Partial(start: Runs, threshold: Instant, s: State) {
    && Keyed(start) && !s.phase.Idle? && s.phase.now == s.clock
    && var (now, stale) := (s.clock, Stale(start, s.clock, threshold));
       match s.phase
       case Began(_) => s.runs == start
       case StaleLoop(_, todo) =>
         && Pending(start, stale, todo)
         && s.runs == Done(start, stale - Names(RunKey, todo), now, threshold)
       case Rescuing(_, run, todo) =>
         && Pending(start, stale, [run] + todo) && run.status.Running?
         && s.runs == Done(start, stale - Names(RunKey, [run] + todo), now, threshold)
                      [run.runId := ApplyPatch(run, ORPHAN_PATCH, now)]
       case RetryLoop(_, todo) =>
         && Pending(start, Matching(start, RETRY_FILTER), todo)
         && s.runs == Done(start, stale + (ReadyRetries(start, now) - Names(RunKey, todo)), now, threshold)
       case _ => true
  }

  lemma {:induction false} WritesRecoverRun(run: JobRun, now: Instant, threshold: Instant)
    requires IsStale(run, now, threshold)
    ensures run.status.Leased? || run.status.Running?
    ensures run.status.Leased? ==> ApplyPatch(run, FirstPatch(run, now), now) == RecoverRun(run, now, threshold, now)
    ensures run.status.Running? ==>
              && FirstPatch(run, now) == ORPHAN_PATCH
              && ApplyPatch(ApplyPatch(run, ORPHAN_PATCH, now), SecondPatch(run), now)
                 == RecoverRun(run, now, threshold, now)
  {
  }

  lemma {:induction false} StaleSplit(start: Runs, ids: set<RunId>, todo: seq<JobRun>)
    requires todo != [] && Pending(start, ids, todo)
    ensures Pending(start, ids, todo[1..])
    ensures todo[0].runId in ids && todo[0].runId in start && start[todo[0].runId] == todo[0]
    ensures ids - Names(RunKey, todo[1..]) == ids - Names(RunKey, todo) + {todo[0].runId}
    ensures todo[0].runId in Names(RunKey, todo)
  {
    HeadIsNotInTail(todo);
    TodoTail(todo);
    assert todo[0] in todo;
    assert todo[0].runId !in Names(RunKey, todo[1..]);
  }

  lemma {:induction false} PartialStale(start: Runs, threshold: Instant, s: State, e: Event, s': State)
    requires Partial(start, threshold, s) && Next(threshold, s, e, s') && (e.RecoverNext? || e.FinishRescue?)
    ensures Partial(start, threshold, s')
  {
    hide ApplyPatch, IsStale, RecoverRun, RecoveredOn, SecondPatch, IsListing;
    var (now, stale) := (s.clock, Stale(start, s.clock, threshold));
    var todo := Todo(s.phase);
    StaleSplit(start, stale, todo);
    var run, rest := todo[0], todo[1..];
    WritesRecoverRun(run, now, threshold);
    RecoverOne(start, stale - Names(RunKey, todo), run.runId, now, threshold, _ => now);
    if e.FinishRescue? {
      assert rest == s.phase.todo;
      var done := Done(start, stale - Names(RunKey, todo), now, threshold);
      var (orphan, after) := (ApplyPatch(run, ORPHAN_PATCH, now), RecoverRun(run, now, threshold, now));
      assert done[run.runId := orphan][run.runId := after] == done[run.runId := after];
    } else if run.status.Running? {
      assert [run] + rest == todo;
    }
  }

  /** The first phase neither adds nor touches a run that waits for a retry. */
  lemma {:induction false} WaitingUntouched(start: Runs, now: Instant, threshold: Instant)
    ensures var between := Done(start, Stale(start, now, threshold), now, threshold);
            && Matching(between, RETRY_FILTER) == Matching(start, RETRY_FILTER)
            && forall id :: id in Matching(start, RETRY_FILTER) ==> id in between && between[id] == start[id]
  {
  }

  lemma {:induction false} RetriesListed(start: Runs, threshold: Instant, s: State, e: Event, s': State)
    requires Partial(start, threshold, s) && Next(threshold, s, e, s') && e.TakeRetries?
    ensures Partial(start, threshold, s')
  {
    hide IsStale, RecoveredOn, IsListing, Matching;
    var (now, stale) := (s.clock, Stale(start, s.clock, threshold));
    var waiting := Matching(start, RETRY_FILTER);
    NoNames(RunKey, s.phase.todo);
    assert stale - {} == stale;
    WaitingUntouched(start, now, threshold);
    ListedRuns(s.runs, waiting, e.retries);
    NamesListed(s.runs, waiting, e.retries);
    ReadyWait(start, now);
    assert stale + (ReadyRetries(start, now) - waiting) == stale;
  }

  lemma {:induction false} NamesListed(runs: Runs, ids: set<RunId>, out: seq<JobRun>)
    requires IsListing(runs, ids, out)
    ensures Names(RunKey, out) == ids
  {
  }

  lemma {:induction false} ReadyWait(runs: Runs, now: Instant)
    ensures ReadyRetries(runs, now) <= Matching(runs, RETRY_FILTER)
    ensures forall id :: id in Matching(runs, RETRY_FILTER) ==> id in runs && runs[id].status.RetryWait?
  {
  }

  lemma {:induction false} PartialRetry(start: Runs, threshold: Instant, s: State, e: Event, s': State)
    requires Partial(start, threshold, s) && Next(threshold, s, e, s') && e.AdvanceNext?
    ensures Partial(start, threshold, s')
  {
    hide IsListing, RecoveredOn;
    var (now, stale) := (s.clock, Stale(start, s.clock, threshold));
    var todo, ready := s.phase.todo, ReadyRetries(start, s.clock);
    StaleSplit(start, Matching(start, RETRY_FILTER), todo);
    var run := todo[0];
    var done := stale + (ready - Names(RunKey, todo));
    RecoverOne(start, done, run.runId, now, threshold, _ => now);
    if RetryReady(run, now) {
      assert stale + (ready - Names(RunKey, todo[1..])) == done + {run.runId};
    } else {
      assert stale + (ready - Names(RunKey, todo[1..])) == done;
    }
  }

  lemma {:induction false} PartialStep(start: Runs, threshold: Instant, s: State, e: Event, s': State)
    requires Partial(start, threshold, s) && Next(threshold, s, e, s') && RecoveryCall(e)
    ensures Partial(start, threshold, s')
  {
    match e
    case RecoverNext => PartialStale(start, threshold, s, e, s');
    case FinishRescue => PartialStale(start, threshold, s, e, s');
    case TakeRetries(_) => RetriesListed(start, threshold, s, e, s');
    case AdvanceNext => PartialRetry(start, threshold, s, e, s');
    case TakeStale(stale) =>
      ListedRuns(s.runs, Stale(s.runs, s.clock, threshold), stale);
      assert Stale(start, s.clock, threshold) - Names(RunKey, stale) == {};
      assert s.runs == Done(start, {}, s.clock, threshold);
  }

  lemma {:induction false} PartialAlways(threshold: Instant, states: seq<State>, events: seq<Event>, i: nat, j: nat)
    requires Behaviour(threshold, states, events) && i < j <= |events| && events[i].BeginRecovery?
    requires forall k :: i < k < j ==> RecoveryCall(events[k])
    ensures Partial(states[i].runs, threshold, states[j]) && states[j].clock == states[i].clock
  {
    hide Inv, Partial, IsStale, IsListing, ApplyPatch;
    assert Next(threshold, states[j - 1], events[j - 1], states[j]);
    if j == i + 1 {
      InvAlways(threshold, states, events, i);
      assert Partial(states[i].runs, threshold, states[j]) by {
        Begun(states[i], states[j], threshold);
      }
    } else {
      PartialAlways(threshold, states, events, i, j - 1);
      PartialStep(states[i].runs, threshold, states[j - 1], events[j - 1], states[j]);
    }
  }

  lemma {:induction false} Begun(s: State, s': State, threshold: Instant)
    requires Inv(s) && s' == s.(phase := Began(s.clock))
    ensures Partial(s.runs, threshold, s')
  {
  }

  /** Uninterrupted, the separate steps of a recovery do to the runs exactly what the function does
      for which completeness, exactness and idempotence are proved. */
  lemma {:induction false} UninterruptedRecovery(threshold: Instant, states: seq<State>, events: seq<Event>,
                                                 i: nat, j: nat)
    requires Behaviour(threshold, states, events) && i < j < |events|
    requires events[i].BeginRecovery? && events[j].EndRecovery?
    requires forall k :: i < k < j ==> RecoveryCall(events[k])
    ensures states[j + 1].runs == Recovered(states[i].runs, states[i].clock, threshold, _ => states[i].clock)
    ensures states[j + 1].phase.Idle? && states[j + 1].clock == states[i].clock
  {
    hide Inv;
    PartialAlways(threshold, states, events, i, j);
    assert Next(threshold, states[j], events[j], states[j + 1]);
    NoNames(RunKey, states[j].phase.todo);
    var (start, now) := (states[i].runs, states[i].clock);
    assert states[j].runs == Done(start, Stale(start, now, threshold) + ReadyRetries(start, now), now, threshold);
  }
}
