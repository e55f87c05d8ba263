/** Recovery: runs whose lease ran out, and retries whose delay is over, become claimable again.

    `Recovered` says what one uninterrupted call does to each run; `RecoveryManager.Recover` is the
    two-phase loop over snapshots that does it. `wall` gives the time read from the system clock
    when the run is written, which may differ from run to run. */
module Recovery {
  import opened Calendar
  import opened Collections
  import opened Types
  import opened Wrappers
  import opened Lifecycle
  import opened StoreSpec
  import opened MemoryStores

  const RETRY_DELAY: Instant := NANOS_PER_SECOND

  const ORPHAN_PATCH := NO_PATCH.(status := Some(Orphaned))
  const DEAD_LETTER_PATCH := NO_PATCH.(status := Some(DeadLetter))
  const RESCHEDULE_PATCH := NO_PATCH.(status := Some(Scheduled))

  function ReleasePatch(now: Instant): RunPatch {
    NO_PATCH.(status := Some(Scheduled), leaseOwner := Some(""), leaseExpiresAt := Some(now))
  }

  predicate Exhausted(run: JobRun) {
    run.attempt >= run.maxAttempts
  }

  predicate RetryReady(run: JobRun, now: Instant) {
    run.status.RetryWait? && (run.finishedAt.Some? ==> run.finishedAt.value + RETRY_DELAY <= now)
  }

  function ReadyRetries(runs: Runs, now: Instant): set<RunId> {
    set id | id in runs && RetryReady(runs[id], now)
  }

  // ---------------------------------------------------------------------------------------------
  // One call, run by run
  // ---------------------------------------------------------------------------------------------

  function RecoverRun(run: JobRun, now: Instant, threshold: Instant, wall: Instant): JobRun {
    if IsStale(run, now, threshold) then
      if run.status.Running?
      then run.(status := if Exhausted(run) then DeadLetter else Scheduled, updatedAt := wall)
      else run.(status := Scheduled, leaseOwner := Some(""), leaseExpiresAt := Some(now), updatedAt := wall)
    else if RetryReady(run, now) then run.(status := Scheduled, updatedAt := wall)
    else run
  }

  function RecoveredOn(runs: Runs, ids: set<RunId>, now: Instant, threshold: Instant, wall: RunId -> Instant): Runs {
    map id | id in runs :: if id in ids then RecoverRun(runs[id], now, threshold, wall(id)) else runs[id]
  }

  function Recovered(runs: Runs, now: Instant, threshold: Instant, wall: RunId -> Instant): Runs {
    map id | id in runs :: RecoverRun(runs[id], now, threshold, wall(id))
  }

  // ---------------------------------------------------------------------------------------------
  // The two-phase loop
  // ---------------------------------------------------------------------------------------------

  class RecoveryManager {
    const store: MemoryStore
    const staleThreshold: Instant

    constructor (store: MemoryStore, staleThreshold: Instant)
      ensures this.store == store && this.staleThreshold == staleThreshold
    {
      this.store, this.staleThreshold := store, staleThreshold;
    }

    method RecoverStale(run: JobRun, now: Instant, wall: Instant) returns (result: Result<()>)
      requires store.Valid() && run.runId in store.runs && store.runs[run.runId] == run
      requires IsStale(run, now, staleThreshold)
      modifies store`runs
      ensures store.Valid() && result.Ok?
      ensures store.runs == old(store.runs)[run.runId := RecoverRun(run, now, staleThreshold, wall)]
    {
      var exhausted := run.attempt >= run.maxAttempts;
      result := Ok(());
      if run.status.Running? && CanTransition(run.status, Orphaned) {
        var orphaned := store.UpdateRun(run.runId, ORPHAN_PATCH, wall);
        if orphaned.Err? { return orphaned; }
        if exhausted {
          result := store.UpdateRun(run.runId, DEAD_LETTER_PATCH, wall);
        } else {
          result := store.UpdateRun(run.runId, RESCHEDULE_PATCH, wall);
        }
      } else if run.status.Leased? {
        if exhausted {
          result := store.UpdateRun(run.runId, ReleasePatch(now), wall);
        } else {
          result := store.UpdateRun(run.runId, ReleasePatch(now), wall);
        }
      }
    }

    /** First phase: the runs a snapshot shows to be stale. */
    method RecoverStaleRuns(now: Instant, wall: RunId -> Instant) returns (result: Result<nat>)
      requires store.Valid()
      modifies store`runs
      ensures store.Valid()
      ensures store.runs == RecoveredOn(old(store.runs), Stale(old(store.runs), now, staleThreshold),
                                        now, staleThreshold, wall)
      ensures result == Ok(|Stale(old(store.runs), now, staleThreshold)|)
    {
      hide RecoverRun, IsStale;
      ghost var done: set<RunId> := {};
      var staleRuns := store.GetStaleRuns(now, staleThreshold);
      DistinctByCount(RunKey, staleRuns);
      ListedStale(store.runs, now, staleThreshold, staleRuns);
      var total: nat := 0;
      for k := 0 to |staleRuns|
        invariant store.Valid() && store.runs == RecoveredOn(old(store.runs), done, now, staleThreshold, wall)
        invariant done == Names(RunKey, staleRuns[..k]) && total == k
      {
        var run := staleRuns[k];
        NamesPrefixStep(RunKey, staleRuns, k);
        RecoverOne(old(store.runs), done, run.runId, now, staleThreshold, wall);
        var updated := RecoverStale(run, now, wall(run.runId));
        if updated.Err? { return updated.Then(total); }
        total := total + 1;
        done := done + {run.runId};
      }
      assert staleRuns[..|staleRuns|] == staleRuns;
      result := Ok(total);
    }

    /** Reschedules the waiting run if its delay is over, and says whether it was. */
    method AdvanceRetry(run: JobRun, now: Instant, wall: Instant) returns (result: Result<bool>)
      requires store.Valid() && run.runId in store.runs && store.runs[run.runId] == run && run.status.RetryWait?
      modifies store`runs
      ensures store.Valid() && result == Ok(RetryReady(run, now))
      ensures store.runs == if RetryReady(run, now)
                            then old(store.runs)[run.runId := RecoverRun(run, now, staleThreshold, wall)]
                            else old(store.runs)
    {
      if CanTransition(run.status, Scheduled) {
        var ready := if run.finishedAt.Some? then run.finishedAt.value + RETRY_DELAY <= now else true;
        if !ready {
          return Ok(false);
        }
        var updated := store.UpdateRun(run.runId, RESCHEDULE_PATCH, wall);
        return updated.Then(true);
      }
      result := Ok(false);
    }

    /** Second phase: the runs whose retry delay is over. */
    method AdvanceRetries(now: Instant, wall: RunId -> Instant) returns (result: Result<nat>)
      requires store.Valid()
      modifies store`runs
      ensures store.Valid()
      ensures store.runs == RecoveredOn(old(store.runs), ReadyRetries(old(store.runs), now), now, staleThreshold, wall)
      ensures result == Ok(|ReadyRetries(old(store.runs), now)|)
    {
      hide RecoverRun, RetryReady, ReadyRetries, ListOutcome, Names, Distinct;
      var retryRuns := store.ListRuns(RunFilter(None, Some(RetryWait), None));
      ListedRetries(store.runs, now, retryRuns);
      assert Names(RunKey, retryRuns[..0]) == {} by { NoNames(RunKey, retryRuns[..0]); }
      ghost var ready, due: set<RunId> := {}, ReadyRetries(store.runs, now);
      var total: nat := 0;
      for k := 0 to |retryRuns|
        invariant store.Valid() && store.runs == RecoveredOn(old(store.runs), ready, now, staleThreshold, wall)
        invariant ready == Names(RunKey, retryRuns[..k]) * due && total == |ready|
      {
        var run := retryRuns[k];
        ReadyStep(retryRuns, k, due);
        RecoverOne(old(store.runs), ready, run.runId, now, staleThreshold, wall);
        var advanced := AdvanceRetry(run, now, wall(run.runId));
        if advanced.Err? { return advanced.Then(total); }
        if advanced.value {
          total := total + 1;
          ready := ready + {run.runId};
        }
      }
      assert retryRuns[..|retryRuns|] == retryRuns;
      assert ready == due;
      result := Ok(total);
    }

    /** Recovers everything due for recovery, and returns how many runs that was. */
    method Recover(now: Instant, wall: RunId -> Instant) returns (result: Result<nat>)
      requires store.Valid()
      modifies store`runs
      ensures store.Valid() && store.runs == Recovered(old(store.runs), now, staleThreshold, wall)
      ensures result == Ok(|Stale(old(store.runs), now, staleThreshold)| + |ReadyRetries(old(store.runs), now)|)
    {
      var recovered := RecoverStaleRuns(now, wall);
      if recovered.Err? { return recovered; }
      var advanced := AdvanceRetries(now, wall);
      if advanced.Err? { return advanced; }
      PhasesCompose(old(store.runs), now, staleThreshold, wall);
      result := Ok(recovered.value + advanced.value);
    }
  }

  lemma {:induction false} RecoverOne(runs: Runs, done: set<RunId>, id: RunId, now: Instant, threshold: Instant,
                                      wall: RunId -> Instant)
    requires Keyed(runs) && id in runs && id !in done
    ensures RecoveredOn(runs, done, now, threshold, wall)[id] == runs[id] && runs[id].runId == id
    ensures RecoveredOn(runs, done, now, threshold, wall)[id := RecoverRun(runs[id], now, threshold, wall(id))]
            == RecoveredOn(runs, done + {id}, now, threshold, wall)
  {
  }

  lemma {:induction false} ListedStale(runs: Runs, now: Instant, threshold: Instant, out: seq<JobRun>)
    requires IsListing(runs, Stale(runs, now, threshold), out)
    ensures forall k :: 0 <= k < |out| ==>
              && out[k].runId in runs && runs[out[k].runId] == out[k] && IsStale(out[k], now, threshold)
  {
    forall k | 0 <= k < |out|
      ensures out[k].runId in runs && runs[out[k].runId] == out[k] && IsStale(out[k], now, threshold)
    {
      assert out[k] in out && RunKey(out[k]) in Names(RunKey, out);
    }
  }

  lemma {:induction false} ListedRetries(runs: Runs, now: Instant, out: seq<JobRun>)
    requires Keyed(runs) && ListOutcome(runs, RunFilter(None, Some(RetryWait), None), out)
    ensures Distinct(RunKey, out)
    ensures forall k :: 0 <= k < |out| ==>
              && out[k].runId in runs && runs[out[k].runId] == out[k] && out[k].status.RetryWait?
              && (out[k].runId in ReadyRetries(runs, now) <==> RetryReady(out[k], now))
    ensures ReadyRetries(runs, now) <= Names(RunKey, out)
  {
    var all := Matching(runs, RunFilter(None, Some(RetryWait), None));
    CardinalityAtMost(Ids(out), all);
    DistinctByCount(RunKey, out);
    forall k | 0 <= k < |out|
      ensures && out[k].runId in runs && runs[out[k].runId] == out[k] && out[k].status.RetryWait?
              && (out[k].runId in ReadyRetries(runs, now) <==> RetryReady(out[k], now))
    {
      assert out[k] in out && RunKey(out[k]) in Names(RunKey, out);
    }
  }

  lemma {:induction false} ReadyStep(out: seq<JobRun>, k: nat, due: set<RunId>)
    requires k < |out| && Distinct(RunKey, out)
    ensures out[k].runId in due ==> Names(RunKey, out[..k + 1]) * due == Names(RunKey, out[..k]) * due + {out[k].runId}
    ensures out[k].runId !in due ==> Names(RunKey, out[..k + 1]) * due == Names(RunKey, out[..k]) * due
    ensures out[k].runId !in Names(RunKey, out[..k])
  {
    NamesPrefixStep(RunKey, out, k);
  }

  /** The first phase neither touches nor adds runs that wait for a retry. */
  lemma {:induction false} PhasesCompose(runs: Runs, now: Instant, threshold: Instant, wall: RunId -> Instant)
    ensures var between := RecoveredOn(runs, Stale(runs, now, threshold), now, threshold, wall);
            && ReadyRetries(between, now) == ReadyRetries(runs, now)
            && RecoveredOn(between, ReadyRetries(between, now), now, threshold, wall)
               == Recovered(runs, now, threshold, wall)
  {
    var between := RecoveredOn(runs, Stale(runs, now, threshold), now, threshold, wall);
    assert ReadyRetries(between, now) == ReadyRetries(runs, now);
  }

  // ---------------------------------------------------------------------------------------------
  // Complete, exact, idempotent
  // ---------------------------------------------------------------------------------------------

  /** Afterwards nothing is stale and no retry is ready. */
  lemma {:induction false} RecoveryComplete(runs: Runs, now: Instant, threshold: Instant, wall: RunId -> Instant)
    ensures Stale(Recovered(runs, now, threshold, wall), now, threshold) == {}
    ensures ReadyRetries(Recovered(runs, now, threshold, wall), now) == {}
  {
    var after := Recovered(runs, now, threshold, wall);
    forall id | id in after
      ensures !IsStale(after[id], now, threshold) && !RetryReady(after[id], now)
    {
    }
  }

  /** A second call at the same time finds nothing to do, whatever the system clock says by then. */
  lemma {:induction false} RecoveryIdempotent(runs: Runs, now: Instant, threshold: Instant, wall: RunId -> Instant,
                                              later: RunId -> Instant)
    ensures var after := Recovered(runs, now, threshold, wall);
            Recovered(after, now, threshold, later) == after
  {
    RecoveryComplete(runs, now, threshold, wall);
    var after := Recovered(runs, now, threshold, wall);
    forall id | id in after
      ensures !IsStale(after[id], now, threshold) && !RetryReady(after[id], now)
    {
      assert id !in Stale(after, now, threshold) && id !in ReadyRetries(after, now);
    }
  }

  /** What becomes of each run: a stale running one is given up exactly when its attempts are used
      up; every other stale run and every ready retry is scheduled again; the rest is untouched.
      Nothing is left orphaned, and each change goes along edges of the lifecycle graph. */
  lemma {:induction false} RecoveryVerdict(run: JobRun, now: Instant, threshold: Instant, wall: Instant)
    returns (path: seq<RunStatus>)
    ensures var after := RecoverRun(run, now, threshold, wall);
            && (IsStale(run, now, threshold) && run.status.Running? ==>
                  if run.attempt >= run.maxAttempts then after.status.DeadLetter? else after.status.Scheduled?)
            && (IsStale(run, now, threshold) && run.status.Leased? ==>
                  after.status.Scheduled? && after.leaseOwner == Some("") && after.leaseExpiresAt == Some(now))
            && (after == run <== !IsStale(run, now, threshold) && !RetryReady(run, now))
            && (after.status != run.status <==> IsStale(run, now, threshold) || RetryReady(run, now))
            && (after.status.Orphaned? ==> run.status.Orphaned?)
            && after.attempt == run.attempt && after.scheduledFor == run.scheduledFor && after.runId == run.runId
            && |path| <= 3 && path != [] && path[0] == run.status && path[|path| - 1] == after.status && IsPath(path)
  {
    var after := RecoverRun(run, now, threshold, wall);
    path := if after.status == run.status then [run.status]
            else if run.status.Running? then [Running, Orphaned, after.status]
            else [run.status, Scheduled];
  }
}
