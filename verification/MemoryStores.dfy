/** The in-memory store: two maps changed in place under one lock, so each method is one step. */
module MemoryStores {
  import opened Calendar
  import opened Collections
  import opened Types
  import opened Wrappers
  import opened StoreSpec

  function JobKey(job: LeylaJob): JobId {
    job.id
  }

  function JobAge(job: LeylaJob): int {
    job.createdAt
  }

  class MemoryStore {
    var jobs: map<JobId, LeylaJob>
    var runs: Runs

    ghost predicate Valid()
      reads this
    {
      && Keyed(runs)
      && forall id :: id in jobs ==> jobs[id].id == id
    }

    constructor ()
      ensures Valid() && jobs == map[] && runs == map[]
    {
      jobs, runs := map[], map[];
    }

    // -------------------------------------------------------------------------------------------
    // Jobs
    // -------------------------------------------------------------------------------------------

    method UpsertJob(job: LeylaJob)
      requires Valid()
      modifies this`jobs
      ensures Valid() && jobs == old(jobs)[job.id := job]
    {
      jobs := jobs[job.id := job];
    }

    method GetJob(id: JobId) returns (result: Result<LeylaJob>)
      ensures result == if id in jobs then Ok(jobs[id]) else Err(NotFound(id))
    {
      result := if id in jobs then Ok(jobs[id]) else Err(NotFound(id));
    }

    method RemoveJob(id: JobId) returns (result: Result<()>)
      requires Valid()
      modifies this`jobs
      ensures Valid() && jobs == old(jobs) - {id}
      ensures result == if id in old(jobs) then Ok(()) else Err(NotFound(id))
    {
      result := if id in jobs then Ok(()) else Err(NotFound(id));
      jobs := jobs - {id};
    }

    /** Every job once, oldest first. */
    method ListJobs() returns (out: seq<LeylaJob>)
      requires Valid()
      ensures Lists(jobs, JobKey, jobs.Keys, out) && SortedBy(JobAge, out)
    {
      hide Lists, SortBy, SortedBy;
      var unseen, found := jobs.Keys, [];
      ghost var seen: set<JobId> := {};
      ListsNothing(jobs, JobKey);
      while unseen != {}
        invariant seen + unseen == jobs.Keys && seen !! unseen
        invariant Lists(jobs, JobKey, seen, found)
        decreases |unseen|
      {
        var id :| id in unseen;
        ListsOne(jobs, JobKey, seen, found, id);
        unseen, seen, found := unseen - {id}, seen + {id}, found + [jobs[id]];
      }
      out := SortBy(JobAge, found);
      SortBySorts(JobAge, found);
      ListsPermuted(jobs, JobKey, seen, found, out);
    }

    // -------------------------------------------------------------------------------------------
    // Runs
    // -------------------------------------------------------------------------------------------

    method InsertRun(run: JobRun) returns (result: Result<()>)
      requires Valid()
      modifies this`runs
      ensures Valid() && InsertOutcome(old(runs), run, result, runs)
    {
      if run.runId in runs {
        return Err(Conflict(run.runId));
      }
      runs := runs[run.runId := run];
      result := Ok(());
    }

    /** Up to `limit` due runs, in whatever order the map yields them. */
    method DueIds(now: Instant, limit: nat) returns (dueIds: seq<RunId>)
      ensures Names(IdKey, dueIds) <= Due(runs, now)
      ensures |dueIds| == |Names(IdKey, dueIds)| == Min(limit, |Due(runs, now)|)
    {
      hide IsDue, Names;
      dueIds := [];
      NoNames(IdKey, dueIds);
      var unseen := runs.Keys;
      ghost var picked: set<RunId> := {};
      while unseen != {} && |dueIds| < limit
        invariant unseen <= runs.Keys
        invariant picked <= Due(runs, now) <= picked + unseen
        invariant picked !! unseen
        invariant |picked| == |dueIds| <= limit
        invariant picked == Names(IdKey, dueIds)
        decreases |unseen|
      {
        var id :| id in unseen;
        unseen := unseen - {id};
        if IsDue(runs[id], now) {
          NamesAppend(IdKey, dueIds, id);
          picked, dueIds := picked + {id}, dueIds + [id];
        }
      }
      PickedAll(picked, Due(runs, now), unseen, limit);
    }

    /** Leases up to `limit` due runs to `owner`. */
    method ClaimDueRuns(now: Instant, owner: string, limit: nat) returns (claimed: seq<JobRun>)
      requires Valid()
      modifies this`runs
      ensures Valid() && ClaimOutcome(old(runs), now, owner, limit, claimed, runs)
    {
      var leaseExpiresAt := now + LEASE;
      var dueIds := DueIds(now, limit);
      DistinctByCount(IdKey, dueIds);
      claimed := [];
      ghost var done: set<RunId> := {};
      for k := 0 to |dueIds|
        invariant done == Names(IdKey, dueIds[..k])
        invariant runs == ClaimAll(old(runs), done, now, owner)
        invariant IsListing(runs, done, claimed)
      {
        var id := dueIds[k];
        NamesPrefixStep(IdKey, dueIds, k);
        ClaimOne(old(runs), done, id, now, owner);
        var run := runs[id].(status := Leased, leaseOwner := Some(owner),
                             leaseExpiresAt := Some(leaseExpiresAt), updatedAt := now);
        ListsStep(runs, RunKey, done, claimed, run);
        runs, claimed, done := runs[id := run], claimed + [run], done + {id};
      }
      assert dueIds[..|dueIds|] == dueIds;
    }

    /** The field by field patch; `updated_at` is set even when the patch is empty. */
    static method Patched(before: JobRun, patch: RunPatch, now: Instant) returns (run: JobRun)
      ensures run == ApplyPatch(before, patch, now)
    {
      run := before;
      run := run.(status := patch.status.GetOr(run.status));
      run := run.(leaseOwner := OrElse(patch.leaseOwner, run.leaseOwner));
      run := run.(leaseExpiresAt := OrElse(patch.leaseExpiresAt, run.leaseExpiresAt));
      run := run.(dispatchedAt := OrElse(patch.dispatchedAt, run.dispatchedAt));
      run := run.(startedAt := OrElse(patch.startedAt, run.startedAt));
      run := run.(heartbeatAt := OrElse(patch.heartbeatAt, run.heartbeatAt));
      run := run.(finishedAt := OrElse(patch.finishedAt, run.finishedAt));
      run := run.(attempt := patch.attempt.GetOr(run.attempt));
      run := run.(outputJson := OrElse(patch.outputJson, run.outputJson));
      run := run.(errorJson := OrElse(patch.errorJson, run.errorJson));
      run := run.(updatedAt := now);
    }

    method UpdateRun(id: RunId, patch: RunPatch, now: Instant) returns (result: Result<()>)
      requires Valid()
      modifies this`runs
      ensures Valid() && UpdateOutcome(old(runs), id, patch, now, result, runs)
    {
      if id !in runs {
        return Err(NotFound(id));
      }
      var run := Patched(runs[id], patch, now);
      runs := runs[id := run];
      result := Ok(());
    }

    method GetRun(id: RunId) returns (result: Result<JobRun>)
      ensures result == Get(runs, id)
    {
      result := if id in runs then Ok(runs[id]) else Err(NotFound(id));
    }

    /** The runs that pass `keep`, in arbitrary order. */
    method Filtered(keep: JobRun -> bool) returns (out: seq<JobRun>)
      requires Valid()
      ensures IsListing(runs, Chosen(runs, keep), out)
    {
      hide Lists, Chosen;
      out := [];
      var unseen := runs.Keys;
      ghost var kept, wanted: set<RunId> := {}, Chosen(runs, keep);
      ListsNothing(runs, RunKey);
      assert wanted <= unseen by { ChosenWithin(runs, keep); }
      while unseen != {}
        invariant unseen <= runs.Keys && kept !! unseen
        invariant kept <= wanted <= kept + unseen
        invariant IsListing(runs, kept, out)
        decreases |unseen|
      {
        var id :| id in unseen;
        ChosenKey(runs, keep, id);
        ScanOne(kept, wanted, unseen, id);
        unseen := unseen - {id};
        if keep(runs[id]) {
          ListsOne(runs, RunKey, kept, out, id);
          kept, out := kept + {id}, out + [runs[id]];
        }
      }
      assert kept == wanted;
    }

    method ListRuns(filter: RunFilter) returns (out: seq<JobRun>)
      requires Valid()
      ensures ListOutcome(runs, filter, out)
    {
      var found := Filtered(r => Matches(r, filter));
      ghost var all := Matching(runs, filter);
      assert all == set id | id in runs && Matches(runs[id], filter);
      var sorted := SortBy(Age, found);
      SortBySorts(Age, found);
      ListsPermuted(runs, RunKey, all, found, sorted);
      ListsLeast(runs, RunKey, Age, all, sorted, ListLength(filter, |sorted|));
      out := if filter.limit.Some? && |sorted| > filter.limit.value then sorted[..filter.limit.value] else sorted;
      assert out == sorted[..ListLength(filter, |sorted|)];
    }

    method GetStaleRuns(now: Instant, threshold: Instant) returns (out: seq<JobRun>)
      requires Valid()
      ensures IsListing(runs, Stale(runs, now, threshold), out)
    {
      var cutoff := now - threshold;
      var stale := (r: JobRun) =>
        (r.status.Leased? || r.status.Running?)
        && ((r.leaseExpiresAt.Some? && r.leaseExpiresAt.value < now) || r.updatedAt < cutoff);
      out := Filtered(stale);
      assert Chosen(runs, stale) == Stale(runs, now, threshold);
    }

    method CountActiveRuns(job: JobId) returns (count: nat)
      requires Valid()
      ensures count == |ActiveRuns(runs, job)|
    {
      var active := (r: JobRun) => r.jobId == job && IsActive(r.status);
      var out := Filtered(active);
      assert Chosen(runs, active) == ActiveRuns(runs, job);
      count := |out|;
    }
  }

  /** Claiming one more run. */
  lemma {:induction false} ClaimOne(runs: Runs, done: set<RunId>, id: RunId, now: Instant, owner: string)
    requires Keyed(runs) && id in runs && id !in done
    ensures ClaimAll(runs, done, now, owner)[id] == runs[id] && runs[id].runId == id
    ensures ClaimAll(runs, done, now, owner)[id := ClaimRun(runs[id], now, owner)] ==
            ClaimAll(runs, done + {id}, now, owner)
  {
  }
}
