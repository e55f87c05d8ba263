/** What each run operation of a store means, as a function of the map from run id to run.

    `HashMap` order and SQLite row order are arbitrary, so an operation that selects or lists runs
    is a relation: any selection and any order its outcome predicate admits may be observed. */
module StoreSpec {
  import opened Calendar
  import opened Collections
  import opened Types
  import opened Wrappers

  type Runs = map<RunId, JobRun>

  const LEASE: Instant := 30 * NANOS_PER_SECOND

  /** Every run is stored under its own id. */
  ghost predicate Keyed(runs: Runs) {
    forall id :: id in runs ==> runs[id].runId == id
  }

  function Min(a: nat, b: nat): nat {
    if a < b then a else b
  }

  function RunKey(run: JobRun): RunId {
    run.runId
  }

  ghost function Ids(out: seq<JobRun>): set<RunId> {
    Names(RunKey, out)
  }

  /** `out` lists the runs with the given ids, each once, in some order. */
  ghost predicate IsListing(runs: Runs, ids: set<RunId>, out: seq<JobRun>) {
    Lists(runs, RunKey, ids, out)
  }

  // ---------------------------------------------------------------------------------------------
  // Insert and get
  // ---------------------------------------------------------------------------------------------

  ghost predicate InsertOutcome(runs: Runs, run: JobRun, result: Result<()>, runs': Runs) {
    if run.runId in runs
    then result == Err(Conflict(run.runId)) && runs' == runs
    else result == Ok(()) && runs' == runs[run.runId := run]
  }

  function Get(runs: Runs, id: RunId): Result<JobRun> {
    if id in runs then Ok(runs[id]) else Err(NotFound(id))
  }

  // ---------------------------------------------------------------------------------------------
  // Claim
  // ---------------------------------------------------------------------------------------------

  predicate IsDue(run: JobRun, now: Instant) {
    run.status.Scheduled? && run.scheduledFor <= now
  }

  function Due(runs: Runs, now: Instant): set<RunId> {
    set id | id in runs && IsDue(runs[id], now)
  }

  function ClaimRun(run: JobRun, now: Instant, owner: string): JobRun {
    run.(status := Leased, leaseOwner := Some(owner), leaseExpiresAt := Some(now + LEASE), updatedAt := now)
  }

  function ClaimAll(runs: Runs, ids: set<RunId>, now: Instant, owner: string): Runs {
    map id | id in runs :: if id in ids then ClaimRun(runs[id], now, owner) else runs[id]
  }

  lemma {:induction false} ClaimKeepsKeys(runs: Runs, ids: set<RunId>, now: Instant, owner: string)
    ensures ClaimAll(runs, ids, now, owner).Keys == runs.Keys
    ensures Keyed(runs) ==> Keyed(ClaimAll(runs, ids, now, owner))
  {
  }

  /** A claim may take any due runs, as many as there are up to the limit. */
  predicate ValidPick(runs: Runs, now: Instant, limit: nat, ids: set<RunId>) {
    ids <= Due(runs, now) && |ids| == Min(limit, |Due(runs, now)|)
  }

  ghost predicate ClaimOutcome(runs: Runs, now: Instant, owner: string, limit: nat, claimed: seq<JobRun>, runs': Runs) {
    && ValidPick(runs, now, limit, Ids(claimed))
    && runs' == ClaimAll(runs, Ids(claimed), now, owner)
    && IsListing(runs', Ids(claimed), claimed)
  }

  // ---------------------------------------------------------------------------------------------
  // Update
  // ---------------------------------------------------------------------------------------------

  function OrElse<T>(patched: Option<T>, current: Option<T>): Option<T> {
    if patched.Some? then patched else current
  }

  function ApplyPatch(run: JobRun, patch: RunPatch, now: Instant): JobRun {
    run.(status := patch.status.GetOr(run.status),
         leaseOwner := OrElse(patch.leaseOwner, run.leaseOwner),
         leaseExpiresAt := OrElse(patch.leaseExpiresAt, run.leaseExpiresAt),
         dispatchedAt := OrElse(patch.dispatchedAt, run.dispatchedAt),
         startedAt := OrElse(patch.startedAt, run.startedAt),
         heartbeatAt := OrElse(patch.heartbeatAt, run.heartbeatAt),
         finishedAt := OrElse(patch.finishedAt, run.finishedAt),
         attempt := patch.attempt.GetOr(run.attempt),
         outputJson := OrElse(patch.outputJson, run.outputJson),
         errorJson := OrElse(patch.errorJson, run.errorJson),
         updatedAt := now)
  }

  ghost predicate UpdateOutcome(runs: Runs, id: RunId, patch: RunPatch, now: Instant, result: Result<()>, runs': Runs) {
    if id in runs
    then result == Ok(()) && runs' == runs[id := ApplyPatch(runs[id], patch, now)]
    else result == Err(NotFound(id)) && runs' == runs
  }

  // ---------------------------------------------------------------------------------------------
  // Stale runs and active runs
  // ---------------------------------------------------------------------------------------------

  predicate IsStale(run: JobRun, now: Instant, threshold: Instant) {
    && (run.status.Leased? || run.status.Running?)
    && ((run.leaseExpiresAt.Some? && run.leaseExpiresAt.value < now) || run.updatedAt < now - threshold)
  }

  function Stale(runs: Runs, now: Instant, threshold: Instant): set<RunId> {
    set id | id in runs && IsStale(runs[id], now, threshold)
  }

  predicate IsActive(status: RunStatus) {
    status.Leased? || status.Dispatched? || status.Running?
  }

  function ActiveRuns(runs: Runs, job: JobId): set<RunId> {
    set id | id in runs && runs[id].jobId == job && IsActive(runs[id].status)
  }

  // ---------------------------------------------------------------------------------------------
  // Filtered listing
  // ---------------------------------------------------------------------------------------------

  predicate Matches(run: JobRun, filter: RunFilter) {
    && (filter.jobId.Some? ==> run.jobId == filter.jobId.value)
    && (filter.status.Some? ==> run.status == filter.status.value)
  }

  function Matching(runs: Runs, filter: RunFilter): set<RunId> {
    set id | id in runs && Matches(runs[id], filter)
  }

  function ListLength(filter: RunFilter, matching: nat): nat {
    if filter.limit.Some? then Min(filter.limit.value, matching) else matching
  }

  function Age(run: JobRun): int {
    -run.createdAt
  }

  /** The newest matching runs, newest first. */
  ghost predicate ListOutcome(runs: Runs, filter: RunFilter, out: seq<JobRun>) {
    var all := Matching(runs, filter);
    && Ids(out) <= all
    && IsListing(runs, Ids(out), out)
    && |out| == ListLength(filter, |all|)
    && SortedBy(Age, out)
    && forall id, i :: id in all - Ids(out) && 0 <= i < |out| ==> Age(out[i]) <= Age(runs[id])
  }

  // ---------------------------------------------------------------------------------------------
  // Selecting up to a limit
  // ---------------------------------------------------------------------------------------------

  /** A scan that stops at the end or at the limit has picked as many as there are, up to the limit. */
  lemma {:induction false} PickedAll(picked: set<RunId>, due: set<RunId>, unseen: set<RunId>, limit: nat)
    requires picked <= due <= picked + unseen && |picked| <= limit
    requires unseen == {} || |picked| == limit
    ensures |picked| == Min(limit, |due|)
  {
    CardinalityAtMost(picked, due);
    if unseen == {} {
      assert picked == due;
    }
  }

  function IdKey(id: RunId): RunId {
    id
  }
}
