/** The `job_runs` table: runs as rows of text columns, and the SQL statements on them.

    Every statement below looks only at the columns. The lemmas say that on a table written by
    the store each statement does to the rows what the run operation does to the runs. */
module Rows {
  import opened Calendar
  import opened Collections
  import opened Types
  import opened Wrappers
  import opened StoreSpec
  import opened Timestamps

  datatype Row = Row(
    runId: string,
    jobId: string,
    scheduledFor: string,
    status: string,
    attempt: u32,
    maxAttempts: u32,
    leaseOwner: Option<string>,
    leaseExpiresAt: Option<string>,
    dispatchedAt: Option<string>,
    startedAt: Option<string>,
    heartbeatAt: Option<string>,
    finishedAt: Option<string>,
    inputJson: Option<string>,
    outputJson: Option<string>,
    errorJson: Option<string>,
    createdAt: string,
    updatedAt: string)

  type Table = map<RunId, Row>

  /** How many placeholders a statement of the bundled SQLite may have. */
  const MAX_PLACEHOLDERS := 32_766

  // ---------------------------------------------------------------------------------------------
  // Writing and reading a row
  // ---------------------------------------------------------------------------------------------

  function StatusToStr(s: RunStatus): string {
    match s
    case Scheduled => "scheduled"
    case Leased => "leased"
    case Dispatched => "dispatched"
    case Running => "running"
    case Succeeded => "succeeded"
    case Failed => "failed"
    case RetryWait => "retry_wait"
    case DeadLetter => "dead_letter"
    case Cancelled => "cancelled"
    case TimedOut => "timed_out"
    case Orphaned => "orphaned"
  }

  function StrToStatus(s: string): Result<RunStatus> {
    if s == "scheduled" then Ok(Scheduled)
    else if s == "leased" then Ok(Leased)
    else if s == "dispatched" then Ok(Dispatched)
    else if s == "running" then Ok(Running)
    else if s == "succeeded" then Ok(Succeeded)
    else if s == "failed" then Ok(Failed)
    else if s == "retry_wait" then Ok(RetryWait)
    else if s == "dead_letter" then Ok(DeadLetter)
    else if s == "cancelled" then Ok(Cancelled)
    else if s == "timed_out" then Ok(TimedOut)
    else if s == "orphaned" then Ok(Orphaned)
    else Err(Internal("unknown variant: " + s))
  }

  predicate OptFourDigitYear(t: Option<Instant>) {
    t.Some? ==> FourDigitYear(t.value)
  }

  /** Every instant of the run has a four-digit year. */
  predicate Storable(run: JobRun) {
    && FourDigitYear(run.scheduledFor) && FourDigitYear(run.createdAt) && FourDigitYear(run.updatedAt)
    && OptFourDigitYear(run.leaseExpiresAt) && OptFourDigitYear(run.dispatchedAt)
    && OptFourDigitYear(run.startedAt) && OptFourDigitYear(run.heartbeatAt) && OptFourDigitYear(run.finishedAt)
  }

  predicate StorablePatch(patch: RunPatch) {
    && OptFourDigitYear(patch.leaseExpiresAt) && OptFourDigitYear(patch.dispatchedAt)
    && OptFourDigitYear(patch.startedAt) && OptFourDigitYear(patch.heartbeatAt) && OptFourDigitYear(patch.finishedAt)
  }

  function RunToRow(run: JobRun): Row {
    Row(run.runId, run.jobId, DtToStr(run.scheduledFor), StatusToStr(run.status), run.attempt, run.maxAttempts,
        run.leaseOwner, OptDtToStr(run.leaseExpiresAt), OptDtToStr(run.dispatchedAt), OptDtToStr(run.startedAt),
        OptDtToStr(run.heartbeatAt), OptDtToStr(run.finishedAt), run.inputJson, run.outputJson, run.errorJson,
        DtToStr(run.createdAt), DtToStr(run.updatedAt))
  }

  function ParseOptDt(s: Option<string>): Result<Option<Instant>> {
    if s.None? then Ok(None)
    else
      var t :- StrToDt(s.value);
      Ok(Some(t))
  }

  function RowToRun(row: Row): Result<JobRun> {
    var scheduledFor :- StrToDt(row.scheduledFor);
    var status :- StrToStatus(row.status);
    var leaseExpiresAt :- ParseOptDt(row.leaseExpiresAt);
    var dispatchedAt :- ParseOptDt(row.dispatchedAt);
    var startedAt :- ParseOptDt(row.startedAt);
    var heartbeatAt :- ParseOptDt(row.heartbeatAt);
    var finishedAt :- ParseOptDt(row.finishedAt);
    var createdAt :- StrToDt(row.createdAt);
    var updatedAt :- StrToDt(row.updatedAt);
    Ok(JobRun(row.runId, row.jobId, scheduledFor, status, row.attempt, row.maxAttempts, row.leaseOwner,
              leaseExpiresAt, dispatchedAt, startedAt, heartbeatAt, finishedAt,
              row.inputJson, row.outputJson, row.errorJson, createdAt, updatedAt))
  }

  // ---------------------------------------------------------------------------------------------
  // SQL conditions
  // ---------------------------------------------------------------------------------------------

  /** SQL's three-valued logic: a comparison with NULL is unknown. */
  datatype Truth = True | False | Unknown

  function SqlLess(a: Option<string>, b: string): Truth {
    if a.None? then Unknown else if TextLess(a.value, b) then True else False
  }

  function SqlOr(a: Truth, b: Truth): Truth {
    if a.True? || b.True? then True else if a.Unknown? || b.Unknown? then Unknown else False
  }

  predicate WhereDue(row: Row, now: string) {
    row.status == "scheduled" && TextAtMost(row.scheduledFor, now)
  }

  predicate WhereStale(row: Row, now: string, cutoff: string) {
    && (row.status == "leased" || row.status == "running")
    && SqlOr(SqlLess(row.leaseExpiresAt, now), SqlLess(Some(row.updatedAt), cutoff)).True?
  }

  predicate WhereActive(row: Row, job: string) {
    row.jobId == job && (row.status == "leased" || row.status == "dispatched" || row.status == "running")
  }

  predicate WhereMatches(row: Row, filter: RunFilter) {
    && (filter.jobId.Some? ==> row.jobId == filter.jobId.value)
    && (filter.status.Some? ==> row.status == StatusToStr(filter.status.value))
  }

  function SelectDue(rows: Table, now: string): set<RunId> {
    set id | id in rows && WhereDue(rows[id], now)
  }

  function SelectStale(rows: Table, now: string, cutoff: string): set<RunId> {
    set id | id in rows && WhereStale(rows[id], now, cutoff)
  }

  function SelectActive(rows: Table, job: string): set<RunId> {
    set id | id in rows && WhereActive(rows[id], job)
  }

  function SelectMatching(rows: Table, filter: RunFilter): set<RunId> {
    set id | id in rows && WhereMatches(rows[id], filter)
  }

  // ---------------------------------------------------------------------------------------------
  // SQL updates
  // ---------------------------------------------------------------------------------------------

  function ClaimRow(row: Row, owner: string, leaseExpiresAt: string, now: string): Row {
    row.(status := "leased", leaseOwner := Some(owner), leaseExpiresAt := Some(leaseExpiresAt), updatedAt := now)
  }

  function ClaimRows(rows: Table, ids: set<RunId>, owner: string, leaseExpiresAt: string, now: string): Table {
    map id | id in rows :: if id in ids then ClaimRow(rows[id], owner, leaseExpiresAt, now) else rows[id]
  }

  /** One `UPDATE` per patched column, each of which also sets `updated_at`: none, no change. */
  function PatchRow(row: Row, patch: RunPatch, now: string): Row {
    if patch == NO_PATCH then row
    else
      row.(status := if patch.status.Some? then StatusToStr(patch.status.value) else row.status,
           leaseOwner := OrElse(patch.leaseOwner, row.leaseOwner),
           leaseExpiresAt := OrElse(OptDtToStr(patch.leaseExpiresAt), row.leaseExpiresAt),
           dispatchedAt := OrElse(OptDtToStr(patch.dispatchedAt), row.dispatchedAt),
           startedAt := OrElse(OptDtToStr(patch.startedAt), row.startedAt),
           heartbeatAt := OrElse(OptDtToStr(patch.heartbeatAt), row.heartbeatAt),
           finishedAt := OrElse(OptDtToStr(patch.finishedAt), row.finishedAt),
           attempt := patch.attempt.GetOr(row.attempt),
           outputJson := OrElse(patch.outputJson, row.outputJson),
           errorJson := OrElse(patch.errorJson, row.errorJson),
           updatedAt := now)
  }

  // ---------------------------------------------------------------------------------------------
  // Round trip
  // ---------------------------------------------------------------------------------------------

  lemma {:induction false} StatusRoundTrip(s: RunStatus, t: RunStatus)
    ensures StrToStatus(StatusToStr(s)) == Ok(s)
    ensures StatusToStr(s) == StatusToStr(t) <==> s == t
  {
    StatusText(s);
    StatusText(t);
  }

  lemma {:induction false} StatusText(s: RunStatus)
    ensures StrToStatus(StatusToStr(s)) == Ok(s)
  {
    // Two of the names of equal length differ in their first or second letter.
    assert "dispatched"[0] == 'd' && "retry_wait"[0] == 'r';
    assert "succeeded"[1] == 'u' && "scheduled"[1] == 'c' && "cancelled"[1] == 'a' && "timed_out"[1] == 'i';
    assert "leased"[0] == 'l' && "failed"[0] == 'f';
  }

  lemma {:induction false} OptRoundTrip(t: Option<Instant>)
    ensures OptFourDigitYear(t) ==> ParseOptDt(OptDtToStr(t)) == Ok(t)
    ensures !OptFourDigitYear(t) ==> ParseOptDt(OptDtToStr(t)).Err? && ParseOptDt(OptDtToStr(t)).error.Internal?
  {
    if t.Some? {
      TimestampRoundTrip(t.value);
    }
  }

  /** Round trip: reading back the columns written for a run gives the same run, absent fields
      included, exactly if all its instants have four-digit years, and is an error otherwise. */
  lemma {:induction false} RowRoundTrip(run: JobRun)
    ensures RowToRun(RunToRow(run)) == Ok(run) <==> Storable(run)
    ensures !Storable(run) ==> RowToRun(RunToRow(run)).Err? && RowToRun(RunToRow(run)).error.Internal?
  {
    hide DtToStr, StrToDt, OptDtToStr, ParseOptDt, FourDigitYear, OptFourDigitYear, StatusToStr, StrToStatus;
    TimestampRoundTrip(run.scheduledFor);
    TimestampRoundTrip(run.createdAt);
    TimestampRoundTrip(run.updatedAt);
    OptRoundTrip(run.leaseExpiresAt);
    OptRoundTrip(run.dispatchedAt);
    OptRoundTrip(run.startedAt);
    OptRoundTrip(run.heartbeatAt);
    OptRoundTrip(run.finishedAt);
    StatusText(run.status);
  }

  // ---------------------------------------------------------------------------------------------
  // Each condition and update on a written row is the one on the run
  // ---------------------------------------------------------------------------------------------

  /** What the claim query takes for due. */
  predicate DueByText(run: JobRun, now: Instant) {
    run.status.Scheduled? && (run.scheduledFor <= now || YEAR_10000 <= run.scheduledFor)
  }

  /** The claim query finds the due runs, and the scheduled ones past year 9999 besides; these cannot
      be read back. */
  lemma {:induction false} WhereDueMeaning(run: JobRun, now: Instant)
    requires FourDigitYear(now)
    ensures WhereDue(RunToRow(run), DtToStr(now)) <==> DueByText(run, now)
    ensures (WhereDue(RunToRow(run), DtToStr(now)) <==> IsDue(run, now)) <==>
            !(run.status.Scheduled? && YEAR_10000 <= run.scheduledFor)
    ensures YEAR_10000 <= run.scheduledFor ==> RowToRun(RunToRow(run)).Err?
  {
    hide StatusToStr, DtToStr, RowToRun, TextLess;
    OrderEmbeddingLimit(run.scheduledFor, now);
    StatusRoundTrip(run.status, Scheduled);
    RowRoundTrip(run);
  }

  /** What the stale scan takes for stale. */
  predicate StaleByText(run: JobRun, now: Instant, threshold: Instant) {
    && (run.status.Leased? || run.status.Running?)
    && (|| (run.leaseExpiresAt.Some? && (run.leaseExpiresAt.value < now || YEAR_10000 <= run.leaseExpiresAt.value))
        || run.updatedAt < now - threshold || YEAR_10000 <= run.updatedAt)
  }

  /** SQL's NULL and the absent lease agree: neither makes a run stale. */
  lemma {:induction false} LeaseTextExpired(lease: Option<Instant>, updated: Instant, now: Instant, cutoff: Instant)
    requires FourDigitYear(now) && FourDigitYear(cutoff)
    ensures SqlOr(SqlLess(OptDtToStr(lease), DtToStr(now)), SqlLess(Some(DtToStr(updated)), DtToStr(cutoff))).True?
            <==> || (lease.Some? && (lease.value < now || YEAR_10000 <= lease.value))
                 || updated < cutoff || YEAR_10000 <= updated
  {
    hide DtToStr, TextLess;
    if lease.Some? {
      OrderEmbeddingLimit(lease.value, now);
    }
    OrderEmbeddingLimit(updated, cutoff);
  }

  /** The stale scan finds the stale runs, and the leased or running ones that carry a lease or an
      update past year 9999 besides. */
  lemma {:induction false} WhereStaleMeaning(run: JobRun, now: Instant, threshold: Instant)
    requires FourDigitYear(now) && FourDigitYear(now - threshold)
    ensures WhereStale(RunToRow(run), DtToStr(now), DtToStr(now - threshold)) <==> StaleByText(run, now, threshold)
    ensures (WhereStale(RunToRow(run), DtToStr(now), DtToStr(now - threshold)) <==> IsStale(run, now, threshold)) <==>
            (StaleByText(run, now, threshold) ==>
               || (run.leaseExpiresAt.Some? && run.leaseExpiresAt.value < now) || run.updatedAt < now - threshold)
  {
    hide StatusToStr, DtToStr, SqlLess, SqlOr, OptDtToStr;
    LeaseTextExpired(run.leaseExpiresAt, run.updatedAt, now, now - threshold);
    StatusRoundTrip(run.status, Leased);
    StatusRoundTrip(run.status, Running);
  }

  lemma {:induction false} WhereActiveMeaning(run: JobRun, job: JobId)
    ensures WhereActive(RunToRow(run), job) <==> run.jobId == job && IsActive(run.status)
  {
    StatusRoundTrip(run.status, Leased);
    StatusRoundTrip(run.status, Dispatched);
    StatusRoundTrip(run.status, Running);
  }

  lemma {:induction false} WhereMatchesMeaning(run: JobRun, filter: RunFilter)
    ensures WhereMatches(RunToRow(run), filter) <==> Matches(run, filter)
  {
    if filter.status.Some? {
      StatusRoundTrip(run.status, filter.status.value);
    }
  }

  lemma {:induction false} PatchKeepsStorable(run: JobRun, patch: RunPatch, now: Instant)
    ensures Storable(run) ==> FourDigitYear(run.updatedAt)
    ensures Storable(run) && StorablePatch(patch) && FourDigitYear(now) ==> Storable(ApplyPatch(run, patch, now))
  {
  }

  /** The column by column patch is the record update, whatever the times, unless it is empty. */
  lemma {:induction false} PatchRowApplies(run: JobRun, patch: RunPatch, now: Instant)
    ensures patch != NO_PATCH ==> RunToRow(ApplyPatch(run, patch, now)) == PatchRow(RunToRow(run), patch, DtToStr(now))
  {
    hide DtToStr, StatusToStr;
  }

  /** An empty patch leaves the row alone but still stamps the run: the two agree then exactly if the
      run already carries that time. */
  lemma {:induction false} PatchRowMeaning(run: JobRun, patch: RunPatch, now: Instant)
    requires FourDigitYear(run.updatedAt) && FourDigitYear(now)
    ensures RunToRow(ApplyPatch(run, patch, now)) == PatchRow(RunToRow(run), patch, DtToStr(now))
            <==> patch != NO_PATCH || run.updatedAt == now
  {
    hide DtToStr, StatusToStr;
    PatchRowApplies(run, patch, now);
    OrderEmbedding(run.updatedAt, now);
    assert RunToRow(ApplyPatch(run, patch, now)).updatedAt == DtToStr(now);
  }

  // ---------------------------------------------------------------------------------------------
  // The same for whole tables
  // ---------------------------------------------------------------------------------------------

  ghost predicate AllStorable(runs: Runs) {
    forall id :: id in runs ==> Storable(runs[id])
  }

  ghost predicate AllReadable(runs: Runs, ids: set<RunId>) {
    forall id :: id in ids ==> id in runs && Storable(runs[id])
  }

  /** The table that holds the given runs. */
  ghost function Encode(runs: Runs): Table {
    map id | id in runs :: RunToRow(runs[id])
  }

  lemma {:induction false} EncodeStore(runs: Runs, run: JobRun)
    ensures AllStorable(runs) && Storable(run) ==> AllStorable(runs[run.runId := run])
    ensures Encode(runs[run.runId := run]) == Encode(runs)[run.runId := RunToRow(run)]
  {
    hide RunToRow, Storable;
  }

  lemma {:induction false} RunIdColumn(runs: Runs)
    requires Keyed(runs)
    ensures forall id :: id in runs ==> Encode(runs)[id].runId == id
  {
  }

  function DueTexts(runs: Runs, now: Instant): set<RunId> {
    set id | id in runs && DueByText(runs[id], now)
  }

  function StaleTexts(runs: Runs, now: Instant, threshold: Instant): set<RunId> {
    set id | id in runs && StaleByText(runs[id], now, threshold)
  }

  lemma {:induction false} SelectDueMeaning(runs: Runs, now: Instant)
    requires FourDigitYear(now)
    ensures SelectDue(Encode(runs), DtToStr(now)) == DueTexts(runs, now)
    ensures AllStorable(runs) ==> DueTexts(runs, now) == Due(runs, now)
  {
    hide RunToRow, WhereDue, DtToStr;
    forall id | id in runs
      ensures WhereDue(Encode(runs)[id], DtToStr(now)) <==> DueByText(runs[id], now)
    {
      WhereDueMeaning(runs[id], now);
    }
  }

  lemma {:induction false} SelectStaleMeaning(runs: Runs, now: Instant, threshold: Instant)
    requires FourDigitYear(now) && FourDigitYear(now - threshold)
    ensures SelectStale(Encode(runs), DtToStr(now), DtToStr(now - threshold)) == StaleTexts(runs, now, threshold)
    ensures AllStorable(runs) ==> StaleTexts(runs, now, threshold) == Stale(runs, now, threshold)
  {
    hide RunToRow, WhereStale, DtToStr;
    forall id | id in runs
      ensures WhereStale(Encode(runs)[id], DtToStr(now), DtToStr(now - threshold))
              <==> StaleByText(runs[id], now, threshold)
    {
      WhereStaleMeaning(runs[id], now, threshold);
    }
  }

  lemma {:induction false} SelectActiveMeaning(runs: Runs, job: JobId)
    ensures SelectActive(Encode(runs), job) == ActiveRuns(runs, job)
  {
    hide RunToRow, WhereActive, IsActive;
    forall id | id in runs
      ensures WhereActive(Encode(runs)[id], job) <==> runs[id].jobId == job && IsActive(runs[id].status)
    {
      WhereActiveMeaning(runs[id], job);
    }
  }

  lemma {:induction false} SelectMatchingMeaning(runs: Runs, filter: RunFilter)
    ensures SelectMatching(Encode(runs), filter) == Matching(runs, filter)
  {
    hide RunToRow, WhereMatches, Matches;
    forall id | id in runs
      ensures WhereMatches(Encode(runs)[id], filter) <==> Matches(runs[id], filter)
    {
      WhereMatchesMeaning(runs[id], filter);
    }
  }

  lemma {:induction false} ClaimRowMeaning(run: JobRun, now: Instant, owner: string)
    ensures FourDigitYear(now) && FourDigitYear(now + LEASE) && Storable(run) ==> Storable(ClaimRun(run, now, owner))
    ensures RunToRow(ClaimRun(run, now, owner)) == ClaimRow(RunToRow(run), owner, DtToStr(now + LEASE), DtToStr(now))
  {
    hide DtToStr, FourDigitYear;
  }

  lemma {:induction false} ClaimRowsMeaning(runs: Runs, ids: set<RunId>, now: Instant, owner: string)
    ensures FourDigitYear(now) && FourDigitYear(now + LEASE) && AllStorable(runs) ==>
              AllStorable(ClaimAll(runs, ids, now, owner))
    ensures Encode(ClaimAll(runs, ids, now, owner)) ==
            ClaimRows(Encode(runs), ids, owner, DtToStr(now + LEASE), DtToStr(now))
  {
    hide RunToRow, DtToStr, Storable, FourDigitYear, ClaimRow, ClaimRun;
    var after := ClaimAll(runs, ids, now, owner);
    forall id | id in runs
      ensures FourDigitYear(now) && FourDigitYear(now + LEASE) && Storable(runs[id]) ==> Storable(after[id])
      ensures RunToRow(after[id]) ==
              ClaimRows(Encode(runs), ids, owner, DtToStr(now + LEASE), DtToStr(now))[id]
    {
      ClaimRowMeaning(runs[id], now, owner);
    }
  }

  /** An update in which an empty patch changes nothing. */
  ghost predicate UpdateRowOutcome(runs: Runs, id: RunId, patch: RunPatch, now: Instant, result: Result<()>,
                                   runs': Runs) {
    if patch != NO_PATCH then UpdateOutcome(runs, id, patch, now, result, runs')
    else runs' == runs && result == if id in runs then Ok(()) else Err(NotFound(id))
  }

  // ---------------------------------------------------------------------------------------------
  // ORDER BY created_at
  // ---------------------------------------------------------------------------------------------

  predicate HasLatestText(rows: Table, ids: set<RunId>, latest: RunId)
    requires latest in rows && ids <= rows.Keys
  {
    forall id :: id in ids ==> TextAtMost(rows[id].createdAt, rows[latest].createdAt)
  }

  ghost predicate IsNewest(runs: Runs, ids: set<RunId>, newest: RunId)
    requires newest in runs && ids <= runs.Keys
  {
    forall id :: id in ids ==> Age(runs[newest]) <= Age(runs[id])
  }

  /** The latest text belongs to a newest run. */
  lemma {:induction false} NewestMeaning(runs: Runs, ids: set<RunId>, newest: RunId)
    requires AllStorable(runs) && newest in ids && ids <= runs.Keys
    ensures HasLatestText(Encode(runs), ids, newest) <==> IsNewest(runs, ids, newest)
  {
    hide DtToStr;
    forall id | id in ids
      ensures TextAtMost(Encode(runs)[id].createdAt, Encode(runs)[newest].createdAt)
              <==> Age(runs[newest]) <= Age(runs[id])
    {
      OrderEmbedding(runs[id].createdAt, runs[newest].createdAt);
    }
  }

  lemma {:induction false} NewestExists(runs: Runs, ids: set<RunId>) returns (newest: RunId)
    requires ids != {} && ids <= runs.Keys
    ensures newest in ids && IsNewest(runs, ids, newest)
    decreases |ids|
  {
    newest :| newest in ids;
    if other :| other in ids && Age(runs[other]) < Age(runs[newest]) {
      var rest := ids - {newest};
      var best := NewestExists(runs, rest);
      assert ids == rest + {newest};
      newest := best;
    }
  }

  /** `out` lists the runs taken so far, newest first, and none of those left is newer. */
  ghost predicate NewestTaken(runs: Runs, left: set<RunId>, taken: set<RunId>, out: seq<JobRun>)
    requires left <= runs.Keys
  {
    && left !! taken
    && IsListing(runs, taken, out)
    && SortedBy(Age, out)
    && forall id, i :: id in left && 0 <= i < |out| ==> Age(out[i]) <= Age(runs[id])
  }

  lemma {:induction false} NothingTaken(runs: Runs, left: set<RunId>)
    requires left <= runs.Keys
    ensures NewestTaken(runs, left, {}, [])
  {
  }

  lemma {:induction false} TakeNewest(runs: Runs, left: set<RunId>, taken: set<RunId>, out: seq<JobRun>, id: RunId)
    requires Keyed(runs) && left <= runs.Keys && NewestTaken(runs, left, taken, out)
    requires id in left && IsNewest(runs, left, id)
    ensures NewestTaken(runs, left - {id}, taken + {id}, out + [runs[id]])
  {
    ListsStep(runs, RunKey, taken, out, runs[id]);
    assert runs[id := runs[id]] == runs;
  }

  lemma {:induction false} NewestTakenOutcome(runs: Runs, filter: RunFilter, left: set<RunId>, taken: set<RunId>,
                                              out: seq<JobRun>)
    requires left <= runs.Keys && NewestTaken(runs, left, taken, out)
    requires left + taken == Matching(runs, filter)
    requires left == {} || (filter.limit.Some? && |out| == filter.limit.value)
    requires filter.limit.Some? ==> |out| <= filter.limit.value
    ensures ListOutcome(runs, filter, out)
  {
    hide Matches;
    assert |left + taken| == |left| + |taken|;
  }
}
