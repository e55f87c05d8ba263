/** The records of the scheduler. */
module Types {
  import opened Calendar
  import opened Wrappers

  type u32 = n: int | 0 <= n < 0x1_0000_0000
  type u64 = n: int | 0 <= n < 0x1_0000_0000_0000_0000

  const TWO_63 := 0x8000_0000_0000_0000

  /** The cast to a signed 64-bit number, which wraps. */
  function AsI64(n: u64): int {
    if n < TWO_63 then n else n - 2 * TWO_63
  }

  type RunId = string
  type JobId = string

  /** A JSON payload, kept as its text: the stores never look inside. */
  type Json = string

  datatype IntervalAnchor = Start | Finish | WallClock

  datatype Schedule =
    | Cron(expression: string, timezone: Option<string>)
    | Interval(everyMs: u64, anchor: IntervalAnchor)
    | Once(at: Instant)
    | Manual

  datatype RunStatus =
    | Scheduled
    | Leased
    | Dispatched
    | Running
    | Succeeded
    | Failed
    | RetryWait
    | DeadLetter
    | Cancelled
    | TimedOut
    | Orphaned

  datatype MisfirePolicy = RunImmediately | Skip | Coalesce | ReplayAll(maxCatchup: Option<u32>)

  datatype RetryStrategy = Fixed | Linear | Exponential

  datatype RetryPolicy = RetryPolicy(
    maxAttempts: u32,
    strategy: RetryStrategy,
    baseDelayMs: u64,
    maxDelayMs: u64,
    jitter: bool)

  /** The fields of a job that the scheduling loops read or write. */
  datatype LeylaJob = LeylaJob(
    id: JobId,
    name: string,
    enabled: bool,
    schedule: Schedule,
    retry: RetryPolicy,
    misfire: MisfirePolicy,
    nextRunAt: Option<Instant>,
    lastRunAt: Option<Instant>,
    createdAt: Instant,
    updatedAt: Instant)

  datatype JobRun = JobRun(
    runId: RunId,
    jobId: JobId,
    scheduledFor: Instant,
    status: RunStatus,
    attempt: u32,
    maxAttempts: u32,
    leaseOwner: Option<string>,
    leaseExpiresAt: Option<Instant>,
    dispatchedAt: Option<Instant>,
    startedAt: Option<Instant>,
    heartbeatAt: Option<Instant>,
    finishedAt: Option<Instant>,
    inputJson: Option<Json>,
    outputJson: Option<Json>,
    errorJson: Option<Json>,
    createdAt: Instant,
    updatedAt: Instant)

  function NewScheduled(runId: RunId, jobId: JobId, scheduledFor: Instant, maxAttempts: u32, now: Instant): JobRun {
    JobRun(runId, jobId, scheduledFor, Scheduled, 1, maxAttempts,
           None, None, None, None, None, None, None, None, None, now, now)
  }

  datatype RunPatch = RunPatch(
    status: Option<RunStatus>,
    leaseOwner: Option<string>,
    leaseExpiresAt: Option<Instant>,
    dispatchedAt: Option<Instant>,
    startedAt: Option<Instant>,
    heartbeatAt: Option<Instant>,
    finishedAt: Option<Instant>,
    attempt: Option<u32>,
    outputJson: Option<Json>,
    errorJson: Option<Json>)

  const NO_PATCH := RunPatch(None, None, None, None, None, None, None, None, None, None)

  datatype RunFilter = RunFilter(jobId: Option<JobId>, status: Option<RunStatus>, limit: Option<u32>)
}
