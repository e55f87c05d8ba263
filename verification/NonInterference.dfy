/** What every step keeps, although `update_run` checks nothing.

    A recovery write is a legal status change exactly when the run still is where recovery's snapshot
    saw it, give or take changes it may legally follow. No claim, insert or recovery step ever moves
    a run away from there, so all interleavings of those stay inside the lifecycle graph; an executor
    that moves a run between the snapshot and the write can break it. */
module NonInterference {
  import opened Calendar
  import opened Types
  import opened Wrappers
  import opened Lifecycle
  import opened StoreSpec
  import opened Recovery
  import opened Claiming
  import opened LeaseProtocol

  predicate Writes(e: Event) {
    e.RecoverNext? || e.FinishRescue? || e.AdvanceNext?
  }

  predicate SameOrEdge(before: RunStatus, after: RunStatus) {
    before == after || CanTransition(before, after)
  }

  /** The status of the run about to be written still allows what its snapshot makes recovery write. */
  predicate Fits(s: State, e: Event) {
    Writes(e) && Todo(s.phase) != [] && Todo(s.phase)[0].runId in s.runs ==>
      var run := Todo(s.phase)[0];
      var status := s.runs[run.runId].status;
      if e.AdvanceNext? then true
      else if e.FinishRescue? then
        if Exhausted(run) then status.Orphaned? || status.Failed? || status.TimedOut? || status.DeadLetter?
        else status.Orphaned? || status.Leased? || status.RetryWait?
      else if run.status.Running? then status.Running? || status.Orphaned?
      else status.Leased? || status.RetryWait? || status.Orphaned?
  }

  /** A step keeps every run inside the lifecycle graph exactly when its write, if any, fits. */
  lemma {:induction false} StepKeepsLifecycle(threshold: Instant, s: State, e: Event, s': State)
    requires Inv(s) && Next(threshold, s, e, s')
    ensures s.runs.Keys <= s'.runs.Keys
    ensures (forall id :: id in s.runs ==> SameOrEdge(s.runs[id].status, s'.runs[id].status)) <==> Fits(s, e)
  {
    hide IsStale, IsListing;
    if Writes(e) {
      hide SameOrEdge;
      WriteKeepsLifecycle(threshold, s, e, s');
    }
  }

  /** A write touches its target only. */
  lemma {:induction false} WriteTarget(threshold: Instant, s: State, e: Event, s': State)
    requires Inv(s) && Next(threshold, s, e, s') && Writes(e)
    ensures s.runs.Keys == s'.runs.Keys
    ensures Todo(s.phase) != [] && Todo(s.phase)[0].runId in s.runs
    ensures forall id :: id in s.runs && id != Todo(s.phase)[0].runId ==> s'.runs[id] == s.runs[id]
  {
    hide IsStale, IsListing, ApplyPatch;
    assert Todo(s.phase)[0] in Todo(s.phase);
  }

  lemma {:induction false} WriteKeepsLifecycle(threshold: Instant, s: State, e: Event, s': State)
    requires Inv(s) && Next(threshold, s, e, s') && Writes(e)
    ensures s.runs.Keys == s'.runs.Keys
    ensures Todo(s.phase) != [] && Todo(s.phase)[0].runId in s.runs
    ensures var id := Todo(s.phase)[0].runId;
            SameOrEdge(s.runs[id].status, s'.runs[id].status) <==> Fits(s, e)
    ensures forall id :: id in s.runs && id != Todo(s.phase)[0].runId ==>
              SameOrEdge(s.runs[id].status, s'.runs[id].status)
  {
    hide Inv, Next, ApplyPatch, Updated, RetryReady;
    WriteTarget(threshold, s, e, s');
    WrittenStatus(threshold, s, e, s');
  }

  /** What a write puts: the status of the first, the second or the reschedule patch. */
  lemma {:induction false} WrittenStatus(threshold: Instant, s: State, e: Event, s': State)
    requires Inv(s) && Next(threshold, s, e, s') && Writes(e)
    requires Todo(s.phase) != [] && Todo(s.phase)[0].runId in s.runs && Todo(s.phase)[0].runId in s'.runs
    ensures var run := Todo(s.phase)[0];
            var (before, after) := (s.runs[run.runId].status, s'.runs[run.runId].status);
            before != Scheduled &&
            if e.AdvanceNext? then before == RetryWait && (after == before || after == Scheduled)
            else if e.FinishRescue? then after == if Exhausted(run) then DeadLetter else Scheduled
            else after == if run.status.Running? then Orphaned else Scheduled
  {
    hide ApplyPatch, FirstPatch, SecondPatch, RetryReady, IsStale, IsListing;
    var run := Todo(s.phase)[0];
    assert run in Todo(s.phase);
    RecoveryPatches(run, s.phase.now);
    PatchKeeps(s.runs[run.runId], FirstPatch(run, s.phase.now), s.clock);
    PatchKeeps(s.runs[run.runId], SecondPatch(run), s.clock);
    PatchKeeps(s.runs[run.runId], RESCHEDULE_PATCH, s.clock);
  }

  // ---------------------------------------------------------------------------------------------
  // Undisturbed behaviours
  // ---------------------------------------------------------------------------------------------

  /** No executor acts on a run between recovery's snapshot of it and recovery's last write to it. */
  ghost predicate Undisturbed(threshold: Instant, states: seq<State>, events: seq<Event>) {
    && Behaviour(threshold, states, events) && states[0].phase.Idle?
    && forall k :: 0 <= k < |events| ==> Spares(events[k], states[k].phase)
  }

  ghost predicate Spares(e: Event, phase: Phase) {
    e.Execute? ==> e.id !in Targets(phase)
  }

  /** Every run recovery is going to write still is as its snapshot shows it, except that the one
      being rescued is orphaned by now. */
  ghost predicate SnapshotHolds(s: State) {
    match s.phase
    case StaleLoop(_, todo) => forall run :: run in todo ==> AsSeen(s.runs, run)
    case Rescuing(_, run, todo) =>
      && run.runId in s.runs && s.runs[run.runId].status.Orphaned? && run.status.Running?
      && forall run :: run in todo ==> AsSeen(s.runs, run)
    case RetryLoop(_, todo) => forall run :: run in todo ==> run.runId in s.runs && s.runs[run.runId] == run
    case _ => true
  }

  predicate AsSeen(runs: Runs, run: JobRun) {
    run.runId in runs && runs[run.runId] == run && (run.status.Leased? || run.status.Running?)
  }

  lemma {:induction false} SnapshotTaken(threshold: Instant, s: State, e: Event, s': State)
    requires Inv(s) && Next(threshold, s, e, s') && (e.TakeStale? || e.TakeRetries?)
    ensures SnapshotHolds(s')
  {
    if e.TakeStale? {
      ListedRuns(s.runs, Stale(s.runs, s.phase.now, threshold), e.stale);
    } else {
      ListedRuns(s.runs, Matching(s.runs, RETRY_FILTER), e.retries);
    }
  }

  lemma {:induction false} SnapshotWritten(threshold: Instant, s: State, e: Event, s': State)
    requires Inv(s) && Next(threshold, s, e, s') && SnapshotHolds(s) && Writes(e)
    ensures SnapshotHolds(s')
  {
    hide IsStale, IsListing, RetryReady;
    WriteTarget(threshold, s, e, s');
    HeadIsNotInTail(Todo(s.phase));
    assert Todo(s.phase)[0] in Todo(s.phase);
    if e.FinishRescue? {
      assert Todo(s.phase)[1..] == s.phase.todo;
    }
  }

  lemma {:induction false} SnapshotStep(threshold: Instant, s: State, e: Event, s': State)
    requires Inv(s) && Next(threshold, s, e, s') && SnapshotHolds(s) && Spares(e, s.phase)
    ensures SnapshotHolds(s')
  {
    hide IsStale, ApplyPatch, IsListing;
    if Writes(e) {
      SnapshotWritten(threshold, s, e, s');
    } else if e.TakeStale? || e.TakeRetries? {
      SnapshotTaken(threshold, s, e, s');
    } else if s'.phase == s.phase {
      hide SnapshotHolds;
      assert forall run :: run in Todo(s.phase) ==> RunKey(run) in Targets(s.phase);
      SnapshotFrame(s, s');
    }
  }

  lemma {:induction false} SnapshotFrame(s: State, s': State)
    requires SnapshotHolds(s) && s'.phase == s.phase
    requires forall run :: run in Todo(s.phase) ==>
               run.runId in s.runs ==> run.runId in s'.runs && s'.runs[run.runId] == s.runs[run.runId]
    ensures SnapshotHolds(s')
  {
    match s.phase
    case Rescuing(_, run, todo) =>
      assert Todo(s.phase)[0] == run;
      assert forall run :: run in todo ==> run in Todo(s.phase);
    case _ =>
  }

  lemma {:induction false} SnapshotAlways(threshold: Instant, states: seq<State>, events: seq<Event>, k: nat)
    requires Undisturbed(threshold, states, events) && k <= |events|
    ensures Inv(states[k]) && SnapshotHolds(states[k])
  {
    hide Inv, Next, SnapshotHolds;
    if k == 0 {
      assert SnapshotHolds(states[0]) by {
        IdleHolds(states[0]);
      }
    } else {
      SnapshotAlways(threshold, states, events, k - 1);
      InvStep(threshold, states[k - 1], events[k - 1], states[k]);
      SnapshotStep(threshold, states[k - 1], events[k - 1], states[k]);
    }
  }

  lemma {:induction false} IdleHolds(s: State)
    requires s.phase.Idle?
    ensures SnapshotHolds(s)
  {
  }

  // ---------------------------------------------------------------------------------------------
  // What undisturbed steps keep
  // ---------------------------------------------------------------------------------------------

  /** What one step may do to the status of a run. */
  ghost predicate StatusKept(clock: Instant, before: JobRun, after: JobRun) {
    && SameOrEdge(before.status, after.status)
    && (Terminal(before.status) ==> after == before)
    && (before.status.RetryWait? && after.status.Scheduled? && before.finishedAt.Some? ==>
          before.finishedAt.value + NANOS_PER_SECOND <= clock)
  }

  /** What no step changes, and that only an executor counts attempts. */
  predicate IdentityKept(e: Event, before: JobRun, after: JobRun) {
    && after.runId == before.runId && after.jobId == before.jobId && after.scheduledFor == before.scheduledFor
    && after.maxAttempts == before.maxAttempts && after.createdAt == before.createdAt
    && after.inputJson == before.inputJson
    && (!e.Execute? ==> after.attempt == before.attempt)
  }

  lemma {:induction false} StepKeepsIdentity(threshold: Instant, s: State, e: Event, s': State, id: RunId)
    requires Next(threshold, s, e, s') && id in s.runs
    ensures id in s'.runs && IdentityKept(e, s.runs[id], s'.runs[id])
  {
    hide IsStale, IsListing, IsDue, RetryReady;
  }

  lemma {:induction false} WriteKeepsStatus(threshold: Instant, s: State, e: Event, s': State, id: RunId)
    requires Inv(s) && Next(threshold, s, e, s') && SnapshotHolds(s) && Writes(e) && id in s.runs
    ensures id in s'.runs && StatusKept(s.clock, s.runs[id], s'.runs[id])
  {
    hide IsStale, IsListing;
    WriteTarget(threshold, s, e, s');
    if id == Todo(s.phase)[0].runId {
      assert Todo(s.phase)[0] in Todo(s.phase);
      TargetKeepsStatus(threshold, s, e, s');
    }
  }

  lemma {:induction false} TargetKeepsStatus(threshold: Instant, s: State, e: Event, s': State)
    requires Next(threshold, s, e, s') && SnapshotHolds(s) && Writes(e) && s.phase.now <= s.clock
    requires Todo(s.phase) != [] && Todo(s.phase)[0].runId in s.runs && Todo(s.phase)[0].runId in s'.runs
    requires e.AdvanceNext? ==> Todo(s.phase)[0].status.RetryWait?
    ensures var id := Todo(s.phase)[0].runId; StatusKept(s.clock, s.runs[id], s'.runs[id])
  {
    hide IsStale, IsListing;
    assert Todo(s.phase)[0] in Todo(s.phase);
  }

  lemma {:induction false} StepKeepsStatus(threshold: Instant, s: State, e: Event, s': State, id: RunId)
    requires Inv(s) && Next(threshold, s, e, s') && SnapshotHolds(s) && id in s.runs
    ensures id in s'.runs && StatusKept(s.clock, s.runs[id], s'.runs[id])
  {
    hide IsStale, IsListing, SnapshotHolds;
    if Writes(e) {
      hide Next, Inv, StatusKept;
      WriteKeepsStatus(threshold, s, e, s', id);
    }
  }

  /** Non-interference: whatever claims, inserts, executor steps and passing of time come between
      the store calls of recovery, each step of an undisturbed behaviour changes the status of each
      run along an edge of the lifecycle graph or not at all, leaves finished runs alone, and
      reschedules no retry early. */
  lemma {:induction false} LifecycleKept(threshold: Instant, states: seq<State>, events: seq<Event>, k: nat, id: RunId)
    requires Undisturbed(threshold, states, events) && k < |events| && id in states[k].runs
    ensures id in states[k + 1].runs
    ensures StatusKept(states[k].clock, states[k].runs[id], states[k + 1].runs[id])
  {
    hide Inv, Next, SnapshotHolds, StatusKept;
    SnapshotAlways(threshold, states, events, k);
    StepKeepsStatus(threshold, states[k], events[k], states[k + 1], id);
  }

  /** A finished run stays exactly as it is, for ever. */
  lemma {:induction false} TerminalAbsorbing(threshold: Instant, states: seq<State>, events: seq<Event>,
                                             i: nat, j: nat, id: RunId)
    requires Undisturbed(threshold, states, events) && i <= j <= |events|
    requires id in states[i].runs && Terminal(states[i].runs[id].status)
    ensures id in states[j].runs && states[j].runs[id] == states[i].runs[id]
    decreases j - i
  {
    hide Inv, Next;
    if i < j {
      LifecycleKept(threshold, states, events, i, id);
      TerminalAbsorbing(threshold, states, events, i + 1, j, id);
    }
  }

  // ---------------------------------------------------------------------------------------------
  // The trail of a run
  // ---------------------------------------------------------------------------------------------

  /** The statuses the run goes through up to step `k`, each change listed once. */
  ghost function Trail(states: seq<State>, k: nat, id: RunId): (trail: seq<RunStatus>)
    requires k < |states| && forall i :: 0 <= i < |states| ==> id in states[i].runs
  {
    var now := states[k].runs[id].status;
    if k == 0 then [now]
    else if states[k - 1].runs[id].status == now then Trail(states, k - 1, id)
    else Trail(states, k - 1, id) + [now]
  }

  lemma {:induction false} TrailIsPath(threshold: Instant, states: seq<State>, events: seq<Event>, k: nat, id: RunId)
    requires Undisturbed(threshold, states, events) && k <= |events|
    requires forall i :: 0 <= i < |states| ==> id in states[i].runs
    ensures var trail := Trail(states, k, id);
            trail != [] && trail[|trail| - 1] == states[k].runs[id].status && IsPath(trail)
  {
    hide Inv, Next;
    if k != 0 {
      TrailIsPath(threshold, states, events, k - 1, id);
      LifecycleKept(threshold, states, events, k - 1, id);
    }
  }

  /** Progress: a run that is rescheduled n times changes its status at most 6 * (n + 1) times. */
  lemma {:induction false} ChangesBounded(threshold: Instant, states: seq<State>, events: seq<Event>, id: RunId)
    requires Undisturbed(threshold, states, events)
    requires forall i :: 0 <= i < |states| ==> id in states[i].runs
    ensures var trail := Trail(states, |events|, id);
            |trail| - 1 <= 6 * (Reschedules(trail) + 1)
  {
    TrailIsPath(threshold, states, events, |events|, id);
    PathLength(Trail(states, |events|, id));
  }

  // ---------------------------------------------------------------------------------------------
  // Conservation
  // ---------------------------------------------------------------------------------------------

  function Inserts(events: seq<Event>): nat {
    if events == [] then 0 else Inserts(events[..|events| - 1]) + if events[|events| - 1].Insert? then 1 else 0
  }

  /** No step removes a run, and only an insert adds one. */
  lemma {:induction false} RunsConserved(threshold: Instant, states: seq<State>, events: seq<Event>, k: nat)
    requires Behaviour(threshold, states, events) && k <= |events|
    ensures states[0].runs.Keys <= states[k].runs.Keys
    ensures |states[k].runs| == |states[0].runs| + Inserts(events[..k])
  {
    hide Inv;
    if k != 0 {
      RunsConserved(threshold, states, events, k - 1);
      assert events[..k][..k - 1] == events[..k - 1];
      StepCounts(threshold, states[k - 1], events[k - 1], states[k]);
    }
  }

  lemma {:induction false} StepCounts(threshold: Instant, s: State, e: Event, s': State)
    requires Next(threshold, s, e, s')
    ensures s'.runs.Keys == s.runs.Keys + if e.Insert? then {e.run.runId} else {}
    ensures |s'.runs| == |s.runs| + if e.Insert? then 1 else 0
  {
    hide IsStale, IsListing, ApplyPatch, FirstPatch, SecondPatch, RetryReady, ExecutorMay, ValidPick, ClaimAll;
    if e.Claim? {
      ClaimKeepsKeys(s.runs, e.picked, s.clock, e.owner);
    }
    assert s'.runs.Keys == s.runs.Keys + if e.Insert? then {e.run.runId} else {};
    assert |s'.runs| == |s'.runs.Keys| && |s.runs| == |s.runs.Keys|;
  }

  // ---------------------------------------------------------------------------------------------
  // Claims of one run
  // ---------------------------------------------------------------------------------------------

  /** A run is claimed twice only if recovery made it schedulable again in between: with executors
      interfering or not, there is a recovery write to this very run that did. */
  lemma {:induction false} ClaimedTwiceReturned(threshold: Instant, states: seq<State>, events: seq<Event>,
                                                i: nat, j: nat, id: RunId) returns (k: nat)
    requires Behaviour(threshold, states, events) && i < j < |events|
    requires Claims(events[i], id) && Claims(events[j], id)
    ensures i < k < j && Returns(states[k], events[k], states[k + 1], id)
  {
    hide Inv;
    assert Next(threshold, states[i], events[i], states[i + 1]);
    assert Next(threshold, states[j], events[j], states[j + 1]);
    assert id in Due(states[i].runs, states[i].clock) && id in Due(states[j].runs, states[j].clock);
    k := ReturnStep(threshold, states, events, i + 1, j, id);
  }

  ghost predicate Returns(s: State, e: Event, s': State, id: RunId) {
    && id in s.runs && id in s'.runs && !s.runs[id].status.Scheduled? && s'.runs[id].status.Scheduled?
    && Writes(e) && Todo(s.phase) != [] && Todo(s.phase)[0].runId == id
  }

  lemma {:induction false} ReturnStep(threshold: Instant, states: seq<State>, events: seq<Event>,
                                      i: nat, j: nat, id: RunId) returns (k: nat)
    requires Behaviour(threshold, states, events) && i <= j <= |events|
    requires id in states[i].runs && !states[i].runs[id].status.Scheduled?
    requires id in states[j].runs && states[j].runs[id].status.Scheduled?
    ensures i <= k < j && Returns(states[k], events[k], states[k + 1], id)
    decreases j - i
  {
    hide Inv, Next, Returns;
    assert Next(threshold, states[i], events[i], states[i + 1]);
    if id in states[i + 1].runs && !states[i + 1].runs[id].status.Scheduled? {
      k := ReturnStep(threshold, states, events, i + 1, j, id);
    } else {
      ReturnsHere(threshold, states[i], events[i], states[i + 1], id);
      k := i;
    }
  }

  lemma {:induction false} ReturnsHere(threshold: Instant, s: State, e: Event, s': State, id: RunId)
    requires Next(threshold, s, e, s') && id in s.runs && !s.runs[id].status.Scheduled?
    requires id !in s'.runs || s'.runs[id].status.Scheduled?
    ensures Returns(s, e, s', id)
  {
    hide IsStale, IsListing;
  }

  // ---------------------------------------------------------------------------------------------
  // No work lost
  // ---------------------------------------------------------------------------------------------

  /** From any state a behaviour can reach: a leased run whose lease is over is leased again by the
      worker that lets recovery run and then claims as often as the due runs fill its batches. */
  lemma {:induction false} ReachedRunIsReclaimed(threshold: Instant, states: seq<State>, events: seq<Event>, k: nat,
                                                 owner: string, limit: nat, claims: seq<Claiming.Claim>, id: RunId)
    requires Behaviour(threshold, states, events) && k <= |events| && id in states[k].runs
    requires var run := states[k].runs[id];
             run.status.Leased? && run.leaseExpiresAt.Some? && run.leaseExpiresAt.value < states[k].clock
    requires 0 < limit && (forall i :: 0 <= i < |claims| ==> claims[i].owner == owner)
    requires var (now, recovered) := (states[k].clock, AfterRecovery(threshold, states[k]));
             ValidClaims(recovered, now, limit, claims) && |claims| == Rounds(|Due(recovered, now)|, limit)
    ensures var now := states[k].clock;
            var after := AfterClaims(AfterRecovery(threshold, states[k]), now, claims);
            && id in after && after[id].status.Leased? && after[id].leaseOwner == Some(owner)
            && after[id].leaseExpiresAt == Some(now + LEASE)
  {
    hide Next, Recovered;
    InvAlways(threshold, states, events, k);
    NoWorkLost(states[k].runs, states[k].clock, threshold, _ => states[k].clock, owner, limit, claims, id);
  }

  /** The runs after an uninterrupted recovery. */
  ghost function AfterRecovery(threshold: Instant, s: State): Runs {
    Recovered(s.runs, s.clock, threshold, _ => s.clock)
  }

  // ---------------------------------------------------------------------------------------------
  // Interference
  // ---------------------------------------------------------------------------------------------

  /** Undisturbed behaviours are not all there are: an executor that dispatches a run just after
      recovery's snapshot makes recovery take a dispatched run straight back to Scheduled. */
  lemma {:induction false} ExecutorRace(threshold: Instant) returns (states: seq<State>, events: seq<Event>)
    ensures Behaviour(threshold, states, events) && states[0] == State(map[], 0, Idle)
    ensures exists k :: 0 <= k < |events| && !Fits(states[k], events[k])
              && "r" in states[k].runs && "r" in states[k + 1].runs
              && states[k].runs["r"].status.Dispatched? && states[k + 1].runs["r"].status.Scheduled?
  {
    var run := NewScheduled("r", "j", 0, 1, 0);
    states, events := Race(threshold, run, ClaimRun(run, 0, "w"), LEASE + 1);
  }

  const DISPATCH_PATCH := NO_PATCH.(status := Some(Dispatched))

  lemma {:induction false} Race(threshold: Instant, run: JobRun, leased: JobRun, late: Instant)
    returns (states: seq<State>, events: seq<Event>)
    requires run.runId == leased.runId == "r" && IsDue(run, 0) && run.status.Scheduled?
    requires leased == ClaimRun(run, 0, "w")
    requires 0 <= late && IsStale(leased, late, threshold) && leased.status.Leased?
    ensures Behaviour(threshold, states, events) && states[0] == State(map[], 0, Idle) && |events| == 7
    ensures !Fits(states[6], events[6]) && "r" in states[6].runs && "r" in states[7].runs
    ensures states[6].runs["r"].status.Dispatched? && states[7].runs["r"].status.Scheduled?
  {
    hide Inv, ClaimRun, IsDue, IsStale, ValidPick, IsListing;
    var dispatched := ApplyPatch(leased, DISPATCH_PATCH, late);
    var released := ApplyPatch(dispatched, ReleasePatch(late), late);
    events := [Insert(run), Event.Claim("w", 1, {"r"}), Pass(late), BeginRecovery, TakeStale([leased]),
               Execute("r", DISPATCH_PATCH), RecoverNext];
    states := [State(map[], 0, Idle),
               State(map["r" := run], 0, Idle),
               State(map["r" := leased], 0, Idle),
               State(map["r" := leased], late, Idle),
               State(map["r" := leased], late, Began(late)),
               State(map["r" := leased], late, StaleLoop(late, [leased])),
               State(map["r" := dispatched], late, StaleLoop(late, [leased])),
               State(map["r" := released], late, StaleLoop(late, []))];
    LoneClaim(threshold, run, "w", states[1]);
    LoneSnapshot(threshold, leased, states[4]);
    EmptyStoreInv(0);
    assert states[7].phase.todo == [leased][1..];
    forall k | 0 <= k < |events|
      ensures Next(threshold, states[k], events[k], states[k + 1])
    {
    }
  }
}
