/** The engine object: its loop of ticks, and the operations callers make on jobs.

    `Start` runs the loop over a finite stretch of ticks in whatever order the two tickers fire; what
    it does to the store is proved to be a run of the step system in `Engine`. */
module EngineLoop {
  import opened Calendar
  import opened Types
  import opened Wrappers
  import opened StoreSpec
  import opened MemoryStores
  import opened Recovery
  import opened Claiming
  import opened Materialize
  import opened Engine
  import LeaseProtocol

  /** One firing of a ticker. The loop bodies read the clock once for each of their calls. */
  datatype Firing =
    | Poll(tick: Tick, claimAt: Instant)
    | RecoveryPoll(now: Instant, wall: RunId -> Instant)

  function FirstRead(f: Firing): Instant {
    match f
    case Poll(tick, _) => tick.now
    case RecoveryPoll(now, _) => now
  }

  function LastRead(f: Firing): Instant {
    match f
    case Poll(_, claimAt) => claimAt
    case RecoveryPoll(now, _) => now
  }

  /** The clock never runs backwards, starting from `clock`. */
  ghost predicate Monotone(clock: Instant, firings: seq<Firing>) {
    && (forall i :: 0 <= i < |firings| ==> clock <= FirstRead(firings[i]) <= LastRead(firings[i]) <= LATEST)
    && (forall i, j :: 0 <= i < j < |firings| ==> LastRead(firings[i]) <= FirstRead(firings[j]))
  }

  /** All ids handed out are new and different. */
  ghost predicate AllFresh(jobs: set<JobId>, runs: Runs, firings: seq<Firing>) {
    && (forall i :: 0 <= i < |firings| && firings[i].Poll? ==> FreshIds(jobs, runs, firings[i].tick.newId))
    && (forall i, j, a, b :: 0 <= i < j < |firings| && firings[i].Poll? && firings[j].Poll? && a in jobs && b in jobs
          ==> firings[i].tick.newId(a) != firings[j].tick.newId(b))
  }

  /** The steps one firing stands for. */
  ghost predicate StepsOf(f: Firing, owner: string, limit: nat, steps: seq<Event>) {
    match f
    case Poll(tick, claimAt) =>
      && |steps| == 4 && steps[0] == Pass(tick.now) && steps[2] == Pass(claimAt)
      && steps[1].Materialise? && steps[1].tick == tick && steps[1].halted.None?
      && steps[3].Claim? && steps[3].owner == owner && steps[3].limit == limit
    case RecoveryPoll(now, wall) => steps == [Pass(now), Recover(wall)]
  }

  /** The steps of a poll in which the date library stops the program. */
  ghost predicate StepsCutShort(f: Firing, steps: seq<Event>) {
    && f.Poll? && |steps| == 2 && steps[0] == Pass(f.tick.now)
    && steps[1].Materialise? && steps[1].tick == f.tick && steps[1].halted.Some?
  }

  /** The events are those of the firings, one after the other. */
  ghost predicate Follows(firings: seq<Firing>, owner: string, limit: nat, events: seq<Event>) {
    if firings == [] then events == []
    else
      var last := firings[|firings| - 1];
      var n := if last.Poll? then 4 else 2;
      && n <= |events|
      && Follows(firings[..|firings| - 1], owner, limit, events[..|events| - n])
      && StepsOf(last, owner, limit, events[|events| - n..])
  }

  class LeylaEngine {
    const store: MemoryStore
    const instanceId: string
    const claimBatchSize: u32
    const staleHeartbeatMs: u64

    constructor (store: MemoryStore, instanceId: string)
      ensures this.store == store && this.instanceId == instanceId
      ensures claimBatchSize == 50 && staleHeartbeatMs == 60_000
    {
      this.store, this.instanceId := store, instanceId;
      claimBatchSize, staleHeartbeatMs := 50, 60_000;
    }

    function Threshold(): Instant {
      staleHeartbeatMs * NANOS_PER_MILLI
    }

    ghost function Snapshot(clock: Instant): State
      reads store
    {
      State(store.jobs, store.runs, clock)
    }

    /** Materialises, then claims; an error of one would not keep the other from running, but the date
        library may stop the program in the first. */
    method OnPoll(f: Firing, ghost clock: Instant)
      returns (panicked: bool, ghost states: seq<State>, ghost events: seq<Event>)
      requires f.Poll? && store.Valid() && EARLIEST <= clock <= FirstRead(f) <= LastRead(f) <= LATEST
      requires FreshIds(store.jobs.Keys, store.runs, f.tick.newId)
      modifies store
      ensures store.Valid() && store.jobs.Keys == old(store.jobs.Keys)
      ensures store.runs.Keys <= old(store.runs.Keys) + Images(store.jobs.Keys, f.tick.newId)
      ensures Behaviour(Threshold(), states, events)
      ensures if panicked then StepsCutShort(f, events) else StepsOf(f, instanceId, claimBatchSize, events)
      ensures states[0] == old(Snapshot(clock))
      ensures states[|events|] == Snapshot(if panicked then FirstRead(f) else LastRead(f))
    {
      hide Engine.Next, TickOutcome, ClaimOutcome, FreshIds, Images, DueJobs;
      ghost var s0, s1 := Snapshot(clock), Snapshot(f.tick.now);
      var materializer := new DueRunMaterializer(store);
      var count, halted;
      ghost var advanced;
      count, halted, advanced := materializer.Materialize(f.tick);
      ghost var s2, s3 := Snapshot(f.tick.now), Snapshot(f.claimAt);
      states, events := [s0, s1, s2], [Pass(f.tick.now), Materialise(f.tick, advanced, halted)];
      PassIsStep(Threshold(), s0, f.tick.now);
      TickIsStep(Threshold(), s1, s2, advanced, halted, f.tick);
      assert Engine.Inv(s0);
      panicked := halted.Some?;
      if panicked {
        return;
      }
      var manager := new LeaseManager(store, instanceId, claimBatchSize);
      var claimed := manager.ClaimBatch(f.claimAt);
      ghost var s4 := Snapshot(f.claimAt);
      PassIsStep(Threshold(), s2, f.claimAt);
      ClaimIsStep(Threshold(), s3, s4, instanceId, claimBatchSize, claimed);
      states := states + [s3, s4];
      events := events + [Pass(f.claimAt), Event.Claim(instanceId, claimBatchSize, Ids(claimed))];
    }

    method OnRecoveryPoll(f: Firing, ghost clock: Instant) returns (ghost states: seq<State>, ghost events: seq<Event>)
      requires f.RecoveryPoll? && store.Valid() && EARLIEST <= clock <= f.now <= LATEST
      modifies store
      ensures store.Valid() && store.jobs.Keys == old(store.jobs.Keys) && store.runs.Keys == old(store.runs.Keys)
      ensures Behaviour(Threshold(), states, events) && StepsOf(f, instanceId, claimBatchSize, events)
      ensures states[0] == old(Snapshot(clock)) && states[|events|] == Snapshot(LastRead(f))
    {
      hide RecoverRun;
      ghost var s0, s1 := Snapshot(clock), Snapshot(f.now);
      var manager := new RecoveryManager(store, Threshold());
      var recovered := manager.Recover(f.now, f.wall);
      states := [s0, s1, Snapshot(f.now)];
      events := [Pass(f.now), Recover(f.wall)];
    }

    /** Every run of the loop is a behaviour of the step system, with the steps the firings make, up
        to the first poll in which the date library stops the program, if there is one. */
    method Start(firings: seq<Firing>, ghost clock: Instant)
      returns (panicked: bool, ran: nat, ghost states: seq<State>, ghost events: seq<Event>)
      requires store.Valid() && InRange(clock) && Monotone(clock, firings)
      requires AllFresh(store.jobs.Keys, store.runs, firings)
      modifies store
      ensures store.Valid() && Behaviour(Threshold(), states, events) && ran <= |firings|
      ensures !panicked ==> ran == |firings| && Follows(firings, instanceId, claimBatchSize, events)
      ensures panicked ==>
                && ran < |firings| && 2 <= |events| && StepsCutShort(firings[ran], events[|events| - 2..])
                && Follows(firings[..ran], instanceId, claimBatchSize, events[..|events| - 2])
      ensures states[0] == old(Snapshot(clock))
      ensures states[|events|].jobs == store.jobs && states[|events|].runs == store.runs
    {
      hide FreshIds, Images, StepsOf, StepsCutShort, Behaviour, Follows, Monotone, AllFresh;
      ghost var now := clock;
      states, events := [Snapshot(clock)], [];
      NothingRun(Threshold(), states[0], firings, instanceId, claimBatchSize);
      ran, panicked := 0, false;
      while ran < |firings|
        invariant ran <= |firings| && store.Valid() && store.jobs.Keys == old(store.jobs.Keys)
        invariant |states| == |events| + 1
        invariant Behaviour(Threshold(), states, events)
        invariant Follows(firings[..ran], instanceId, claimBatchSize, events)
        invariant states[0] == old(Snapshot(clock)) && states[|events|] == Snapshot(now) && EARLIEST <= now
        invariant Monotone(now, firings[ran..]) && AllFresh(store.jobs.Keys, store.runs, firings[ran..])
      {
        ghost var more, steps;
        ghost var runs := store.runs;
        FirstFiring(now, store.jobs.Keys, runs, firings, ran);
        if firings[ran].Poll? {
          panicked, more, steps := OnPoll(firings[ran], now);
        } else {
          more, steps := OnRecoveryPoll(firings[ran], now);
        }
        Joined(Threshold(), states, events, more, steps);
        ghost var before := events;
        states, events := states + more[1..], events + steps;
        if panicked {
          CutAt(firings[ran], before, steps);
          return;
        }
        Advance(now, store.jobs.Keys, runs, store.runs, firings, ran);
        Followed(firings, ran, instanceId, claimBatchSize, before, steps);
        now := LastRead(firings[ran]);
        ran := ran + 1;
      }
      assert firings[..|firings|] == firings;
    }

    // -------------------------------------------------------------------------------------------
    // Jobs
    // -------------------------------------------------------------------------------------------

    method SetEnabledTo(jobId: JobId, enabled: bool) returns (result: Result<()>)
      requires store.Valid()
      modifies store`jobs
      ensures store.Valid() && result == if jobId in old(store.jobs) then Ok(()) else Err(NotFound(jobId))
      ensures jobId !in old(store.jobs) ==> store.jobs == old(store.jobs)
      ensures jobId in old(store.jobs) ==> forall clock ::
                Engine.Next(Threshold(), old(Snapshot(clock)), SetEnabled(jobId, enabled), Snapshot(clock))
    {
      var found := store.GetJob(jobId);
      if found.Err? { return found.Then(()); }
      var job := found.value;
      job := job.(enabled := enabled);
      store.UpsertJob(job);
      result := Ok(());
    }

    method Pause(jobId: JobId) returns (result: Result<()>)
      requires store.Valid()
      modifies store`jobs
      ensures store.Valid() && result == if jobId in old(store.jobs) then Ok(()) else Err(NotFound(jobId))
      ensures jobId !in old(store.jobs) ==> store.jobs == old(store.jobs)
      ensures jobId in old(store.jobs) ==> forall clock ::
                Engine.Next(Threshold(), old(Snapshot(clock)), SetEnabled(jobId, false), Snapshot(clock))
    {
      result := SetEnabledTo(jobId, false);
    }

    method Resume(jobId: JobId) returns (result: Result<()>)
      requires store.Valid()
      modifies store`jobs
      ensures store.Valid() && result == if jobId in old(store.jobs) then Ok(()) else Err(NotFound(jobId))
      ensures jobId !in old(store.jobs) ==> store.jobs == old(store.jobs)
      ensures jobId in old(store.jobs) ==> forall clock ::
                Engine.Next(Threshold(), old(Snapshot(clock)), SetEnabled(jobId, true), Snapshot(clock))
    {
      result := SetEnabledTo(jobId, true);
    }

    /** Schedules a run of the job for now, whether the job is enabled or not. */
    method Trigger(jobId: JobId, input: Option<Json>, now: Instant, runId: RunId, wall: Instant)
      returns (result: Result<RunId>)
      requires store.Valid()
      modifies store`runs
      ensures store.Valid()
      ensures jobId !in store.jobs ==> result == Err(NotFound(jobId)) && store.runs == old(store.runs)
      ensures jobId in store.jobs && runId in old(store.runs) ==>
                result == Err(Conflict(runId)) && store.runs == old(store.runs)
      ensures jobId in store.jobs && runId !in old(store.runs) ==>
                && result == Ok(runId)
                && Engine.Next(Threshold(), old(Snapshot(now)), Event.Trigger(jobId, runId, input, wall), Snapshot(now))
    {
      var found := store.GetJob(jobId);
      if found.Err? { return found.Then(runId); }
      var job := found.value;
      var run := NewScheduled(runId, job.id, now, job.retry.maxAttempts, wall);
      run := run.(inputJson := input);
      var inserted := store.InsertRun(run);
      if inserted.Err? { return inserted.Then(runId); }
      result := Ok(runId);
    }
  }

  /** A worker of this engine keeps its leases for 30 s exactly when the heartbeat limit is 30 s or
      more; the default is 60 s. */
  lemma {:induction false} HeartbeatLimit(engine: LeylaEngine)
    ensures LeaseProtocol.Exclusive(engine.Threshold()) <==> 30_000 <= engine.staleHeartbeatMs
  {
    LeaseProtocol.ExclusiveThresholds(engine.Threshold());
  }

  lemma {:induction false} CutAt(f: Firing, events: seq<Event>, steps: seq<Event>)
    requires StepsCutShort(f, steps)
    ensures |steps| == 2
    ensures (events + steps)[..|events|] == events && (events + steps)[|events|..] == steps
  {
  }

  /** Before the first firing. */
  lemma {:induction false} NothingRun(threshold: Instant, s: State, firings: seq<Firing>, owner: string, limit: nat)
    requires Engine.Inv(s)
    ensures Behaviour(threshold, [s], []) && Follows(firings[..0], owner, limit, []) && firings[0..] == firings
  {
  }

  /** What the next firing may rely on. */
  lemma {:induction false} FirstFiring(clock: Instant, jobs: set<JobId>, runs: Runs, firings: seq<Firing>, k: nat)
    requires k < |firings| && Monotone(clock, firings[k..]) && AllFresh(jobs, runs, firings[k..])
    ensures clock <= FirstRead(firings[k]) <= LastRead(firings[k]) <= LATEST
    ensures firings[k].Poll? ==> FreshIds(jobs, runs, firings[k].tick.newId)
  {
    hide FreshIds;
    assert firings[k..][0] == firings[k];
  }

  lemma {:induction false} ValidStarts(jobs: Jobs, runs: Runs, clock: Instant)
    requires Keyed(runs) && InRange(clock) && forall id :: id in jobs ==> jobs[id].id == id
    ensures Engine.Inv(State(jobs, runs, clock))
  {
  }

  lemma {:induction false} ClaimIsStep(threshold: Instant, s: State, s': State, owner: string, limit: nat,
                                       claimed: seq<JobRun>)
    requires ClaimOutcome(s.runs, s.clock, owner, limit, claimed, s'.runs) && s'.jobs == s.jobs && s'.clock == s.clock
    ensures Engine.Next(threshold, s, Event.Claim(owner, limit, Ids(claimed)), s')
    ensures s'.runs.Keys == s.runs.Keys
  {
    ClaimKeepsKeys(s.runs, Ids(claimed), s.clock, owner);
  }

  lemma {:induction false} PassIsStep(threshold: Instant, s: State, until: Instant)
    requires s.clock <= until <= LATEST
    ensures Engine.Next(threshold, s, Pass(until), s.(clock := until))
  {
  }

  lemma {:induction false} TickIsStep(threshold: Instant, s: State, s': State, advanced: set<JobId>,
                                      halted: Option<JobId>, tick: Tick)
    requires tick.now == s.clock == s'.clock && FreshIds(s.jobs.Keys, s.runs, tick.newId)
    requires TickOutcome(s.jobs, s.runs, s'.jobs, s'.runs, advanced, halted, tick)
    ensures Engine.Next(threshold, s, Materialise(tick, advanced, halted), s')
    ensures s'.jobs.Keys == s.jobs.Keys
    ensures s'.runs.Keys <= s.runs.Keys + Images(s.jobs.Keys, tick.newId)
  {
    hide Overflows, IsDueJob;
  }

  /** After a firing the rest still meets what the loop needs. */
  lemma {:induction false} Advance(clock: Instant, jobs: set<JobId>, runs: Runs, runs': Runs, firings: seq<Firing>,
                                   k: nat)
    requires k < |firings| && Monotone(clock, firings[k..]) && AllFresh(jobs, runs, firings[k..])
    requires firings[k].Poll? ==> runs'.Keys <= runs.Keys + Images(jobs, firings[k].tick.newId)
    requires firings[k].RecoveryPoll? ==> runs'.Keys <= runs.Keys
    ensures Monotone(LastRead(firings[k]), firings[k + 1..]) && AllFresh(jobs, runs', firings[k + 1..])
  {
    hide Monotone, FreshIds, Images;
    var rest := firings[k..];
    assert rest[0] == firings[k] && rest[1..] == firings[k + 1..];
    MonotoneRest(clock, rest);
    forall i | 0 < i < |rest| && rest[i].Poll?
      ensures FreshIds(jobs, runs', rest[i].tick.newId)
    {
      assert FreshIds(jobs, runs, rest[i].tick.newId);
      StillFresh(jobs, runs, runs', rest[0], rest[i].tick.newId);
    }
    AllFreshRest(jobs, runs, runs', rest);
  }

  lemma {:induction false} MonotoneRest(clock: Instant, firings: seq<Firing>)
    requires firings != [] && Monotone(clock, firings)
    ensures Monotone(LastRead(firings[0]), firings[1..])
  {
  }

  lemma {:induction false} StillFresh(jobs: set<JobId>, runs: Runs, runs': Runs, done: Firing, newId: JobId -> RunId)
    requires FreshIds(jobs, runs, newId)
    requires done.Poll? ==>
               && runs'.Keys <= runs.Keys + Images(jobs, done.tick.newId)
               && forall a, b :: a in jobs && b in jobs ==> done.tick.newId(a) != newId(b)
    requires done.RecoveryPoll? ==> runs'.Keys <= runs.Keys
    ensures FreshIds(jobs, runs', newId)
  {
  }

  lemma {:induction false} AllFreshRest(jobs: set<JobId>, runs: Runs, runs': Runs, firings: seq<Firing>)
    requires firings != [] && AllFresh(jobs, runs, firings)
    requires forall i :: 0 < i < |firings| && firings[i].Poll? ==> FreshIds(jobs, runs', firings[i].tick.newId)
    ensures AllFresh(jobs, runs', firings[1..])
  {
    hide FreshIds;
  }

  lemma {:induction false} Joined(threshold: Instant, states: seq<State>, events: seq<Event>,
                                  more: seq<State>, steps: seq<Event>)
    requires Behaviour(threshold, states, events) && Behaviour(threshold, more, steps)
    requires states[|events|] == more[0]
    ensures |more| == |steps| + 1
    ensures Behaviour(threshold, states + more[1..], events + steps)
    ensures (states + more[1..])[|events| + |steps|] == more[|steps|] && (states + more[1..])[0] == states[0]
    ensures |states + more[1..]| == |events + steps| + 1
  {
    hide Engine.Next, Engine.Inv;
    var (ss, es) := (states + more[1..], events + steps);
    forall k | 0 <= k < |es|
      ensures Engine.Next(threshold, ss[k], es[k], ss[k + 1])
    {
      if |events| <= k {
        assert Engine.Next(threshold, more[k - |events|], steps[k - |events|], more[k - |events| + 1]);
      }
    }
  }

  lemma {:induction false} Followed(firings: seq<Firing>, k: nat, owner: string, limit: nat,
                                    events: seq<Event>, steps: seq<Event>)
    requires k < |firings| && Follows(firings[..k], owner, limit, events) && StepsOf(firings[k], owner, limit, steps)
    ensures Follows(firings[..k + 1], owner, limit, events + steps)
  {
    var first := firings[..k + 1];
    assert first[..|first| - 1] == firings[..k];
    assert (events + steps)[..|events|] == events && (events + steps)[|events|..] == steps;
  }
}
