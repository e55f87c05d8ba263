/** The lease protocol on the table: every step makes its store call on text rows, and what it sees is
    what SQLite lets it see. Through the equivalence of the stores these are the behaviours of
    `LeaseProtocol`, so that its theorems hold here as well. */
module SqliteProtocol {
  import opened Calendar
  import opened Types
  import opened Wrappers
  import opened StoreSpec
  import opened Rows
  import opened Refinement
  import opened Recovery
  import opened LeaseProtocol
  import NonInterference

  datatype TableState = TableState(rows: Table, clock: Instant, phase: Phase)

  /** The store call a step makes, and what it sees of the table before. */
  ghost predicate Makes(threshold: Instant, s: TableState, e: Event, c: Call) {
    match e
    case Insert(run) => run.status.Scheduled? && c == InsertCall(run, Ok(()))
    case Claim(owner, limit, picked) =>
      && c.ClaimCall? && c.now == s.clock && c.owner == owner && c.limit == limit && Ids(c.claimed) == picked
    case Execute(id, patch) =>
      && patch != NO_PATCH && c == UpdateCall(id, patch, s.clock, Ok(()))
      && id in s.rows && RowToRun(s.rows[id]).Ok? && ExecutorMay(RowToRun(s.rows[id]).value, patch)
    case TakeStale(stale) => s.phase.Began? && c == StaleCall(s.phase.now, threshold, stale)
    case RecoverNext =>
      && s.phase.StaleLoop? && s.phase.todo != []
      && c == UpdateCall(s.phase.todo[0].runId, FirstPatch(s.phase.todo[0], s.phase.now), s.clock, Ok(()))
    case FinishRescue =>
      s.phase.Rescuing? && c == UpdateCall(s.phase.run.runId, SecondPatch(s.phase.run), s.clock, Ok(()))
    case TakeRetries(retries) => s.phase.StaleLoop? && s.phase.todo == [] && c == ListCall(RETRY_FILTER, retries)
    case AdvanceNext =>
      && s.phase.RetryLoop? && s.phase.todo != [] && RetryReady(s.phase.todo[0], s.phase.now)
      && c == UpdateCall(s.phase.todo[0].runId, RESCHEDULE_PATCH, s.clock, Ok(()))
    case _ => false
  }

  /** The steps that make no store call. */
  ghost predicate Silent(s: TableState, e: Event) {
    match e
    case Pass(until) => s.clock <= until
    case BeginRecovery => s.phase.Idle?
    case AdvanceNext =>
      s.phase.RetryLoop? && s.phase.todo != [] && !RetryReady(s.phase.todo[0], s.phase.now)
    case EndRecovery => s.phase.RetryLoop? && s.phase.todo == []
    case _ => false
  }

  /** Where the step takes the clock and the recoverer. */
  function After(phase: Phase, clock: Instant, e: Event): (Instant, Phase) {
    match e
    case Pass(until) => (until, phase)
    case BeginRecovery => (clock, Began(clock))
    case TakeStale(stale) => (clock, if phase.Began? then StaleLoop(phase.now, stale) else phase)
    case RecoverNext =>
      if phase.StaleLoop? && phase.todo != [] then
        (clock, if phase.todo[0].status.Running? then Rescuing(phase.now, phase.todo[0], phase.todo[1..])
                else StaleLoop(phase.now, phase.todo[1..]))
      else (clock, phase)
    case FinishRescue => (clock, if phase.Rescuing? then StaleLoop(phase.now, phase.todo) else phase)
    case TakeRetries(retries) => (clock, if phase.StaleLoop? then RetryLoop(phase.now, retries) else phase)
    case AdvanceNext =>
      (clock, if phase.RetryLoop? && phase.todo != [] then RetryLoop(phase.now, phase.todo[1..]) else phase)
    case EndRecovery => (clock, Idle)
    case _ => (clock, phase)
  }

  /** A step on the table, in the years SQLite's text comparisons are made for. */
  ghost predicate TableNext(threshold: Instant, s: TableState, e: Event, c: Call, s': TableState) {
    && (s'.clock, s'.phase) == After(s.phase, s.clock, e)
    && if Silent(s, e) then s'.rows == s.rows
       else Makes(threshold, s, e, c) && StorableCall(c) && SqlAllows(s.rows, c) && s'.rows == SqlNext(s.rows, c)
  }

  /** The table and the map hold the same runs. */
  ghost predicate Alike(t: TableState, s: State) {
    Keyed(s.runs) && AllStorable(s.runs) && t == TableState(Encode(s.runs), s.clock, s.phase)
  }

  /** Without a limit, a filtered listing has every matching run. */
  lemma {:induction false} UnlimitedListing(runs: Runs, out: seq<JobRun>)
    requires ListOutcome(runs, RETRY_FILTER, out)
    ensures IsListing(runs, Matching(runs, RETRY_FILTER), out)
  {
    Collections.CardinalityAtMost(Ids(out), Matching(runs, RETRY_FILTER));
  }

  /** The run an executor reads from the table is the one in the map. */
  lemma {:induction false} ReadRun(runs: Runs, id: RunId)
    requires AllStorable(runs) && id in runs
    ensures RowToRun(Encode(runs)[id]) == Ok(runs[id])
  {
    hide RunToRow, RowToRun, Storable;
    RowRoundTrip(runs[id]);
  }

  /** What the call was seen to return and do in memory. */
  lemma {:induction false} CallMeaning(runs: Runs, c: Call)
    requires Keyed(runs) && AllStorable(runs) && StorableCall(c) && SqlAllows(Encode(runs), c) && Harmless(runs, c)
    ensures MemAllows(runs, c) && SqlNext(Encode(runs), c) == Encode(MemNext(runs, c))
    ensures Keyed(MemNext(runs, c)) && AllStorable(MemNext(runs, c))
  {
    hide SqlAllows, MemAllows, SqlNext, MemNext, Storable, StorableCall, Harmless;
    AllowsMeaning(runs, c);
    NextMeaning(runs, c);
  }

  lemma {:induction false} NonEmptyPatches(run: JobRun, now: Instant)
    ensures FirstPatch(run, now) != NO_PATCH && SecondPatch(run) != NO_PATCH && RESCHEDULE_PATCH != NO_PATCH
  {
  }

  lemma {:induction false} MakesHarmless(threshold: Instant, t: TableState, s: State, e: Event, c: Call)
    requires Alike(t, s) && Makes(threshold, t, e, c)
    ensures Harmless(s.runs, c)
  {
    hide FirstPatch, SecondPatch, RowToRun, ExecutorMay;
    if e.RecoverNext? {
      NonEmptyPatches(t.phase.todo[0], t.phase.now);
    } else if e.FinishRescue? {
      NonEmptyPatches(t.phase.run, t.phase.now);
    }
  }

  /** Each step on the table is that step of the protocol. */
  lemma {:induction false} StepRefines(threshold: Instant, t: TableState, s: State, e: Event, c: Call, t': TableState)
    returns (s': State)
    requires Alike(t, s) && LeaseProtocol.Inv(s) && TableNext(threshold, t, e, c, t')
    ensures Alike(t', s') && Next(threshold, s, e, s')
  {
    assert forall run :: run in Todo(s.phase) ==> run.runId in s.runs;
    hide LeaseProtocol.Inv, SqlAllows, SqlNext, Storable, RowToRun, RunToRow, StorableCall, Harmless, ApplyPatch;
    if Silent(t, e) {
      s' := State(s.runs, t'.clock, t'.phase);
    } else {
      MakesHarmless(threshold, t, s, e, c);
      CallMeaning(s.runs, c);
      s' := State(MemNext(s.runs, c), t'.clock, t'.phase);
      CallIsStep(threshold, t, s, e, c, s');
    }
  }

  lemma {:induction false} CallIsStep(threshold: Instant, t: TableState, s: State, e: Event, c: Call, s': State)
    requires Alike(t, s) && Makes(threshold, t, e, c) && MemAllows(s.runs, c)
    requires s'.runs == MemNext(s.runs, c) && (s'.clock, s'.phase) == After(s.phase, s.clock, e)
    ensures Next(threshold, s, e, s')
  {
    hide Storable, RowToRun, RunToRow, ApplyPatch, ExecutorMay, FirstPatch, SecondPatch, IsStale, IsDue;
    match e
    case TakeRetries(retries) => UnlimitedListing(s.runs, retries);
    case Execute(id, _) => ReadRun(s.runs, id);
    case _ =>
  }

  ghost predicate TableBehaviour(threshold: Instant, tables: seq<TableState>, events: seq<Event>, calls: seq<Call>) {
    && |tables| == |events| + 1 && |calls| == |events|
    && forall k :: 0 <= k < |events| ==> TableNext(threshold, tables[k], events[k], calls[k], tables[k + 1])
  }

  /** Every behaviour on the table is a behaviour of the protocol, with the same steps at the same
      times, and the table holds its runs all along. */
  lemma {:induction false} TableRefines(threshold: Instant, tables: seq<TableState>, events: seq<Event>,
                                        calls: seq<Call>, start: State, k: nat)
    returns (states: seq<State>)
    requires TableBehaviour(threshold, tables, events, calls) && k <= |events|
    requires Alike(tables[0], start) && LeaseProtocol.Inv(start)
    ensures Behaviour(threshold, states, events[..k]) && states[0] == start
    ensures forall i :: 0 <= i <= k ==> Alike(tables[i], states[i])
  {
    hide LeaseProtocol.Inv, Next, TableNext, Alike;
    if k == 0 {
      states := [start];
    } else {
      var before := TableRefines(threshold, tables, events, calls, start, k - 1);
      InvAlways(threshold, before, events[..k - 1], k - 1);
      var last := StepRefines(threshold, tables[k - 1], before[k - 1], events[k - 1], calls[k - 1], tables[k]);
      states := before + [last];
      assert events[..k] == events[..k - 1] + [events[k - 1]];
    }
  }

  /** Mutual exclusion in time on SQLite: two claims of a run, without a report of its end in between,
      are more than the smaller of 30 s and the stale threshold apart. */
  lemma {:induction false} TableLeaseExclusive(threshold: Instant, tables: seq<TableState>, events: seq<Event>,
                                               calls: seq<Call>, start: State, i: nat, j: nat, id: RunId)
    requires TableBehaviour(threshold, tables, events, calls) && Alike(tables[0], start) && LeaseProtocol.Inv(start)
    requires i < j < |events| && Claims(events[i], id) && Claims(events[j], id)
    requires forall k :: i < k < j ==> !Releases(events[k], id)
    ensures tables[i].clock + Margin(threshold) < tables[j].clock
  {
    hide LeaseProtocol.Inv, Next, TableNext;
    var states := TableRefines(threshold, tables, events, calls, start, |events|);
    assert events[..|events|] == events;
    LeaseExclusive(threshold, states, events, i, j, id);
    assert Alike(tables[i], states[i]) && Alike(tables[j], states[j]);
  }

  /** Non-interference on SQLite: as long as executors leave alone the runs recovery is about to write,
      every change of a stored status is an edge of the lifecycle graph, and finished rows stay. */
  lemma {:induction false} TableLifecycleKept(threshold: Instant, tables: seq<TableState>, events: seq<Event>,
                                              calls: seq<Call>, start: State, k: nat, id: RunId)
    returns (before: JobRun, after: JobRun)
    requires TableBehaviour(threshold, tables, events, calls) && Alike(tables[0], start) && LeaseProtocol.Inv(start)
    requires tables[0].phase.Idle? && k < |events| && id in tables[k].rows
    requires forall n :: 0 <= n < |events| ==> NonInterference.Spares(events[n], tables[n].phase)
    ensures RowToRun(tables[k].rows[id]) == Ok(before)
    ensures id in tables[k + 1].rows && RowToRun(tables[k + 1].rows[id]) == Ok(after)
    ensures NonInterference.StatusKept(tables[k].clock, before, after)
  {
    hide LeaseProtocol.Inv, Next, TableNext, NonInterference.StatusKept, NonInterference.Spares;
    hide RowToRun, RunToRow, Storable;
    var states := TableRefines(threshold, tables, events, calls, start, |events|);
    assert events[..|events|] == events;
    assert forall n :: 0 <= n <= |events| ==> states[n].phase == tables[n].phase by {
      assert forall n :: 0 <= n <= |events| ==> Alike(tables[n], states[n]);
    }
    assert Alike(tables[k], states[k]) && Alike(tables[k + 1], states[k + 1]);
    NonInterference.LifecycleKept(threshold, states, events, k, id);
    before, after := states[k].runs[id], states[k + 1].runs[id];
    ReadRun(states[k].runs, id);
    ReadRun(states[k + 1].runs, id);
  }
}
