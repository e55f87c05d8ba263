/** The two stores behave alike: `SqliteStore` and `MemoryStore` admit exactly the same traces.

    A call is an operation together with what it was seen to return, so a trace fixes every result
    and every choice among equally good runs. The SQL side looks at text columns only. */
module Refinement {
  import opened Calendar
  import opened Types
  import opened Wrappers
  import opened StoreSpec
  import opened Timestamps
  import opened Rows

  datatype Call =
    | InsertCall(run: JobRun, inserted: Result<()>)
    | ClaimCall(now: Instant, owner: string, limit: nat, claimed: seq<JobRun>)
    | UpdateCall(id: RunId, patch: RunPatch, now: Instant, updated: Result<()>)
    | GetCall(id: RunId, found: Result<JobRun>)
    | StaleCall(now: Instant, threshold: Instant, stale: seq<JobRun>)
    | CountCall(job: JobId, count: nat)
    | ListCall(filter: RunFilter, listed: seq<JobRun>)

  /** Every instant the call writes or compares with has a four-digit year. */
  predicate StorableCall(c: Call) {
    match c
    case InsertCall(run, _) => Storable(run)
    case ClaimCall(now, _, _, _) => FourDigitYear(now) && FourDigitYear(now + LEASE)
    case UpdateCall(_, patch, now, _) => StorablePatch(patch) && FourDigitYear(now)
    case StaleCall(now, threshold, _) => FourDigitYear(now) && FourDigitYear(now - threshold)
    case _ => true
  }

  /** SQLite reads a claimed batch back with one placeholder for each run. */
  predicate FitsStatement(c: Call) {
    c.ClaimCall? ==> |c.claimed| <= MAX_PLACEHOLDERS
  }

  /** The call is not an empty patch of a run that another time would have to be stamped on. */
  predicate Harmless(runs: Runs, c: Call) {
    c.UpdateCall? && c.patch == NO_PATCH && c.id in runs ==> runs[c.id].updatedAt == c.now
  }

  // ---------------------------------------------------------------------------------------------
  // The in-memory store
  // ---------------------------------------------------------------------------------------------

  ghost function MemNext(runs: Runs, c: Call): Runs {
    match c
    case InsertCall(run, _) => if run.runId in runs then runs else runs[run.runId := run]
    case ClaimCall(now, owner, _, claimed) => ClaimAll(runs, Ids(claimed), now, owner)
    case UpdateCall(id, patch, now, _) => if id in runs then runs[id := ApplyPatch(runs[id], patch, now)] else runs
    case _ => runs
  }

  ghost predicate MemAllows(runs: Runs, c: Call) {
    match c
    case InsertCall(run, inserted) => InsertOutcome(runs, run, inserted, MemNext(runs, c))
    case ClaimCall(now, owner, limit, claimed) => ClaimOutcome(runs, now, owner, limit, claimed, MemNext(runs, c))
    case UpdateCall(id, patch, now, updated) => UpdateOutcome(runs, id, patch, now, updated, MemNext(runs, c))
    case GetCall(id, found) => found == Get(runs, id)
    case StaleCall(now, threshold, stale) => IsListing(runs, Stale(runs, now, threshold), stale)
    case CountCall(job, count) => count == |ActiveRuns(runs, job)|
    case ListCall(filter, listed) => ListOutcome(runs, filter, listed)
  }

  ghost predicate MemAdmits(runs: Runs, trace: seq<Call>)
    decreases |trace|
  {
    trace == [] || (MemAllows(runs, trace[0]) && MemAdmits(MemNext(runs, trace[0]), trace[1..]))
  }

  // ---------------------------------------------------------------------------------------------
  // The SQLite store
  // ---------------------------------------------------------------------------------------------

  ghost predicate RowListing(rows: Table, ids: set<RunId>, out: seq<JobRun>) {
    && (forall r :: r in out ==> r.runId in rows && RowToRun(rows[r.runId]) == Ok(r))
    && Ids(out) == ids
    && |out| == |ids|
  }

  /** `ORDER BY created_at DESC LIMIT`, by the texts of the column. */
  ghost predicate RowListOutcome(rows: Table, filter: RunFilter, out: seq<JobRun>) {
    var all := SelectMatching(rows, filter);
    && Ids(out) <= all
    && RowListing(rows, Ids(out), out)
    && |out| == ListLength(filter, |all|)
    && (forall i, j :: 0 <= i < j < |out| ==> TextAtMost(rows[out[j].runId].createdAt, rows[out[i].runId].createdAt))
    && forall id, i :: id in all - Ids(out) && 0 <= i < |out| ==>
         TextAtMost(rows[id].createdAt, rows[out[i].runId].createdAt)
  }

  ghost function SqlNext(rows: Table, c: Call): Table
    requires StorableCall(c)
  {
    match c
    case InsertCall(run, _) => if run.runId in rows then rows else rows[run.runId := RunToRow(run)]
    case ClaimCall(now, owner, _, claimed) =>
      ClaimRows(rows, Ids(claimed), owner, DtToStr(now + LEASE), DtToStr(now))
    case UpdateCall(id, patch, now, _) =>
      if id in rows then rows[id := PatchRow(rows[id], patch, DtToStr(now))] else rows
    case _ => rows
  }

  ghost predicate SqlAllows(rows: Table, c: Call)
    requires StorableCall(c)
  {
    match c
    case InsertCall(run, inserted) =>
      inserted == if run.runId in rows then Err(Conflict(run.runId)) else Ok(())
    case ClaimCall(now, owner, limit, claimed) =>
      var due := SelectDue(rows, DtToStr(now));
      && Ids(claimed) <= due && |Ids(claimed)| == Min(limit, |due|)
      && RowListing(SqlNext(rows, c), Ids(claimed), claimed) && FitsStatement(c)
    case UpdateCall(id, _, _, updated) => updated == if id in rows then Ok(()) else Err(NotFound(id))
    case GetCall(id, found) => found == if id in rows then RowToRun(rows[id]) else Err(NotFound(id))
    case StaleCall(now, threshold, stale) =>
      RowListing(rows, SelectStale(rows, DtToStr(now), DtToStr(now - threshold)), stale)
    case CountCall(job, count) => count == |SelectActive(rows, job)|
    case ListCall(filter, listed) => RowListOutcome(rows, filter, listed)
  }

  ghost predicate SqlAdmits(rows: Table, trace: seq<Call>)
    decreases |trace|
  {
    trace == [] ||
    (StorableCall(trace[0]) && SqlAllows(rows, trace[0]) && SqlAdmits(SqlNext(rows, trace[0]), trace[1..]))
  }

  // ---------------------------------------------------------------------------------------------
  // Equivalence of single calls
  // ---------------------------------------------------------------------------------------------

  lemma {:induction false} RowListingMeaning(runs: Runs, ids: set<RunId>, out: seq<JobRun>)
    requires AllStorable(runs)
    ensures RowListing(Encode(runs), ids, out) <==> IsListing(runs, ids, out)
  {
    hide RunToRow, RowToRun, Storable;
    forall id | id in runs
      ensures RowToRun(Encode(runs)[id]) == Ok(runs[id])
    {
      RowRoundTrip(runs[id]);
    }
  }

  lemma {:induction false} CreatedTextMeaning(runs: Runs, a: RunId, b: RunId)
    requires AllStorable(runs) && a in runs && b in runs
    ensures TextAtMost(Encode(runs)[a].createdAt, Encode(runs)[b].createdAt) <==> Age(runs[b]) <= Age(runs[a])
  {
    hide DtToStr;
    OrderEmbedding(runs[a].createdAt, runs[b].createdAt);
  }

  lemma {:induction false} RowListMeaning(runs: Runs, filter: RunFilter, out: seq<JobRun>)
    requires AllStorable(runs)
    ensures RowListOutcome(Encode(runs), filter, out) <==> ListOutcome(runs, filter, out)
  {
    hide RunToRow, RowToRun, Storable, WhereMatches, Matches;
    SelectMatchingMeaning(runs, filter);
    RowListingMeaning(runs, Ids(out), out);
    if IsListing(runs, Ids(out), out) {
      forall i | 0 <= i < |out|
        ensures out[i].runId in runs && runs[out[i].runId] == out[i]
      {
      }
      forall a, b | a in runs && b in runs
        ensures TextAtMost(Encode(runs)[a].createdAt, Encode(runs)[b].createdAt) <==> Age(runs[b]) <= Age(runs[a])
      {
        CreatedTextMeaning(runs, a, b);
      }
    }
  }

  /** The tables go on holding the runs, except where an empty patch stamps only the in-memory run. */
  lemma {:induction false} NextMeaning(runs: Runs, c: Call)
    requires Keyed(runs) && AllStorable(runs) && StorableCall(c)
    ensures Keyed(MemNext(runs, c)) && AllStorable(MemNext(runs, c))
    ensures SqlNext(Encode(runs), c) == Encode(MemNext(runs, c)) <==> Harmless(runs, c)
  {
    hide RunToRow, Storable, DtToStr, ClaimRun, ClaimRow;
    match c
    case InsertCall(run, _) =>
      EncodeStore(runs, run);
    case ClaimCall(now, owner, _, claimed) =>
      ClaimRowsMeaning(runs, Ids(claimed), now, owner);
      ClaimKeepsKeys(runs, Ids(claimed), now, owner);
    case UpdateCall(id, patch, now, _) =>
      if id in runs {
        var run := ApplyPatch(runs[id], patch, now);
        PatchKeepsStorable(runs[id], patch, now);
        PatchRowMeaning(runs[id], patch, now);
        EncodeStore(runs, run);
        var rows, rows' := SqlNext(Encode(runs), c), Encode(MemNext(runs, c));
        assert rows[id] == rows'[id] <==> patch != NO_PATCH || runs[id].updatedAt == now;
        assert rows[id] == rows'[id] ==> rows == rows';
      }
    case _ =>
  }

  lemma {:induction false} AllowsMeaning(runs: Runs, c: Call)
    requires Keyed(runs) && AllStorable(runs) && StorableCall(c)
    ensures SqlAllows(Encode(runs), c) <==> MemAllows(runs, c) && FitsStatement(c)
  {
    hide RunToRow, RowToRun, Storable, DtToStr, RowListing, ListOutcome, RowListOutcome, PatchRow, ApplyPatch;
    match c
    case ClaimCall(now, owner, limit, claimed) =>
      SelectDueMeaning(runs, now);
      NextMeaning(runs, c);
      RowListingMeaning(MemNext(runs, c), Ids(claimed), claimed);
    case GetCall(id, _) =>
      if id in runs {
        RowRoundTrip(runs[id]);
      }
    case StaleCall(now, threshold, stale) =>
      SelectStaleMeaning(runs, now, threshold);
      RowListingMeaning(runs, Stale(runs, now, threshold), stale);
    case CountCall(job, _) =>
      SelectActiveMeaning(runs, job);
    case ListCall(filter, listed) =>
      RowListMeaning(runs, filter, listed);
    case _ =>
  }

  // ---------------------------------------------------------------------------------------------
  // Equivalence of traces
  // ---------------------------------------------------------------------------------------------

  /** Each call of the trace is harmless when it is made. */
  ghost predicate AllHarmless(runs: Runs, trace: seq<Call>)
    decreases |trace|
  {
    trace == [] || (Harmless(runs, trace[0]) && AllHarmless(MemNext(runs, trace[0]), trace[1..]))
  }

  /** Refinement, in both directions: from a table that holds the given runs, the SQLite store can
      be seen to do exactly what the in-memory store can be seen to do, call by call, as long as
      every claimed batch fits a statement. */
  lemma {:induction false} SameTraces(runs: Runs, trace: seq<Call>)
    requires Keyed(runs) && AllStorable(runs)
    requires (forall c :: c in trace ==> StorableCall(c)) && AllHarmless(runs, trace)
    ensures SqlAdmits(Encode(runs), trace) <==>
            MemAdmits(runs, trace) && forall c :: c in trace ==> FitsStatement(c)
    decreases |trace|
  {
    hide MemAllows, SqlAllows, MemNext, SqlNext, RunToRow, Storable, Harmless, FitsStatement;
    if trace != [] {
      assert trace == [trace[0]] + trace[1..];
      AllowsMeaning(runs, trace[0]);
      NextMeaning(runs, trace[0]);
      SameTraces(MemNext(runs, trace[0]), trace[1..]);
    }
  }

  /** Any runs of the store can be listed. */
  lemma {:induction false} SomeListing(runs: Runs, ids: set<RunId>) returns (out: seq<JobRun>)
    requires Keyed(runs) && ids <= runs.Keys
    ensures IsListing(runs, ids, out)
    decreases |ids|
  {
    out := [];
    if ids == {} {
      Collections.NoNames(RunKey, out);
    } else {
      var id :| id in ids;
      var rest := SomeListing(runs, ids - {id});
      Collections.ListsStep(runs, RunKey, ids - {id}, rest, runs[id]);
      assert runs[id := runs[id]] == runs && ids - {id} + {id} == ids;
      out := rest + [runs[id]];
    }
  }

  /** An empty patch of any other run can be seen: in memory it counts as a sign of life, so a later
      stale scan leaves the run out; the table still shows a stale row. This happens for every run
      that is stale only for lack of updates. */
  lemma {:induction false} EmptyPatchDiffers(runs: Runs, id: RunId, now: Instant, later: Instant, threshold: Instant)
    returns (others: seq<JobRun>)
    requires Keyed(runs) && AllStorable(runs)
    requires FourDigitYear(now) && FourDigitYear(later) && FourDigitYear(later - threshold)
    requires id in Stale(runs, later, threshold)
    requires runs[id].leaseExpiresAt.Some? ==> later <= runs[id].leaseExpiresAt.value
    requires later - threshold <= now
    ensures IsListing(runs, Stale(runs, later, threshold) - {id}, others)
    ensures var trace := [UpdateCall(id, NO_PATCH, now, Ok(())), StaleCall(later, threshold, others)];
            MemAdmits(runs, trace) && !SqlAdmits(Encode(runs), trace)
  {
    hide RunToRow, RowToRun, DtToStr, Storable, IsListing;
    others := SomeListing(runs, Stale(runs, later, threshold) - {id});
    var update, scan := UpdateCall(id, NO_PATCH, now, Ok(())), StaleCall(later, threshold, others);
    assert [update, scan][1..] == [scan] && [scan][1..] == [];
    NoLongerStale(runs, id, now, later, threshold, others);
    var touched := MemNext(runs, update);
    assert MemAdmits(touched, [scan]) by {
      assert MemAllows(touched, scan);
    }
    AllowsMeaning(runs, scan);
    assert SqlNext(Encode(runs), update) == Encode(runs);
  }

  lemma {:induction false} NoLongerStale(runs: Runs, id: RunId, now: Instant, later: Instant, threshold: Instant,
                                         others: seq<JobRun>)
    requires Keyed(runs) && id in Stale(runs, later, threshold)
    requires runs[id].leaseExpiresAt.Some? ==> later <= runs[id].leaseExpiresAt.value
    requires later - threshold <= now
    requires IsListing(runs, Stale(runs, later, threshold) - {id}, others)
    ensures var touched := runs[id := ApplyPatch(runs[id], NO_PATCH, now)];
            IsListing(touched, Stale(touched, later, threshold), others)
    ensures !IsListing(runs, Stale(runs, later, threshold), others)
  {
    var touched := runs[id := ApplyPatch(runs[id], NO_PATCH, now)];
    forall other | other in touched
      ensures IsStale(touched[other], later, threshold) <==> other in Stale(runs, later, threshold) - {id}
    {
    }
    assert Stale(touched, later, threshold) == Stale(runs, later, threshold) - {id};
    forall run | run in others
      ensures RunKey(run) != id
    {
      assert RunKey(run) in Collections.Names(RunKey, others);
    }
  }
}
