/** The SQLite store: the `job_runs` table, changed statement by statement under one lock.

    `contents` says which runs the table holds. Every method has the contract of the in-memory
    store's method on `contents`, provided that all instants have four-digit years. */
module SqliteStores {
  import opened Calendar
  import opened Collections
  import opened Types
  import opened Wrappers
  import opened StoreSpec
  import opened Timestamps
  import opened Rows

  /** What `LIMIT` lets through; a negative one lets everything through. */
  function SqlLimit(limit: int, rows: nat): nat {
    if limit < 0 then rows else Min(limit, rows)
  }

  class SqliteStore {
    var rows: Table
    ghost var contents: Runs

    /** The table holds the contents. */
    ghost predicate Holds()
      reads this
    {
      Keyed(contents) && rows == Encode(contents)
    }

    /** The table holds the contents, and all of them can be read back and compared. */
    ghost predicate Valid()
      reads this
    {
      Holds() && AllStorable(contents)
    }

    constructor ()
      ensures Valid() && contents == map[]
    {
      rows, contents := map[], map[];
    }

    method InsertRun(run: JobRun) returns (result: Result<()>)
      requires Holds()
      modifies this
      ensures Holds() && InsertOutcome(old(contents), run, result, contents)
      ensures old(Valid()) && Storable(run) ==> Valid()
    {
      hide Storable, RunToRow;
      if run.runId in rows {
        return Err(Conflict(run.runId));
      }
      EncodeStore(contents, run);
      rows := rows[run.runId := RunToRow(run)];
      contents := contents[run.runId := run];
      result := Ok(());
    }

    /** `SELECT run_id ... WHERE status = 'scheduled' AND scheduled_for <= ?1 LIMIT ?2` */
    method SelectDueIds(now: string, limit: int) returns (ids: seq<RunId>)
      ensures Names(IdKey, ids) <= SelectDue(rows, now)
      ensures |ids| == |Names(IdKey, ids)| == SqlLimit(limit, |SelectDue(rows, now)|)
    {
      hide WhereDue, Names;
      ids := [];
      var unseen := rows.Keys;
      ghost var picked: set<RunId> := {};
      NoNames(IdKey, ids);
      while unseen != {} && (limit < 0 || |ids| < limit)
        invariant unseen <= rows.Keys
        invariant picked <= SelectDue(rows, now) <= picked + unseen
        invariant picked !! unseen
        invariant |picked| == |ids| && (0 <= limit ==> |ids| <= limit)
        invariant picked == Names(IdKey, ids)
        decreases |unseen|
      {
        var id :| id in unseen;
        unseen := unseen - {id};
        if WhereDue(rows[id], now) {
          NamesAppend(IdKey, ids, id);
          picked, ids := picked + {id}, ids + [id];
        }
      }
      CardinalityAtMost(picked, SelectDue(rows, now));
      PickedAll(picked, SelectDue(rows, now), unseen, if limit < 0 then |SelectDue(rows, now)| else limit);
    }

    method ReadRow(id: RunId) returns (result: Result<JobRun>)
      requires Holds() && id in rows
      ensures id in contents && contents[id].runId == id
      ensures if Storable(contents[id]) then result == Ok(contents[id]) else result.Err? && result.error.Internal?
    {
      hide RunToRow, RowToRun, Storable;
      RowRoundTrip(contents[id]);
      result := RowToRun(rows[id]);
    }

    /** `SELECT <columns> ... WHERE <where>`, each row read back as a run; one that cannot be read
        fails the query. */
    method Query(where: Row -> bool) returns (result: Result<seq<JobRun>>)
      requires Holds()
      ensures result.Ok? <==> AllReadable(contents, Chosen(rows, where))
      ensures result.Ok? ==> IsListing(contents, Chosen(rows, where), result.value)
    {
      hide RunToRow, RowToRun, Storable, Lists, AllReadable, Encode, Chosen;
      var out := [];
      var unseen := rows.Keys;
      ghost var kept, wanted: set<RunId> := {}, Chosen(rows, where);
      ListsNothing(contents, RunKey);
      ReadableOne(contents, {}, "");
      assert wanted <= unseen by { ChosenWithin(rows, where); }
      while unseen != {}
        invariant unseen <= rows.Keys && kept !! unseen
        invariant kept <= wanted <= kept + unseen
        invariant AllReadable(contents, kept) && IsListing(contents, kept, out)
        decreases |unseen|
      {
        var id :| id in unseen;
        ChosenKey(rows, where, id);
        ScanOne(kept, wanted, unseen, id);
        unseen := unseen - {id};
        if where(rows[id]) {
          var run := ReadRow(id);
          ReadableOne(contents, kept, id);
          ReadableOne(contents, wanted, id);
          if run.Err? { return run.Then(out); }
          ListsOne(contents, RunKey, kept, out, id);
          kept, out := kept + {id}, out + [run.value];
        }
      }
      assert kept == wanted;
      result := Ok(out);
    }

    /** One `UPDATE ... WHERE run_id = ?4 AND status = 'scheduled'` per selected id. */
    method UpdateLeases(ids: seq<RunId>, owner: string, lease: string, now: string)
      requires Distinct(IdKey, ids) && Names(IdKey, ids) <= SelectDue(rows, now)
      modifies this`rows
      ensures rows == ClaimRows(old(rows), Names(IdKey, ids), owner, lease, now)
    {
      ghost var done: set<RunId> := {};
      for k := 0 to |ids|
        invariant done == Names(IdKey, ids[..k])
        invariant rows == ClaimRows(old(rows), done, owner, lease, now)
      {
        NamesPrefixStep(IdKey, ids, k);
        assert ids[k] in SelectDue(old(rows), now);
        if ids[k] in rows && rows[ids[k]].status == "scheduled" {
          rows := rows[ids[k] := ClaimRow(rows[ids[k]], owner, lease, now)];
        }
        done := done + {ids[k]};
      }
      assert ids[..|ids|] == ids;
    }

    /** `picked` are the runs that are leased. More of them than a statement may have placeholders, or
        one that cannot be read back, fail the call after that. */
    method ClaimDueRuns(now: Instant, owner: string, limit: u64)
      returns (result: Result<seq<JobRun>>, ghost picked: set<RunId>)
      requires Holds() && FourDigitYear(now) && FourDigitYear(now + LEASE)
      modifies this
      ensures Holds() && contents == ClaimAll(old(contents), picked, now, owner)
      ensures picked <= DueTexts(old(contents), now)
      ensures |picked| == SqlLimit(AsI64(limit), |DueTexts(old(contents), now)|)
      ensures result.Ok? <==> |picked| <= MAX_PLACEHOLDERS && AllReadable(contents, picked)
      ensures result.Ok? ==> IsListing(contents, picked, result.value)
      ensures old(Valid()) ==> Valid()
      ensures old(Valid()) && result.Ok? ==> ClaimOutcome(old(contents), now, owner, limit, result.value, contents)
    {
      hide Storable, RunToRow, RowToRun, DtToStr, ClaimRow, ClaimRun, WhereDue, IsDue, SelectDue, ClaimRows;
      hide DueByText, Names, Distinct, Lists, AllReadable, ClaimOutcome;
      var nowText, leaseText := DtToStr(now), DtToStr(now + LEASE);
      var ids := SelectDueIds(nowText, AsI64(limit));
      SelectDueMeaning(contents, now);
      DistinctByCount(IdKey, ids);
      UpdateLeases(ids, owner, leaseText, nowText);
      picked := Names(IdKey, ids);
      ClaimRowsMeaning(contents, picked, now, owner);
      ClaimKeepsKeys(contents, picked, now, owner);
      contents := ClaimAll(contents, picked, now, owner);
      if ids == [] {
        NoNames(IdKey, ids);
        ListsNothing(contents, RunKey);
        ReadableOne(contents, {}, "");
        if old(Valid()) {
          BatchClaimed(old(contents), now, owner, limit, picked, []);
        }
        return Ok([]), picked;
      }
      if |ids| > MAX_PLACEHOLDERS {
        return Err(Internal("too many SQL variables")), picked;
      }
      var where := (row: Row) => row.runId in ids;
      RunIdColumn(contents);
      SelectByIds(rows, ids);
      result := Query(where);
      assert Chosen(rows, where) == picked;
      if old(Valid()) && result.Ok? {
        BatchClaimed(old(contents), now, owner, limit, picked, result.value);
      }
    }

    /** The column by column patch, between `BEGIN` and `COMMIT`. */
    method UpdateRun(id: RunId, patch: RunPatch, now: Instant) returns (result: Result<()>)
      requires Holds()
      modifies this
      ensures Holds() && UpdateRowOutcome(old(contents), id, patch, now, result, contents)
      ensures old(Valid()) && StorablePatch(patch) && FourDigitYear(now) ==> Valid()
    {
      hide Storable, RunToRow, DtToStr;
      if id !in rows {
        return Err(NotFound(id));
      }
      var row := PatchColumns(rows[id], patch, DtToStr(now));
      rows := rows[id := row];
      if patch != NO_PATCH {
        ghost var run := ApplyPatch(contents[id], patch, now);
        PatchRowApplies(contents[id], patch, now);
        PatchKeepsStorable(contents[id], patch, now);
        EncodeStore(contents, run);
        contents := contents[id := run];
      }
      result := Ok(());
    }

    /** One `UPDATE ... SET <column> = ?1, updated_at = ?2 WHERE run_id = ?3` per patched column. */
    static method PatchColumns(before: Row, patch: RunPatch, now: string) returns (row: Row)
      ensures row == PatchRow(before, patch, now)
    {
      hide DtToStr;
      row := PatchDispatchColumns(before, patch, now);
      row := PatchResultColumns(row, patch, now);
    }

    static method PatchDispatchColumns(before: Row, patch: RunPatch, now: string) returns (row: Row)
      ensures row == before.(status := row.status,
                             leaseOwner := OrElse(patch.leaseOwner, before.leaseOwner),
                             leaseExpiresAt := OrElse(OptDtToStr(patch.leaseExpiresAt), before.leaseExpiresAt),
                             dispatchedAt := OrElse(OptDtToStr(patch.dispatchedAt), before.dispatchedAt),
                             startedAt := OrElse(OptDtToStr(patch.startedAt), before.startedAt),
                             updatedAt := row.updatedAt)
      ensures row.status == if patch.status.Some? then StatusToStr(patch.status.value) else before.status
      ensures row.updatedAt == if patch.status.Some? || patch.leaseOwner.Some? || patch.leaseExpiresAt.Some?
                                  || patch.dispatchedAt.Some? || patch.startedAt.Some? then now else before.updatedAt
    {
      hide DtToStr, StatusToStr;
      row := before;
      if patch.status.Some? { row := row.(status := StatusToStr(patch.status.value), updatedAt := now); }
      if patch.leaseOwner.Some? { row := row.(leaseOwner := patch.leaseOwner, updatedAt := now); }
      if patch.leaseExpiresAt.Some? {
        row := row.(leaseExpiresAt := OptDtToStr(patch.leaseExpiresAt), updatedAt := now);
      }
      if patch.dispatchedAt.Some? { row := row.(dispatchedAt := OptDtToStr(patch.dispatchedAt), updatedAt := now); }
      if patch.startedAt.Some? { row := row.(startedAt := OptDtToStr(patch.startedAt), updatedAt := now); }
    }

    static method PatchResultColumns(before: Row, patch: RunPatch, now: string) returns (row: Row)
      ensures row == before.(heartbeatAt := OrElse(OptDtToStr(patch.heartbeatAt), before.heartbeatAt),
                             finishedAt := OrElse(OptDtToStr(patch.finishedAt), before.finishedAt),
                             attempt := patch.attempt.GetOr(before.attempt),
                             outputJson := OrElse(patch.outputJson, before.outputJson),
                             errorJson := OrElse(patch.errorJson, before.errorJson),
                             updatedAt := row.updatedAt)
      ensures row.updatedAt == if patch.heartbeatAt.Some? || patch.finishedAt.Some? || patch.attempt.Some?
                                  || patch.outputJson.Some? || patch.errorJson.Some? then now else before.updatedAt
    {
      hide DtToStr;
      row := before;
      if patch.heartbeatAt.Some? { row := row.(heartbeatAt := OptDtToStr(patch.heartbeatAt), updatedAt := now); }
      if patch.finishedAt.Some? { row := row.(finishedAt := OptDtToStr(patch.finishedAt), updatedAt := now); }
      if patch.attempt.Some? { row := row.(attempt := patch.attempt.value, updatedAt := now); }
      if patch.outputJson.Some? { row := row.(outputJson := patch.outputJson, updatedAt := now); }
      if patch.errorJson.Some? { row := row.(errorJson := patch.errorJson, updatedAt := now); }
    }

    method GetRun(id: RunId) returns (result: Result<JobRun>)
      requires Holds()
      ensures id in contents && !Storable(contents[id]) ==> result.Err? && result.error.Internal?
      ensures id !in contents || Storable(contents[id]) ==> result == Get(contents, id)
    {
      hide Storable, RunToRow, RowToRun;
      if id !in rows {
        return Err(NotFound(id));
      }
      result := ReadRow(id);
    }

    /** The first of the given rows in `ORDER BY created_at DESC`; the order is that of the texts. */
    method FirstRow(ids: set<RunId>) returns (id: RunId)
      requires Valid() && ids != {} && ids <= rows.Keys
      ensures id in ids && IsNewest(contents, ids, id)
    {
      hide Storable, RunToRow, HasLatestText, IsNewest;
      ghost var newest := NewestExists(contents, ids);
      NewestMeaning(contents, ids, newest);
      id :| id in ids && HasLatestText(rows, ids, id);
      NewestMeaning(contents, ids, id);
    }

    /** `SELECT <columns> ... WHERE <filter> ORDER BY created_at DESC LIMIT <limit>` */
    method ListRuns(filter: RunFilter) returns (result: Result<seq<JobRun>>)
      requires Valid()
      ensures result.Ok? && ListOutcome(contents, filter, result.value)
    {
      hide Storable, RunToRow, RowToRun, WhereMatches, Matches, NewestTaken, IsNewest, ListOutcome;
      var left, out := SelectMatching(rows, filter), [];
      SelectMatchingMeaning(contents, filter);
      ghost var taken: set<RunId> := {};
      NothingTaken(contents, left);
      while left != {} && (filter.limit.None? || |out| < filter.limit.value)
        invariant left <= contents.Keys && left + taken == Matching(contents, filter)
        invariant NewestTaken(contents, left, taken, out)
        invariant filter.limit.Some? ==> |out| <= filter.limit.value
        decreases |left|
      {
        var id := FirstRow(left);
        RowRoundTrip(contents[id]);
        TakeNewest(contents, left, taken, out, id);
        match RowToRun(rows[id]) {
          case Err(e) => return Err(e);
          case Ok(run) => left, taken, out := left - {id}, taken + {id}, out + [run];
        }
      }
      NewestTakenOutcome(contents, filter, left, taken, out);
      result := Ok(out);
    }

    method GetStaleRuns(now: Instant, threshold: Instant) returns (result: Result<seq<JobRun>>)
      requires Holds() && FourDigitYear(now) && FourDigitYear(now - threshold)
      ensures result.Ok? <==> AllReadable(contents, StaleTexts(contents, now, threshold))
      ensures result.Ok? ==> IsListing(contents, StaleTexts(contents, now, threshold), result.value)
      ensures Valid() ==> result.Ok? && IsListing(contents, Stale(contents, now, threshold), result.value)
    {
      hide Storable, RunToRow, RowToRun, DtToStr, IsStale, StaleByText;
      var nowText, cutoff := DtToStr(now), DtToStr(now - threshold);
      var where := (row: Row) => WhereStale(row, nowText, cutoff);
      result := Query(where);
      SelectStaleMeaning(contents, now, threshold);
      assert Chosen(rows, where) == SelectStale(rows, nowText, cutoff);
    }

    method CountActiveRuns(job: JobId) returns (count: nat)
      requires Holds()
      ensures count == |ActiveRuns(contents, job)|
    {
      hide Storable, RunToRow, IsActive;
      count := |SelectActive(rows, job)|;
      SelectActiveMeaning(contents, job);
    }
  }

  /** `WHERE run_id IN (...)` */
  lemma {:induction false} SelectByIds(rows: Table, ids: seq<RunId>)
    requires (forall id :: id in rows ==> rows[id].runId == id) && Names(IdKey, ids) <= rows.Keys
    ensures Names(IdKey, ids) == set id | id in rows && rows[id].runId in ids
  {
    forall id | id in ids
      ensures id in rows
    {
      assert IdKey(id) in Names(IdKey, ids);
    }
  }

  /** Whether one more run can be read. */
  lemma {:induction false} ReadableOne(runs: Runs, ids: set<RunId>, id: RunId)
    ensures AllReadable(runs, {})
    ensures AllReadable(runs, ids) && id in runs && Storable(runs[id]) ==> AllReadable(runs, ids + {id})
    ensures AllReadable(runs, ids) && id in ids ==> id in runs && Storable(runs[id])
  {
  }

  /** A batch that was read back is a claim. */
  lemma {:induction false} BatchClaimed(runs: Runs, now: Instant, owner: string, limit: u64, picked: set<RunId>,
                                        claimed: seq<JobRun>)
    requires picked <= Due(runs, now) && |picked| == SqlLimit(AsI64(limit), |Due(runs, now)|) <= MAX_PLACEHOLDERS
    requires IsListing(ClaimAll(runs, picked, now, owner), picked, claimed)
    ensures ClaimOutcome(runs, now, owner, limit, claimed, ClaimAll(runs, picked, now, owner))
  {
    hide Due, ClaimAll;
  }
}
