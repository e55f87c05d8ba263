/** Claiming: a worker leases a batch of due runs, and claiming over and over drains them all. */
module Claiming {
  import opened Calendar
  import opened Types
  import opened Wrappers
  import opened StoreSpec
  import opened MemoryStores
  import opened Recovery

  class LeaseManager {
    const store: MemoryStore
    const instanceId: string
    const batchSize: u32

    constructor (store: MemoryStore, instanceId: string, batchSize: u32)
      ensures this.store == store && this.instanceId == instanceId && this.batchSize == batchSize
    {
      this.store, this.instanceId, this.batchSize := store, instanceId, batchSize;
    }

    method ClaimBatch(now: Instant) returns (claimed: seq<JobRun>)
      requires store.Valid()
      modifies store`runs
      ensures store.Valid() && ClaimOutcome(old(store.runs), now, instanceId, batchSize, claimed, store.runs)
    {
      claimed := store.ClaimDueRuns(now, instanceId, batchSize);
    }
  }

  // ---------------------------------------------------------------------------------------------
  // Claims in a row, at one time
  // ---------------------------------------------------------------------------------------------

  datatype Claim = Claim(owner: string, picked: set<RunId>)

  ghost function AfterClaims(runs: Runs, now: Instant, claims: seq<Claim>): Runs
    decreases |claims|
  {
    if claims == [] then runs
    else AfterClaims(ClaimAll(runs, claims[0].picked, now, claims[0].owner), now, claims[1..])
  }

  /** Each claim takes what a claim with this limit may take. */
  ghost predicate ValidClaims(runs: Runs, now: Instant, limit: nat, claims: seq<Claim>)
    decreases |claims|
  {
    claims == [] ||
    (ValidPick(runs, now, limit, claims[0].picked) &&
     ValidClaims(ClaimAll(runs, claims[0].picked, now, claims[0].owner), now, limit, claims[1..]))
  }

  lemma {:induction false} ClaimShrinksDue(runs: Runs, now: Instant, ids: set<RunId>, owner: string)
    requires ids <= Due(runs, now)
    ensures Due(ClaimAll(runs, ids, now, owner), now) == Due(runs, now) - ids
    ensures |Due(ClaimAll(runs, ids, now, owner), now)| == |Due(runs, now)| - |ids|
  {
    var (due, after) := (Due(runs, now), ClaimAll(runs, ids, now, owner));
    assert Due(after, now) == due - ids;
    hide Due, ClaimAll;
    assert due == (due - ids) + ids;
  }

  /** How many runs fit into `n` claims. */
  function Room(n: nat, limit: nat): nat {
    if n == 0 then 0 else Room(n - 1, limit) + limit
  }

  lemma {:induction false} RoomIsProduct(n: nat, limit: nat)
    ensures Room(n, limit) == n * limit
  {
    if n != 0 {
      RoomIsProduct(n - 1, limit);
      OneMore(n - 1, limit);
    }
  }

  lemma {:induction false} OneMore(n: nat, limit: nat)
    ensures (n + 1) * limit == n * limit + limit
  {
  }

  /** The i-th claim takes a full batch as long as that many runs are left, then what is left, then
      nothing: exactly the first ceil(due / limit) claims are not empty. */
  lemma {:induction false} BatchSizes(runs: Runs, now: Instant, limit: nat, claims: seq<Claim>, i: nat)
    requires ValidClaims(runs, now, limit, claims) && i < |claims|
    ensures |claims[i].picked| ==
            if |Due(runs, now)| <= i * limit then 0 else Min(limit, |Due(runs, now)| - i * limit)
  {
    hide Due, ClaimAll, ValidClaims, Min, Room;
    BatchSizeAfter(runs, now, limit, claims, i);
    RoomIsProduct(i, limit);
  }

  lemma {:induction false} BatchSizeAfter(runs: Runs, now: Instant, limit: nat, claims: seq<Claim>, i: nat)
    requires ValidClaims(runs, now, limit, claims) && i < |claims|
    ensures |claims[i].picked| ==
            if |Due(runs, now)| <= Room(i, limit) then 0 else Min(limit, |Due(runs, now)| - Room(i, limit))
    decreases |claims|
  {
    hide Due, ClaimAll;
    if i > 0 {
      var first := claims[0];
      ClaimShrinksDue(runs, now, first.picked, first.owner);
      BatchSizeAfter(ClaimAll(runs, first.picked, now, first.owner), now, limit, claims[1..], i - 1);
      assert claims[1..][i - 1] == claims[i];
    }
  }

  /** A due run that no claim has taken yet is still as it was; a taken one belongs to its claim. */
  lemma {:induction false} ClaimedOnce(runs: Runs, now: Instant, limit: nat, claims: seq<Claim>, id: RunId)
    requires ValidClaims(runs, now, limit, claims) && id in runs
    ensures AfterClaims(runs, now, claims).Keys == runs.Keys
    ensures (forall i :: 0 <= i < |claims| ==> id !in claims[i].picked) ==>
              AfterClaims(runs, now, claims)[id] == runs[id]
    ensures forall i :: 0 <= i < |claims| && id in claims[i].picked ==>
              && id in Due(runs, now)
              && AfterClaims(runs, now, claims)[id] == ClaimRun(runs[id], now, claims[i].owner)
              && forall j :: 0 <= j < |claims| && j != i ==> id !in claims[j].picked
    decreases |claims|
  {
    hide ClaimRun, Min, IsDue;
    if claims != [] {
      var first, rest := claims[0], claims[1..];
      var next := ClaimAll(runs, first.picked, now, first.owner);
      assert forall i {:trigger claims[i]} :: 0 < i < |claims| ==> claims[i] == rest[i - 1];
      ClaimShrinksDue(runs, now, first.picked, first.owner);
      ClaimedOnce(next, now, limit, rest, id);
      if id in first.picked {
        assert id !in Due(next, now);
        assert forall i :: 0 <= i < |rest| ==> id !in rest[i].picked;
      }
    }
  }

  lemma {:induction false} DueShrinks(runs: Runs, now: Instant, limit: nat, claims: seq<Claim>)
    requires ValidClaims(runs, now, limit, claims)
    ensures var room := Room(|claims|, limit);
            |Due(AfterClaims(runs, now, claims), now)| ==
            if |Due(runs, now)| <= room then 0 else |Due(runs, now)| - room
    decreases |claims|
  {
    hide Due, ClaimAll;
    if claims != [] {
      var first := claims[0];
      ClaimShrinksDue(runs, now, first.picked, first.owner);
      DueShrinks(ClaimAll(runs, first.picked, now, first.owner), now, limit, claims[1..]);
    }
  }

  /** Drain: once the claims have room for all due runs, each of these is leased by the one claim
      that took it, and no other run has changed. */
  lemma {:induction false} Drained(runs: Runs, now: Instant, limit: nat, claims: seq<Claim>, id: RunId)
    requires ValidClaims(runs, now, limit, claims) && |Due(runs, now)| <= |claims| * limit && id in runs
    ensures AfterClaims(runs, now, claims).Keys == runs.Keys
    ensures id !in Due(runs, now) ==> AfterClaims(runs, now, claims)[id] == runs[id]
    ensures id in Due(runs, now) ==> exists i ::
              && 0 <= i < |claims| && id in claims[i].picked
              && AfterClaims(runs, now, claims)[id] == ClaimRun(runs[id], now, claims[i].owner)
  {
    ClaimedOnce(runs, now, limit, claims, id);
    DueShrinks(runs, now, limit, claims);
    RoomIsProduct(|claims|, limit);
    if id in Due(runs, now) {
      assert id !in Due(AfterClaims(runs, now, claims), now);
      assert AfterClaims(runs, now, claims)[id] != runs[id];
    }
  }

  /** The number of claims that drain `due` runs in batches of `limit`. */
  function Rounds(due: nat, limit: nat): nat
    requires 0 < limit
  {
    (due + limit - 1) / limit
  }

  lemma {:induction false} RoundsSuffice(due: nat, limit: nat)
    requires 0 < limit
    ensures due <= Rounds(due, limit) * limit < due + limit
  {
    var n := due + limit - 1;
    assert n == limit * (n / limit) + n % limit;
  }

  /** No work lost: a run whose lease has run out, after recovery and as many claims as the due
      runs fill batches, is leased again by the claiming worker. */
  lemma {:induction false} NoWorkLost(runs: Runs, now: Instant, threshold: Instant, wall: RunId -> Instant,
                                      owner: string, limit: nat, claims: seq<Claim>, id: RunId)
    requires id in runs && runs[id].status.Leased?
    requires runs[id].leaseExpiresAt.Some? && runs[id].leaseExpiresAt.value < now
    requires runs[id].scheduledFor <= now
    requires 0 < limit && (forall i :: 0 <= i < |claims| ==> claims[i].owner == owner)
    requires var recovered := Recovered(runs, now, threshold, wall);
             ValidClaims(recovered, now, limit, claims) && |claims| == Rounds(|Due(recovered, now)|, limit)
    ensures var after := AfterClaims(Recovered(runs, now, threshold, wall), now, claims);
            && id in after && after[id].status.Leased? && after[id].leaseOwner == Some(owner)
            && after[id].leaseExpiresAt == Some(now + LEASE)
  {
    var recovered := Recovered(runs, now, threshold, wall);
    assert id in Due(recovered, now);
    RoundsSuffice(|Due(recovered, now)|, limit);
    Drained(recovered, now, limit, claims, id);
  }
}
