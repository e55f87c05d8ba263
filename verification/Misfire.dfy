/** Misfires: which overdue times of a job are made up for. */
module Misfire {
  import opened Calendar
  import opened Collections
  import opened Types
  import opened Wrappers
  import opened StoreSpec

  function Time(t: Instant): int {
    t
  }

  function Latest(times: seq<Instant>): (latest: Instant)
    requires times != []
    ensures latest in times && forall t :: t in times ==> t <= latest
  {
    if |times| == 1 then times[0]
    else
      assert times == [times[0]] + times[1..];
      var rest := Latest(times[1..]);
      if rest < times[0] then times[0] else rest
  }

  /** The last `n` elements, or all if there are fewer. */
  function Suffix(s: seq<Instant>, n: nat): seq<Instant> {
    s[|s| - Min(n, |s|)..]
  }

  function ResolveMisfires(policy: MisfirePolicy, overdue: seq<Instant>): seq<Instant> {
    if overdue == [] then []
    else
      match policy
      case Skip => []
      case RunImmediately => overdue
      case Coalesce => [Latest(overdue)]
      case ReplayAll(maxCatchup) =>
        var sorted := SortBy(Time, overdue);
        if maxCatchup.Some? then Suffix(sorted, maxCatchup.value) else sorted
  }

  /** The times left out. */
  ghost function Dropped(policy: MisfirePolicy, overdue: seq<Instant>): multiset<Instant> {
    multiset(overdue) - multiset(ResolveMisfires(policy, overdue))
  }

  function Replay(max: u32, overdue: seq<Instant>): seq<Instant> {
    ResolveMisfires(ReplayAll(Some(max)), overdue)
  }

  lemma {:induction false} SplitSorted(s: seq<Instant>, n: nat)
    requires SortedBy(Time, s) && n <= |s|
    ensures multiset(s) == multiset(s[..n]) + multiset(s[n..])
    ensures SortedBy(Time, s[n..])
  {
    assert s == s[..n] + s[n..];
  }

  lemma {:induction false} InOrder(s: seq<Instant>, n: nat, x: Instant, y: Instant)
    requires SortedBy(Time, s) && n <= |s| && x in s[..n] && y in s[n..]
    ensures x <= y
  {
    var i :| 0 <= i < n && s[..n][i] == x;
    var j :| 0 <= j < |s| - n && s[n..][j] == y;
    assert Time(s[i]) <= Time(s[n + j]);
  }

  lemma {:induction false} SuffixSelects(overdue: seq<Instant>, sorted: seq<Instant>, n: nat)
    requires SortedBy(Time, sorted) && multiset(sorted) == multiset(overdue) && n <= |sorted|
    ensures SortedBy(Time, sorted[n..]) && multiset(sorted[n..]) <= multiset(overdue)
    ensures forall x, y :: x in multiset(overdue) - multiset(sorted[n..]) && y in sorted[n..] ==> x <= y
  {
    hide SortedBy;
    SplitSorted(sorted, n);
    var (dropped, kept) := (sorted[..n], sorted[n..]);
    assert multiset(overdue) - multiset(kept) == multiset(dropped);
    forall x, y | x in multiset(overdue) - multiset(kept) && y in kept
      ensures x <= y
    {
      assert x in multiset(dropped);
      assert x in dropped;
      InOrder(sorted, n, x, y);
    }
  }

  /** A bounded replay keeps the latest times, at most `max` of them, oldest first: nothing is made
      up, and nothing left out is later than anything kept. */
  lemma {:induction false} ReplaySelects(max: u32, overdue: seq<Instant>)
    ensures var kept := Replay(max, overdue);
            && |kept| == Min(max, |overdue|) && SortedBy(Time, kept)
            && multiset(kept) <= multiset(overdue)
            && forall x, y :: x in Dropped(ReplayAll(Some(max)), overdue) && y in kept ==> x <= y
  {
    hide SortBy, SortedBy;
    if overdue == [] {
      NothingSorted();
    } else {
      var sorted := SortBy(Time, overdue);
      SortBySorts(Time, overdue);
      SuffixSelects(overdue, sorted, |sorted| - Min(max, |sorted|));
    }
  }

  lemma {:induction false} NothingSorted()
    ensures SortedBy(Time, [])
  {
  }

  lemma {:induction false} TailSorted(s: seq<Instant>)
    requires SortedBy(Time, s) && s != []
    ensures SortedBy(Time, s[1..])
  {
  }

  lemma {:induction false} TailMultiset(s: seq<Instant>)
    requires s != []
    ensures multiset(s[1..]) == multiset(s) - multiset{s[0]}
    ensures s == [s[0]] + s[1..]
  {
    assert s == [s[0]] + s[1..];
  }

  lemma {:induction false} SortedUnique(s: seq<Instant>, t: seq<Instant>)
    requires SortedBy(Time, s) && SortedBy(Time, t) && multiset(s) == multiset(t)
    ensures s == t
  {
    SameMembers(s, t);
    if s != [] {
      TailSorted(s);
      TailSorted(t);
      hide SortedBy;
      LeastFirst(s);
      LeastFirst(t);
      assert s[0] in t && t[0] in s;
      TailMultiset(s);
      TailMultiset(t);
      SortedUnique(s[1..], t[1..]);
    }
  }

  lemma {:induction false} LeastFirst(s: seq<Instant>)
    requires SortedBy(Time, s) && s != []
    ensures forall x :: x in s ==> s[0] <= x
  {
    forall x | x in s
      ensures s[0] <= x
    {
      var i :| 0 <= i < |s| && s[i] == x;
      assert Time(s[0]) <= Time(s[i]);
    }
  }

  /** Every policy but RunImmediately depends only on which times are overdue, not on their order. */
  lemma {:induction false} OrderIrrelevant(policy: MisfirePolicy, a: seq<Instant>, b: seq<Instant>)
    requires multiset(a) == multiset(b)
    ensures !policy.RunImmediately? ==> ResolveMisfires(policy, a) == ResolveMisfires(policy, b)
    ensures multiset(ResolveMisfires(policy, a)) == multiset(ResolveMisfires(policy, b))
  {
    hide SortBy, SortedBy, Suffix;
    SameMembers(a, b);
    SortBySorts(Time, a);
    SortBySorts(Time, b);
    SortedUnique(SortBy(Time, a), SortBy(Time, b));
    if a != [] {
      SameLatest(a, b);
    }
  }

  lemma {:induction false} SameLatest(a: seq<Instant>, b: seq<Instant>)
    requires a != [] && b != [] && forall x :: x in a <==> x in b
    ensures Latest(a) == Latest(b)
  {
    assert Latest(a) in b && Latest(b) in a;
  }

  /** Allowing one more only adds an earlier time in front. */
  lemma {:induction false} ReplayGrows(max: u32, overdue: seq<Instant>)
    requires max < 0xFFFF_FFFF
    ensures var (less, more) := (Replay(max, overdue), Replay(max + 1, overdue));
            |less| <= |more| <= |less| + 1 && more[|more| - |less|..] == less
  {
    SortBySorts(Time, overdue);
  }

  /** A replay of one is the coalesced run. */
  lemma {:induction false} ReplayOneCoalesces(overdue: seq<Instant>)
    ensures Replay(1, overdue) == ResolveMisfires(Coalesce, overdue)
  {
    var sorted := SortBy(Time, overdue);
    SortBySorts(Time, overdue);
    SameMembers(sorted, overdue);
    if overdue != [] {
      var last := sorted[|sorted| - 1];
      assert last in sorted && Latest(overdue) in sorted;
      var i :| 0 <= i < |sorted| && sorted[i] == Latest(overdue);
      assert Time(sorted[i]) <= Time(last);
      assert Suffix(sorted, 1) == [last];
    }
  }

  /** Without a limit, or with one that is large enough, replay is RunImmediately put in order. */
  lemma {:induction false} ReplayEverything(overdue: seq<Instant>, maxCatchup: Option<u32>)
    ensures var all := ResolveMisfires(ReplayAll(maxCatchup), overdue);
            (maxCatchup.None? || |overdue| <= maxCatchup.value) <==>
              SortedBy(Time, all) && multiset(all) == multiset(ResolveMisfires(RunImmediately, overdue))
  {
    var all := ResolveMisfires(ReplayAll(maxCatchup), overdue);
    SortBySorts(Time, overdue);
    if maxCatchup.Some? {
      ReplaySelects(maxCatchup.value, overdue);
      assert |multiset(all)| == |all| && |multiset(overdue)| == |overdue|;
    }
  }
}
