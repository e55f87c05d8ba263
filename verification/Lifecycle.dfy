/** The graph of status changes every run is meant to follow. */
module Lifecycle {
  import opened Types

  predicate CanTransition(from: RunStatus, to: RunStatus) {
    match from
    case Scheduled => to.Leased? || to.Cancelled?
    case Leased => to.Dispatched? || to.Scheduled?
    case Dispatched => to.Running? || to.Failed?
    case Running => to.Succeeded? || to.Failed? || to.TimedOut? || to.Orphaned?
    case Failed => to.RetryWait? || to.DeadLetter?
    case RetryWait => to.Scheduled?
    case TimedOut => to.RetryWait? || to.DeadLetter?
    case Orphaned => to.Scheduled? || to.DeadLetter?
    case Succeeded => false
    case DeadLetter => false
    case Cancelled => false
  }

  datatype LifecycleError = InvalidTransition(from: RunStatus, to: RunStatus)
  datatype TransitionResult = Moved(status: RunStatus) | Rejected(error: LifecycleError)

  function Transition(from: RunStatus, to: RunStatus): TransitionResult {
    if CanTransition(from, to) then Moved(to) else Rejected(InvalidTransition(from, to))
  }

  predicate Terminal(s: RunStatus) {
    s.Succeeded? || s.DeadLetter? || s.Cancelled?
  }

  /** The states without an outgoing edge are exactly the three terminal ones. */
  lemma {:induction false} TerminalStates(s: RunStatus)
    ensures Terminal(s) <==> forall to :: Transition(s, to).Rejected?
  {
    if !Terminal(s) {
      var to := match s
        case Scheduled => Leased case Leased => Dispatched case Dispatched => Running
        case Running => Failed case RetryWait => Scheduled case _ => DeadLetter;
      assert CanTransition(s, to) && !Transition(s, to).Rejected?;
    }
  }

  // ---------------------------------------------------------------------------------------------
  // Progress
  // ---------------------------------------------------------------------------------------------

  /** How far a status is from the end when it is not rescheduled. */
  function Rank(s: RunStatus): nat {
    match s
    case Scheduled => 6
    case Leased => 5
    case Dispatched => 4
    case Running => 3
    case Failed => 2
    case TimedOut => 2
    case Orphaned => 2
    case RetryWait => 1
    case _ => 0
  }

  ghost predicate IsPath(path: seq<RunStatus>) {
    forall i :: 0 <= i < |path| - 1 ==> CanTransition(path[i], path[i + 1])
  }

  /** How often the path enters Scheduled, not counting its start. */
  function Reschedules(path: seq<RunStatus>): nat {
    if |path| <= 1 then 0
    else Reschedules(path[..|path| - 1]) + if path[|path| - 1].Scheduled? then 1 else 0
  }

  /** Progress: a path that enters Scheduled k times has at most 6 * (k + 1) steps. */
  lemma {:induction false} PathLength(path: seq<RunStatus>)
    requires path != [] && IsPath(path)
    ensures |path| - 1 + Rank(path[|path| - 1]) <= 6 * (Reschedules(path) + 1)
  {
    if |path| > 1 {
      var prefix := path[..|path| - 1];
      PathLength(prefix);
      assert CanTransition(path[|path| - 2], path[|path| - 1]);
    }
  }

  /** The path that goes round through Failed and RetryWait for ever. */
  function RetryLoop(i: nat): RunStatus {
    match i % 6
    case 0 => Scheduled
    case 1 => Leased
    case 2 => Dispatched
    case 3 => Running
    case 4 => Failed
    case _ => RetryWait
  }

  lemma {:induction false} RetryLoopEdge(i: nat)
    ensures CanTransition(RetryLoop(i), RetryLoop(i + 1))
  {
    assert (i + 1) % 6 == if i % 6 == 5 then 0 else i % 6 + 1;
  }

  /** The bound is the best possible: the retry loop reaches it for every number of rounds. */
  lemma {:induction false} PathLengthTight(rounds: nat)
    ensures var path := seq(6 * (rounds + 1), i requires 0 <= i => RetryLoop(i));
            && IsPath(path) && Reschedules(path) == rounds
            && |path| - 1 + Rank(path[|path| - 1]) == 6 * (rounds + 1)
  {
    var n := 6 * (rounds + 1);
    LoopReschedules(n);
    var path := seq(n, i requires 0 <= i => RetryLoop(i));
    hide RetryLoop;
    forall i | 0 <= i < n - 1
      ensures CanTransition(path[i], path[i + 1])
    {
      RetryLoopEdge(i);
    }
    LastInLoop(rounds);
  }

  lemma {:induction false} LastInLoop(rounds: nat)
    ensures RetryLoop(6 * (rounds + 1) - 1) == RetryWait
  {
  }

  lemma {:induction false} LoopReschedules(n: nat)
    requires 0 < n
    ensures Reschedules(seq(n, i requires 0 <= i => RetryLoop(i))) == (n - 1) / 6
  {
    if 1 < n {
      var path := seq(n, i requires 0 <= i => RetryLoop(i));
      assert path[..n - 1] == seq(n - 1, i requires 0 <= i => RetryLoop(i));
      LoopReschedules(n - 1);
    }
  }

  /** Every infinite path enters Scheduled again and again, within seven steps of any point. */
  lemma {:induction false} InfinitePathReschedules(path: nat -> RunStatus, from: nat)
    requires forall i: nat :: CanTransition(path(i), path(i + 1))
    ensures exists k: nat :: from < k <= from + 7 && path(k).Scheduled?
  {
    if forall k: nat :: from < k <= from + 7 ==> !path(k).Scheduled? {
      RankFalls(path, from, 7);
    }
  }

  lemma {:induction false} RankFalls(path: nat -> RunStatus, from: nat, steps: nat)
    requires forall i: nat :: CanTransition(path(i), path(i + 1))
    requires forall k: nat :: from < k <= from + steps ==> !path(k).Scheduled?
    ensures Rank(path(from + steps)) + steps <= Rank(path(from))
  {
    if steps != 0 {
      RankFalls(path, from, steps - 1);
      assert CanTransition(path(from + (steps - 1)), path(from + (steps - 1) + 1));
    }
  }
}
