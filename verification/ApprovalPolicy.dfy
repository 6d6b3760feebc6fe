/**
 The five voting policies of an approval gate: how request counts become a verdict, and when a
 verdict can still change as the remaining requests are decided.
 */
module ApprovalPolicy {

  datatype Policy =
    | SingleApprover | AllMustApprove | AnyCanApprove | Majority | Consensus
    | Unknown(name: string)

  /** The requests of a gate or tier by status; delegated ones are not counted. */
  datatype Counts = Counts(approved: nat, rejected: nat, pending: nat, expired: nat) {
    function Total(): nat {
      approved + rejected + pending + expired
    }
  }

  datatype Verdict = Undecided | Satisfied | Failed | Unsupported

  /** More than 66 percent, with the threshold taken as the exact rational 33/50. */
  predicate AboveConsensus(part: nat, total: nat) {
    50 * part > 33 * total
  }

  function EvaluateCounts(policy: Policy, required: int, c: Counts): Verdict {
    var total := c.Total();
    if total == 0 then Undecided
    else
      match policy
      case SingleApprover => if c.approved >= 1 then Satisfied else Undecided
      case AllMustApprove =>
        if c.rejected > 0 then Failed
        else if c.approved == total then Satisfied
        else Undecided
      case AnyCanApprove =>
        var needed := if required > 1 then required else 1;
        if c.approved >= needed then Satisfied
        else if c.rejected == total || c.approved + c.pending < needed then Failed
        else Undecided
      case Majority =>
        if c.approved > total / 2 then Satisfied
        else if c.rejected > total / 2 then Failed
        else if required > 0 && c.approved >= required then Satisfied
        else Undecided
      case Consensus =>
        if AboveConsensus(c.approved, total) then Satisfied
        else if !AboveConsensus(c.approved + c.pending, total) then Failed
        else if required > 0 && c.approved >= required then Satisfied
        else Undecided
      case Unknown(_) => Unsupported
  }

  /** `d` can follow `c`: pending requests were approved, rejected or expired, the total is the same. */
  predicate Follows(c: Counts, d: Counts) {
    && d.Total() == c.Total()
    && c.approved <= d.approved && c.rejected <= d.rejected && c.expired <= d.expired
  }

  /** Fail-fast is sound: whatever happens to the remaining requests, a failed verdict stays failed. */
  lemma FailFastSound(policy: Policy, required: int, c: Counts, d: Counts)
    requires EvaluateCounts(policy, required, c) == Failed && Follows(c, d)
    ensures EvaluateCounts(policy, required, d) == Failed
  {
    assert d.approved + d.pending <= c.approved + c.pending;
  }

  /**
   A satisfied verdict cannot be lost. With a positive required count, MAJORITY and CONSENSUS are
   satisfied early by that many approvals, and the rest may still fail them unless the count is large.
   */
  predicate KeepsSatisfied(policy: Policy, required: int, total: nat) {
    match policy
    case Majority => required <= 0 || total - required <= total / 2
    case Consensus => required <= 0 || 50 * required > 33 * total
    case _ => true
  }

  lemma SatisfiedStays(policy: Policy, required: int, c: Counts, d: Counts)
    requires KeepsSatisfied(policy, required, c.Total())
    requires EvaluateCounts(policy, required, c) == Satisfied && Follows(c, d)
    ensures EvaluateCounts(policy, required, d) == Satisfied
  {
  }

  /** Two ways the same requests may go after `required` approvals: to the end, or rejected by all the others. */
  lemma SatisfiedLost(policy: Policy, required: int, total: nat) returns (c: Counts, d: Counts)
    requires !KeepsSatisfied(policy, required, total)
    ensures c.Total() == total && Follows(c, d)
    ensures EvaluateCounts(policy, required, c) == Satisfied && EvaluateCounts(policy, required, d) == Failed
  {
    c, d := Counts(required, 0, total - required, 0), Counts(required, total - required, 0, 0);
  }

  ghost predicate StableAt(policy: Policy, required: int, c: Counts, d: Counts) {
    EvaluateCounts(policy, required, c) == Satisfied && Follows(c, d) ==>
      EvaluateCounts(policy, required, d) == Satisfied
  }

  /** Exactly when a satisfied verdict of a gate with `total` requests is final. */
  lemma SatisfiedFinalIff(policy: Policy, required: int, total: nat)
    ensures (forall c: Counts, d: Counts | c.Total() == total :: StableAt(policy, required, c, d))
            <==> KeepsSatisfied(policy, required, total)
  {
    if KeepsSatisfied(policy, required, total) {
      forall c: Counts, d: Counts | c.Total() == total
        ensures StableAt(policy, required, c, d)
      {
        if EvaluateCounts(policy, required, c) == Satisfied && Follows(c, d) {
          SatisfiedStays(policy, required, c, d);
        }
      }
    } else {
      var c, d := SatisfiedLost(policy, required, total);
      assert !StableAt(policy, required, c, d);
    }
  }

  // -------------------------------------------------------------------------------------------
  // What can still be reached
  // -------------------------------------------------------------------------------------------

  /** All that is pending gets approved. */
  function Best(c: Counts): Counts {
    Counts(c.approved + c.pending, c.rejected, 0, c.expired)
  }

  ghost predicate Reaches(policy: Policy, required: int, c: Counts, d: Counts) {
    Follows(c, d) && EvaluateCounts(policy, required, d) == Satisfied
  }

  /** Nothing that can still happen satisfies the policy. */
  ghost predicate Hopeless(policy: Policy, required: int, c: Counts) {
    !exists d :: Reaches(policy, required, c, d)
  }

  lemma BestIsBest(policy: Policy, required: int, c: Counts, d: Counts)
    requires Reaches(policy, required, c, d)
    ensures EvaluateCounts(policy, required, Best(c)) == Satisfied
  {
    assert d.approved <= c.approved + c.pending;
  }

  /** Exactly when the policy can still be satisfied. */
  lemma HopelessIff(policy: Policy, required: int, c: Counts)
    ensures Hopeless(policy, required, c) <==> EvaluateCounts(policy, required, Best(c)) != Satisfied
  {
    if EvaluateCounts(policy, required, Best(c)) == Satisfied {
      assert Reaches(policy, required, c, Best(c));
    }
    if exists d :: Reaches(policy, required, c, d) {
      var d :| Reaches(policy, required, c, d);
      BestIsBest(policy, required, c, d);
    }
  }

  /**
   The counts at which a policy stays undecided for ever: nobody is left who could approve alone, somebody
   who has to approve let the time pass, or neither side can get its majority any more.
   */
  predicate Stuck(policy: Policy, required: int, c: Counts) {
    match policy
    case SingleApprover => c.approved + c.pending == 0
    case AllMustApprove => c.rejected == 0 && c.expired > 0
    case Majority =>
      && c.approved + c.pending <= c.Total() / 2 && c.rejected <= c.Total() / 2
      && (required <= 0 || c.approved + c.pending < required)
    case _ => false
  }

  /** Fail-fast is complete but for these: what cannot be satisfied any more has failed or is stuck. */
  lemma FailedOrStuck(policy: Policy, required: int, c: Counts)
    requires c.Total() > 0 && !policy.Unknown?
    ensures Hopeless(policy, required, c) <==>
            EvaluateCounts(policy, required, c) == Failed || Stuck(policy, required, c)
    ensures !(EvaluateCounts(policy, required, c) == Failed && Stuck(policy, required, c))
  {
    HopelessIff(policy, required, c);
  }

  // -------------------------------------------------------------------------------------------
  // Arrival order
  // -------------------------------------------------------------------------------------------

  /** Successive counts as decisions arrive. */
  ghost predicate Arrival(path: seq<Counts>) {
    path != [] && forall i | 0 < i < |path| :: Follows(path[i - 1], path[i])
  }

  /** The first verdict on the counts that is not `Undecided`. */
  function FirstVerdict(policy: Policy, required: int, path: seq<Counts>): Verdict {
    if path == [] then Undecided
    else if EvaluateCounts(policy, required, path[0]) != Undecided then EvaluateCounts(policy, required, path[0])
    else FirstVerdict(policy, required, path[1..])
  }

  /** When verdicts are final, the first verdict is the verdict of the final counts. */
  lemma {:induction false} FirstIsLast(policy: Policy, required: int, path: seq<Counts>)
    requires Arrival(path) && KeepsSatisfied(policy, required, path[0].Total())
    ensures FirstVerdict(policy, required, path) == EvaluateCounts(policy, required, path[|path| - 1])
    decreases |path|
  {
    if |path| > 1 {
      assert Follows(path[0], path[1]);
      forall i | 0 < i < |path[1..]|
        ensures Follows(path[1..][i - 1], path[1..][i])
      {
        assert Follows(path[i], path[i + 1]);
      }
      FirstIsLast(policy, required, path[1..]);
      FollowsToEnd(path, 0);
      var v := EvaluateCounts(policy, required, path[0]);
      if v == Failed {
        FailFastSound(policy, required, path[0], path[|path| - 1]);
      } else if v == Satisfied {
        SatisfiedStays(policy, required, path[0], path[|path| - 1]);
      }
    }
  }

  lemma {:induction false} FollowsToEnd(path: seq<Counts>, i: nat)
    requires Arrival(path) && i < |path|
    ensures Follows(path[i], path[|path| - 1])
    decreases |path| - i
  {
    if i + 1 < |path| {
      assert Follows(path[i], path[i + 1]);
      FollowsToEnd(path, i + 1);
    }
  }

  /** So the first verdict depends only on how the requests were decided, not on the order in which they were. */
  lemma ArrivalOrderIrrelevant(policy: Policy, required: int, path: seq<Counts>, other: seq<Counts>)
    requires Arrival(path) && Arrival(other) && path[|path| - 1] == other[|other| - 1]
    requires KeepsSatisfied(policy, required, path[0].Total())
    ensures FirstVerdict(policy, required, path) == FirstVerdict(policy, required, other)
  {
    FollowsToEnd(path, 0);
    FollowsToEnd(other, 0);
    FirstIsLast(policy, required, path);
    FirstIsLast(policy, required, other);
  }

  // -------------------------------------------------------------------------------------------
  // One decision at a time
  // -------------------------------------------------------------------------------------------

  datatype Vote = Yes | No | Lapse

  function Cast(c: Counts, vote: Vote): Counts
    requires c.pending > 0
  {
    match vote
    case Yes => c.(approved := c.approved + 1, pending := c.pending - 1)
    case No => c.(rejected := c.rejected + 1, pending := c.pending - 1)
    case Lapse => c.(expired := c.expired + 1, pending := c.pending - 1)
  }

  /** The counts before the first vote and after each one. */
  function Voting(c: Counts, votes: seq<Vote>): (path: seq<Counts>)
    requires |votes| <= c.pending
    ensures |path| == |votes| + 1 && path[0] == c
    decreases |votes|
  {
    if votes == [] then [c] else [c] + Voting(Cast(c, votes[0]), votes[1..])
  }

  function Outcome(c: Counts, votes: seq<Vote>): Counts
    requires |votes| <= c.pending
  {
    Voting(c, votes)[|votes|]
  }

  lemma {:induction false} VotingArrives(c: Counts, votes: seq<Vote>)
    requires |votes| <= c.pending
    ensures Arrival(Voting(c, votes))
    decreases |votes|
  {
    if votes != [] {
      var rest := Voting(Cast(c, votes[0]), votes[1..]);
      VotingArrives(Cast(c, votes[0]), votes[1..]);
      forall i | 0 < i < |Voting(c, votes)|
        ensures Follows(Voting(c, votes)[i - 1], Voting(c, votes)[i])
      {
        assert i > 1 ==> Follows(rest[i - 2], rest[i - 1]);
      }
    }
  }

  /** `k` votes of one kind and then `m` of another. */
  function Ballots(first: Vote, k: nat, second: Vote, m: nat): (votes: seq<Vote>)
    ensures |votes| == k + m
  {
    if k > 0 then [first] + Ballots(first, k - 1, second, m)
    else if m > 0 then [second] + Ballots(first, 0, second, m - 1)
    else []
  }

  lemma VotingStep(policy: Policy, required: int, c: Counts, vote: Vote, rest: seq<Vote>)
    requires |rest| < c.pending
    ensures Outcome(c, [vote] + rest) == Outcome(Cast(c, vote), rest)
    ensures FirstVerdict(policy, required, Voting(c, [vote] + rest))
            == if EvaluateCounts(policy, required, c) != Undecided then EvaluateCounts(policy, required, c)
               else FirstVerdict(policy, required, Voting(Cast(c, vote), rest))
  {
    assert ([vote] + rest)[1..] == rest;
    assert Voting(c, [vote] + rest)[1..] == Voting(Cast(c, vote), rest);
  }

  lemma ApprovingVerdict(policy: Policy, required: int, total: nat, a: nat)
    requires !KeepsSatisfied(policy, required, total) && a <= required
    ensures total >= required && EvaluateCounts(policy, required, Counts(a, 0, total - a, 0))
            == if a == required then Satisfied else Undecided
  {
  }

  lemma RejectingVerdict(policy: Policy, required: int, total: nat, r: nat)
    requires !KeepsSatisfied(policy, required, total) && r <= total - required
    ensures var v := EvaluateCounts(policy, required, Counts(0, r, total - r, 0));
            (v == Failed || v == Undecided) && (r == total - required ==> v == Failed)
  {
  }

  /** Votes that lead from `c` to `final` have this first verdict. */
  ghost predicate Closes(policy: Policy, required: int, c: Counts, votes: seq<Vote>, final: Counts, verdict: Verdict) {
    |votes| <= c.pending && Outcome(c, votes) == final && FirstVerdict(policy, required, Voting(c, votes)) == verdict
  }

  lemma ClosesNow(policy: Policy, required: int, c: Counts, votes: seq<Vote>)
    requires |votes| <= c.pending && EvaluateCounts(policy, required, c) != Undecided
    ensures Closes(policy, required, c, votes, Outcome(c, votes), EvaluateCounts(policy, required, c))
  {
  }

  lemma ClosesLater(policy: Policy, required: int, c: Counts, vote: Vote, rest: seq<Vote>, final: Counts,
      verdict: Verdict)
    requires c.pending > 0 && Closes(policy, required, Cast(c, vote), rest, final, verdict)
    requires EvaluateCounts(policy, required, c) == Undecided || EvaluateCounts(policy, required, c) == verdict
    ensures Closes(policy, required, c, [vote] + rest, final, verdict)
  {
    VotingStep(policy, required, c, vote, rest);
  }

  /** All the approvals first: the verdict is Satisfied when the required number is reached. */
  lemma {:induction false} ApprovalsFirst(policy: Policy, required: int, total: nat, k: nat)
    requires !KeepsSatisfied(policy, required, total) && k <= required <= total
    ensures Closes(policy, required, Counts(required - k, 0, total - required + k, 0),
                   Ballots(Yes, k, No, total - required), Counts(required, total - required, 0, 0), Satisfied)
    decreases k
  {
    var c, final := Counts(required - k, 0, total - required + k, 0), Counts(required, total - required, 0, 0);
    ApprovingVerdict(policy, required, total, required - k);
    if k == 0 {
      AllTheSame(c, Yes, No, total - required);
      ClosesNow(policy, required, c, Ballots(Yes, 0, No, total - required));
    } else {
      ApprovalsFirst(policy, required, total, k - 1);
      ClosesLater(policy, required, c, Yes, Ballots(Yes, k - 1, No, total - required), final, Satisfied);
    }
  }

  /** All the rejections first: the verdict is Failed before the approvals arrive. */
  lemma {:induction false} RejectionsFirst(policy: Policy, required: int, total: nat, k: nat)
    requires !KeepsSatisfied(policy, required, total) && 0 <= required && k <= total - required
    ensures Closes(policy, required, Counts(0, total - required - k, required + k, 0),
                   Ballots(No, k, Yes, required), Counts(required, total - required, 0, 0), Failed)
    decreases k
  {
    var c, final := Counts(0, total - required - k, required + k, 0), Counts(required, total - required, 0, 0);
    RejectingVerdict(policy, required, total, total - required - k);
    if k == 0 {
      AllTheSame(c, No, Yes, required);
      ClosesNow(policy, required, c, Ballots(No, 0, Yes, required));
    } else {
      RejectionsFirst(policy, required, total, k - 1);
      ClosesLater(policy, required, c, No, Ballots(No, k - 1, Yes, required), final, Failed);
    }
  }

  lemma {:induction false} AllTheSame(c: Counts, other: Vote, vote: Vote, n: nat)
    requires n <= c.pending && vote != Lapse
    ensures Outcome(c, Ballots(other, 0, vote, n))
            == if vote == Yes then c.(approved := c.approved + n, pending := c.pending - n)
               else c.(rejected := c.rejected + n, pending := c.pending - n)
    decreases n
  {
    if n > 0 {
      VotingStep(SingleApprover, 0, c, vote, Ballots(other, 0, vote, n - 1));
      AllTheSame(Cast(c, vote), other, vote, n - 1);
    }
  }

  /** Two orders of votes by `total` approvers that come to the same counts have the same first verdict. */
  ghost predicate SameWay(policy: Policy, required: int, total: nat, votes: seq<Vote>, others: seq<Vote>) {
    var c := Counts(0, 0, total, 0);
    |votes| <= total && |others| <= total && Outcome(c, votes) == Outcome(c, others) ==>
      FirstVerdict(policy, required, Voting(c, votes)) == FirstVerdict(policy, required, Voting(c, others))
  }

  lemma VotesSameWay(policy: Policy, required: int, total: nat, votes: seq<Vote>, others: seq<Vote>)
    requires KeepsSatisfied(policy, required, total)
    ensures SameWay(policy, required, total, votes, others)
  {
    var c := Counts(0, 0, total, 0);
    if |votes| <= total && |others| <= total && Outcome(c, votes) == Outcome(c, others) {
      VotingArrives(c, votes);
      VotingArrives(c, others);
      ArrivalOrderIrrelevant(policy, required, Voting(c, votes), Voting(c, others));
    }
  }

  lemma ClosesOtherwise(policy: Policy, required: int, total: nat, votes: seq<Vote>, others: seq<Vote>, final: Counts)
    requires Closes(policy, required, Counts(0, 0, total, 0), votes, final, Satisfied)
    requires Closes(policy, required, Counts(0, 0, total, 0), others, final, Failed)
    ensures !SameWay(policy, required, total, votes, others)
  {
  }

  /** The same votes in two orders: with approvals first the verdict is Satisfied, with rejections first Failed. */
  lemma ArrivalOrderMatters(policy: Policy, required: int, total: nat) returns (votes: seq<Vote>, others: seq<Vote>)
    requires !KeepsSatisfied(policy, required, total)
    ensures !SameWay(policy, required, total, votes, others)
  {
    ApprovingVerdict(policy, required, total, required);
    votes, others := Ballots(Yes, required, No, total - required), Ballots(No, total - required, Yes, required);
    ApprovalsFirst(policy, required, total, required);
    RejectionsFirst(policy, required, total, total - required);
    ClosesOtherwise(policy, required, total, votes, others, Counts(required, total - required, 0, 0));
  }

  /** The order in which votes arrive never matters to the first verdict exactly when a satisfied one is final. */
  lemma ArrivalOrderIrrelevantIff(policy: Policy, required: int, total: nat)
    ensures (forall votes, others :: SameWay(policy, required, total, votes, others))
            <==> KeepsSatisfied(policy, required, total)
  {
    if KeepsSatisfied(policy, required, total) {
      forall votes, others
        ensures SameWay(policy, required, total, votes, others)
      {
        VotesSameWay(policy, required, total, votes, others);
      }
    } else {
      var votes, others := ArrivalOrderMatters(policy, required, total);
    }
  }
}
