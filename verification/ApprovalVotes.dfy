/**
 The life of a gate without a chain while its requests are decided one after the other: what the policy
 and the rejection behaviour make of each vote, and when the order of the votes matters.
 */
module ApprovalVotes {
  import opened Outcomes
  import opened ApprovalPolicy

  /**
   What a rejection does to a gate that is not satisfied: nothing, fail it, start rework, or fail itself
   (the decision is then rolled back).
   */
  datatype Reaction = Ignores | Ends | Reworks | Refuses

  datatype Rules = Rules(verdict: Counts -> Verdict, reaction: Reaction)

  function RulesOf(policy: Policy, required: int, reaction: Reaction): Rules {
    Rules(c => EvaluateCounts(policy, required, c), reaction)
  }

  datatype Standing = OpenGate | SatisfiedGate | FailedGate | ReworkedGate

  datatype Poll = Poll(standing: Standing, counts: Counts)

  function VoteFor(approve: bool): Vote {
    if approve then Yes else No
  }

  function React(standing: Standing, reaction: Reaction): Option<Standing> {
    match reaction
    case Ignores => Some(standing)
    case Ends => Some(FailedGate)
    case Reworks => Some(ReworkedGate)
    case Refuses => None
  }

  /** The status after a decision with this verdict on the new counts, or nothing when the decision fails. */
  function Turns(standing: Standing, verdict: Verdict, approve: bool, reaction: Reaction): Option<Standing> {
    if standing == SatisfiedGate then Some(SatisfiedGate)
    else if standing != FailedGate && verdict == Unsupported then None
    else if standing == OpenGate && verdict == Satisfied then Some(SatisfiedGate)
    else
      var evaluated := if standing == OpenGate && verdict == Failed then FailedGate else standing;
      if approve || (standing == ReworkedGate && verdict == Satisfied) then Some(evaluated)
      else React(evaluated, reaction)
  }

  /** One decision: the vote is counted, the policy may close an open gate, and a rejection has its effect. */
  function Voted(rules: Rules, poll: Poll, approve: bool): Poll
    requires poll.counts.pending > 0
  {
    var counts := Cast(poll.counts, VoteFor(approve));
    match Turns(poll.standing, rules.verdict(counts), approve, rules.reaction)
    case None => poll
    case Some(standing) => Poll(standing, counts)
  }

  function Held(rules: Rules, poll: Poll, votes: seq<bool>): Poll
    requires |votes| <= poll.counts.pending
    decreases |votes|
  {
    if votes == [] then poll else Held(rules, Voted(rules, poll, votes[0]), votes[1..])
  }

  function Yeas(votes: seq<bool>): nat {
    if votes == [] then 0 else Yeas(votes[1..]) + if votes[0] then 1 else 0
  }

  /** `a` of `n` requests are approved, `r` rejected and the others still pending. */
  function Stand(n: nat, a: nat, r: nat): Counts
    requires a + r <= n
  {
    Counts(a, r, n - a - r, 0)
  }

  function Begun(n: nat): Poll {
    Poll(OpenGate, Stand(n, 0, 0))
  }

  /** All approvals but one do not satisfy the policy. */
  predicate NeedsAll(policy: Policy, required: int, n: nat) {
    n == 0 || EvaluateCounts(policy, required, Stand(n, n - 1, 0)) != Satisfied
  }

  /** The same by policy: with more than two requests, MAJORITY and CONSENSUS never need all of them. */
  lemma NeedsAllIff(policy: Policy, required: int, n: nat)
    ensures NeedsAll(policy, required, n) <==>
            match policy
            case SingleApprover => n <= 1
            case AllMustApprove => true
            case AnyCanApprove => n <= 1 || n <= required
            case Unknown(_) => true
            case _ => n == 0 || (n <= 2 && (required <= 0 || n <= required))
  {
  }

  /**
   The order of votes does not matter: when rejections are ignored, because a satisfied verdict is final;
   when they fail the gate or start rework, because only unanimity satisfies the policy; when they are
   refused, always.
   */
  predicate Indifferent(policy: Policy, required: int, reaction: Reaction, n: nat) {
    match reaction
    case Ignores => KeepsSatisfied(policy, required, n)
    case Refuses => true
    case _ => NeedsAll(policy, required, n)
  }

  /** Two orders of the same votes leave the gate with the same status. */
  ghost predicate SameEnd(rules: Rules, n: nat, votes: seq<bool>, others: seq<bool>) {
    |votes| == |others| <= n && Yeas(votes) == Yeas(others) ==>
      Held(rules, Begun(n), votes).standing == Held(rules, Begun(n), others).standing
  }

  // -------------------------------------------------------------------------------------------
  // What the machine needs of a policy
  // -------------------------------------------------------------------------------------------

  ghost predicate Known(rules: Rules) {
    forall c :: rules.verdict(c) != Unsupported
  }

  /** A failure is final, approvals do not undo a satisfied verdict, and rejections do not bring one about. */
  ghost predicate Lawful(rules: Rules) {
    && (forall c, d {:trigger Follows(c, d)} | Follows(c, d) && rules.verdict(c) == Failed ::
          rules.verdict(d) == Failed)
    && (forall c, d {:trigger Follows(c, d)} | Follows(c, d) && d.rejected == c.rejected && d.expired == c.expired
                      && rules.verdict(c) == Satisfied :: rules.verdict(d) == Satisfied)
    && (forall c, d {:trigger Follows(c, d)} | Follows(c, d) && d.approved == c.approved
                      && rules.verdict(d) == Satisfied :: rules.verdict(c) == Satisfied)
    && (forall n: nat :: rules.verdict(Stand(n, 0, 0)) != Satisfied)
  }

  lemma PolicyLawful(policy: Policy, required: int, reaction: Reaction)
    ensures Lawful(RulesOf(policy, required, reaction))
    ensures Known(RulesOf(policy, required, reaction)) || policy.Unknown?
  {
    var rules := RulesOf(policy, required, reaction);
    forall c, d | Follows(c, d) && rules.verdict(c) == Failed
      ensures rules.verdict(d) == Failed
    {
      FailFastSound(policy, required, c, d);
    }
    forall c, d | Follows(c, d) && d.rejected == c.rejected && d.expired == c.expired && rules.verdict(c) == Satisfied
      ensures rules.verdict(d) == Satisfied
    {
      ApprovalsKeep(policy, required, c, d);
    }
    forall c, d | Follows(c, d) && d.approved == c.approved && rules.verdict(d) == Satisfied
      ensures rules.verdict(c) == Satisfied
    {
      RejectionsNeverSatisfy(policy, required, c, d);
    }
    forall n: nat
      ensures rules.verdict(Stand(n, 0, 0)) != Satisfied
    {
      NothingYet(policy, required, n);
    }
  }

  lemma ApprovalsKeep(policy: Policy, required: int, c: Counts, d: Counts)
    requires Follows(c, d) && d.rejected == c.rejected && d.expired == c.expired
    requires EvaluateCounts(policy, required, c) == Satisfied
    ensures EvaluateCounts(policy, required, d) == Satisfied
  {
  }

  lemma RejectionsNeverSatisfy(policy: Policy, required: int, c: Counts, d: Counts)
    requires Follows(c, d) && d.approved == c.approved && EvaluateCounts(policy, required, d) == Satisfied
    ensures EvaluateCounts(policy, required, c) == Satisfied
  {
  }

  lemma NothingYet(policy: Policy, required: int, n: nat)
    ensures EvaluateCounts(policy, required, Stand(n, 0, 0)) != Satisfied
  {
  }

  // -------------------------------------------------------------------------------------------
  // What stays
  // -------------------------------------------------------------------------------------------

  lemma {:induction false} SatisfiedHolds(rules: Rules, poll: Poll, votes: seq<bool>)
    requires |votes| <= poll.counts.pending && poll.standing == SatisfiedGate
    ensures Held(rules, poll, votes).standing == SatisfiedGate
    decreases |votes|
  {
    if votes != [] { SatisfiedHolds(rules, Voted(rules, poll, votes[0]), votes[1..]); }
  }

  /** The status a rejection leaves behind; no vote changes it. */
  predicate Ended(rules: Rules, standing: Standing) {
    standing == if rules.reaction == Reworks then ReworkedGate else FailedGate
  }

  lemma {:induction false} RejectedHolds(rules: Rules, poll: Poll, votes: seq<bool>)
    requires |votes| <= poll.counts.pending && Ended(rules, poll.standing)
    ensures Ended(rules, Held(rules, poll, votes).standing)
    decreases |votes|
  {
    if votes != [] { RejectedHolds(rules, Voted(rules, poll, votes[0]), votes[1..]); }
  }

  /** A policy that is not known makes every decision fail. */
  lemma {:induction false} UnknownHolds(rules: Rules, poll: Poll, votes: seq<bool>)
    requires |votes| <= poll.counts.pending && poll.standing == OpenGate
    requires forall c: Counts | c.Total() > 0 :: rules.verdict(c) == Unsupported
    ensures Held(rules, poll, votes) == poll
    decreases |votes|
  {
    if votes != [] { UnknownHolds(rules, poll, votes[1..]); }
  }

  lemma {:induction false} AllYeas(votes: seq<bool>)
    ensures Yeas(votes) <= |votes|
    ensures Yeas(votes) == |votes| ==> forall i | 0 <= i < |votes| :: votes[i]
    decreases |votes|
  {
    if votes != [] {
      AllYeas(votes[1..]);
      assert forall i | 0 < i < |votes| :: votes[i] == votes[1..][i - 1];
    }
  }

  function Repeated(vote: bool, n: nat): (votes: seq<bool>)
    ensures |votes| == n
  {
    if n == 0 then [] else [vote] + Repeated(vote, n - 1)
  }

  lemma {:induction false} YeasRepeated(vote: bool, n: nat, rest: seq<bool>)
    ensures Yeas(Repeated(vote, n) + rest) == (if vote then n else 0) + Yeas(rest)
    decreases n
  {
    if n == 0 {
      assert Repeated(vote, 0) + rest == rest;
    } else {
      assert (Repeated(vote, n) + rest)[1..] == Repeated(vote, n - 1) + rest;
      YeasRepeated(vote, n - 1, rest);
    }
  }

  // -------------------------------------------------------------------------------------------
  // Rejections that end the gate
  // -------------------------------------------------------------------------------------------

  /** Where only unanimity satisfies the policy, one rejection decides the gate whenever it comes. */
  lemma {:induction false} OneRejectionDecides(rules: Rules, n: nat, a: nat, votes: seq<bool>, standing: Standing)
    requires (rules.reaction == Ends || rules.reaction == Reworks) && Known(rules) && Lawful(rules)
    requires a + |votes| <= n && Yeas(votes) < |votes| && rules.verdict(Stand(n, n - 1, 0)) != Satisfied
    requires standing == OpenGate || standing == FailedGate
    ensures Ended(rules, Held(rules, Poll(standing, Stand(n, a, 0)), votes).standing)
    decreases |votes|
  {
    var poll := Poll(standing, Stand(n, a, 0));
    var next := Voted(rules, poll, votes[0]);
    if votes[0] {
      AllYeas(votes[1..]);
      assert Follows(Stand(n, a + 1, 0), Stand(n, n - 1, 0));
      OneRejectionDecides(rules, n, a + 1, votes[1..], next.standing);
    } else {
      assert Follows(Stand(n, a, 0), Stand(n, n - 1, 0));
      assert Follows(Stand(n, a, 0), Stand(n, a, 1));
      RejectedHolds(rules, next, votes[1..]);
    }
  }

  lemma EndedSame(rules: Rules, n: nat, votes: seq<bool>, others: seq<bool>)
    requires (rules.reaction == Ends || rules.reaction == Reworks) && Known(rules) && Lawful(rules)
    requires |votes| == |others| <= n && Yeas(votes) == Yeas(others)
    requires n == 0 || rules.verdict(Stand(n, n - 1, 0)) != Satisfied
    ensures Held(rules, Begun(n), votes).standing == Held(rules, Begun(n), others).standing
  {
    AllYeas(votes);
    AllYeas(others);
    if Yeas(votes) < |votes| {
      OneRejectionDecides(rules, n, 0, votes, OpenGate);
      OneRejectionDecides(rules, n, 0, others, OpenGate);
    } else {
      assert votes == others;
    }
  }

  /** Approvals that suffice, coming before any rejection, satisfy the gate for good. */
  lemma {:induction false} EnoughFirst(rules: Rules, n: nat, a: nat, b: nat, rest: seq<bool>)
    requires Lawful(rules) && Known(rules) && a < b <= n && b - a + |rest| <= n - a
    requires rules.verdict(Stand(n, b, 0)) == Satisfied
    ensures Held(rules, Poll(OpenGate, Stand(n, a, 0)), Repeated(true, b - a) + rest).standing == SatisfiedGate
    decreases b - a
  {
    var poll, votes := Poll(OpenGate, Stand(n, a, 0)), Repeated(true, b - a) + rest;
    var next := Voted(rules, poll, true);
    assert votes[0] && votes[1..] == Repeated(true, b - a - 1) + rest;
    assert next.counts == Stand(n, a + 1, 0) && Follows(next.counts, Stand(n, b, 0));
    if next.standing == SatisfiedGate {
      SatisfiedHolds(rules, next, votes[1..]);
    } else {
      EnoughFirst(rules, n, a + 1, b, rest);
    }
  }

  lemma RejectionFirst(rules: Rules, n: nat, rest: seq<bool>)
    requires (rules.reaction == Ends || rules.reaction == Reworks) && Known(rules) && Lawful(rules) && |rest| < n
    ensures Ended(rules, Held(rules, Begun(n), [false] + rest).standing)
  {
    var next := Voted(rules, Begun(n), false);
    assert Follows(Stand(n, 0, 0), Stand(n, 0, 1));
    assert ([false] + rest)[1..] == rest;
    RejectedHolds(rules, next, rest);
  }

  /** Otherwise the same votes, one rejection last or first, end differently. */
  lemma OrderDecides(rules: Rules, n: nat) returns (votes: seq<bool>)
    requires (rules.reaction == Ends || rules.reaction == Reworks) && Known(rules) && Lawful(rules)
    requires n > 0 && rules.verdict(Stand(n, n - 1, 0)) == Satisfied
    ensures |votes| == n && !SameEnd(rules, n, votes, votes[n - 1..] + votes[..n - 1])
  {
    var yes := Repeated(true, n - 1);
    votes := yes + [false];
    assert votes[n - 1..] == [false] && votes[..n - 1] == yes;
    SameYeas(n - 1);
    EnoughFirst(rules, n, 0, n - 1, [false]);
    RejectionFirst(rules, n, yes);
  }

  lemma SameYeas(n: nat)
    ensures Yeas(Repeated(true, n) + [false]) == Yeas([false] + Repeated(true, n))
  {
    YeasRepeated(true, n, [false]);
    YeasRepeated(true, n, []);
    assert Repeated(true, n) + [] == Repeated(true, n) && ([false] + Repeated(true, n))[1..] == Repeated(true, n);
  }

  // -------------------------------------------------------------------------------------------
  // Rejections that are refused
  // -------------------------------------------------------------------------------------------

  /** Only the approvals matter. */
  lemma {:induction false} RefusedEnd(rules: Rules, n: nat, a: nat, votes: seq<bool>)
    requires rules.reaction == Refuses && Lawful(rules) && a + |votes| <= n
    requires rules.verdict(Stand(n, a, 0)) != Satisfied
    ensures Yeas(votes) <= |votes|
    ensures var poll := Poll(OpenGate, Stand(n, a, 0));
            Held(rules, poll, votes).standing == Held(rules, poll, Repeated(true, Yeas(votes))).standing
    decreases |votes|
  {
    AllYeas(votes);
    if votes != [] {
      var poll, rest := Poll(OpenGate, Stand(n, a, 0)), votes[1..];
      AllYeas(rest);
      if votes[0] {
        var next := Voted(rules, poll, true);
        var yes := Repeated(true, Yeas(rest));
        assert Repeated(true, Yeas(votes))[1..] == yes;
        if next.standing == SatisfiedGate {
          SatisfiedHolds(rules, next, rest);
          SatisfiedHolds(rules, next, yes);
        } else if next.standing == FailedGate {
          RejectedHolds(rules, next, rest);
          RejectedHolds(rules, next, yes);
        } else {
          RefusedEnd(rules, n, next.counts.approved, rest);
        }
      } else {
        assert Follows(Stand(n, a, 0), Stand(n, a, 1));
        RefusedEnd(rules, n, a, rest);
      }
    }
  }

  lemma RefusedSame(rules: Rules, n: nat, votes: seq<bool>, others: seq<bool>)
    requires rules.reaction == Refuses && Lawful(rules) && |votes| == |others| <= n && Yeas(votes) == Yeas(others)
    ensures Held(rules, Begun(n), votes).standing == Held(rules, Begun(n), others).standing
  {
    RefusedEnd(rules, n, 0, votes);
    RefusedEnd(rules, n, 0, others);
  }

  // -------------------------------------------------------------------------------------------
  // Rejections that are ignored
  // -------------------------------------------------------------------------------------------

  ghost predicate KeepsIt(rules: Rules, n: nat) {
    forall c: Counts, d: Counts {:trigger Follows(c, d)} | c.Total() == n && Follows(c, d) ::
      rules.verdict(c) == Satisfied ==> rules.verdict(d) == Satisfied
  }

  function Final(c: Counts, votes: seq<bool>): Counts
    requires |votes| <= c.pending && Yeas(votes) <= |votes|
  {
    Counts(c.approved + Yeas(votes), c.rejected + |votes| - Yeas(votes), c.pending - |votes|, c.expired)
  }

  function Closed(verdict: Verdict): Standing {
    match verdict
    case Satisfied => SatisfiedGate
    case Failed => FailedGate
    case _ => OpenGate
  }

  /** Where a satisfied verdict is final, the gate ends as the final counts are judged. */
  lemma {:induction false} IgnoredEnd(rules: Rules, c: Counts, votes: seq<bool>)
    requires rules.reaction == Ignores && Known(rules) && Lawful(rules) && KeepsIt(rules, c.Total())
    requires votes != [] && |votes| <= c.pending
    ensures Yeas(votes) <= |votes|
    ensures Held(rules, Poll(OpenGate, c), votes).standing == Closed(rules.verdict(Final(c, votes)))
    decreases |votes|
  {
    AllYeas(votes);
    AllYeas(votes[1..]);
    var next, rest := Voted(rules, Poll(OpenGate, c), votes[0]), votes[1..];
    assert Final(c, votes) == Final(next.counts, rest) && Follows(next.counts, Final(next.counts, rest));
    if next.standing == SatisfiedGate {
      SatisfiedHolds(rules, next, rest);
    } else if next.standing == FailedGate {
      RejectedHolds(rules, next, rest);
    } else if rest != [] {
      IgnoredEnd(rules, next.counts, rest);
    }
  }

  lemma IgnoredSame(rules: Rules, n: nat, votes: seq<bool>, others: seq<bool>)
    requires rules.reaction == Ignores && Known(rules) && Lawful(rules) && KeepsIt(rules, n)
    requires |votes| == |others| <= n && Yeas(votes) == Yeas(others)
    ensures Held(rules, Begun(n), votes).standing == Held(rules, Begun(n), others).standing
  {
    if votes != [] {
      IgnoredEnd(rules, Begun(n).counts, votes);
      IgnoredEnd(rules, Begun(n).counts, others);
    }
  }

  /** Enough rejections, coming first, fail a gate. */
  lemma {:induction false} RejectionsEnd(rules: Rules, n: nat, m: nat, r: nat, rest: seq<bool>)
    requires rules.reaction == Ignores && r < m <= n && |rest| <= n - m && rules.verdict(Stand(n, 0, m)) == Failed
    requires forall i: nat | i <= m ::
               rules.verdict(Stand(n, 0, i)) == Failed || rules.verdict(Stand(n, 0, i)) == Undecided
    ensures Held(rules, Poll(OpenGate, Stand(n, 0, r)), Repeated(false, m - r) + rest).standing == FailedGate
    decreases m - r
  {
    var votes := Repeated(false, m - r) + rest;
    var next := Voted(rules, Poll(OpenGate, Stand(n, 0, r)), false);
    assert !votes[0] && votes[1..] == Repeated(false, m - (r + 1)) + rest;
    assert next.counts == Stand(n, 0, r + 1);
    if next.standing == FailedGate {
      RejectedHolds(rules, next, votes[1..]);
    } else {
      RejectionsEnd(rules, n, m, r + 1, rest);
    }
  }

  /** `k` approvals that suffice before `n - k` rejections that suffice, or after them. */
  lemma EarlyOrLate(rules: Rules, n: nat, k: nat) returns (votes: seq<bool>)
    requires rules.reaction == Ignores && Known(rules) && Lawful(rules) && 0 < k < n
    requires rules.verdict(Stand(n, k, 0)) == Satisfied && rules.verdict(Stand(n, 0, n - k)) == Failed
    requires forall i: nat | i <= n - k ::
               rules.verdict(Stand(n, 0, i)) == Failed || rules.verdict(Stand(n, 0, i)) == Undecided
    ensures |votes| == n && !SameEnd(rules, n, votes, votes[k..] + votes[..k])
  {
    var yes, no := Repeated(true, k), Repeated(false, n - k);
    votes := yes + no;
    assert votes[k..] == no && votes[..k] == yes;
    EnoughFirst(rules, n, 0, k, no);
    RejectionsEnd(rules, n, n - k, 0, yes);
    YeasRepeated(true, k, no);
    YeasRepeated(false, n - k, yes);
    YeasRepeated(true, k, []);
    YeasRepeated(false, n - k, []);
    assert yes + [] == yes && no + [] == no;
  }

  // -------------------------------------------------------------------------------------------
  // The order of votes
  // -------------------------------------------------------------------------------------------

  /** `Indifferent`, as the machine needs it. */
  ghost predicate Settled(rules: Rules, n: nat) {
    || (forall c: Counts | c.Total() > 0 :: rules.verdict(c) == Unsupported)
    || (&& Known(rules)
        && match rules.reaction
           case Ignores => KeepsIt(rules, n)
           case Refuses => true
           case _ => n == 0 || rules.verdict(Stand(n, n - 1, 0)) != Satisfied)
  }

  lemma SettledSameEnd(rules: Rules, n: nat, votes: seq<bool>, others: seq<bool>)
    requires Lawful(rules) && Settled(rules, n)
    ensures SameEnd(rules, n, votes, others)
  {
    if |votes| == |others| <= n && Yeas(votes) == Yeas(others) {
      if !Known(rules) {
        UnknownHolds(rules, Begun(n), votes);
        UnknownHolds(rules, Begun(n), others);
      } else if rules.reaction == Ignores {
        IgnoredSame(rules, n, votes, others);
      } else if rules.reaction == Refuses {
        RefusedSame(rules, n, votes, others);
      } else {
        EndedSame(rules, n, votes, others);
      }
    }
  }

  lemma IndifferentSettled(policy: Policy, required: int, reaction: Reaction, n: nat)
    requires Indifferent(policy, required, reaction, n)
    ensures Settled(RulesOf(policy, required, reaction), n)
  {
    PolicyLawful(policy, required, reaction);
    if reaction == Ignores {
      PolicyKeeps(policy, required, n);
    }
  }

  lemma PolicyKeeps(policy: Policy, required: int, n: nat)
    requires KeepsSatisfied(policy, required, n)
    ensures KeepsIt(RulesOf(policy, required, Ignores), n)
  {
    forall c: Counts, d: Counts | c.Total() == n && Follows(c, d) && EvaluateCounts(policy, required, c) == Satisfied
      ensures EvaluateCounts(policy, required, d) == Satisfied
    {
      SatisfiedStays(policy, required, c, d);
    }
  }

  /** Where the order matters, moving the first `k` votes to the end changes how the gate ends. */
  lemma OrderMatters(policy: Policy, required: int, reaction: Reaction, n: nat) returns (votes: seq<bool>, k: nat)
    requires !Indifferent(policy, required, reaction, n)
    ensures k <= |votes| == n && !SameEnd(RulesOf(policy, required, reaction), n, votes, votes[k..] + votes[..k])
  {
    var rules := RulesOf(policy, required, reaction);
    PolicyLawful(policy, required, reaction);
    if reaction == Ignores {
      k := required;
      ApprovingVerdict(policy, required, n, k);
      forall i: nat | i <= n - k
        ensures var v := rules.verdict(Stand(n, 0, i));
                (v == Failed || v == Undecided) && (i == n - k ==> v == Failed)
      {
        RejectingVerdict(policy, required, n, i);
      }
      votes := EarlyOrLate(rules, n, k);
    } else {
      votes := OrderDecides(rules, n);
      k := n - 1;
    }
  }

  lemma VoteOrderIrrelevantIff(policy: Policy, required: int, reaction: Reaction, n: nat)
    ensures (forall votes, others :: SameEnd(RulesOf(policy, required, reaction), n, votes, others))
            <==> Indifferent(policy, required, reaction, n)
  {
    if Indifferent(policy, required, reaction, n) {
      PolicyLawful(policy, required, reaction);
      IndifferentSettled(policy, required, reaction, n);
      forall votes, others
        ensures SameEnd(RulesOf(policy, required, reaction), n, votes, others)
      {
        SettledSameEnd(RulesOf(policy, required, reaction), n, votes, others);
      }
    } else {
      var votes, k := OrderMatters(policy, required, reaction, n);
    }
  }
}
