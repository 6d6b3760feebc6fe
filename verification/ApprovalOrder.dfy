/**
 The order in which the requests of a gate are decided: a run of decisions on a gate without a chain
 refines the voting machine, so that how the gate ends is independent of the order exactly when the
 policy and the rejection behaviour make it so.
 */
module ApprovalOrder {
  import opened Outcomes
  import opened ApprovalPolicy
  import opened ApprovalGates
  import opened ApprovalLaws
  import opened ApprovalVotes

  /** What a rejection does to an unsatisfied gate, by its behaviour and the state of its case. */
  function ReactionOf(s: Store, g: nat): Reaction
    requires g in s.gates
  {
    var config := s.gates[g].config;
    match config.onRejection
    case OtherBehavior(_) => Ignores
    case TerminalFail => Ends
    case SendToRework =>
      if config.reworkTarget == "" || config.caseId !in s.cases then Refuses
      else
        var row := s.cases[config.caseId];
        if row.maxRework > 0 && row.reworkCount + 1 > row.maxRework then Ignores
        else if config.reworkTarget !in row.stages then Refuses
        else Reworks
  }

  /** Once the case is in rework, another rejection may find no rework left. */
  predicate Acts(s: Store, g: nat, reaction: Reaction, standing: Standing)
    requires g in s.gates
  {
    ReactionOf(s, g) == reaction || (reaction == Reworks && standing == ReworkedGate && ReactionOf(s, g) == Ignores)
  }

  predicate Open(status: GateStatus) {
    status == GatePending || status == GateActive
  }

  function StatusOf(standing: Standing, open: GateStatus): GateStatus {
    match standing
    case OpenGate => open
    case SatisfiedGate => GateSatisfied
    case FailedGate => GateFailed
    case ReworkedGate => GateReworkInitiated
  }

  // -------------------------------------------------------------------------------------------
  // One decision
  // -------------------------------------------------------------------------------------------

  /** The gate has this status, and a rejection does this to it. */
  ghost predicate Stands(s: Store, g: nat, open: GateStatus, standing: Standing, reaction: Reaction) {
    && Open(open) && g in s.gates && g !in s.chains
    && s.Status(g) == StatusOf(standing, open) && Acts(s, g, reaction, standing)
  }

  ghost predicate SameGate(s: Store, t: Store, g: nat)
    requires g in s.gates
  {
    t.requests == s.requests && g in t.gates && t.gates[g].config == s.gates[g].config
  }

  /** The verdict closes an open gate and leaves any other alone. */
  function Evaluated(standing: Standing, verdict: Verdict): Standing {
    if standing == OpenGate then Closed(verdict) else standing
  }

  lemma VerdictStands(s: Store, g: nat, open: GateStatus, standing: Standing, reaction: Reaction, verdict: Verdict)
    requires Stands(s, g, open, standing, reaction)
    ensures var r := ApplyVerdict(s, g, verdict);
            && (r.Err? <==> (standing == OpenGate || standing == ReworkedGate) && verdict == Unsupported)
            && (r.Ok? ==> Stands(r.value.0, g, open, Evaluated(standing, verdict), reaction)
                          && SameGate(s, r.value.0, g)
                          && (r.value.1 <==> standing == SatisfiedGate
                                             || (verdict == Satisfied && standing != FailedGate)))
  {
  }

  lemma RejectionStands(s: Store, g: nat, open: GateStatus, standing: Standing, reaction: Reaction)
    requires Stands(s, g, open, standing, reaction)
    ensures Turned(s, g, open, reaction, ExecuteRejection(s, g), React(standing, reaction))
  {
  }

  /** The decision fails as the machine says, or leaves the gate as the machine says. */
  ghost predicate Turned(s: Store, g: nat, open: GateStatus, reaction: Reaction, r: Result<Store>,
                         next: Option<Standing>)
    requires g in s.gates
  {
    (r.Ok? <==> next.Some?) && (r.Ok? ==> Stands(r.value, g, open, next.value, reaction) && SameGate(s, r.value, g))
  }

  lemma ApprovalTurns(s: Store, g: nat, open: GateStatus, standing: Standing, reaction: Reaction, verdict: Verdict)
    requires Stands(s, g, open, standing, reaction)
    ensures Turned(s, g, open, reaction, Concluded(s, g, verdict, true), Turns(standing, verdict, true, reaction))
  {
    VerdictStands(s, g, open, standing, reaction, verdict);
  }

  lemma RejectionTurns(s: Store, g: nat, open: GateStatus, standing: Standing, reaction: Reaction, verdict: Verdict)
    requires Stands(s, g, open, standing, reaction)
    ensures Turned(s, g, open, reaction, Concluded(s, g, verdict, false), Turns(standing, verdict, false, reaction))
  {
    VerdictStands(s, g, open, standing, reaction, verdict);
    if ApplyVerdict(s, g, verdict).Ok? && !ApplyVerdict(s, g, verdict).value.1 {
      var t := ApplyVerdict(s, g, verdict).value.0;
      RejectionStands(t, g, open, Evaluated(standing, verdict), reaction);
    }
  }

  /** A gate's requests and status mirror a poll. */
  ghost predicate Mirrors(s: Store, g: nat, open: GateStatus, reaction: Reaction, poll: Poll) {
    Stands(s, g, open, poll.standing, reaction) && Tally(s.requests, OfGate(g)) == poll.counts
  }

  /** The pending request of the gate is decided by somebody who may. */
  predicate Ballot(s: Store, g: nat, step: Step) {
    && step.Decide? && step.r < |s.requests| && s.requests[step.r].gate == g && s.requests[step.r].status == Pending
    && TransitionAllowed(Pending, Approved, step.actor)
  }

  lemma TallyCast(s: Store, g: nat, r: nat, approve: bool)
    requires r < |s.requests| && s.requests[r].gate == g && s.requests[r].status == Pending
    ensures var c := Tally(s.requests, OfGate(g));
            c.pending > 0 && Tally(Marked(s.requests, r, approve), OfGate(g)) == Cast(c, VoteFor(approve))
  {
    var decided := s.requests[r].(status := if approve then Approved else Rejected);
    var rest := TallyReplace(s.requests, r, decided, OfGate(g));
  }

  ghost function RulesIn(s: Store, g: nat, reaction: Reaction): Rules
    requires g in s.gates
  {
    RulesOf(s.gates[g].config.policy, s.gates[g].config.required, reaction)
  }

  /** The store once the request is marked. */
  function Decided(s: Store, g: nat, step: Step): (t: Store)
    requires Ballot(s, g, step)
    ensures t.requests == Marked(s.requests, step.r, step.approve)
    ensures t.gates == s.gates && t.chains == s.chains && t.cases == s.cases
  {
    s.SetRequest(step.r, if step.approve then Approved else Rejected, s.requests[step.r].delegatedTo)
     .Publish(if step.approve then GrantedEvent else RejectedEvent, g)
  }

  lemma BallotConcluded(s: Store, g: nat, step: Step)
    requires Ballot(s, g, step) && g in s.gates && g !in s.chains
    ensures var t := Decided(s, g, step);
            Apply(s, step) == Kept(s, Concluded(t, g, GateVerdict(t, g), step.approve))
  {
    AfterDecisionConcluded(Decided(s, g, step), g, step.approve, step.eval);
  }

  lemma DecidedTurns(s: Store, g: nat, open: GateStatus, standing: Standing, reaction: Reaction, step: Step,
      verdict: Verdict)
    requires Stands(s, g, open, standing, reaction) && Ballot(s, g, step)
    ensures var t := Decided(s, g, step);
            Turned(t, g, open, reaction, Concluded(t, g, verdict, step.approve),
                   Turns(standing, verdict, step.approve, reaction))
  {
    var t := Decided(s, g, step);
    assert Stands(t, g, open, standing, reaction);
    if step.approve {
      ApprovalTurns(t, g, open, standing, reaction, verdict);
    } else {
      RejectionTurns(t, g, open, standing, reaction, verdict);
    }
  }

  /** What follows of `Turned` for the poll. */
  lemma KeptVotes(s: Store, g: nat, open: GateStatus, reaction: Reaction, poll: Poll, step: Step, decided: Store,
      r: Result<Store>)
    requires Mirrors(s, g, open, reaction, poll) && Ballot(s, g, step) && poll.counts.pending > 0
    requires decided.gates == s.gates && decided.requests == Marked(s.requests, step.r, step.approve)
    requires Tally(decided.requests, OfGate(g)) == Cast(poll.counts, VoteFor(step.approve))
    requires Turned(decided, g, open, reaction, r,
                    Turns(poll.standing, GateVerdict(decided, g), step.approve, reaction))
    ensures var t := Kept(s, r);
            && Mirrors(t, g, open, reaction, Voted(RulesIn(s, g, reaction), poll, step.approve))
            && t.gates[g].config == s.gates[g].config
            && (t.requests == s.requests || t.requests == Marked(s.requests, step.r, step.approve))
  {
  }

  /** A decision is a vote; it changes no other request and not the gate's configuration. */
  lemma BallotVotes(s: Store, g: nat, open: GateStatus, reaction: Reaction, poll: Poll, step: Step)
    requires Mirrors(s, g, open, reaction, poll) && Ballot(s, g, step)
    ensures poll.counts.pending > 0
    ensures Mirrors(Apply(s, step), g, open, reaction, Voted(RulesIn(s, g, reaction), poll, step.approve))
    ensures var t := Apply(s, step);
            && t.gates[g].config == s.gates[g].config
            && (t.requests == s.requests || t.requests == Marked(s.requests, step.r, step.approve))
  {
    var t := Decided(s, g, step);
    TallyCast(s, g, step.r, step.approve);
    BallotConcluded(s, g, step);
    DecidedTurns(s, g, open, poll.standing, reaction, step, GateVerdict(t, g));
    KeptVotes(s, g, open, reaction, poll, step, t, Concluded(t, g, GateVerdict(t, g), step.approve));
  }

  // -------------------------------------------------------------------------------------------
  // A run of decisions
  // -------------------------------------------------------------------------------------------

  /** Each step decides another pending request of the gate. */
  ghost predicate Polling(s: Store, g: nat, steps: seq<Step>) {
    && (forall i | 0 <= i < |steps| :: Ballot(s, g, steps[i]))
    && forall i, j | 0 <= i < j < |steps| :: steps[i].r != steps[j].r
  }

  predicate Approves(step: Step) {
    step.Decide? && step.approve
  }

  function Answers<T>(xs: seq<T>, f: T -> bool): (votes: seq<bool>)
    ensures |votes| == |xs| && forall i | 0 <= i < |xs| :: votes[i] == f(xs[i])
  {
    if xs == [] then [] else [f(xs[0])] + Answers(xs[1..], f)
  }

  function Votes(steps: seq<Step>): seq<bool> {
    Answers(steps, Approves)
  }

  lemma {:induction false} RunFront(s: Store, steps: seq<Step>)
    requires steps != []
    ensures Run(s, steps) == Run(Apply(s, steps[0]), steps[1..])
    decreases |steps|
  {
    var n := |steps| - 1;
    if n == 0 {
      assert steps[..0] == [] && steps[1..] == [];
    } else {
      assert steps[..n][0] == steps[0] && steps[..n][1..] == steps[1..][..n - 1];
      RunFront(s, steps[..n]);
    }
  }

  lemma PollingRest(s: Store, t: Store, g: nat, steps: seq<Step>)
    requires Polling(s, g, steps) && steps != []
    requires t.requests == s.requests || t.requests == Marked(s.requests, steps[0].r, steps[0].approve)
    ensures Polling(t, g, steps[1..])
  {
    forall i | 0 <= i < |steps[1..]|
      ensures Ballot(t, g, steps[1..][i])
    {
      assert Ballot(s, g, steps[i + 1]) && steps[0].r != steps[i + 1].r;
    }
  }

  /** No more votes than pending requests. */
  lemma {:induction false} EnoughPending(s: Store, g: nat, steps: seq<Step>)
    requires Polling(s, g, steps)
    ensures |steps| <= Tally(s.requests, OfGate(g)).pending
    decreases |steps|
  {
    if steps != [] {
      assert Ballot(s, g, steps[0]);
      var t := s.(requests := Marked(s.requests, steps[0].r, steps[0].approve));
      TallyCast(s, g, steps[0].r, steps[0].approve);
      PollingRest(s, t, g, steps);
      EnoughPending(t, g, steps[1..]);
    }
  }

  /** A run of decisions refines the voting machine. */
  lemma {:induction false} RunVotes(s: Store, g: nat, open: GateStatus, reaction: Reaction, poll: Poll,
      steps: seq<Step>)
    requires Mirrors(s, g, open, reaction, poll) && Polling(s, g, steps)
    ensures |steps| <= poll.counts.pending
    ensures Mirrors(Run(s, steps), g, open, reaction, Held(RulesIn(s, g, reaction), poll, Votes(steps)))
    decreases |steps|
  {
    EnoughPending(s, g, steps);
    if steps != [] {
      assert Ballot(s, g, steps[0]);
      var t, next := Apply(s, steps[0]), Voted(RulesIn(s, g, reaction), poll, steps[0].approve);
      BallotVotes(s, g, open, reaction, poll, steps[0]);
      PollingRest(s, t, g, steps);
      RunVotes(t, g, open, reaction, next, steps[1..]);
      RunFront(s, steps);
    }
  }

  // -------------------------------------------------------------------------------------------
  // The order of decisions
  // -------------------------------------------------------------------------------------------

  lemma {:induction false} YeasSplit(a: seq<bool>, b: seq<bool>)
    ensures Yeas(a + b) == Yeas(a) + Yeas(b)
    decreases |a|
  {
    if a == [] {
      assert a + b == b;
    } else {
      assert (a + b)[1..] == a[1..] + b;
      YeasSplit(a[1..], b);
    }
  }

  lemma TakeOutVote(votes: seq<bool>, k: nat)
    requires k < |votes|
    ensures Yeas(votes) == Yeas(votes[..k] + votes[k + 1..]) + if votes[k] then 1 else 0
  {
    var before, after := votes[..k], votes[k..];
    assert votes == before + after && after[1..] == votes[k + 1..];
    YeasSplit(before, after);
    YeasSplit(before, after[1..]);
  }

  lemma TakeOut<T>(xs: seq<T>, k: nat, rest: seq<T>)
    requires k < |xs| && rest == xs[..k] + xs[k + 1..]
    ensures multiset(rest) == multiset(xs) - multiset{xs[k]}
  {
    assert xs == xs[..k] + [xs[k]] + xs[k + 1..];
  }

  lemma TakeOutAnswer<T>(xs: seq<T>, k: nat, rest: seq<T>, f: T -> bool)
    requires k < |xs| && rest == xs[..k] + xs[k + 1..]
    ensures Yeas(Answers(xs, f)) == Yeas(Answers(rest, f)) + if f(xs[k]) then 1 else 0
  {
    var votes := Answers(xs, f);
    assert Answers(rest, f) == votes[..k] + votes[k + 1..];
    TakeOutVote(votes, k);
  }

  /** Two orders of the same decisions have the same number of approvals. */
  lemma {:induction false} YeasReordered<T>(xs: seq<T>, ys: seq<T>, f: T -> bool)
    requires multiset(xs) == multiset(ys)
    ensures |xs| == |ys| && Yeas(Answers(xs, f)) == Yeas(Answers(ys, f))
    decreases |xs|
  {
    assert |multiset(xs)| == |multiset(ys)|;
    if xs != [] {
      assert xs[0] in multiset(ys);
      var k :| 0 <= k < |ys| && ys[k] == xs[0];
      var zs := ys[..k] + ys[k + 1..];
      TakeOut(xs, 0, xs[1..]);
      TakeOut(ys, k, zs);
      YeasReordered(xs[1..], zs, f);
      TakeOutAnswer(xs, 0, xs[1..], f);
      TakeOutAnswer(ys, k, zs, f);
    }
  }

  /** An open gate without a chain whose `n` requests are all still to be decided. */
  ghost predicate Waiting(s: Store, g: nat, n: nat) {
    && g in s.gates && g !in s.chains && Open(s.Status(g)) && Tally(s.requests, OfGate(g)) == Stand(n, 0, 0)
  }

  ghost predicate SameStatus(s: Store, g: nat, steps: seq<Step>, others: seq<Step>) {
    Polling(s, g, steps) && Polling(s, g, others) && multiset(steps) == multiset(others) ==>
      var t, u := Run(s, steps), Run(s, others);
      g in t.gates && g in u.gates && t.Status(g) == u.Status(g)
  }

  /** The two orders end as the machine says. */
  lemma OrdersEnd(s: Store, g: nat, n: nat, steps: seq<Step>, others: seq<Step>)
    requires Waiting(s, g, n) && Polling(s, g, steps) && Polling(s, g, others) && multiset(steps) == multiset(others)
    ensures SameStatus(s, g, steps, others)
            <==> SameEnd(RulesIn(s, g, ReactionOf(s, g)), n, Votes(steps), Votes(others))
  {
    var open, reaction := s.Status(g), ReactionOf(s, g);
    RunVotes(s, g, open, reaction, Begun(n), steps);
    RunVotes(s, g, open, reaction, Begun(n), others);
    YeasReordered(steps, others, Approves);
  }

  lemma {:induction false} PendingRows(requests: seq<Request>, g: nat, m: nat) returns (rows: seq<nat>)
    requires m <= |requests|
    ensures |rows| == TallyTo(requests, m, OfGate(g)).pending
    ensures forall i | 0 <= i < |rows| ::
              rows[i] < m && requests[rows[i]].gate == g && requests[rows[i]].status == Pending
    ensures forall i, j | 0 <= i < j < |rows| :: rows[i] != rows[j]
    decreases m
  {
    if m == 0 {
      rows := [];
    } else {
      rows := PendingRows(requests, g, m - 1);
      if requests[m - 1].gate == g && requests[m - 1].status == Pending {
        rows := rows + [m - 1];
      }
    }
  }

  /** The votes can be given: there are as many pending requests. */
  lemma BallotsFor(s: Store, g: nat, votes: seq<bool>) returns (steps: seq<Step>)
    requires |votes| == Tally(s.requests, OfGate(g)).pending
    ensures Polling(s, g, steps) && Votes(steps) == votes
  {
    var rows := PendingRows(s.requests, g, |s.requests|);
    var actor := Decider("a");
    assert |actor.id| == 1 && TransitionAllowed(Pending, Approved, actor);
    steps := seq(|votes|, i requires 0 <= i < |votes| => Decide(rows[i], actor, votes[i], Silent()));
  }

  lemma RotatedPolling(s: Store, g: nat, steps: seq<Step>, others: seq<Step>, k: nat)
    requires Polling(s, g, steps) && k <= |steps| && others == steps[k..] + steps[..k]
    ensures Polling(s, g, others)
  {
    var m := |steps| - k;
    assert forall i | 0 <= i < |others| :: others[i] == if i < m then steps[i + k] else steps[i - m];
    forall i | 0 <= i < |others|
      ensures Ballot(s, g, others[i])
    {
      assert Ballot(s, g, steps[if i < m then i + k else i - m]);
    }
  }

  lemma RotatedMultiset<T>(xs: seq<T>, k: nat)
    requires k <= |xs|
    ensures multiset(xs[k..] + xs[..k]) == multiset(xs)
  {
    assert xs == xs[..k] + xs[k..];
  }

  lemma Rotated(s: Store, g: nat, steps: seq<Step>, k: nat)
    requires Polling(s, g, steps) && k <= |steps|
    ensures var others := steps[k..] + steps[..k];
            && Polling(s, g, others) && multiset(others) == multiset(steps)
            && Votes(others) == Votes(steps)[k..] + Votes(steps)[..k]
  {
    RotatedMultiset(steps, k);
    RotatedPolling(s, g, steps, steps[k..] + steps[..k], k);
  }

  /**
   The order in which the requests of a gate are decided never matters to how it ends exactly when
   `Indifferent` says so of its policy, its rejection behaviour and the number of its requests.
   */
  lemma DecisionOrderIrrelevantIff(s: Store, g: nat, n: nat)
    requires Waiting(s, g, n)
    ensures (forall steps, others :: SameStatus(s, g, steps, others))
            <==> Indifferent(s.gates[g].config.policy, s.gates[g].config.required, ReactionOf(s, g), n)
  {
    var policy, required, reaction := s.gates[g].config.policy, s.gates[g].config.required, ReactionOf(s, g);
    if Indifferent(policy, required, reaction, n) {
      VoteOrderIrrelevantIff(policy, required, reaction, n);
      forall steps, others
        ensures SameStatus(s, g, steps, others)
      {
        if Polling(s, g, steps) && Polling(s, g, others) && multiset(steps) == multiset(others) {
          OrdersEnd(s, g, n, steps, others);
          assert SameEnd(RulesOf(policy, required, reaction), n, Votes(steps), Votes(others));
        }
      }
    } else {
      var votes, k := OrderMatters(policy, required, reaction, n);
      var steps := BallotsFor(s, g, votes);
      Rotated(s, g, steps, k);
      OrdersEnd(s, g, n, steps, steps[k..] + steps[..k]);
      assert !SameStatus(s, g, steps, steps[k..] + steps[..k]);
    }
  }

  /** Any of several may approve and a rejection fails the gate: whoever decides first prevails. */
  lemma FirstDecisionPrevails(s: Store, g: nat, n: nat) returns (steps: seq<Step>, others: seq<Step>)
    requires Waiting(s, g, n) && n > 1 && s.gates[g].config.policy == AnyCanApprove && s.gates[g].config.required == 1
    requires s.gates[g].config.onRejection == TerminalFail
    ensures Polling(s, g, steps) && Polling(s, g, others) && multiset(steps) == multiset(others)
    ensures g in Run(s, steps).gates && g in Run(s, others).gates
    ensures Run(s, steps).Status(g) != Run(s, others).Status(g)
  {
    DecisionOrderIrrelevantIff(s, g, n);
    NeedsAllIff(AnyCanApprove, 1, n);
    steps, others :| !SameStatus(s, g, steps, others);
    RunVotes(s, g, s.Status(g), Ends, Begun(n), steps);
    RunVotes(s, g, s.Status(g), Ends, Begun(n), others);
  }
}
