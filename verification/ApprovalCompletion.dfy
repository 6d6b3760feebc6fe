/**
 Which chains a run of gate operations can complete. Requests are only made for the first tier, so each
 later tier has to be skipped by one of its expressions.
 */
module ApprovalCompletion {
  import opened Outcomes
  import opened ApprovalPolicy
  import opened ApprovalChain
  import opened ApprovalGates
  import opened ApprovalLaws
  import opened ApprovalTiers

  /** An expression can let the tier be skipped without stalling at a next tier numbered 0. */
  predicate Skippable(tiers: seq<Tier>, i: nat)
    requires i < |tiers|
  {
    || tiers[i].requiredIf != ""
    || (tiers[i].canSkipIf != "" && !(i + 1 < |tiers| && tiers[i + 1].number == 0))
  }

  /** Distinct numbers, a first tier that can be passed, and later ones that can be skipped. */
  ghost predicate Completable(tiers: seq<Tier>) {
    && tiers != [] && DistinctUpTo(tiers, |tiers|) && Passable(tiers, 0)
    && forall i | 0 < i < |tiers| :: Skippable(tiers, i)
  }

  ghost predicate CompletesIn(s: Store, steps: seq<Step>, g: nat, tiers: seq<Tier>) {
    && SameTiersRun(steps, g, tiers) && g in Run(s, steps).chains
    && Run(s, steps).chains[g].status == ChainCompleted
  }

  /** What a run has completed was completable. */
  lemma CompletedCompletable(s: Store, steps: seq<Step>, g: nat, tiers: seq<Tier>)
    requires Fresh(s) && tiers != [] && CompletesIn(s, steps, g, tiers)
    ensures Completable(tiers)
  {
    var views, at := RunIsTrace(s, steps, g, tiers);
    var trace := Trace(Created(tiers), views);
    CompletedPassable(tiers, views);
    CompletedMeansResolved(tiers, views, |views|);
    forall i | 0 < i < |tiers|
      ensures Skippable(tiers, i)
    {
      assert ResolvedBefore(trace, views, tiers, i, |views|);
      var j :| 0 <= j < |views| && ResolvedAt(trace, views, tiers, i, j);
      assert EvaluatedIn(s, steps, g, tiers, views, j, at[j]);
      assert tiers[i].number != tiers[0].number;
      UnaskedSkippable(tiers, i, views[j]);
    }
  }

  /** A tier without requests is left behind only by an expression. */
  lemma UnaskedSkippable(tiers: seq<Tier>, i: nat, view: View)
    requires i < |tiers| && Passes(tiers, i, view) && view.counts(tiers[i].number) == NOTHING
    ensures Skippable(tiers, i)
  {
  }

  // -------------------------------------------------------------------------------------------
  // A run that completes the chain
  // -------------------------------------------------------------------------------------------

  // One approver is asked. The request is delegated from one approver to the next, once for each later
  // tier; the last delegate approves, and then each of the others approves the request delegated to them.

  /** As many different approvers as are needed. */
  function Name(n: nat): string {
    if n == 0 then "a" else Name(n - 1) + "a"
  }

  lemma {:induction false} NameLength(n: nat)
    ensures |Name(n)| == n + 1
  {
    if n > 0 { NameLength(n - 1); }
  }

  /** Every expression has the given value. */
  function Always(value: bool): string -> Result<bool> {
    e => if e == "" then Err("expression is empty") else Ok(value)
  }

  function Config(tiers: seq<Tier>): GateConfig {
    GateConfig(0, SingleApprover, 1, Escalate, OtherBehavior("none"), "", tiers)
  }

  /** The request of approver `i`, delegated to the next one, still pending, or approved. */
  function Row(g: nat, number: int, i: nat, last: nat, status: RequestStatus): Request {
    Request(g, Name(i), Some(number), status, if i < last then Name(i + 1) else "")
  }

  /** The requests of the gate when `last` delegations were made and these decisions. */
  ghost predicate RowsAre(s: Store, g: nat, number: int, last: nat, status: nat -> RequestStatus) {
    |s.requests| == last + 1 && forall i | 0 <= i <= last :: s.requests[i] == Row(g, number, i, last, status(i))
  }

  ghost predicate Ready(s: Store, g: nat, tiers: seq<Tier>, last: nat, status: nat -> RequestStatus)
    requires tiers != []
  {
    && g in s.gates && s.gates[g].config == Config(tiers) && g in s.chains && s.chains[g].tiers == tiers
    && RowsAre(s, g, tiers[0].number, last, status)
  }

  function Delegations(last: nat): nat -> RequestStatus {
    i => if i < last then Delegated else Pending
  }

  lemma Opening(s: Store, g: nat, tiers: seq<Tier>) returns (steps: seq<Step>)
    requires Fresh(s) && tiers != []
    ensures SameTiersRun(steps, g, tiers) && Ready(Run(s, steps), g, tiers, 0, Delegations(0))
    ensures Run(s, steps).chains[g] == Created(tiers)
  {
    steps := [Create(g, Config(tiers)), Activate(g, [Name(0)])];
    var created := Apply(s, steps[0]);
    assert steps[..1] == [steps[0]] && steps[..1][..0] == [];
    assert Run(s, steps[..1]) == created;
    assert RequestAll(created, g, [Name(0)][..0]) == created;
    assert Run(s, steps) == Apply(created, steps[1]);
  }

  lemma OneMoreStep(s: Store, steps: seq<Step>, step: Step, g: nat, tiers: seq<Tier>)
    requires SameTiersRun(steps, g, tiers) && SameTiers(step, g, tiers)
    ensures SameTiersRun(steps + [step], g, tiers) && Run(s, steps + [step]) == Apply(Run(s, steps), step)
  {
    assert (steps + [step])[..|steps|] == steps;
  }

  lemma DelegateOnce(s: Store, g: nat, tiers: seq<Tier>, last: nat)
    requires tiers != [] && Ready(s, g, tiers, last, Delegations(last))
    ensures var t := Apply(s, Delegate(last, Decider(Name(last)), Name(last + 1)));
            Ready(t, g, tiers, last + 1, Delegations(last + 1)) && t.chains == s.chains
  {
    NameLength(last);
    NameLength(last + 1);
    assert s.requests[last] == Row(g, tiers[0].number, last, last, Pending);
  }

  lemma {:induction false} Delegating(s: Store, g: nat, tiers: seq<Tier>, last: nat) returns (steps: seq<Step>)
    requires Fresh(s) && tiers != []
    ensures SameTiersRun(steps, g, tiers) && Ready(Run(s, steps), g, tiers, last, Delegations(last))
    ensures Run(s, steps).chains[g] == Created(tiers)
    decreases last
  {
    if last == 0 {
      steps := Opening(s, g, tiers);
    } else {
      var before := Delegating(s, g, tiers, last - 1);
      DelegateOnce(Run(s, before), g, tiers, last - 1);
      var step := Delegate(last - 1, Decider(Name(last - 1)), Name(last));
      OneMoreStep(s, before, step, g, tiers);
      steps := before + [step];
    }
  }

  /** The view an evaluation of the chain has of these requests. */
  ghost predicate Sees(view: View, s: Store, g: nat, eval: string -> Result<bool>) {
    && view.eval == eval && view.gatePolicy == SingleApprover
    && forall n :: view.counts(n) == Tally(s.requests, OfTier(g, n))
  }

  lemma PolicyEvaluates(s: Store, g: nat)
    requires g in s.gates && s.gates[g].config.policy == SingleApprover
    ensures EvaluatePolicy(s, g).Ok?
  {
  }

  lemma PassingEvaluates(c: Chain, view: View)
    requires !c.Closed() && Position(c) < |c.tiers| && Passes(c.tiers, Position(c), view)
    ensures EvaluateChain(c, view).Ok?
  {
  }

  /** An approval that passes the tier moves the chain on. */
  lemma ApprovalAdvances(s: Store, g: nat, eval: string -> Result<bool>)
    requires g in s.gates && g in s.chains && s.gates[g].config.policy == SingleApprover
    requires var c := s.chains[g];
             && !c.Closed() && Position(c) < |c.tiers| && DistinctUpTo(c.tiers, |c.tiers|)
             && forall v: View | Sees(v, s, g, eval) :: Passes(c.tiers, Position(c), v)
    ensures AfterDecision(s, g, true, eval).Ok?
    ensures var t := AfterDecision(s, g, true, eval).value;
            && g in t.chains && t.chains[g].tiers == s.chains[g].tiers && t.chains[g].status != ChainFailed
            && Position(t.chains[g]) == Position(s.chains[g]) + 1
  {
    PolicyEvaluates(s, g);
    var evaluated := EvaluatePolicy(s, g).value.0;
    var c, view := s.chains[g], ChainView(evaluated, g, eval);
    assert Sees(view, s, g, eval);
    PassingEvaluates(c, view);
    AdvancesIffPassed(c, view);
    StepTiersKept(c, view);
    assert AfterDecision(s, g, true, eval) == EvaluateGateChain(evaluated, g, eval);
  }

  // -------------------------------------------------------------------------------------------
  // The decisions
  // -------------------------------------------------------------------------------------------

  /** The requests after `j` decisions: first the pending one, then the delegated ones in order. */
  function Decisions(last: nat, j: nat): nat -> RequestStatus {
    i => if i == last then (if j > 0 then Approved else Pending) else if i + 1 < j then Approved else Delegated
  }

  function DecidedRow(last: nat, j: nat): nat {
    if j == 0 then last else j - 1
  }

  /** The value the expressions of tier `j` need so that the tier is left behind. */
  function Needed(tiers: seq<Tier>, j: nat): bool
    requires j < |tiers|
  {
    tiers[j].requiredIf == "" && (j > 0 || (tiers[j].policy.Some? && tiers[j].policy.value.Unknown?))
  }

  function DecideStep(tiers: seq<Tier>, j: nat): Step
    requires j < |tiers|
  {
    var last := |tiers| - 1;
    Decide(DecidedRow(last, j), Decider(Name(if j == 0 then last else j)), true, Always(Needed(tiers, j)))
  }

  lemma {:induction false} DelegatedNotCounted(requests: seq<Request>, n: nat, scope: Scope)
    requires n <= |requests| && forall i | 0 <= i < n :: requests[i].status == Delegated
    ensures TallyTo(requests, n, scope) == NOTHING
  {
    if n > 0 { DelegatedNotCounted(requests, n - 1, scope); }
  }

  lemma FirstPasses(tiers: seq<Tier>, view: View)
    requires Completable(tiers) && view.eval == Always(Needed(tiers, 0)) && view.gatePolicy == SingleApprover
    requires view.counts(tiers[0].number) == Counts(1, 0, 0, 0)
    ensures Passes(tiers, 0, view)
  {
  }

  lemma LaterPasses(tiers: seq<Tier>, j: nat, view: View)
    requires Completable(tiers) && 0 < j < |tiers| && view.eval == Always(Needed(tiers, j))
    ensures Passes(tiers, j, view)
  {
    assert Skippable(tiers, j);
  }

  lemma DecidedPasses(tiers: seq<Tier>, d: Store, g: nat, j: nat)
    requires Completable(tiers) && j < |tiers|
    requires RowsAre(d, g, tiers[0].number, |tiers| - 1, Decisions(|tiers| - 1, j + 1))
    ensures forall v: View | Sees(v, d, g, Always(Needed(tiers, j))) :: Passes(tiers, j, v)
  {
    var last := |tiers| - 1;
    forall v: View | Sees(v, d, g, Always(Needed(tiers, j)))
      ensures Passes(tiers, j, v)
    {
      if j == 0 {
        DelegatedNotCounted(d.requests, last, OfTier(g, tiers[0].number));
        FirstPasses(tiers, v);
      } else {
        LaterPasses(tiers, j, v);
      }
    }
  }

  lemma DecisionAllowed(s: Store, g: nat, tiers: seq<Tier>, j: nat)
    requires tiers != [] && j < |tiers|
    requires RowsAre(s, g, tiers[0].number, |tiers| - 1, Decisions(|tiers| - 1, j))
    ensures var step := DecideStep(tiers, j);
            && step.r < |s.requests| && s.requests[step.r].gate == g
            && TransitionAllowed(s.requests[step.r].status, Approved, ActingOn(step.actor, s.requests[step.r]))
  {
    var last := |tiers| - 1;
    NameLength(if j == 0 then last else j);
    if j > 0 {
      NameLength(j - 1);
      assert s.requests[j - 1] == Row(g, tiers[0].number, j - 1, last, Delegated);
    } else {
      assert s.requests[last] == Row(g, tiers[0].number, last, last, Pending);
    }
  }

  lemma RowDecided(s: Store, d: Store, g: nat, number: int, last: nat, j: nat)
    requires j <= last && RowsAre(s, g, number, last, Decisions(last, j))
    requires var r := DecidedRow(last, j);
             |s.requests| > r && d.requests == s.requests[r := s.requests[r].(status := Approved)]
    ensures RowsAre(d, g, number, last, Decisions(last, j + 1))
  {
    var r := DecidedRow(last, j);
    forall i | 0 <= i <= last
      ensures d.requests[i] == Row(g, number, i, last, Decisions(last, j + 1)(i))
    {
      assert s.requests[i] == Row(g, number, i, last, Decisions(last, j)(i));
    }
  }

  /** The chain has passed `j` tiers and the decisions to come are all still to be made. */
  ghost predicate Underway(s: Store, g: nat, tiers: seq<Tier>, j: nat)
    requires tiers != []
  {
    && Ready(s, g, tiers, |tiers| - 1, Decisions(|tiers| - 1, j))
    && Position(s.chains[g]) == j && s.chains[g].status != ChainFailed
  }

  lemma DecideOnce(s: Store, g: nat, tiers: seq<Tier>, j: nat)
    requires Completable(tiers) && j < |tiers| && Underway(s, g, tiers, j)
    ensures Underway(Apply(s, DecideStep(tiers, j)), g, tiers, j + 1)
  {
    var step := DecideStep(tiers, j);
    var last := |tiers| - 1;
    DecisionAllowed(s, g, tiers, j);
    var request := s.requests[step.r];
    var d := s.SetRequest(step.r, Approved, request.delegatedTo).Publish(GrantedEvent, g);
    RowDecided(s, d, g, tiers[0].number, last, j);
    DecidedPasses(tiers, d, g, j);
    ApprovalAdvances(d, g, step.eval);
    assert Apply(s, step) == AfterDecision(d, g, true, step.eval).value;
  }

  lemma {:induction false} Deciding(s: Store, g: nat, tiers: seq<Tier>, j: nat) returns (steps: seq<Step>)
    requires Fresh(s) && Completable(tiers) && j <= |tiers|
    ensures SameTiersRun(steps, g, tiers) && Underway(Run(s, steps), g, tiers, j)
    decreases j
  {
    if j == 0 {
      steps := Delegating(s, g, tiers, |tiers| - 1);
      FindTierFirst(tiers, tiers[0].number, 0, 0);
      SameRows(Run(s, steps), g, tiers[0].number, |tiers| - 1);
    } else {
      var before := Deciding(s, g, tiers, j - 1);
      DecideOnce(Run(s, before), g, tiers, j - 1);
      OneMoreStep(s, before, DecideStep(tiers, j - 1), g, tiers);
      steps := before + [DecideStep(tiers, j - 1)];
    }
  }

  lemma SameRows(s: Store, g: nat, number: int, last: nat)
    requires RowsAre(s, g, number, last, Delegations(last))
    ensures RowsAre(s, g, number, last, Decisions(last, 0))
  {
    forall i | 0 <= i <= last
      ensures s.requests[i] == Row(g, number, i, last, Decisions(last, 0)(i))
    {
      assert s.requests[i] == Row(g, number, i, last, Delegations(last)(i));
    }
  }

  /**
   Some run of gate operations completes a chain with these tiers exactly when their numbers are distinct,
   the first can be passed and each later one can be skipped without stalling.
   */
  lemma RunCompletesIff(s: Store, g: nat, tiers: seq<Tier>)
    requires Fresh(s) && tiers != []
    ensures (exists steps :: CompletesIn(s, steps, g, tiers)) <==> Completable(tiers)
  {
    if Completable(tiers) {
      var steps := Deciding(s, g, tiers, |tiers|);
      RunTiered(s, steps, g, tiers);
      PositionAtEnd(s, steps, g, tiers);
      assert CompletesIn(s, steps, g, tiers);
    } else if exists steps :: CompletesIn(s, steps, g, tiers) {
      var steps :| CompletesIn(s, steps, g, tiers);
      CompletedCompletable(s, steps, g, tiers);
    }
  }

  /** Only a completed chain has all its tiers behind it. */
  lemma PositionAtEnd(s: Store, steps: seq<Step>, g: nat, tiers: seq<Tier>)
    requires Fresh(s) && tiers != [] && SameTiersRun(steps, g, tiers) && g in Run(s, steps).chains
    requires DistinctUpTo(tiers, |tiers|) && Position(Run(s, steps).chains[g]) == |tiers|
    ensures Run(s, steps).chains[g].status == ChainCompleted
  {
    var views, at := RunIsTrace(s, steps, g, tiers);
    RunInside(tiers, |tiers|, views, |views|);
  }

  /** Two tiers that both have a known policy and no expression: no run completes them. */
  lemma TwoPlainTiers(s: Store, g: nat, steps: seq<Step>)
    requires Fresh(s)
    ensures !CompletesIn(s, steps, g, [Tier(1, "", "", Some(SingleApprover)), Tier(2, "", "", Some(SingleApprover))])
  {
    var tiers := [Tier(1, "", "", Some(SingleApprover)), Tier(2, "", "", Some(SingleApprover))];
    RunCompletesIff(s, g, tiers);
    assert !Skippable(tiers, 1);
  }
}
