/**
 Chains inside gate runs: the evaluations of a gate's chain over a run form a trace of the chain, and
 requests are only ever made for its first tier, so that no later tier is satisfied by its policy.
 */
module ApprovalTiers {
  import opened Outcomes
  import opened ApprovalPolicy
  import opened ApprovalChain
  import opened ApprovalGates
  import opened ApprovalLaws

  // -------------------------------------------------------------------------------------------
  // Requests belong to the first tier
  // -------------------------------------------------------------------------------------------

  /** Every request of the gate was made for the tier with this number. */
  ghost predicate AsksOnly(requests: seq<Request>, g: nat, number: int) {
    forall r | 0 <= r < |requests| && requests[r].gate == g :: requests[r].tier == Some(number)
  }

  /** The gate and its chain, once they exist, have these tiers, and only the first was asked. */
  ghost predicate Tiered(s: Store, g: nat, tiers: seq<Tier>)
    requires tiers != []
  {
    && (g in s.gates <==> g in s.chains)
    && (g in s.gates ==> s.gates[g].config.tiers == tiers && s.chains[g].tiers == tiers)
    && AsksOnly(s.requests, g, tiers[0].number)
  }

  /** The gate is not created again with other tiers. */
  predicate SameTiers(step: Step, g: nat, tiers: seq<Tier>) {
    step.Create? && step.g == g ==> step.config.tiers == tiers
  }

  lemma {:induction false} RequestAllAsks(s: Store, g: nat, approvers: seq<string>, of: nat, number: int)
    requires g in s.gates && AsksOnly(s.requests, of, number) && (g == of ==> FirstTier(s, g) == Some(number))
    ensures AsksOnly(RequestAll(s, g, approvers).requests, of, number)
    decreases |approvers|
  {
    if approvers != [] {
      RequestAllAsks(s, g, approvers[..|approvers| - 1], of, number);
    }
  }

  /** A change of status and delegate leaves the tier alone. */
  lemma UpdateAsks(requests: seq<Request>, r: nat, status: RequestStatus, to: string, g: nat, number: int)
    requires r < |requests| && AsksOnly(requests, g, number)
    ensures AsksOnly(requests[r := requests[r].(status := status, delegatedTo := to)], g, number)
    ensures AsksOnly(requests[r := requests[r].(status := status, delegatedTo := to)]
                     + [Request(requests[r].gate, to, requests[r].tier, Pending, "")], g, number)
  {
  }

  lemma StepTiersKept(c: Chain, view: View)
    ensures StepChain(c, view).tiers == c.tiers
  {
  }

  // -------------------------------------------------------------------------------------------
  // A decision evaluates the chain once
  // -------------------------------------------------------------------------------------------

  lemma RejectionKeepsChains(s: Store, g: nat)
    requires g in s.gates && ExecuteRejection(s, g).Ok?
    ensures ExecuteRejection(s, g).value.chains == s.chains
  {
  }

  lemma OtherChainKept(s: Store, g: nat, approve: bool, eval: string -> Result<bool>, other: nat)
    requires g in s.gates && other in s.chains && other != g && AfterDecision(s, g, approve, eval).Ok?
    ensures var t := AfterDecision(s, g, approve, eval).value; other in t.chains && t.chains[other] == s.chains[other]
  {
    var (evaluated, satisfied) := EvaluatePolicy(s, g).value;
    var chained := EvaluateGateChain(evaluated, g, eval).value;
    if !approve && !satisfied { RejectionKeepsChains(chained, g); }
  }

  lemma OwnChainStep(s: Store, g: nat, approve: bool, eval: string -> Result<bool>) returns (view: View)
    requires g in s.gates && g in s.chains && AfterDecision(s, g, approve, eval).Ok?
    ensures var t := AfterDecision(s, g, approve, eval).value;
            g in t.chains && t.chains[g] == StepChain(s.chains[g], view)
    ensures view.eval == eval && forall n :: view.counts(n) == Tally(s.requests, OfTier(g, n))
  {
    var (evaluated, satisfied) := EvaluatePolicy(s, g).value;
    view := ChainView(evaluated, g, eval);
    var chained := EvaluateGateChain(evaluated, g, eval).value;
    if !approve && !satisfied { RejectionKeepsChains(chained, g); }
  }

  /** What a step of the run does to the chain of a gate: nothing, or one evaluation on its counts. */
  ghost predicate ChainMove(s: Store, step: Step, g: nat, view: Option<View>)
    requires g in s.chains
  {
    var t := Apply(s, step);
    && g in t.chains
    && match view
       case None => t.chains[g] == s.chains[g]
       case Some(v) =>
         && step.Decide? && v.eval == step.eval && t.chains[g] == StepChain(s.chains[g], v)
         && forall n :: v.counts(n) == Tally(t.requests, OfTier(g, n))
  }

  lemma DecideChainMove(s: Store, r: nat, actor: Actor, approve: bool, eval: string -> Result<bool>, g: nat)
    returns (view: Option<View>)
    requires g in s.chains && DecideRequest(s, r, actor, approve, eval).Ok?
    ensures ChainMove(s, Decide(r, actor, approve, eval), g, view)
  {
    var request := s.requests[r];
    var decided := s.SetRequest(r, if approve then Approved else Rejected, request.delegatedTo)
                    .Publish(if approve then GrantedEvent else RejectedEvent, request.gate);
    if request.gate == g {
      var v := OwnChainStep(decided, g, approve, eval);
      view := Some(v);
    } else {
      OtherChainKept(decided, request.gate, approve, eval, g);
      view := None;
    }
  }

  lemma StepChainMove(s: Store, step: Step, g: nat) returns (view: Option<View>)
    requires g in s.chains
    ensures ChainMove(s, step, g, view)
  {
    view := None;
    match step
    case Create(_, _) =>
    case Activate(of, approvers) => if of in s.gates { RequestAllUndecisive(s, of, approvers); }
    case Decide(r, actor, approve, eval) =>
      if DecideRequest(s, r, actor, approve, eval).Ok? { view := DecideChainMove(s, r, actor, approve, eval, g); }
    case Delegate(_, _, _) =>
    case Expire(r, escalateTo) => ExpireKeepsChains(s, r, escalateTo);
  }

  lemma ExpireKeepsChains(s: Store, r: nat, escalateTo: string)
    ensures ExpireRequest(s, r, escalateTo).chains == s.chains
  {
  }

  // -------------------------------------------------------------------------------------------
  // The invariant
  // -------------------------------------------------------------------------------------------

  lemma StepAsks(s: Store, step: Step, g: nat, tiers: seq<Tier>)
    requires tiers != [] && Tiered(s, g, tiers)
    ensures AsksOnly(Apply(s, step).requests, g, tiers[0].number)
  {
    match step
    case Create(_, _) =>
    case Activate(of, approvers) =>
      ActivateRequests(s, of, approvers);
      if of in s.gates { RequestAllAsks(s, of, approvers, g, tiers[0].number); }
    case Decide(r, actor, approve, eval) =>
      if DecideRequest(s, r, actor, approve, eval).Ok? {
        DecideRequests(s, r, actor, approve, eval);
        var status := if approve then Approved else Rejected;
        UpdateAsks(s.requests, r, status, s.requests[r].delegatedTo, g, tiers[0].number);
      }
    case Delegate(r, _, to) => if r < |s.requests| { UpdateAsks(s.requests, r, Delegated, to, g, tiers[0].number); }
    case Expire(r, escalateTo) => if r < |s.requests| { ExpireAsks(s, r, escalateTo, g, tiers[0].number); }
  }

  lemma ExpireAsks(s: Store, r: nat, escalateTo: string, g: nat, number: int)
    requires r < |s.requests| && AsksOnly(s.requests, g, number)
    ensures AsksOnly(ExpireRequest(s, r, escalateTo).requests, g, number)
  {
    var to := s.requests[r].delegatedTo;
    UpdateAsks(s.requests, r, Approved, to, g, number);
    UpdateAsks(s.requests, r, Rejected, to, g, number);
    UpdateAsks(s.requests, r, Expired, to, g, number);
    UpdateAsks(s.requests, r, Delegated, escalateTo, g, number);
  }

  lemma StepGates(s: Store, step: Step, g: nat)
    requires !(step.Create? && step.g == g)
    ensures g in Apply(s, step).gates <==> g in s.gates
    ensures g in Apply(s, step).chains <==> g in s.chains
  {
    match step
    case Create(_, _) =>
    case Activate(of, approvers) => if of in s.gates { RequestAllUndecisive(s, of, approvers); }
    case Decide(r, actor, approve, eval) =>
    case Delegate(_, _, _) =>
    case Expire(_, _) =>
  }

  lemma StepTiered(s: Store, step: Step, g: nat, tiers: seq<Tier>)
    requires tiers != [] && Tiered(s, g, tiers) && SameTiers(step, g, tiers)
    ensures Tiered(Apply(s, step), g, tiers)
  {
    StepAsks(s, step, g, tiers);
    if step.Create? && step.g == g {
      CreateTiered(s, g, step.config, tiers);
    } else {
      StepGates(s, step, g);
      if g in s.gates {
        ConfigStays(s, step, g);
        var view := StepChainMove(s, step, g);
        if view.Some? { StepTiersKept(s.chains[g], view.value); }
      }
    }
  }

  lemma CreateTiered(s: Store, g: nat, config: GateConfig, tiers: seq<Tier>)
    requires tiers != [] && Tiered(s, g, tiers) && config.tiers == tiers
    ensures Tiered(CreateGate(s, g, config), g, tiers)
  {
  }

  ghost predicate SameTiersRun(steps: seq<Step>, g: nat, tiers: seq<Tier>) {
    forall k | 0 <= k < |steps| :: SameTiers(steps[k], g, tiers)
  }

  lemma {:induction false} RunTiered(s: Store, steps: seq<Step>, g: nat, tiers: seq<Tier>)
    requires Fresh(s) && tiers != [] && SameTiersRun(steps, g, tiers)
    ensures Tiered(Run(s, steps), g, tiers)
    decreases |steps|
  {
    if steps != [] {
      var n := |steps| - 1;
      RunTiered(s, steps[..n], g, tiers);
      assert SameTiers(steps[n], g, tiers);
      StepTiered(Run(s, steps[..n]), steps[n], g, tiers);
    }
  }

  lemma {:induction false} NothingAsked(requests: seq<Request>, k: nat, g: nat, number: int, n: int)
    requires k <= |requests| && AsksOnly(requests, g, number) && n != number
    ensures TallyTo(requests, k, OfTier(g, n)) == NOTHING
  {
    if k > 0 { NothingAsked(requests, k - 1, g, number, n); }
  }

  /** In every run, no tier but the first ever has a request, as long as the tiers stay the same. */
  lemma LaterTiersNeverAsked(s: Store, steps: seq<Step>, g: nat, tiers: seq<Tier>, n: int)
    requires Fresh(s) && tiers != [] && SameTiersRun(steps, g, tiers) && n != tiers[0].number
    ensures Tally(Run(s, steps).requests, OfTier(g, n)) == NOTHING
  {
    RunTiered(s, steps, g, tiers);
    var requests := Run(s, steps).requests;
    NothingAsked(requests, |requests|, g, tiers[0].number, n);
  }

  // -------------------------------------------------------------------------------------------
  // The evaluations of a run form a trace
  // -------------------------------------------------------------------------------------------

  ghost predicate CountsNothing(view: View, number: int) {
    forall n | n != number :: view.counts(n) == NOTHING
  }

  /** Evaluation `j` of the trace is what step `k` of the run did to the chain. */
  ghost predicate EvaluatedIn(s: Store, steps: seq<Step>, g: nat, tiers: seq<Tier>, views: seq<View>, j: nat, k: nat)
    requires tiers != []
  {
    && j < |views| && k < |steps| && steps[k].Decide? && views[j].eval == steps[k].eval
    && CountsNothing(views[j], tiers[0].number)
    && g in Run(s, steps[..k]).chains && Run(s, steps[..k]).chains[g] == Trace(Created(tiers), views)[j]
  }

  /** `views` are the evaluations of the chain of `g` in the run, made in the steps `at`, one after the other. */
  ghost predicate Traced(s: Store, steps: seq<Step>, g: nat, tiers: seq<Tier>, views: seq<View>, at: seq<nat>)
    requires tiers != []
  {
    && |at| == |views| && g in Run(s, steps).chains
    && Run(s, steps).chains[g] == Trace(Created(tiers), views)[|views|]
    && (forall j | 0 <= j < |at| :: EvaluatedIn(s, steps, g, tiers, views, j, at[j]))
    && (forall i, j | 0 <= i < j < |at| :: at[i] < at[j])
  }

  lemma EvaluatedStays(s: Store, steps: seq<Step>, g: nat, tiers: seq<Tier>, views: seq<View>, j: nat, k: nat,
      more: seq<View>)
    requires tiers != [] && steps != [] && EvaluatedIn(s, steps[..|steps| - 1], g, tiers, views, j, k)
    requires more == views || exists v :: more == views + [v]
    ensures EvaluatedIn(s, steps, g, tiers, more, j, k)
  {
    assert steps[..|steps| - 1][..k] == steps[..k];
    if more != views {
      var v :| more == views + [v];
      TraceAppend(Created(tiers), views, v);
    }
  }

  lemma TracedStep(s: Store, steps: seq<Step>, g: nat, tiers: seq<Tier>, views: seq<View>, at: seq<nat>)
    returns (more: seq<View>, later: seq<nat>)
    requires Fresh(s) && tiers != [] && steps != [] && SameTiersRun(steps, g, tiers)
    requires Traced(s, steps[..|steps| - 1], g, tiers, views, at)
    ensures Traced(s, steps, g, tiers, more, later)
  {
    var n := |steps| - 1;
    var before, after := Run(s, steps[..n]), Run(s, steps);
    var view := StepChainMove(before, steps[n], g);
    if view.None? {
      more, later := views, at;
    } else {
      more, later := views + [view.value], at + [n];
      TraceAppend(Created(tiers), views, view.value);
      forall m | m != tiers[0].number
        ensures view.value.counts(m) == NOTHING
      {
        LaterTiersNeverAsked(s, steps, g, tiers, m);
      }
      assert EvaluatedIn(s, steps, g, tiers, more, |views|, n);
    }
    forall j | 0 <= j < |at|
      ensures EvaluatedIn(s, steps, g, tiers, more, j, at[j])
    {
      EvaluatedStays(s, steps, g, tiers, views, j, at[j], more);
    }
  }

  /** The chain that a run leaves a gate with is the end of a trace of its evaluations. */
  lemma {:induction false} RunIsTrace(s: Store, steps: seq<Step>, g: nat, tiers: seq<Tier>)
    returns (views: seq<View>, at: seq<nat>)
    requires Fresh(s) && tiers != [] && SameTiersRun(steps, g, tiers) && g in Run(s, steps).chains
    ensures Traced(s, steps, g, tiers, views, at)
    decreases |steps|
  {
    var n := |steps| - 1;
    var before := Run(s, steps[..n]);
    assert SameTiers(steps[n], g, tiers);
    if g in before.chains {
      var earlier, made := RunIsTrace(s, steps[..n], g, tiers);
      views, at := TracedStep(s, steps, g, tiers, earlier, made);
    } else {
      if !(steps[n].Create? && steps[n].g == g) { StepGates(before, steps[n], g); }
      views, at := [], [];
    }
  }

  // -------------------------------------------------------------------------------------------
  // What that means for a chain of several tiers
  // -------------------------------------------------------------------------------------------

  /** Step `k` of the run found the chain open at tier `i`, and one of the tier's expressions let it be skipped. */
  ghost predicate SkippedIn(s: Store, steps: seq<Step>, g: nat, tiers: seq<Tier>, i: nat, k: nat)
    requires i < |tiers|
  {
    && k < |steps| && steps[k].Decide? && SkippedBy(tiers[i], steps[k].eval)
    && var chains := Run(s, steps[..k]).chains;
       g in chains && !chains[g].Closed() && FindTier(tiers, chains[g].current, 0) == i
  }

  /** A chain of several tiers is completed by a run only if each tier after the first was skipped. */
  lemma LaterTiersSkipped(s: Store, steps: seq<Step>, g: nat, tiers: seq<Tier>, i: nat)
    requires Fresh(s) && tiers != [] && SameTiersRun(steps, g, tiers) && g in Run(s, steps).chains
    requires Run(s, steps).chains[g].status == ChainCompleted && 0 < i < |tiers|
    ensures exists k :: SkippedIn(s, steps, g, tiers, i, k)
  {
    var views, at := RunIsTrace(s, steps, g, tiers);
    var trace := Trace(Created(tiers), views);
    CompletedMeansResolved(tiers, views, |views|);
    assert ResolvedBefore(trace, views, tiers, i, |views|);
    var j :| 0 <= j < |views| && ResolvedAt(trace, views, tiers, i, j);
    assert EvaluatedIn(s, steps, g, tiers, views, j, at[j]);
    assert views[j].counts(tiers[i].number) == NOTHING;
    assert SkippedIn(s, steps, g, tiers, i, at[j]);
  }

  /** The policy of the last of several tiers has no requests to go by. */
  lemma LastTierUndecided(c: Chain, view: View)
    requires |c.tiers| >= 2 && CountsNothing(view, c.tiers[0].number) && EvaluateChain(c, view).Ok?
    ensures EvaluateChain(c, view).value.1 != SatisfyGate
  {
    if EvaluateChain(c, view).value.1 == SatisfyGate {
      LastTierSatisfiesGate(c, view);
      NotTheFirst(c.tiers, c.current);
    }
  }

  lemma NotTheFirst(tiers: seq<Tier>, number: int)
    requires |tiers| >= 2
    ensures var i := FindTier(tiers, number, 0); 0 < i < |tiers| ==> tiers[i].number != tiers[0].number
  {
  }

  /** Closing the gate by a chain that cannot satisfy it leaves it satisfied only if it was. */
  lemma ChainSatisfiesNothing(s: Store, g: nat, chain: Chain, effect: Effect)
    requires g in s.gates && effect != SatisfyGate
    ensures SatisfiedIn(ApplyChain(s, g, chain, effect), g) ==> SatisfiedIn(s, g)
  {
  }

  lemma VerdictByPolicy(s: Store, g: nat, verdict: Verdict)
    requires g in s.gates && ApplyVerdict(s, g, verdict).Ok?
    ensures SatisfiedIn(ApplyVerdict(s, g, verdict).value.0, g) ==> SatisfiedIn(s, g) || verdict == Satisfied
  {
  }

  lemma RejectionSatisfiesNothing(s: Store, g: nat)
    requires g in s.gates && ExecuteRejection(s, g).Ok?
    ensures SatisfiedIn(ExecuteRejection(s, g).value, g) ==> SatisfiedIn(s, g)
  {
    if !SatisfiedIn(s, g) { RejectionUnsatisfied(s, g); }
  }

  lemma AfterDecisionByPolicy(s: Store, g: nat, approve: bool, eval: string -> Result<bool>)
    requires g in s.gates && g in s.chains && |s.chains[g].tiers| >= 2 && AfterDecision(s, g, approve, eval).Ok?
    requires AsksOnly(s.requests, g, s.chains[g].tiers[0].number)
    ensures SatisfiedIn(AfterDecision(s, g, approve, eval).value, g) ==>
            SatisfiedIn(s, g) || GateVerdict(s, g) == Satisfied
  {
    var (evaluated, satisfied) := EvaluatePolicy(s, g).value;
    VerdictByPolicy(s, g, GateVerdict(s, g));
    var c, view := s.chains[g], ChainView(evaluated, g, eval);
    forall n | n != c.tiers[0].number
      ensures view.counts(n) == NOTHING
    {
      NothingAsked(s.requests, |s.requests|, g, c.tiers[0].number, n);
    }
    LastTierUndecided(c, view);
    var r := EvaluateChain(c, view).value;
    ChainSatisfiesNothing(evaluated, g, r.0, r.1);
    if !approve && !satisfied { RejectionSatisfiesNothing(ApplyChain(evaluated, g, r.0, r.1), g); }
  }

  lemma TieredDecide(s: Store, r: nat, actor: Actor, approve: bool, eval: string -> Result<bool>, g: nat,
      tiers: seq<Tier>)
    requires |tiers| >= 2 && Tiered(s, g, tiers) && DecideRequest(s, r, actor, approve, eval).Ok?
    ensures ByPolicy(s, DecideRequest(s, r, actor, approve, eval).value, g)
  {
    var request := s.requests[r];
    var decided := s.SetRequest(r, if approve then Approved else Rejected, request.delegatedTo)
                    .Publish(if approve then GrantedEvent else RejectedEvent, request.gate);
    if request.gate == g {
      UpdateAsks(s.requests, r, if approve then Approved else Rejected, request.delegatedTo, g, tiers[0].number);
      AfterDecisionByPolicy(decided, g, approve, eval);
      SameVerdict(decided, AfterDecision(decided, g, approve, eval).value, g);
    } else {
      AfterDecisionTouchesOwn(decided, request.gate, approve, eval, g);
    }
  }

  lemma TieredByPolicy(s: Store, step: Step, g: nat, tiers: seq<Tier>)
    requires |tiers| >= 2 && Tiered(s, g, tiers)
    ensures ByPolicy(s, Apply(s, step), g)
  {
    if step.Decide? {
      if DecideRequest(s, step.r, step.actor, step.approve, step.eval).Ok? {
        TieredDecide(s, step.r, step.actor, step.approve, step.eval, g, tiers);
      }
    } else {
      OtherStepByPolicy(s, step, g);
    }
  }

  /** A chain of several tiers never satisfies its gate: over every run, only the gate's own policy does. */
  lemma ChainNeverSatisfies(s: Store, steps: seq<Step>, g: nat, tiers: seq<Tier>, k: nat)
    requires Fresh(s) && |tiers| >= 2 && SameTiersRun(steps, g, tiers) && k < |steps|
    ensures ByPolicy(Run(s, steps[..k]), Apply(Run(s, steps[..k]), steps[k]), g)
  {
    RunTiered(s, steps[..k], g, tiers);
    TieredByPolicy(Run(s, steps[..k]), steps[k], g, tiers);
  }
}
