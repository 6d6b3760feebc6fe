/**
 Satisfied gates with a chain. The policy never takes a satisfied gate back, but the chain sets the
 status of its gate whatever it is: which steps undo a satisfied gate.
 */
module ApprovalReversal {
  import opened Outcomes
  import opened ApprovalPolicy
  import opened ApprovalChain
  import opened ApprovalGates
  import opened ApprovalLaws

  /** Neither expression lets the tier be skipped, and both evaluate: its policy is asked. */
  predicate Asked(tier: Tier, eval: string -> Result<bool>) {
    && (tier.canSkipIf == "" || eval(tier.canSkipIf) == Ok(false))
    && (tier.requiredIf == "" || eval(tier.requiredIf) == Ok(true))
  }

  /** The current tier of the open chain is asked and fails by its policy. */
  predicate TierFails(c: Chain, view: View) {
    var i := FindTier(c.tiers, c.current, 0);
    && !c.Closed() && i < |c.tiers| && Asked(c.tiers[i], view.eval)
    && EvaluateCounts(PolicyOf(c.tiers[i], view), 0, view.counts(c.tiers[i].number)) == Failed
  }

  lemma FailsGateIff(c: Chain, view: View)
    ensures EvaluateChain(c, view).Ok? && EvaluateChain(c, view).value.1 == FailGate <==> TierFails(c, view)
  {
  }

  /** The last tier of the open chain is current, is asked and is satisfied by its policy. */
  predicate LastTierPasses(c: Chain, view: View) {
    var i := FindTier(c.tiers, c.current, 0);
    && !c.Closed() && i < |c.tiers| && i + 1 == |c.tiers| && Asked(c.tiers[i], view.eval)
    && EvaluateCounts(PolicyOf(c.tiers[i], view), 0, view.counts(c.tiers[i].number)) == Satisfied
  }

  lemma SatisfiesGateIff(c: Chain, view: View)
    ensures EvaluateChain(c, view).Ok? && EvaluateChain(c, view).value.1 == SatisfyGate <==> LastTierPasses(c, view)
  {
  }

  /** What the chain sees after the decision. */
  function ViewAfter(s: Store, g: nat, r: nat, approve: bool, eval: string -> Result<bool>): View
    requires g in s.gates && r < |s.requests|
  {
    View(eval, tier => Tally(Marked(s.requests, r, approve), OfTier(g, tier)), s.gates[g].config.policy)
  }

  /** The step decides a request of the gate, as the actor may, and that fails the chain's current tier. */
  predicate Undoes(s: Store, step: Step, g: nat)
    requires g in s.gates && g in s.chains
  {
    && step.Decide? && step.r < |s.requests| && s.requests[step.r].gate == g
    && TransitionAllowed(s.requests[step.r].status, if step.approve then Approved else Rejected,
                         ActingOn(step.actor, s.requests[step.r]))
    && TierFails(s.chains[g], ViewAfter(s, g, step.r, step.approve, step.eval))
  }

  /** What a decision does to a satisfied gate with a chain. */
  lemma ChainDecides(s: Store, g: nat, approve: bool, eval: string -> Result<bool>)
    requires g in s.chains && SatisfiedIn(s, g)
    ensures AfterDecision(s, g, approve, eval) == EvaluateGateChain(s, g, eval)
  {
  }

  lemma ChainKeepsIff(s: Store, g: nat, eval: string -> Result<bool>)
    requires g in s.chains && SatisfiedIn(s, g)
    ensures var t := Kept(s, EvaluateGateChain(s, g, eval));
            && (SatisfiedIn(t, g) <==> !TierFails(s.chains[g], ChainView(s, g, eval)))
            && g in t.gates && (t.Status(g) == GateSatisfied || t.Status(g) == GateFailed)
  {
    FailsGateIff(s.chains[g], ChainView(s, g, eval));
  }

  lemma SameView(c: Chain, view: View, other: View)
    requires view.eval == other.eval && view.gatePolicy == other.gatePolicy
    requires forall n :: view.counts(n) == other.counts(n)
    ensures TierFails(c, view) <==> TierFails(c, other)
  {
  }

  lemma OwnDecision(s: Store, r: nat, actor: Actor, approve: bool, eval: string -> Result<bool>, g: nat)
    requires g in s.chains && SatisfiedIn(s, g) && r < |s.requests| && s.requests[r].gate == g
    ensures var step := Decide(r, actor, approve, eval); var t := Apply(s, step);
            && (SatisfiedIn(t, g) <==> !Undoes(s, step, g))
            && g in t.gates && (t.Status(g) == GateSatisfied || t.Status(g) == GateFailed)
  {
    var request, target := s.requests[r], if approve then Approved else Rejected;
    if TransitionAllowed(request.status, target, ActingOn(actor, request)) {
      var decided := s.SetRequest(r, target, request.delegatedTo)
                      .Publish(if approve then GrantedEvent else RejectedEvent, g);
      ChainDecides(decided, g, approve, eval);
      ChainKeepsIff(decided, g, eval);
      assert decided.requests == Marked(s.requests, r, approve);
      SameView(s.chains[g], ChainView(decided, g, eval), ViewAfter(s, g, r, approve, eval));
    }
  }

  lemma OtherDecision(s: Store, r: nat, actor: Actor, approve: bool, eval: string -> Result<bool>, g: nat)
    requires SatisfiedIn(s, g) && r < |s.requests| && s.requests[r].gate != g
    ensures SatisfiedIn(Apply(s, Decide(r, actor, approve, eval)), g)
  {
    if DecideRequest(s, r, actor, approve, eval).Ok? {
      var request := s.requests[r];
      var decided := s.SetRequest(r, if approve then Approved else Rejected, request.delegatedTo)
                      .Publish(if approve then GrantedEvent else RejectedEvent, request.gate);
      AfterDecisionTouchesOwn(decided, request.gate, approve, eval, g);
    }
  }

  lemma ExpiryKeeps(s: Store, r: nat, escalateTo: string, g: nat)
    requires SatisfiedIn(s, g)
    ensures SatisfiedIn(ExpireRequest(s, r, escalateTo), g)
  {
  }

  /** A satisfied gate stays satisfied under every step but a decision that fails the current tier of its chain. */
  lemma SatisfiedUndoneIff(s: Store, step: Step, g: nat)
    requires g in s.chains && SatisfiedIn(s, g)
    ensures SatisfiedIn(Apply(s, step), g) <==> !Undoes(s, step, g)
    ensures Undoes(s, step, g) ==> g in Apply(s, step).gates && Apply(s, step).Status(g) == GateFailed
  {
    match step
    case Create(_, _) =>
    case Activate(_, _) =>
    case Decide(r, actor, approve, eval) =>
      if r < |s.requests| {
        if s.requests[r].gate == g {
          OwnDecision(s, r, actor, approve, eval, g);
        } else {
          OtherDecision(s, r, actor, approve, eval, g);
        }
      }
    case Delegate(_, _, _) =>
    case Expire(r, escalateTo) => ExpiryKeeps(s, r, escalateTo, g);
  }

  // -------------------------------------------------------------------------------------------
  // Runs
  // -------------------------------------------------------------------------------------------

  lemma RunPrefix(s: Store, steps: seq<Step>, k: nat)
    requires k < |steps|
    ensures Run(s, steps[..k + 1]) == Apply(Run(s, steps[..k]), steps[k])
  {
    assert steps[..k + 1][..k] == steps[..k];
  }

  lemma {:induction false} ChainStays(s: Store, steps: seq<Step>, g: nat)
    requires g in s.chains
    ensures g in Run(s, steps).chains
    decreases |steps|
  {
    if steps != [] {
      var n := |steps| - 1;
      ChainStays(s, steps[..n], g);
      ChainsStay(Run(s, steps[..n]), steps[n]);
    }
  }

  ghost predicate UndoneAt(s: Store, steps: seq<Step>, g: nat, k: nat)
    requires k < |steps|
  {
    var t := Run(s, steps[..k]);
    g in t.gates && g in t.chains && Undoes(t, steps[k], g)
  }

  ghost predicate SatisfiedAt(s: Store, steps: seq<Step>, g: nat, k: nat)
    requires k <= |steps|
  {
    SatisfiedIn(Run(s, steps[..k]), g)
  }

  lemma {:induction false} SatisfiedUntil(s: Store, steps: seq<Step>, g: nat, k: nat)
    requires g in s.chains && SatisfiedIn(s, g) && k <= |steps|
    requires forall i: nat | i < k :: !UndoneAt(s, steps, g, i)
    ensures SatisfiedAt(s, steps, g, k)
    decreases k
  {
    if k > 0 {
      SatisfiedUntil(s, steps, g, k - 1);
      ChainStays(s, steps[..k - 1], g);
      RunPrefix(s, steps, k - 1);
      assert !UndoneAt(s, steps, g, k - 1);
      SatisfiedUndoneIff(Run(s, steps[..k - 1]), steps[k - 1], g);
    }
  }

  /** Over every run, a satisfied gate with a chain stays satisfied throughout exactly when no step undoes it. */
  lemma SatisfiedThroughoutIff(s: Store, steps: seq<Step>, g: nat)
    requires g in s.chains && SatisfiedIn(s, g)
    ensures (forall k: nat | k <= |steps| :: SatisfiedAt(s, steps, g, k))
            <==> (forall k: nat | k < |steps| :: !UndoneAt(s, steps, g, k))
  {
    if forall k: nat | k <= |steps| :: SatisfiedAt(s, steps, g, k) {
      forall k: nat | k < |steps|
        ensures !UndoneAt(s, steps, g, k)
      {
        assert SatisfiedAt(s, steps, g, k) && SatisfiedAt(s, steps, g, k + 1);
        ChainStays(s, steps[..k], g);
        RunPrefix(s, steps, k);
        SatisfiedUndoneIff(Run(s, steps[..k]), steps[k], g);
      }
    }
    if forall k: nat | k < |steps| :: !UndoneAt(s, steps, g, k) {
      forall k: nat | k <= |steps|
        ensures SatisfiedAt(s, steps, g, k)
      {
        SatisfiedUntil(s, steps, g, k);
      }
    }
  }

  // -------------------------------------------------------------------------------------------
  // A gate that is satisfied and then fails
  // -------------------------------------------------------------------------------------------

  const BOTH: seq<Tier> := [Tier(1, "", "", Some(AllMustApprove))]

  const EITHER := GateConfig(0, AnyCanApprove, 1, Escalate, OtherBehavior("none"), "", BOTH)

  function Asking(g: nat, approver: string, status: RequestStatus): Request {
    Request(g, approver, Some(1), status, "")
  }

  /** Any of two approvers satisfies the gate, both have to approve its only tier. */
  ghost predicate BothAsked(s: Store, g: nat, status: GateStatus, first: RequestStatus) {
    && g in s.gates && s.gates[g] == Gate(EITHER, status) && g in s.chains && s.chains[g] == Created(BOTH)
    && s.requests == [Asking(g, "a", first), Asking(g, "b", Pending)]
  }

  lemma TallyBoth(a: Request, b: Request, scope: Scope)
    ensures Tally([a, b], scope) == Put(Put(NOTHING, a, scope), b, scope)
  {
    assert TallyTo([a, b], 1, scope) == Put(TallyTo([a, b], 0, scope), a, scope);
  }

  lemma AskBoth(s: Store, g: nat)
    requires Fresh(s)
    ensures BothAsked(Apply(Apply(s, Create(g, EITHER)), Activate(g, ["a", "b"])), g, GateActive, Pending)
  {
    var t := Apply(s, Create(g, EITHER));
    assert ["a", "b"][..1] == ["a"] && ["a"][..0] == [];
    assert RequestAll(t, g, []) == t;
    assert RequestAll(t, g, ["a"]).requests == [Asking(g, "a", Pending)];
  }

  lemma OneApproves(s: Store, g: nat)
    requires BothAsked(s, g, GateActive, Pending)
    ensures BothAsked(Apply(s, Decide(0, Decider("a"), true, Silent())), g, GateSatisfied, Approved)
  {
    var decided := s.SetRequest(0, Approved, "").Publish(GrantedEvent, g);
    var a, b := Asking(g, "a", Approved), Asking(g, "b", Pending);
    assert decided.requests == [a, b];
    TallyBoth(a, b, OfGate(g));
    TallyBoth(a, b, OfTier(g, 1));
  }

  lemma OtherRejects(s: Store, g: nat)
    requires BothAsked(s, g, GateSatisfied, Approved)
    ensures Undoes(s, Decide(1, Decider("b"), false, Silent()), g)
  {
    var a, b := Asking(g, "a", Approved), Asking(g, "b", Rejected);
    assert Marked(s.requests, 1, false) == [a, b];
    TallyBoth(a, b, OfTier(g, 1));
  }

  /** The first approval satisfies the gate; the later rejection fails the tier, and with it the gate. */
  lemma SatisfiedThenFailed(s: Store, g: nat) returns (steps: seq<Step>)
    requires Fresh(s)
    ensures |steps| == 4 && SatisfiedAt(s, steps, g, 3)
    ensures g in Run(s, steps).gates && Run(s, steps).Status(g) == GateFailed
  {
    steps := [Create(g, EITHER), Activate(g, ["a", "b"]), Decide(0, Decider("a"), true, Silent()),
              Decide(1, Decider("b"), false, Silent())];
    RunPrefix(s, steps, 0);
    RunPrefix(s, steps, 1);
    RunPrefix(s, steps, 2);
    RunPrefix(s, steps, 3);
    assert steps[..0] == [] && steps[..4] == steps;
    AskBoth(s, g);
    OneApproves(Run(s, steps[..2]), g);
    OtherRejects(Run(s, steps[..3]), g);
    SatisfiedUndoneIff(Run(s, steps[..3]), steps[3], g);
  }
}
