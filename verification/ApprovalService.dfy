/** The approval operations as the code performs them: row by row, rolled back when a part of them fails. */
module ApprovalService {
  import opened Outcomes
  import opened ApprovalPolicy
  import opened ApprovalChain
  import opened ApprovalGates

  function ExpirySteps(candidates: seq<(nat, string)>): seq<Step> {
    seq(|candidates|, i requires 0 <= i < |candidates| => Expire(candidates[i].0, candidates[i].1))
  }

  class Approvals {
    var gates: map<nat, Gate>
    var requests: seq<Request>
    var chains: map<nat, Chain>
    var cases: map<nat, CaseRow>
    var events: seq<Event>

    function State(): Store
      reads this
    {
      Store(gates, requests, chains, cases, events)
    }

    method Publish(kind: EventKind, g: nat)
      modifies this`events
      ensures events == old(events) + [Event(kind, g)]
    {
      events := events + [Event(kind, g)];
    }

    method Rollback(before: Store)
      modifies this
      ensures State() == before
    {
      gates, requests, chains, cases, events :=
        before.gates, before.requests, before.chains, before.cases, before.events;
    }

    method EvaluateApprovalPolicy(g: nat) returns (r: Result<bool>)
      requires g in gates
      modifies this`gates, this`events
      ensures match EvaluatePolicy(old(State()), g)
              case Ok(p) => State() == p.0 && r == Ok(p.1)
              case Err(_) => State() == old(State()) && r.Err?
    {
      var gate := gates[g];
      if gate.status == GateSatisfied {
        return Ok(true);
      }
      if gate.status == GateFailed || gate.status == GateRejected || gate.status == GateCancelled {
        return Ok(false);
      }
      var counts := CountRequests(requests, OfGate(g));
      var verdict := EvaluateCounts(gate.config.policy, gate.config.required, counts);
      if verdict == Unsupported {
        return Err("unsupported policy");
      }
      if verdict == Undecided {
        return Ok(false);
      }
      if gate.status == GatePending || gate.status == GateActive {
        gates := gates[g := gate.(status := if verdict == Failed then GateFailed else GateSatisfied)];
        Publish(if verdict == Failed then GateFailedEvent else GateSatisfiedEvent, g);
      }
      return Ok(verdict == Satisfied);
    }

    method FindTierDefinition(tiers: seq<Tier>, number: int) returns (index: nat)
      ensures index == FindTier(tiers, number, 0)
    {
      index := 0;
      while index < |tiers|
        invariant index <= |tiers| && FindTier(tiers, number, 0) == FindTier(tiers, number, index)
      {
        if tiers[index].number == number {
          return;
        }
        index := index + 1;
      }
    }

    /** Writes the tier status, the next tier and, after the last tier, the completion of the chain. */
    method LeaveTier(g: nat, index: nat, next: int, tierStatus: TierStatus)
      requires g in chains
      modifies this`chains
      ensures chains == old(chains)[g := Move(old(chains)[g], index, next, tierStatus)]
    {
      var last := index == |chains[g].tiers| - 1;
      chains := chains[g := chains[g].(tierStatus := tierStatus, current := next)];
      chains := chains[g := chains[g].(status := if last then ChainCompleted else ChainInProgress)];
    }

    /** Advances the chain of a gate by at most one tier. */
    method EvaluateApprovalChain(g: nat, eval: string -> Result<bool>) returns (ok: bool)
      requires g in gates && g in chains
      modifies this`gates, this`chains, this`events
      ensures match EvaluateGateChain(old(State()), g, eval)
              case Ok(t) => State() == t && ok
              case Err(_) => State() == old(State()) && !ok
    {
      ghost var view := ChainView(State(), g, eval);
      var chain := chains[g];
      assert chains[g := chain] == chains;
      if chain.status == ChainCompleted || chain.status == ChainFailed || |chain.tiers| == 0 {
        return true;
      }
      var index := FindTierDefinition(chain.tiers, chain.current);
      if index == |chain.tiers| {
        chains := chains[g := chain.(status := ChainCompleted, tierStatus := TierApproved)];
        return true;
      }
      var tier := chain.tiers[index];
      var next := NextTier(chain.tiers, index);
      if tier.canSkipIf != "" {
        var skip := eval(tier.canSkipIf);
        if skip.Err? {
          return false;
        }
        if skip.value {
          LeaveTier(g, index, if next == 0 then chain.current else next, TierSkipped);
          return true;
        }
      }
      if tier.requiredIf != "" {
        var required := eval(tier.requiredIf);
        if required.Err? {
          return false;
        }
        if !required.value {
          LeaveTier(g, index, next, TierSkipped);
          return true;
        }
      }
      assert EvaluateChain(chain, view) == AskPolicy(chain, index, view);
      ok := EvaluateTierPolicy(g, index, eval);
    }

    /** Counts the requests of the tier and lets its policy decide. */
    method EvaluateTierPolicy(g: nat, index: nat, ghost eval: string -> Result<bool>) returns (ok: bool)
      requires g in gates && g in chains && index < |chains[g].tiers|
      modifies this`gates, this`chains, this`events
      ensures match AskPolicy(old(chains)[g], index, ChainView(old(State()), g, eval))
              case Ok(r) => State() == ApplyChain(old(State()), g, r.0, r.1) && ok
              case Err(_) => State() == old(State()) && !ok
    {
      var chain := chains[g];
      var tier := chain.tiers[index];
      assert chains[g := chain] == chains;
      var counts := CountRequests(requests, OfTier(g, tier.number));
      var policy := if tier.policy.Some? then tier.policy.value else gates[g].config.policy;
      var verdict := EvaluateCounts(policy, 0, counts);
      if verdict == Unsupported {
        return false;
      }
      if verdict == Failed {
        chains := chains[g := chain.(tierStatus := TierRejected, status := ChainFailed)];
        gates := gates[g := gates[g].(status := GateFailed)];
        Publish(GateFailedEvent, g);
      } else if verdict == Satisfied {
        LeaveTier(g, index, NextTier(chain.tiers, index), TierApproved);
        if index == |chain.tiers| - 1 {
          gates := gates[g := gates[g].(status := GateSatisfied)];
          Publish(GateSatisfiedEvent, g);
        }
      }
      return true;
    }

    method ExecuteRejectionBehavior(g: nat) returns (ok: bool)
      requires g in gates
      modifies this`gates, this`cases, this`events
      ensures match ExecuteRejection(old(State()), g)
              case Ok(t) => State() == t && ok
              case Err(_) => State() == old(State()) && !ok
    {
      var config := gates[g].config;
      var c := config.caseId;
      match config.onRejection {
        case OtherBehavior(_) =>
        case TerminalFail =>
          if c in cases {
            cases := cases[c := cases[c].(status := "REJECTED")];
          }
          gates := gates[g := gates[g].(status := GateFailed)];
          Publish(CaseRejectedEvent, g);
        case SendToRework =>
          if config.reworkTarget == "" || c !in cases {
            return false;
          }
          var count := cases[c].reworkCount + 1;
          if cases[c].maxRework > 0 && count > cases[c].maxRework {
            cases := cases[c := cases[c].(status := "REJECTED", reworkCount := count)];
            Publish(MaxReworkEvent, g);
            return true;
          }
          if config.reworkTarget !in cases[c].stages {
            return false;
          }
          cases := cases[c := cases[c].(status := "IN_PROGRESS", stage := config.reworkTarget, reworkCount := count)];
          gates := gates[g := gates[g].(status := GateReworkInitiated)];
          Publish(StageChangedEvent, g);
          Publish(SentToReworkEvent, g);
      }
      return true;
    }

    /** Approves or rejects a request; on any failure the rows are as they were. */
    method Decide(r: nat, actor: Actor, approve: bool, eval: string -> Result<bool>) returns (ok: bool)
      modifies this
      ensures State() == Apply(old(State()), Step.Decide(r, actor, approve, eval))
      ensures ok == DecideRequest(old(State()), r, actor, approve, eval).Ok?
    {
      if r >= |requests| || requests[r].gate !in gates {
        return false;
      }
      var before := State();
      var request := requests[r];
      var g := request.gate;
      var target := if approve then Approved else Rejected;
      if !TransitionAllowed(request.status, target, ActingOn(actor, request)) {
        return false;
      }
      requests := requests[r := request.(status := target)];
      Publish(if approve then GrantedEvent else RejectedEvent, g);
      ok := Conclude(g, approve, eval);
      if !ok {
        Rollback(before);
      }
    }

    /** What follows the update of the request; after a failure the caller rolls back. */
    method Conclude(g: nat, approve: bool, eval: string -> Result<bool>) returns (ok: bool)
      requires g in gates
      modifies this
      ensures match AfterDecision(old(State()), g, approve, eval)
              case Ok(t) => State() == t && ok
              case Err(_) => !ok
    {
      var satisfied := EvaluateApprovalPolicy(g);
      if satisfied.Err? {
        return false;
      }
      if g in chains {
        ok := EvaluateApprovalChain(g, eval);
        if !ok {
          return;
        }
      }
      if !approve && !satisfied.value {
        ok := ExecuteRejectionBehavior(g);
        return;
      }
      return true;
    }

    method Delegate(r: nat, actor: Actor, to: string) returns (ok: bool)
      modifies this`requests, this`events
      ensures State() == Apply(old(State()), Step.Delegate(r, actor, to))
      ensures ok == DelegateRequest(old(State()), r, actor, to).Ok?
    {
      if r >= |requests| || requests[r].gate !in gates {
        return false;
      }
      var request := requests[r];
      if !TransitionAllowed(request.status, Delegated, actor.(delegatedTo := to)) {
        return false;
      }
      requests := requests[r := request.(status := Delegated, delegatedTo := to)];
      requests := requests + [Request(request.gate, to, request.tier, Pending, "")];
      Publish(DelegatedEvent, request.gate);
      return true;
    }

    method Activate(g: nat, approvers: seq<string>) returns (ok: bool)
      modifies this`gates, this`requests, this`events
      ensures State() == Apply(old(State()), Step.Activate(g, approvers))
      ensures ok == ActivateGate(old(State()), g, approvers).Ok?
    {
      if g !in gates {
        return false;
      }
      if gates[g].status == GateSatisfied || gates[g].status == GateFailed {
        return true;
      }
      var counts := CountRequests(requests, OfGate(g));
      if counts.pending == 0 {
        if approvers == [] {
          return false;
        }
        var tiers := gates[g].config.tiers;
        var tier := if tiers == [] then None else Some(tiers[0].number);
        for i := 0 to |approvers|
          invariant State() == RequestAll(old(State()), g, approvers[..i]) && gates == old(gates)
        {
          requests := requests + [Request(g, approvers[i], tier, Pending, "")];
          Publish(RequestedEvent, g);
          assert approvers[..i + 1][..i] == approvers[..i];
        }
        assert approvers[..|approvers|] == approvers;
      }
      gates := gates[g := gates[g].(status := GateActive)];
      return true;
    }

    /** One candidate of the expiry sweep. */
    method ProcessCandidate(r: nat, escalateTo: string)
      modifies this
      ensures State() == ExpireRequest(old(State()), r, escalateTo)
    {
      if r >= |requests| || requests[r].gate !in gates || requests[r].status != Pending {
        return;
      }
      var g := requests[r].gate;
      var handled := TimeOut(r, gates[g].config.onTimeout, escalateTo);
      if handled {
        FinishExpiry(g);
      }
    }

    /** Marks the request expired and takes the timeout action. */
    method TimeOut(r: nat, action: TimeoutAction, escalateTo: string) returns (handled: bool)
      requires r < |requests|
      modifies this`requests
      ensures requests == TimedOut(old(requests), r, action, escalateTo)
      ensures handled == Handled(action, escalateTo)
    {
      requests := requests[r := requests[r].(status := Expired)];
      match action
      case AutoApprove =>
        requests := requests[r := requests[r].(status := Approved)];
        return true;
      case AutoReject =>
        requests := requests[r := requests[r].(status := Rejected)];
        return true;
      case Escalate =>
        if escalateTo == "" {
          return false;
        }
        requests := requests[r := requests[r].(status := Delegated, delegatedTo := escalateTo)];
        requests := requests + [Request(requests[r].gate, escalateTo, requests[r].tier, Pending, "")];
        return true;
      case OtherAction(_) => return false;
    }

    method FinishExpiry(g: nat)
      requires g in gates
      modifies this`gates, this`events
      ensures State() == AfterExpiry(old(State()), g)
    {
      Publish(ExpiredEvent, g);
      var _ := EvaluateApprovalPolicy(g);
    }

    /** The sweep over the expired requests found, each with the user it would escalate to. */
    method Sweep(candidates: seq<(nat, string)>)
      modifies this
      ensures State() == Run(old(State()), ExpirySteps(candidates))
    {
      ghost var steps := ExpirySteps(candidates);
      for i := 0 to |candidates|
        invariant State() == Run(old(State()), steps[..i])
      {
        ProcessCandidate(candidates[i].0, candidates[i].1);
        assert steps[..i + 1][..i] == steps[..i];
      }
      assert steps[..|candidates|] == steps;
    }
  }
}
