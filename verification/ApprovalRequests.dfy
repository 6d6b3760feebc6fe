/**
 What each operation does to the requests and the status of a gate, told from the rows: who may move a
 request and to where, whom an activation asks, what a timeout counts as, and what creating a gate again keeps.
 */
module ApprovalRequests {
  import opened Outcomes
  import opened ApprovalPolicy
  import opened ApprovalChain
  import opened ApprovalGates
  import opened ApprovalLaws

  // -------------------------------------------------------------------------------------------
  // Who moves a request, and where
  // -------------------------------------------------------------------------------------------

  /** A human approver, or the delegate of a delegated request who is not its approver, who states the reasons. */
  predicate MayDecide(request: Request, actor: Actor) {
    && actor.id != ""
    && match request.status
       case Pending => actor.isApprover && !actor.isSystem && actor.decisionText != "" && actor.evidence.Some?
       case Delegated =>
         && actor.id == request.delegatedTo && actor.id != request.approver
         && actor.decisionText != "" && actor.evidence.Some?
       case Expired => actor.isSystem
       case _ => false
  }

  /** Where the step moves request `r`, if it may: by a decision, a delegation or a timeout. */
  function Destination(s: Store, step: Step, r: nat): Option<RequestStatus>
    requires r < |s.requests| && s.requests[r].gate in s.gates
  {
    var request, config := s.requests[r], s.gates[s.requests[r].gate].config;
    match step
    case Decide(at, actor, approve, _) =>
      if at == r && MayDecide(request, actor) then Some(if approve then Approved else Rejected) else None
    case Delegate(at, actor, to) =>
      if at == r && request.status == Pending && actor.id != "" && actor.isApprover && to != "" then Some(Delegated)
      else None
    case Expire(at, escalateTo) =>
      if at != r || request.status != Pending then None
      else if config.onTimeout == AutoApprove then Some(Approved)
      else if config.onTimeout == AutoReject then Some(Rejected)
      else if config.onTimeout == Escalate && escalateTo != "" then Some(Delegated)
      else Some(Expired)
    case _ => None
  }

  lemma MayDecideIff(request: Request, actor: Actor, approve: bool)
    ensures TransitionAllowed(request.status, if approve then Approved else Rejected, ActingOn(actor, request))
            <==> MayDecide(request, actor)
  {
  }

  /** What never changes about a request. */
  predicate SameRequest(a: Request, b: Request) {
    a.gate == b.gate && a.approver == b.approver && a.tier == b.tier
  }

  lemma DecideMoves(s: Store, r: nat, step: Step)
    requires step.Decide? && r < |s.requests| && s.requests[r].gate in s.gates
    ensures var t := Apply(s, step);
            && |t.requests| == |s.requests| && SameRequest(t.requests[r], s.requests[r])
            && (t.requests[r].status != s.requests[r].status ==> Destination(s, step, r) == Some(t.requests[r].status))
            && (Destination(s, step, r).Some? && t != s ==> Destination(s, step, r) == Some(t.requests[r].status))
  {
    if DecideRequest(s, step.r, step.actor, step.approve, step.eval).Ok? {
      DecideRequests(s, step.r, step.actor, step.approve, step.eval);
      MayDecideIff(s.requests[step.r], step.actor, step.approve);
    }
  }

  lemma ExpireMoves(s: Store, r: nat, step: Step)
    requires step.Expire? && r < |s.requests| && s.requests[r].gate in s.gates
    ensures var t := Apply(s, step);
            && |s.requests| <= |t.requests| && SameRequest(t.requests[r], s.requests[r])
            && var to := Destination(s, step, r);
               t.requests[r].status == if to.Some? then to.value else s.requests[r].status
  {
    if step.r < |s.requests| && s.requests[step.r].gate in s.gates && s.requests[step.r].status == Pending {
      ExpireRequests(s, step.r, step.escalateTo);
    }
  }

  lemma ExpireRequests(s: Store, r: nat, escalateTo: string)
    requires r < |s.requests| && s.requests[r].gate in s.gates && s.requests[r].status == Pending
    ensures ExpireRequest(s, r, escalateTo).requests
            == TimedOut(s.requests, r, s.gates[s.requests[r].gate].config.onTimeout, escalateTo)
  {
  }

  /**
   In every step a request keeps its gate, approver and tier, and changes its status only to where the step
   may move it; a step that may move it does, unless it fails as a whole.
   */
  lemma RequestMoves(s: Store, step: Step, r: nat)
    requires r < |s.requests| && s.requests[r].gate in s.gates
    ensures var t := Apply(s, step);
            && r < |t.requests| && SameRequest(t.requests[r], s.requests[r])
            && (t.requests[r].status != s.requests[r].status ==> Destination(s, step, r) == Some(t.requests[r].status))
            && (Destination(s, step, r).Some? && t != s ==> Destination(s, step, r) == Some(t.requests[r].status))
  {
    match step
    case Create(_, _) =>
    case Activate(g, approvers) => if Unasked(s, g) { AskedInOrder(s, g, approvers); }
    case Decide(_, _, _, _) => DecideMoves(s, r, step);
    case Delegate(_, _, _) =>
    case Expire(_, _) => ExpireMoves(s, r, step);
  }

  // -------------------------------------------------------------------------------------------
  // New requests
  // -------------------------------------------------------------------------------------------

  function Asked(s: Store, g: nat, approvers: seq<string>): seq<Request>
    requires g in s.gates
  {
    seq(|approvers|, i requires 0 <= i < |approvers| => Request(g, approvers[i], FirstTier(s, g), Pending, ""))
  }

  lemma {:induction false} AskedInOrder(s: Store, g: nat, approvers: seq<string>)
    requires g in s.gates
    ensures RequestAll(s, g, approvers).requests == s.requests + Asked(s, g, approvers)
    decreases |approvers|
  {
    if approvers != [] {
      var n := |approvers| - 1;
      AskedInOrder(s, g, approvers[..n]);
      var last := Request(g, approvers[n], FirstTier(s, g), Pending, "");
      assert RequestAll(s, g, approvers).requests == RequestAll(s, g, approvers[..n]).requests + [last];
      assert Asked(s, g, approvers) == Asked(s, g, approvers[..n]) + [last];
    } else {
      assert s.requests + Asked(s, g, []) == s.requests;
    }
  }

  /** The requests a step makes: one per approver, or one for whom a request is handed to, of the same gate and tier. */
  function Made(s: Store, step: Step): seq<Request> {
    match step
    case Activate(g, approvers) => if Unasked(s, g) then Asked(s, g, approvers) else []
    case Delegate(r, _, to) =>
      if r < |s.requests| && s.requests[r].gate in s.gates && Destination(s, step, r).Some?
      then [Request(s.requests[r].gate, to, s.requests[r].tier, Pending, "")] else []
    case Expire(r, escalateTo) =>
      if r < |s.requests| && s.requests[r].gate in s.gates && Destination(s, step, r) == Some(Delegated)
      then [Request(s.requests[r].gate, escalateTo, s.requests[r].tier, Pending, "")] else []
    case _ => []
  }

  lemma ExpireMakes(s: Store, r: nat, escalateTo: string)
    ensures var t := ExpireRequest(s, r, escalateTo);
            |s.requests| <= |t.requests| && t.requests[|s.requests|..] == Made(s, Expire(r, escalateTo))
  {
    if r < |s.requests| && s.requests[r].gate in s.gates && s.requests[r].status == Pending {
      ExpireRequests(s, r, escalateTo);
    }
  }

  lemma RequestsMade(s: Store, step: Step)
    ensures var t := Apply(s, step); |s.requests| <= |t.requests| && t.requests[|s.requests|..] == Made(s, step)
  {
    match step
    case Create(_, _) =>
    case Activate(g, approvers) => if Unasked(s, g) { AskedInOrder(s, g, approvers); }
    case Decide(r, actor, approve, eval) =>
      if DecideRequest(s, r, actor, approve, eval).Ok? { DecideRequests(s, r, actor, approve, eval); }
    case Delegate(r, actor, to) =>
    case Expire(r, escalateTo) => ExpireMakes(s, r, escalateTo);
  }

  /** An activation makes the gate ACTIVE unless it is closed or nobody can be asked. */
  lemma ActivationMeans(s: Store, g: nat, approvers: seq<string>)
    requires g in s.gates
    ensures var t, status := Apply(s, Activate(g, approvers)), s.Status(g);
            && g in t.gates && t.gates[g].config == s.gates[g].config
            && t.Status(g) == (if status == GateSatisfied || status == GateFailed || (Unasked(s, g) && approvers == [])
                               then status else GateActive)
            && (forall other | other in s.gates && other != g :: other in t.gates && t.gates[other] == s.gates[other])
            && t.chains == s.chains && t.cases == s.cases
  {
    RequestAllKeepsRows(s, g, approvers);
  }

  lemma {:induction false} RequestAllKeepsRows(s: Store, g: nat, approvers: seq<string>)
    requires g in s.gates
    ensures var t := RequestAll(s, g, approvers); t.gates == s.gates && t.chains == s.chains && t.cases == s.cases
    decreases |approvers|
  {
    if approvers != [] { RequestAllKeepsRows(s, g, approvers[..|approvers| - 1]); }
  }

  // -------------------------------------------------------------------------------------------
  // What is announced
  // -------------------------------------------------------------------------------------------

  /** The step was carried out: `t` begins its new events with this one. */
  ghost predicate Announces(s: Store, t: Store, kind: EventKind, g: nat) {
    |s.events| < |t.events| && s.events <= t.events && t.events[|s.events|] == Event(kind, g)
  }

  lemma PolicyKeepsEvents(s: Store, g: nat)
    requires g in s.gates && EvaluatePolicy(s, g).Ok?
    ensures s.events <= EvaluatePolicy(s, g).value.0.events
  {
  }

  lemma ChainKeepsEvents(s: Store, g: nat, eval: string -> Result<bool>)
    requires g in s.gates && EvaluateGateChain(s, g, eval).Ok?
    ensures s.events <= EvaluateGateChain(s, g, eval).value.events
  {
  }

  lemma RejectionKeepsEvents(s: Store, g: nat)
    requires g in s.gates && ExecuteRejection(s, g).Ok?
    ensures s.events <= ExecuteRejection(s, g).value.events
  {
  }

  lemma AfterDecisionKeepsEvents(s: Store, g: nat, approve: bool, eval: string -> Result<bool>)
    requires g in s.gates && AfterDecision(s, g, approve, eval).Ok?
    ensures s.events <= AfterDecision(s, g, approve, eval).value.events
  {
    var (evaluated, satisfied) := EvaluatePolicy(s, g).value;
    var chained := EvaluateGateChain(evaluated, g, eval).value;
    PolicyKeepsEvents(s, g);
    ChainKeepsEvents(evaluated, g, eval);
    if !approve && !satisfied { RejectionKeepsEvents(chained, g); }
  }

  /** An accepted decision announces what was decided, before anything that follows from it. */
  lemma DecisionAnnounced(s: Store, r: nat, actor: Actor, approve: bool, eval: string -> Result<bool>)
    requires DecideRequest(s, r, actor, approve, eval).Ok?
    ensures Announces(s, Apply(s, Decide(r, actor, approve, eval)), if approve then GrantedEvent else RejectedEvent,
                      s.requests[r].gate)
  {
    var request := s.requests[r];
    var decided := s.SetRequest(r, if approve then Approved else Rejected, request.delegatedTo)
                    .Publish(if approve then GrantedEvent else RejectedEvent, request.gate);
    AfterDecisionKeepsEvents(decided, request.gate, approve, eval);
    assert decided.events[|s.events|] == Event(if approve then GrantedEvent else RejectedEvent, request.gate);
  }

  // -------------------------------------------------------------------------------------------
  // Timeouts
  // -------------------------------------------------------------------------------------------

  /** What a timed-out request counts as; a request that is handed over still counts as pending. */
  function TimedOutCounts(c: Counts, action: TimeoutAction, escalateTo: string): Counts
    requires c.pending > 0
  {
    match action
    case AutoApprove => Cast(c, Yes)
    case AutoReject => Cast(c, No)
    case _ => if action == Escalate && escalateTo != "" then c else Cast(c, Lapse)
  }

  lemma TimeoutCounts(requests: seq<Request>, r: nat, action: TimeoutAction, escalateTo: string)
    requires r < |requests| && requests[r].status == Pending
    ensures var scope := OfGate(requests[r].gate);
            && Tally(requests, scope).pending > 0
            && Tally(TimedOut(requests, r, action, escalateTo), scope)
               == TimedOutCounts(Tally(requests, scope), action, escalateTo)
  {
    var scope := OfGate(requests[r].gate);
    var approved := TallyReplace(requests, r, requests[r].(status := Approved), scope);
    var rejected := TallyReplace(requests, r, requests[r].(status := Rejected), scope);
    var expired := TallyReplace(requests, r, requests[r].(status := Expired), scope);
    if action == Escalate && escalateTo != "" {
      HandOverKeeps(requests, r, escalateTo, scope);
    }
  }

  /**
   A pending request that times out counts as its gate's timeout action says, and when there was something to
   do the policy is asked: an open gate is closed by its verdict, whether or not it has a chain.
   */
  lemma TimeoutMeans(s: Store, r: nat, escalateTo: string)
    requires r < |s.requests| && s.requests[r].gate in s.gates && s.requests[r].status == Pending
    ensures var g := s.requests[r].gate;
            var t, config := Apply(s, Expire(r, escalateTo)), s.gates[g].config;
            var counts := Tally(s.requests, OfGate(g));
            && counts.pending > 0 && g in t.gates && t.gates[g].config == config
            && Tally(t.requests, OfGate(g)) == TimedOutCounts(counts, config.onTimeout, escalateTo)
            && var verdict := EvaluateCounts(config.policy, config.required, Tally(t.requests, OfGate(g)));
               t.Status(g) == if (s.Status(g) == GatePending || s.Status(g) == GateActive)
                                 && Destination(s, Expire(r, escalateTo), r) != Some(Expired)
                                 && (verdict == Satisfied || verdict == Failed)
                              then if verdict == Satisfied then GateSatisfied else GateFailed
                              else s.Status(g)
  {
    ExpireRequests(s, r, escalateTo);
    TimeoutCounts(s.requests, r, s.gates[s.requests[r].gate].config.onTimeout, escalateTo);
  }

  // -------------------------------------------------------------------------------------------
  // Creating a gate
  // -------------------------------------------------------------------------------------------

  /** A gate is created PENDING, for at least one approval, with a chain at its first tier when it has tiers. */
  lemma CreationMeans(s: Store, g: nat, config: GateConfig)
    requires g !in s.gates && g !in s.chains
    ensures var t := Apply(s, Create(g, config));
            && g in t.gates && t.Status(g) == GatePending && t.gates[g].config.required >= 1
            && t.gates[g].config == config.(required := t.gates[g].config.required)
            && (config.required >= 1 ==> t.gates[g].config.required == config.required)
            && (g in t.chains <==> config.tiers != [])
            && (g in t.chains ==>
                  t.chains[g].tiers == config.tiers && Position(t.chains[g]) == 0 && !t.chains[g].Closed())
            && t.requests == s.requests && t.cases == s.cases
  {
  }

  /** Creating it again changes neither its status nor its case nor the progress of its chain. */
  lemma CreationAgain(s: Store, g: nat, config: GateConfig)
    requires g in s.gates
    ensures var t := Apply(s, Create(g, config));
            && g in t.gates && t.Status(g) == s.Status(g) && t.gates[g].config.required >= 1
            && t.gates[g].config == config.(required := t.gates[g].config.required, caseId := s.gates[g].config.caseId)
            && (g in s.chains ==> g in t.chains && t.chains[g] == s.chains[g])
            && t.requests == s.requests && t.cases == s.cases
  {
  }
}
