/**
 Approval gates as rows that change: creating and activating a gate, deciding, delegating and expiring
 its requests, closing it by policy or chain, and what a rejection does to the case.
 */
module ApprovalGates {
  import opened Outcomes
  import opened ApprovalPolicy
  import opened ApprovalChain

  datatype RequestStatus = Pending | Approved | Rejected | Expired | Delegated

  /** `delegatedTo` is empty until the request is delegated or escalated. */
  datatype Request = Request(gate: nat, approver: string, tier: Option<int>, status: RequestStatus, delegatedTo: string)

  datatype GateStatus =
    | GatePending | GateActive | GateSatisfied | GateFailed
    | GateRejected | GateReworkInitiated | GateExpired | GateCancelled

  datatype TimeoutAction = AutoApprove | AutoReject | Escalate | OtherAction(name: string)

  datatype RejectionBehavior = SendToRework | TerminalFail | OtherBehavior(name: string)

  /** The configuration a gate is created with; `reworkTarget` is empty when there is none. */
  datatype GateConfig = GateConfig(caseId: nat, policy: Policy, required: int, onTimeout: TimeoutAction,
                                   onRejection: RejectionBehavior, reworkTarget: string, tiers: seq<Tier>)

  datatype Gate = Gate(config: GateConfig, status: GateStatus)

  datatype CaseRow = CaseRow(status: string, stage: string, reworkCount: int, maxRework: int, stages: set<string>)

  datatype EventKind =
    | GateCreatedEvent | RequestedEvent | GrantedEvent | RejectedEvent | DelegatedEvent | ExpiredEvent
    | GateSatisfiedEvent | GateFailedEvent | StageChangedEvent | SentToReworkEvent | MaxReworkEvent | CaseRejectedEvent

  datatype Event = Event(kind: EventKind, gate: nat)

  /** The rows; a gate is known by its task, which has at most one, and a request by its index. */
  datatype Store = Store(gates: map<nat, Gate>, requests: seq<Request>, chains: map<nat, Chain>,
                         cases: map<nat, CaseRow>, events: seq<Event>) {
    function Status(g: nat): GateStatus
      requires g in gates
    {
      gates[g].status
    }

    function SetStatus(g: nat, status: GateStatus): Store
      requires g in gates
    {
      this.(gates := gates[g := gates[g].(status := status)])
    }

    function SetRequest(r: nat, status: RequestStatus, delegatedTo: string): Store
      requires r < |requests|
    {
      this.(requests := requests[r := requests[r].(status := status, delegatedTo := delegatedTo)])
    }

    function AddRequest(request: Request): Store {
      this.(requests := requests + [request])
    }

    function Publish(kind: EventKind, g: nat): Store {
      this.(events := events + [Event(kind, g)])
    }
  }

  // -------------------------------------------------------------------------------------------
  // The guard on request transitions
  // -------------------------------------------------------------------------------------------

  datatype Actor = Actor(id: string, isSystem: bool, isApprover: bool, isDelegate: bool, isOriginalApprover: bool,
                         decisionText: string, evidence: Option<seq<string>>, delegatedTo: string)

  predicate Stated(actor: Actor) {
    actor.decisionText != "" && actor.evidence.Some?
  }

  predicate TransitionAllowed(current: RequestStatus, requested: RequestStatus, actor: Actor) {
    && actor.id != ""
    && match (current, requested)
       case (Pending, Approved) => actor.isApprover && !actor.isSystem && Stated(actor)
       case (Pending, Rejected) => actor.isApprover && !actor.isSystem && Stated(actor)
       case (Pending, Delegated) => actor.isApprover && actor.delegatedTo != ""
       case (Pending, Expired) => actor.isSystem
       case (Delegated, Approved) => actor.isDelegate && !actor.isOriginalApprover && Stated(actor)
       case (Delegated, Rejected) => actor.isDelegate && !actor.isOriginalApprover && Stated(actor)
       case (Expired, Approved) => actor.isSystem
       case (Expired, Rejected) => actor.isSystem
       case (Expired, Pending) => actor.isSystem
       case _ => false
  }

  // -------------------------------------------------------------------------------------------
  // Counting
  // -------------------------------------------------------------------------------------------

  datatype Scope = OfGate(gate: nat) | OfTier(gate: nat, tier: int) {
    predicate Has(request: Request) {
      request.gate == gate && (OfTier? ==> request.tier == Some(tier))
    }
  }

  function Count(c: Counts, status: RequestStatus): Counts {
    match status
    case Pending => c.(pending := c.pending + 1)
    case Approved => c.(approved := c.approved + 1)
    case Rejected => c.(rejected := c.rejected + 1)
    case Expired => c.(expired := c.expired + 1)
    case Delegated => c
  }

  function Put(c: Counts, request: Request, scope: Scope): Counts {
    if scope.Has(request) then Count(c, request.status) else c
  }

  const NOTHING := Counts(0, 0, 0, 0)

  /** The counts over the first `n` requests. */
  function TallyTo(requests: seq<Request>, n: nat, scope: Scope): Counts
    requires n <= |requests|
  {
    if n == 0 then NOTHING else Put(TallyTo(requests, n - 1, scope), requests[n - 1], scope)
  }

  /** The counts of a gate or of one of its tiers; delegated requests are left out. */
  function Tally(requests: seq<Request>, scope: Scope): Counts {
    TallyTo(requests, |requests|, scope)
  }

  method CountRequests(requests: seq<Request>, scope: Scope) returns (c: Counts)
    ensures c == Tally(requests, scope)
  {
    c := NOTHING;
    for i := 0 to |requests|
      invariant c == TallyTo(requests, i, scope)
    {
      if scope.Has(requests[i]) {
        c := Count(c, requests[i].status);
      }
    }
  }

  /** Closing a gate changes statuses, chain progress, cases and events; this is what it keeps. */
  ghost predicate SameSetup(s: Store, t: Store) {
    && t.requests == s.requests && t.chains.Keys == s.chains.Keys && t.gates.Keys == s.gates.Keys
    && forall g | g in s.gates :: t.gates[g].config == s.gates[g].config
  }

  // -------------------------------------------------------------------------------------------
  // Closing a gate
  // -------------------------------------------------------------------------------------------

  /** Closes an open gate and says so in an event; a gate that is not open is left alone. */
  function CloseGate(s: Store, g: nat, status: GateStatus, kind: EventKind): Store
    requires g in s.gates
  {
    if s.Status(g) == GatePending || s.Status(g) == GateActive then s.SetStatus(g, status).Publish(kind, g) else s
  }

  function GateVerdict(s: Store, g: nat): Verdict
    requires g in s.gates
  {
    EvaluateCounts(s.gates[g].config.policy, s.gates[g].config.required, Tally(s.requests, OfGate(g)))
  }

  /** The new store, and whether the gate counts as satisfied. */
  function ApplyVerdict(s: Store, g: nat, verdict: Verdict): (r: Result<(Store, bool)>)
    requires g in s.gates
    ensures r.Ok? ==> r.value.0.chains == s.chains && SameSetup(s, r.value.0)
  {
    match s.Status(g)
    case GateSatisfied => Ok((s, true))
    case GateFailed => Ok((s, false))
    case GateRejected => Ok((s, false))
    case GateCancelled => Ok((s, false))
    case _ =>
      match verdict
      case Unsupported => Err("unsupported policy")
      case Failed => Ok((CloseGate(s, g, GateFailed, GateFailedEvent), false))
      case Satisfied => Ok((CloseGate(s, g, GateSatisfied, GateSatisfiedEvent), true))
      case Undecided => Ok((s, false))
  }

  function EvaluatePolicy(s: Store, g: nat): (r: Result<(Store, bool)>)
    requires g in s.gates
    ensures r.Ok? ==> r.value.0.chains == s.chains && SameSetup(s, r.value.0)
  {
    ApplyVerdict(s, g, GateVerdict(s, g))
  }

  function ChainView(s: Store, g: nat, eval: string -> Result<bool>): View
    requires g in s.gates
  {
    View(eval, tier => Tally(s.requests, OfTier(g, tier)), s.gates[g].config.policy)
  }

  /** The chain closes the gate whatever its status. */
  function ApplyChain(s: Store, g: nat, chain: Chain, effect: Effect): Store
    requires g in s.gates
  {
    var t := s.(chains := s.chains[g := chain]);
    match effect
    case KeepGate => t
    case SatisfyGate => t.SetStatus(g, GateSatisfied).Publish(GateSatisfiedEvent, g)
    case FailGate => t.SetStatus(g, GateFailed).Publish(GateFailedEvent, g)
  }

  function EvaluateGateChain(s: Store, g: nat, eval: string -> Result<bool>): (r: Result<Store>)
    requires g in s.gates
    ensures r.Ok? ==> SameSetup(s, r.value)
  {
    if g !in s.chains then Ok(s)
    else
      var r :- EvaluateChain(s.chains[g], ChainView(s, g, eval));
      Ok(ApplyChain(s, g, r.0, r.1))
  }

  // -------------------------------------------------------------------------------------------
  // Rejection
  // -------------------------------------------------------------------------------------------

  function SendCaseToRework(s: Store, g: nat): Result<Store>
    requires g in s.gates
  {
    var config := s.gates[g].config;
    if config.caseId !in s.cases then Err("load case")
    else
      var row := s.cases[config.caseId];
      var count := row.reworkCount + 1;
      if row.maxRework > 0 && count > row.maxRework then
        var rejected := row.(status := "REJECTED", reworkCount := count);
        Ok(s.(cases := s.cases[config.caseId := rejected]).Publish(MaxReworkEvent, g))
      else if config.reworkTarget !in row.stages then Err("resolve rework stage ordinal")
      else
        var reworked := row.(status := "IN_PROGRESS", stage := config.reworkTarget, reworkCount := count);
        Ok(s.(cases := s.cases[config.caseId := reworked])
            .SetStatus(g, GateReworkInitiated).Publish(StageChangedEvent, g).Publish(SentToReworkEvent, g))
  }

  function RejectCaseTerminally(s: Store, g: nat): Store
    requires g in s.gates
  {
    var c := s.gates[g].config.caseId;
    (if c in s.cases then s.(cases := s.cases[c := s.cases[c].(status := "REJECTED")]) else s)
      .SetStatus(g, GateFailed).Publish(CaseRejectedEvent, g)
  }

  function ExecuteRejection(s: Store, g: nat): (r: Result<Store>)
    requires g in s.gates
    ensures r.Ok? ==> SameSetup(s, r.value)
  {
    match s.gates[g].config.onRejection
    case SendToRework =>
      if s.gates[g].config.reworkTarget == "" then Err("rework_target_stage_code is required")
      else SendCaseToRework(s, g)
    case TerminalFail => Ok(RejectCaseTerminally(s, g))
    case OtherBehavior(_) => Ok(s)
  }

  // -------------------------------------------------------------------------------------------
  // The operations
  // -------------------------------------------------------------------------------------------

  /** Creating a gate again for the same task replaces its configuration and keeps its status and chain. */
  function CreateGate(s: Store, g: nat, config: GateConfig): Store {
    var settled := if config.required <= 0 then config.(required := 1) else config;
    var gate :=
      if g in s.gates then Gate(settled.(caseId := s.gates[g].config.caseId), s.gates[g].status)
      else Gate(settled, GatePending);
    var t := s.(gates := s.gates[g := gate]).Publish(GateCreatedEvent, g);
    if config.tiers != [] && g !in s.chains then t.(chains := t.chains[g := Created(config.tiers)]) else t
  }

  function RequestAll(s: Store, g: nat, approvers: seq<string>): Store
    requires g in s.gates
    decreases |approvers|
  {
    if approvers == [] then s
    else
      var n := |approvers| - 1;
      var tiers := s.gates[g].config.tiers;
      var tier := if tiers == [] then None else Some(tiers[0].number);
      var t := RequestAll(s, g, approvers[..n]);
      t.AddRequest(Request(g, approvers[n], tier, Pending, "")).Publish(RequestedEvent, g)
  }

  /** The gate is still to be decided and has nobody asked at the moment. */
  predicate Unasked(s: Store, g: nat) {
    && g in s.gates && s.Status(g) != GateSatisfied && s.Status(g) != GateFailed
    && Tally(s.requests, OfGate(g)).pending == 0
  }

  /** `approvers` is what the selection rules (or the fallback role) come up with. */
  function ActivateGate(s: Store, g: nat, approvers: seq<string>): Result<Store> {
    if g !in s.gates then Err("load gate")
    else if s.Status(g) == GateSatisfied || s.Status(g) == GateFailed then Ok(s)
    else if !Unasked(s, g) then Ok(s.SetStatus(g, GateActive))
    else if approvers == [] then Err("no eligible approver")
    else Ok(RequestAll(s, g, approvers).(gates := s.SetStatus(g, GateActive).gates))
  }

  /** The row's own delegate and approver decide whether an actor may act on a delegated request. */
  function ActingOn(actor: Actor, request: Request): Actor {
    if request.status == Delegated then
      actor.(isDelegate := actor.id == request.delegatedTo, isOriginalApprover := actor.id == request.approver)
    else actor
  }

  /** The rest of a decision once the request itself is updated. */
  function AfterDecision(s: Store, g: nat, approve: bool, eval: string -> Result<bool>): (r: Result<Store>)
    requires g in s.gates
    ensures r.Ok? ==> SameSetup(s, r.value)
  {
    var evaluated :- EvaluatePolicy(s, g);
    var chained :- EvaluateGateChain(evaluated.0, g, eval);
    if !approve && !evaluated.1 then ExecuteRejection(chained, g) else Ok(chained)
  }

  function DecideRequest(s: Store, r: nat, actor: Actor, approve: bool, eval: string -> Result<bool>): Result<Store> {
    if r >= |s.requests| || s.requests[r].gate !in s.gates then Err("load request")
    else
      var request := s.requests[r];
      var target := if approve then Approved else Rejected;
      if !TransitionAllowed(request.status, target, ActingOn(actor, request)) then Err("transition not allowed")
      else
        var decided := s.SetRequest(r, target, request.delegatedTo)
                        .Publish(if approve then GrantedEvent else RejectedEvent, request.gate);
        AfterDecision(decided, request.gate, approve, eval)
  }

  function DelegateRequest(s: Store, r: nat, actor: Actor, to: string): Result<Store> {
    if r >= |s.requests| || s.requests[r].gate !in s.gates then Err("load request")
    else
      var request := s.requests[r];
      if !TransitionAllowed(request.status, Delegated, actor.(delegatedTo := to)) then Err("transition not allowed")
      else
        Ok(s.SetRequest(r, Delegated, to)
            .AddRequest(Request(request.gate, to, request.tier, Pending, "")).Publish(DelegatedEvent, request.gate))
  }

  /** The requests after one of them timed out; without a target, or an action, it is left expired. */
  function TimedOut(requests: seq<Request>, r: nat, action: TimeoutAction, escalateTo: string): seq<Request>
    requires r < |requests|
  {
    match action
    case AutoApprove => requests[r := requests[r].(status := Approved)]
    case AutoReject => requests[r := requests[r].(status := Rejected)]
    case Escalate =>
      if escalateTo == "" then requests[r := requests[r].(status := Expired)]
      else
        requests[r := requests[r].(status := Delegated, delegatedTo := escalateTo)]
        + [Request(requests[r].gate, escalateTo, requests[r].tier, Pending, "")]
    case OtherAction(_) => requests[r := requests[r].(status := Expired)]
  }

  predicate Handled(action: TimeoutAction, escalateTo: string) {
    action == AutoApprove || action == AutoReject || (action == Escalate && escalateTo != "")
  }

  /**
   One candidate of the expiry sweep. A failure after the request was marked is only logged: what was
   written before it stays, and the rest of the candidate's handling is left out.
   */
  function ExpireRequest(s: Store, r: nat, escalateTo: string): Store {
    if r >= |s.requests| || s.requests[r].gate !in s.gates || s.requests[r].status != Pending then s
    else
      var g := s.requests[r].gate;
      var action := s.gates[g].config.onTimeout;
      var t := s.(requests := TimedOut(s.requests, r, action, escalateTo));
      if Handled(action, escalateTo) then AfterExpiry(t, g) else t
  }

  function AfterExpiry(s: Store, g: nat): (t: Store)
    requires g in s.gates
    ensures SameSetup(s, t)
  {
    var t := s.Publish(ExpiredEvent, g);
    match EvaluatePolicy(t, g)
    case Ok(r) => r.0
    case Err(_) => t
  }

  datatype Step =
    | Create(g: nat, config: GateConfig)
    | Activate(g: nat, approvers: seq<string>)
    | Decide(r: nat, actor: Actor, approve: bool, eval: string -> Result<bool>)
    | Delegate(r: nat, actor: Actor, to: string)
    | Expire(r: nat, escalateTo: string)

  /** Every step is one transaction: an error changes nothing. */
  function Apply(s: Store, step: Step): Store {
    match step
    case Create(g, config) => CreateGate(s, g, config)
    case Activate(g, approvers) => Kept(s, ActivateGate(s, g, approvers))
    case Decide(r, actor, approve, eval) => Kept(s, DecideRequest(s, r, actor, approve, eval))
    case Delegate(r, actor, to) => Kept(s, DelegateRequest(s, r, actor, to))
    case Expire(r, escalateTo) => ExpireRequest(s, r, escalateTo)
  }

  function Kept(s: Store, r: Result<Store>): Store {
    if r.Ok? then r.value else s
  }

  function Run(s: Store, steps: seq<Step>): Store {
    if steps == [] then s else Apply(Run(s, steps[..|steps| - 1]), steps[|steps| - 1])
  }
}
