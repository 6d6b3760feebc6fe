/**
 What holds of approval gates over every run: satisfaction is final, requests are conserved, failing fast is
 sound.
 */
module ApprovalLaws {
  import opened Outcomes
  import opened ApprovalPolicy
  import opened ApprovalChain
  import opened ApprovalGates

  // -------------------------------------------------------------------------------------------
  // Satisfaction is final
  // -------------------------------------------------------------------------------------------

  /** The events that end a gate or that a rejection sets off. */
  predicate Decisive(e: Event, g: nat) {
    && e.gate == g
    && (e.kind == GateSatisfiedEvent || e.kind == GateFailedEvent || e.kind == SentToReworkEvent
        || e.kind == MaxReworkEvent || e.kind == CaseRejectedEvent)
  }

  ghost predicate SatisfiedIn(s: Store, g: nat) {
    g in s.gates && s.Status(g) == GateSatisfied
  }

  /** From `s` to `t` a satisfied gate stays so without a decisive event; one that becomes so has it last. */
  ghost predicate Settles(s: Store, t: Store, g: nat) {
    && s.events <= t.events
    && (SatisfiedIn(s, g) ==> SatisfiedIn(t, g) && forall i | |s.events| <= i < |t.events| :: !Decisive(t.events[i], g))
    && (!SatisfiedIn(s, g) && SatisfiedIn(t, g) ==>
          |s.events| < |t.events| && t.events[|t.events| - 1] == Event(GateSatisfiedEvent, g))
    && (forall i | |s.events| <= i < |t.events| && t.events[i] == Event(GateSatisfiedEvent, g) ::
          SatisfiedIn(t, g) && i == |t.events| - 1)
  }

  /** Gates, chains and events are the same but for new events that decide nothing. */
  ghost predicate Undecisive(s: Store, t: Store) {
    && t.gates == s.gates && t.chains == s.chains && s.events <= t.events
    && forall i, g | |s.events| <= i < |t.events| :: !Decisive(t.events[i], g)
  }

  /** Nothing about gate `g` changed. */
  ghost predicate Untouched(s: Store, t: Store, g: nat) {
    && (g in s.gates <==> g in t.gates) && (g in s.gates ==> t.gates[g] == s.gates[g])
    && s.chains.Keys == t.chains.Keys
    && s.events <= t.events && forall i | |s.events| <= i < |t.events| :: t.events[i].gate != g
  }

  lemma SettlesAfter(s: Store, t: Store, u: Store, g: nat)
    requires Undecisive(s, t) && Settles(t, u, g)
    ensures Settles(s, u, g)
  {
    forall i | |s.events| <= i < |u.events| && u.events[i] == Event(GateSatisfiedEvent, g)
      ensures SatisfiedIn(u, g) && i == |u.events| - 1
    {
      assert i < |t.events| ==> !Decisive(t.events[i], g);
    }
    forall i | |s.events| <= i < |u.events|
      ensures SatisfiedIn(s, g) ==> !Decisive(u.events[i], g)
    {
      if i < |t.events| { assert !Decisive(t.events[i], g); }
    }
  }

  lemma UntouchedSettles(s: Store, t: Store, g: nat)
    requires Untouched(s, t, g)
    ensures Settles(s, t, g)
  {
  }

  lemma UntouchedTwice(s: Store, t: Store, u: Store, g: nat)
    requires Untouched(s, t, g) && Untouched(t, u, g)
    ensures Untouched(s, u, g)
  {
    forall i | |s.events| <= i < |u.events|
      ensures u.events[i].gate != g
    {
      if i < |t.events| { assert t.events[i].gate != g; }
    }
  }

  // Each part of an operation touches its own gate only.

  lemma VerdictTouchesOwn(s: Store, g: nat, verdict: Verdict, other: nat)
    requires g in s.gates && g != other && ApplyVerdict(s, g, verdict).Ok?
    ensures g in ApplyVerdict(s, g, verdict).value.0.gates && Untouched(s, ApplyVerdict(s, g, verdict).value.0, other)
  {
  }

  lemma ChainTouchesOwn(s: Store, g: nat, chain: Chain, effect: Effect, other: nat)
    requires g in s.gates && g in s.chains && g != other
    ensures g in ApplyChain(s, g, chain, effect).gates && Untouched(s, ApplyChain(s, g, chain, effect), other)
  {
  }

  lemma RejectionTouchesOwn(s: Store, g: nat, other: nat)
    requires g in s.gates && g != other && ExecuteRejection(s, g).Ok?
    ensures Untouched(s, ExecuteRejection(s, g).value, other)
  {
  }

  lemma AfterDecisionTouchesOwn(s: Store, g: nat, approve: bool, eval: string -> Result<bool>, other: nat)
    requires g in s.gates && g != other && AfterDecision(s, g, approve, eval).Ok?
    ensures Untouched(s, AfterDecision(s, g, approve, eval).value, other)
  {
    VerdictTouchesOwn(s, g, GateVerdict(s, g), other);
    var t := EvaluatePolicy(s, g).value.0;
    var u := EvaluateGateChain(t, g, eval).value;
    if g in t.chains {
      var r := EvaluateChain(t.chains[g], ChainView(t, g, eval)).value;
      ChainTouchesOwn(t, g, r.0, r.1, other);
    }
    UntouchedTwice(s, t, u, other);
    if !approve && !EvaluatePolicy(s, g).value.1 {
      RejectionTouchesOwn(u, g, other);
      UntouchedTwice(s, u, ExecuteRejection(u, g).value, other);
    }
  }

  /** What a decision does to a gate that has no chain. */
  function Concluded(s: Store, g: nat, verdict: Verdict, approve: bool): Result<Store>
    requires g in s.gates
  {
    var r :- ApplyVerdict(s, g, verdict);
    if !approve && !r.1 then ExecuteRejection(r.0, g) else Ok(r.0)
  }

  lemma VerdictSettles(s: Store, g: nat, verdict: Verdict)
    requires g in s.gates && ApplyVerdict(s, g, verdict).Ok?
    ensures Settles(s, ApplyVerdict(s, g, verdict).value.0, g)
    ensures SatisfiedIn(ApplyVerdict(s, g, verdict).value.0, g) ==> ApplyVerdict(s, g, verdict).value.1
  {
  }

  /** Neither satisfied nor announced as such. */
  ghost predicate Unsatisfied(s: Store, t: Store, g: nat) {
    && s.events <= t.events && !SatisfiedIn(t, g)
    && forall i | |s.events| <= i < |t.events| :: t.events[i] != Event(GateSatisfiedEvent, g)
  }

  lemma RejectionUnsatisfied(s: Store, g: nat)
    requires g in s.gates && !SatisfiedIn(s, g) && ExecuteRejection(s, g).Ok?
    ensures Unsatisfied(s, ExecuteRejection(s, g).value, g)
  {
  }

  lemma ConcludedSettles(s: Store, g: nat, verdict: Verdict, approve: bool)
    requires g in s.gates && Concluded(s, g, verdict, approve).Ok?
    ensures Settles(s, Concluded(s, g, verdict, approve).value, g)
  {
    VerdictSettles(s, g, verdict);
    var (t, satisfied) := ApplyVerdict(s, g, verdict).value;
    if !approve && !satisfied {
      RejectionUnsatisfied(t, g);
      SettledUnsatisfied(s, t, ExecuteRejection(t, g).value, g);
    }
  }

  lemma SettledUnsatisfied(s: Store, t: Store, u: Store, g: nat)
    requires Settles(s, t, g) && !SatisfiedIn(t, g) && Unsatisfied(t, u, g)
    ensures Settles(s, u, g)
  {
    forall i | |s.events| <= i < |u.events|
      ensures u.events[i] != Event(GateSatisfiedEvent, g)
    {
      if i < |t.events| { assert u.events[i] == t.events[i]; }
    }
  }

  /** Without a chain, a decision only applies the verdict and, for a rejection, its behaviour. */
  lemma AfterDecisionConcluded(s: Store, g: nat, approve: bool, eval: string -> Result<bool>)
    requires g in s.gates && g !in s.chains
    ensures AfterDecision(s, g, approve, eval) == Concluded(s, g, GateVerdict(s, g), approve)
  {
  }

  lemma DecideSettles(s: Store, r: nat, actor: Actor, approve: bool, eval: string -> Result<bool>, of: nat)
    requires of !in s.chains && DecideRequest(s, r, actor, approve, eval).Ok?
    ensures Settles(s, DecideRequest(s, r, actor, approve, eval).value, of)
  {
    var request := s.requests[r];
    var g := request.gate;
    var decided := s.SetRequest(r, if approve then Approved else Rejected, request.delegatedTo)
                    .Publish(if approve then GrantedEvent else RejectedEvent, g);
    var after := AfterDecision(decided, g, approve, eval).value;
    if g == of {
      AfterDecisionConcluded(decided, g, approve, eval);
      ConcludedSettles(decided, g, GateVerdict(decided, g), approve);
    } else {
      AfterDecisionTouchesOwn(decided, g, approve, eval, of);
      UntouchedSettles(decided, after, of);
    }
    SettlesAfter(s, decided, after, of);
  }

  lemma CreateSettles(s: Store, g: nat, config: GateConfig, of: nat)
    ensures Settles(s, CreateGate(s, g, config), of)
  {
  }

  lemma {:induction false} RequestAllUndecisive(s: Store, g: nat, approvers: seq<string>)
    requires g in s.gates
    ensures Undecisive(s, RequestAll(s, g, approvers))
    decreases |approvers|
  {
    if approvers != [] {
      RequestAllUndecisive(s, g, approvers[..|approvers| - 1]);
    }
  }

  lemma ActivateSettles(s: Store, g: nat, approvers: seq<string>, of: nat)
    requires ActivateGate(s, g, approvers).Ok?
    ensures Settles(s, ActivateGate(s, g, approvers).value, of)
  {
    RequestAllUndecisive(s, g, approvers);
    var t := RequestAll(s, g, approvers);
    forall i | |s.events| <= i < |t.events|
      ensures !Decisive(t.events[i], of)
    {
    }
  }

  lemma DelegateSettles(s: Store, r: nat, actor: Actor, to: string, of: nat)
    requires DelegateRequest(s, r, actor, to).Ok?
    ensures Settles(s, DelegateRequest(s, r, actor, to).value, of)
  {
  }

  lemma AfterExpirySettles(s: Store, g: nat, of: nat)
    requires g in s.gates
    ensures Settles(s, AfterExpiry(s, g), of)
  {
    var t := s.Publish(ExpiredEvent, g);
    var u := AfterExpiry(s, g);
    var verdict := GateVerdict(t, g);
    if ApplyVerdict(t, g, verdict).Ok? {
      if g == of {
        VerdictSettles(t, g, verdict);
      } else {
        VerdictTouchesOwn(t, g, verdict, of);
        UntouchedSettles(t, u, of);
      }
    }
    SettlesAfter(s, t, u, of);
  }

  /** Changing the requests alone settles nothing. */
  lemma RequestsAside(s: Store, t: Store, u: Store, of: nat)
    requires t.gates == s.gates && t.chains == s.chains && t.events == s.events && Settles(t, u, of)
    ensures Settles(s, u, of)
  {
  }

  lemma ExpireSettles(s: Store, r: nat, escalateTo: string, of: nat)
    ensures Settles(s, ExpireRequest(s, r, escalateTo), of)
  {
    if r < |s.requests| && s.requests[r].gate in s.gates && s.requests[r].status == Pending {
      var g := s.requests[r].gate;
      var t := s.(requests := TimedOut(s.requests, r, s.gates[g].config.onTimeout, escalateTo));
      AfterExpirySettles(t, g, of);
      RequestsAside(s, t, AfterExpiry(t, g), of);
    }
  }

  lemma StepSettles(s: Store, step: Step, of: nat)
    requires of !in s.chains
    ensures Settles(s, Apply(s, step), of)
  {
    match step
    case Create(g, config) => CreateSettles(s, g, config, of);
    case Activate(g, approvers) => if ActivateGate(s, g, approvers).Ok? { ActivateSettles(s, g, approvers, of); }
    case Decide(r, actor, approve, eval) =>
      if DecideRequest(s, r, actor, approve, eval).Ok? { DecideSettles(s, r, actor, approve, eval, of); }
    case Delegate(r, actor, to) => if DelegateRequest(s, r, actor, to).Ok? { DelegateSettles(s, r, actor, to, of); }
    case Expire(r, escalateTo) => ExpireSettles(s, r, escalateTo, of);
  }

  lemma ChainsStay(s: Store, step: Step)
    ensures s.chains.Keys <= Apply(s, step).chains.Keys
  {
    match step
    case Activate(g, approvers) => if g in s.gates { RequestAllUndecisive(s, g, approvers); }
    case _ =>
  }

  /** A store in which nothing about approvals has happened yet; the cases are arbitrary. */
  ghost predicate Fresh(s: Store) {
    s.gates == map[] && s.requests == [] && s.chains == map[] && s.events == []
  }

  /**
   The gate's whole story: it is satisfied exactly when the event saying so was published, and no second
   such event, no failure, rework or rejection of the case on its account was published after that.
   */
  ghost predicate SatisfiedOnce(s: Store, g: nat) {
    && (SatisfiedIn(s, g) <==> Event(GateSatisfiedEvent, g) in s.events)
    && forall i, j | 0 <= i < j < |s.events| && s.events[i] == Event(GateSatisfiedEvent, g) :: !Decisive(s.events[j], g)
  }

  lemma SatisfiedOnceStep(s: Store, t: Store, g: nat)
    requires SatisfiedOnce(s, g) && Settles(s, t, g)
    ensures SatisfiedOnce(t, g)
  {
    forall i, j | 0 <= i < j < |t.events| && t.events[i] == Event(GateSatisfiedEvent, g)
      ensures !Decisive(t.events[j], g)
    {
      if i < |s.events| {
        assert s.events[i] == Event(GateSatisfiedEvent, g);
        if j < |s.events| { assert !Decisive(s.events[j], g); }
      }
    }
    if SatisfiedIn(t, g) {
      if SatisfiedIn(s, g) {
        var i :| 0 <= i < |s.events| && s.events[i] == Event(GateSatisfiedEvent, g);
        assert t.events[i] == Event(GateSatisfiedEvent, g);
      }
    }
  }

  /** Over every run, a gate without a chain is satisfied at most once and for good. */
  lemma {:induction false} SatisfiedForGood(s: Store, steps: seq<Step>, g: nat)
    requires Fresh(s) && g !in Run(s, steps).chains
    ensures SatisfiedOnce(Run(s, steps), g)
    decreases |steps|
  {
    if steps != [] {
      var n := |steps| - 1;
      var before := Run(s, steps[..n]);
      ChainsStay(before, steps[n]);
      SatisfiedForGood(s, steps[..n], g);
      StepSettles(before, steps[n], g);
      SatisfiedOnceStep(before, Run(s, steps), g);
    }
  }

  /** From any state, whatever follows leaves a satisfied gate satisfied and sets off nothing on its account. */
  lemma {:induction false} SatisfiedAbsorbing(s: Store, steps: seq<Step>, g: nat)
    requires SatisfiedIn(s, g) && g !in Run(s, steps).chains
    ensures var t := Run(s, steps);
            SatisfiedIn(t, g) && s.events <= t.events && forall i | |s.events| <= i < |t.events| ::
                !Decisive(t.events[i], g)
    decreases |steps|
  {
    if steps != [] {
      var n := |steps| - 1;
      var before := Run(s, steps[..n]);
      ChainsStay(before, steps[n]);
      SatisfiedAbsorbing(s, steps[..n], g);
      StepSettles(before, steps[n], g);
    }
  }

  // -------------------------------------------------------------------------------------------
  // Requests are conserved
  // -------------------------------------------------------------------------------------------

  lemma PutCommutes(c: Counts, a: Request, b: Request, scope: Scope)
    ensures Put(Put(c, a, scope), b, scope) == Put(Put(c, b, scope), a, scope)
  {
  }

  lemma {:induction false} TallySame(requests: seq<Request>, others: seq<Request>, n: nat, scope: Scope)
    requires n <= |requests| && n <= |others| && forall i | 0 <= i < n :: requests[i] == others[i]
    ensures TallyTo(requests, n, scope) == TallyTo(others, n, scope)
  {
    if n > 0 { TallySame(requests, others, n - 1, scope); }
  }

  lemma TallyAppend(requests: seq<Request>, request: Request, scope: Scope)
    ensures Tally(requests + [request], scope) == Put(Tally(requests, scope), request, scope)
  {
    TallySame(requests, requests + [request], |requests|, scope);
  }

  /** Replacing one request changes the counts by that request alone. */
  lemma {:induction false} TallyReplaceTo(requests: seq<Request>, n: nat, r: nat, request: Request, scope: Scope)
    returns (rest: Counts)
    requires r < n <= |requests|
    ensures TallyTo(requests, n, scope) == Put(rest, requests[r], scope)
    ensures TallyTo(requests[r := request], n, scope) == Put(rest, request, scope)
    decreases n
  {
    if r == n - 1 {
      rest := TallyTo(requests, r, scope);
      TallySame(requests, requests[r := request], r, scope);
    } else {
      var inner := TallyReplaceTo(requests, n - 1, r, request, scope);
      rest := Put(inner, requests[n - 1], scope);
      PutCommutes(inner, requests[r], requests[n - 1], scope);
      PutCommutes(inner, request, requests[n - 1], scope);
    }
  }

  lemma TallyReplace(requests: seq<Request>, r: nat, request: Request, scope: Scope) returns (rest: Counts)
    requires r < |requests|
    ensures Tally(requests, scope) == Put(rest, requests[r], scope)
    ensures Tally(requests[r := request], scope) == Put(rest, request, scope)
  {
    rest := TallyReplaceTo(requests, |requests|, r, request, scope);
  }

  /** The number of requests that count, by the status of the request that changes hands. */
  function Weight(request: Request, scope: Scope): nat {
    if scope.Has(request) && request.status != Delegated then 1 else 0
  }

  lemma TotalReplace(requests: seq<Request>, r: nat, request: Request, scope: Scope)
    requires r < |requests|
    ensures Tally(requests[r := request], scope).Total() + Weight(requests[r], scope)
            == Tally(requests, scope).Total() + Weight(request, scope)
  {
    var rest := TallyReplace(requests, r, request, scope);
  }

  /** The requests once `r` is decided. */
  function Marked(requests: seq<Request>, r: nat, approve: bool): seq<Request>
    requires r < |requests|
  {
    requests[r := requests[r].(status := if approve then Approved else Rejected)]
  }

  lemma DecideRequests(s: Store, r: nat, actor: Actor, approve: bool, eval: string -> Result<bool>)
    requires DecideRequest(s, r, actor, approve, eval).Ok?
    ensures DecideRequest(s, r, actor, approve, eval).value.requests == Marked(s.requests, r, approve)
  {
  }

  function FirstTier(s: Store, g: nat): Option<int>
    requires g in s.gates
  {
    var tiers := s.gates[g].config.tiers;
    if tiers == [] then None else Some(tiers[0].number)
  }

  lemma {:induction false} RequestAllTotal(s: Store, g: nat, approvers: seq<string>, scope: Scope)
    requires g in s.gates
    ensures Tally(RequestAll(s, g, approvers).requests, scope).Total()
            == Tally(s.requests, scope).Total()
               + if scope.Has(Request(g, "", FirstTier(s, g), Pending, "")) then |approvers| else 0
    decreases |approvers|
  {
    if approvers != [] {
      var n := |approvers| - 1;
      RequestAllTotal(s, g, approvers[..n], scope);
      TallyAppend(RequestAll(s, g, approvers[..n]).requests,
                  Request(g, approvers[n], FirstTier(s, g), Pending, ""), scope);
    }
  }

  /** How many requests of the gate or tier a step adds to those that count. */
  function Added(s: Store, step: Step, scope: Scope): nat {
    match step
    case Activate(g, approvers) =>
      if Unasked(s, g) && scope.Has(Request(g, "", FirstTier(s, g), Pending, "")) then |approvers| else 0
    case Decide(r, actor, approve, eval) =>
      if && DecideRequest(s, r, actor, approve, eval).Ok?
         && scope.Has(s.requests[r]) && s.requests[r].status == Delegated
      then 1 else 0
    case _ => 0
  }

  /**
   Expiry, escalation, delegation and decisions on requests that are not delegated conserve the requests
   that count; activation adds one for each approver, and a decision on a delegated request adds one.
   */
  lemma RequestsConserved(s: Store, step: Step, scope: Scope)
    ensures Tally(Apply(s, step).requests, scope).Total() == Tally(s.requests, scope).Total() + Added(s, step, scope)
  {
    match step
    case Create(g, config) =>
    case Activate(g, approvers) => ActivateConserves(s, g, approvers, scope);
    case Decide(r, actor, approve, eval) =>
      if DecideRequest(s, r, actor, approve, eval).Ok? {
        DecideRequests(s, r, actor, approve, eval);
        TotalReplace(s.requests, r, s.requests[r].(status := if approve then Approved else Rejected), scope);
      }
    case Delegate(r, actor, to) => DelegateFollows(s, r, actor, to, scope);
    case Expire(r, escalateTo) => ExpireFollows(s, r, escalateTo, scope);
  }

  lemma ActivateRequests(s: Store, g: nat, approvers: seq<string>)
    ensures Apply(s, Activate(g, approvers)).requests
            == if Unasked(s, g) then RequestAll(s, g, approvers).requests else s.requests
  {
  }

  lemma ActivateConserves(s: Store, g: nat, approvers: seq<string>, scope: Scope)
    ensures var step := Activate(g, approvers);
            Tally(Apply(s, step).requests, scope).Total() == Tally(s.requests, scope).Total() + Added(s, step, scope)
  {
    ActivateRequests(s, g, approvers);
    if Unasked(s, g) { RequestAllTotal(s, g, approvers, scope); }
  }

  /** A pending request handed to somebody else leaves the counts as they are. */
  lemma HandOverKeeps(requests: seq<Request>, r: nat, to: string, scope: Scope)
    requires r < |requests| && requests[r].status == Pending
    ensures Tally(requests[r := requests[r].(status := Delegated, delegatedTo := to)]
                  + [Request(requests[r].gate, to, requests[r].tier, Pending, "")], scope) == Tally(requests, scope)
  {
    var rest := TallyReplace(requests, r, requests[r].(status := Delegated, delegatedTo := to), scope);
    TallyAppend(requests[r := requests[r].(status := Delegated, delegatedTo := to)],
                Request(requests[r].gate, to, requests[r].tier, Pending, ""), scope);
  }

  lemma DelegateFollows(s: Store, r: nat, actor: Actor, to: string, scope: Scope)
    ensures Tally(Apply(s, Delegate(r, actor, to)).requests, scope) == Tally(s.requests, scope)
  {
    if DelegateRequest(s, r, actor, to).Ok? {
      HandOverKeeps(s.requests, r, to, scope);
    }
  }

  lemma DecidedFollows(requests: seq<Request>, r: nat, status: RequestStatus, scope: Scope)
    requires r < |requests| && requests[r].status == Pending && status != Delegated
    ensures Follows(Tally(requests, scope), Tally(requests[r := requests[r].(status := status)], scope))
  {
    var rest := TallyReplace(requests, r, requests[r].(status := status), scope);
  }

  lemma TimedOutFollows(requests: seq<Request>, r: nat, action: TimeoutAction, escalateTo: string, scope: Scope)
    requires r < |requests| && requests[r].status == Pending
    ensures Follows(Tally(requests, scope), Tally(TimedOut(requests, r, action, escalateTo), scope))
  {
    match action
    case AutoApprove => DecidedFollows(requests, r, Approved, scope);
    case AutoReject => DecidedFollows(requests, r, Rejected, scope);
    case Escalate =>
      if escalateTo == "" {
        DecidedFollows(requests, r, Expired, scope);
      } else {
        HandOverKeeps(requests, r, escalateTo, scope);
      }
    case OtherAction(_) => DecidedFollows(requests, r, Expired, scope);
  }

  lemma ExpireFollows(s: Store, r: nat, escalateTo: string, scope: Scope)
    ensures Follows(Tally(s.requests, scope), Tally(ExpireRequest(s, r, escalateTo).requests, scope))
  {
    if r < |s.requests| && s.requests[r].gate in s.gates && s.requests[r].status == Pending {
      TimedOutFollows(s.requests, r, s.gates[s.requests[r].gate].config.onTimeout, escalateTo, scope);
    }
  }

  // -------------------------------------------------------------------------------------------
  // Failing fast is sound over runs
  // -------------------------------------------------------------------------------------------

  /** A step that neither adds requests to the gate, nor reconfigures it, nor revives an expired request. */
  predicate Routine(s: Store, step: Step, g: nat) {
    && Added(s, step, OfGate(g)) == 0
    && (step.Create? ==> step.g != g)
    && (step.Decide? && step.r < |s.requests| ==> s.requests[step.r].gate != g || s.requests[step.r].status != Expired)
  }

  ghost predicate RoutineRun(s: Store, steps: seq<Step>, g: nat) {
    forall k | 0 <= k < |steps| :: Routine(Run(s, steps[..k]), steps[k], g)
  }

  lemma ActivateFollows(s: Store, g: nat, approvers: seq<string>, of: nat)
    requires Added(s, Activate(g, approvers), OfGate(of)) == 0
    ensures Tally(Apply(s, Activate(g, approvers)).requests, OfGate(of)) == Tally(s.requests, OfGate(of))
  {
    if g in s.gates && g != of {
      RequestAllElsewhere(s, g, approvers, of);
    }
  }

  lemma {:induction false} RequestAllElsewhere(s: Store, g: nat, approvers: seq<string>, of: nat)
    requires g in s.gates && g != of
    ensures Tally(RequestAll(s, g, approvers).requests, OfGate(of)) == Tally(s.requests, OfGate(of))
    decreases |approvers|
  {
    if approvers != [] {
      var n := |approvers| - 1;
      RequestAllElsewhere(s, g, approvers[..n], of);
      TallyAppend(RequestAll(s, g, approvers[..n]).requests,
                  Request(g, approvers[n], FirstTier(s, g), Pending, ""), OfGate(of));
    }
  }

  lemma DecideFollows(s: Store, r: nat, actor: Actor, approve: bool, eval: string -> Result<bool>, of: nat)
    requires DecideRequest(s, r, actor, approve, eval).Ok?
    requires s.requests[r].gate != of || s.requests[r].status == Pending
    ensures Follows(Tally(s.requests, OfGate(of)),
                    Tally(DecideRequest(s, r, actor, approve, eval).value.requests, OfGate(of)))
  {
    DecideRequests(s, r, actor, approve, eval);
    var status := if approve then Approved else Rejected;
    if s.requests[r].gate == of {
      DecidedFollows(s.requests, r, status, OfGate(of));
    } else {
      var rest := TallyReplace(s.requests, r, s.requests[r].(status := status), OfGate(of));
    }
  }

  /** Routine steps only decide or expire pending requests. */
  lemma RoutineFollows(s: Store, step: Step, g: nat)
    requires Routine(s, step, g)
    ensures Follows(Tally(s.requests, OfGate(g)), Tally(Apply(s, step).requests, OfGate(g)))
  {
    match step
    case Create(_, _) =>
    case Activate(of, approvers) => ActivateFollows(s, of, approvers, g);
    case Decide(r, actor, approve, eval) =>
      if DecideRequest(s, r, actor, approve, eval).Ok? { DecideFollows(s, r, actor, approve, eval, g); }
    case Delegate(r, actor, to) => DelegateFollows(s, r, actor, to, OfGate(g));
    case Expire(r, escalateTo) => ExpireFollows(s, r, escalateTo, OfGate(g));
  }

  lemma DecideConfig(s: Store, r: nat, actor: Actor, approve: bool, eval: string -> Result<bool>, g: nat)
    requires g in s.gates && DecideRequest(s, r, actor, approve, eval).Ok?
    ensures var t := DecideRequest(s, r, actor, approve, eval).value;
            g in t.gates && t.gates[g].config == s.gates[g].config
  {
  }

  /** The configuration of a gate changes only when the gate is created again. */
  lemma ConfigStays(s: Store, step: Step, g: nat)
    requires g in s.gates && !(step.Create? && step.g == g)
    ensures g in Apply(s, step).gates && Apply(s, step).gates[g].config == s.gates[g].config
  {
    match step
    case Create(_, _) =>
    case Activate(of, approvers) => if of in s.gates { RequestAllUndecisive(s, of, approvers); }
    case Decide(r, actor, approve, eval) =>
      if DecideRequest(s, r, actor, approve, eval).Ok? { DecideConfig(s, r, actor, approve, eval, g); }
    case Delegate(r, actor, to) =>
    case Expire(r, escalateTo) =>
  }

  /** The policy verdict is the only way to satisfy a gate that has no chain. */
  ghost predicate ByPolicy(s: Store, t: Store, g: nat) {
    SatisfiedIn(t, g) ==> SatisfiedIn(s, g) || GateVerdict(t, g) == Satisfied
  }

  lemma ConcludedByPolicy(s: Store, g: nat, verdict: Verdict, approve: bool)
    requires g in s.gates && Concluded(s, g, verdict, approve).Ok?
    ensures SatisfiedIn(Concluded(s, g, verdict, approve).value, g) ==> SatisfiedIn(s, g) || verdict == Satisfied
  {
    VerdictSettles(s, g, verdict);
    var (t, satisfied) := ApplyVerdict(s, g, verdict).value;
    if !approve && !satisfied {
      RejectionUnsatisfied(t, g);
    }
  }

  lemma SameVerdict(s: Store, t: Store, g: nat)
    requires SameSetup(s, t) && g in s.gates
    ensures GateVerdict(t, g) == GateVerdict(s, g)
  {
  }

  lemma DecideByPolicy(s: Store, r: nat, actor: Actor, approve: bool, eval: string -> Result<bool>, of: nat)
    requires of !in s.chains && DecideRequest(s, r, actor, approve, eval).Ok?
    ensures ByPolicy(s, DecideRequest(s, r, actor, approve, eval).value, of)
  {
    var request := s.requests[r];
    var g := request.gate;
    var decided := s.SetRequest(r, if approve then Approved else Rejected, request.delegatedTo)
                    .Publish(if approve then GrantedEvent else RejectedEvent, g);
    var after := AfterDecision(decided, g, approve, eval).value;
    if g == of {
      AfterDecisionConcluded(decided, g, approve, eval);
      ConcludedByPolicy(decided, g, GateVerdict(decided, g), approve);
      SameVerdict(decided, after, g);
    } else {
      AfterDecisionTouchesOwn(decided, g, approve, eval, of);
    }
  }

  lemma AfterExpiryByPolicy(s: Store, g: nat, of: nat)
    requires g in s.gates
    ensures ByPolicy(s, AfterExpiry(s, g), of)
  {
    var t := s.Publish(ExpiredEvent, g);
    var verdict := GateVerdict(t, g);
    SameVerdict(s, t, g);
    SameVerdict(s, AfterExpiry(s, g), g);
    if ApplyVerdict(t, g, verdict).Ok? {
      if g == of {
        assert Concluded(t, g, verdict, true) == Ok(AfterExpiry(s, g));
        ConcludedByPolicy(t, g, verdict, true);
      } else {
        VerdictTouchesOwn(t, g, verdict, of);
      }
    }
  }

  lemma ExpireByPolicy(s: Store, r: nat, escalateTo: string, of: nat)
    ensures ByPolicy(s, ExpireRequest(s, r, escalateTo), of)
  {
    if r < |s.requests| && s.requests[r].gate in s.gates && s.requests[r].status == Pending {
      var g := s.requests[r].gate;
      AfterExpiryByPolicy(s.(requests := TimedOut(s.requests, r, s.gates[g].config.onTimeout, escalateTo)), g, of);
    }
  }

  lemma ActivateNotSatisfies(s: Store, g: nat, approvers: seq<string>, of: nat)
    requires ActivateGate(s, g, approvers).Ok?
    ensures SatisfiedIn(ActivateGate(s, g, approvers).value, of) ==> SatisfiedIn(s, of)
  {
  }

  lemma CreateNotSatisfies(s: Store, g: nat, config: GateConfig, of: nat)
    ensures SatisfiedIn(CreateGate(s, g, config), of) ==> SatisfiedIn(s, of)
  {
  }

  /** Steps other than decisions satisfy a gate only by its policy, whether it has a chain or not. */
  lemma OtherStepByPolicy(s: Store, step: Step, g: nat)
    requires !step.Decide?
    ensures ByPolicy(s, Apply(s, step), g)
  {
    match step
    case Create(of, config) => CreateNotSatisfies(s, of, config, g);
    case Activate(of, approvers) =>
      if ActivateGate(s, of, approvers).Ok? { ActivateNotSatisfies(s, of, approvers, g); }
    case Delegate(r, actor, to) => assert SatisfiedIn(Apply(s, step), g) ==> SatisfiedIn(s, g);
    case Expire(r, escalateTo) => ExpireByPolicy(s, r, escalateTo, g);
  }

  lemma StepByPolicy(s: Store, step: Step, g: nat)
    requires g !in s.chains
    ensures ByPolicy(s, Apply(s, step), g)
  {
    if step.Decide? {
      if DecideRequest(s, step.r, step.actor, step.approve, step.eval).Ok? {
        DecideByPolicy(s, step.r, step.actor, step.approve, step.eval, g);
      }
    } else {
      OtherStepByPolicy(s, step, g);
    }
  }

  lemma FailFastStep(s: Store, step: Step, g: nat)
    requires g in s.gates && GateVerdict(s, g) == Failed && Routine(s, step, g)
    ensures g in Apply(s, step).gates && GateVerdict(Apply(s, step), g) == Failed
  {
    RoutineFollows(s, step, g);
    ConfigStays(s, step, g);
    FailFastSound(s.gates[g].config.policy, s.gates[g].config.required,
                  Tally(s.requests, OfGate(g)), Tally(Apply(s, step).requests, OfGate(g)));
  }

  lemma RoutinePrefix(s: Store, steps: seq<Step>, g: nat)
    requires steps != [] && RoutineRun(s, steps, g)
    ensures var n := |steps| - 1; Routine(Run(s, steps[..n]), steps[n], g) && RoutineRun(s, steps[..n], g)
  {
    var n := |steps| - 1;
    forall k | 0 <= k < n
      ensures Routine(Run(s, steps[..n][..k]), steps[..n][k], g)
    {
      assert steps[..n][..k] == steps[..k];
      assert Routine(Run(s, steps[..k]), steps[k], g);
    }
  }

  /**
   Once the counts of a gate fail its policy, no run of routine steps changes the verdict, and a gate
   without a chain that is not satisfied by then never will be.
   */
  lemma {:induction false} FailFastOverRuns(s: Store, steps: seq<Step>, g: nat)
    requires g in s.gates && GateVerdict(s, g) == Failed && RoutineRun(s, steps, g)
    ensures var t := Run(s, steps);
            && g in t.gates && GateVerdict(t, g) == Failed
            && (!SatisfiedIn(s, g) && g !in t.chains ==> !SatisfiedIn(t, g))
    decreases |steps|
  {
    if steps != [] {
      var n := |steps| - 1;
      var before := Run(s, steps[..n]);
      RoutinePrefix(s, steps, g);
      FailFastOverRuns(s, steps[..n], g);
      FailFastStep(before, steps[n], g);
      ChainsStay(before, steps[n]);
      if g !in before.chains {
        StepByPolicy(before, steps[n], g);
      }
    }
  }

  // -------------------------------------------------------------------------------------------
  // A decision is final
  // -------------------------------------------------------------------------------------------

  predicate Decided(status: RequestStatus) {
    status == Approved || status == Rejected
  }

  /** Requests are never removed, and those that were approved or rejected never change. */
  ghost predicate KeepsDecided(before: seq<Request>, after: seq<Request>) {
    |before| <= |after| && forall r | 0 <= r < |before| && Decided(before[r].status) :: after[r] == before[r]
  }

  lemma {:induction false} RequestAllKeeps(s: Store, g: nat, approvers: seq<string>)
    requires g in s.gates
    ensures s.requests <= RequestAll(s, g, approvers).requests
    decreases |approvers|
  {
    if approvers != [] { RequestAllKeeps(s, g, approvers[..|approvers| - 1]); }
  }

  lemma StepKeepsDecided(s: Store, step: Step)
    ensures KeepsDecided(s.requests, Apply(s, step).requests)
  {
    match step
    case Create(_, _) =>
    case Activate(g, approvers) =>
      ActivateRequests(s, g, approvers);
      if g in s.gates { RequestAllKeeps(s, g, approvers); }
    case Decide(r, actor, approve, eval) =>
      if DecideRequest(s, r, actor, approve, eval).Ok? { DecideRequests(s, r, actor, approve, eval); }
    case Delegate(_, _, _) =>
    case Expire(_, _) =>
  }

  /** The transition guard makes every approval and rejection final, over every run. */
  lemma {:induction false} DecisionsFinal(s: Store, steps: seq<Step>)
    ensures KeepsDecided(s.requests, Run(s, steps).requests)
    decreases |steps|
  {
    if steps != [] {
      DecisionsFinal(s, steps[..|steps| - 1]);
      StepKeepsDecided(Run(s, steps[..|steps| - 1]), steps[|steps| - 1]);
    }
  }

  // -------------------------------------------------------------------------------------------
  // For runs that exist
  // -------------------------------------------------------------------------------------------

  /** Somebody who may decide a pending request. */
  function Decider(id: string): Actor {
    Actor(id, false, true, false, false, "decided", Some([]), "")
  }

  /** No expression evaluates. */
  function Silent(): string -> Result<bool> {
    _ => Err("no expression")
  }
}
